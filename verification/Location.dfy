/** The text of a location payload: coordinates, an address line and a description. */
module Location {
  import opened Wrappers

  /** The coordinates are the text they are printed as. */
  datatype Place = Place(coordinates: string, address: string, description: string)

  // ----- searching -----

  /** std::string::find of a newline. */
  function FindNewline(s: string, start: nat): (r: Option<nat>)
    requires start <= |s|
    ensures match r
            case Some(k) => start <= k < |s| && s[k] == '\n' && forall j :: start <= j < k ==> s[j] != '\n'
            case None => forall j :: start <= j < |s| ==> s[j] != '\n'
    decreases |s| - start
  {
    if start == |s| then None
    else if s[start] == '\n' then Some(start)
    else FindNewline(s, start + 1)
  }

  predicate PairAt(s: string, k: nat)
  {
    k + 1 < |s| && s[k] == '\\' && s[k + 1] == 'n'
  }

  /** A backslash with an n behind it. */
  ghost predicate HasPair(s: string)
  {
    exists k: nat :: PairAt(s, k)
  }

  /** std::string::find of the pair. */
  function FindPair(s: string, start: nat): (r: Option<nat>)
    requires start <= |s|
    ensures match r
            case Some(k) => start <= k && PairAt(s, k) && forall j: nat :: start <= j < k ==> !PairAt(s, j)
            case None => forall j: nat :: start <= j ==> !PairAt(s, j)
    decreases |s| - start
  {
    if PairAt(s, start) then Some(start)
    else if start == |s| then None
    else FindPair(s, start + 1)
  }

  // ----- unescaping -----

  /** One pass from left to right. */
  function Unescaped(s: string): string
  {
    if s == [] then []
    else if PairAt(s, 0) then ['\n'] + Unescaped(s[2..])
    else [s[0]] + Unescaped(s[1..])
  }

  lemma {:induction false} UnescapedPrefix(s: string, k: nat)
    requires k <= |s| && forall j: nat :: j < k ==> !PairAt(s, j)
    ensures Unescaped(s) == s[..k] + Unescaped(s[k..])
  {
    if k > 0 {
      forall j: nat | j < k - 1
        ensures !PairAt(s[1..], j)
      {
        assert !PairAt(s, j + 1);
      }
      assert !PairAt(s, 0);
      UnescapedPrefix(s[1..], k - 1);
      assert s[1..][k - 1..] == s[k..] && s[..k] == [s[0]] + s[1..][..k - 1];
    } else {
      assert s[..0] == [] && s[0..] == s;
    }
  }

  /** Replacing the first pair does not change what one pass makes of the text. */
  lemma ReplaceFirst(s: string, k: nat)
    requires PairAt(s, k) && forall j: nat :: j < k ==> !PairAt(s, j)
    ensures Unescaped(s[..k] + "\n" + s[k + 2..]) == Unescaped(s)
  {
    var t := s[..k] + "\n" + s[k + 2..];
    forall j: nat | j < k
      ensures !PairAt(t, j)
    {
      assert !PairAt(s, j);
    }
    assert !PairAt(t, k);
    UnescapedPrefix(t, k + 1);
    UnescapedPrefix(s, k);
    assert t[..k + 1] == s[..k] + "\n" && t[k + 1..] == s[k + 2..];
    assert PairAt(s[k..], 0) && s[k..][2..] == s[k + 2..];
  }

  lemma {:induction false} NoPairIn(s: string)
    ensures !HasPair(Unescaped(s))
  {
    if s != [] {
      var rest := if PairAt(s, 0) then s[2..] else s[1..];
      NoPairIn(rest);
      var u := Unescaped(rest);
      forall k: nat
        ensures !PairAt(Unescaped(s), k)
      {
        if k > 0 {
          assert !PairAt(u, k - 1);
        } else if PairAt(Unescaped(s), 0) {
          FirstUnescaped(rest);
          assert false;
        }
      }
    }
  }

  /** An n at the front was there before, since only newlines are put in. */
  lemma FirstUnescaped(s: string)
    ensures Unescaped(s) != [] && Unescaped(s)[0] == 'n' ==> s != [] && s[0] == 'n'
  {
  }

  /** Unescaping leaves a text alone exactly when it has no pair. */
  lemma UnescapedSame(s: string)
    ensures Unescaped(s) == s <==> !HasPair(s)
  {
    NoPairIn(s);
    if !HasPair(s) {
      UnescapedPrefix(s, |s|);
      assert s[..|s|] == s && s[|s|..] == [];
    }
  }

  /** The replace loop: it searches from the start again after every replacement. */
  method Unescape(s: string) returns (r: string)
    ensures r == Unescaped(s) && !HasPair(r)
  {
    r := s;
    var endpos := FindPair(r, 0);
    while endpos.Some?
      invariant Unescaped(r) == Unescaped(s) && endpos == FindPair(r, 0)
      decreases |r|
    {
      ReplaceFirst(r, endpos.value);
      r := r[..endpos.value] + "\n" + r[endpos.value + 2..];
      endpos := FindPair(r, 0);
    }
    UnescapedSame(r);
  }

  /** Every newline written as a backslash and an n. */
  function Escaped(s: string): string
  {
    if s == [] then [] else (if s[0] == '\n' then "\\n" else [s[0]]) + Escaped(s[1..])
  }

  lemma EscapedFirst(s: string)
    ensures Escaped(s) != [] && Escaped(s)[0] == 'n' ==> s != [] && s[0] == 'n'
  {
  }

  lemma UnescapedPlain(c: char, s: string)
    requires !(c == '\\' && s != [] && s[0] == 'n')
    ensures Unescaped([c] + s) == [c] + Unescaped(s)
  {
    assert ([c] + s)[1..] == s;
  }

  lemma UnescapedPair(s: string)
    ensures Unescaped("\\n" + s) == "\n" + Unescaped(s)
  {
    assert PairAt("\\n" + s, 0) && ("\\n" + s)[2..] == s;
  }

  /** Unescaping gives back every text that had no such pair before its newlines were escaped. */
  lemma {:induction false} UnescapedEscaped(s: string)
    requires !HasPair(s)
    ensures Unescaped(Escaped(s)) == s
  {
    if s != [] {
      var c, rest := s[0], s[1..];
      forall k: nat
        ensures !PairAt(rest, k)
      {
        assert !PairAt(s, k + 1);
      }
      UnescapedEscaped(rest);
      assert s == [c] + rest;
      if c == '\n' {
        UnescapedPair(Escaped(rest));
      } else {
        assert !PairAt(s, 0);
        EscapedFirst(rest);
        UnescapedPlain(c, Escaped(rest));
      }
    }
  }

  // ----- splitting -----

  /** At most n splits at newlines; an empty rest makes no line. */
  function SplitLines(s: string, n: nat): seq<string>
  {
    match FindNewline(s, 0)
    case Some(k) => if n == 0 then [s] else [s[..k]] + SplitLines(s[k + 1..], n - 1)
    case None => if s == [] then [] else [s]
  }

  lemma {:induction false} FindShifted(s: string, start: nat, i: nat)
    requires start + i <= |s|
    ensures FindNewline(s, start + i)
         == match FindNewline(s[start..], i) case Some(k) => Some(start + k) case None => None
    decreases |s| - i
  {
    if start + i < |s| {
      assert s[start..][i] == s[start + i];
      FindShifted(s, start, i + 1);
    }
  }

  /** One more line of the rest, or none. */
  lemma SplitRest(s: string, start: nat, n: nat)
    requires start <= |s|
    ensures SplitLines(s[start..], n)
         == match FindNewline(s, start)
            case Some(k) => if n == 0 then [s[start..]] else [s[start..k]] + SplitLines(s[k + 1..], n - 1)
            case None => if start == |s| then [] else [s[start..]]
  {
    FindShifted(s, start, 0);
    match FindNewline(s, start)
    case Some(k) =>
      assert s[start..][k - start + 1..] == s[k + 1..] && s[start..][..k - start] == s[start..k];
    case None =>
  }

  /** The lines so far and those of the rest, with n splits left, are the given ones. */
  ghost predicate Progress(s: string, lines: seq<string>, start: nat, n: nat, all: seq<string>)
  {
    start <= |s| && lines + SplitLines(s[start..], n) == all
  }

  lemma SplitMore(s: string, start: nat, k: nat, n: nat)
    requires start <= |s| && FindNewline(s, start) == Some(k)
    ensures start <= k < |s| && SplitLines(s[start..], n + 1) == [s[start..k]] + SplitLines(s[k + 1..], n)
  {
    SplitRest(s, start, n + 1);
  }

  lemma ProgressStep(s: string, lines: seq<string>, start: nat, k: nat, n: nat, all: seq<string>)
    requires Progress(s, lines, start, n + 1, all) && FindNewline(s, start) == Some(k)
    ensures Progress(s, lines + [s[start..k]], k + 1, n, all)
  {
    SplitMore(s, start, k, n);
    Regroup(lines, s[start..k], SplitLines(s[k + 1..], n));
  }

  lemma Regroup(lines: seq<string>, line: string, rest: seq<string>)
    ensures lines + ([line] + rest) == (lines + [line]) + rest
  {
  }

  lemma ProgressEnd(s: string, lines: seq<string>, start: nat, n: nat, all: seq<string>)
    requires Progress(s, lines, start, n, all) && (n == 0 || FindNewline(s, start) == None)
    ensures all == lines + (if start < |s| then [s[start..]] else [])
  {
    SplitRest(s, start, n);
  }

  lemma ProgressStart(s: string, n: nat)
    ensures Progress(s, [], 0, n, SplitLines(s, n))
  {
    assert s[0..] == s;
  }

  method Split(s: string) returns (lines: seq<string>)
    requires s != []
    ensures lines == SplitLines(s, 2) && lines != []
  {
    lines := [];
    ghost var left: nat :| left == 2;
    ghost var all := SplitLines(s, left);
    ProgressStart(s, left);
    var startpos := 0;
    var endpos := FindNewline(s, startpos);
    while |lines| < 2 && endpos.Some?
      invariant |lines| + left == 2 && Progress(s, lines, startpos, left, all)
      invariant startpos <= |s| && endpos == FindNewline(s, startpos)
      invariant startpos == 0 || lines != []
      decreases |s| - startpos
    {
      left := left - 1;
      ProgressStep(s, lines, startpos, endpos.value, left, all);
      lines := lines + [s[startpos..endpos.value]];
      startpos := endpos.value + 1;
      endpos := FindNewline(s, startpos);
    }
    ProgressEnd(s, lines, startpos, left, all);
    if startpos < |s| {
      lines := lines + [s[startpos..]];
    }
  }

  // ----- reading and printing -----

  function PlaceOf(lines: seq<string>): Place
    requires lines != []
  {
    Place(lines[0], if |lines| > 1 then lines[1] else "", if |lines| > 2 then Unescaped(lines[2]) else "")
  }

  /**
   * None where the source throws: on an empty payload and on coordinates it cannot parse.
   * Which it can is given, since parsing numbers is the library's business.
   */
  method Deserialize(payload: string, parses: string -> bool) returns (r: Option<Place>)
    ensures r == PlaceIn(payload, parses)
  {
    if |payload| < 1 {
      return None;
    }
    var lines := Split(payload);
    if !parses(lines[0]) {
      return None;
    }
    var address, description := "", "";
    if |lines| > 1 {
      address := lines[1];
      if |lines| > 2 {
        description := Unescape(lines[2]);
      }
    }
    return Some(Place(lines[0], address, description));
  }

  function PlaceIn(payload: string, parses: string -> bool): Option<Place>
  {
    var lines := SplitLines(payload, 2);
    if lines == [] || !parses(lines[0]) then None else Some(PlaceOf(lines))
  }

  function Printed(p: Place): string
  {
    p.coordinates
    + (if p.address == "" then ""
       else "\n" + p.address + (if p.description == "" then "" else "\n" + p.description))
  }

  lemma {:induction false} FindPast(s: string, start: nat, k: nat)
    requires start <= k <= |s| && forall j :: start <= j < k ==> s[j] != '\n'
    ensures FindNewline(s, start) == FindNewline(s, k)
    decreases k - start
  {
    if start < k {
      FindPast(s, start + 1, k);
    }
  }

  lemma SplitFirst(line: string, rest: string, n: nat)
    requires '\n' !in line && n > 0
    ensures SplitLines(line + "\n" + rest, n) == [line] + SplitLines(rest, n - 1)
  {
    var s := line + "\n" + rest;
    FindPast(s, 0, |line|);
    assert s[..|line|] == line && s[|line| + 1..] == rest;
  }

  lemma SplitNone(line: string, n: nat)
    requires '\n' !in line || n == 0
    ensures SplitLines(line, n) == if line == [] then [] else [line]
  {
  }

  lemma SplitPrinted(p: Place)
    requires p.coordinates != "" && '\n' !in p.coordinates && '\n' !in p.address
    ensures SplitLines(Printed(p), 2)
         == [p.coordinates] + (if p.address == "" then []
                               else [p.address] + (if p.description == "" then [] else [p.description]))
  {
    if p.address == "" {
      assert Printed(p) == p.coordinates;
      SplitNone(p.coordinates, 2);
    } else if p.description == "" {
      assert Printed(p) == p.coordinates + "\n" + p.address;
      SplitFirst(p.coordinates, p.address, 2);
      SplitNone(p.address, 1);
    } else {
      var rest := p.address + "\n" + p.description;
      assert Printed(p) == p.coordinates + "\n" + rest;
      SplitFirst(p.coordinates, rest, 2);
      SplitFirst(p.address, p.description, 1);
      SplitNone(p.description, 0);
    }
  }

  /**
   * A place is read back as it was printed exactly when its coordinates can be parsed, its
   * address is one line, there is no description without an address, and the description
   * has no escaped newline.
   */
  lemma PlaceRoundTrip(p: Place, parses: string -> bool)
    requires p.coordinates != "" && '\n' !in p.coordinates
    ensures PlaceIn(Printed(p), parses) == Some(p)
            <==> parses(p.coordinates) && '\n' !in p.address
                 && (p.address == "" ==> p.description == "") && !HasPair(p.description)
  {
    if '\n' !in p.address {
      SplitPrinted(p);
      UnescapedSame(p.description);
      assert !HasPair("");
    } else {
      ManyLines(p);
    }
  }

  lemma FirstPart(s: string, tail: string)
    requires '\n' in s
    ensures SplitLines(s + tail, 1) != [] && SplitLines(s + tail, 1)[0] != s
  {
    assert '\n' in s + tail;
    var k := FindNewline(s + tail, 0).value;
    assert '\n' !in (s + tail)[..k];
    assert SplitLines(s + tail, 1) == [(s + tail)[..k]] + SplitLines((s + tail)[k + 1..], 0);
  }

  lemma ManyLines(p: Place)
    requires p.coordinates != "" && '\n' !in p.coordinates && '\n' in p.address
    ensures SplitLines(Printed(p), 2) != [] && PlaceOf(SplitLines(Printed(p), 2)).address != p.address
  {
    var tail := if p.description == "" then "" else "\n" + p.description;
    var rest := p.address + tail;
    assert Printed(p) == p.coordinates + "\n" + rest;
    SplitFirst(p.coordinates, rest, 2);
    FirstPart(p.address, tail);
  }

  lemma ThreeLines(c: string, a: string, d: string, n: nat)
    requires '\n' !in c && '\n' !in a && d != "" && n == 2
    ensures SplitLines(c + "\n" + (a + "\n" + d), n) == [c, a, d]
  {
    SplitFirst(c, a + "\n" + d, n);
    SplitFirst(a, d, n - 1);
    SplitNone(d, n - 2);
  }

  lemma TwoLines(c: string, a: string, n: nat)
    requires '\n' !in c && '\n' !in a && a != "" && n == 2
    ensures SplitLines(c + "\n" + a, n) == [c, a]
  {
    SplitFirst(c, a, n);
    SplitNone(a, n - 1);
  }

  /** Three lines are coordinates, address and description, which may go on behind further newlines; two or one lack the last ones. */
  lemma PlaceLines(c: string, a: string, d: string, parses: string -> bool)
    requires c != "" && '\n' !in c && '\n' !in a && a != "" && d != "" && parses(c)
    ensures PlaceIn(c + "\n" + (a + "\n" + d), parses) == Some(Place(c, a, Unescaped(d)))
    ensures PlaceIn(c + "\n" + a, parses) == Some(Place(c, a, ""))
    ensures PlaceIn(c, parses) == Some(Place(c, "", ""))
  {
    ThreeLines(c, a, d, 2);
    TwoLines(c, a, 2);
    SplitNone(c, 2);
  }
}
