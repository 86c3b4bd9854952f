/** Base64: an encoder whose last group reads past its input, and two decoders. */
module Base64 {
  import opened Bytes
  import opened Bits
  import opened Wrappers
  import opened Accumulator

  /** b64_chars, then the character the output is filled with. */
  const CAPITALS: string := "ABCDEFGHIJKLMNOPQRSTUVWXYZ"
  const LETTERS: string := "abcdefghijklmnopqrstuvwxyz"
  const CHARS: string := CAPITALS + LETTERS + "0123456789+/="
  const PAD := 64

  /** Section 4 of RFC 4648: twenty-four bits as four digits. */
  function Group(octets: seq<Byte>): (ds: seq<nat>)
    requires |octets| == 3
    ensures |ds| == 4 && Digits(64, ds)
  {
    ToDigits(64, Value(256, octets), 4)
  }

  /**
   * The digits of the input, without padding. A short last group takes its missing bits
   * from the byte given, which in the standard is zero.
   */
  function Encoded(from: seq<Byte>, beyond: Byte): (ds: seq<nat>)
    ensures Digits(64, ds)
  {
    if from == [] then []
    else if |from| == 1 then Group(from + [beyond, 0])[..2]
    else if |from| == 2 then Group(from + [beyond])[..3]
    else Group(from[..3]) + Encoded(from[3..], beyond)
  }

  /** The characters of digits, padded to whole groups of four. */
  function Text(ds: seq<nat>): (s: string)
    requires Digits(64, ds)
    ensures |s| % 4 == 0
  {
    if |ds| >= 4 then Chars(ds[..4]) + Text(ds[4..])
    else if ds == [] then []
    else Chars(ds) + Pads(4 - |ds|)
  }

  function Pads(n: nat): (s: string)
    ensures |s| == n
  {
    seq(n, i => '=')
  }

  function Chars(ds: seq<nat>): (s: string)
    requires Digits(64, ds)
    ensures |s| == |ds|
  {
    seq(|ds|, i requires 0 <= i < |ds| => CHARS[ds[i]])
  }

  // ----- encoding -----

  /** The digits cut from three octets. */
  function Spread(a: nat, b: nat, c: nat): (ds: seq<nat>)
    ensures |ds| == 4
  {
    [a / 4, a % 4 * 16 + b / 16, b % 16 * 4 + c / 64, c % 64]
  }

  lemma SpreadIsGroup(a: Byte, b: Byte, c: Byte)
    ensures Spread(a, b, c) == Group([a, b, c])
  {
    var s := Spread(a, b, c);
    Value4(s);
    Value3(a, b, c);
    SumOfCuts(a / 4, a % 4, b / 16, b % 16, c / 64, c % 64);
    DigitsAreToDigits(64, s);
  }

  lemma SumOfCuts(a1: nat, a0: nat, b1: nat, b0: nat, c1: nat, c0: nat)
    ensures ((a1 * 64 + (a0 * 16 + b1)) * 64 + (b0 * 4 + c1)) * 64 + c0
         == ((a1 * 4 + a0) * 256 + (b1 * 16 + b0)) * 256 + (c1 * 64 + c0)
  {
  }

  lemma Value3(a: nat, b: nat, c: nat)
    ensures Value(256, [a, b, c]) == (a * 256 + b) * 256 + c
  {
    ValueSnoc(256, [a, b], c);
    ValueSnoc(256, [a], b);
    assert [a, b] + [c] == [a, b, c] && [a] + [b] == [a, b] && [a][..0] == [];
  }

  lemma Value4(d: seq<nat>)
    requires |d| == 4
    ensures Value(64, d) == ((d[0] * 64 + d[1]) * 64 + d[2]) * 64 + d[3]
  {
    forall i: nat | i < 4
      ensures Value(64, d[..i + 1]) == Value(64, d[..i]) * 64 + d[i]
    {
      assert d[..i + 1] == d[..i] + [d[i]];
      ValueSnoc(64, d[..i], d[i]);
    }
    assert d[..4] == d && d[..0] == [];
  }

  /** Bits of two octets in one digit: m is the power of two the first is shifted by. */
  method Merge(x: nat, m: nat, y: nat) returns (r: nat)
    requires (m == 4 || m == 16) && y < m
    ensures m == 4 ==> r == x % 16 * 4 + y
    ensures m == 16 ==> r == x % 4 * 16 + y
  {
    PowersOfTwo();
    if m == 4 {
      OrDisjoint(x, y, 2);
      Quotient(x * 4 + y, 64, x / 16, x % 16 * 4 + y);
    } else {
      OrDisjoint(x, y, 4);
      Quotient(x * 16 + y, 64, x / 4, x % 4 * 16 + y);
    }
    return Or(x * m, y) % 64;
  }

  method GroupDigits(a: Byte, b: Byte, c: Byte) returns (d0: nat, d1: nat, d2: nat, d3: nat)
    ensures d0 < 64 && d1 < 64 && d2 < 64 && d3 < 64
    ensures Group([a, b, c]) == [d0, d1, d2, d3]
  {
    SpreadIsGroup(a, b, c);
    d0 := a / 4 % 64;
    d1 := Merge(a, 16, b / 16);
    d2 := Merge(b, 4, c / 64);
    d3 := c % 64;
    assert d0 == a / 4;
  }

  lemma CharsOfFour(d0: nat, d1: nat, d2: nat, d3: nat)
    requires d0 < 64 && d1 < 64 && d2 < 64 && d3 < 64
    ensures Chars([d0, d1, d2, d3]) == [CHARS[d0], CHARS[d1], CHARS[d2], CHARS[d3]]
  {
  }

  method PutGroup(to: array<char>, j: nat, from: seq<Byte>, i: nat)
    requires i + 3 <= |from| && j + 4 <= to.Length
    modifies to
    ensures to[..j + 4] == old(to[..j]) + Chars(Group([from[i], from[i + 1], from[i + 2]]))
    ensures forall k :: j + 4 <= k < to.Length ==> to[k] == old(to[k])
  {
    var d0, d1, d2, d3 := GroupDigits(from[i], from[i + 1], from[i + 2]);
    CharsOfFour(d0, d1, d2, d3);
    to[j] := CHARS[d0];
    to[j + 1] := CHARS[d1];
    to[j + 2] := CHARS[d2];
    to[j + 3] := CHARS[d3];
    assert to[j..j + 4] == [CHARS[d0], CHARS[d1], CHARS[d2], CHARS[d3]];
    assert to[..j + 4] == to[..j] + to[j..j + 4];
  }

  lemma GroupSplit(from: seq<Byte>, i: nat, beyond: Byte)
    requires i + 3 <= |from|
    ensures Text(Encoded(from[i..], beyond))
         == Chars(Group([from[i], from[i + 1], from[i + 2]])) + Text(Encoded(from[i + 3..], beyond))
  {
    var g := Group([from[i], from[i + 1], from[i + 2]]);
    assert from[i..][..3] == [from[i], from[i + 1], from[i + 2]];
    assert from[i..][3..] == from[i + 3..];
    assert (g + Encoded(from[i + 3..], beyond))[..4] == g;
    assert (g + Encoded(from[i + 3..], beyond))[4..] == Encoded(from[i + 3..], beyond);
  }

  lemma EncodedOne(a: Byte, beyond: Byte)
    ensures Encoded([a], beyond) == [a / 4, a % 4 * 16 + beyond / 16]
  {
    SpreadIsGroup(a, beyond, 0);
    assert [a] + [beyond, 0] == [a, beyond, 0];
  }

  lemma EncodedTwo(a: Byte, b: Byte, beyond: Byte)
    ensures Encoded([a, b], beyond) == [a / 4, a % 4 * 16 + b / 16, b % 16 * 4 + beyond / 64]
  {
    SpreadIsGroup(a, b, beyond);
    assert [a, b] + [beyond] == [a, b, beyond];
  }

  lemma TextOfTwo(d0: nat, d1: nat)
    requires d0 < 64 && d1 < 64
    ensures Text([d0, d1]) == [CHARS[d0], CHARS[d1], '=', '=']
  {
  }

  lemma TextOfThree(d0: nat, d1: nat, d2: nat)
    requires d0 < 64 && d1 < 64 && d2 < 64
    ensures Text([d0, d1, d2]) == [CHARS[d0], CHARS[d1], CHARS[d2], '=']
  {
  }

  /** The digits of a short last group; the third is arbitrary if it is not written. */
  method TailDigits(t: seq<Byte>, beyond: Byte) returns (d0: nat, d1: nat, d2: nat)
    requires 0 < |t| < 3
    ensures d0 < 64 && d1 < 64 && d2 < 64
    ensures Encoded(t, beyond) == if |t| == 1 then [d0, d1] else [d0, d1, d2]
  {
    var b: nat := if |t| == 2 then t[1] else beyond;
    d0 := t[0] / 4 % 64;
    d1 := Merge(t[0], 16, b / 16);
    d2 := Merge(b, 4, beyond / 64);
    assert d0 == t[0] / 4;
    if |t| == 1 {
      assert t == [t[0]];
      EncodedOne(t[0], beyond);
    } else {
      assert t == [t[0], t[1]];
      EncodedTwo(t[0], t[1], beyond);
    }
  }

  /** It reads what lies beyond the input. */
  method PutTail(to: array<char>, j: nat, t: seq<Byte>, beyond: Byte)
    requires 0 < |t| < 3 && j + 4 == to.Length && to[j + 2] == '=' && to[j + 3] == '='
    modifies to
    ensures to[..j] == old(to[..j]) && to[j..] == Text(Encoded(t, beyond))
  {
    var d0, d1, d2 := TailDigits(t, beyond);
    to[j] := CHARS[d0];
    to[j + 1] := CHARS[d1];
    if |t| == 2 {
      to[j + 2] := CHARS[d2];
      TextOfThree(d0, d1, d2);
    } else {
      TextOfTwo(d0, d1);
    }
  }

  method PutRest(to: array<char>, j: nat, from: seq<Byte>, i: nat, beyond: Byte)
    requires 0 < |from| - i < 3 && j + 4 == to.Length && to[j + 2] == '=' && to[j + 3] == '='
    modifies to
    ensures to[..] == old(to[..j]) + Text(Encoded(from[i..], beyond))
  {
    PutTail(to, j, from[i..], beyond);
    assert to[..] == to[..j] + to[j..];
  }

  lemma LastGroup(n: nat, i: nat, g: nat)
    requires i == 3 * g && i <= n && n - 2 <= i
    ensures g == n / 3 && n - i == n % 3
  {
  }

  lemma NothingLeft(from: seq<Byte>, i: nat, beyond: Byte)
    requires i == |from|
    ensures Text(Encoded(from[i..], beyond)) == []
  {
  }

  method PutNext(to: array<char>, j: nat, from: seq<Byte>, i: nat, beyond: Byte)
    requires i + 3 <= |from| && j + 4 <= to.Length
    modifies to
    ensures to[..j + 4] + Text(Encoded(from[i + 3..], beyond)) == old(to[..j]) + Text(Encoded(from[i..], beyond))
    ensures forall k :: j + 4 <= k < to.Length ==> to[k] == old(to[k])
  {
    GroupSplit(from, i, beyond);
    PutGroup(to, j, from, i);
  }

  /** The last group, if it is short. */
  method PutEnd(to: array<char>, j: nat, from: seq<Byte>, i: nat, beyond: Byte)
    requires i <= |from| && |from| - i == |from| % 3
    requires to.Length == j + (if |from| % 3 != 0 then 4 else 0) && forall k :: j <= k < to.Length ==> to[k] == '='
    modifies to
    ensures to[..] == old(to[..j]) + Text(Encoded(from[i..], beyond))
  {
    if |from| % 3 != 0 {
      PutRest(to, j, from, i, beyond);
    } else {
      NothingLeft(from, i, beyond);
      assert to[..] == to[..j] + [];
    }
  }

  lemma GroupFits(n: nat, g: nat)
    requires 3 * g < n - 2
    ensures 3 * g + 3 <= n && g < n / 3
  {
  }

  /** The loop guard needs two octets: with fewer its unsigned length - 2 wraps. */
  method Encode(from: seq<Byte>, beyond: Byte) returns (result: string)
    requires |from| >= 2
    ensures result == Text(Encoded(from, beyond))
  {
    var groups, pad := |from| / 3, |from| % 3;
    var to := new char[(groups + (if pad != 0 then 1 else 0)) * 4](_ => '=');
    var i, j := 0, 0;
    ghost var g := 0;
    ghost var text := Text(Encoded(from, beyond));
    while i < |from| - 2
      invariant i == 3 * g && j == 4 * g && i <= |from|
      invariant to[..j] + Text(Encoded(from[i..], beyond)) == text
      invariant forall k :: j <= k < to.Length ==> to[k] == '='
    {
      GroupFits(|from|, g);
      PutNext(to, j, from, i, beyond);
      i, j, g := i + 3, j + 4, g + 1;
    }
    LastGroup(|from|, i, g);
    PutEnd(to, j, from, i, beyond);
    return to[..];
  }

  // ----- decoding into a buffer -----

  datatype Problem = TooSmall | TooLarge

  /** The outcome for a buffer of len octets, the digits having n whole octets and some bits more. */
  function Verdict(n: nat, left: nat, len: nat): Result<nat, Problem>
  {
    if n > len then Err(TooSmall)
    else if n == len || (left != 0 && n + 1 == len) then Ok(len)
    else Err(TooLarge)
  }

  /** The buffer sizes refused, and for which reason. */
  lemma VerdictIs(n: nat, left: nat, len: nat)
    ensures Verdict(n, left, len) == Err(TooSmall) <==> len < n
    ensures Verdict(n, left, len) == Err(TooLarge) <==> len > if left == 0 then n else n + 1
    ensures Verdict(n, left, len).Ok? ==> Verdict(n, left, len).value == len
  {
  }

  /** Bits left over become a last octet of their own if the buffer has room for it. */
  method DecodeBuffer(from: string, to: array<Byte>, len: nat) returns (r: Result<nat, Problem>)
    requires len <= to.Length && Written(6, from, len) <= to.Length
    modifies to
    ensures var ds := Read(6, from);
      var n, left := 6 * |ds| / 8, 6 * |ds| % 8;
      && r == Verdict(n, left, len)
      && (n > len ==> len + 1 <= to.Length && to[..len + 1] <= Octets(6, ds))
      && (n <= len ==> to[..n] == Octets(6, ds))
      && (n < len && left != 0 ==> to[n] == Value(64, ds) % Pow(2, left))
      && Kept(to, Written(6, from, len) + (if n < len && left != 0 then 1 else 0))
  {
    BitCounts(|Read(6, from)|);
    var j: nat, value: nat, bits: nat := 0, 0, 0;
    for i := 0 to |from|
      invariant j <= len && j <= to.Length && Decoder(to[..j], value, bits) == Scanned(6, from, i)
      invariant j <= Written(6, from, len) && Kept(to, j)
    {
      var d := Table(6, from[i]);
      if d != NONE {
        Room(6, from, i, len);
        j, value, bits := Step(6, to, j, value, bits, d);
        if j > len {
          Overrun(6, from, i + 1);
          return Err(TooSmall);
        }
      }
    }
    AllScanned(6, from);
    if bits != 0 {
      if j < len {
        BitsHeld(6, Read(6, from));
        to[j] := LowBits(value, bits);
        j := j + 1;
      }
    }
    return if j != len then Err(TooLarge) else Ok(j);
  }

  /** value & (0xFF >> (8 - bits)) */
  function LowBits(value: nat, bits: nat): (r: Byte)
    requires bits < 8
    ensures r == value % Pow(2, bits)
  {
    assert Pow(2, bits) <= 128 by {
      PowersOfTwo();
      assert bits == 0 || bits == 1 || bits == 2 || bits == 3 || bits == 4 || bits == 5 || bits == 6 || bits == 7;
    }
    value % Pow(2, bits)
  }

  // ----- decoding by blocks -----

  function Alphabet(c: char): bool
  {
    Table(6, c) < 64
  }

  /** Four characters of which the last, or the last two, may be padding. */
  predicate Proper(s: string)
    requires |s| == 4
  {
    && Alphabet(s[0]) && Alphabet(s[1])
    && (Alphabet(s[2]) || (s[2] == '=' && s[3] == '='))
    && (Alphabet(s[3]) || s[3] == '=')
  }

  predicate AllProper(from: string)
    requires |from| % 4 == 0
  {
    from == [] || (Proper(from[..4]) && AllProper(from[4..]))
  }

  /** The octets of every four characters. */
  function Blocks(from: string): seq<nat>
    requires |from| % 4 == 0
  {
    if from == [] then [] else Octets(6, Read(6, from[..4])) + Blocks(from[4..])
  }

  /** How many octets come out, whatever the characters are. */
  function Size(from: string): nat
    requires |from| % 4 == 0
  {
    if from == [] then 0
    else (if from[2] == '=' then 1 else if from[3] == '=' then 2 else 3) + Size(from[4..])
  }

  /** Table entries put together six bits at a time; those above 63 spill into the bits above. */
  function WordOf(ds: seq<nat>): nat
  {
    if ds == [] then 0 else Or(WordOf(ds[..|ds| - 1]) * 64, ds[|ds| - 1])
  }

  function Entries(s: string): (ds: seq<nat>)
    ensures |ds| == |s|
  {
    seq(|s|, i requires 0 <= i < |s| => Table(6, s[i]))
  }

  /** The octets of one word, by where the padding characters stand. */
  function WordBytes(val: nat, c2: char, c3: char): seq<Byte>
  {
    [val / 65536 % 256]
    + (if c2 == '=' then [] else [val / 256 % 256] + (if c3 == '=' then [] else [val % 256]))
  }

  /** What comes out, proper or not. */
  function Raw(from: string): seq<Byte>
    requires |from| % 4 == 0
  {
    if from == [] then [] else WordBytes(WordOf(Entries(from[..4])), from[2], from[3]) + Raw(from[4..])
  }

  lemma OrDouble(x: nat, y: nat)
    ensures Or(2 * x, 2 * y) == 2 * Or(x, y)
  {
  }

  lemma OrSixty4(x: nat, y: nat)
    ensures Or(x * 64, y * 64) == Or(x, y) * 64
  {
    OrDouble(x, y);
    OrDouble(2 * x, 2 * y);
    OrDouble(4 * x, 4 * y);
    OrDouble(8 * x, 8 * y);
    OrDouble(16 * x, 16 * y);
    OrDouble(32 * x, 32 * y);
  }

  lemma WordOfFour(d0: nat, d1: nat, d2: nat, d3: nat)
    ensures WordOf([d0, d1, d2, d3]) == Or(Or(Or(d0 * 262144, d1 * 4096), d2 * 64), d3)
  {
    var one, two, three, four: seq<nat> := [d0], [d0, d1], [d0, d1, d2], [d0, d1, d2, d3];
    OrZero(d0);
    assert one[..0] == [] && two[..1] == one && three[..2] == two && four[..3] == three;
    assert WordOf(one) == d0;
    assert WordOf(two) == Or(d0 * 64, d1);
    assert WordOf(three) == Or(WordOf(two) * 64, d2);
    assert WordOf(four) == Or(WordOf(three) * 64, d3);
    OrSixty4(d0 * 64, d1);
    OrSixty4(d0 * 4096, d1 * 64);
    OrSixty4(WordOf(two) * 64, d2);
  }

  lemma TwoDigits(d0: nat, d1: nat)
    requires d0 < 64 && d1 < 64
    ensures Or(d0 * 262144, d1 * 4096) == (d0 * 64 + d1) * 4096
  {
    PowersOfTwo();
    OrDisjoint(d0, d1 * 4096, 18);
  }

  lemma ThreeDigits(x: nat, d2: nat)
    requires d2 < 64
    ensures Or(x * 4096, d2 * 64) == (x * 64 + d2) * 64
  {
    PowersOfTwo();
    OrDisjoint(x, d2 * 64, 12);
  }

  lemma FourDigits(x: nat, d3: nat)
    requires d3 < 64
    ensures Or(x * 64, d3) == x * 64 + d3
  {
    PowersOfTwo();
    OrDisjoint(x, d3, 6);
  }

  /** The table's entry for '=', 64, sets a bit below those that are used. */
  lemma PadBit(x: nat)
    ensures Or(x * 64, 64) / 256 == x / 4
  {
    PowersOfTwo();
    OrShiftRight(x * 64, 64, 8);
    OrZero(x / 4);
    assert x * 64 / 256 == x / 4;
  }

  lemma PadBits(x: nat)
    ensures Or(Or(x * 4096, 4096), 64) / 65536 == x / 16
  {
    PowersOfTwo();
    OrShiftRight(Or(x * 4096, 4096), 64, 16);
    OrShiftRight(x * 4096, 4096, 16);
    OrZero(x / 16);
    assert x * 4096 / 65536 == x / 16;
  }

  lemma WordFull(d0: nat, d1: nat, d2: nat, d3: nat)
    requires d0 < 64 && d1 < 64 && d2 < 64 && d3 < 64
    ensures WordOf([d0, d1, d2, d3]) == ((d0 * 64 + d1) * 64 + d2) * 64 + d3
  {
    WordOfFour(d0, d1, d2, d3);
    TwoDigits(d0, d1);
    ThreeDigits(d0 * 64 + d1, d2);
    FourDigits((d0 * 64 + d1) * 64 + d2, d3);
  }

  lemma WordOnePad(d0: nat, d1: nat, d2: nat, pad: nat)
    requires d0 < 64 && d1 < 64 && d2 < 64 && pad == 64
    ensures WordOf([d0, d1, d2, pad]) / 256 == ((d0 * 64 + d1) * 64 + d2) / 4
  {
    WordOfFour(d0, d1, d2, pad);
    TwoDigits(d0, d1);
    ThreeDigits(d0 * 64 + d1, d2);
    PadBit((d0 * 64 + d1) * 64 + d2);
  }

  lemma WordTwoPads(d0: nat, d1: nat, pad: nat)
    requires d0 < 64 && d1 < 64 && pad == 64
    ensures WordOf([d0, d1, pad, pad]) / 65536 == (d0 * 64 + d1) / 16
  {
    WordOfFour(d0, d1, pad, pad);
    TwoDigits(d0, d1);
    PadBits(d0 * 64 + d1);
  }

  /** Four entries of the table in one word. */
  method Word(d0: nat, d1: nat, d2: nat, d3: nat) returns (val: nat)
    ensures val == WordOf([d0, d1, d2, d3])
  {
    WordOfFour(d0, d1, d2, d3);
    return Or(Or(Or(d0 * 262144, d1 * 4096), d2 * 64), d3);
  }

  lemma ValueOfTwo(g: seq<nat>)
    requires |g| == 2
    ensures Value(64, g) == g[0] * 64 + g[1]
  {
    ValueSnoc(64, [], g[0]);
    ValueSnoc(64, [g[0]], g[1]);
    assert [] + [g[0]] == [g[0]] && [g[0]] + [g[1]] == g;
  }

  lemma ValueOfThree(g: seq<nat>)
    requires |g| == 3
    ensures Value(64, g) == (g[0] * 64 + g[1]) * 64 + g[2]
  {
    ValueOfTwo(g[..2]);
    ValueSnoc(64, g[..2], g[2]);
    assert g[..2] + [g[2]] == g;
  }

  /** Octets with the value that so many digits have without their spare bits. */
  lemma OctetsAre(g: seq<nat>, k: nat, s: seq<Byte>)
    requires Digits(64, g) && 6 * |g| == 8 * |s| + k && k < 8
    requires Value(256, s) == Shr(Value(64, g), k)
    ensures Octets(6, g) == s
  {
    BitCounts(|g|);
    DigitsAreToDigits(256, s);
  }

  lemma Shifts(v: nat)
    ensures Shr(v, 0) == v && Shr(v, 2) == v / 4 && Shr(v, 4) == v / 16
  {
    PowersOfTwo();
    ShrIsDiv(v, 2);
    ShrIsDiv(v, 4);
  }

  lemma Cut3(v: nat)
    requires v < 0x100_0000
    ensures v == (v / 65536 % 256 * 256 + v / 256 % 256) * 256 + v % 256
  {
    assert v / 65536 == v / 256 / 256;
  }

  lemma ProperEntries(s: string, t: seq<nat>)
    requires |s| == 4 && Proper(s) && t == Entries(s)
    ensures t[0] < 64 && t[1] < 64 && (t[2] < 64 <==> s[2] != '=') && (t[3] < 64 <==> s[3] != '=')
    ensures t[2] <= 64 && t[3] <= 64 && (s[2] == '=' ==> s[3] == '=')
  {
  }

  /** The digit of a table entry, if it is one. */
  function Digit(entry: nat): seq<nat>
  {
    if entry == NONE then [] else [entry]
  }

  /** The entries a reader keeps. */
  lemma ReadEntry(s: string, n: nat)
    requires n < |s|
    ensures Read(6, s[..n + 1]) == Read(6, s[..n]) + Digit(Entries(s)[n])
  {
    ReadSnoc(6, s, n);
  }

  lemma ReadFirst(s: string)
    requires s != []
    ensures Read(6, s[..1]) == Digit(Entries(s)[0])
  {
    ReadEntry(s, 0);
    assert s[..0] == [];
  }

  lemma ReadWhole(s: string, t: seq<nat>)
    requires |s| == 4 && t == Entries(s)
    ensures Read(6, s) == Digit(t[0]) + Digit(t[1]) + Digit(t[2]) + Digit(t[3])
  {
    ReadFirst(s);
    ReadEntry(s, 1);
    ReadEntry(s, 2);
    ReadEntry(s, 3);
    assert s[..4] == s;
  }

  lemma ReadFour(s: string, t: seq<nat>)
    requires |s| == 4 && Proper(s) && t == Entries(s)
    ensures Read(6, s) == [t[0], t[1]] + (if s[2] == '=' then [] else [t[2]] + (if s[3] == '=' then [] else [t[3]]))
    ensures t[0] < 64 && t[1] < 64 && (s[2] != '=' ==> t[2] < 64) && (s[3] != '=' ==> t[3] < 64)
  {
    ProperEntries(s, t);
    ReadWhole(s, t);
  }

  lemma OctetsOfFour(g: seq<nat>, val: nat)
    requires |g| == 4 && Digits(64, g) && val == ((g[0] * 64 + g[1]) * 64 + g[2]) * 64 + g[3]
    ensures Octets(6, g) == [val / 65536 % 256, val / 256 % 256, val % 256]
  {
    Value4(g);
    assert val < 0x100_0000;
    Cut3(val);
    Value3(val / 65536 % 256, val / 256 % 256, val % 256);
    Shifts(val);
    OctetsAre(g, 0, [val / 65536 % 256, val / 256 % 256, val % 256]);
  }

  lemma OctetsOfThree(g: seq<nat>, v: nat)
    requires |g| == 3 && Digits(64, g) && v == ((g[0] * 64 + g[1]) * 64 + g[2]) / 4
    ensures v < 0x1_0000 && Octets(6, g) == [v / 256, v % 256]
  {
    assert v < 0x1_0000;
    ValueOfThree(g);
    Shifts(Value(64, g));
    ValueOfBytes(v / 256, v % 256);
    DivMod(v, 256);
    OctetsAre(g, 2, [v / 256, v % 256]);
  }

  lemma TwoBytes(val: nat, v: nat)
    requires v == val / 256 < 0x1_0000
    ensures val / 65536 % 256 == v / 256
  {
  }

  lemma BytesOfThree(g: seq<nat>, val: nat)
    requires |g| == 3 && Digits(64, g) && val / 256 == ((g[0] * 64 + g[1]) * 64 + g[2]) / 4
    ensures [val / 65536 % 256, val / 256 % 256] == Octets(6, g)
  {
    OctetsOfThree(g, val / 256);
    TwoBytes(val, val / 256);
  }

  lemma OctetsOfTwo(g: seq<nat>, v: nat)
    requires |g| == 2 && Digits(64, g) && v == (g[0] * 64 + g[1]) / 16
    ensures v < 256 && Octets(6, g) == [v]
  {
    ValueOfTwo(g);
    Shifts(Value(64, g));
    ValueOfBytes(0, v);
    OctetsAre(g, 4, [v]);
  }

  lemma BytesOfTwo(g: seq<nat>, v: nat)
    requires |g| == 2 && Digits(64, g) && v == (g[0] * 64 + g[1]) / 16
    ensures [v % 256] == Octets(6, g)
  {
    OctetsOfTwo(g, v);
    assert v % 256 == v;
  }

  lemma ValueOfBytes(a: nat, b: nat)
    ensures Value(256, [a, b]) == a * 256 + b && Value(256, [b]) == b
  {
    ValueSnoc(256, [], b);
    ValueSnoc(256, [], a);
    ValueSnoc(256, [a], b);
    assert [] + [b] == [b] && [] + [a] == [a] && [a] + [b] == [a, b];
  }

  lemma BlocksConcat(a: string, b: string)
    requires |a| == 4 && |b| % 4 == 0
    ensures Blocks(a + b) == Blocks(a) + Blocks(b)
  {
    assert (a + b)[4..] == b && (a + b)[..4] == a && a[..4] == a && a[4..] == [];
  }

  lemma RawConcat(a: string, b: string)
    requires |a| == 4 && |b| % 4 == 0
    ensures Raw(a + b) == Raw(a) + Raw(b) && Size(a + b) == Size(a) + Size(b)
  {
    assert (a + b)[4..] == b && (a + b)[..4] == a && a[..4] == a && a[4..] == [];
  }

  lemma ProperConcat(a: string, b: string)
    requires |a| == 4 && |b| % 4 == 0
    ensures AllProper(a + b) <==> AllProper(a) && AllProper(b)
  {
    assert (a + b)[4..] == b && (a + b)[..4] == a && a[..4] == a && a[4..] == [];
  }

  lemma OneBlock(s: string)
    requires |s| == 4
    ensures Blocks(s) == Octets(6, Read(6, s)) && (AllProper(s) <==> Proper(s))
    ensures Size(s) == if s[2] == '=' then 1 else if s[3] == '=' then 2 else 3
    ensures Raw(s) == WordBytes(WordOf(Entries(s)), s[2], s[3])
  {
    assert s[..4] == s && s[4..] == [];
  }

  lemma NoPads(s: string, t: seq<nat>, val: nat)
    requires |s| == 4 && Proper(s) && s[2] != '=' && s[3] != '=' && t == Entries(s) && val == WordOf(t)
    ensures [val / 65536 % 256, val / 256 % 256, val % 256] == Octets(6, Read(6, s))
  {
    ReadFour(s, t);
    assert Read(6, s) == t && t == [t[0], t[1], t[2], t[3]];
    WordFull(t[0], t[1], t[2], t[3]);
    OctetsOfFour(t, val);
  }

  lemma OnePad(s: string, t: seq<nat>, val: nat)
    requires |s| == 4 && Proper(s) && s[2] != '=' && s[3] == '=' && t == Entries(s) && val == WordOf(t)
    ensures [val / 65536 % 256, val / 256 % 256] == Octets(6, Read(6, s))
  {
    ReadFour(s, t);
    assert Read(6, s) == [t[0], t[1], t[2]] && t == [t[0], t[1], t[2], t[3]];
    WordOnePad(t[0], t[1], t[2], t[3]);
    BytesOfThree([t[0], t[1], t[2]], val);
  }

  lemma TwoPads(s: string, t: seq<nat>, val: nat)
    requires |s| == 4 && Proper(s) && s[2] == '=' && s[3] == '=' && t == Entries(s) && val == WordOf(t)
    ensures [val / 65536 % 256] == Octets(6, Read(6, s))
  {
    ReadFour(s, t);
    assert Read(6, s) == [t[0], t[1]] && t == [t[0], t[1], t[3], t[3]];
    WordTwoPads(t[0], t[1], t[3]);
    BytesOfTwo([t[0], t[1]], val / 65536);
  }

  method PutBlock(to: seq<Byte>, s: string) returns (r: seq<Byte>)
    requires |s| == 4
    ensures AllProper(s) ==> r == to + Blocks(s)
    ensures r == to + Raw(s) && |r| == |to| + Size(s)
  {
    OneBlock(s);
    ghost var t := Entries(s);
    var val := Word(Table(6, s[0]), Table(6, s[1]), Table(6, s[2]), Table(6, s[3]));
    assert t == [t[0], t[1], t[2], t[3]];
    if s[2] == '=' {
      r := to + [val / 65536 % 256];
      if Proper(s) {
        TwoPads(s, t, val);
      }
    } else if s[3] == '=' {
      r := to + [val / 65536 % 256];
      r := r + [val / 256 % 256];
      if Proper(s) {
        OnePad(s, t, val);
      }
    } else {
      r := to + [val / 65536 % 256];
      r := r + [val / 256 % 256];
      r := r + [val % 256];
      if Proper(s) {
        NoPads(s, t, val);
      }
    }
  }

  /** What has come out before position i, and what the rest will give, make up the whole. */
  ghost predicate Behind(to: seq<Byte>, s: string, i: nat)
    requires i <= |s| && (|s| - i) % 4 == 0 && |s| % 4 == 0
  {
    && (AllProper(s) ==> AllProper(s[i..]) && to + Blocks(s[i..]) == Blocks(s))
    && to + Raw(s[i..]) == Raw(s) && |to| + Size(s[i..]) == Size(s)
  }

  lemma BehindRaw(to: seq<Byte>, a: string, b: string, all: seq<Byte>, size: nat)
    requires |a| == 4 && |b| % 4 == 0 && to + Raw(a + b) == all && |to| + Size(a + b) == size
    ensures (to + Raw(a)) + Raw(b) == all && |to| + Size(a) + Size(b) == size
  {
    RawConcat(a, b);
    Assoc(to, Raw(a), Raw(b));
  }

  lemma BehindBlocks(to: seq<nat>, a: string, b: string, all: seq<nat>)
    requires |a| == 4 && |b| % 4 == 0 && AllProper(a + b) && to + Blocks(a + b) == all
    ensures AllProper(a) && AllProper(b) && (to + Blocks(a)) + Blocks(b) == all
  {
    ProperConcat(a, b);
    BlocksConcat(a, b);
    Assoc(to, Blocks(a), Blocks(b));
  }

  lemma BehindNext(to: seq<Byte>, s: string, i: nat, r: seq<Byte>)
    requires i + 4 <= |s| && (|s| - i) % 4 == 0 && |s| % 4 == 0 && Behind(to, s, i)
    requires r == to + Raw(s[i..i + 4]) && |r| == |to| + Size(s[i..i + 4])
    requires AllProper(s[i..i + 4]) ==> r == to + Blocks(s[i..i + 4])
    ensures (|s| - (i + 4)) % 4 == 0 && Behind(r, s, i + 4)
  {
    var a, b := s[i..i + 4], s[i + 4..];
    assert s[i..] == a + b;
    BehindRaw(to, a, b, Raw(s), Size(s));
    if AllProper(s) {
      BehindBlocks(to, a, b, Blocks(s));
    }
  }

  /** What the loop reads of a string: behind a last group of three characters its terminating NUL. */
  function Seen(from: string): (s: string)
    requires |from| % 4 == 0 || |from| % 4 == 3
    ensures |s| % 4 == 0
  {
    if |from| % 4 == 3 then from + ['\0'] else from
  }

  /** The table has no entry beyond ASCII, nor the string a character beyond its NUL. */
  method DecodeBlocks(from: string) returns (to: seq<Byte>)
    requires |from| % 4 == 0 || |from| % 4 == 3
    requires forall i :: 0 <= i < |from| ==> from[i] as int < 128
    ensures to == Raw(Seen(from)) && |to| == Size(Seen(from))
    ensures |from| % 4 == 0 && AllProper(from) ==> to == Blocks(from)
  {
    to := [];
    var i := 0;
    var seen := Seen(from);
    while i < |from|
      invariant i <= |seen| && (|seen| - i) % 4 == 0 && Behind(to, seen, i)
    {
      FourLeft(|from|, |seen|, i);
      var next := PutBlock(to, seen[i..i + 4]);
      BehindNext(to, seen, i, next);
      to, i := next, i + 4;
    }
    FourLeft(|from|, |seen|, i);
    assert seen[i..] == [];
  }

  lemma FourLeft(n: nat, m: nat, i: nat)
    requires n <= m <= n + 1 && i <= m && (m - i) % 4 == 0
    ensures if i < n then i + 4 <= m else i == m
  {
  }

  lemma TableOfChars(d: nat)
    requires d < 64
    ensures Table(6, CHARS[d]) == d && CHARS[d] != '='
  {
    if d < 26 {
      assert CHARS[d] == CAPITALS[d];
      Consecutive(d);
    } else if d < 52 {
      assert CHARS[d] == LETTERS[d - 26];
      Consecutive(d - 26);
    }
  }

  lemma Consecutive(d: nat)
    requires d < 26
    ensures CAPITALS[d] as int == d + 'A' as int && LETTERS[d] as int == d + 'a' as int
  {
  }

  lemma TextSplit(ds: seq<nat>)
    requires |ds| >= 4 && Digits(64, ds)
    ensures Text(ds) == Text(ds[..4]) + Text(ds[4..]) && |Text(ds[..4])| == 4
  {
    var g := ds[..4];
    assert g[..4] == g && Text(g[4..]) == [];
  }

  lemma ReadDigit(ds: seq<nat>, d: nat)
    requires Digits(64, ds) && d < 64 && Read(6, Chars(ds)) == ds
    ensures Digits(64, ds + [d]) && Read(6, Chars(ds + [d])) == ds + [d]
  {
    TableOfChars(d);
    ReadAppend(6, Chars(ds), CHARS[d]);
    assert Chars(ds + [d]) == Chars(ds) + [CHARS[d]];
  }

  lemma {:induction false} ReadChars(ds: seq<nat>)
    requires Digits(64, ds)
    ensures Read(6, Chars(ds)) == ds
  {
    if ds != [] {
      var init, last := ds[..|ds| - 1], ds[|ds| - 1];
      assert ds == init + [last];
      ReadChars(init);
      ReadDigit(init, last);
    }
  }

  lemma {:induction false} ReadPads(n: nat)
    ensures Read(6, Pads(n)) == []
  {
    if n != 0 {
      ReadPads(n - 1);
      assert Pads(n)[..n - 1] == Pads(n - 1);
    }
  }

  lemma {:induction false} ReadText(ds: seq<nat>)
    requires Digits(64, ds)
    ensures Read(6, Text(ds)) == ds
  {
    if |ds| >= 4 {
      ReadConcat(6, Chars(ds[..4]), Text(ds[4..]));
      ReadChars(ds[..4]);
      ReadText(ds[4..]);
      assert ds == ds[..4] + ds[4..];
    } else if ds != [] {
      ReadConcat(6, Chars(ds), Pads(4 - |ds|));
      ReadChars(ds);
      ReadPads(4 - |ds|);
    }
  }

  lemma ProperGroup(g: seq<nat>)
    requires 0 < |g| <= 4 && Digits(64, g)
    ensures |Text(g)| == 4 && (Proper(Text(g)) <==> |g| != 1)
    ensures Text(g)[2] == '=' <==> |g| <= 2
    ensures Text(g)[3] == '=' <==> |g| <= 3
  {
    TableOfChars(g[0]);
    if |g| > 1 {
      TableOfChars(g[1]);
    }
    if |g| > 2 {
      TableOfChars(g[2]);
    }
    if |g| > 3 {
      TableOfChars(g[3]);
      assert g[..4] == g;
    }
  }

  lemma OneGroup(g: seq<nat>)
    requires 0 < |g| <= 4 && Digits(64, g)
    ensures |Text(g)| == 4 && Blocks(Text(g)) == Octets(6, g)
    ensures AllProper(Text(g)) <==> |g| != 1
    ensures Size(Text(g)) == if |g| == 1 then 1 else |g| - 1
  {
    ProperGroup(g);
    OneBlock(Text(g));
    ReadText(g);
  }

  lemma {:induction false} ShapeOfText(ds: seq<nat>, q: nat, r: nat)
    requires Digits(64, ds) && |ds| == 4 * q + r && r < 4
    ensures AllProper(Text(ds)) <==> r != 1
    ensures Size(Text(ds)) == 3 * q + (if r <= 1 then r else r - 1)
  {
    if q > 0 {
      ShapeOfText(ds[4..], q - 1, r);
      OneGroup(ds[..4]);
      TextSplit(ds);
      RawConcat(Text(ds[..4]), Text(ds[4..]));
      ProperConcat(Text(ds[..4]), Text(ds[4..]));
    } else if r > 0 {
      OneGroup(ds);
    }
  }

  lemma {:induction false} BlocksOfText(ds: seq<nat>)
    requires Digits(64, ds)
    ensures Blocks(Text(ds)) == Octets(6, ds)
  {
    if |ds| >= 4 {
      var g, rest := ds[..4], ds[4..];
      BlocksOfText(rest);
      OneGroup(g);
      TextSplit(ds);
      BlocksConcat(Text(g), Text(rest));
      BitCounts(4);
      OctetsConcat(6, g, rest);
      assert ds == g + rest;
    } else if ds != [] {
      OneGroup(ds);
    }
  }

  // ----- text without padding -----

  /** The octet that comes of the last digit and the table's entry for NUL. */
  function Spill(d: nat): Byte
  {
    if d % 4 < 2 then 64 else 192
  }

  lemma WordOfThree(d: seq<nat>, x: nat)
    requires |d| == 3 && Digits(64, d) && x == (d[0] * 64 + d[1]) * 64 + d[2]
    ensures WordOf(d + [NONE]) == Or(x * 64, NONE)
  {
    assert d + [NONE] == [d[0], d[1], d[2], NONE];
    WordOfFour(d[0], d[1], d[2], NONE);
    OrOfThree(d[0], d[1], d[2], x);
  }

  lemma OrOfThree(d0: nat, d1: nat, d2: nat, x: nat)
    requires d0 < 64 && d1 < 64 && d2 < 64 && x == (d0 * 64 + d1) * 64 + d2
    ensures Or(Or(d0 * 262144, d1 * 4096), d2 * 64) == x * 64
  {
    TwoDigits(d0, d1);
    ThreeDigits(d0 * 64 + d1, d2);
  }

  lemma OrOne(x: nat, one: nat)
    requires one == 1
    ensures Or(x, one) == if x % 2 == 0 then x + 1 else x
  {
    OrZero(x / 2);
  }

  lemma Times64(y: nat)
    ensures y * 64 % 256 == y % 4 * 64
  {
  }

  lemma Parity(x: nat, q: nat, r: nat)
    requires x == 4 * q + r && r < 4
    ensures x % 2 == 0 <==> r == 0 || r == 2
  {
    Quotient(x, 2, 2 * q + (if r < 2 then 0 else 1), if r == 0 || r == 2 then 0 else 1);
  }

  lemma OddOfFour(x: nat, y: nat, q: nat, r: nat)
    requires x == 4 * q + r && r < 4 && y == if x % 2 == 0 then x + 1 else x
    ensures y % 4 == if r < 2 then 1 else 3
  {
    Parity(x, q, r);
    Quotient(y, 4, q, if r < 2 then 1 else 3);
  }

  /** The same bit in the octet that is not used. */
  lemma LowPadBit(x: nat, one: nat)
    requires one == 1
    ensures Or(x * 64, one * 64) % 256 == Spill(x)
  {
    OrSixty4(x, one);
    OrOne(x, one);
    OddOfFour(x, Or(x, one), x / 4, x % 4);
    Times64(Or(x, one));
  }

  lemma CharAt(ds: seq<nat>, i: nat)
    requires Digits(64, ds) && i < |ds|
    ensures Table(6, Chars(ds)[i]) == ds[i] && Chars(ds)[i] != '='
  {
    TableOfChars(ds[i]);
  }

  lemma EntriesOfChars(ds: seq<nat>)
    requires Digits(64, ds)
    ensures Entries(Chars(ds)) == ds && forall i :: 0 <= i < |ds| ==> Chars(ds)[i] != '='
  {
    forall i | 0 <= i < |ds|
      ensures Table(6, Chars(ds)[i]) == ds[i] && Chars(ds)[i] != '='
    {
      CharAt(ds, i);
    }
  }

  lemma EntriesConcat(a: string, b: string)
    ensures Entries(a + b) == Entries(a) + Entries(b)
  {
  }

  /** The entries of three characters and the NUL. */
  lemma EntriesOfThree(d: seq<nat>, s: string)
    requires |d| == 3 && Digits(64, d) && s == Chars(d) + ['\0']
    ensures |s| == 4 && Entries(s) == d + [NONE] && s[2] != '=' && s[3] != '='
  {
    EntriesOfChars(d);
    EntriesConcat(Chars(d), ['\0']);
  }

  lemma ThreeBytes(d: seq<nat>, x: nat, val: nat)
    requires |d| == 3 && Digits(64, d) && x == (d[0] * 64 + d[1]) * 64 + d[2] && val == Or(x * 64, NONE)
    ensures [val / 65536 % 256] + [val / 256 % 256] == Octets(6, d)
    ensures val % 256 == Spill(d[2])
  {
    PadBit(x);
    LowPadBit(x, 1);
    BytesOfThree(d, val);
    LastDigit(d, x);
  }

  /** The last group of a text without padding: its two octets and a third. */
  lemma LastOfThree(d: seq<nat>)
    requires |d| == 3 && Digits(64, d)
    ensures Raw(Seen(Chars(d))) == Octets(6, d) + [Spill(d[2])]
  {
    var s, x := Seen(Chars(d)), (d[0] * 64 + d[1]) * 64 + d[2];
    EntriesOfThree(d, s);
    OneBlock(s);
    WordOfThree(d, x);
    var val := WordOf(d + [NONE]);
    ThreeBytes(d, x, val);
    Assoc([val / 65536 % 256], [val / 256 % 256], [val % 256]);
  }

  lemma LastDigit(d: seq<nat>, x: nat)
    requires |d| == 3 && x == (d[0] * 64 + d[1]) * 64 + d[2]
    ensures x % 4 == d[2] % 4
  {
    Quotient(x, 4, (d[0] * 64 + d[1]) * 16 + d[2] / 4, d[2] % 4);
  }

  lemma CharsConcat(a: seq<nat>, b: seq<nat>)
    requires Digits(64, a) && Digits(64, b)
    ensures Chars(a + b) == Chars(a) + Chars(b)
  {
  }

  lemma SeenConcat(a: string, b: string)
    requires |a| == 4 && (|b| % 4 == 0 || |b| % 4 == 3)
    ensures Seen(a + b) == a + Seen(b)
  {
  }

  /** A whole group, whether text is padded or not. */
  lemma WholeGroup(g: seq<nat>)
    requires |g| == 4 && Digits(64, g)
    ensures Raw(Chars(g)) == Octets(6, g)
  {
    EntriesOfChars(g);
    OneBlock(Chars(g));
    assert g == [g[0], g[1], g[2], g[3]];
    WordFull(g[0], g[1], g[2], g[3]);
    OctetsOfFour(g, WordOf(g));
  }

  lemma OneMoreGroup(g: seq<nat>, rest: seq<nat>, last: Byte)
    requires |g| == 4 && Digits(64, g) && Digits(64, rest) && |rest| % 4 == 3
    requires Raw(Seen(Chars(rest))) == Octets(6, rest) + [last]
    ensures |g + rest| % 4 == 3 && Raw(Seen(Chars(g + rest))) == Octets(6, g + rest) + [last]
  {
    WholeGroup(g);
    CharsConcat(g, rest);
    SeenConcat(Chars(g), Chars(rest));
    RawConcat(Chars(g), Seen(Chars(rest)));
    BitCounts(4);
    OctetsConcat(6, g, rest);
    Assoc(Octets(6, g), Octets(6, rest), [last]);
  }

  /**
   * The block decoder does not do without padding where the buffer decoder does: three
   * digits behind whole groups give their two octets and a third, made of the table's
   * entry for NUL.
   */
  lemma {:induction false} UnpaddedOneMore(ds: seq<nat>)
    requires Digits(64, ds) && |ds| % 4 == 3
    ensures Raw(Seen(Chars(ds))) == Octets(6, ds) + [Spill(ds[|ds| - 1])]
    decreases |ds|
  {
    if |ds| == 3 {
      LastOfThree(ds);
    } else {
      var g, rest := ds[..4], ds[4..];
      assert ds == g + rest && rest[|rest| - 1] == ds[|ds| - 1];
      UnpaddedOneMore(rest);
      OneMoreGroup(g, rest, Spill(ds[|ds| - 1]));
    }
  }

  // ----- decoding what was encoded -----

  lemma GroupOctets(t: seq<Byte>)
    requires |t| == 3
    ensures Octets(6, Group(t)) == t
  {
    ValueBound(256, t);
    FourDigitsThreeBytes();
    ValueToDigits(64, Value(256, t), 4);
    Shifts(Value(256, t));
    OctetsAre(Group(t), 0, t);
  }

  lemma FourDigitsThreeBytes()
    ensures Pow(64, 4) == Pow(256, 3)
  {
    assert Pow(64, 4) == 64 * Pow(64, 3) == 4096 * Pow(64, 2);
    assert Pow(256, 3) == 256 * Pow(256, 2);
    PowersOf256();
  }

  lemma TwoCarryOne(a: nat, b: nat)
    requires a < 256 && b < 16
    ensures Octets(6, [a / 4, a % 4 * 16 + b]) == [a]
  {
    Quotient(a * 16 + b, 16, a, b);
    assert a / 4 * 64 + (a % 4 * 16 + b) == a * 16 + b;
    OctetsOfTwo([a / 4, a % 4 * 16 + b], a);
  }

  lemma ThreeCarryTwo(a: nat, b: nat, c: nat)
    requires a < 256 && b < 256 && c < 4
    ensures Octets(6, [a / 4, a % 4 * 16 + b / 16, b % 16 * 4 + c]) == [a, b]
  {
    var ds := [a / 4, a % 4 * 16 + b / 16, b % 16 * 4 + c];
    var v := a * 256 + b;
    assert (ds[0] * 64 + ds[1]) * 64 + ds[2] == v * 4 + c;
    OctetsOfThree(ds, v);
    Quotient(v, 256, a, b);
  }

  lemma ShortOctets(t: seq<Byte>, beyond: Byte)
    requires 0 < |t| < 3
    ensures Octets(6, Encoded(t, beyond)) == t && |Encoded(t, beyond)| == |t| + 1
  {
    if |t| == 1 {
      assert t == [t[0]];
      EncodedOne(t[0], beyond);
      TwoCarryOne(t[0], beyond / 16);
    } else {
      assert t == [t[0], t[1]];
      EncodedTwo(t[0], t[1], beyond);
      ThreeCarryTwo(t[0], t[1], beyond / 64);
    }
  }

  lemma {:induction false} EncodedOctets(from: seq<Byte>, beyond: Byte, q: nat, r: nat)
    requires |from| == 3 * q + r && r < 3
    ensures Octets(6, Encoded(from, beyond)) == from
    ensures |Encoded(from, beyond)| == 4 * q + (if r == 0 then 0 else r + 1)
  {
    if q > 0 {
      var g, rest := Group(from[..3]), Encoded(from[3..], beyond);
      EncodedOctets(from[3..], beyond, q - 1, r);
      GroupOctets(from[..3]);
      BitCounts(4);
      OctetsConcat(6, g, rest);
      assert from == from[..3] + from[3..];
    } else if r > 0 {
      ShortOctets(from, beyond);
    }
  }

  /** Both decoders give back what was encoded, whatever byte lay beyond it. */
  lemma BothInvert(from: seq<Byte>, beyond: Byte)
    ensures var s := Text(Encoded(from, beyond));
      && Octets(6, Read(6, s)) == from
      && AllProper(s) && Blocks(s) == from && Size(s) == |from|
  {
    EncodedOctets(from, beyond, |from| / 3, |from| % 3);
    ReadText(Encoded(from, beyond));
    BlocksOfText(Encoded(from, beyond));
    ShapeOfText(Encoded(from, beyond), |from| / 3, if |from| % 3 == 0 then 0 else |from| % 3 + 1);
  }

  /** The buffer sizes the buffer decoder takes for it: the exact one, or one more if there was padding. */
  lemma SizesAccepted(from: seq<Byte>, beyond: Byte, len: nat)
    ensures var n := 6 * |Read(6, Text(Encoded(from, beyond)))|;
      Verdict(n / 8, n % 8, len) == Ok(len)
      <==> len == |from| || (|from| % 3 != 0 && len == |from| + 1)
  {
    EncodedOctets(from, beyond, |from| / 3, |from| % 3);
    ReadText(Encoded(from, beyond));
    Spare(|Encoded(from, beyond)|, |from| / 3, |from| % 3);
  }

  lemma Spare(n: nat, q: nat, r: nat)
    requires r < 3 && n == 4 * q + (if r == 0 then 0 else r + 1)
    ensures 6 * n / 8 == 3 * q + r && (6 * n % 8 == 0 <==> r == 0)
  {
  }

  /** For any digits, the two decoders agree whenever the block decoder has a meaning for the padding. */
  lemma DecodersAgree(ds: seq<nat>)
    requires Digits(64, ds)
    ensures Read(6, Text(ds)) == ds && Blocks(Text(ds)) == Octets(6, Read(6, Text(ds)))
    ensures AllProper(Text(ds)) <==> |ds| % 4 != 1
    ensures Size(Text(ds)) == 6 * |ds| / 8 <==> |ds| % 4 != 1
  {
    ReadText(ds);
    BlocksOfText(ds);
    ShapeOfText(ds, |ds| / 4, |ds| % 4);
  }

  /** When the encoder's output is that of the standard: its extra read must find zero bits. */
  lemma {:induction false} MeetsStandard(from: seq<Byte>, beyond: Byte, q: nat, r: nat)
    requires |from| == 3 * q + r && r < 3
    ensures Encoded(from, beyond) == Encoded(from, 0)
            <==> (r == 1 ==> beyond / 16 == 0) && (r == 2 ==> beyond / 64 == 0)
  {
    if q > 0 {
      MeetsStandard(from[3..], beyond, q - 1, r);
      var g := Group(from[..3]);
      assert Encoded(from, beyond)[4..] == Encoded(from[3..], beyond);
      assert Encoded(from, 0)[4..] == Encoded(from[3..], 0);
    } else if r == 1 {
      assert from == [from[0]];
      EncodedOne(from[0], beyond);
      EncodedOne(from[0], 0);
      assert Encoded(from, beyond)[1] == Encoded(from, 0)[1] + beyond / 16;
    } else if r == 2 {
      assert from == [from[0], from[1]];
      EncodedTwo(from[0], from[1], beyond);
      EncodedTwo(from[0], from[1], 0);
      assert Encoded(from, beyond)[2] == Encoded(from, 0)[2] + beyond / 64;
    }
  }

  lemma TextMeetsStandard(from: seq<Byte>, beyond: Byte)
    ensures Text(Encoded(from, beyond)) == Text(Encoded(from, 0))
            <==> (|from| % 3 == 1 ==> beyond / 16 == 0) && (|from| % 3 == 2 ==> beyond / 64 == 0)
  {
    MeetsStandard(from, beyond, |from| / 3, |from| % 3);
    ReadText(Encoded(from, beyond));
    ReadText(Encoded(from, 0));
  }

  // ----- the standard's alphabet and three of its examples -----

  /** Table 1 of RFC 4648. */
  function Letter(d: nat): char
    requires d < 64
  {
    if d < 26 then ('A' as int + d) as char
    else if d < 52 then ('a' as int + (d - 26)) as char
    else if d < 62 then ('0' as int + (d - 52)) as char
    else if d == 62 then '+' else '/'
  }

  lemma AlphabetIs(d: nat)
    requires d < 64
    ensures CHARS[d] == Letter(d)
  {
    if d < 26 {
      assert CHARS[d] == CAPITALS[d];
      Consecutive(d);
    } else if d < 52 {
      assert CHARS[d] == LETTERS[d - 26];
      Consecutive(d - 26);
    }
  }

  lemma LettersOf(ds: seq<nat>)
    requires Digits(64, ds)
    ensures forall i :: 0 <= i < |ds| ==> Chars(ds)[i] == Letter(ds[i])
  {
    forall i | 0 <= i < |ds|
      ensures Chars(ds)[i] == Letter(ds[i])
    {
      AlphabetIs(ds[i]);
    }
  }

  lemma ShortText(ds: seq<nat>)
    requires 0 < |ds| < 4 && Digits(64, ds)
    ensures |Text(ds)| == 4 && forall i :: 0 <= i < 4 ==> Text(ds)[i] == if i < |ds| then Letter(ds[i]) else '='
  {
    LettersOf(ds);
  }

  lemma WholeText(ds: seq<nat>)
    requires |ds| == 4 && Digits(64, ds)
    ensures |Text(ds)| == 4 && forall i :: 0 <= i < 4 ==> Text(ds)[i] == Letter(ds[i])
  {
    assert ds[..4] == ds && ds[4..] == [] && Text([]) == [] && Chars(ds) + [] == Chars(ds);
    LettersOf(ds);
  }

  lemma ExampleDigits(one: seq<Byte>, two: seq<Byte>, three: seq<Byte>)
    requires one == [0x66] && two == [0x66, 0x6f] && three == [0x66, 0x6f, 0x6f]
    ensures Encoded(one, 0) == [25, 32] && Encoded(two, 0) == [25, 38, 60] && Encoded(three, 0) == [25, 38, 61, 47]
  {
    EncodedOne(0x66, 0);
    EncodedTwo(0x66, 0x6f, 0);
    SpreadIsGroup(0x66, 0x6f, 0x6f);
    assert three[..3] == three && three[3..] == [] && Encoded([], 0) == [];
  }

  /** "f", "fo" and "foo" of section 10 of RFC 4648, where zero bits lie beyond the input. */
  lemma Examples(one: seq<Byte>, two: seq<Byte>, three: seq<Byte>)
    requires one == [0x66] && two == [0x66, 0x6f] && three == [0x66, 0x6f, 0x6f]
    ensures Text(Encoded(one, 0)) == "Zg==" && Text(Encoded(two, 0)) == "Zm8=" && Text(Encoded(three, 0)) == "Zm9v"
  {
    ExampleDigits(one, two, three);
    ShortText(Encoded(one, 0));
    ShortText(Encoded(two, 0));
    WholeText(Encoded(three, 0));
  }
}
