/** Base32 as the backup string uses it: an encoder of unrolled shifts, a decoder with a 32-bit accumulator. */
module Base32 {
  import opened Bytes
  import opened Bits
  import opened Wrappers
  import opened Accumulator
  import opened Characters

  /** b32_chars: the alphabet, then the padding character. */
  const CHARS: string := "ABCDEFGHIJKLMNOPQRSTUVWXYZ234567="
  const PAD := 32

  // ----- decoding -----

  method Decode(from: string, to: array<Byte>, len: nat) returns (r: int)
    requires Written(5, from, len) <= to.Length
    modifies to
    ensures Kept(to, Written(5, from, len))
    ensures var ds := Read(5, from);
      if 5 * |ds| / 8 > len then r == len + 1 <= to.Length && to[..r] <= Octets(5, ds)
      else if 5 * |ds| % 8 != 0 then r == -1
      else r == 5 * |ds| / 8 <= to.Length && to[..r] == Octets(5, ds) && Value(256, to[..r]) == Value(32, ds)
  {
    BitCounts(|Read(5, from)|);
    var j: nat, value: nat, bits: nat := 0, 0, 0;
    for i := 0 to |from|
      invariant j <= len && j <= to.Length && Decoder(to[..j], value, bits) == Scanned(5, from, i)
      invariant j <= Written(5, from, len) && Kept(to, j)
    {
      var d := Table(5, from[i]);
      if d != NONE {
        Room(5, from, i, len);
        j, value, bits := Step(5, to, j, value, bits, d);
        if j > len {
          Overrun(5, from, i + 1);
          return j;
        }
      }
    }
    AllScanned(5, from);
    return if bits != 0 then -1 else j;
  }

  // ----- encoding -----

  /** The digits a final group of so many octets has. */
  function Count(octets: nat): nat
  {
    (8 * octets + 4) / 5
  }

  function Padding(n: nat): (s: seq<nat>)
    ensures |s| == n
  {
    seq(n, i => PAD)
  }

  /** Forty bits as eight digits. */
  function Group(octets: seq<Byte>): (ds: seq<nat>)
    requires |octets| == 5
    ensures |ds| == 8 && Digits(32, ds)
  {
    ToDigits(32, Value(256, octets), 8)
  }

  /** A final group is filled with zero bits, and its digits are padded. */
  function Tail(octets: seq<Byte>): (ds: seq<nat>)
    requires |octets| < 5
    ensures Digits(33, ds) && (octets != [] ==> |ds| == 8)
  {
    var n := Count(|octets|);
    if octets == [] then [] else Group(octets + Zeros(5 - |octets|))[..n] + Padding(8 - n)
  }

  /** Section 6 of RFC 4648, group by group. */
  function Encoded(from: seq<Byte>): (ds: seq<nat>)
    ensures Digits(33, ds)
  {
    if |from| < 5 then Tail(from) else Group(from[..5]) + Encoded(from[5..])
  }

  function Chars(ds: seq<nat>): (s: string)
    requires Digits(33, ds)
    ensures |s| == |ds|
  {
    seq(|ds|, i requires 0 <= i < |ds| => CHARS[ds[i]])
  }

  /** The digits, cut from the octets. */
  function Spread(a: nat, b: nat, c: nat, d: nat, e: nat): (ds: seq<nat>)
    ensures |ds| == 8
  {
    [a / 8, a % 8 * 4 + b / 64, b / 2 % 32, b % 2 * 16 + c / 16,
     c % 16 * 2 + d / 128, d / 4 % 32, d % 4 * 8 + e / 32, e % 32]
  }

  lemma Or1(x: nat, y: nat)
    requires y < 2
    ensures Or(x * 2, y) % 32 == x % 16 * 2 + y
  {
    PowersOfTwo();
    OrDisjoint(x, y, 1);
    Quotient(x * 2 + y, 32, x / 16, x % 16 * 2 + y);
  }

  lemma Or2(x: nat, y: nat)
    requires y < 4
    ensures Or(x * 4, y) % 32 == x % 8 * 4 + y
  {
    PowersOfTwo();
    OrDisjoint(x, y, 2);
    Quotient(x * 4 + y, 32, x / 8, x % 8 * 4 + y);
  }

  lemma Or3(x: nat, y: nat)
    requires y < 8
    ensures Or(x * 8, y) % 32 == x % 4 * 8 + y
  {
    PowersOfTwo();
    OrDisjoint(x, y, 3);
    Quotient(x * 8 + y, 32, x / 4, x % 4 * 8 + y);
  }

  lemma Or4(x: nat, y: nat)
    requires y < 16
    ensures Or(x * 16, y) % 32 == x % 2 * 16 + y
  {
    PowersOfTwo();
    OrDisjoint(x, y, 4);
    Quotient(x * 16 + y, 32, x / 2, x % 2 * 16 + y);
  }

  /** Bits of two octets in one digit: m is the power of two the first is shifted by. */
  method Merge(x: nat, m: nat, y: nat) returns (r: nat)
    requires (m == 2 || m == 4 || m == 8 || m == 16) && y < m
    ensures m == 2 ==> r == x % 16 * 2 + y
    ensures m == 4 ==> r == x % 8 * 4 + y
    ensures m == 8 ==> r == x % 4 * 8 + y
    ensures m == 16 ==> r == x % 2 * 16 + y
  {
    if m == 2 {
      Or1(x, y);
    } else if m == 4 {
      Or2(x, y);
    } else if m == 8 {
      Or3(x, y);
    } else {
      Or4(x, y);
    }
    return Or(x * m, y) % 32;
  }

  lemma Value5(a: nat, b: nat, c: nat, d: nat, e: nat)
    ensures Value(256, [a, b, c, d, e]) == (((a * 256 + b) * 256 + c) * 256 + d) * 256 + e
  {
    ValueSnoc(256, [a, b, c, d], e);
    ValueSnoc(256, [a, b, c], d);
    ValueSnoc(256, [a, b], c);
    ValueSnoc(256, [a], b);
    assert [a, b, c, d] + [e] == [a, b, c, d, e] && [a, b, c] + [d] == [a, b, c, d];
    assert [a, b] + [c] == [a, b, c] && [a] + [b] == [a, b] && [a][..0] == [];
  }

  lemma Value8(d: seq<nat>)
    requires |d| == 8
    ensures Value(32, d)
         == ((((((d[0] * 32 + d[1]) * 32 + d[2]) * 32 + d[3]) * 32 + d[4]) * 32 + d[5]) * 32 + d[6]) * 32 + d[7]
  {
    forall i: nat | i < 8
      ensures Value(32, d[..i + 1]) == Value(32, d[..i]) * 32 + d[i]
    {
      assert d[..i + 1] == d[..i] + [d[i]];
      ValueSnoc(32, d[..i], d[i]);
    }
    assert d[..8] == d && d[..0] == [];
  }

  /** The bits of each octet, as they are cut. */
  lemma Cuts(b: Byte)
    ensures b == b / 64 * 64 + b / 2 % 32 * 2 + b % 2
    ensures b == b / 128 * 128 + b / 4 % 32 * 4 + b % 4
  {
    assert b / 64 == b / 2 / 32 && b / 128 == b / 4 / 32;
    DivMod(b, 2);
    DivMod(b / 2, 32);
    DivMod(b, 4);
    DivMod(b / 4, 32);
  }

  /** They are the digits of the group. */
  lemma SpreadIsGroup(a: Byte, b: Byte, c: Byte, d: Byte, e: Byte)
    ensures Spread(a, b, c, d, e) == Group([a, b, c, d, e])
  {
    var s := Spread(a, b, c, d, e);
    Cuts(b);
    Cuts(d);
    Value8(s);
    Value5(a, b, c, d, e);
    SumOfCuts(a / 8, a % 8, b / 64, b / 2 % 32, b % 2, c / 16, c % 16, d / 128, d / 4 % 32, d % 4, e / 32, e % 32);
    DigitsAreToDigits(32, s);
  }

  lemma SumOfCuts(a1: nat, a0: nat, b2: nat, b1: nat, b0: nat, c1: nat, c0: nat, d2: nat, d1: nat, d0: nat, e1: nat, e0: nat)
    ensures ((((((a1 * 32 + (a0 * 4 + b2)) * 32 + b1) * 32 + (b0 * 16 + c1)) * 32 + (c0 * 2 + d2)) * 32 + d1) * 32 + (d0 * 8 + e1)) * 32 + e0
         == ((((a1 * 8 + a0) * 256 + (b2 * 64 + b1 * 2 + b0)) * 256 + (c1 * 16 + c0)) * 256 + (d2 * 128 + d1 * 4 + d0)) * 256 + (e1 * 32 + e0)
  {
  }

  method PutGroup(to: array<nat>, j: nat, a: Byte, b: Byte, c: Byte, d: Byte, e: Byte)
    requires j + 8 <= to.Length
    modifies to
    ensures to[..] == old(to[..j]) + Group([a, b, c, d, e]) + old(to[j + 8..])
  {
    to[j] := a / 8;
    to[j + 1] := Merge(a, 4, b / 64);
    to[j + 2] := b / 2 % 32;
    to[j + 3] := Merge(b, 16, c / 16);
    to[j + 4] := Merge(c, 2, d / 128);
    to[j + 5] := d / 4 % 32;
    to[j + 6] := Merge(d, 8, e / 32);
    to[j + 7] := e % 32;
    assert to[j..j + 8] == Spread(a, b, c, d, e);
    assert to[..] == to[..j] + to[j..j + 8] + to[j + 8..];
    SpreadIsGroup(a, b, c, d, e);
  }

  /** The residue cases, with no bits from a next octet. */
  function Short(t: seq<Byte>): (ds: seq<nat>)
    requires 0 < |t| < 5
    ensures |ds| == 8
  {
    var n := |t|;
    if n == 1 then [t[0] / 8, t[0] % 8 * 4, PAD, PAD, PAD, PAD, PAD, PAD]
    else if n == 2 then [t[0] / 8, t[0] % 8 * 4 + t[1] / 64, t[1] / 2 % 32, t[1] % 2 * 16, PAD, PAD, PAD, PAD]
    else if n == 3 then [t[0] / 8, t[0] % 8 * 4 + t[1] / 64, t[1] / 2 % 32, t[1] % 2 * 16 + t[2] / 16, t[2] % 16 * 2, PAD, PAD, PAD]
    else [t[0] / 8, t[0] % 8 * 4 + t[1] / 64, t[1] / 2 % 32, t[1] % 2 * 16 + t[2] / 16, t[2] % 16 * 2 + t[3] / 128, t[3] / 4 % 32, t[3] % 4 * 8, PAD]
  }

  lemma ShortIsSpread(t: seq<Byte>, a: nat, b: nat, c: nat, d: nat)
    requires 0 < |t| < 5 && a == t[0] && b == (if |t| > 1 then t[1] else 0)
    requires c == (if |t| > 2 then t[2] else 0) && d == (if |t| > 3 then t[3] else 0)
    ensures Short(t) == Spread(a, b, c, d, 0)[..Count(|t|)] + Padding(8 - Count(|t|))
  {
  }

  lemma ShortIsTail(t: seq<Byte>)
    requires 0 < |t| < 5
    ensures Short(t) == Tail(t)
  {
    var f := t + Zeros(4 - |t|);
    assert t + Zeros(5 - |t|) == [f[0], f[1], f[2], f[3], 0];
    assert f == [f[0], f[1], f[2], f[3]];
    ShortIsSpread(t, f[0], f[1], f[2], f[3]);
    SpreadIsGroup(f[0], f[1], f[2], f[3], 0);
  }

  /** The last digit: m is the power of two its octet is shifted by. */
  method Last(x: nat, m: nat) returns (r: nat)
    requires m == 2 || m == 4 || m == 8 || m == 16
    ensures m == 2 ==> r == x % 16 * 2
    ensures m == 4 ==> r == x % 8 * 4
    ensures m == 8 ==> r == x % 4 * 8
    ensures m == 16 ==> r == x % 2 * 16
  {
    Quotient(x * 2, 32, x / 16, x % 16 * 2);
    Quotient(x * 4, 32, x / 8, x % 8 * 4);
    Quotient(x * 8, 32, x / 4, x % 4 * 8);
    Quotient(x * 16, 32, x / 2, x % 2 * 16);
    return x * m % 32;
  }

  /** The residue cases; a fifth octet's case is never reached. */
  method PutTail(to: array<nat>, j: nat, t: seq<Byte>)
    requires 0 < |t| < 5 && j + 8 == to.Length && forall k :: j <= k < to.Length ==> to[k] == PAD
    modifies to
    ensures to[..j] == old(to[..j]) && to[j..] == Short(t)
  {
    assert to[j + 5] == to[j + 6] == to[j + 7] == PAD && to[j + 2] == to[j + 3] == to[j + 4] == PAD;
    ghost var s := Short(t);
    var a: nat := t[0];
    to[j] := a / 8;
    if |t| != 1 {
      var b: nat := t[1];
      to[j + 1] := Merge(a, 4, b / 64);
      to[j + 2] := b / 2 % 32;
      if |t| != 2 {
        PutThird(to, j, t);
      } else {
        to[j + 3] := Last(b, 16);
      }
    } else {
      to[j + 1] := Last(a, 4);
    }
    assert to[j] == s[0] && to[j + 1] == s[1] && to[j + 2] == s[2] && to[j + 3] == s[3];
    assert to[j + 4] == s[4] && to[j + 5] == s[5] && to[j + 6] == s[6] && to[j + 7] == s[7];
  }

  /** The third octet of three or four, and the fourth. */
  method PutThird(to: array<nat>, j: nat, t: seq<Byte>)
    requires 3 <= |t| < 5 && j + 8 == to.Length && to[j + 5] == to[j + 6] == PAD
    modifies to
    ensures to[j + 3] == Short(t)[3] && to[j + 4] == Short(t)[4] && to[j + 5] == Short(t)[5] && to[j + 6] == Short(t)[6]
    ensures forall k :: 0 <= k < j + 3 || k == j + 7 ==> to[k] == old(to[k])
  {
    var c: nat := t[2];
    to[j + 3] := Merge(t[1], 16, c / 16);
    if |t| != 3 {
      var d: nat := t[3];
      to[j + 4] := Merge(c, 2, d / 128);
      to[j + 5] := d / 4 % 32;
      to[j + 6] := Last(d, 8);
    } else {
      to[j + 4] := Last(c, 2);
    }
  }

  lemma GroupSplit(from: seq<Byte>, i: nat)
    requires i + 5 <= |from|
    ensures Encoded(from[i..]) == Group([from[i], from[i + 1], from[i + 2], from[i + 3], from[i + 4]]) + Encoded(from[i + 5..])
  {
    assert from[i..][..5] == [from[i], from[i + 1], from[i + 2], from[i + 3], from[i + 4]];
    assert from[i..][5..] == from[i + 5..];
  }

  method PutNext(to: array<nat>, j: nat, from: seq<Byte>, i: nat)
    requires i + 5 <= |from| && j + 8 <= to.Length
    modifies to
    ensures to[..j + 8] + Encoded(from[i + 5..]) == old(to[..j]) + Encoded(from[i..])
    ensures forall k :: j + 8 <= k < to.Length ==> to[k] == old(to[k])
  {
    GroupSplit(from, i);
    ghost var was := to[..];
    ghost var rest := Encoded(from[i + 5..]);
    PutGroup(to, j, from[i], from[i + 1], from[i + 2], from[i + 3], from[i + 4]);
    Spliced(to[..], was, Group([from[i], from[i + 1], from[i + 2], from[i + 3], from[i + 4]]), rest, j);
    assert to[..][..j + 8] == to[..j + 8] && was[..j] == old(to[..j]);
    assert forall k :: j + 8 <= k < to.Length ==> to[..][k] == to[k] && was[k] == old(to[k]);
  }

  lemma Spliced(now: seq<nat>, was: seq<nat>, mid: seq<nat>, rest: seq<nat>, j: nat)
    requires |mid| == 8 && j + 8 <= |was| && now == was[..j] + mid + was[j + 8..]
    ensures |now| == |was| && now[..j + 8] + rest == was[..j] + (mid + rest)
    ensures forall k :: j + 8 <= k < |now| ==> now[k] == was[k]
  {
  }

  lemma LastGroup(n: nat, i: nat, g: nat)
    requires i == 5 * g && i <= n && n - 4 <= i
    ensures g == n / 5 && n - i == n % 5
  {
  }

  method PutRest(to: array<nat>, j: nat, from: seq<Byte>, i: nat)
    requires 0 < |from| - i < 5 && j + 8 == to.Length && forall k :: j <= k < to.Length ==> to[k] == PAD
    modifies to
    ensures to[..] == old(to[..j]) + Encoded(from[i..])
  {
    PutTail(to, j, from[i..]);
    ShortIsTail(from[i..]);
    assert to[..] == to[..j] + to[j..];
  }

  /** The loop guard needs four octets: with fewer its unsigned length - 4 wraps. */
  method Encode(from: seq<Byte>) returns (result: string)
    requires |from| >= 4
    ensures result == Chars(Encoded(from))
  {
    var groups, pad := |from| / 5, |from| % 5;
    var to := new nat[groups * 8 + (if pad != 0 then 8 else 0)](_ => PAD);
    var i, j := 0, 0;
    ghost var g := 0;
    while i < |from| - 4
      invariant i == 5 * g && j == 8 * g && i <= |from|
      invariant to[..j] + Encoded(from[i..]) == Encoded(from)
      invariant forall k :: j <= k < to.Length ==> to[k] == PAD
    {
      assert g < groups;
      PutNext(to, j, from, i);
      i, j, g := i + 5, j + 8, g + 1;
    }
    LastGroup(|from|, i, g);
    if pad != 0 {
      PutRest(to, j, from, i);
    } else {
      NothingLeft(from, i);
      assert to[..] == to[..j] + [];
    }
    result := Spelled(to[..]);
  }

  lemma NothingLeft(from: seq<Byte>, i: nat)
    requires i == |from|
    ensures Encoded(from[i..]) == []
  {
  }

  method Spelled(to: seq<nat>) returns (result: string)
    requires Digits(33, to)
    ensures result == Chars(to)
  {
    result := "";
    for v := 0 to |to|
      invariant result == Chars(to[..v])
    {
      result := result + [CHARS[to[v]]];
    }
    assert to[..|to|] == to;
  }

  // ----- decoding what was encoded -----

  /** What a decoder finds in a string. */
  function Decoded(s: string): Option<seq<Byte>>
  {
    if 5 * |Read(5, s)| % 8 != 0 then None else Some(Octets(5, Read(5, s)))
  }

  function Unpadded(ds: seq<nat>): (r: seq<nat>)
    ensures Digits(32, r)
  {
    if ds == [] then []
    else if ds[|ds| - 1] >= PAD then Unpadded(ds[..|ds| - 1])
    else Unpadded(ds[..|ds| - 1]) + [ds[|ds| - 1]]
  }

  lemma TableOfChars(d: nat)
    requires d <= PAD
    ensures Table(5, CHARS[d]) == if d == PAD then NONE else d
  {
  }

  lemma {:induction false} ReadChars(ds: seq<nat>)
    requires Digits(33, ds)
    ensures Read(5, Chars(ds)) == Unpadded(ds)
  {
    if ds != [] {
      var init, last := ds[..|ds| - 1], ds[|ds| - 1];
      ReadChars(init);
      assert Chars(ds)[..|ds| - 1] == Chars(init);
      TableOfChars(last);
    }
  }

  lemma {:induction false} UnpaddedConcat(a: seq<nat>, b: seq<nat>)
    ensures Unpadded(a + b) == Unpadded(a) + Unpadded(b)
  {
    if b == [] {
      assert a + b == a;
    } else {
      UnpaddedConcat(a, b[..|b| - 1]);
      assert (a + b)[..|a + b| - 1] == a + b[..|b| - 1];
    }
  }

  lemma {:induction false} UnpaddedDigits(a: seq<nat>)
    requires Digits(32, a)
    ensures Unpadded(a) == a
  {
    if a != [] {
      UnpaddedDigits(a[..|a| - 1]);
      assert a == a[..|a| - 1] + [a[|a| - 1]];
    }
  }

  lemma {:induction false} UnpaddedPadding(n: nat)
    ensures Unpadded(Padding(n)) == []
  {
    if n != 0 {
      UnpaddedPadding(n - 1);
      assert Padding(n)[..n - 1] == Padding(n - 1);
    }
  }

  lemma UnpaddedTail(t: seq<Byte>)
    requires |t| < 5
    ensures |Unpadded(Tail(t))| == Count(|t|)
  {
    var n := Count(|t|);
    if t != [] {
      var ds := Group(t + Zeros(5 - |t|))[..n];
      UnpaddedConcat(ds, Padding(8 - n));
      UnpaddedDigits(ds);
      UnpaddedPadding(8 - n);
    }
  }

  lemma {:induction false} EncodedCount(from: seq<Byte>, g: nat, r: nat)
    requires |from| == 5 * g + r && r < 5
    ensures |Unpadded(Encoded(from))| == 8 * g + Count(r)
  {
    if g == 0 {
      UnpaddedTail(from);
    } else {
      EncodedCount(from[5..], g - 1, r);
      UnpaddedConcat(Group(from[..5]), Encoded(from[5..]));
      UnpaddedDigits(Group(from[..5]));
    }
  }

  /** As a number, whole groups of digits are the octets they come from. */
  lemma {:induction false} EncodedValue(from: seq<Byte>, g: nat)
    requires |from| == 5 * g
    ensures |Encoded(from)| == 8 * g && Digits(32, Encoded(from)) && Value(32, Encoded(from)) == Value(256, from)
  {
    if g != 0 {
      EncodedValue(from[5..], g - 1);
      ConcatValues(from[..5], from[5..], Group(from[..5]), Encoded(from[5..]), g - 1);
      assert from == from[..5] + from[5..];
    }
  }

  lemma ConcatValues(head: seq<Byte>, rest: seq<Byte>, group: seq<nat>, ds: seq<nat>, g: nat)
    requires |head| == 5 && group == Group(head) && |rest| == 5 * g && |ds| == 8 * g
    requires Value(32, ds) == Value(256, rest)
    ensures Value(32, group + ds) == Value(256, head + rest)
  {
    SamePowers(g);
    ValueConcat(256, head, rest);
    ValueConcat(32, group, ds);
    GroupValue(head);
  }

  lemma {:induction false} SamePowers(g: nat)
    ensures Pow(32, 8 * g) == Pow(256, 5 * g)
  {
    if g != 0 {
      SamePowers(g - 1);
      PowAdd(32, 8, 8 * (g - 1));
      PowAdd(256, 5, 5 * (g - 1));
      FortyBits();
    }
  }

  lemma FortyBits()
    ensures Pow(32, 8) == Pow(256, 5)
  {
    assert Pow(32, 4) == 32 * Pow(32, 3) == 1024 * Pow(32, 2) == 1048576;
    PowAdd(32, 4, 4);
    PowersOf256();
  }

  lemma GroupValue(octets: seq<Byte>)
    requires |octets| == 5
    ensures Value(32, Group(octets)) == Value(256, octets)
  {
    ValueBound(256, octets);
    FortyBits();
    ValueToDigits(32, Value(256, octets), 8);
  }

  lemma DecodeGroups(from: seq<Byte>, g: nat)
    requires |from| == 5 * g
    ensures Decoded(Chars(Encoded(from))) == Some(from)
  {
    var ds := Encoded(from);
    EncodedValue(from, g);
    ReadChars(ds);
    UnpaddedDigits(ds);
    DigitsAreToDigits(256, from);
    BitCounts(|ds|);
    GroupBits(|ds|, |from|, g);
  }

  lemma GroupBits(n: nat, octets: nat, g: nat)
    requires n == 8 * g && octets == 5 * g
    ensures 5 * n % 8 == 0 && 5 * n / 8 == octets
  {
    Quotient(5 * n, 8, octets, 0);
  }

  lemma DecodePartial(from: seq<Byte>, g: nat, r: nat)
    requires |from| == 5 * g + r && 0 < r < 5
    ensures Decoded(Chars(Encoded(from))) == None
  {
    var n := |Read(5, Chars(Encoded(from)))|;
    assert 5 * n % 8 != 0 by {
      ReadCount(from, g, r);
      BitsLeft(g, r, n);
    }
  }

  lemma ReadCount(from: seq<Byte>, g: nat, r: nat)
    requires |from| == 5 * g + r && r < 5
    ensures |Read(5, Chars(Encoded(from)))| == 8 * g + Count(r)
  {
    ReadChars(Encoded(from));
    EncodedCount(from, g, r);
  }

  lemma BitsLeft(g: nat, r: nat, n: nat)
    requires 0 < r < 5 && n == 8 * g + Count(r)
    ensures 5 * n % 8 != 0
  {
    assert r == 1 || r == 2 || r == 3 || r == 4;
  }

  /** The decoder inverts the encoder on whole groups and rejects every other length. */
  lemma DecodeEncode(from: seq<Byte>)
    ensures Decoded(Chars(Encoded(from))) == if |from| % 5 == 0 then Some(from) else None
  {
    if |from| % 5 == 0 {
      DecodeGroups(from, |from| / 5);
    } else {
      DecodePartial(from, |from| / 5, |from| % 5);
    }
  }

  // ----- strings that decode alike -----

  predicate InAlphabet(c: char)
  {
    'A' <= c <= 'Z' || '2' <= c <= '7'
  }

  /** The letters and digits of the alphabet in a string, in upper case. */
  function Skeleton(s: string): string
  {
    if s == [] then []
    else if InAlphabet(Upper(s[|s| - 1])) then Skeleton(s[..|s| - 1]) + [Upper(s[|s| - 1])]
    else Skeleton(s[..|s| - 1])
  }

  lemma UpperTable(c: char)
    ensures InAlphabet(Upper(c)) <==> Table(5, c) != NONE
    ensures Table(5, c) != NONE ==> CHARS[Table(5, c)] == Upper(c)
  {
  }

  lemma {:induction false} SkeletonIsRead(s: string)
    ensures Digits(33, Read(5, s)) && Skeleton(s) == Chars(Read(5, s))
  {
    if s != [] {
      SkeletonIsRead(s[..|s| - 1]);
      UpperTable(s[|s| - 1]);
    }
  }

  /** Two strings decode alike when, and only when, they differ in letter case and other characters alone. */
  lemma ReadAlike(s: string, t: string)
    ensures Read(5, s) == Read(5, t) <==> Skeleton(s) == Skeleton(t)
  {
    SkeletonIsRead(s);
    SkeletonIsRead(t);
    if Skeleton(s) == Skeleton(t) {
      ReadChars(Read(5, s));
      ReadChars(Read(5, t));
      UnpaddedDigits(Read(5, s));
      UnpaddedDigits(Read(5, t));
    }
  }

  /** Two strings that decode to the same octets have the same digits. */
  lemma DecodedDigits(s: string, t: string)
    requires Decoded(s).Some? && Decoded(s) == Decoded(t)
    ensures Read(5, s) == Read(5, t)
  {
    var x, y := Read(5, s), Read(5, t);
    FedOctets(5, x);
    FedOctets(5, y);
    BitCounts(|x|);
    BitCounts(|y|);
    assert |x| == |y|;
    ValueInjective(32, x, y);
  }

  /** What decodes to given octets is what reads alike. */
  lemma DecodesAlike(s: string, t: string)
    requires Decoded(t).Some?
    ensures Decoded(s) == Decoded(t) <==> Skeleton(s) == Skeleton(t)
  {
    ReadAlike(s, t);
    if Decoded(s) == Decoded(t) {
      DecodedDigits(s, t);
    }
  }

  lemma DecodedLength(s: string)
    ensures Decoded(s).Some? <==> 5 * |Read(5, s)| % 8 == 0
    ensures Decoded(s).Some? ==> Decoded(s).value == Octets(5, Read(5, s)) && |Decoded(s).value| == 5 * |Read(5, s)| / 8
  {
    BitCounts(|Read(5, s)|);
  }

  // ----- the standard's alphabet and two of its examples -----

  /** Table 3 of RFC 4648. */
  function Letter(d: nat): char
    requires d <= 32
  {
    if d < 26 then ('A' as int + d) as char else if d < 32 then ('2' as int + (d - 26)) as char else '='
  }

  lemma AlphabetIs(d: nat)
    requires d <= 32
    ensures CHARS[d] == Letter(d)
  {
  }

  lemma LettersOf(ds: seq<nat>)
    requires Digits(33, ds)
    ensures forall i :: 0 <= i < |ds| ==> Chars(ds)[i] == Letter(ds[i])
  {
    forall i | 0 <= i < |ds|
      ensures Chars(ds)[i] == Letter(ds[i])
    {
      AlphabetIs(ds[i]);
    }
  }

  lemma WholeGroup(octets: seq<Byte>)
    requires |octets| == 5
    ensures Encoded(octets) == Group(octets)
  {
    assert octets[..5] == octets && octets[5..] == [] && Encoded([]) == [];
    assert Group(octets) + [] == Group(octets);
  }

  lemma FiveDigits(a: Byte, b: Byte, c: Byte, d: Byte, e: Byte)
    ensures Encoded([a, b, c, d, e]) == Spread(a, b, c, d, e)
  {
    WholeGroup([a, b, c, d, e]);
    SpreadIsGroup(a, b, c, d, e);
  }

  lemma FourDigits(t: seq<Byte>)
    requires |t| == 4
    ensures Encoded(t) == Short(t)
  {
    ShortIsTail(t);
  }

  lemma Example(ds: seq<nat>, s: string)
    requires |ds| == |s| && Digits(33, ds) && forall i :: 0 <= i < |s| ==> s[i] == Letter(ds[i])
    ensures Chars(ds) == s
  {
    LettersOf(ds);
  }

  lemma WholeDigits(octets: seq<Byte>)
    requires octets == [0x66, 0x6f, 0x6f, 0x62, 0x61]
    ensures Encoded(octets) == [12, 25, 23, 22, 30, 24, 19, 1]
  {
    FiveDigits(0x66, 0x6f, 0x6f, 0x62, 0x61);
  }

  lemma PartDigits(octets: seq<Byte>)
    requires octets == [0x66, 0x6f, 0x6f, 0x62]
    ensures Encoded(octets) == [12, 25, 23, 22, 30, 24, 16, PAD]
  {
    FourDigits(octets);
  }

  /** "fooba" of section 10 of RFC 4648. */
  lemma ExampleWhole(octets: seq<Byte>)
    requires octets == [0x66, 0x6f, 0x6f, 0x62, 0x61]
    ensures Chars(Encoded(octets)) == "MZXW6YTB"
  {
    WholeDigits(octets);
    Example(Encoded(octets), "MZXW6YTB");
  }

  /** "foob", padded. */
  lemma ExamplePart(octets: seq<Byte>)
    requires octets == [0x66, 0x6f, 0x6f, 0x62]
    ensures Chars(Encoded(octets)) == "MZXW6YQ="
  {
    PartDigits(octets);
    Example(Encoded(octets), "MZXW6YQ=");
  }
}
