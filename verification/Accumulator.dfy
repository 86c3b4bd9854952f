/**
 * The 32-bit accumulator both text decoders read octets with: digits of w bits are
 * shifted in at the bottom, and whenever eight bits are there the top eight are taken.
 */
module Accumulator {
  import opened Bytes
  import opened Bits

  const WORD := 0x1_0000_0000

  predicate Width(w: nat)
  {
    w == 5 || w == 6
  }

  function Base(w: nat): (b: nat)
    ensures b > 0
  {
    if w == 5 then 32 else 64
  }

  const NONE := 64

  /** b32_table and b64_table, which have 64 for characters to be skipped; so do characters they have no entry for. */
  function Table(w: nat, c: char): nat
  {
    if w == 5 then
      if 'A' <= c <= 'Z' then c as int - 'A' as int
      else if 'a' <= c <= 'z' then c as int - 'a' as int
      else if '2' <= c <= '7' then c as int - '2' as int + 26
      else NONE
    else
      if 'A' <= c <= 'Z' then c as int - 'A' as int
      else if 'a' <= c <= 'z' then c as int - 'a' as int + 26
      else if '0' <= c <= '9' then c as int - '0' as int + 52
      else if c == '+' then 62
      else if c == '/' then 63
      else NONE
  }

  /** The characters that count, as numbers. */
  function Read(w: nat, s: string): (ds: seq<nat>)
    ensures Digits(Base(w), ds)
  {
    if s == [] then []
    else if Table(w, s[|s| - 1]) == NONE then Read(w, s[..|s| - 1])
    else Read(w, s[..|s| - 1]) + [Table(w, s[|s| - 1])]
  }

  lemma ReadAppend(w: nat, s: string, c: char)
    ensures Read(w, s + [c]) == if Table(w, c) == NONE then Read(w, s) else Read(w, s) + [Table(w, c)]
  {
    assert (s + [c])[..|s|] == s;
  }

  lemma ReadSnoc(w: nat, s: string, i: nat)
    requires i < |s|
    ensures Read(w, s[..i + 1])
         == if Table(w, s[i]) == NONE then Read(w, s[..i]) else Read(w, s[..i]) + [Table(w, s[i])]
  {
    assert s[..i + 1][..i] == s[..i];
  }

  lemma {:induction false} ReadMonotone(w: nat, s: string, i: nat)
    requires i <= |s|
    ensures Read(w, s[..i]) <= Read(w, s)
    decreases |s| - i
  {
    if i < |s| {
      ReadSnoc(w, s, i);
      ReadMonotone(w, s, i + 1);
    } else {
      assert s[..i] == s;
    }
  }

  lemma {:induction false} ReadConcat(w: nat, a: string, b: string)
    ensures Read(w, a + b) == Read(w, a) + Read(w, b)
  {
    if b == [] {
      assert a + b == a;
    } else {
      ReadConcat(w, a, b[..|b| - 1]);
      assert (a + b)[..|a + b| - 1] == a + b[..|b| - 1];
    }
  }

  /** The bits of n digits. */
  function BitCount(w: nat, n: nat): nat
  {
    if n == 0 then 0 else BitCount(w, n - 1) + w
  }

  lemma {:induction false} BitCounts(n: nat)
    ensures BitCount(5, n) == 5 * n && BitCount(6, n) == 6 * n
  {
    if n != 0 {
      BitCounts(n - 1);
    }
  }

  lemma {:induction false} BitCountMonotone(w: nat, m: nat, n: nat)
    requires m <= n
    ensures BitCount(w, m) <= BitCount(w, n)
  {
    if m < n {
      BitCountMonotone(w, m, n - 1);
    }
  }

  /** The whole octets in the bits of the digits, by their value. */
  function Octets(w: nat, ds: seq<nat>): (s: seq<nat>)
    ensures |s| == BitCount(w, |ds|) / 8 && Digits(256, s)
  {
    ToDigits(256, Shr(Value(Base(w), ds), BitCount(w, |ds|) % 8), BitCount(w, |ds|) / 8)
  }

  /** The number a, followed by the low bits of value. */
  function Joined(a: nat, value: nat, bits: nat): nat
    decreases bits
  {
    if bits == 0 then a else 2 * Joined(a, value / 2, bits - 1) + value % 2
  }

  lemma {:induction false} JoinedCut(a: nat, value: nat, bits: nat)
    ensures Shr(Joined(a, value, bits), bits) == a
    decreases bits
  {
    if bits != 0 {
      JoinedCut(a, value / 2, bits - 1);
    }
  }

  lemma ModParts(value: nat, m: nat, q: nat, r: nat)
    requires value / 2 == q * m + r && r < m
    ensures value % (2 * m) == 2 * r + value % 2
  {
    Halves(q, m, 0);
    Quotient(value, 2 * m, q, 2 * r + value % 2);
  }

  lemma ModHalf(value: nat, m: nat)
    requires m > 0
    ensures value % (2 * m) / 2 == value / 2 % m && value % (2 * m) % 2 == value % 2
  {
    var q: nat, r: nat := Quo(value / 2, m), Rem(value / 2, m);
    QuoRem(value / 2, m);
    Quotient(value / 2, m, q, r);
    ModParts(value, m, q, r);
  }

  /** Bits beyond the word do not matter to the low ones. */
  lemma {:induction false} JoinedMod(a: nat, value: nat, bits: nat, k: nat)
    requires bits <= k
    ensures Joined(a, value % Pow(2, k), bits) == Joined(a, value, bits)
    decreases bits
  {
    if bits != 0 {
      ModHalf(value, Pow(2, k - 1));
      JoinedMod(a, value / 2, bits - 1, k - 1);
    }
  }

  lemma Halves(x: nat, p: nat, d: nat)
    ensures x * (2 * p) == 2 * (x * p)
    ensures (x * (2 * p) + d) / 2 == x * p + d / 2 && (x * (2 * p) + d) % 2 == d % 2
  {
    assert x * (2 * p) == 2 * (x * p);
  }

  /** Bits shifted in from below. */
  lemma {:induction false} JoinedAppend(a: nat, x: nat, d: nat, bits: nat, k: nat)
    requires d < Pow(2, k)
    ensures Joined(a, x * Pow(2, k) + d, bits + k) == Joined(a, x, bits) * Pow(2, k) + d
    decreases k
  {
    if k != 0 {
      var p, j := Pow(2, k - 1), Joined(a, x, bits);
      Halves(x, p, d);
      JoinedAppend(a, x, d / 2, bits, k - 1);
      Halves(j, p, d);
    }
  }

  lemma Joined8(a: nat, w: nat)
    ensures Joined(a, w, 8) == a * 256 + w % 256
  {
    PowersOfTwo();
    JoinedAppend(a, w / 256, w % 256, 0, 8);
    assert Joined(a, w / 256, 0) == a;
  }

  /** Of eight bits and more, the top eight can be moved to the number in front. */
  lemma {:induction false} JoinedOctet(a: nat, w: nat, bits: nat)
    ensures Joined(a, w, bits + 8) == Joined(a * 256 + Shr(w, bits) % 256, w, bits)
    decreases bits
  {
    if bits == 0 {
      Joined8(a, w);
    } else {
      JoinedOctet(a, w / 2, bits - 1);
    }
  }

  lemma ModWord(value: nat, p: nat, m: nat)
    requires p > 0 && m > 0 && m * p == WORD
    ensures value * p % WORD == value % m * p
  {
    var q, r := value / m, value % m;
    DivMod(value, m);
    assert value * p == q * m * p + r * p;
    MulAssoc(q, m, p);
    MulMonotone(r + 1, m, p);
    MulSucc(r, p);
    Quotient(value * p, WORD, q, r * p);
  }

  lemma Powers(w: nat)
    requires Width(w)
    ensures Base(w) == Pow(2, w) && Pow(2, 32 - w) * Base(w) == WORD
  {
    PowersOfTwo();
    PowAdd(2, 18, 8);
    PowAdd(2, 32 - w, w);
    PowAdd(2, 16, 16);
  }

  /** A digit shifted in: the accumulator wraps at 32 bits, which loses nothing it still needs. */
  lemma ShiftIn(a: nat, value: nat, bits: nat, w: nat, d: nat)
    requires Width(w) && bits < 8 && d < Base(w)
    ensures Joined(a, Or(value * Base(w) % WORD, d), bits + w) == Joined(a, value, bits) * Base(w) + d
  {
    Powers(w);
    var low := value % Pow(2, 32 - w);
    ModWord(value, Base(w), Pow(2, 32 - w));
    OrDisjoint(low, d, w);
    JoinedAppend(a, low, d, bits, w);
    JoinedMod(a, value, bits, 32 - w);
  }

  /** The decoder's variables after a digit: octets written, accumulator, number of bits in it. */
  datatype Decoder = Decoder(out: seq<Byte>, value: nat, bits: nat)

  const START := Decoder([], 0, 0)

  function Feed(w: nat, c: Decoder, d: nat): (r: Decoder)
    requires Width(w) && c.bits < 8
    ensures r.bits < 8 && 8 * |r.out| + r.bits == 8 * |c.out| + c.bits + w
  {
    var value := Or(c.value * Base(w) % WORD, d);
    if c.bits + w < 8 then Decoder(c.out, value, c.bits + w)
    else Decoder(c.out + [Shr(value, c.bits + w - 8) % 256], value, c.bits + w - 8)
  }

  function Fed(w: nat, ds: seq<nat>): (r: Decoder)
    requires Width(w)
    ensures r.bits < 8 && 8 * |r.out| + r.bits == BitCount(w, |ds|)
  {
    if ds == [] then START else Feed(w, Fed(w, ds[..|ds| - 1]), ds[|ds| - 1])
  }

  /** What the decoder has read so far: octets written, then the bits it holds. */
  function Seen(c: Decoder): nat
  {
    Joined(Value(256, c.out), c.value, c.bits)
  }

  lemma TakeOctet(out: seq<Byte>, v: nat, bits: nat)
    ensures Joined(Value(256, out), v, bits + 8) == Joined(Value(256, out + [Shr(v, bits) % 256]), v, bits)
  {
    JoinedOctet(Value(256, out), v, bits);
    ValueSnoc(256, out, Shr(v, bits) % 256);
  }

  lemma FeedSeen(w: nat, c: Decoder, d: nat)
    requires Width(w) && c.bits < 8 && d < Base(w)
    ensures Seen(Feed(w, c, d)) == Seen(c) * Base(w) + d
  {
    ShiftIn(Value(256, c.out), c.value, c.bits, w, d);
    if c.bits + w >= 8 {
      TakeOctet(c.out, Or(c.value * Base(w) % WORD, d), c.bits + w - 8);
    }
  }

  lemma {:induction false} FedSeen(w: nat, ds: seq<nat>)
    requires Width(w) && Digits(Base(w), ds)
    ensures Seen(Fed(w, ds)) == Value(Base(w), ds)
  {
    if ds != [] {
      FedSeen(w, ds[..|ds| - 1]);
      FeedSeen(w, Fed(w, ds[..|ds| - 1]), ds[|ds| - 1]);
    }
  }

  lemma FedSnoc(w: nat, ds: seq<nat>, d: nat)
    requires Width(w)
    ensures Fed(w, ds + [d]) == Feed(w, Fed(w, ds), d)
  {
    assert (ds + [d])[..|ds|] == ds;
  }

  lemma FedCounts(out: nat, bits: nat, n: nat)
    requires bits < 8 && 8 * out + bits == n
    ensures out == n / 8 && bits == n % 8
  {
  }

  /** The octets are those the digits' value has; and with no bits left over, all of it. */
  lemma FedOctets(w: nat, ds: seq<nat>)
    requires Width(w) && Digits(Base(w), ds)
    ensures Fed(w, ds).out == Octets(w, ds)
    ensures Fed(w, ds).bits == BitCount(w, |ds|) % 8
    ensures BitCount(w, |ds|) % 8 == 0 ==> Value(256, Octets(w, ds)) == Value(Base(w), ds)
  {
    var r := Fed(w, ds);
    FedSeen(w, ds);
    FedCounts(|r.out|, r.bits, BitCount(w, |ds|));
    JoinedCut(Value(256, r.out), r.value, r.bits);
    DigitsAreToDigits(256, r.out);
  }

  /** A character that counts. */
  method Step(w: nat, to: array<Byte>, j: nat, value: nat, bits: nat, d: nat) returns (j': nat, value': nat, bits': nat)
    requires Width(w) && bits < 8 && j <= to.Length && (bits + w >= 8 ==> j < to.Length)
    modifies to
    ensures j' <= to.Length
    ensures Decoder(to[..j'], value', bits') == Feed(w, Decoder(old(to[..j]), value, bits), d)
    ensures Kept(to, j')
  {
    j', value', bits' := j, Or(value * Base(w) % WORD, d), bits + w;
    if bits' >= 8 {
      bits' := bits' - 8;
      to[j] := Shr(value', bits') % 256;
      j' := j + 1;
    }
  }

  /** Nothing at or after the given index has changed. */
  twostate predicate Kept(to: array<Byte>, j: nat)
    reads to
  {
    forall k :: j <= k < to.Length ==> to[k] == old(to[k])
  }

  /** The octets written: all there are, or one more than the buffer is said to hold. */
  function Written(w: nat, from: string, len: nat): nat
  {
    var octets := BitCount(w, |Read(w, from)|) / 8;
    if octets > len then len + 1 else octets
  }

  /** The decoder after the first i characters. */
  function Scanned(w: nat, from: string, i: nat): (r: Decoder)
    requires Width(w) && i <= |from|
    ensures r.bits < 8
  {
    if i == 0 then START
    else if Table(w, from[i - 1]) == NONE then Scanned(w, from, i - 1)
    else Feed(w, Scanned(w, from, i - 1), Table(w, from[i - 1]))
  }

  lemma {:induction false} ScannedIsFed(w: nat, from: string, i: nat)
    requires Width(w) && i <= |from|
    ensures Scanned(w, from, i) == Fed(w, Read(w, from[..i]))
  {
    if i != 0 {
      ReadSnoc(w, from, i - 1);
      ScannedIsFed(w, from, i - 1);
      if Table(w, from[i - 1]) != NONE {
        FedSnoc(w, Read(w, from[..i - 1]), Table(w, from[i - 1]));
      }
    }
  }

  /** Octets written are never written over. */
  lemma {:induction false} ScannedGrows(w: nat, from: string, i: nat)
    requires Width(w) && i <= |from|
    ensures Scanned(w, from, i).out <= Scanned(w, from, |from|).out
    decreases |from| - i
  {
    if i < |from| {
      ScannedGrows(w, from, i + 1);
    }
  }

  /** What has been written when the decoder gives up. */
  lemma Overrun(w: nat, from: string, i: nat)
    requires Width(w) && i <= |from|
    ensures |Scanned(w, from, i).out| <= |Octets(w, Read(w, from))|
    ensures Scanned(w, from, i).out == Octets(w, Read(w, from))[..|Scanned(w, from, i).out|]
  {
    ScannedGrows(w, from, i);
    AllScanned(w, from);
  }

  lemma Room(w: nat, from: string, i: nat, len: nat)
    requires Width(w) && i < |from| && Table(w, from[i]) != NONE && |Scanned(w, from, i).out| <= len
    ensures |Feed(w, Scanned(w, from, i), Table(w, from[i])).out| <= Written(w, from, len)
    ensures |Feed(w, Scanned(w, from, i), Table(w, from[i])).out| > len ==> BitCount(w, |Read(w, from)|) / 8 > len
  {
    ScannedIsFed(w, from, i + 1);
    ReadMonotone(w, from, i + 1);
    BitCountMonotone(w, |Read(w, from[..i + 1])|, |Read(w, from)|);
  }

  lemma AllScanned(w: nat, from: string)
    requires Width(w)
    ensures Scanned(w, from, |from|) == Fed(w, Read(w, from))
    ensures var c, ds := Scanned(w, from, |from|), Read(w, from);
      && |c.out| == BitCount(w, |ds|) / 8 && c.bits == BitCount(w, |ds|) % 8 && c.out == Octets(w, ds)
      && (c.bits == 0 ==> Value(256, c.out) == Value(Base(w), ds))
  {
    ScannedIsFed(w, from, |from|);
    assert from[..|from|] == from;
    FedOctets(w, Read(w, from));
    FedCounts(|Fed(w, Read(w, from)).out|, Fed(w, Read(w, from)).bits, BitCount(w, |Read(w, from)|));
  }

  /** The bits a decoder still holds are the low ones of what it has read. */
  lemma {:induction false} JoinedSum(a: nat, v: nat, bits: nat)
    ensures Joined(a, v, bits) == a * Pow(2, bits) + v % Pow(2, bits)
    decreases bits
  {
    if bits != 0 {
      var p := Pow(2, bits - 1);
      JoinedSum(a, v / 2, bits - 1);
      ModHalf(v, p);
      Halves(a, p, 0);
    }
  }

  lemma BitsHeld(w: nat, ds: seq<nat>)
    requires Width(w) && Digits(Base(w), ds)
    ensures Fed(w, ds).value % Pow(2, Fed(w, ds).bits) == Value(Base(w), ds) % Pow(2, Fed(w, ds).bits)
  {
    var r := Fed(w, ds);
    var p := Pow(2, r.bits);
    FedSeen(w, ds);
    JoinedSum(Value(256, r.out), r.value, r.bits);
    Quotient(Value(Base(w), ds), p, Value(256, r.out), r.value % p);
  }

  // ----- octets of digit strings put together -----

  lemma {:induction false} ShrSum(x: nat, y: nat, k: nat)
    ensures Shr(x * Pow(2, k) + y, k) == x + Shr(y, k)
    decreases k
  {
    if k != 0 {
      Halves(x, Pow(2, k - 1), y);
      ShrSum(x, y / 2, k - 1);
    }
  }

  lemma {:induction false} PowOctets(o: nat)
    ensures Pow(256, o) == Pow(2, 8 * o)
  {
    if o != 0 {
      PowOctets(o - 1);
      PowAdd(2, 8, 8 * (o - 1));
      PowersOfTwo();
    }
  }

  lemma {:induction false} PowDigits(w: nat, n: nat)
    requires Width(w)
    ensures Pow(Base(w), n) == Pow(2, BitCount(w, n))
  {
    if n != 0 {
      PowDigits(w, n - 1);
      Powers(w);
      PowAdd(2, w, BitCount(w, n - 1));
    }
  }

  lemma {:induction false} BitCountAdd(w: nat, m: nat, n: nat)
    ensures BitCount(w, m + n) == BitCount(w, m) + BitCount(w, n)
  {
    if n != 0 {
      BitCountAdd(w, m, n - 1);
    }
  }

  lemma OutValue(w: nat, ds: seq<nat>)
    requires Width(w) && Digits(Base(w), ds)
    ensures Value(256, Fed(w, ds).out) == Shr(Value(Base(w), ds), Fed(w, ds).bits)
  {
    FedSeen(w, ds);
    JoinedCut(Value(256, Fed(w, ds).out), Fed(w, ds).value, Fed(w, ds).bits);
  }

  lemma ConcatShifted(w: nat, g: seq<nat>, ds: seq<nat>, o: nat, k: nat)
    requires Width(w) && BitCount(w, |ds|) == 8 * o + k
    ensures Shr(Value(Base(w), g + ds), k) == Value(Base(w), g) * Pow(256, o) + Shr(Value(Base(w), ds), k)
  {
    var v := Value(Base(w), g);
    ValueConcat(Base(w), g, ds);
    PowDigits(w, |ds|);
    SplitPower(v, o, k);
    ShrSum(v * Pow(256, o), Value(Base(w), ds), k);
  }

  /** Digits that fill their octets can be read by themselves. */
  lemma FedConcat(w: nat, g: seq<nat>, ds: seq<nat>)
    requires Width(w) && Digits(Base(w), g) && Digits(Base(w), ds) && Fed(w, g).bits == 0
    ensures Fed(w, g + ds).out == Fed(w, g).out + Fed(w, ds).out
  {
    var a, b, c := Fed(w, g), Fed(w, ds), Fed(w, g + ds);
    BitCountAdd(w, |g|, |ds|);
    assert |c.out| == |a.out| + |b.out| && c.bits == b.bits;
    OutValue(w, g);
    OutValue(w, ds);
    OutValue(w, g + ds);
    ConcatShifted(w, g, ds, |b.out|, b.bits);
    ValueConcat(256, a.out, b.out);
    ValueInjective(256, c.out, a.out + b.out);
  }

  lemma OctetsConcat(w: nat, g: seq<nat>, ds: seq<nat>)
    requires Width(w) && Digits(Base(w), g) && Digits(Base(w), ds)
    requires BitCount(w, |g|) % 8 == 0
    ensures Octets(w, g + ds) == Octets(w, g) + Octets(w, ds)
  {
    FedOctets(w, g);
    FedOctets(w, ds);
    FedOctets(w, g + ds);
    FedConcat(w, g, ds);
  }

  lemma SplitPower(v: nat, o: nat, k: nat)
    ensures v * Pow(2, 8 * o + k) == v * Pow(256, o) * Pow(2, k)
  {
    PowOctets(o);
    PowAdd(2, 8 * o, k);
    MulAssoc(v, Pow(256, o), Pow(2, k));
  }
}
