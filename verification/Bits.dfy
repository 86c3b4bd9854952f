/** Bitwise operators on non-negative integers, defined bit by bit. */
module Bits {
  import opened Bytes

  function Or(x: nat, y: nat): nat
    decreases x + y
  {
    if x == 0 && y == 0 then 0
    else 2 * Or(x / 2, y / 2) + (if x % 2 == 1 || y % 2 == 1 then 1 else 0)
  }

  function Xor(x: nat, y: nat): nat
    decreases x + y
  {
    if x == 0 && y == 0 then 0
    else 2 * Xor(x / 2, y / 2) + (if x % 2 != y % 2 then 1 else 0)
  }

  /** Shifts by k bits. */
  function Shr(x: nat, k: nat): nat
    decreases k
  {
    if k == 0 then x else Shr(x / 2, k - 1)
  }

  function Shl(x: nat, k: nat): nat
    decreases k
  {
    if k == 0 then x else Shl(2 * x, k - 1)
  }

  lemma {:induction false} ShrIsDiv(x: nat, k: nat)
    ensures Shr(x, k) == x / Pow(2, k)
    decreases k
  {
    if k != 0 {
      ShrIsDiv(x / 2, k - 1);
      DivDiv(x, Pow(2, k - 1));
    }
  }

  lemma {:induction false} ShlIsMul(x: nat, k: nat)
    ensures Shl(x, k) == x * Pow(2, k)
    decreases k
  {
    if k != 0 {
      ShlIsMul(2 * x, k - 1);
      assert 2 * x * Pow(2, k - 1) == x * (2 * Pow(2, k - 1));
    }
  }

  lemma {:induction false} OrZero(x: nat)
    ensures Or(x, 0) == x && Or(0, x) == x
  {
    if x != 0 {
      OrZero(x / 2);
    }
  }

  /** Or of operands that share no bit is their sum. */
  lemma {:induction false} OrDisjoint(hi: nat, lo: nat, k: nat)
    requires lo < Pow(2, k)
    ensures Or(hi * Pow(2, k), lo) == hi * Pow(2, k) + lo
  {
    if k == 0 {
      OrZero(hi);
    } else {
      var p := Pow(2, k - 1);
      assert Pow(2, k) == 2 * p;
      assert hi * Pow(2, k) == 2 * (hi * p);
      OrDisjoint(hi, lo / 2, k - 1);
    }
  }

  /** Shifting right distributes over Or. */
  lemma {:induction false} OrShiftRight(x: nat, y: nat, k: nat)
    requires 0 < Pow(2, k)
    ensures Or(x, y) / Pow(2, k) == Or(x / Pow(2, k), y / Pow(2, k))
  {
    if k != 0 {
      var p := Pow(2, k - 1);
      assert Pow(2, k) == 2 * p;
      assert Or(x, y) / 2 == Or(x / 2, y / 2);
      OrShiftRight(x / 2, y / 2, k - 1);
      DivDiv(x, p);
      DivDiv(y, p);
      DivDiv(Or(x, y), p);
    }
  }

  lemma Quotient(x: nat, d: nat, q: nat, r: nat)
    requires r < d && x == q * d + r
    ensures x / d == q && x % d == r
  {
    assert x == x / d * d + x % d;
    DivModUnique(d, q, r, x / d, x % d);
  }

  lemma DivDiv(x: nat, p: nat)
    requires p > 0
    ensures x / (2 * p) == x / 2 / p
  {
    var h, s := x / 2, x % 2;
    var q, r := h / p, h % p;
    assert h == q * p + r;
    assert q * (2 * p) == 2 * (q * p);
    Quotient(x, 2 * p, q, 2 * r + s);
  }

  lemma DivPow(n: nat, p: nat)
    requires p > 0
    ensures n / (256 * p) == n / 256 / p
  {
    var h, s := n / 256, n % 256;
    var q, r := h / p, h % p;
    assert h == q * p + r;
    assert q * (256 * p) == 256 * (q * p);
    Quotient(n, 256 * p, q, 256 * r + s);
  }

  /** Little-endian: byte i has the weight 256^i. */
  lemma {:induction false} LeAt(n: nat, k: nat, i: nat)
    requires i < k
    ensures Le(n, k)[i] == n / Pow(256, i) % 256
  {
    if i > 0 {
      LeAt(n / 256, k - 1, i - 1);
      DivPow(n, Pow(256, i - 1));
    }
  }

  /** Bit i of a number. */
  predicate Bit(x: nat, i: nat)
  {
    x / Pow(2, i) % 2 == 1
  }

  lemma BitNext(x: nat, i: nat)
    ensures Bit(x, i + 1) == Bit(x / 2, i)
  {
    DivDiv(x, Pow(2, i));
  }

  lemma BitZero(x: nat)
    ensures Bit(x, 0) <==> x % 2 == 1
  {
  }

  lemma XorHalf(x: nat, y: nat)
    ensures Xor(x, y) / 2 == Xor(x / 2, y / 2) && (Xor(x, y) % 2 == 1 <==> x % 2 != y % 2)
  {
  }

  lemma OrHalf(x: nat, y: nat)
    ensures Or(x, y) / 2 == Or(x / 2, y / 2) && (Or(x, y) % 2 == 1 <==> x % 2 == 1 || y % 2 == 1)
  {
  }

  /** Exclusive or, bit by bit. */
  lemma {:induction false} XorBit(x: nat, y: nat, i: nat)
    ensures Bit(Xor(x, y), i) <==> Bit(x, i) != Bit(y, i)
    decreases i
  {
    XorHalf(x, y);
    if i > 0 {
      BitNext(x, i - 1);
      BitNext(y, i - 1);
      BitNext(Xor(x, y), i - 1);
      XorBit(x / 2, y / 2, i - 1);
    } else {
      BitZero(x);
      BitZero(y);
      BitZero(Xor(x, y));
    }
  }

  /** Inclusive or, bit by bit. */
  lemma {:induction false} OrBit(x: nat, y: nat, i: nat)
    ensures Bit(Or(x, y), i) <==> Bit(x, i) || Bit(y, i)
    decreases i
  {
    OrHalf(x, y);
    if i > 0 {
      BitNext(x, i - 1);
      BitNext(y, i - 1);
      BitNext(Or(x, y), i - 1);
      OrBit(x / 2, y / 2, i - 1);
    } else {
      BitZero(x);
      BitZero(y);
      BitZero(Or(x, y));
    }
  }

  lemma {:induction false} XorBound(x: nat, y: nat, k: nat)
    requires x < Pow(2, k) && y < Pow(2, k)
    ensures Xor(x, y) < Pow(2, k)
  {
    if k != 0 {
      XorBound(x / 2, y / 2, k - 1);
    }
  }

  lemma {:induction false} XorInvolution(x: nat, y: nat)
    ensures Xor(Xor(x, y), y) == x
    decreases x + y
  {
    if x != 0 || y != 0 {
      XorInvolution(x / 2, y / 2);
    }
  }

  function XorByte(a: Byte, b: Byte): Byte
  {
    XorBound(a, b, 8);
    assert Pow(2, 8) == 256 by { PowersOfTwo(); }
    Xor(a, b)
  }

  lemma PowersOfTwo()
    ensures Pow(2, 1) == 2 && Pow(2, 2) == 4 && Pow(2, 3) == 8 && Pow(2, 4) == 16
    ensures Pow(2, 5) == 32 && Pow(2, 6) == 64 && Pow(2, 7) == 128 && Pow(2, 8) == 256
    ensures Pow(2, 12) == 4096 && Pow(2, 16) == 65536 && Pow(2, 18) == 262144
  {
    assert Pow(2, 4) == 2 * Pow(2, 3) == 16;
    assert Pow(2, 8) == 2 * Pow(2, 7) == 4 * Pow(2, 6) == 8 * Pow(2, 5) == 16 * Pow(2, 4);
    PowAdd(2, 8, 4);
    PowAdd(2, 8, 8);
    PowAdd(2, 16, 2);
  }

  /** Byte-wise exclusive or of equally long strings. */
  function XorSeq(a: seq<Byte>, b: seq<Byte>): (s: seq<Byte>)
    requires |a| == |b|
    ensures |s| == |a|
  {
    seq(|a|, i requires 0 <= i < |a| => XorByte(a[i], b[i]))
  }

  lemma XorSeqInvolution(a: seq<Byte>, b: seq<Byte>)
    requires |a| == |b|
    ensures XorSeq(XorSeq(a, b), b) == a
  {
    forall i | 0 <= i < |a|
      ensures XorSeq(XorSeq(a, b), b)[i] == a[i]
    {
      XorInvolution(a[i], b[i]);
    }
  }
}
