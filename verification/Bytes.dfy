/** Byte strings, fixed-width little-endian integers and positional values. */
module Bytes {

  type Byte = x: int | 0 <= x < 256

  function Pow(base: nat, k: nat): (p: nat)
    ensures base > 0 ==> p > 0
  {
    if k == 0 then 1 else base * Pow(base, k - 1)
  }

  function Zeros(n: nat): (s: seq<Byte>)
    ensures |s| == n && forall i :: 0 <= i < n ==> s[i] == 0
  {
    seq(n, i => 0)
  }

  function Flatten<T>(parts: seq<seq<T>>): seq<T>
  {
    if parts == [] then [] else parts[0] + Flatten(parts[1..])
  }

  lemma Assoc<T>(a: seq<T>, b: seq<T>, c: seq<T>)
    ensures (a + b) + c == a + (b + c)
  {
  }

  lemma {:induction false} FlattenSnoc<T>(parts: seq<seq<T>>, last: seq<T>)
    ensures Flatten(parts + [last]) == Flatten(parts) + last
  {
    if parts == [] {
      assert [last][1..] == [];
    } else {
      FlattenSnoc(parts[1..], last);
      assert (parts + [last])[1..] == parts[1..] + [last];
    }
  }

  lemma {:induction false} FlattenConcat<T>(a: seq<seq<T>>, b: seq<seq<T>>)
    ensures Flatten(a + b) == Flatten(a) + Flatten(b)
  {
    if a == [] {
      assert a + b == b;
    } else {
      FlattenConcat(a[1..], b);
      assert (a + b)[1..] == a[1..] + b;
    }
  }

  /** std::copy into a buffer, returning the advanced position. */
  method Copy(dst: array<Byte>, at: nat, src: seq<Byte>) returns (next: nat)
    requires at + |src| <= dst.Length
    modifies dst
    ensures next == at + |src|
    ensures dst[..] == old(dst[..at]) + src + old(dst[at + |src|..])
  {
    for k := 0 to |src|
      invariant dst[..] == old(dst[..at]) + src[..k] + old(dst[at + k..])
    {
      dst[at + k] := src[k];
    }
    next := at + |src|;
  }

  // ----- little-endian integers -----

  /** The k low bytes of n, least significant first: what storing a k-byte integer writes. */
  function Le(n: nat, k: nat): (s: seq<Byte>)
    ensures |s| == k
  {
    if k == 0 then [] else [n % 256] + Le(n / 256, k - 1)
  }

  function FromLe(s: seq<Byte>): nat
  {
    if s == [] then 0 else s[0] + 256 * FromLe(s[1..])
  }

  lemma {:induction false} LeRoundTrip(n: nat, k: nat)
    requires n < Pow(256, k)
    ensures FromLe(Le(n, k)) == n
  {
    if k != 0 {
      assert Pow(256, k) == 256 * Pow(256, k - 1);
      LeRoundTrip(n / 256, k - 1);
      assert Le(n, k)[1..] == Le(n / 256, k - 1);
    }
  }

  lemma {:induction false} FromLeBound(s: seq<Byte>)
    ensures FromLe(s) < Pow(256, |s|)
  {
    if s != [] {
      FromLeBound(s[1..]);
    }
  }

  lemma {:induction false} LeFromLe(s: seq<Byte>)
    ensures Le(FromLe(s), |s|) == s
  {
    if s != [] {
      LeFromLe(s[1..]);
      assert s == [s[0]] + s[1..];
    }
  }

  lemma LeInjective(m: nat, n: nat, k: nat)
    requires m < Pow(256, k) && n < Pow(256, k)
    requires Le(m, k) == Le(n, k)
    ensures m == n
  {
    LeRoundTrip(m, k);
    LeRoundTrip(n, k);
  }

  /** The value of four bytes, least significant first. */
  function Quad(a: nat, b: nat, c: nat, d: nat): nat
  {
    a + 256 * b + 65536 * c + 16777216 * d
  }

  lemma FourBytes(s: seq<Byte>)
    requires |s| == 4
    ensures FromLe(s) == Quad(s[0], s[1], s[2], s[3])
  {
    assert s[1..][1..] == s[2..] && s[2..][1..] == s[3..] && s[3..][1..] == [];
    assert FromLe(s[3..]) == s[3] && FromLe(s[2..]) == s[2] + 256 * FromLe(s[3..]);
  }

  lemma PowersOf256()
    ensures Pow(256, 2) == 0x1_0000
    ensures Pow(256, 4) == 0x1_0000_0000
    ensures Pow(256, 8) == 0x1_0000_0000_0000_0000
  {
    assert Pow(256, 1) == 256;
    assert Pow(256, 3) == 256 * Pow(256, 2);
    assert Pow(256, 4) == 256 * Pow(256, 3);
    assert Pow(256, 5) == 256 * Pow(256, 4);
    assert Pow(256, 6) == 256 * Pow(256, 5);
    assert Pow(256, 7) == 256 * Pow(256, 6);
    assert Pow(256, 8) == 256 * Pow(256, 7);
  }

  // ----- big-endian positional value -----

  /** The number whose digits in the given base, most significant first, are s. */
  function Value(base: nat, s: seq<nat>): nat
  {
    if s == [] then 0 else Value(base, s[..|s| - 1]) * base + s[|s| - 1]
  }

  predicate Digits(base: nat, s: seq<nat>)
  {
    forall i :: 0 <= i < |s| ==> s[i] < base
  }

  lemma {:induction false} PowAdd(base: nat, j: nat, k: nat)
    ensures Pow(base, j + k) == Pow(base, j) * Pow(base, k)
  {
    if j != 0 {
      PowAdd(base, j - 1, k);
      MulAssoc(base, Pow(base, j - 1), Pow(base, k));
    }
  }

  lemma MulAssoc(a: nat, b: nat, c: nat)
    ensures a * b * c == a * (b * c)
  {
  }

  lemma {:induction false} ValueConcat(base: nat, a: seq<nat>, b: seq<nat>)
    ensures Value(base, a + b) == Value(base, a) * Pow(base, |b|) + Value(base, b)
  {
    if b == [] {
      assert a + b == a;
    } else {
      var init, last := b[..|b| - 1], b[|b| - 1];
      ValueConcat(base, a, init);
      assert (a + b)[..|a + b| - 1] == a + init;
      var va, p, vi := Value(base, a), Pow(base, |init|), Value(base, init);
      calc {
        Value(base, a + b);
        (va * p + vi) * base + last;
        va * p * base + vi * base + last;
        { MulAssoc(va, p, base); assert p * base == base * p == Pow(base, |b|); }
        va * Pow(base, |b|) + (vi * base + last);
      }
    }
  }

  lemma {:induction false} ValueBound(base: nat, s: seq<nat>)
    requires Digits(base, s)
    ensures Value(base, s) < Pow(base, |s|)
  {
    if s != [] {
      var init := s[..|s| - 1];
      ValueBound(base, init);
      var v, q := Value(base, init), Pow(base, |init|);
      MulMonotone(v + 1, q, base);
      MulSucc(v, base);
    }
  }

  lemma MulSucc(x: nat, k: nat)
    ensures (x + 1) * k == x * k + k
  {
  }

  lemma MulMonotone(x: nat, y: nat, k: nat)
    requires x <= y
    ensures x * k <= y * k && k * x <= k * y
  {
  }

  lemma {:induction false} ValueInjective(base: nat, s: seq<nat>, t: seq<nat>)
    requires |s| == |t| && Digits(base, s) && Digits(base, t)
    requires Value(base, s) == Value(base, t)
    ensures s == t
  {
    if s != [] {
      var n := |s| - 1;
      DivModUnique(base, Value(base, s[..n]), s[n], Value(base, t[..n]), t[n]);
      ValueInjective(base, s[..n], t[..n]);
      assert s == s[..n] + [s[n]] && t == t[..n] + [t[n]];
    }
  }

  lemma DivModUnique(base: nat, q: nat, r: nat, q': nat, r': nat)
    requires r < base && r' < base
    requires q * base + r == q' * base + r'
    ensures q == q' && r == r'
  {
    if q < q' {
      MulMonotone(q + 1, q', base);
      MulSucc(q, base);
      assert false;
    } else if q' < q {
      MulMonotone(q' + 1, q, base);
      MulSucc(q', base);
      assert false;
    }
  }

  /** Division by repeated subtraction. */
  function Quo(n: nat, base: nat): nat
    requires base > 0
  {
    if n < base then 0 else 1 + Quo(n - base, base)
  }

  function Rem(n: nat, base: nat): (r: nat)
    requires base > 0
    ensures r < base
  {
    if n < base then n else Rem(n - base, base)
  }

  lemma {:induction false} QuoRem(n: nat, base: nat)
    requires base > 0
    ensures n == Quo(n, base) * base + Rem(n, base)
  {
    if n >= base {
      QuoRem(n - base, base);
      MulSucc(Quo(n - base, base), base);
    }
  }

  /** The k low digits of n in the given base, most significant first. */
  function ToDigits(base: nat, n: nat, k: nat): (s: seq<nat>)
    requires base > 0
    ensures |s| == k && Digits(base, s)
    decreases k, n
  {
    if k == 0 then [] else ToDigits(base, Quo(n, base), k - 1) + [Rem(n, base)]
  }

  lemma DivMod(n: nat, base: nat)
    requires base > 0
    ensures n == n / base * base + n % base
  {
  }

  lemma QuotientBound(q: nat, r: nat, base: nat, p: nat)
    requires q * base + r < base * p
    ensures q < p
  {
    if q >= p {
      MulMonotone(p, q, base);
      assert false;
    }
  }

  lemma {:induction false} ValueToDigits(base: nat, n: nat, k: nat)
    requires base > 0 && n < Pow(base, k)
    ensures Value(base, ToDigits(base, n, k)) == n
  {
    if k != 0 {
      var q, r := Quo(n, base), Rem(n, base);
      QuoRem(n, base);
      QuotientBound(q, r, base, Pow(base, k - 1));
      ValueToDigits(base, q, k - 1);
      ValueSnoc(base, ToDigits(base, q, k - 1), r);
    }
  }

  lemma ValueSnoc(base: nat, s: seq<nat>, d: nat)
    ensures Value(base, s + [d]) == Value(base, s) * base + d
  {
    assert (s + [d])[..|s|] == s;
  }

  /** Digits with a given value are the digits of that value. */
  lemma DigitsAreToDigits(base: nat, s: seq<nat>)
    requires base > 0 && Digits(base, s)
    ensures ToDigits(base, Value(base, s), |s|) == s
  {
    ValueBound(base, s);
    ValueToDigits(base, Value(base, s), |s|);
    ValueInjective(base, ToDigits(base, Value(base, s), |s|), s);
  }
}
