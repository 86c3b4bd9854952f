/** PBKDF2 (section 5.2 of RFC 8018) with HMAC-SHA256 as an abstract pseudorandom function. */
module Pbkdf2 {
  import opened Bytes
  import opened Bits

  const DIGEST := 32

  type Digest = s: seq<Byte> | |s| == DIGEST witness Zeros(DIGEST)

  /** HMAC of a key and a message. */
  type Prf = (seq<Byte>, seq<Byte>) -> Digest

  // ----- the standard -----

  /** The four-octet encoding of i, most significant octet first. */
  function Int32(i: nat): seq<nat>
  {
    ToDigits(256, i, 4)
  }

  /** U_j of block i. */
  function U(prf: Prf, password: seq<Byte>, salt: seq<Byte>, i: nat, j: nat): Digest
    requires j >= 1
  {
    if j == 1 then prf(password, salt + Int32(i)) else prf(password, U(prf, password, salt, i, j - 1))
  }

  /** The exclusive or of U_1 to U_j of block i. */
  function F(prf: Prf, password: seq<Byte>, salt: seq<Byte>, i: nat, j: nat): Digest
    requires j >= 1
  {
    if j == 1 then U(prf, password, salt, i, 1)
    else XorSeq(F(prf, password, salt, i, j - 1), U(prf, password, salt, i, j))
  }

  /** The first l blocks. */
  function T(prf: Prf, password: seq<Byte>, salt: seq<Byte>, c: nat, l: nat): (t: seq<Byte>)
    requires c >= 1
    ensures |t| == DIGEST * l
  {
    if l == 0 then [] else T(prf, password, salt, c, l - 1) + F(prf, password, salt, l, c)
  }

  /** The derived key: as many blocks as it takes, the last one cut. */
  function DK(prf: Prf, password: seq<Byte>, salt: seq<Byte>, c: nat, dkLen: nat): (dk: seq<Byte>)
    requires c >= 1
    ensures |dk| == dkLen
  {
    T(prf, password, salt, c, (dkLen + DIGEST - 1) / DIGEST)[..dkLen]
  }

  lemma {:induction false} MoreBlocks(prf: Prf, password: seq<Byte>, salt: seq<Byte>, c: nat, l: nat, m: nat)
    requires c >= 1 && l <= m
    ensures T(prf, password, salt, c, l) <= T(prf, password, salt, c, m)
  {
    if l < m {
      MoreBlocks(prf, password, salt, c, l, m - 1);
    }
  }

  /** A shorter key is the beginning of a longer one. */
  lemma KeyPrefix(prf: Prf, password: seq<Byte>, salt: seq<Byte>, c: nat, short: nat, long: nat)
    requires c >= 1 && short <= long
    ensures DK(prf, password, salt, c, short) == DK(prf, password, salt, c, long)[..short]
  {
    var l, m := (short + DIGEST - 1) / DIGEST, (long + DIGEST - 1) / DIGEST;
    MoreBlocks(prf, password, salt, c, l, m);
    var t, u := T(prf, password, salt, c, l), T(prf, password, salt, c, m);
    assert u[..|t|] == t;
    assert u[..long][..short] == u[..short] == t[..short];
  }

  /** Where each block is found in the key. */
  lemma KeyBlock(prf: Prf, password: seq<Byte>, salt: seq<Byte>, c: nat, dkLen: nat, i: nat)
    requires c >= 1 && DIGEST * (i + 1) <= dkLen
    ensures DK(prf, password, salt, c, dkLen)[DIGEST * i..DIGEST * (i + 1)] == F(prf, password, salt, i + 1, c)
  {
    KeyPrefix(prf, password, salt, c, DIGEST * (i + 1), dkLen);
    var t := T(prf, password, salt, c, i + 1);
    assert DK(prf, password, salt, c, DIGEST * (i + 1)) == t;
    assert t[DIGEST * i..] == F(prf, password, salt, i + 1, c);
    assert DK(prf, password, salt, c, dkLen)[DIGEST * i..DIGEST * (i + 1)]
        == DK(prf, password, salt, c, dkLen)[..DIGEST * (i + 1)][DIGEST * i..];
  }

  // ----- the key written out -----

  /** us is the chain of digests of block i: of the salt and the block number, and then of one another. */
  ghost predicate IsChain(prf: Prf, password: seq<Byte>, salt: seq<Byte>, i: nat, us: seq<Digest>)
  {
    && us != []
    && us[0] == prf(password, salt + [i / 16777216 % 256, i / 65536 % 256, i / 256 % 256, i % 256])
    && forall j :: 0 <= j < |us| - 1 ==> us[j + 1] == prf(password, us[j])
  }

  /** One octet of the exclusive or of all digests. */
  function XorAt(us: seq<Digest>, k: nat): Byte
    requires us != [] && k < DIGEST
  {
    if |us| == 1 then us[0][k] else XorByte(XorAt(us[..|us| - 1], k), us[|us| - 1][k])
  }

  lemma BlockNumberOctets(i: nat)
    ensures Int32(i) == [i / 16777216 % 256, i / 65536 % 256, i / 256 % 256, i % 256]
  {
    var a, b, c := i / 256, i / 256 / 256, i / 256 / 256 / 256;
    QuoIsDiv(i);
    QuoIsDiv(a);
    QuoIsDiv(b);
    QuoIsDiv(c);
    assert ToDigits(256, c, 1) == ToDigits(256, c / 256, 0) + [c % 256] == [c % 256];
    assert ToDigits(256, b, 2) == ToDigits(256, c, 1) + [b % 256];
    assert ToDigits(256, a, 3) == ToDigits(256, b, 2) + [a % 256];
    assert ToDigits(256, i, 4) == ToDigits(256, a, 3) + [i % 256];
    assert b == i / 65536 && c == i / 16777216;
  }

  lemma QuoIsDiv(n: nat)
    ensures Quo(n, 256) == n / 256 && Rem(n, 256) == n % 256
  {
    QuoRem(n, 256);
    Quotient(n, 256, Quo(n, 256), Rem(n, 256));
  }

  lemma {:induction false} ChainIsU(prf: Prf, password: seq<Byte>, salt: seq<Byte>, i: nat, us: seq<Digest>, j: nat)
    requires IsChain(prf, password, salt, i, us) && j < |us|
    ensures us[j] == U(prf, password, salt, i, j + 1)
  {
    BlockNumberOctets(i);
    if j > 0 {
      ChainIsU(prf, password, salt, i, us, j - 1);
      assert us[(j - 1) + 1] == prf(password, us[j - 1]);
    }
  }

  lemma ChainPrefix(prf: Prf, password: seq<Byte>, salt: seq<Byte>, i: nat, us: seq<Digest>)
    requires IsChain(prf, password, salt, i, us) && |us| > 1
    ensures IsChain(prf, password, salt, i, us[..|us| - 1])
  {
  }

  lemma {:induction false} BlockIsXor(prf: Prf, password: seq<Byte>, salt: seq<Byte>, i: nat, us: seq<Digest>, k: nat)
    requires IsChain(prf, password, salt, i, us) && k < DIGEST
    ensures F(prf, password, salt, i, |us|)[k] == XorAt(us, k)
    decreases |us|
  {
    ChainIsU(prf, password, salt, i, us, |us| - 1);
    if |us| > 1 {
      ChainPrefix(prf, password, salt, i, us);
      BlockIsXor(prf, password, salt, i, us[..|us| - 1], k);
    }
  }

  /**
   * Octet by octet, for any iteration count and length: an octet of the key in block n is
   * the exclusive or of those octets in the chain that starts from the salt and n, counted
   * from 1, in four octets.
   */
  lemma KeyOctet(prf: Prf, password: seq<Byte>, salt: seq<Byte>, dkLen: nat, n: nat, us: seq<Digest>, k: nat)
    requires IsChain(prf, password, salt, n, us) && n >= 1 && k < 32 && 32 * (n - 1) + k < dkLen
    ensures DK(prf, password, salt, |us|, dkLen)[32 * (n - 1) + k] == XorAt(us, k)
  {
    BlockIsXor(prf, password, salt, n, us, k);
    var c, long := |us|, dkLen + 32 * n;
    KeyBlock(prf, password, salt, c, long, n - 1);
    KeyPrefix(prf, password, salt, c, dkLen, long);
    var block := DK(prf, password, salt, c, long)[DIGEST * (n - 1)..DIGEST * n];
    assert block[k] == DK(prf, password, salt, c, long)[DIGEST * (n - 1) + k];
  }

  // ----- the program -----

  /** crypto_auth_hmacsha256_state: keyed by init, fed by update, read by final. */
  class HmacState {
    var key: seq<Byte>
    var message: seq<Byte>

    constructor ()
      ensures fresh(this)
    {
      key, message := [], [];
    }

    method Init(k: seq<Byte>)
      modifies this
      ensures key == k && message == []
    {
      key, message := k, [];
    }

    method Update(data: seq<Byte>)
      modifies this
      ensures key == old(key) && message == old(message) + data
    {
      message := message + data;
    }

    /** memcpy of the whole state. */
    method CopyFrom(that: HmacState)
      modifies this
      ensures key == old(that.key) && message == old(that.message)
    {
      key, message := that.key, that.message;
    }

    method Final(prf: Prf, out: array<Byte>)
      requires out.Length == DIGEST
      modifies this, out
      ensures out[..] == prf(old(key), old(message))
    {
      var digest := prf(key, message);
      for k := 0 to DIGEST
        invariant out[..k] == digest[..k]
      {
        out[k] := digest[k];
      }
      assert out[..] == out[..DIGEST];
    }
  }

  method Store32Be(dst: array<Byte>, w: nat)
    requires dst.Length == 4 && w < 0x1_0000_0000
    modifies dst
    ensures dst[..] == Int32(w)
  {
    var v := w;
    dst[3] := v % 256;
    v := v / 256;
    dst[2] := v % 256;
    v := v / 256;
    dst[1] := v % 256;
    v := v / 256;
    dst[0] := v % 256;
    FourOctets(w, dst[..]);
  }

  lemma FourOctets(w: nat, s: seq<Byte>)
    requires w < 0x1_0000_0000 && |s| == 4
    requires s[3] == w % 256 && s[2] == w / 256 % 256 && s[1] == w / 256 / 256 % 256 && s[0] == w / 256 / 256 / 256 % 256
    ensures s == Int32(w)
  {
    var a, b, c := w / 256, w / 256 / 256, w / 256 / 256 / 256;
    assert w == a * 256 + s[3] && a == b * 256 + s[2] && b == c * 256 + s[1] && c == s[0];
    ValueSnoc(256, s[..3], s[3]);
    ValueSnoc(256, s[..2], s[2]);
    ValueSnoc(256, s[..1], s[1]);
    ValueSnoc(256, [], s[0]);
    assert s[..3] + [s[3]] == s && s[..2] + [s[2]] == s[..3] && s[..1] + [s[1]] == s[..2] && [] + [s[0]] == s[..1];
    DigitsAreToDigits(256, s);
  }

  /** T ^= U. */
  method XorInto(t: array<Byte>, u: array<Byte>)
    requires t != u && t.Length == DIGEST && u.Length == DIGEST
    modifies t
    ensures t[..] == XorSeq(old(t[..]), old(u[..]))
  {
    for k := 0 to DIGEST
      invariant forall m :: 0 <= m < k ==> t[m] == XorByte(old(t[m]), u[m])
      invariant forall m :: k <= m < DIGEST ==> t[m] == old(t[m])
    {
      t[k] := XorByte(t[k], u[k]);
    }
  }

  /** One iteration more: u takes its place in t. */
  method Round(prf: Prf, password: seq<Byte>, hctx: HmacState, u: array<Byte>, t: array<Byte>)
    requires t != u && t.Length == DIGEST && u.Length == DIGEST
    modifies hctx, u, t
    ensures u[..] == prf(password, old(u[..]))
    ensures t[..] == XorSeq(old(t[..]), u[..])
  {
    hctx.Init(password);
    hctx.Update(u[..]);
    assert [] + u[..] == u[..];
    hctx.Final(prf, u);
    XorInto(t, u);
  }

  lemma NextRound(prf: Prf, password: seq<Byte>, salt: seq<Byte>, i: nat, j: nat)
    requires j >= 2
    ensures U(prf, password, salt, i, j) == prf(password, U(prf, password, salt, i, j - 1))
    ensures F(prf, password, salt, i, j) == XorSeq(F(prf, password, salt, i, j - 1), U(prf, password, salt, i, j))
  {
  }

  /** The iterations of one block after the first: t accumulates the exclusive or of all u. */
  method Iterate(prf: Prf, password: seq<Byte>, ghost salt: seq<Byte>, ghost i: nat, c: nat, hctx: HmacState, u: array<Byte>, t: array<Byte>)
    requires t != u && t.Length == DIGEST && u.Length == DIGEST
    requires u[..] == U(prf, password, salt, i, 1) && t[..] == u[..]
    modifies hctx, u, t
    ensures t[..] == F(prf, password, salt, i, if c == 0 then 1 else c)
  {
    var j := 2;
    while j <= c
      invariant 2 <= j && (c >= 1 ==> j <= c + 1) && (c == 0 ==> j == 2)
      invariant u[..] == U(prf, password, salt, i, j - 1)
      invariant t[..] == F(prf, password, salt, i, j - 1)
    {
      NextRound(prf, password, salt, i, j);
      Round(prf, password, hctx, u, t);
      j := j + 1;
    }
  }

  /** One block, from a copy of the state that has already taken the password and the salt. */
  method ComputeBlock(prf: Prf, password: seq<Byte>, salt: seq<Byte>, c: nat, i: nat, psh: HmacState, hctx: HmacState,
                      ivec: array<Byte>, u: array<Byte>, t: array<Byte>)
    requires psh != hctx && psh.key == password && psh.message == salt && i < 0x1_0000_0000
    requires ivec.Length == 4 && u.Length == DIGEST && t.Length == DIGEST && ivec != u && u != t && ivec != t
    modifies hctx, ivec, u, t
    ensures t[..] == F(prf, password, salt, i, if c == 0 then 1 else c)
  {
    Store32Be(ivec, i);
    hctx.CopyFrom(psh);
    hctx.Update(ivec[..]);
    hctx.Final(prf, u);
    var end := Copy(t, 0, u[..]);
    assert t[..] == u[..];
    Iterate(prf, password, salt, i, c, hctx, u, t);
  }

  /** As much of a block as the key still lacks. */
  method StoreBlock(buf: array<Byte>, dkLen: nat, i: nat, t: array<Byte>, ghost done: seq<Byte>)
    requires buf != t && t.Length == DIGEST && dkLen <= buf.Length && i * DIGEST < dkLen
    requires |done| == i * DIGEST && buf[..i * DIGEST] == done
    modifies buf
    ensures buf[..Done(i + 1, dkLen)] == (done + old(t[..]))[..Done(i + 1, dkLen)]
    ensures buf[dkLen..] == old(buf[dkLen..])
  {
    var clen := dkLen - i * DIGEST;
    if clen > DIGEST {
      clen := DIGEST;
    }
    ghost var was := buf[..];
    var end := Copy(buf, i * DIGEST, t[..clen]);
    NextBlock(done, t[..], was, buf[..], clen, dkLen);
    assert buf[..Done(i + 1, dkLen)] == buf[..][..i * DIGEST + clen];
  }

  /** The state that has taken the password and the salt. */
  method Cached(password: seq<Byte>, salt: seq<Byte>) returns (psh: HmacState)
    ensures fresh(psh) && psh.key == password && psh.message == salt
  {
    psh := new HmacState();
    psh.Init(password);
    psh.Update(salt);
    assert [] + salt == salt;
  }

  const MAX_KEY := 32 * 0xFFFF_FFFF

  /**
   * An iteration count of 0 is taken as 1; the largest 64-bit count would never end the
   * inner loop. The cast of the block number to 32 bits loses nothing up to MAX_KEY.
   */
  method Derive(prf: Prf, password: seq<Byte>, salt: seq<Byte>, c: nat, buf: array<Byte>, dkLen: nat)
    requires c < 0xFFFF_FFFF_FFFF_FFFF && dkLen <= MAX_KEY && dkLen <= buf.Length
    modifies buf
    ensures buf[..] == DK(prf, password, salt, if c == 0 then 1 else c, dkLen) + old(buf[dkLen..])
  {
    ghost var n := if c == 0 then 1 else c;
    ghost var blocks := T(prf, password, salt, n, 0);
    var psh := Cached(password, salt);
    var hctx := new HmacState();
    var ivec, u, t := new Byte[4], new Byte[DIGEST], new Byte[DIGEST];
    var i := 0;
    while i * DIGEST < dkLen
      invariant psh.key == password && psh.message == salt
      invariant i == 0 || (i - 1) * DIGEST < dkLen
      invariant blocks == T(prf, password, salt, n, i) && buf[..Done(i, dkLen)] == blocks[..Done(i, dkLen)]
      invariant buf[dkLen..] == old(buf[dkLen..])
    {
      BlockNumber(i, dkLen);
      ComputeBlock(prf, password, salt, c, (i + 1) % 0x1_0000_0000, psh, hctx, ivec, u, t);
      StoreBlock(buf, dkLen, i, t, blocks);
      blocks := blocks + t[..];
      i := i + 1;
    }
    KeyOfBlocks(prf, password, salt, n, i, dkLen);
    assert buf[..] == buf[..dkLen] + buf[dkLen..];
  }

  lemma BlockNumber(i: nat, dkLen: nat)
    requires i * DIGEST < dkLen <= MAX_KEY
    ensures (i + 1) % 0x1_0000_0000 == i + 1
  {
  }

  /** The bytes that i blocks give of a key. */
  function Done(i: nat, dkLen: nat): nat
  {
    if i * DIGEST < dkLen then i * DIGEST else dkLen
  }

  lemma KeyOfBlocks(prf: Prf, password: seq<Byte>, salt: seq<Byte>, c: nat, i: nat, dkLen: nat)
    requires c >= 1 && (i == 0 || (i - 1) * DIGEST < dkLen) && dkLen <= i * DIGEST
    ensures DK(prf, password, salt, c, dkLen) == T(prf, password, salt, c, i)[..dkLen]
  {
    Blocks(i, dkLen);
  }

  lemma Blocks(i: nat, dkLen: nat)
    requires (i == 0 || (i - 1) * DIGEST < dkLen) && dkLen <= i * DIGEST
    ensures i == (dkLen + DIGEST - 1) / DIGEST
  {
  }

  lemma NextBlock(done: seq<Byte>, t: seq<Byte>, was: seq<Byte>, now: seq<Byte>, clen: nat, dkLen: nat)
    requires |t| == DIGEST && clen == (if dkLen - |done| > DIGEST then DIGEST else dkLen - |done|)
    requires |done| < dkLen <= |was| && was[..|done|] == done
    requires now == was[..|done|] + t[..clen] + was[|done| + clen..]
    ensures now[..|done| + clen] == (done + t)[..|done| + clen]
    ensures |now| == |was| && now[dkLen..] == was[dkLen..]
  {
  }
}
