/** The backup string of an account: salted, hashed, encrypted under a password, in Base32 with dashes. */
module Backup {
  import opened Bytes
  import opened Bits
  import opened Wrappers
  import opened Accounts
  import Base32
  import Box
  import Pbkdf2

  const SALT_LEN := 8
  const ID_LEN := ID_BYTES
  const KEY_LEN := Box.KEY_BYTES
  const HASH_LEN := 2
  const ITERATIONS := 100000
  const TOTAL := 50

  type Salt = s: seq<Byte> | |s| == SALT_LEN witness Zeros(SALT_LEN)

  /**
   * HMAC-SHA256, SHA-256, and the stream cipher with an all-zero nonce, as the byte its
   * key stream has at each position.
   */
  datatype Primitives = Primitives(
    prf: Pbkdf2.Prf,
    hash: seq<Byte> -> Pbkdf2.Digest,
    keystream: (Pbkdf2.Digest, nat) -> Byte)

  datatype Problem = InvalidLength | Corrupted

  // ----- what the string holds -----

  function StreamKey(p: Primitives, password: seq<Byte>, salt: seq<Byte>): Pbkdf2.Digest
  {
    Pbkdf2.DK(p.prf, password, salt, ITERATIONS, Pbkdf2.DIGEST)
  }

  function Keystream(p: Primitives, key: Pbkdf2.Digest, n: nat): (s: seq<Byte>)
    ensures |s| == n
  {
    seq(n, i requires 0 <= i => StreamByte(p, key, i))
  }

  function StreamByte(p: Primitives, key: Pbkdf2.Digest, i: nat): Byte
  {
    p.keystream(key, i)
  }

  /** The account and the start of its hash. */
  function Plain(p: Primitives, a: Account): (s: seq<Byte>)
    ensures |s| == TOTAL - SALT_LEN
  {
    a.id + a.sk + p.hash(a.id + a.sk)[..HASH_LEN]
  }

  function Sealed(p: Primitives, a: Account, password: seq<Byte>, salt: Salt): (s: seq<Byte>)
    ensures |s| == TOTAL
  {
    salt + XorSeq(Plain(p, a), Keystream(p, StreamKey(p, password, salt), TOTAL - SALT_LEN))
  }

  /** Groups of four characters counted from the end, with dashes between. */
  function Dashed(s: string): string
  {
    if |s| < 8 then s else Dashed(s[..|s| - 4]) + "-" + s[|s| - 4..]
  }

  function Text(p: Primitives, a: Account, password: seq<Byte>, salt: Salt): string
  {
    Dashed(Base32.Chars(Base32.Encoded(Sealed(p, a, password, salt))))
  }

  /** What decrypting a string gives. */
  function Opened(p: Primitives, s: string, password: seq<Byte>): Result<Account, Problem>
  {
    match Base32.Decoded(s)
    case None => Err(InvalidLength)
    case Some(data) => if |data| != TOTAL then Err(InvalidLength) else Unsealed(p, data, password)
  }

  function Unsealed(p: Primitives, data: seq<Byte>, password: seq<Byte>): Result<Account, Problem>
    requires |data| == TOTAL
  {
    var key := StreamKey(p, password, data[..SALT_LEN]);
    Checked(p, XorSeq(data[SALT_LEN..], Keystream(p, key, TOTAL - SALT_LEN)))
  }

  /** The account, if the hash that follows it is its own. */
  function Checked(p: Primitives, plain: seq<Byte>): Result<Account, Problem>
    requires |plain| == TOTAL - SALT_LEN
  {
    if plain[ID_LEN + KEY_LEN..] != p.hash(plain[..ID_LEN + KEY_LEN])[..HASH_LEN] then Err(Corrupted)
    else Ok(Account(plain[..ID_LEN], plain[ID_LEN..ID_LEN + KEY_LEN]))
  }

  // ----- making -----

  lemma XorSeqAt(a: seq<Byte>, b: seq<Byte>, k: nat)
    requires |a| == |b| && k < |a|
    ensures XorSeq(a, b)[k] == XorByte(a[k], b[k])
  {
  }

  /** crypto_stream_xor in place, on n bytes from the given index. */
  method StreamXor(p: Primitives, data: array<Byte>, at: nat, n: nat, key: Pbkdf2.Digest)
    requires at + n <= data.Length
    modifies data
    ensures data[..] == old(data[..at]) + XorSeq(old(data[at..at + n]), Keystream(p, key, n)) + old(data[at + n..])
  {
    ghost var x := XorSeq(data[at..at + n], Keystream(p, key, n));
    for k := 0 to n
      invariant data[..] == old(data[..at]) + x[..k] + old(data[at + k..])
    {
      XorSeqAt(old(data[at..at + n]), Keystream(p, key, n), k);
      data[at + k] := XorByte(data[at + k], StreamByte(p, key, k));
    }
  }

  /** The loop condition's i -= 4 needs four characters. */
  method InsertDashes(s: string) returns (r: string)
    requires |s| >= 4
    ensures r == Dashed(s)
  {
    r := s;
    var i := |s| - 4;
    assert s[..i + 4] == s;
    while i > 3
      invariant 0 <= i && i + 4 <= |s| && i + 4 <= |r|
      invariant r[..i + 4] == s[..i + 4] && Dashed(s) == Dashed(s[..i + 4]) + r[i + 4..]
    {
      DashedStep(s, r, i);
      r := r[..i] + "-" + r[i..];
      i := i - 4;
    }
    assert r == s[..i + 4] + r[i + 4..];
  }

  lemma DashedStep(s: string, r: string, i: nat)
    requires 3 < i && i + 4 <= |s| && i + 4 <= |r| && r[..i + 4] == s[..i + 4]
    ensures var now := r[..i] + "-" + r[i..];
      now[..i] == s[..i] && Dashed(s[..i + 4]) + r[i + 4..] == Dashed(s[..i]) + now[i..]
  {
    assert s[..i + 4][..i] == s[..i] && s[..i + 4][i..] == s[i..i + 4];
    assert r[i..] == r[..i + 4][i..] + r[i + 4..];
  }

  /** Salt, account, and the start of its hash. */
  method PutPlain(p: Primitives, a: Account, salt: Salt, data: array<Byte>)
    requires data.Length == TOTAL
    modifies data
    ensures data[..] == salt + Plain(p, a)
  {
    var iter := Copy(data, 0, salt);
    iter := Copy(data, iter, a.id);
    iter := Copy(data, iter, a.sk);
    assert data[SALT_LEN..SALT_LEN + ID_LEN + KEY_LEN] == a.id + a.sk;
    var hash := p.hash(data[SALT_LEN..SALT_LEN + ID_LEN + KEY_LEN]);
    iter := Copy(data, iter, hash[..HASH_LEN]);
  }

  /** The salt is the random bytes drawn. */
  method MakeBackup(p: Primitives, a: Account, password: seq<Byte>, salt: Salt) returns (r: string)
    ensures r == Text(p, a, password, salt)
  {
    var data := new Byte[TOTAL](_ => 0);
    PutPlain(p, a, salt, data);
    var enckey := new Byte[Pbkdf2.DIGEST];
    Pbkdf2.Derive(p.prf, password, data[..SALT_LEN], ITERATIONS, enckey, enckey.Length);
    assert data[..SALT_LEN] == salt && enckey[..] == StreamKey(p, password, salt);
    assert data[SALT_LEN..TOTAL] == Plain(p, a) && data[TOTAL..] == [];
    StreamXor(p, data, SALT_LEN, TOTAL - SALT_LEN, enckey[..]);
    assert data[..] == Sealed(p, a, password, salt);
    var text := Base32.Encode(data[..]);
    EncodedLength(data[..]);
    r := InsertDashes(text);
  }

  lemma EncodedLength(data: seq<Byte>)
    requires |data| == TOTAL
    ensures |Base32.Encoded(data)| == 80
  {
    Base32.EncodedValue(data, 10);
  }

  // ----- decrypting -----

  /**
   * The decoder writes one octet past the size it is given before it notices that a
   * string is too long, so the array has one more.
   */
  method DecryptBackup(p: Primitives, s: string, password: seq<Byte>) returns (r: Result<Account, Problem>)
    ensures r == Opened(p, s, password)
  {
    var backup := new Byte[TOTAL + 1](_ => 0);
    Base32.DecodedLength(s);
    var n := Base32.Decode(s, backup, TOTAL);
    if n != TOTAL {
      return Err(InvalidLength);
    }
    ghost var data := backup[..TOTAL];
    assert Base32.Decoded(s) == Some(data);
    var enckey := new Byte[Pbkdf2.DIGEST];
    Pbkdf2.Derive(p.prf, password, backup[..SALT_LEN], ITERATIONS, enckey, enckey.Length);
    assert backup[..SALT_LEN] == data[..SALT_LEN] && enckey[..] == StreamKey(p, password, data[..SALT_LEN]);
    assert backup[SALT_LEN..TOTAL] == data[SALT_LEN..];
    StreamXor(p, backup, SALT_LEN, TOTAL - SALT_LEN, enckey[..]);
    assert backup[SALT_LEN..TOTAL] == XorSeq(data[SALT_LEN..], Keystream(p, enckey[..], TOTAL - SALT_LEN));
    r := ReadAccount(p, backup);
  }

  method ReadAccount(p: Primitives, backup: array<Byte>) returns (r: Result<Account, Problem>)
    requires backup.Length >= TOTAL
    ensures r == Checked(p, backup[SALT_LEN..TOTAL])
  {
    ghost var plain := backup[SALT_LEN..TOTAL];
    var id := backup[SALT_LEN..SALT_LEN + ID_LEN];
    var sk := backup[SALT_LEN + ID_LEN..SALT_LEN + ID_LEN + KEY_LEN];
    var prefix := backup[SALT_LEN + ID_LEN + KEY_LEN..TOTAL];
    var hash := p.hash(backup[SALT_LEN..SALT_LEN + ID_LEN + KEY_LEN]);
    assert backup[SALT_LEN..SALT_LEN + ID_LEN + KEY_LEN] == plain[..ID_LEN + KEY_LEN];
    assert id == plain[..ID_LEN];
    assert sk == plain[ID_LEN..ID_LEN + KEY_LEN];
    assert prefix == plain[ID_LEN + KEY_LEN..];
    if prefix != hash[..HASH_LEN] {
      return Err(Corrupted);
    }
    return Ok(Account(id, sk));
  }

  // ----- the round trip -----

  lemma DashDropped(a: string, b: string)
    ensures Base32.Skeleton(a + "-" + b) == Base32.Skeleton(a) + Base32.Skeleton(b)
  {
    var dash := "-";
    assert dash[..0] == "" && Base32.Skeleton(dash) == "";
    SkeletonConcat(a, dash);
    SkeletonConcat(a + dash, b);
  }

  lemma {:induction false} DashedSkeleton(s: string)
    ensures Base32.Skeleton(Dashed(s)) == Base32.Skeleton(s)
  {
    if |s| >= 8 {
      var init, last := s[..|s| - 4], s[|s| - 4..];
      DashedSkeleton(init);
      DashDropped(Dashed(init), last);
      SkeletonConcat(init, last);
      assert s == init + last;
    }
  }

  lemma SkeletonAppend(s: string, c: char)
    ensures Base32.Skeleton(s + [c]) == Base32.Skeleton(s) + Base32.Skeleton([c])
  {
    var one := [c];
    assert one[..0] == "" && (s + [c])[..|s|] == s;
  }

  lemma SkeletonConcatOne(a: string, b: string, c: char)
    requires Base32.Skeleton(a + b) == Base32.Skeleton(a) + Base32.Skeleton(b)
    ensures Base32.Skeleton(a + (b + [c])) == Base32.Skeleton(a) + Base32.Skeleton(b + [c])
  {
    SkeletonAppend(a + b, c);
    SkeletonAppend(b, c);
    Assoc(a, b, [c]);
    Assoc(Base32.Skeleton(a), Base32.Skeleton(b), Base32.Skeleton([c]));
  }

  lemma {:induction false} SkeletonConcat(a: string, b: string)
    ensures Base32.Skeleton(a + b) == Base32.Skeleton(a) + Base32.Skeleton(b)
    decreases |b|
  {
    if b == [] {
      assert a + b == a;
    } else {
      SkeletonConcat(a, b[..|b| - 1]);
      SkeletonConcatOne(a, b[..|b| - 1], b[|b| - 1]);
      assert b == b[..|b| - 1] + [b[|b| - 1]];
    }
  }

  lemma UnsealSealed(p: Primitives, a: Account, password: seq<Byte>, salt: Salt)
    ensures Unsealed(p, Sealed(p, a, password, salt), password) == Ok(a)
  {
    var data, plain := Sealed(p, a, password, salt), Plain(p, a);
    var ks := Keystream(p, StreamKey(p, password, salt), TOTAL - SALT_LEN);
    assert data[..SALT_LEN] == salt && data[SALT_LEN..] == XorSeq(plain, ks);
    XorSeqInvolution(plain, ks);
    assert plain[..ID_LEN + KEY_LEN] == a.id + a.sk;
    assert plain[..ID_LEN] == a.id && plain[ID_LEN..ID_LEN + KEY_LEN] == a.sk;
  }

  lemma SealUnsealed(p: Primitives, data: seq<Byte>, a: Account, password: seq<Byte>)
    requires |data| == TOTAL && Unsealed(p, data, password) == Ok(a)
    ensures Sealed(p, a, password, data[..SALT_LEN]) == data
  {
    var ks := Keystream(p, StreamKey(p, password, data[..SALT_LEN]), TOTAL - SALT_LEN);
    var plain := XorSeq(data[SALT_LEN..], ks);
    XorSeqInvolution(data[SALT_LEN..], ks);
    assert plain == a.id + a.sk + plain[ID_LEN + KEY_LEN..];
    assert plain[..ID_LEN + KEY_LEN] == a.id + a.sk;
    assert data == data[..SALT_LEN] + data[SALT_LEN..];
  }

  /** Strings with the letters and digits of an encoding are those that decode to what was encoded. */
  lemma DecodesTo(s: string, data: seq<Byte>)
    requires |data| == TOTAL
    ensures Base32.Decoded(s) == Some(data) <==> Base32.Skeleton(s) == Base32.Skeleton(Base32.Chars(Base32.Encoded(data)))
  {
    Base32.DecodeEncode(data);
    Base32.DecodesAlike(s, Base32.Chars(Base32.Encoded(data)));
  }

  /**
   * A string decrypts to an account exactly when it is, up to letter case and characters
   * outside the alphabet, a backup of that account under that password with some salt.
   */
  lemma RoundTrip(p: Primitives, s: string, a: Account, password: seq<Byte>)
    ensures Opened(p, s, password) == Ok(a)
            <==> exists salt: Salt :: Base32.Skeleton(s) == Base32.Skeleton(Text(p, a, password, salt))
  {
    if Opened(p, s, password) == Ok(a) {
      var data := Base32.Decoded(s).value;
      var salt: Salt := data[..SALT_LEN];
      SealUnsealed(p, data, a, password);
      DecodesTo(s, data);
      DashedSkeleton(Base32.Chars(Base32.Encoded(data)));
      assert Base32.Skeleton(s) == Base32.Skeleton(Text(p, a, password, salt));
    }
    forall salt: Salt | Base32.Skeleton(s) == Base32.Skeleton(Text(p, a, password, salt))
      ensures Opened(p, s, password) == Ok(a)
    {
      var data := Sealed(p, a, password, salt);
      DashedSkeleton(Base32.Chars(Base32.Encoded(data)));
      DecodesTo(s, data);
      UnsealSealed(p, a, password, salt);
    }
  }

  // ----- the octets of a backup, one by one -----

  /** An octet encrypted, or decrypted again: its bits differ where those of the key stream are set. */
  predicate Ciphered(p: Primitives, password: seq<Byte>, salt: seq<Byte>, i: nat, x: Byte, y: Byte)
  {
    y == XorByte(x, p.keystream(Pbkdf2.DK(p.prf, password, salt, 100000, 32), i))
  }

  lemma CipheredBits(p: Primitives, password: seq<Byte>, salt: seq<Byte>, i: nat, x: Byte, y: Byte, b: nat)
    requires Ciphered(p, password, salt, i, x, y)
    ensures Bit(y, b) <==> Bit(x, b) != Bit(p.keystream(Pbkdf2.DK(p.prf, password, salt, 100000, 32), i), b)
  {
    XorBit(x, p.keystream(Pbkdf2.DK(p.prf, password, salt, 100000, 32), i), b);
  }

  /**
   * A backup decodes to the salt and forty-two octets: id, secret key and the first two
   * octets of their hash, each encrypted under the password and the salt.
   */
  lemma BackupOctets(p: Primitives, a: Account, password: seq<Byte>, salt: Salt)
    ensures var d := Base32.Decoded(Text(p, a, password, salt));
      && d.Some? && |d.value| == 50 && d.value[..8] == salt
      && forall i :: 0 <= i < 42 ==>
           Ciphered(p, password, salt, i, (a.id + a.sk + p.hash(a.id + a.sk)[..2])[i], d.value[8 + i])
  {
    var data := Sealed(p, a, password, salt);
    DashedSkeleton(Base32.Chars(Base32.Encoded(data)));
    DecodesTo(Text(p, a, password, salt), data);
    forall i | 0 <= i < 42
      ensures Ciphered(p, password, salt, i, (a.id + a.sk + p.hash(a.id + a.sk)[..2])[i], data[8 + i])
    {
      XorSeqAt(Plain(p, a), Keystream(p, StreamKey(p, password, salt), 42), i);
    }
  }

  /** What fifty octets decrypt to under a password. */
  ghost predicate Decrypts(p: Primitives, data: seq<Byte>, password: seq<Byte>, plain: seq<Byte>)
  {
    |data| == 50 && |plain| == 42 && forall i :: 0 <= i < 42 ==> Ciphered(p, password, data[..8], i, data[8 + i], plain[i])
  }

  /**
   * A string that decodes to fifty octets opens under a password if and only if what they
   * decrypt to ends in the start of the hash of what precedes, and then to the account
   * there; any other string has an invalid length.
   */
  lemma OpensIffHashed(p: Primitives, s: string, password: seq<Byte>)
    ensures var d := Base32.Decoded(s);
      if d == None || |d.value| != 50 then Opened(p, s, password) == Err(InvalidLength)
      else exists plain: seq<Byte> ::
             && Decrypts(p, d.value, password, plain)
             && Opened(p, s, password) == if plain[40..] == p.hash(plain[..40])[..2] then Ok(Account(plain[..8], plain[8..40]))
                                          else Err(Corrupted)
  {
    var d := Base32.Decoded(s);
    if d.Some? && |d.value| == 50 {
      var ks := Keystream(p, StreamKey(p, password, d.value[..8]), 42);
      var plain := XorSeq(d.value[8..], ks);
      forall i | 0 <= i < 42
        ensures Ciphered(p, password, d.value[..8], i, d.value[8 + i], plain[i])
      {
        XorSeqAt(d.value[8..], ks, i);
      }
      assert Decrypts(p, d.value, password, plain);
    }
  }

  /** As many dashes as there are groups behind the first four to seven characters, which stay together. */
  lemma {:induction false} DashesCount(s: string, n: nat)
    requires |s| >= 4 && n == |s| / 4 - 1
    ensures var d := Dashed(s); |d| == |s| + n && d[..|d| - 5 * n] == s[..|s| - 4 * n]
    decreases |s|
  {
    if |s| >= 8 {
      var init := s[..|s| - 4];
      DashesCount(init, n - 1);
      assert Dashed(s)[..|Dashed(init)|] == Dashed(init);
    }
  }

  /** Counted from the end, each group of four has a dash before it. */
  lemma {:induction false} DashesStand(s: string, n: nat, g: nat, k: nat)
    requires |s| >= 4 && n == |s| / 4 - 1 && g < n && k < 5
    ensures var d := Dashed(s);
      |d| == |s| + n && d[|d| - 5 * (g + 1) + k] == if k == 0 then '-' else s[|s| - 4 * (g + 1) + k - 1]
    decreases |s|
  {
    var init := s[..|s| - 4];
    DashesCount(s, n);
    DashesCount(init, n - 1);
    if g > 0 {
      DashesStand(init, n - 1, g - 1, k);
      assert |Dashed(s)| - 5 * (g + 1) + k == |Dashed(init)| - 5 * g + k;
    }
  }
}
