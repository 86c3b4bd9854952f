/**
 * The public-key box of libsodium (crypto_box_easy, crypto_box_open_easy) as an
 * abstract pair of functions constrained only by the laws in Lawful.
 */
module Box {
  import opened Bytes
  import opened Wrappers

  const KEY_BYTES := 32
  const NONCE_BYTES := 24
  const MAC_BYTES := 16

  type Key = k: seq<Byte> | |k| == KEY_BYTES witness Zeros(KEY_BYTES)
  type Nonce = n: seq<Byte> | |n| == NONCE_BYTES witness Zeros(NONCE_BYTES)

  /**
   * publicOf derives a public key; shared agrees on a key from somebody's public and
   * one's own secret key (None when the public key is one libsodium refuses); seal and
   * open encrypt and decrypt under an agreed key.
   */
  datatype Functions = Functions(
    publicOf: Key -> Key,
    shared: (Key, Key) -> Option<Key>,
    seal: (Key, Nonce, seq<Byte>) -> seq<Byte>,
    open: (Key, Nonce, seq<Byte>) -> Option<seq<Byte>>)

  ghost predicate Lawful(f: Functions)
  {
    && (forall a: Key, b: Key :: f.shared(f.publicOf(a), b).Some? && f.shared(f.publicOf(a), b) == f.shared(f.publicOf(b), a))
    && (forall k: Key, n: Nonce, m: seq<Byte> :: |f.seal(k, n, m)| == |m| + MAC_BYTES)
    && (forall k: Key, n: Nonce, m: seq<Byte> :: f.open(k, n, f.seal(k, n, m)) == Some(m))
    && (forall k: Key, n: Nonce, c: seq<Byte> :: f.open(k, n, c).Some? ==> |c| == |f.open(k, n, c).value| + MAC_BYTES)
  }

  type Cipher = f: Functions | Lawful(f) ghost witness (ToyIsLawful(); Toy())

  /** crypto_box_easy: None stands for its non-zero return code. */
  function Seal(c: Functions, pk: Key, sk: Key, n: Nonce, m: seq<Byte>): Option<seq<Byte>>
  {
    match c.shared(pk, sk)
    case None => None
    case Some(k) => Some(c.seal(k, n, m))
  }

  /** crypto_box_open_easy. */
  function Open(c: Functions, pk: Key, sk: Key, n: Nonce, box: seq<Byte>): Option<seq<Byte>>
  {
    match c.shared(pk, sk)
    case None => None
    case Some(k) => c.open(k, n, box)
  }

  /** What one party seals for another the other can open, with the same nonce. */
  lemma OpenSeal(c: Cipher, skA: Key, skB: Key, n: Nonce, m: seq<Byte>)
    ensures Seal(c, c.publicOf(skB), skA, n, m).Some?
    ensures |Seal(c, c.publicOf(skB), skA, n, m).value| == |m| + MAC_BYTES
    ensures Open(c, c.publicOf(skA), skB, n, Seal(c, c.publicOf(skB), skA, n, m).value) == Some(m)
  {
    var k := c.shared(c.publicOf(skB), skA).value;
    assert c.shared(c.publicOf(skA), skB) == Some(k);
  }

  /** A cipher that meets the laws, so that they contradict nothing. */
  function Toy(): Functions
  {
    Functions(
      (k: Key) => k,
      (pk: Key, sk: Key) => Some(Mix(pk, sk)),
      (k: Key, n: Nonce, m: seq<Byte>) => m + ToyTag(k, n),
      (k: Key, n: Nonce, c: seq<Byte>) =>
        if |c| >= MAC_BYTES && c[|c| - MAC_BYTES..] == ToyTag(k, n) then Some(c[..|c| - MAC_BYTES]) else None)
  }

  function Mix(pk: Key, sk: Key): Key
  {
    seq(KEY_BYTES, i requires 0 <= i < KEY_BYTES => AddBytes(pk[i], sk[i]))
  }

  function AddBytes(a: Byte, b: Byte): Byte
  {
    (a + b) % 256
  }

  function ToyTag(k: Key, n: Nonce): (tag: seq<Byte>)
    ensures |tag| == MAC_BYTES
  {
    k[..8] + n[16..]
  }

  lemma ToyIsLawful()
    ensures Lawful(Toy())
  {
    forall a: Key, b: Key
      ensures Toy().shared(Toy().publicOf(a), b) == Toy().shared(Toy().publicOf(b), a)
    {
      assert Mix(a, b) == Mix(b, a);
    }
    forall k: Key, n: Nonce, m: seq<Byte>
      ensures Toy().open(k, n, Toy().seal(k, n, m)) == Some(m)
    {
      assert (m + ToyTag(k, n))[..|m|] == m;
    }
  }
}
