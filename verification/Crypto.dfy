// The foreign cryptography as uninterpreted functions with their laws.
module Crypto {
  import opened Bytes

  const TAG_LENGTH := 16

  // An AEAD instance: the derived subkey, and AES-GCM or ChaCha20-Poly1305.
  datatype CipherKey = CipherKey(subkey: bytes, aes: bool)

  datatype Suite = Suite(
    derive: (bytes, bytes) -> bytes,                             // context, key
    seal: (CipherKey, bytes, bytes, bytes) -> bytes,             // key, nonce, additional data, plaintext
    open: (CipherKey, bytes, bytes, bytes) -> Option<bytes>,     // key, nonce, additional data, ciphertext
    keystream: (bytes, bytes) -> Keystream)                      // NewCTR(key, iv)

  ghost predicate Sound(s: Suite) {
    && (forall k: CipherKey, n: bytes, ad: bytes, x: bytes ::
          |s.seal(k, n, ad, x)| == |x| + TAG_LENGTH && s.open(k, n, ad, s.seal(k, n, ad, x)) == Some(x))
    && (forall k: CipherKey, n: bytes, ad: bytes, c: bytes ::
          s.open(k, n, ad, c).Some? ==> |c| == |s.open(k, n, ad, c).value| + TAG_LENGTH)
  }

  // What is sealed with one of the two ciphers does not open with the other.
  ghost predicate Separates(s: Suite) {
    forall k: CipherKey, n: bytes, ad: bytes, x: bytes ::
      s.open(CipherKey(k.subkey, !k.aes), n, ad, s.seal(k, n, ad, x)) == None
  }

  function Tag(aes: bool): (r: bytes)
    ensures |r| == TAG_LENGTH
  {
    seq(TAG_LENGTH, _ => if aes then 1 else 0)
  }

  // The laws are consistent: a suite that appends the cipher's tag obeys them.
  function TagSuite(): Suite {
    Suite((context, key) => key,
          (k: CipherKey, n, ad, x) => x + Tag(k.aes),
          (k: CipherKey, n, ad, c) =>
            if |c| >= TAG_LENGTH && c[|c| - TAG_LENGTH..] == Tag(k.aes) then Some(c[..|c| - TAG_LENGTH]) else None,
          (key, iv) => (i: nat) => 0)
  }

  lemma TagSuiteLaws()
    ensures Sound(TagSuite()) && Separates(TagSuite())
  {
    forall k: CipherKey, n: bytes, ad: bytes, x: bytes
      ensures TagSuite().open(k, n, ad, TagSuite().seal(k, n, ad, x)) == Some(x)
      ensures TagSuite().open(CipherKey(k.subkey, !k.aes), n, ad, TagSuite().seal(k, n, ad, x)) == None
    {
      var c := TagSuite().seal(k, n, ad, x);
      assert c[..|c| - TAG_LENGTH] == x && c[|c| - TAG_LENGTH..] == Tag(k.aes);
      assert Tag(true)[0] != Tag(false)[0];
    }
  }
}
