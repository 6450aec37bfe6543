/** The cipher suite a node runs (CipherDef and cipher.AEAD in cipher.go).  HKDF and the AEAD itself
    are library code: they are function values, of which only the laws in `Lawful` are used. */
module Aead {
  import opened Bytes

  datatype Suite = Suite(
    keySize: nat,
    nonceSize: nat,
    overhead: nat,
    subkey: (bytes, bytes) -> bytes,              // master key, salt
    seal: (bytes, bytes, bytes) -> bytes,         // session key, nonce, plaintext
    open: (bytes, bytes, bytes) -> Option<bytes>) // session key, nonce, ciphertext
  {
    function SaltSize(): nat {
      if keySize > 16 then keySize else 16
    }

    /** A salt is as long as the key, and at least 16 bytes. */
    lemma SaltSizes()
      ensures keySize == 16 ==> SaltSize() == 16
      ensures keySize == 24 ==> SaltSize() == 24
      ensures keySize == 32 ==> SaltSize() == 32
      ensures SaltSize() >= 16 && SaltSize() >= keySize
    {
    }

    /** DeriveSessionAEAD: None is its one error, a master key of the wrong size. */
    function SessionKey(masterKey: bytes, salt: bytes): Option<bytes> {
      if |masterKey| != keySize then None else Some(subkey(masterKey, salt))
    }

    /** Opening undoes sealing under the same key and nonce; sizes differ by the overhead.
        Nothing is said about opening under another key. */
    ghost predicate Lawful() {
      && (forall k, n, m :: |seal(k, n, m)| == |m| + overhead)
      && (forall k, n, m :: open(k, n, seal(k, n, m)) == Some(m))
      && (forall k, n, c :: open(k, n, c).Some? ==> |open(k, n, c).value| + overhead == |c|)
    }
  }
}
