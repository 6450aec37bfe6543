/** DeriveMasterKey (cipher.go): a key of any size from a password, by chained MD5. */
module MasterKey {
  import opened Bytes

  /** MD5 is library code: any function with 16-byte results. */
  ghost predicate IsDigest(md5: bytes -> bytes) {
    forall m :: |md5(m)| == 16
  }

  /** D_0 is empty, and D_i the digest of D_(i-1) followed by the password. */
  function Digest(md5: bytes -> bytes, password: bytes, i: nat): bytes {
    if i == 0 then [] else md5(Digest(md5, password, i - 1) + password)
  }

  /** D_1 to D_n, one after the other. */
  function Chain(md5: bytes -> bytes, password: bytes, n: nat): bytes {
    if n == 0 then [] else Chain(md5, password, n - 1) + Digest(md5, password, n)
  }

  lemma {:induction false} ChainLen(md5: bytes -> bytes, password: bytes, n: nat)
    requires IsDigest(md5)
    ensures |Chain(md5, password, n)| == 16 * n
  {
    if n > 0 {
      ChainLen(md5, password, n - 1);
    }
  }

  /** A longer chain only adds to a shorter one. */
  lemma {:induction false} ChainGrows(md5: bytes -> bytes, password: bytes, m: nat, n: nat)
    requires m <= n
    ensures Chain(md5, password, m) <= Chain(md5, password, n)
  {
    if m < n {
      ChainGrows(md5, password, m, n - 1);
    }
  }

  /** The number of digests a key of this size takes. */
  function Rounds(keySize: nat): nat {
    (keySize + 15) / 16
  }

  /** The key: as much of the chain as it takes. */
  function Key(md5: bytes -> bytes, password: bytes, keySize: nat): (k: bytes)
    requires IsDigest(md5)
    ensures |k| == keySize
  {
    ChainLen(md5, password, Rounds(keySize));
    Chain(md5, password, Rounds(keySize))[..keySize]
  }

  /** The keys of the supported ciphers, outright: one digest of the password, and for the longer ones a
      second digest, of the first followed by the password. */
  lemma SupportedKeys(md5: bytes -> bytes, password: bytes)
    requires IsDigest(md5)
    ensures var first := md5(password);
            var second := md5(first + password);
            && Key(md5, password, 16) == first
            && Key(md5, password, 24) == first + second[..8]
            && Key(md5, password, 32) == first + second
  {
    var first := md5(password);
    assert [] + password == password;
    assert Digest(md5, password, 1) == first && Digest(md5, password, 2) == md5(first + password);
    assert Chain(md5, password, 1) == first && Chain(md5, password, 2) == first + md5(first + password);
  }

  /** A smaller key of the same password begins a larger one. */
  lemma SmallerKeyIsPrefix(md5: bytes -> bytes, password: bytes, small: nat, large: nat)
    requires IsDigest(md5) && small <= large
    ensures Key(md5, password, small) == Key(md5, password, large)[..small]
  {
    ChainLen(md5, password, Rounds(small));
    ChainLen(md5, password, Rounds(large));
    ChainGrows(md5, password, Rounds(small), Rounds(large));
  }

  /** The loop.  `h` is what has been written to the hash since its last reset. */
  method DeriveMasterKey(md5: bytes -> bytes, keySize: nat, password: bytes) returns (key: bytes)
    requires IsDigest(md5)
    ensures |key| == keySize && key == Key(md5, password, keySize)
  {
    var out, prev, h: bytes := [], [], [];
    ghost var i := 0;
    while |out| < keySize
      invariant out == Chain(md5, password, i) && prev == Digest(md5, password, i) && h == []
      invariant |out| == 16 * i && |out| < keySize + 16
      decreases keySize - |out|
    {
      h := h + prev;
      h := h + password;
      assert h == prev + password;
      out := out + md5(h);
      prev := out[|out| - 16..];
      assert prev == md5(Digest(md5, password, i) + password);
      h := [];
      i := i + 1;
    }
    assert i == Rounds(keySize);
    key := out[..keySize];
  }
}
