/** The little-endian nonce counter of an AEAD session (incrementNonce in stream.go). */
module Nonce {
  import opened Bytes

  function Pow256(n: nat): (p: nat)
    ensures p > 0
  {
    if n == 0 then 1 else 256 * Pow256(n - 1)
  }

  function LittleEndian(s: bytes): nat {
    if s == [] then 0 else s[0] + 256 * LittleEndian(s[1..])
  }

  /** The nonce of the i-th operation of a session: i, little-endian, in `size` bytes. */
  function NonceAt(size: nat, i: nat): (r: bytes)
    ensures |r| == size
  {
    if size == 0 then [] else [i % 256] + NonceAt(size - 1, i / 256)
  }

  function Incremented(s: bytes): (r: bytes)
    ensures |r| == |s|
  {
    if s == [] then []
    else if s[0] == 255 then [0] + Incremented(s[1..])
    else [s[0] + 1] + s[1..]
  }

  /** The carry stops at the first byte that is not 255. */
  lemma {:induction false} IncrementedShape(s: bytes, i: nat)
    requires i <= |s|
    requires forall k :: 0 <= k < i ==> s[k] == 255
    requires i < |s| ==> s[i] != 255
    ensures forall k :: 0 <= k < i ==> Incremented(s)[k] == 0
    ensures i < |s| ==> Incremented(s)[i] == s[i] + 1
    ensures forall k :: i < k < |s| ==> Incremented(s)[k] == s[k]
  {
    if i > 0 {
      IncrementedShape(s[1..], i - 1);
    }
  }

  /** The loop of incrementNonce: bump a byte, and stop at the first one that did not wrap to zero. */
  method IncrementNonce(nonce: array<byte>)
    modifies nonce
    ensures nonce[..] == Incremented(old(nonce[..]))
  {
    ghost var was := nonce[..];
    for i := 0 to nonce.Length
      invariant forall k :: 0 <= k < i ==> was[k] == 255 && nonce[k] == 0
      invariant forall k :: i <= k < nonce.Length ==> nonce[k] == was[k]
    {
      nonce[i] := (nonce[i] as int + 1) % 256;
      if nonce[i] != 0 {
        IncrementedShape(was, i);
        return;
      }
    }
    IncrementedShape(was, nonce.Length);
  }

  /** incrementNonce adds one to the little-endian value, modulo 256^len. */
  lemma {:induction false} IncrementAddsOne(s: bytes)
    ensures LittleEndian(s) < Pow256(|s|)
    ensures LittleEndian(Incremented(s)) ==
            (if LittleEndian(s) + 1 == Pow256(|s|) then 0 else LittleEndian(s) + 1)
  {
    if s != [] {
      IncrementAddsOne(s[1..]);
      assert Incremented(s)[1..] == if s[0] == 255 then Incremented(s[1..]) else s[1..];
    }
  }

  /** One increment takes the nonce of operation i to the nonce of operation i + 1. */
  lemma {:induction false} IncrementIsNext(size: nat, i: nat)
    ensures Incremented(NonceAt(size, i)) == NonceAt(size, i + 1)
  {
    if size > 0 {
      var s := NonceAt(size, i);
      assert s[1..] == NonceAt(size - 1, i / 256);
      if i % 256 == 255 {
        assert (i + 1) % 256 == 0 && (i + 1) / 256 == i / 256 + 1;
        IncrementIsNext(size - 1, i / 256);
      } else {
        assert (i + 1) % 256 == i % 256 + 1 && (i + 1) / 256 == i / 256;
      }
    }
  }

  /** Two operations of one session share a nonce only when 256^size operations lie between them. */
  lemma {:induction false} NoncesDistinct(size: nat, i: nat, j: nat)
    requires i < Pow256(size) && j < Pow256(size)
    ensures NonceAt(size, i) == NonceAt(size, j) <==> i == j
  {
    if size > 0 && NonceAt(size, i) == NonceAt(size, j) {
      assert NonceAt(size, i)[0] == NonceAt(size, j)[0];
      assert NonceAt(size, i)[1..] == NonceAt(size - 1, i / 256);
      assert NonceAt(size, j)[1..] == NonceAt(size - 1, j / 256);
      NoncesDistinct(size - 1, i / 256, j / 256);
    }
  }

  /** ... and the bound is exact: the counter does come round. */
  lemma {:induction false} NoncePeriod(size: nat, i: nat)
    ensures NonceAt(size, i + Pow256(size)) == NonceAt(size, i)
  {
    if size > 0 {
      var q := Pow256(size - 1);
      assert (i + 256 * q) % 256 == i % 256 && (i + 256 * q) / 256 == i / 256 + q;
      NoncePeriod(size - 1, i / 256);
    }
  }

  /** A fresh nonce, as make([]byte, NonceSize()) leaves it, is the nonce of operation 0. */
  lemma {:induction false} ZeroNonce(size: nat, s: bytes)
    requires |s| == size && forall k :: 0 <= k < size ==> s[k] == 0
    ensures s == NonceAt(size, 0)
  {
    if size > 0 {
      ZeroNonce(size - 1, s[1..]);
    }
  }
}
