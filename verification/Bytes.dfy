/** Bytes, optional values and results shared by every module.  Go's `[]byte` and `string`
    contents are both `bytes`: sequences of numbers below 256. */
module Bytes {
  type byte = x: int | 0 <= x < 256
  type bytes = seq<byte>

  datatype Option<+T> = None | Some(value: T)
  datatype Result<+T, +E> = Ok(value: T) | Err(error: E)

  function Min(a: nat, b: nat): nat {
    if a < b then a else b
  }

  /** All the pieces of a list, one after the other. */
  function Flatten(parts: seq<bytes>): bytes {
    if parts == [] then [] else parts[0] + Flatten(parts[1..])
  }

  lemma Assoc<T>(a: seq<T>, b: seq<T>, c: seq<T>)
    ensures a + (b + c) == (a + b) + c
  {
  }

  lemma {:induction false} FlattenConcat(a: seq<bytes>, b: seq<bytes>)
    ensures Flatten(a + b) == Flatten(a) + Flatten(b)
  {
    if a == [] {
      assert a + b == b;
    } else {
      FlattenConcat(a[1..], b);
      assert (a + b)[1..] == a[1..] + b;
      Assoc(a[0], Flatten(a[1..]), Flatten(b));
    }
  }

  lemma FlattenCons(c: bytes, cs: seq<bytes>)
    ensures Flatten([c] + cs) == c + Flatten(cs)
  {
    assert ([c] + cs)[1..] == cs;
  }

  /** Taking one more piece. */
  lemma FlattenNext(cs: seq<bytes>, m: nat)
    requires m < |cs|
    ensures Flatten(cs[..m + 1]) == Flatten(cs[..m]) + cs[m]
  {
    assert cs[..m + 1] == cs[..m] + [cs[m]];
    FlattenConcat(cs[..m], [cs[m]]);
    FlattenCons(cs[m], []);
    assert [cs[m]] + [] == [cs[m]];
  }

  /** A big-endian 16-bit field: byte(n >> 8), byte(n).  Higher bits are lost. */
  function PutUint16(n: nat): bytes {
    [n / 256 % 256, n % 256]
  }

  function ReadUint16(raw: bytes): (n: nat)
    requires |raw| == 2
    ensures n < 0x1_0000
  {
    raw[0] as int * 256 + raw[1] as int
  }
}
