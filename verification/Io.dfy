/** The two ends of a connection, as io.Reader and io.Writer see them. */
module Io {
  import opened Bytes
  import Wire

  /** A source that hands out `unread` in portions of its own choosing and then fails with `final`. */
  class ByteSource {
    var unread: bytes
    const final: Wire.IoError

    constructor (unread: bytes, final: Wire.IoError)
      ensures this.unread == unread && this.final == final
    {
      this.unread := unread;
      this.final := final;
    }

    method ReadFull(n: nat) returns (r: Result<bytes, Wire.IoError>)
      modifies this
      ensures (r, unread) == Wire.ReadFull(old(unread), n, final)
    {
      var (r', rest) := Wire.ReadFull(unread, n, final);
      r, unread := r', rest;
    }

    /** The io.Reader contract: some bytes, possibly together with the final error. */
    method Read(p: array<byte>) returns (n: nat, err: Option<Wire.IoError>)
      modifies this, p
      ensures n <= p.Length && p[..n] + unread == old(unread) && p[n..] == old(p[n..])
      ensures err.None? && p.Length > 0 ==> n > 0
      ensures err.Some? ==> unread == [] && err.value == final
    {
      if unread == [] {
        return 0, Some(final);
      }
      n :| n <= p.Length && n <= |unread| && (p.Length > 0 ==> n > 0);
      forall k | 0 <= k < n {
        p[k] := unread[k];
      }
      unread := unread[n..];
      err := None;
      var early: bool := *;
      if unread == [] && early {
        err := Some(final);
      }
    }
  }

  /** A destination that may fail at any time, after accepting any part of what it is given. */
  class ByteSink {
    var data: bytes

    ghost var failed: bool // some Write has ended in an error

    constructor ()
      ensures data == [] && !failed
    {
      data, failed := [], false;
    }

    /** The io.Writer contract: a short write is always an error. */
    method Write(b: bytes) returns (n: nat, err: Option<Wire.IoError>)
      modifies this
      ensures n <= |b| && data == old(data) + b[..n]
      ensures err.None? ==> n == |b|
      ensures failed == (old(failed) || err.Some?)
    {
      n :| n <= |b|;
      data := data + b[..n];
      err := None;
      var late: bool := *;
      if n < |b| || late {
        var code: int := *;
        err := Some(Wire.Failed(code));
        failed := true;
      }
    }
  }
}
