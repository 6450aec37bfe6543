/** copyCount and the accounting of handleTCP (service.go): what is credited is what was accepted. */
module Relay {
  import opened Bytes
  import opened Aead
  import opened Wire
  import opened Io
  import opened Reading
  import opened StreamReading
  import opened StreamWriting
  import opened Limiter

  /** The io.Reader and io.Writer that copyCount is given. */
  datatype Source = FromConn(conn: ByteSource) | FromStream(reader: StreamReader)
  datatype Target = ToConn(sink: ByteSink) | ToStream(writer: StreamWriter)

  ghost function SourceRepr(s: Source): set<object>
    reads match s case FromConn(_) => {} case FromStream(r) => {r}
  {
    match s case FromConn(c) => {c} case FromStream(r) => {r} + r.Repr
  }

  ghost predicate SourceValid(s: Source)
    reads SourceRepr(s)
  {
    s.FromStream? ==> s.reader.Valid()
  }

  /** Everything the source will still deliver, the error it ends with, and what bounds its Reads. */
  ghost function Pending(s: Source): bytes
    requires SourceValid(s)
    reads SourceRepr(s)
  {
    match s
    case FromConn(c) => c.unread
    case FromStream(r) => Remaining(r.suite, r.masterKey, r.src.final, r.View()).plain
  }

  ghost function EndsWith(s: Source): IoError
    requires SourceValid(s)
    reads SourceRepr(s)
  {
    match s
    case FromConn(c) => c.final
    case FromStream(r) => Remaining(r.suite, r.masterKey, r.src.final, r.View()).err
  }

  ghost function Fuel(s: Source): nat
    requires SourceValid(s)
    reads SourceRepr(s)
  {
    match s
    case FromConn(c) => |c.unread|
    case FromStream(r) => Weight(r.View())
  }

  /** Whatever the source, Read moves a prefix of what is pending into the buffer; an error comes only
      when nothing is left, and is the one the source ends with. */
  method ReadFrom(s: Source, buf: array<byte>) returns (n: nat, err: Option<IoError>)
    requires SourceValid(s) && buf !in SourceRepr(s) && buf.Length > 0
    modifies SourceRepr(s), buf
    ensures SourceValid(s) && fresh(SourceRepr(s) - old(SourceRepr(s)))
    ensures n <= buf.Length
    ensures err.None? ==> buf[..n] + Pending(s) == old(Pending(s)) && EndsWith(s) == old(EndsWith(s))
    ensures err.Some? ==> buf[..n] == old(Pending(s)) && err.value == old(EndsWith(s))
    ensures err.None? ==> Fuel(s) < old(Fuel(s))
  {
    match s {
      case FromConn(c) =>
        n, err := c.Read(buf);
        assert err.Some? ==> buf[..n] + c.unread == buf[..n];
      case FromStream(r) =>
        ghost var v := r.View();
        ReadKeeps(r.suite, r.masterKey, r.src.final, v, buf.Length);
        ReadProgress(r.suite, r.masterKey, r.src.final, v, buf.Length);
        hide ReadOnce, Remaining, Suite.Lawful;
        n, err := r.Read(buf);
    }
  }

  ghost function TargetRepr(t: Target): set<object>
    reads match t case ToConn(_) => {} case ToStream(w) => {w}
  {
    match t case ToConn(c) => {c} case ToStream(w) => {w, w.dst, w.nonce}
  }

  ghost predicate TargetValid(t: Target)
    reads TargetRepr(t)
  {
    t.ToStream? ==> t.writer.Valid()
  }

  /** The plaintext a target has reported as accepted: of a StreamWriter, what its whole frames carry. */
  ghost function Accepted(t: Target): bytes
    reads TargetRepr(t)
  {
    match t case ToConn(c) => c.data case ToStream(w) => w.plain
  }

  /** A stream that has held together since its destination held `base`; nothing is asked of a connection. */
  ghost predicate TargetIntact(t: Target, base: bytes)
    reads TargetRepr(t)
  {
    t.ToStream? ==> t.writer.Intact() && t.writer.base == base
  }

  /** A stream on which one Write has failed, the last, before the first chunk of what is still pending. */
  ghost predicate TargetTorn(t: Target, base: bytes, pending: bytes)
    reads TargetRepr(t)
  {
    t.ToStream? ==> t.writer.Torn() && t.writer.base == base && [] < t.writer.next <= pending
  }

  /** The target has a reason to refuse. */
  ghost predicate TargetFailed(t: Target, rand: Option<bytes>)
    reads TargetRepr(t)
  {
    match t
    case ToConn(c) => c.failed
    case ToStream(w) => w.dst.failed || (w.aead.None? && w.NoKey(rand))
  }

  method WriteTo(t: Target, p: bytes, rand: Option<bytes>, ghost base: bytes) returns (n: nat, err: Option<IoError>)
    requires TargetValid(t) && (t.ToStream? && rand.Some? ==> |rand.value| == t.writer.suite.SaltSize())
    requires p != []
    modifies TargetRepr(t)
    ensures TargetValid(t) && fresh(TargetRepr(t) - old(TargetRepr(t)))
    ensures n <= |p| && Accepted(t) == old(Accepted(t)) + p[..n]
    ensures if err.None? then n == |p| else TargetFailed(t, rand)
    ensures old(TargetIntact(t, base)) ==> if err.None? then TargetIntact(t, base) else TargetTorn(t, base, p[n..])
  {
    match t {
      case ToConn(c) => n, err := c.Write(p);
      case ToStream(w) =>
        ghost var frames;
        n, err, frames := w.Write(p, rand);
    }
  }

  function Sum(calls: seq<nat>): nat {
    if calls == [] then 0 else Sum(calls[..|calls| - 1]) + calls[|calls| - 1]
  }

  /** The arguments onCount was called with: each positive, and together this much. */
  ghost predicate AddUpTo(calls: seq<nat>, total: nat) {
    Sum(calls) == total && forall k :: 0 <= k < |calls| ==> 0 < calls[k] <= BUF_SIZE
  }

  const BUF_SIZE: nat := 32 * 1024

  /** What a copy starts from: what the target had accepted, all the source will deliver and how it ends,
      and what a stream's destination held. */
  datatype Goal = Goal(accepted: bytes, all: bytes, end: IoError, base: bytes)

  /** The buffer and the limiter are no part of what is read or written. */
  ghost predicate Apart(dst: Target, src: Source, buf: array<byte>, limiter: RateLimiter?)
    reads SourceRepr(src), TargetRepr(dst), limiter
  {
    && buf !in SourceRepr(src) && buf !in TargetRepr(dst)
    && (limiter != null ==> limiter !in SourceRepr(src) && limiter !in TargetRepr(dst) && limiter.burst >= BUF_SIZE)
  }

  /** What the loop has done: so many bytes are at the target, the rest is pending. */
  ghost predicate Copied(dst: Target, src: Source, g: Goal, intact: bool, total: nat)
    reads SourceRepr(src), TargetRepr(dst)
  {
    && SourceValid(src) && TargetValid(dst) && SourceRepr(src) !! TargetRepr(dst)
    && total <= |g.all| && Accepted(dst) == g.accepted + g.all[..total]
    && Pending(src) == g.all[total..] && EndsWith(src) == g.end
    && (intact ==> TargetIntact(dst, g.base))
  }

  /** ... and after a further Read of nr bytes into the buffer. */
  ghost predicate HasRead(dst: Target, src: Source, buf: array<byte>, g: Goal, intact: bool, total: nat,
                          nr: nat, er: Option<IoError>)
    reads SourceRepr(src), TargetRepr(dst), buf
  {
    && SourceValid(src) && TargetValid(dst) && SourceRepr(src) !! TargetRepr(dst)
    && nr <= buf.Length && total + nr <= |g.all| && buf[..nr] == g.all[total..total + nr]
    && Accepted(dst) == g.accepted + g.all[..total]
    && (if er.None? then Pending(src) == g.all[total + nr..] && EndsWith(src) == g.end
        else total + nr == |g.all| && er.value == g.end)
    && (intact ==> TargetIntact(dst, g.base))
  }

  method ReadTurn(dst: Target, src: Source, buf: array<byte>, limiter: RateLimiter?, ghost g: Goal, ghost intact: bool,
                  ghost total: nat)
    returns (nr: nat, er: Option<IoError>)
    requires Copied(dst, src, g, intact, total) && Apart(dst, src, buf, limiter) && buf.Length == BUF_SIZE
    modifies SourceRepr(src), buf
    ensures Apart(dst, src, buf, limiter) && (forall o :: o in SourceRepr(src) ==> o in old(SourceRepr(src)) || fresh(o))
    ensures HasRead(dst, src, buf, g, intact, total, nr, er) && TargetRepr(dst) == old(TargetRepr(dst))
    ensures er.None? ==> Fuel(src) < old(Fuel(src))
  {
    hide SourceValid, TargetValid, TargetIntact, TargetTorn, TargetFailed, Pending, EndsWith, Fuel, Accepted;
    nr, er := ReadFrom(src, buf);
    Advanced(g.all, total, buf[..nr], if er.None? then Pending(src) else []);
  }

  method WriteTurn(dst: Target, src: Source, buf: array<byte>, limiter: RateLimiter?, rand: Option<bytes>,
                   ghost g: Goal, ghost intact: bool, ghost total: nat, nr: nat, ghost er: Option<IoError>)
    returns (nw: nat, ew: Option<IoError>)
    requires HasRead(dst, src, buf, g, intact, total, nr, er) && Apart(dst, src, buf, limiter)
    requires dst.ToStream? && rand.Some? ==> |rand.value| == dst.writer.suite.SaltSize()
    requires buf.Length == BUF_SIZE
    modifies TargetRepr(dst)
    ensures Apart(dst, src, buf, limiter) && (forall o :: o in TargetRepr(dst) ==> o in old(TargetRepr(dst)) || fresh(o))
    ensures SourceValid(src) && TargetValid(dst) && SourceRepr(src) == old(SourceRepr(src)) && Fuel(src) == old(Fuel(src))
    ensures nw <= nr && Accepted(dst) == g.accepted + g.all[..total + nw]
    ensures if ew.None? then nw == nr else TargetFailed(dst, rand)
    ensures intact ==> if ew.None? then TargetIntact(dst, g.base) else TargetTorn(dst, g.base, g.all[total + nw..])
    ensures ew.None? && er.None? ==> Copied(dst, src, g, intact, total + nw)
  {
    hide SourceValid, TargetValid, TargetIntact, TargetTorn, TargetFailed, Pending, EndsWith, Fuel, Accepted;
    nw, ew := 0, None;
    if nr > 0 {
      assert WaitForLimit(limiter, nr);
      Extend(g.accepted, g.all, total, buf[..nr]);
      nw, ew := WriteTo(dst, buf[..nr], rand, g.base);
      StillPending(dst, g.base, g.all, total, buf[..nr], nw);
      if ew.None? && nw != nr {
        ew := Some(ShortWrite);
      }
    }
  }

  /** One turn of the loop: a Read, and a Write of what it gave.  `nw` is what onCount is told, if positive. */
  method CopyOnce(dst: Target, src: Source, buf: array<byte>, limiter: RateLimiter?, rand: Option<bytes>,
                  ghost g: Goal, ghost intact: bool, ghost total: nat)
    returns (nw: nat, ew: Option<IoError>, er: Option<IoError>)
    requires Copied(dst, src, g, intact, total)
    requires dst.ToStream? && rand.Some? ==> |rand.value| == dst.writer.suite.SaltSize()
    requires Apart(dst, src, buf, limiter) && buf.Length == BUF_SIZE
    modifies SourceRepr(src), TargetRepr(dst), buf
    ensures Apart(dst, src, buf, limiter)
    ensures (forall o :: o in SourceRepr(src) ==> o in old(SourceRepr(src)) || fresh(o))
    ensures (forall o :: o in TargetRepr(dst) ==> o in old(TargetRepr(dst)) || fresh(o))
    ensures SourceValid(src) && TargetValid(dst)
    ensures nw <= BUF_SIZE && total + nw <= |g.all| && Accepted(dst) == g.accepted + g.all[..total + nw]
    ensures ew.Some? ==> TargetFailed(dst, rand) && (intact ==> TargetTorn(dst, g.base, g.all[total + nw..]))
    ensures ew.None? && er.None? ==> Copied(dst, src, g, intact, total + nw) && Fuel(src) < old(Fuel(src))
    ensures ew.None? && er.Some? ==> total + nw == |g.all| && er.value == g.end && (intact ==> TargetIntact(dst, g.base))
  {
    hide SourceValid, TargetValid, TargetIntact, TargetTorn, TargetFailed, Pending, EndsWith, Fuel, Accepted, Copied, Apart;
    var nr;
    nr, er := ReadTurn(dst, src, buf, limiter, g, intact, total);
    nw, ew := WriteTurn(dst, src, buf, limiter, rand, g, intact, total, nr, er);
  }

  lemma StillPending(dst: Target, base: bytes, all: bytes, total: nat, p: bytes, n: nat)
    requires total + |p| <= |all| && p == all[total..total + |p|] && n <= |p|
    ensures TargetTorn(dst, base, p[n..]) ==> TargetTorn(dst, base, all[total + n..])
  {
    assert all[total + n..] == p[n..] + all[total + |p|..];
  }

  lemma Advanced(all: bytes, total: nat, p: bytes, pending: bytes)
    requires total <= |all| && p + pending == all[total..]
    ensures total + |p| <= |all| && p == all[total..total + |p|] && pending == all[total + |p|..]
  {
    assert (p + pending)[..|p|] == p && (p + pending)[|p|..] == pending;
  }

  /** copyCount: `total` is the number returned, `calls` the arguments onCount was called with.  They add
      up to the same, and to what the target accepted, which is a prefix of the source; a nil error means
      the whole source up to EOF.  `refused` reports that a write failed, for which the target had a reason.  Of a stream, what
      was accepted is what its destination holds in whole frames, and what a failed write adds to that is
      no more than the next frame. */
  method CopyCount(dst: Target, src: Source, limiter: RateLimiter?, rand: Option<bytes>, ghost base: bytes)
    returns (total: nat, err: Option<IoError>, calls: seq<nat>, ghost refused: bool)
    requires SourceValid(src) && TargetValid(dst) && SourceRepr(src) !! TargetRepr(dst)
    requires dst.ToStream? && rand.Some? ==> |rand.value| == dst.writer.suite.SaltSize()
    requires limiter == null || limiter.burst >= BUF_SIZE
    requires limiter == null || (limiter !in SourceRepr(src) && limiter !in TargetRepr(dst))
    modifies SourceRepr(src), TargetRepr(dst)
    ensures SourceValid(src) && TargetValid(dst)
    ensures total <= |old(Pending(src))| && Accepted(dst) == old(Accepted(dst)) + old(Pending(src))[..total]
    ensures AddUpTo(calls, total)
    ensures if refused then err.Some? && TargetFailed(dst, rand) && (old(TargetIntact(dst, base)) ==> TargetTorn(dst, base, old(Pending(src))[total..]))
            else && total == |old(Pending(src))|
                 && err == (if old(EndsWith(src)) == EOF then None else Some(old(EndsWith(src))))
                 && (old(TargetIntact(dst, base)) ==> TargetIntact(dst, base))
  {
    hide SourceValid, TargetValid, TargetIntact, TargetTorn, TargetFailed, Pending, EndsWith, Fuel, Accepted;
    var buf := new byte[BUF_SIZE](_ => 0);
    ghost var g := Goal(Accepted(dst), Pending(src), EndsWith(src), base);
    assert g.accepted + g.all[..0] == g.accepted && g.all[0..] == g.all;
    total, err, calls, refused := CopyLoop(dst, src, buf, limiter, rand, g, TargetIntact(dst, base));
  }

  /** The loop of copyCount. */
  method CopyLoop(dst: Target, src: Source, buf: array<byte>, limiter: RateLimiter?, rand: Option<bytes>,
                  ghost g: Goal, ghost intact: bool)
    returns (total: nat, err: Option<IoError>, calls: seq<nat>, ghost refused: bool)
    requires Copied(dst, src, g, intact, 0) && SourceValid(src)
    requires dst.ToStream? && rand.Some? ==> |rand.value| == dst.writer.suite.SaltSize()
    requires Apart(dst, src, buf, limiter) && buf.Length == BUF_SIZE
    modifies SourceRepr(src), TargetRepr(dst), buf
    ensures SourceValid(src) && TargetValid(dst)
    ensures total <= |g.all| && Accepted(dst) == g.accepted + g.all[..total]
    ensures AddUpTo(calls, total)
    ensures if refused then err.Some? && TargetFailed(dst, rand) && (intact ==> TargetTorn(dst, g.base, g.all[total..]))
            else && total == |g.all| && err == (if g.end == EOF then None else Some(g.end))
                 && (intact ==> TargetIntact(dst, g.base))
  {
    hide SourceValid, TargetValid, TargetIntact, TargetTorn, TargetFailed, Pending, EndsWith, Fuel, Accepted, Copied, Apart, SourceRepr, TargetRepr, AddUpTo;
    NoCalls();
    total, calls, refused, err := 0, [], false, None;
    while true
      invariant SourceValid(src) && Copied(dst, src, g, intact, total)
      invariant forall o :: o in SourceRepr(src) ==> o in old(SourceRepr(src)) || fresh(o)
      invariant forall o :: o in TargetRepr(dst) ==> o in old(TargetRepr(dst)) || fresh(o)
      invariant Apart(dst, src, buf, limiter)
      invariant AddUpTo(calls, total)
      invariant !refused
      decreases Fuel(src)
    {
      var nw, ew, er := CopyOnce(dst, src, buf, limiter, rand, g, intact, total);
      total := total + nw;
      if nw > 0 {
        OneMoreCall(calls, total - nw, nw);
        calls := calls + [nw];
      }
      if ew.Some? {
        refused, err := true, ew;
        return;
      }
      if er.Some? {
        err := if er.value == EOF then None else er;
        return;
      }
    }
  }

  /** The upstream half of handleTCP: the payload that came with the address, then the rest of the
      stream; `credit` is what addUp has been told.  It is exactly what the remote accepted, a prefix of
      what the client sent, unless the write of that first payload fails: then nothing is credited,
      although the remote may have accepted part of it.  `refused`: a later write failed; otherwise all of
      it was accepted. */
  method RelayUpstream(remote: ByteSink, reader: StreamReader, firstPayload: bytes, headerLen: nat, limiter: RateLimiter?)
    returns (credit: nat, ghost initialFailed: bool, ghost refused: bool)
    requires reader.Valid() && remote !in reader.Repr && headerLen <= |firstPayload| <= MAX_PAYLOAD
    requires limiter != null ==> limiter !in reader.Repr && limiter.burst >= MIN_BURST
    modifies reader.Repr, remote
    ensures var sent := firstPayload[headerLen..] + old(Pending(FromStream(reader)));
            if initialFailed
            then credit == 0 && headerLen < |firstPayload| && PartlyWritten(old(remote.data), firstPayload[headerLen..], remote.data)
            else credit <= |sent| && remote.data == old(remote.data) + sent[..credit] && (!refused ==> credit == |sent|)
    ensures initialFailed || refused ==> remote.failed
    ensures credit == |remote.data| - |old(remote.data)| <==> !initialFailed || remote.data == old(remote.data)
  {
    hide Remaining;
    credit, initialFailed, refused := 0, false, false;
    var initial := firstPayload[headerLen..];
    ghost var was, rest := remote.data, Pending(FromStream(reader));
    if |initial| > 0 {
      assert WaitForLimit(limiter, |initial|);
      var n, err := remote.Write(initial);
      assert remote.data[|was|..] == initial[..n];
      if err.Some? {
        initialFailed := true;
        return;
      }
      credit := n;
      assert initial[..n] == initial;
    }
    assert remote.data == was + initial && credit == |initial|;
    var total, err, calls;
    total, err, calls, refused := CopyCount(ToConn(remote), FromStream(reader), limiter, None, []);
    credit := credit + total; // one addUp per call of onCount: they sum to total
    assert (was + initial) + rest[..total] == was + (initial + rest)[..credit];
  }

  /** The downstream half of handleTCP: everything the remote sends, sealed for the client.  Whatever
      fails, what a reader with the user's key gets from the connection is a prefix of what the remote
      sent: without a failure all of it, as many bytes as addDown was told; after a failed write the bytes
      addDown was told, and one chunk more just when the failed write had left that chunk's whole frame. */
  method RelayDownstream(conn: ByteSink, remote: ByteSource, suite: Suite, masterKey: bytes, limiter: RateLimiter?, rand: Option<bytes>)
    returns (credit: nat, ghost refused: bool, ghost salt: bytes, ghost chunks: seq<bytes>, ghost next: bytes)
    requires suite.Lawful() && |masterKey| == suite.keySize && (rand.Some? ==> |rand.value| == suite.SaltSize())
    requires limiter != null ==> limiter.burst >= MIN_BURST
    modifies conn, remote
    ensures credit <= |old(remote.unread)| && old(conn.data) <= conn.data && (refused ==> conn.failed || rand.None?)
    ensures var all, wire := old(remote.unread), conn.data[|old(conn.data)|..];
            if refused then
              && Flatten(chunks) == all[..credit] && [] < next <= all[credit..]
              && EndsIn(suite, masterKey, salt, chunks, next, wire)
            else credit == |all| && Remaining(suite, masterKey, EOF, ClientView(wire)) == Rest(all, EOF)
  {
    hide Remaining, EndsIn, StreamWriter.Intact, StreamWriter.Torn, StreamWriter.Valid;
    ghost var was, all := conn.data, remote.unread;
    var writer := new StreamWriter(conn, suite, masterKey);
    var err, calls;
    credit, err, calls, refused := CopyCount(ToStream(writer), FromConn(remote), limiter, rand, was);
    salt, chunks, next := writer.salt, [], writer.next;
    assert [] + all[..credit] == all[..credit];
    if refused {
      chunks := TornReads(writer);
    } else {
      assert all[..credit] == all;
      IntactReads(writer);
    }
  }

  /** A stream that has held together reads back as its plaintext. */
  lemma IntactReads(w: StreamWriter)
    requires w.Valid() && w.Intact() && |w.masterKey| == w.suite.keySize
    ensures w.base <= w.dst.data
    ensures Remaining(w.suite, w.masterKey, EOF, ClientView(w.dst.data[|w.base|..])) == Rest(w.plain, EOF)
  {
    hide ReadMany, WireOf, AllChunks, Suite.Lawful;
    if w.aead.Some? {
      hide Remaining;
      SplitConcat(w.base, SaltedWire(w.suite, w.masterKey, w.salt, AllChunks(w.writes)));
      RoundTrip(w.suite, w.masterKey, w.salt, w.writes, []);
    }
  }

  lemma NoCalls()
    ensures AddUpTo([], 0)
  {
  }

  lemma OneMoreCall(calls: seq<nat>, total: nat, n: nat)
    requires AddUpTo(calls, total) && 0 < n <= BUF_SIZE
    ensures AddUpTo(calls + [n], total + n)
  {
    assert (calls + [n])[..|calls|] == calls;
  }

  lemma Extend(accepted: bytes, all: bytes, total: nat, p: bytes)
    requires total + |p| <= |all| && p == all[total..total + |p|]
    ensures forall n: nat :: n <= |p| ==> (accepted + all[..total]) + p[..n] == accepted + all[..total + n]
  {
    forall n: nat | n <= |p|
      ensures (accepted + all[..total]) + p[..n] == accepted + all[..total + n]
    {
      assert all[..total + n] == all[..total] + p[..n];
    }
  }
}
