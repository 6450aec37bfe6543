/** What one direction of a connection looks like on the wire, and how it is decoded.
    Pure counterparts of StreamWriter.Write, StreamReader.readChunk and StreamReader.Read (stream.go):
    the classes are proved against these functions, and the properties are proved about them. */
module Wire {
  import opened Bytes
  import opened Nonce
  import opened Aead

  const MAX_PAYLOAD: nat := 0x3FFF

  datatype IoError =
    | EOF
    | UnexpectedEOF
    | Failed(code: int)
    | AuthFailed
    | BadSizeFrame
    | BadMasterKey
    | RandFailed
    | BadFirstPayload
    | UnknownUser
    | ShortWrite
    | LimitExceeded

  // ---------- writing ----------

  /** The pieces Write cuts its argument into: full payloads, then what is left. */
  function Chunks(p: bytes): (cs: seq<bytes>)
    ensures forall c :: c in cs ==> 0 < |c| <= MAX_PAYLOAD
    decreases |p|
  {
    if p == [] then []
    else [p[..Min(|p|, MAX_PAYLOAD)]] + Chunks(p[Min(|p|, MAX_PAYLOAD)..])
  }

  lemma {:induction false} ChunksFlatten(p: bytes)
    ensures Flatten(Chunks(p)) == p
    decreases |p|
  {
    if p != [] {
      var n := Min(|p|, MAX_PAYLOAD);
      ChunksFlatten(p[n..]);
      assert Chunks(p)[1..] == Chunks(p[n..]);
      assert p == p[..n] + p[n..];
    }
  }

  /** The chunks of several Write calls in a row. */
  function AllChunks(writes: seq<bytes>): (cs: seq<bytes>)
    ensures forall c :: c in cs ==> 0 < |c| <= MAX_PAYLOAD
  {
    if writes == [] then [] else Chunks(writes[0]) + AllChunks(writes[1..])
  }

  /** All but the last piece are full. */
  lemma {:induction false} ChunksAreFull(p: bytes, j: nat)
    requires j + 1 < |Chunks(p)|
    ensures |Chunks(p)[j]| == MAX_PAYLOAD
    decreases j
  {
    var rest := p[Min(|p|, MAX_PAYLOAD)..];
    assert Chunks(p)[1..] == Chunks(rest);
    if j > 0 {
      ChunksAreFull(rest, j - 1);
    } else {
      assert Chunks(rest) != [];
    }
  }

  lemma {:induction false} AllChunksFlatten(writes: seq<bytes>)
    ensures Flatten(AllChunks(writes)) == Flatten(writes)
  {
    if writes != [] {
      ChunksFlatten(writes[0]);
      AllChunksFlatten(writes[1..]);
      FlattenConcat(Chunks(writes[0]), AllChunks(writes[1..]));
    }
  }

  predicate Sized(chunks: seq<bytes>) {
    forall j | 0 <= j < |chunks| :: |chunks[j]| <= MAX_PAYLOAD
  }

  lemma SizedMore(pending: seq<bytes>, p: bytes)
    requires Sized(pending)
    ensures Sized(pending + Chunks(p)) && |pending + Chunks(p)| == |pending| + |Chunks(p)|
  {
    var c := Chunks(p);
    assert forall j :: 0 <= j < |c| ==> c[j] in c;
  }

  /** A sealed size followed by a sealed payload, under nonces i and i + 1. */
  function Frame(s: Suite, key: bytes, i: nat, chunk: bytes): bytes {
    s.seal(key, NonceAt(s.nonceSize, i), PutUint16(|chunk|))
    + s.seal(key, NonceAt(s.nonceSize, i + 1), chunk)
  }

  function FrameLen(s: Suite, chunk: bytes): nat {
    2 + s.overhead + |chunk| + s.overhead
  }

  function WireOf(s: Suite, key: bytes, i: nat, chunks: seq<bytes>): bytes
    decreases |chunks|
  {
    if chunks == [] then [] else Frame(s, key, i, chunks[0]) + WireOf(s, key, i + 2, chunks[1..])
  }

  lemma {:induction false} WireConcat(s: Suite, key: bytes, i: nat, a: seq<bytes>, b: seq<bytes>)
    ensures WireOf(s, key, i, a + b) == WireOf(s, key, i, a) + WireOf(s, key, i + 2 * |a|, b)
    decreases |a|
  {
    if a == [] {
      assert a + b == b;
    } else {
      WireConcat(s, key, i + 2, a[1..], b);
      assert (a + b)[1..] == a[1..] + b;
      Assoc(Frame(s, key, i, a[0]), WireOf(s, key, i + 2, a[1..]), WireOf(s, key, i + 2 * |a|, b));
    }
  }

  // ---------- reading ----------

  /** io.ReadFull over a source that will end with `final` once its bytes are used up. */
  function ReadFull(unread: bytes, n: nat, final: IoError): (r: (Result<bytes, IoError>, bytes)) {
    if |unread| >= n then (Ok(unread[..n]), unread[n..])
    else if unread == [] || final != EOF then (Err(final), [])
    else (Err(UnexpectedEOF), [])
  }

  datatype Step = Step(result: Result<bytes, IoError>, ctr: nat, rest: bytes)

  /** Read one sealed frame of n bytes and open it; `i` is the number of successful opens so far. */
  function OpenNext(s: Suite, key: bytes, i: nat, unread: bytes, n: nat, final: IoError): (r: Step)
    ensures |r.rest| <= |unread|
    ensures r.result.Ok? ==> |r.rest| + n == |unread|
  {
    var (frame, rest) := ReadFull(unread, n, final);
    if frame.Err? then Step(Err(frame.error), i, rest) else
    var m := s.open(key, NonceAt(s.nonceSize, i), frame.value);
    if m.None? then Step(Err(AuthFailed), i, rest) else Step(Ok(m.value), i + 1, rest)
  }

  /** readChunk: a sealed size, then a sealed payload of that size. */
  function DecodeChunk(s: Suite, key: bytes, i: nat, unread: bytes, final: IoError): (r: Step)
    ensures |r.rest| <= |unread|
    ensures r.result.Ok? ==> |r.rest| < |unread|
  {
    var sizeRaw := OpenNext(s, key, i, unread, 2 + s.overhead, final);
    if sizeRaw.result.Err? then sizeRaw else
    if |sizeRaw.result.value| != 2 then Step(Err(BadSizeFrame), sizeRaw.ctr, sizeRaw.rest) else
    var size := ReadUint16(sizeRaw.result.value) % 0x4000;
    OpenNext(s, key, sizeRaw.ctr, sizeRaw.rest, size + s.overhead, final)
  }

  datatype Decoded = Decoded(chunks: seq<bytes>, err: IoError)

  /** Every chunk a source still holds, and the error that ends it. */
  function DecodeAll(s: Suite, key: bytes, i: nat, unread: bytes, final: IoError): Decoded
    decreases |unread|
  {
    var st := DecodeChunk(s, key, i, unread, final);
    if st.result.Err? then Decoded([], st.result.error)
    else
      var d := DecodeAll(s, key, st.ctr, st.rest, final);
      Decoded([st.result.value] + d.chunks, d.err)
  }

  /** A decoded chunk fits the reader's buffer, and never outweighs the frame it came in. */
  lemma ChunkFits(s: Suite, key: bytes, i: nat, unread: bytes, final: IoError)
    requires s.Lawful()
    ensures var st := DecodeChunk(s, key, i, unread, final);
            st.result.Ok? ==> && |st.result.value| <= MAX_PAYLOAD
                              && |st.rest| + FrameLen(s, st.result.value) == |unread|
  {
    var st := DecodeChunk(s, key, i, unread, final);
    if st.result.Ok? {
      var sizeRaw := s.open(key, NonceAt(s.nonceSize, i), unread[..2 + s.overhead]);
      var size := ReadUint16(sizeRaw.value) % 0x4000;
      var rest := unread[2 + s.overhead..];
      assert s.open(key, NonceAt(s.nonceSize, i + 1), rest[..size + s.overhead]).Some?;
    }
  }

  /** The first bytes open, under nonce i, to a size; this is how long the payload frame is then. */
  predicate SizeOpens(s: Suite, key: bytes, i: nat, unread: bytes) {
    var head := 2 + s.overhead;
    |unread| >= head && var raw := s.open(key, NonceAt(s.nonceSize, i), unread[..head]); raw.Some? && |raw.value| == 2
  }

  function PayloadFrameLen(s: Suite, key: bytes, i: nat, unread: bytes): nat
    requires SizeOpens(s, key, i, unread)
  {
    ReadUint16(s.open(key, NonceAt(s.nonceSize, i), unread[..2 + s.overhead]).value) % 0x4000 + s.overhead
  }

  /** Nothing unauthenticated gets through: a chunk comes only from two frames that both open, the size
      under nonce i and the payload, of the size it says, under nonce i + 1. */
  lemma ChunkIsAuthentic(s: Suite, key: bytes, i: nat, unread: bytes, final: IoError)
    ensures var st, head := DecodeChunk(s, key, i, unread, final), 2 + s.overhead;
            st.result.Ok? ==>
              && SizeOpens(s, key, i, unread)
              && var n := PayloadFrameLen(s, key, i, unread);
                 && |unread| >= head + n
                 && s.open(key, NonceAt(s.nonceSize, i + 1), unread[head..][..n]) == Some(st.result.value)
                 && st.ctr == i + 2 && st.rest == unread[head..][n..]
  {
    hide ReadUint16;
  }

  /** The frame that begins here is whole, and was altered: its size or its payload does not open. */
  predicate Altered(s: Suite, key: bytes, i: nat, unread: bytes) {
    var head := 2 + s.overhead;
    && |unread| >= head
    && if !SizeOpens(s, key, i, unread) then s.open(key, NonceAt(s.nonceSize, i), unread[..head]).None?
       else var n := PayloadFrameLen(s, key, i, unread);
            |unread| >= head + n && s.open(key, NonceAt(s.nonceSize, i + 1), unread[head..][..n]).None?
  }

  /** A frame altered on the way is an error, and not an end. */
  lemma AlteredChunkFails(s: Suite, key: bytes, i: nat, unread: bytes, final: IoError)
    requires Altered(s, key, i, unread)
    ensures DecodeChunk(s, key, i, unread, final).result == Err(AuthFailed)
  {
    hide ReadUint16;
  }

  lemma SizeFieldRoundTrip(n: nat)
    ensures |PutUint16(n)| == 2
    ensures ReadUint16(PutUint16(n)) == n % 0x1_0000
    ensures n <= MAX_PAYLOAD ==> ReadUint16(PutUint16(n)) % 0x4000 == n
  {
  }

  lemma SplitConcat(a: bytes, b: bytes)
    ensures (a + b)[..|a|] == a && (a + b)[|a|..] == b
  {
  }

  lemma DecodeParts(s: Suite, key: bytes, i: nat, a: bytes, b: bytes, chunk: bytes, rest: bytes, final: IoError)
    requires |a| == 2 + s.overhead && s.open(key, NonceAt(s.nonceSize, i), a) == Some(PutUint16(|chunk|))
    requires |b| == |chunk| + s.overhead && s.open(key, NonceAt(s.nonceSize, i + 1), b) == Some(chunk)
    requires |chunk| <= MAX_PAYLOAD
    ensures DecodeChunk(s, key, i, a + (b + rest), final) == Step(Ok(chunk), i + 2, rest)
  {
    SizeFieldRoundTrip(|chunk|);
    hide PutUint16, ReadUint16;
    SplitConcat(a, b + rest);
    SplitConcat(b, rest);
  }

  lemma SealedFrame(s: Suite, key: bytes, i: nat, chunk: bytes)
    requires s.Lawful()
    ensures var a := s.seal(key, NonceAt(s.nonceSize, i), PutUint16(|chunk|));
            |a| == 2 + s.overhead && s.open(key, NonceAt(s.nonceSize, i), a) == Some(PutUint16(|chunk|))
    ensures var b := s.seal(key, NonceAt(s.nonceSize, i + 1), chunk);
            |b| == |chunk| + s.overhead && s.open(key, NonceAt(s.nonceSize, i + 1), b) == Some(chunk)
    ensures |Frame(s, key, i, chunk)| == FrameLen(s, chunk)
  {
  }

  lemma DecodeFrame(s: Suite, key: bytes, i: nat, chunk: bytes, rest: bytes, final: IoError)
    requires s.Lawful() && |chunk| <= MAX_PAYLOAD
    ensures DecodeChunk(s, key, i, Frame(s, key, i, chunk) + rest, final) == Step(Ok(chunk), i + 2, rest)
  {
    SealedFrame(s, key, i, chunk);
    hide Suite.Lawful, DecodeAll;
    var a := s.seal(key, NonceAt(s.nonceSize, i), PutUint16(|chunk|));
    var b := s.seal(key, NonceAt(s.nonceSize, i + 1), chunk);
    Assoc(a, b, rest);
    DecodeParts(s, key, i, a, b, chunk, rest, final);
  }

  lemma WireHead(s: Suite, key: bytes, i: nat, chunks: seq<bytes>, rest: bytes)
    requires chunks != []
    ensures WireOf(s, key, i, chunks) + rest ==
            Frame(s, key, i, chunks[0]) + (WireOf(s, key, i + 2, chunks[1..]) + rest)
  {
    Assoc(Frame(s, key, i, chunks[0]), WireOf(s, key, i + 2, chunks[1..]), rest);
  }

  lemma DecodeAllFrame(s: Suite, key: bytes, i: nat, chunk: bytes, rest: bytes, final: IoError)
    requires s.Lawful() && |chunk| <= MAX_PAYLOAD
    ensures var d := DecodeAll(s, key, i + 2, rest, final);
            DecodeAll(s, key, i, Frame(s, key, i, chunk) + rest, final) == Decoded([chunk] + d.chunks, d.err)
  {
    DecodeFrame(s, key, i, chunk, rest, final);
  }

  /** Decoding undoes encoding, whatever follows on the wire. */
  lemma {:induction false} DecodeWire(s: Suite, key: bytes, i: nat, chunks: seq<bytes>, rest: bytes, final: IoError)
    requires s.Lawful() && Sized(chunks)
    ensures var d := DecodeAll(s, key, i + 2 * |chunks|, rest, final);
            DecodeAll(s, key, i, WireOf(s, key, i, chunks) + rest, final) == Decoded(chunks + d.chunks, d.err)
    decreases |chunks|
  {
    hide DecodeChunk, Frame, Suite.Lawful;
    if chunks == [] {
      assert WireOf(s, key, i, chunks) + rest == rest;
      var d := DecodeAll(s, key, i, rest, final);
      assert chunks + d.chunks == d.chunks;
    } else {
      var c, cs := chunks[0], chunks[1..];
      WireHead(s, key, i, chunks, rest);
      DecodeAllFrame(s, key, i, c, WireOf(s, key, i + 2, cs) + rest, final);
      DecodeWire(s, key, i + 2, cs, rest, final);
      var d := DecodeAll(s, key, i + 2 * |chunks|, rest, final);
      assert [c] + (cs + d.chunks) == chunks + d.chunks;
    }
  }

  // ---------- cutting the wire ----------

  /** Where the m-th frame starts. */
  function Offset(s: Suite, chunks: seq<bytes>, m: nat): nat
    requires m <= |chunks|
  {
    if m == 0 then 0 else Offset(s, chunks, m - 1) + FrameLen(s, chunks[m - 1])
  }

  lemma {:induction false} WirePrefixLen(s: Suite, key: bytes, i: nat, chunks: seq<bytes>, m: nat)
    requires s.Lawful() && Sized(chunks) && m <= |chunks|
    ensures |WireOf(s, key, i, chunks[..m])| == Offset(s, chunks, m)
  {
    if m > 0 {
      WirePrefixLen(s, key, i, chunks, m - 1);
      var last := [chunks[m - 1]];
      assert chunks[..m] == chunks[..m - 1] + last;
      WireConcat(s, key, i, chunks[..m - 1], last);
      DecodeFrame(s, key, i + 2 * (m - 1), chunks[m - 1], [], EOF);
      assert last[1..] == [];
      assert WireOf(s, key, i + 2 * (m - 1), last) == Frame(s, key, i + 2 * (m - 1), chunks[m - 1]);
    }
  }

  /** The number of whole frames before position k. */
  function Complete(s: Suite, chunks: seq<bytes>, k: nat, m: nat): (r: nat)
    requires m <= |chunks| && Offset(s, chunks, m) <= k
    ensures m <= r <= |chunks| && Offset(s, chunks, r) <= k
    ensures r < |chunks| ==> k < Offset(s, chunks, r + 1)
    decreases |chunks| - m
  {
    if m < |chunks| && Offset(s, chunks, m + 1) <= k then Complete(s, chunks, k, m + 1) else m
  }

  /** Position k falls at the start of a frame, at the end of the wire, or between a sealed size and
      its payload. */
  ghost predicate AtFrameEdge(s: Suite, chunks: seq<bytes>, k: nat) {
    exists m: nat | m <= |chunks| ::
      k == Offset(s, chunks, m) || (m < |chunks| && k == Offset(s, chunks, m) + 2 + s.overhead)
  }

  lemma {:induction false} OffsetMonotone(s: Suite, chunks: seq<bytes>, a: nat, b: nat)
    requires a <= b <= |chunks|
    ensures Offset(s, chunks, a) <= Offset(s, chunks, b)
    ensures a < b ==> Offset(s, chunks, a) + FrameLen(s, chunks[a]) <= Offset(s, chunks, b)
  {
    if a < b {
      OffsetMonotone(s, chunks, a, b - 1);
    }
  }

  /** A cut inside frame m is an edge only at its start or just after its sealed size. */
  lemma EdgeInside(s: Suite, chunks: seq<bytes>, m: nat, k: nat)
    requires m <= |chunks| && Offset(s, chunks, m) <= k
    requires if m < |chunks| then k < Offset(s, chunks, m + 1) else k == Offset(s, chunks, m)
    requires s.overhead > 0
    ensures AtFrameEdge(s, chunks, k) <==>
            k == Offset(s, chunks, m) || (m < |chunks| && k == Offset(s, chunks, m) + 2 + s.overhead)
  {
    if AtFrameEdge(s, chunks, k) {
      var m': nat :| m' <= |chunks| &&
        (k == Offset(s, chunks, m') || (m' < |chunks| && k == Offset(s, chunks, m') + 2 + s.overhead));
      if m' < m {
        OffsetMonotone(s, chunks, m', m);
      } else if m < m' {
        OffsetMonotone(s, chunks, m + 1, m');
      }
    }
  }

  /** A prefix of the wire is its complete frames followed by a proper prefix of the next one. */
  lemma CutWire(s: Suite, key: bytes, i: nat, chunks: seq<bytes>, k: nat, m: nat) returns (part: bytes)
    requires s.Lawful() && Sized(chunks) && k <= |WireOf(s, key, i, chunks)|
    requires m == Complete(s, chunks, k, 0)
    ensures WireOf(s, key, i, chunks)[..k] == WireOf(s, key, i, chunks[..m]) + part
    ensures |part| == k - Offset(s, chunks, m)
    ensures if m < |chunks| then part < Frame(s, key, i + 2 * m, chunks[m]) else part == []
  {
    WirePrefixLen(s, key, i, chunks, m);
    var head := WireOf(s, key, i, chunks[..m]);
    if m < |chunks| {
      SealedFrame(s, key, i + 2 * m, chunks[m]);
      WireAround(s, key, i, chunks, m);
      var frame, rest := Frame(s, key, i + 2 * m, chunks[m]), WireOf(s, key, i + 2 * m + 2, chunks[m + 1..]);
      part := frame[..k - |head|];
      hide *;
      CutInside(head, frame, rest, k);
    } else {
      assert chunks[..m] == chunks;
      part := [];
      assert head[..k] == head + part;
    }
  }

  lemma WireAround(s: Suite, key: bytes, i: nat, chunks: seq<bytes>, m: nat)
    requires m < |chunks|
    ensures WireOf(s, key, i, chunks) ==
            WireOf(s, key, i, chunks[..m])
            + (Frame(s, key, i + 2 * m, chunks[m]) + WireOf(s, key, i + 2 * m + 2, chunks[m + 1..]))
  {
    WireConcat(s, key, i, chunks[..m], chunks[m..]);
    assert chunks == chunks[..m] + chunks[m..];
    assert chunks[m..][0] == chunks[m] && chunks[m..][1..] == chunks[m + 1..];
  }

  lemma CutInside(a: bytes, b: bytes, c: bytes, k: nat)
    requires |a| <= k <= |a| + |b|
    ensures (a + (b + c))[..k] == a + b[..k - |a|]
  {
  }

  lemma CutConcat(a: bytes, b: bytes, k: nat)
    requires |a| <= k <= |a| + |b|
    ensures (a + b)[..k] == a + b[..k - |a|]
  {
  }

  /** Truncation: any prefix of a valid frame sequence decodes to exactly its complete chunks, and the
      decoder ends with a plain EOF exactly when the cut is at an edge. */
  lemma TruncatedWire(s: Suite, key: bytes, i: nat, chunks: seq<bytes>, k: nat)
    requires s.Lawful() && Sized(chunks) && k <= |WireOf(s, key, i, chunks)|
    requires s.overhead > 0
    ensures var d := DecodeAll(s, key, i, WireOf(s, key, i, chunks)[..k], EOF);
            && d.chunks == chunks[..Complete(s, chunks, k, 0)]
            && d.err == (if AtFrameEdge(s, chunks, k) then EOF else UnexpectedEOF)
  {
    var m := Complete(s, chunks, k, 0);
    var part := CutWire(s, key, i, chunks, k, m);
    EdgeInside(s, chunks, m, k);
    if m < |chunks| {
      PartialFrame(s, key, i + 2 * m, chunks[m], part);
    } else {
      ShortHead(s, key, i + 2 * m, part);
    }
    DecodeThenEnd(s, key, i, chunks, m, part);
    hide DecodeAll, Frame, WireOf, Offset, AtFrameEdge, Suite.Lawful;
  }

  lemma DecodeThenEnd(s: Suite, key: bytes, i: nat, chunks: seq<bytes>, m: nat, part: bytes)
    requires s.Lawful() && Sized(chunks) && m <= |chunks|
    requires DecodeAll(s, key, i + 2 * m, part, EOF).chunks == []
    ensures DecodeAll(s, key, i, WireOf(s, key, i, chunks[..m]) + part, EOF) ==
            Decoded(chunks[..m], DecodeAll(s, key, i + 2 * m, part, EOF).err)
  {
    hide DecodeAll, DecodeChunk, WireOf, Suite.Lawful;
    DecodeWire(s, key, i, chunks[..m], part, EOF);
    assert chunks[..m] + [] == chunks[..m];
  }

  lemma ShortHead(s: Suite, key: bytes, i: nat, head: bytes)
    requires |head| < 2 + s.overhead
    ensures DecodeAll(s, key, i, head, EOF) == Decoded([], if head == [] then EOF else UnexpectedEOF)
  {
  }

  lemma ShortPayload(s: Suite, key: bytes, i: nat, u: bytes, size: nat)
    requires var n := 2 + s.overhead;
             && n <= |u| < n + size + s.overhead && size <= MAX_PAYLOAD
             && s.open(key, NonceAt(s.nonceSize, i), u[..n]) == Some(PutUint16(size))
    ensures DecodeAll(s, key, i, u, EOF) == Decoded([], if |u| == 2 + s.overhead then EOF else UnexpectedEOF)
  {
    SizeFieldRoundTrip(size);
    hide PutUint16, ReadUint16;
  }

  lemma PrefixHead(p: bytes, a: bytes, b: bytes)
    requires p < a + b && |a| <= |p|
    ensures p[..|a|] == a
  {
    SplitConcat(a, b);
  }

  lemma PartialFrame(s: Suite, key: bytes, i: nat, chunk: bytes, part: bytes)
    requires s.Lawful() && |chunk| <= MAX_PAYLOAD && part < Frame(s, key, i, chunk)
    ensures DecodeAll(s, key, i, part, EOF) ==
            Decoded([], if part == [] || |part| == 2 + s.overhead then EOF else UnexpectedEOF)
  {
    SealedFrame(s, key, i, chunk);
    hide Suite.Lawful, DecodeAll;
    if |part| < 2 + s.overhead {
      ShortHead(s, key, i, part);
    } else {
      PrefixHead(part, s.seal(key, NonceAt(s.nonceSize, i), PutUint16(|chunk|)),
                 s.seal(key, NonceAt(s.nonceSize, i + 1), chunk));
      ShortPayload(s, key, i, part, |chunk|);
    }
  }
}
