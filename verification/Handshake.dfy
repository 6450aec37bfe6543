/** Which user opened a TCP connection (identifyTCPUser in stream.go), and the hand-off of the stream,
    mid-way, to a reader that never saw its salt. */
module Handshake {
  import opened Bytes
  import opened Nonce
  import opened Aead
  import opened Wire
  import opened Reading
  import opened Users

  datatype Identified = Identified(user: UserEntry, key: bytes, ctr: nat, payload: bytes)

  /** This user's key opens the size frame to two bytes. */
  predicate Opens(s: Suite, user: UserEntry, salt: bytes, sizeFrame: bytes) {
    var key := s.SessionKey(user.masterKey, salt);
    && key.Some?
    && var raw := s.open(key.value, NonceAt(s.nonceSize, 0), sizeFrame);
       raw.Some? && |raw.value| == 2
  }

  /** The first listed user, from position i on, whose key opens the size frame. */
  function FirstOpener(s: Suite, users: seq<UserEntry>, i: nat, salt: bytes, sizeFrame: bytes): (r: Option<nat>)
    requires i <= |users|
    ensures r.Some? ==> && i <= r.value < |users| && Opens(s, users[r.value], salt, sizeFrame)
                        && forall j :: i <= j < r.value ==> !Opens(s, users[j], salt, sizeFrame)
    ensures r.None? ==> forall j :: i <= j < |users| ==> !Opens(s, users[j], salt, sizeFrame)
    decreases |users| - i
  {
    if i == |users| then None
    else if Opens(s, users[i], salt, sizeFrame) then Some(i)
    else FirstOpener(s, users, i + 1, salt, sizeFrame)
  }

  /** What follows once a user is found: the payload frame must open under the same key. */
  function FirstPayload(s: Suite, user: UserEntry, salt: bytes, sizeFrame: bytes, rest: bytes, final: IoError)
    : (Result<Identified, IoError>, bytes)
    requires Opens(s, user, salt, sizeFrame)
  {
    var key := s.SessionKey(user.masterKey, salt).value;
    var size := ReadUint16(s.open(key, NonceAt(s.nonceSize, 0), sizeFrame).value) % 0x4000;
    var (payloadFrame, rest') := ReadFull(rest, size + s.overhead, final);
    if payloadFrame.Err? then (Err(payloadFrame.error), rest') else
    var payload := s.open(key, NonceAt(s.nonceSize, 1), payloadFrame.value);
    if payload.None? then (Err(BadFirstPayload), rest') else
    (Ok(Identified(user, key, 2, payload.value)), rest')
  }

  /** The result, and what is left in the source. */
  function Identify(s: Suite, users: seq<UserEntry>, unread: bytes, final: IoError): (Result<Identified, IoError>, bytes) {
    var (salt, rest) := ReadFull(unread, s.SaltSize(), final);
    if salt.Err? then (Err(salt.error), rest) else
    var (sizeFrame, rest') := ReadFull(rest, 2 + s.overhead, final);
    if sizeFrame.Err? then (Err(sizeFrame.error), rest') else
    var i := FirstOpener(s, users, 0, salt.value, sizeFrame.value);
    if i.None? then (Err(UnknownUser), rest') else
    FirstPayload(s, users[i.value], salt.value, sizeFrame.value, rest', final)
  }

  /** Hand-off, for any bytes at all: when identification succeeds, its payload followed by what an
      established reader gets from the rest is what one reader of that user's key gets from the whole,
      and both end with the same error. */
  lemma HandOffAgrees(s: Suite, users: seq<UserEntry>, unread: bytes, final: IoError)
    requires Identify(s, users, unread, final).0.Ok?
    ensures var (id, rest) := Identify(s, users, unread, final);
            var whole := Remaining(s, id.value.user.masterKey, final, ClientView(unread));
            var resumed := Remaining(s, [], final, View(Some(id.value.key), id.value.ctr, [], rest));
            id.value.payload + resumed.plain == whole.plain && resumed.err == whole.err
  {
    hide Identify, DecodeChunk, Suite.SessionKey;
    FirstPayloadIsFirstChunk(s, users, unread, final);
    var (id, rest) := Identify(s, users, unread, final);
    var salt, tail := unread[..s.SaltSize()], unread[s.SaltSize()..];
    var d := DecodeAll(s, id.value.key, 2, rest, final);
    FlattenCons(id.value.payload, d.chunks);
    assert unread == salt + tail;
    ClientRemaining(s, id.value.user.masterKey, final, salt, tail);
    assert [] + Flatten(d.chunks) == Flatten(d.chunks);
  }

  lemma FirstPayloadIsFirstChunk(s: Suite, users: seq<UserEntry>, unread: bytes, final: IoError)
    requires Identify(s, users, unread, final).0.Ok?
    ensures var (id, rest) := Identify(s, users, unread, final);
            && |unread| >= s.SaltSize() && id.value.ctr == 2
            && |id.value.user.masterKey| == s.keySize
            && id.value.key == s.subkey(id.value.user.masterKey, unread[..s.SaltSize()])
            && DecodeChunk(s, id.value.key, 0, unread[s.SaltSize()..], final) == Step(Ok(id.value.payload), 2, rest)
  {
  }

  /** Who is returned: the first listed user whose key opens the size frame, and no one else. */
  lemma IdentifyPicksFirstOpener(s: Suite, users: seq<UserEntry>, unread: bytes, final: IoError)
    requires |unread| >= s.SaltSize() + 2 + s.overhead
    ensures var salt := unread[..s.SaltSize()];
            var sizeFrame := unread[s.SaltSize()..][..2 + s.overhead];
            var (id, rest) := Identify(s, users, unread, final);
            && (id == Err(UnknownUser) <== forall j :: 0 <= j < |users| ==> !Opens(s, users[j], salt, sizeFrame))
            && (id.Ok? ==> exists i :: 0 <= i < |users| && id.value.user == users[i] && Opens(s, users[i], salt, sizeFrame)
                             && forall j :: 0 <= j < i ==> !Opens(s, users[j], salt, sizeFrame))
  {
  }

  /** The user named is one whose key opens both frames: its session key, derived from the salt, opens the
      size under nonce 0 and, under nonce 1, the payload that is handed on. */
  lemma IdentifiedIsAuthentic(s: Suite, users: seq<UserEntry>, unread: bytes, final: IoError)
    requires Identify(s, users, unread, final).0.Ok?
    ensures var (id, rest) := Identify(s, users, unread, final);
            && |unread| >= s.SaltSize() && |id.value.user.masterKey| == s.keySize
            && var salt, tail, head := unread[..s.SaltSize()], unread[s.SaltSize()..], 2 + s.overhead;
               var key := s.subkey(id.value.user.masterKey, salt);
               && id.value.key == key && SizeOpens(s, key, 0, tail)
               && var n := PayloadFrameLen(s, key, 0, tail);
                  && |tail| >= head + n && rest == tail[head..][n..]
                  && s.open(key, NonceAt(s.nonceSize, 1), tail[head..][..n]) == Some(id.value.payload)
  {
    hide Identify, DecodeChunk, SizeOpens, PayloadFrameLen;
    FirstPayloadIsFirstChunk(s, users, unread, final);
    ChunkIsAuthentic(s, Identify(s, users, unread, final).0.value.key, 0, unread[s.SaltSize()..], final);
  }

  /** What stops an identification: a source that ends before the size frame does; no user whose key opens
      that; or a payload frame that is cut short or does not open. */
  lemma IdentifyFails(s: Suite, users: seq<UserEntry>, unread: bytes, final: IoError)
    ensures var (id, rest) := Identify(s, users, unread, final);
            var salt, head := s.SaltSize(), 2 + s.overhead;
            && (|unread| < salt + head ==> id == Err(EOF) || id == Err(UnexpectedEOF) || id == Err(final))
            && (|unread| >= salt + head ==>
                  var sizeFrame := unread[salt..][..head];
                  && ((forall j :: 0 <= j < |users| ==> !Opens(s, users[j], unread[..salt], sizeFrame)) ==> id == Err(UnknownUser))
                  && forall i :: 0 <= i < |users| && Opens(s, users[i], unread[..salt], sizeFrame)
                                 && (forall j :: 0 <= j < i ==> !Opens(s, users[j], unread[..salt], sizeFrame)) ==>
                       FirstPayload(s, users[i], unread[..salt], sizeFrame, unread[salt..][head..], final) == (id, rest))
  {
    hide Opens, FirstPayload;
  }

  lemma FirstPayloadOutcome(s: Suite, user: UserEntry, salt: bytes, sizeFrame: bytes, rest: bytes, final: IoError)
    requires Opens(s, user, salt, sizeFrame)
    ensures var key := s.subkey(user.masterKey, salt);
            var size := s.open(key, NonceAt(s.nonceSize, 0), sizeFrame);
            && |user.masterKey| == s.keySize && size.Some? && |size.value| == 2
            && var n := ReadUint16(size.value) % 0x4000 + s.overhead;
               |rest| >= n ==>
                 var payload := s.open(key, NonceAt(s.nonceSize, 1), rest[..n]);
                 FirstPayload(s, user, salt, sizeFrame, rest, final) ==
                 (if payload.Some? then Ok(Identified(user, key, 2, payload.value)) else Err(BadFirstPayload), rest[n..])
  {
    hide ReadUint16;
  }

  /** The writer's salt and first frame, met by the server. */
  lemma IdentifyWriter(s: Suite, users: seq<UserEntry>, w: nat, salt: bytes, chunk: bytes, tail: bytes, final: IoError)
    requires s.Lawful() && |salt| == s.SaltSize() && |chunk| <= MAX_PAYLOAD
    requires w < |users| && |users[w].masterKey| == s.keySize
    requires var key := s.subkey(users[w].masterKey, salt);
             var sizeFrame := s.seal(key, NonceAt(s.nonceSize, 0), PutUint16(|chunk|));
             forall j :: 0 <= j < w ==> !Opens(s, users[j], salt, sizeFrame)
    ensures var key := s.subkey(users[w].masterKey, salt);
            Identify(s, users, salt + (Frame(s, key, 0, chunk) + tail), final) ==
            (Ok(Identified(users[w], key, 2, chunk)), tail)
  {
    var key := s.subkey(users[w].masterKey, salt);
    var a := s.seal(key, NonceAt(s.nonceSize, 0), PutUint16(|chunk|));
    var b := s.seal(key, NonceAt(s.nonceSize, 1), chunk);
    SealedFrame(s, key, 0, chunk);
    SizeFieldRoundTrip(|chunk|);
    hide PutUint16, ReadUint16, Suite.Lawful;
    Assoc(a, b, tail);
    SplitConcat(salt, a + (b + tail));
    SplitConcat(a, b + tail);
    SplitConcat(b, tail);
    assert FirstOpener(s, users, 0, salt, a) == Some(w);
    assert FirstPayload(s, users[w], salt, a, b + tail, final) == (Ok(Identified(users[w], key, 2, chunk)), tail);
  }

  /** End to end: whatever the client writes (not all of it empty), in whatever pieces, and whatever
      the server's buffer sizes, the server names the first listed user with the writer's master key,
      and the first payload followed by all Reads is a prefix of what was written, all of it once a
      Read reports the end.  The hypothesis speaks of the listed users and this one size frame only. */
  lemma TcpEndToEnd(s: Suite, users: seq<UserEntry>, w: nat, salt: bytes, writes: seq<bytes>, sizes: seq<nat>)
    requires s.Lawful() && |salt| == s.SaltSize() && Flatten(writes) != []
    requires w < |users| && |users[w].masterKey| == s.keySize
    requires forall j :: 0 <= j < w ==> users[j].masterKey != users[w].masterKey
    requires var wire := SaltedWire(s, users[w].masterKey, salt, AllChunks(writes));
             forall j :: 0 <= j < |users| && users[j].masterKey != users[w].masterKey ==>
               |wire| >= |salt| + 2 + s.overhead ==> !Opens(s, users[j], salt, wire[|salt|..][..2 + s.overhead])
    ensures var wire := SaltedWire(s, users[w].masterKey, salt, AllChunks(writes));
            var (id, rest) := Identify(s, users, wire, EOF);
            && id.Ok? && id.value.user == users[w] && AllChunks(writes) != [] && id.value.payload == AllChunks(writes)[0]
            && var reader := View(Some(id.value.key), id.value.ctr, [], rest);
               var o := ReadMany(s, [], EOF, reader, sizes);
               && id.value.payload + Remaining(s, [], EOF, reader).plain == Flatten(writes)
               && id.value.payload + o.data <= Flatten(writes)
               && (o.err.Some? ==> id.value.payload + o.data == Flatten(writes) && o.err.value == EOF)
               && Remaining(s, users[w].masterKey, EOF, ClientView(wire)) == Rest(Flatten(writes), EOF)
  {
    var chunks := AllChunks(writes);
    AllChunksFlatten(writes);
    assert chunks != [];
    var mk := users[w].masterKey;
    var key := s.subkey(mk, salt);
    var tail := WireOf(s, key, 2, chunks[1..]);
    var wire := SaltedWire(s, mk, salt, chunks);
    assert wire == salt + (Frame(s, key, 0, chunks[0]) + tail);
    FirstFrameOnWire(s, key, salt, chunks[0], tail);
    IdentifyWriter(s, users, w, salt, chunks[0], tail, EOF);
    hide Frame, WireOf, DecodeAll, Identify, ReadMany, Remaining;
    HandOffAgrees(s, users, wire, EOF);
    RoundTrip(s, mk, salt, writes, sizes);
    var reader := View(Some(key), 2, [], tail);
    ReadManyKeeps(s, [], EOF, reader, sizes);
    var o := ReadMany(s, [], EOF, reader, sizes);
    Assoc(chunks[0], o.data, Remaining(s, [], EOF, o.view).plain);
  }

  lemma FirstFrameOnWire(s: Suite, key: bytes, salt: bytes, chunk: bytes, tail: bytes)
    requires s.Lawful()
    ensures var wire := salt + (Frame(s, key, 0, chunk) + tail);
            && |wire| >= |salt| + 2 + s.overhead
            && wire[|salt|..][..2 + s.overhead] == s.seal(key, NonceAt(s.nonceSize, 0), PutUint16(|chunk|))
  {
    SealedFrame(s, key, 0, chunk);
    var a := s.seal(key, NonceAt(s.nonceSize, 0), PutUint16(|chunk|));
    var b := s.seal(key, NonceAt(s.nonceSize, 1), chunk);
    hide Suite.Lawful;
    SplitConcat(salt, (a + b) + tail);
    Assoc(a, b, tail);
    SplitConcat(a, b + tail);
  }
}
