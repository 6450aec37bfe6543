/** The upstream half of a TCP connection from the first byte to the remote: identification, the target
    address, and the relay of everything after it (handleTCP in service.go, without the admission, rule and
    dial steps, which only decide whether to go on). */
module Connection {
  import opened Bytes
  import opened Nonce
  import opened Aead
  import opened Wire
  import opened Io
  import opened Reading
  import opened Users
  import Handshake
  import Limiter
  import Socks
  import StreamReading
  import opened StreamWriting
  import Relay

  /** Who is connecting, to what, and all they will have sent there. */
  datatype Request = Request(user: UserEntry, target: bytes, sent: bytes)

  function RequestIn(s: Suite, lib: Socks.Lib, users: seq<UserEntry>, unread: bytes, final: IoError): Option<Request> {
    var (id, rest) := Handshake.Identify(s, users, unread, final);
    if id.Err? then None else
    var addr := Socks.SplitAddr(lib, id.value.payload);
    if addr.Err? || addr.value.1 > |id.value.payload| then None else
    var more := Remaining(s, [], final, View(Some(id.value.key), id.value.ctr, [], rest)).plain;
    Some(Request(id.value.user, addr.value.0, id.value.payload[addr.value.1..] + more))
  }

  /** What reaches the remote and what is credited, for any bytes a client may send.  `initialFailed`
      reports that the write of the first payload failed, `refused` that a later one did. */
  method ServeUpstream(src: ByteSource, s: Suite, lib: Socks.Lib, users: seq<UserEntry>, remote: ByteSink,
                       limiter: Limiter.RateLimiter?)
    returns (served: Option<(UserEntry, bytes)>, credit: nat, ghost initialFailed: bool, ghost refused: bool)
    requires s.Lawful() && (limiter != null ==> limiter.burst >= Limiter.MIN_BURST)
    modifies src, remote
    ensures var r := RequestIn(s, lib, users, old(src.unread), src.final);
            if r.None? then served.None? && credit == 0 && remote.data == old(remote.data)
            else && served == Some((r.value.user, r.value.target))
                 && (initialFailed || refused ==> remote.failed)
                 && (initialFailed ==> credit == 0 && PartlyWritten(old(remote.data), r.value.sent, remote.data))
                 && (!initialFailed ==> && credit <= |r.value.sent|
                                        && remote.data == old(remote.data) + r.value.sent[..credit]
                                        && (!refused ==> credit == |r.value.sent|))
  {
    hide Remaining, Handshake.Identify, Socks.SplitAddr;
    served, credit, initialFailed, refused := None, 0, false, false;
    ghost var unread := src.unread;
    var id, nonce := StreamReading.IdentifyTCPUser(src, s, users);
    if id.Err? {
      return;
    }
    var addr := Socks.SplitAddr(lib, id.value.payload);
    if addr.Err? {
      return;
    }
    Socks.SplitIsStable(lib, id.value.payload, []);
    FirstPayloadFits(s, users, unread, src.final);
    var reader := new StreamReading.StreamReader.Established(src, s, id.value.key, nonce, id.value.ctr);
    credit, initialFailed, refused := Relay.RelayUpstream(remote, reader, id.value.payload, addr.value.1, limiter);
    served := Some((id.value.user, addr.value.0));
  }

  lemma FirstPayloadFits(s: Suite, users: seq<UserEntry>, unread: bytes, final: IoError)
    requires s.Lawful() && Handshake.Identify(s, users, unread, final).0.Ok?
    ensures |Handshake.Identify(s, users, unread, final).0.value.payload| <= MAX_PAYLOAD
  {
    hide Handshake.Identify, DecodeChunk, Suite.Lawful;
    Handshake.FirstPayloadIsFirstChunk(s, users, unread, final);
    ChunkFits(s, Handshake.Identify(s, users, unread, final).0.value.key, 0, unread[s.SaltSize()..], final);
  }

  /** A client that writes a canonical target address and then its data, in pieces of any sizes as long as
      the address lies in the first chunk, is heard exactly: the user is the first with the client's key,
      the target is the one asked for, and what the remote is to be sent is the data, no more and no less. */
  lemma ClientIsHeard(s: Suite, lib: Socks.Lib, users: seq<UserEntry>, w: nat, salt: bytes, writes: seq<bytes>,
                      target: bytes, data: bytes)
    requires s.Lawful() && lib.Lawful() && |salt| == s.SaltSize()
    requires w < |users| && |users[w].masterKey| == s.keySize
    requires forall j :: 0 <= j < w ==> users[j].masterKey != users[w].masterKey
    requires var wire := SaltedWire(s, users[w].masterKey, salt, AllChunks(writes));
             forall j :: 0 <= j < |users| && users[j].masterKey != users[w].masterKey ==>
               |wire| >= |salt| + 2 + s.overhead ==> !Handshake.Opens(s, users[j], salt, wire[|salt|..][..2 + s.overhead])
    requires Socks.EncodeAddr(lib, target).Ok? && Socks.IsCanonical(lib, target)
    requires Flatten(writes) == Socks.EncodeAddr(lib, target).value + data
    requires AllChunks(writes) != [] && Socks.EncodeAddr(lib, target).value <= AllChunks(writes)[0]
    ensures RequestIn(s, lib, users, SaltedWire(s, users[w].masterKey, salt, AllChunks(writes)), EOF) ==
            Some(Request(users[w], target, data))
  {
    hide Handshake.Identify, Handshake.Opens, ReadMany, Remaining, WireOf, Suite.Lawful, Socks.Lib.Lawful,
      Socks.SplitAddr, Socks.EncodeAddr, Socks.IsCanonical, AllChunks, Flatten, SaltedWire;
    var header := Socks.EncodeAddr(lib, target).value;
    var wire := SaltedWire(s, users[w].masterKey, salt, AllChunks(writes));
    Socks.RoundTripIff(lib, target, []);
    assert header + [] == header;
    Socks.SplitIsStable(lib, header, []);
    Handshake.TcpEndToEnd(s, users, w, salt, writes, []);
    var (id, rest) := Handshake.Identify(s, users, wire, EOF);
    var more := Remaining(s, [], EOF, View(Some(id.value.key), id.value.ctr, [], rest)).plain;
    assert id.value.payload == AllChunks(writes)[0];
    var body := id.value.payload[|header|..];
    assert id.value.payload == header + body;
    Socks.RoundTripIff(lib, target, body);
    Assoc(header, body, more);
    SplitConcat(header, body + more);
    SplitConcat(header, data);
  }
}
