/** One UDP datagram, from the socket to a user, a target and a payload, and a reply back (resolver.go and
    the UDP half of service.go). */
module Datagram {
  import opened Bytes
  import opened Nonce
  import opened Aead
  import opened Addresses
  import opened Users
  import opened Wire
  import Socks

  // ---------- PassX ----------

  const P: byte := 80
  const X: byte := 88

  predicate LooksLikePassXHeader(packet: bytes) {
    |packet| >= 2 && packet[0] == P && packet[1] == X
  }

  /** validateResolvedUDPIdentity */
  function ValidateIdentity(id: ClientIdentity, offset: nat): Option<(ClientIdentity, nat)> {
    if id.realAddr.NoAddrPort? || IsUnspecified(id.realAddr.addr) then None else Some((id, offset))
  }

  /** resolveUDPIdentity: who sent the packet, and where its own bytes begin; None is the one error. */
  function ResolveUDPIdentity(packet: bytes, transportAddr: AddrPort, trusted: bool): Option<(ClientIdentity, nat)> {
    var direct := ClientIdentity(transportAddr, transportAddr);
    if !trusted || !LooksLikePassXHeader(packet) then Some((direct, 0))
    else if |packet| < 3 then None
    else if packet[2] == 1 then
      if |packet| < 9 then None
      else ValidateIdentity(direct.(realAddr := AddrPort(V4(packet[3..7]), ReadUint16(packet[7..9]))), 9)
    else if packet[2] == 2 then
      if |packet| < 21 then None
      else ValidateIdentity(direct.(realAddr := AddrPort(V6(packet[3..19], []), ReadUint16(packet[19..21]))), 21)
    else None
  }

  /** An address a header can carry. */
  predicate Carried(a: AddrPort) {
    a.AddrPort? && a.port < 0x1_0000 && (if a.addr.V4? then |a.addr.raw| == 4 else |a.addr.raw| == 16 && a.addr.zone == [])
  }

  /** The header a tunnel puts before a packet (buildPassXHeader in resolver_test.go). */
  function BuildPassXHeader(a: AddrPort): bytes
    requires Carried(a)
  {
    [P, X, if a.addr.V4? then 1 else 2] + a.addr.raw + PutUint16(a.port)
  }

  /** Behind a trusted transport the header's address comes back, and exactly the header is consumed; an
      unspecified address is refused. */
  lemma ResolveOfBuild(a: AddrPort, rest: bytes, transportAddr: AddrPort)
    requires Carried(a)
    ensures ResolveUDPIdentity(BuildPassXHeader(a) + rest, transportAddr, true) ==
            if IsUnspecified(a.addr) then None
            else Some((ClientIdentity(transportAddr, a), |BuildPassXHeader(a)|))
  {
    var raw, port := a.addr.raw, PutUint16(a.port);
    var packet := ([P, X, if a.addr.V4? then 1 else 2] + raw + port) + rest;
    assert packet[3..3 + |raw|] == raw && packet[3 + |raw|..3 + |raw| + 2] == port;
    Socks.Port(a.port);
    hide PutUint16, ReadUint16, IsUnspecified;
    assert a.addr == if a.addr.V4? then V4(raw) else V6(raw, []);
  }

  /** A packet is taken as it is exactly when the transport is not trusted or the packet does not begin
      with "PX"; otherwise its first bytes are read as a header, or it is refused. */
  lemma TakenAsItIsIff(packet: bytes, transportAddr: AddrPort, trusted: bool)
    ensures ResolveUDPIdentity(packet, transportAddr, trusted) == Some((ClientIdentity(transportAddr, transportAddr), 0)) <==>
            !trusted || !LooksLikePassXHeader(packet)
    ensures var r := ResolveUDPIdentity(packet, transportAddr, trusted);
            r.Some? ==> && r.value.0.transportAddr == transportAddr && r.value.1 <= |packet|
                        && (r.value.0.realAddr != transportAddr ==>
                              trusted && BuildPassXHeader(r.value.0.realAddr) == packet[..r.value.1])
  {
  }

  /** A packet read as having a header carries one, whole and of a specified address, and is read as
      exactly that; and any such packet is. */
  lemma ResolvesIff(packet: bytes, transportAddr: AddrPort)
    requires LooksLikePassXHeader(packet)
    ensures var r := ResolveUDPIdentity(packet, transportAddr, true);
            && (r.Some? ==>
                  var a := r.value.0.realAddr;
                  && r.value.0.transportAddr == transportAddr && Carried(a) && !IsUnspecified(a.addr)
                  && BuildPassXHeader(a) <= packet && r.value.1 == |BuildPassXHeader(a)|)
            && (r.None? ==> forall a | Carried(a) && !IsUnspecified(a.addr) :: !(BuildPassXHeader(a) <= packet))
  {
    var r := ResolveUDPIdentity(packet, transportAddr, true);
    if r.Some? {
      HeaderOf(packet, transportAddr);
    } else {
      hide ResolveUDPIdentity, BuildPassXHeader, IsUnspecified;
      forall a | Carried(a) && !IsUnspecified(a.addr)
        ensures !(BuildPassXHeader(a) <= packet)
      {
        if BuildPassXHeader(a) <= packet {
          var header := BuildPassXHeader(a);
          assert packet == header + packet[|header|..];
          ResolveOfBuild(a, packet[|header|..], transportAddr);
          assert false;
        }
      }
    }
  }

  lemma HeaderOf(packet: bytes, transportAddr: AddrPort)
    requires LooksLikePassXHeader(packet) && ResolveUDPIdentity(packet, transportAddr, true).Some?
    ensures var (id, n) := ResolveUDPIdentity(packet, transportAddr, true).value;
            && id.transportAddr == transportAddr && Carried(id.realAddr) && !IsUnspecified(id.realAddr.addr)
            && BuildPassXHeader(id.realAddr) <= packet && n == |BuildPassXHeader(id.realAddr)|
  {
    hide IsUnspecified;
    var (id, n) := ResolveUDPIdentity(packet, transportAddr, true).value;
    assert PutUint16(id.realAddr.port) == packet[n - 2..n];
    assert BuildPassXHeader(id.realAddr) == packet[..n];
  }

  // ---------- encryption ----------

  /** encryptUDPPacket, given the salt drawn for it. */
  function EncryptUDPPacket(s: Suite, masterKey: bytes, salt: bytes, plaintext: bytes): Option<bytes> {
    var key := s.SessionKey(masterKey, salt);
    if key.None? then None else Some(salt + s.seal(key.value, NonceAt(s.nonceSize, 0), plaintext))
  }

  /** decryptUDPPacketForUser */
  function DecryptForUser(s: Suite, masterKey: bytes, packet: bytes): Option<bytes> {
    if |packet| < s.SaltSize() + s.overhead then None else
    var key := s.SessionKey(masterKey, packet[..s.SaltSize()]);
    if key.None? then None else s.open(key.value, NonceAt(s.nonceSize, 0), packet[s.SaltSize()..])
  }

  /** The first user, from position i on, whose key opens the packet. */
  function DecryptFrom(s: Suite, users: seq<UserEntry>, i: nat, packet: bytes): (r: Option<(nat, bytes)>)
    requires i <= |users|
    ensures r.Some? ==> && i <= r.value.0 < |users| && DecryptForUser(s, users[r.value.0].masterKey, packet) == Some(r.value.1)
                        && forall j :: i <= j < r.value.0 ==> DecryptForUser(s, users[j].masterKey, packet).None?
    ensures r.None? ==> forall j :: i <= j < |users| ==> DecryptForUser(s, users[j].masterKey, packet).None?
    decreases |users| - i
  {
    if i == |users| then None
    else
      var plaintext := DecryptForUser(s, users[i].masterKey, packet);
      if plaintext.Some? then Some((i, plaintext.value)) else DecryptFrom(s, users, i + 1, packet)
  }

  /** decryptUDPPacket: the first listed user that fits, or none because none does. */
  method DecryptUDPPacket(s: Suite, users: seq<UserEntry>, packet: bytes) returns (r: Option<(nat, bytes)>)
    ensures r == DecryptFrom(s, users, 0, packet)
  {
    for i := 0 to |users|
      invariant DecryptFrom(s, users, 0, packet) == DecryptFrom(s, users, i, packet)
    {
      var plaintext := DecryptForUser(s, users[i].masterKey, packet);
      if plaintext.Some? {
        return Some((i, plaintext.value));
      }
    }
    r := None;
  }

  /** A packet opens for its own user to what was sealed. */
  lemma DecryptOfEncrypt(s: Suite, masterKey: bytes, salt: bytes, plaintext: bytes)
    requires s.Lawful() && |masterKey| == s.keySize && |salt| == s.SaltSize()
    ensures var packet := EncryptUDPPacket(s, masterKey, salt, plaintext);
            && packet.Some?
            && |packet.value| == s.SaltSize() + |plaintext| + s.overhead
            && DecryptForUser(s, masterKey, packet.value) == Some(plaintext)
  {
    var sealed := s.seal(s.subkey(masterKey, salt), NonceAt(s.nonceSize, 0), plaintext);
    assert |sealed| == |plaintext| + s.overhead;
    SplitConcat(salt, sealed);
  }

  /** Nothing unauthenticated is taken for a packet of a user. */
  lemma DecryptIsAuthentic(s: Suite, masterKey: bytes, packet: bytes)
    ensures var n := s.SaltSize();
            DecryptForUser(s, masterKey, packet).Some? <==>
              && |packet| >= n + s.overhead && |masterKey| == s.keySize
              && s.open(s.subkey(masterKey, packet[..n]), NonceAt(s.nonceSize, 0), packet[n..]).Some?
    ensures var n := s.SaltSize();
            DecryptForUser(s, masterKey, packet).Some? ==>
              DecryptForUser(s, masterKey, packet) == s.open(s.subkey(masterKey, packet[..n]), NonceAt(s.nonceSize, 0), packet[n..])
  {
  }

  // ---------- the whole path ----------

  datatype Delivery = Delivery(identity: ClientIdentity, user: nat, target: bytes, payload: bytes)

  /** serveUDP and handleUDP up to the session: None when the datagram is dropped. */
  function Deliver(s: Suite, lib: Socks.Lib, users: seq<UserEntry>, packet: bytes, transportAddr: AddrPort, trusted: bool)
    : Option<Delivery>
  {
    var id := ResolveUDPIdentity(packet, transportAddr, trusted);
    if id.None? || id.value.1 > |packet| then None else
    var plain := DecryptFrom(s, users, 0, packet[id.value.1..]);
    if plain.None? then None else
    var addr := Socks.SplitAddr(lib, plain.value.1);
    if addr.Err? || addr.value.1 > |plain.value.1| then None else
    var payload := plain.value.1[addr.value.1..];
    if payload == [] then None
    else Some(Delivery(id.value.0, plain.value.0, addr.value.0, payload))
  }

  /** What a client sends: an address and a payload, sealed under a fresh salt. */
  ghost predicate IsDatagram(s: Suite, lib: Socks.Lib, users: seq<UserEntry>, w: nat, target: bytes, payload: bytes,
                             salt: bytes, datagram: bytes) {
    && s.Lawful() && lib.Lawful() && w < |users| && |users[w].masterKey| == s.keySize && |salt| == s.SaltSize()
    && payload != []
    && Socks.EncodeAddr(lib, target).Ok? && Socks.IsCanonical(lib, target)
    && EncryptUDPPacket(s, users[w].masterKey, salt, Socks.EncodeAddr(lib, target).value + payload) == Some(datagram)
    && (forall j :: 0 <= j < w ==> DecryptForUser(s, users[j].masterKey, datagram).None?)
  }

  /** The datagram itself, once it is known where it begins. */
  lemma DatagramOpens(s: Suite, lib: Socks.Lib, users: seq<UserEntry>, w: nat, target: bytes, payload: bytes,
                      salt: bytes, datagram: bytes)
    requires IsDatagram(s, lib, users, w, target, payload, salt, datagram)
    ensures var plain := Socks.EncodeAddr(lib, target).value + payload;
            var header := Socks.EncodeAddr(lib, target).value;
            && DecryptFrom(s, users, 0, datagram) == Some((w, plain))
            && Socks.SplitAddr(lib, plain) == Ok((target, |header|))
            && plain[|header|..] == payload
  {
    hide Suite.Lawful, Socks.Lib.Lawful, Socks.SplitAddr, Socks.EncodeAddr, Socks.IsCanonical;
    var header := Socks.EncodeAddr(lib, target).value;
    DecryptOfEncrypt(s, users[w].masterKey, salt, header + payload);
    hide EncryptUDPPacket, DecryptForUser;
    var r := DecryptFrom(s, users, 0, datagram);
    assert r.Some? && r.value.0 == w;
    Socks.RoundTripIff(lib, target, payload);
    SplitConcat(header, payload);
  }

  /** Through a trusted tunnel: the real client address, the user, the target and the payload all come
      out as they went in, for every valid and specified address. */
  lemma TunnelledArrives(s: Suite, lib: Socks.Lib, users: seq<UserEntry>, w: nat, target: bytes, payload: bytes,
                         salt: bytes, datagram: bytes, client: AddrPort, transportAddr: AddrPort)
    requires IsDatagram(s, lib, users, w, target, payload, salt, datagram)
    requires Carried(client) && !IsUnspecified(client.addr)
    ensures Deliver(s, lib, users, BuildPassXHeader(client) + datagram, transportAddr, true) ==
            Some(Delivery(ClientIdentity(transportAddr, client), w, target, payload))
  {
    hide Suite.Lawful, Socks.Lib.Lawful, ResolveUDPIdentity, DecryptFrom, Socks.SplitAddr, Socks.EncodeAddr, IsUnspecified, BuildPassXHeader;
    ResolveOfBuild(client, datagram, transportAddr);
    SplitConcat(BuildPassXHeader(client), datagram);
    DatagramOpens(s, lib, users, w, target, payload, salt, datagram);
  }

  /** Straight from a client: everything arrives, as from its own transport address, when the transport is
      not trusted or the random salt does not begin with "PX".  Otherwise the datagram is refused, or 9 or
      21 bytes of its own are taken for a header; and as long as no listed key opens what is left of it
      then, nothing is delivered at all, so that the condition is exact. */
  lemma DirectArrivesIff(s: Suite, lib: Socks.Lib, users: seq<UserEntry>, w: nat, target: bytes, payload: bytes,
                         salt: bytes, datagram: bytes, transportAddr: AddrPort, trusted: bool)
    requires IsDatagram(s, lib, users, w, target, payload, salt, datagram)
    ensures LooksLikePassXHeader(datagram) <==> LooksLikePassXHeader(salt)
    ensures !trusted || !LooksLikePassXHeader(salt) ==>
              Deliver(s, lib, users, datagram, transportAddr, trusted) ==
              Some(Delivery(ClientIdentity(transportAddr, transportAddr), w, target, payload))
    ensures trusted && LooksLikePassXHeader(salt) ==>
              var d := ResolveUDPIdentity(datagram, transportAddr, trusted);
              d.None? || d.value.1 in {9, 21}
    ensures (forall n: nat :: n in {9, 21} && n <= |datagram| ==> DecryptFrom(s, users, 0, datagram[n..]).None?) ==>
              (Deliver(s, lib, users, datagram, transportAddr, trusted).Some? <==> !trusted || !LooksLikePassXHeader(salt))
  {
    hide DecryptFrom, DecryptForUser, Socks.SplitAddr, Socks.EncodeAddr, Socks.IsCanonical, Suite.Lawful, Socks.Lib.Lawful;
    DatagramOpens(s, lib, users, w, target, payload, salt, datagram);
    assert datagram[0..] == datagram;
    assert |salt| >= 16 && datagram[..|salt|] == salt;
    assert datagram[0] == salt[0] && datagram[1] == salt[1];
  }

  /** A reply opens for its user to the sender's address and the data, and nothing is lost or added. */
  lemma ReplyOpens(s: Suite, lib: Socks.Lib, masterKey: bytes, salt: bytes, sender: bytes, data: bytes)
    requires s.Lawful() && lib.Lawful() && |masterKey| == s.keySize && |salt| == s.SaltSize()
    requires Socks.EncodeAddr(lib, sender).Ok? && Socks.IsCanonical(lib, sender)
    ensures var header := Socks.EncodeAddr(lib, sender).value;
            var reply := EncryptUDPPacket(s, masterKey, salt, header + data);
            && reply.Some?
            && DecryptForUser(s, masterKey, reply.value) == Some(header + data)
            && Socks.SplitAddr(lib, header + data) == Ok((sender, |header|))
            && (header + data)[|header|..] == data
  {
    hide Suite.Lawful, Socks.Lib.Lawful, Socks.SplitAddr, Socks.EncodeAddr, Socks.IsCanonical, DecryptForUser, EncryptUDPPacket;
    var header := Socks.EncodeAddr(lib, sender).value;
    DecryptOfEncrypt(s, masterKey, salt, header + data);
    Socks.RoundTripIff(lib, sender, data);
    SplitConcat(header, data);
  }

  /** Whatever is delivered was sealed: past the PassX header, if there is one, the packet opens, under the
      first listed key that opens it, to an address and this payload. */
  lemma DeliveredIsAuthentic(s: Suite, lib: Socks.Lib, users: seq<UserEntry>, packet: bytes, transportAddr: AddrPort, trusted: bool)
    requires Deliver(s, lib, users, packet, transportAddr, trusted).Some?
    ensures var d := Deliver(s, lib, users, packet, transportAddr, trusted).value;
            var id := ResolveUDPIdentity(packet, transportAddr, trusted);
            && id.Some? && id.value.0 == d.identity && id.value.1 <= |packet| && d.user < |users| && d.payload != []
            && Opened(s, lib, users[d.user].masterKey, packet[id.value.1..], d.target, d.payload)
            && forall j :: 0 <= j < d.user ==> DecryptForUser(s, users[j].masterKey, packet[id.value.1..]).None?
  {
    hide Socks.SplitAddr, ResolveUDPIdentity, DecryptForUser;
    var d := Deliver(s, lib, users, packet, transportAddr, trusted).value;
    var own := packet[ResolveUDPIdentity(packet, transportAddr, trusted).value.1..];
    DecryptIsAuthentic(s, users[d.user].masterKey, own);
    var plain := DecryptForUser(s, users[d.user].masterKey, own).value;
    var n := Socks.SplitAddr(lib, plain).value.1;
    assert plain == plain[..n] + d.payload;
  }

  /** This key opens the datagram, past its salt, to the header of the target and the payload. */
  ghost predicate Opened(s: Suite, lib: Socks.Lib, masterKey: bytes, datagram: bytes, target: bytes, payload: bytes) {
    && |datagram| >= s.SaltSize() + s.overhead && |masterKey| == s.keySize
    && var salt, sealed := datagram[..s.SaltSize()], datagram[s.SaltSize()..];
       exists header ::
         && s.open(s.subkey(masterKey, salt), NonceAt(s.nonceSize, 0), sealed) == Some(header + payload)
         && Socks.SplitAddr(lib, header + payload) == Ok((target, |header|))
  }

  /** Nothing longer than the datagram is forwarded: with the 64 KiB read buffer, no forwarded payload
      exceeds the smallest burst of a rate limiter. */
  lemma PayloadIsShorter(s: Suite, lib: Socks.Lib, users: seq<UserEntry>, packet: bytes, transportAddr: AddrPort, trusted: bool)
    requires s.Lawful() && Deliver(s, lib, users, packet, transportAddr, trusted).Some?
    ensures 0 < |Deliver(s, lib, users, packet, transportAddr, trusted).value.payload| < |packet|
  {
    hide Socks.SplitAddr, Suite.Lawful;
    var (id, offset) := ResolveUDPIdentity(packet, transportAddr, trusted).value;
    var (i, plain) := DecryptFrom(s, users, 0, packet[offset..]).value;
    OpenedIsShorter(s, users[i].masterKey, packet[offset..]);
    Socks.SplitIsStable(lib, plain, []);
  }

  lemma OpenedIsShorter(s: Suite, masterKey: bytes, packet: bytes)
    requires s.Lawful() && DecryptForUser(s, masterKey, packet).Some?
    ensures |DecryptForUser(s, masterKey, packet).value| + s.SaltSize() + s.overhead == |packet|
  {
  }
}
