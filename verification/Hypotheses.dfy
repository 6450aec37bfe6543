/** That the hypotheses of the theorems about whole datagrams and connections can be met together: in a
    system with a toy cipher suite and a toy address library they all hold, for any users, keys and data. */
module Hypotheses {
  import opened Bytes
  import opened Nonce
  import opened Aead
  import opened Wire
  import opened Text
  import opened Socks
  import opened Reading
  import opened Users
  import Addresses
  import Connection
  import Datagram
  import Handshake

  // ---------- the address library ----------

  function HexDigit(d: nat): byte
    requires d < 16
  {
    if d < 10 then ZERO + d else 87 + d
  }

  function HexValue(b: byte): (d: nat)
    ensures d < 16
  {
    if ZERO <= b <= NINE then b - ZERO else if 97 <= b <= 102 then b - 87 else 0
  }

  /** The high digits of all bytes, then the low ones. */
  function HexText(raw: bytes): bytes {
    [COLON] + seq(|raw|, k requires 0 <= k < |raw| => HexDigit(raw[k] / 16))
            + seq(|raw|, k requires 0 <= k < |raw| => HexDigit(raw[k] % 16))
  }

  function HexRead(s: bytes): Option<bytes> {
    if |s| != 33 then None
    else Some(seq(16, k requires 0 <= k < 16 => HexValue(s[k + 1]) * 16 + HexValue(s[k + 17])))
  }

  /** An IPv6 address is a colon and 32 hexadecimal digits; nothing needs trimming. */
  const HEX_LIB := Lib(HexText, HexRead, (s: bytes) => s)

  lemma HexTextAt(raw: bytes, k: nat)
    requires k < |raw|
    ensures |HexText(raw)| == 1 + 2 * |raw|
    ensures HexText(raw)[k + 1] == HexDigit(raw[k] / 16) && HexText(raw)[k + |raw| + 1] == HexDigit(raw[k] % 16)
  {
    hide HexDigit;
  }

  lemma HexReadBack(raw: bytes)
    requires |raw| == 16
    ensures HexRead(HexText(raw)) == Some(raw)
  {
    hide HexDigit, HexValue, HexText;
    var s := HexText(raw);
    HexTextAt(raw, 0);
    var back := HexRead(s).value;
    forall k | 0 <= k < 16
      ensures back[k] == raw[k]
    {
      HexTextAt(raw, k);
      HexDigits(raw[k] / 16);
      HexDigits(raw[k] % 16);
    }
    assert back == raw;
  }

  lemma HexTextKinds(raw: bytes)
    ensures COLON in HexText(raw) && forall k :: 0 <= k < |HexText(raw)| ==> IsHexOrColon(HexText(raw)[k])
  {
    hide HexDigit;
    var s := HexText(raw);
    assert s[0] == COLON;
    forall k | 0 < k < |s| ensures IsHexOrColon(s[k]) {
      HexDigits(if k < |raw| + 1 then raw[k - 1] / 16 else raw[k - |raw| - 1] % 16);
    }
  }

  lemma HexDigits(d: nat)
    requires d < 16
    ensures HexValue(HexDigit(d)) == d && IsHexOrColon(HexDigit(d))
  {
  }

  lemma HexLibIsLawful()
    ensures HEX_LIB.Lawful()
  {
    forall raw: bytes | |raw| == 16 && !IsMapped(raw)
      ensures HEX_LIB.parse6(HEX_LIB.print6(raw)) == Some(raw) && COLON in HEX_LIB.print6(raw)
      ensures forall k :: 0 <= k < |HEX_LIB.print6(raw)| ==> IsHexOrColon(HEX_LIB.print6(raw)[k])
    {
      HexReadBack(raw);
      HexTextKinds(raw);
    }
  }

  // ---------- the cipher suite ----------

  /** The key itself is the tag. */
  function Padded(key: bytes, n: nat): (r: bytes)
    ensures |r| == n
  {
    if |key| >= n then key[..n] else key + seq(n - |key|, _ => 0)
  }

  function TagSuite(keySize: nat, nonceSize: nat, overhead: nat): Suite {
    Suite(keySize, nonceSize, overhead,
          (masterKey: bytes, salt: bytes) => masterKey,
          (k: bytes, n: bytes, m: bytes) => m + Padded(k, overhead),
          (k: bytes, n: bytes, c: bytes) =>
            if |c| >= overhead && c[|c| - overhead..] == Padded(k, overhead)
            then Some(c[..|c| - overhead]) else None)
  }

  lemma TagSuiteIsLawful(keySize: nat, nonceSize: nat)
    ensures TagSuite(keySize, nonceSize, keySize).Lawful() && TagSuite(keySize, nonceSize, keySize).keySize == keySize
  {
    var s := TagSuite(keySize, nonceSize, keySize);
    forall k: bytes, n: bytes, m: bytes
      ensures |s.seal(k, n, m)| == |m| + s.overhead && s.open(k, n, s.seal(k, n, m)) == Some(m)
    {
      var c := s.seal(k, n, m);
      assert c[|c| - keySize..] == Padded(k, keySize) && c[..|c| - keySize] == m;
    }
  }

  lemma OthersReject(keySize: nat, nonceSize: nat, user: UserEntry, masterKey: bytes, salt: bytes, n: bytes, m: bytes)
    requires |masterKey| == keySize && user.masterKey != masterKey
    ensures var s := TagSuite(keySize, nonceSize, keySize);
            var key := s.SessionKey(user.masterKey, salt);
            key.Some? ==> s.open(key.value, n, s.seal(s.subkey(masterKey, salt), n, m)).None?
  {
    var c := m + Padded(masterKey, keySize);
    assert c[|c| - keySize..] == masterKey;
  }

  // ---------- whole datagrams and connections ----------

  /** One target the codec carries: a dotted quad. */
  function Quad(raw: bytes, port: nat): bytes
    requires |raw| == 4
  {
    JoinHostPort(FormatOctets(raw), Itoa(port))
  }

  lemma QuadIsCanonical(raw: bytes, port: nat)
    requires |raw| == 4 && port <= 65535
    ensures EncodeAddr(HEX_LIB, Quad(raw, port)).Ok? && IsCanonical(HEX_LIB, Quad(raw, port))
  {
    hide EncodeAddr, IsCanonical, FormatOctets, Lib.Lawful;
    HexLibIsLawful();
    CommonTargetsAreCanonical(HEX_LIB, FormatOctets(raw), raw, port);
  }

  /** The keys of the users before w are not w's. */
  ghost predicate FirstOfItsKey(users: seq<UserEntry>, w: nat, keySize: nat) {
    && w < |users| && |users[w].masterKey| == keySize
    && forall j :: 0 <= j < w ==> users[j].masterKey != users[w].masterKey
  }

  lemma DatagramRejected(keySize: nat, nonceSize: nat, user: UserEntry, masterKey: bytes, salt: bytes, plain: bytes)
    requires |masterKey| == keySize && user.masterKey != masterKey
    requires |salt| == TagSuite(keySize, nonceSize, keySize).SaltSize()
    ensures var s := TagSuite(keySize, nonceSize, keySize);
            var packet := Datagram.EncryptUDPPacket(s, masterKey, salt, plain);
            packet.Some? && Datagram.DecryptForUser(s, user.masterKey, packet.value).None?
  {
    var s := TagSuite(keySize, nonceSize, keySize);
    SplitConcat(salt, s.seal(s.subkey(masterKey, salt), NonceAt(s.nonceSize, 0), plain));
    OthersReject(keySize, nonceSize, user, masterKey, salt, NonceAt(s.nonceSize, 0), plain);
  }

  /** Every payload for a dotted quad has its datagram, and the datagram arrives. */
  lemma DatagramsExist(keySize: nat, nonceSize: nat, users: seq<UserEntry>, w: nat, salt: bytes, raw: bytes, port: nat,
                       payload: bytes, transportAddr: Addresses.AddrPort)
    requires FirstOfItsKey(users, w, keySize) && |raw| == 4 && port <= 65535 && payload != []
    requires |salt| == TagSuite(keySize, nonceSize, keySize).SaltSize()
    ensures var s := TagSuite(keySize, nonceSize, keySize);
            var target := Quad(raw, port);
            && EncodeAddr(HEX_LIB, target).Ok?
            && var datagram := Datagram.EncryptUDPPacket(s, users[w].masterKey, salt, EncodeAddr(HEX_LIB, target).value + payload);
               && datagram.Some?
               && Datagram.Deliver(s, HEX_LIB, users, datagram.value, transportAddr, false) ==
                  Some(Datagram.Delivery(Addresses.ClientIdentity(transportAddr, transportAddr), w, target, payload))
  {
    hide HEX_LIB, TagSuite, Quad, Lib.Lawful, Suite.Lawful, EncodeAddr, IsCanonical, SplitHostPort, Datagram.Deliver,
      Datagram.EncryptUDPPacket, Datagram.DecryptForUser;
    var s := TagSuite(keySize, nonceSize, keySize);
    var target := Quad(raw, port);
    var key := users[w].masterKey;
    TagSuiteIsLawful(keySize, nonceSize);
    HexLibIsLawful();
    QuadIsCanonical(raw, port);
    var plain := EncodeAddr(HEX_LIB, target).value + payload;
    Datagram.DecryptOfEncrypt(s, key, salt, plain);
    var datagram := Datagram.EncryptUDPPacket(s, key, salt, plain).value;
    forall j | 0 <= j < w ensures Datagram.DecryptForUser(s, users[j].masterKey, datagram).None? {
      DatagramRejected(keySize, nonceSize, users[j], key, salt, plain);
    }
    Datagram.DirectArrivesIff(s, HEX_LIB, users, w, target, payload, salt, datagram, transportAddr, false);
  }

  lemma StreamRejected(keySize: nat, nonceSize: nat, user: UserEntry, masterKey: bytes, salt: bytes, chunks: seq<bytes>)
    requires |masterKey| == keySize && user.masterKey != masterKey && chunks != []
    ensures var s := TagSuite(keySize, nonceSize, keySize);
            var wire := SaltedWire(s, masterKey, salt, chunks);
            |wire| >= |salt| + 2 + s.overhead && !Handshake.Opens(s, user, salt, wire[|salt|..][..2 + s.overhead])
  {
    hide TagSuite, Suite.Lawful, Frame;
    var s := TagSuite(keySize, nonceSize, keySize);
    var key := s.subkey(masterKey, salt);
    TagSuiteIsLawful(keySize, nonceSize);
    Handshake.FirstFrameOnWire(s, key, salt, chunks[0], WireOf(s, key, 2, chunks[1..]));
    OthersReject(keySize, nonceSize, user, masterKey, salt, NonceAt(s.nonceSize, 0), PutUint16(|chunks[0]|));
  }

  /** Every client is heard: whatever data it writes after the address, in one Write. */
  lemma ClientsExist(keySize: nat, nonceSize: nat, users: seq<UserEntry>, w: nat, salt: bytes, raw: bytes, port: nat,
                     data: bytes)
    requires FirstOfItsKey(users, w, keySize) && |raw| == 4 && port <= 65535
    requires |salt| == TagSuite(keySize, nonceSize, keySize).SaltSize()
    ensures var s := TagSuite(keySize, nonceSize, keySize);
            var target := Quad(raw, port);
            && EncodeAddr(HEX_LIB, target).Ok?
            && var written := [EncodeAddr(HEX_LIB, target).value + data];
               Connection.RequestIn(s, HEX_LIB, users, SaltedWire(s, users[w].masterKey, salt, AllChunks(written)), EOF) ==
               Some(Connection.Request(users[w], target, data))
  {
    var s := TagSuite(keySize, nonceSize, keySize);
    var target := Quad(raw, port);
    var mk := users[w].masterKey;
    TagSuiteIsLawful(keySize, nonceSize);
    HexLibIsLawful();
    hide HEX_LIB, TagSuite, Quad, Lib.Lawful, Suite.Lawful, EncodeAddr, IsCanonical, SplitHostPort,
      AllChunks, Flatten, Connection.RequestIn, SaltedWire, Handshake.Opens;
    QuadIsCanonical(raw, port);
    ReadBack(HEX_LIB, target, []);
    var header := EncodeAddr(HEX_LIB, target).value;
    var written := [header + data];
    OneWrite(header, data);
    var chunks := AllChunks(written);
    var wire := SaltedWire(s, mk, salt, chunks);
    forall j | 0 <= j < |users| && users[j].masterKey != mk
      ensures |wire| >= |salt| + 2 + s.overhead && !Handshake.Opens(s, users[j], salt, wire[|salt|..][..2 + s.overhead])
    {
      StreamRejected(keySize, nonceSize, users[j], mk, salt, chunks);
    }
    Connection.ClientIsHeard(s, HEX_LIB, users, w, salt, written, target, data);
  }

  lemma OneWrite(header: bytes, data: bytes)
    requires 0 < |header| <= 259
    ensures AllChunks([header + data]) != [] && header <= AllChunks([header + data])[0]
    ensures Flatten([header + data]) == header + data
  {
    var p := header + data;
    assert AllChunks([p]) == Chunks(p) + [];
    assert Chunks(p)[0] == p[..Min(|p|, MAX_PAYLOAD)];
    assert Flatten([p]) == p + [];
  }
}
