/** Addresses as netip has them, and who a client is (ClientIdentity in resolver.go). */
module Addresses {
  import opened Bytes

  datatype Addr = V4(raw: bytes) | V6(raw: bytes, zone: bytes)

  datatype AddrPort = NoAddrPort | AddrPort(addr: Addr, port: nat)

  predicate AllZero(raw: bytes) {
    forall k :: 0 <= k < |raw| ==> raw[k] == 0
  }

  /** 0.0.0.0 or :: (a v4-mapped zero is neither). */
  predicate IsUnspecified(a: Addr) {
    AllZero(a.raw) && (a.V6? ==> a.zone == [])
  }

  /** The unspecified addresses are two: a zone makes an address a specified one. */
  lemma UnspecifiedIff(a: Addr)
    ensures IsUnspecified(a) <==>
            a == V4(seq(|a.raw|, _ => 0)) || a == V6(seq(|a.raw|, _ => 0), [])
  {
    if AllZero(a.raw) {
      assert a.raw == seq(|a.raw|, _ => 0);
    }
  }

  datatype ClientIdentity = ClientIdentity(transportAddr: AddrPort, realAddr: AddrPort)

  /** An address where the source has its text, which determines it; None is the empty text. */
  type Ip = Option<Addr>

  function RealIP(id: ClientIdentity): Ip {
    if id.realAddr.AddrPort? then Some(id.realAddr.addr)
    else if id.transportAddr.AddrPort? then Some(id.transportAddr.addr)
    else None
  }

  /** A client counts by its real address, and by its transport address only if it has no other. */
  lemma RealIPIs(id: ClientIdentity)
    ensures id.realAddr.AddrPort? ==> RealIP(id) == Some(id.realAddr.addr)
    ensures id.realAddr.NoAddrPort? && id.transportAddr.AddrPort? ==> RealIP(id) == Some(id.transportAddr.addr)
    ensures RealIP(id) == None <==> id.realAddr.NoAddrPort? && id.transportAddr.NoAddrPort?
  {
  }
}
