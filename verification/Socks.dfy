/** SOCKS addresses (socksaddr.go; section 5 of RFC 1928). */
module Socks {
  import opened Bytes
  import opened Text

  const ATYP_IPV4: byte := 1
  const ATYP_DOMAIN: byte := 3
  const ATYP_IPV6: byte := 4
  const PERCENT: byte := 37

  /** The library calls that are not modelled: netip's IPv6 text, and strings.TrimSpace. */
  datatype Lib = Lib(print6: bytes -> bytes, parse6: bytes -> Option<bytes>, trim: bytes -> bytes) {
    /** Printed IPv6 addresses are hexadecimal groups and colons (RFC 5952) and parse back; trimming
        only takes bytes away, and none from what begins and ends with visible ASCII. */
    ghost predicate Lawful() {
      && (forall raw :: |raw| == 16 && !IsMapped(raw) ==>
            && parse6(print6(raw)) == Some(raw)
            && COLON in print6(raw)
            && (forall k :: 0 <= k < |print6(raw)| ==> IsHexOrColon(print6(raw)[k])))
      && (forall s :: parse6(s).Some? ==> |parse6(s).value| == 16)
      && (forall s, b :: b in trim(s) ==> b in s)
      && (forall s :: s != [] && 33 <= s[0] <= 126 && 33 <= s[|s| - 1] <= 126 ==> trim(s) == s)
    }
  }

  predicate IsHexOrColon(b: byte) {
    ZERO <= b <= NINE || b == COLON || 97 <= b <= 102
  }

  // ---------- net.IP ----------

  const MAPPED: bytes := [0, 0, 0, 0, 0, 0, 0, 0, 0, 0, 255, 255]

  /** A 16-byte address that stands for an IPv4 one. */
  predicate IsMapped(raw: bytes) {
    |raw| == 16 && raw[..12] == MAPPED
  }

  /** net.ParseIP: the first dot, colon or percent sign decides. */
  function ParseIP(lib: Lib, s: bytes): Option<bytes> {
    var i := FirstSpecial(s, 0);
    if i.None? || s[i.value] == PERCENT then None
    else if s[i.value] == COLON then lib.parse6(s)
    else var v4 := ParseOctets(s, 4);
         if v4.Some? then Some(MAPPED + v4.value) else None
  }

  function FirstSpecial(s: bytes, i: nat): (r: Option<nat>)
    requires i <= |s|
    ensures r.Some? ==> i <= r.value < |s| && s[r.value] in {DOT, COLON, PERCENT}
    ensures r.Some? ==> forall k :: i <= k < r.value ==> s[k] !in {DOT, COLON, PERCENT}
    ensures r.None? ==> forall k :: i <= k < |s| ==> s[k] !in {DOT, COLON, PERCENT}
    decreases |s| - i
  {
    if i == |s| then None
    else if s[i] in {DOT, COLON, PERCENT} then Some(i)
    else FirstSpecial(s, i + 1)
  }

  /** IP.String of a 16-byte address. */
  function IpText(lib: Lib, raw: bytes): bytes
    requires |raw| == 16
  {
    if IsMapped(raw) then FormatOctets(raw[12..]) else lib.print6(raw)
  }

  // ---------- the codec ----------

  datatype AddrError = Short | UnsupportedAtyp | BadHostPort | BadPort | BadDomainLength

  /** SplitAddr: the target as host:port, and the length of the header. */
  function SplitAddr(lib: Lib, payload: bytes): Result<(bytes, nat), AddrError> {
    if |payload| < 1 then Err(Short)
    else if payload[0] == ATYP_IPV4 then
      if |payload| < 1 + 4 + 2 then Err(Short)
      else Ok((JoinHostPort(FormatOctets(payload[1..5]), Itoa(ReadUint16(payload[5..7]))), 7))
    else if payload[0] == ATYP_DOMAIN then
      if |payload| < 2 then Err(Short) else
      var size := payload[1] as nat;
      if |payload| < 2 + size + 2 then Err(Short)
      else Ok((JoinHostPort(payload[2..2 + size], Itoa(ReadUint16(payload[2 + size..2 + size + 2]))), 2 + size + 2))
    else if payload[0] == ATYP_IPV6 then
      if |payload| < 1 + 16 + 2 then Err(Short)
      else Ok((JoinHostPort(IpText(lib, payload[1..17]), Itoa(ReadUint16(payload[17..19]))), 19))
    else Err(UnsupportedAtyp)
  }

  /** The bytes of a host: its literal address if it is one, its trimmed name otherwise. */
  function EncodeHost(lib: Lib, host: bytes): Result<bytes, AddrError> {
    var ip := ParseIP(lib, host);
    if ip.Some? then
      if IsMapped(ip.value) then Ok([ATYP_IPV4] + ip.value[12..]) else Ok([ATYP_IPV6] + ip.value)
    else
      var name := lib.trim(host);
      if |name| == 0 || |name| > 255 then Err(BadDomainLength) else Ok([ATYP_DOMAIN, |name|] + name)
  }

  function EncodeAddr(lib: Lib, target: bytes): Result<bytes, AddrError> {
    var parts := SplitHostPort(target);
    if parts.None? then Err(BadHostPort) else
    var (host, portText) := parts.value;
    var port := Atoi(portText);
    if port.None? || port.value < 0 || port.value > 65535 then Err(BadPort) else
    var head := EncodeHost(lib, host);
    if head.Err? then head else Ok(head.value + PutUint16(port.value))
  }

  /** EncodeAddr as the source does it: an output buffer of the right size, filled by copying at offsets. */
  method EncodeInto(lib: Lib, target: bytes) returns (r: Result<array<byte>, AddrError>)
    ensures match EncodeAddr(lib, target)
            case Ok(b) => r.Ok? && fresh(r.value) && r.value[..] == b
            case Err(e) => r == Err(e)
  {
    hide SplitHostPort, Atoi, PutUint16, ParseOctets, FirstSpecial;
    var parts := SplitHostPort(target);
    if parts.None? {
      return Err(BadHostPort);
    }
    var (host, portText) := parts.value;
    var port := Atoi(portText);
    if port.None? || port.value < 0 || port.value > 65535 {
      return Err(BadPort);
    }
    var ip := ParseIP(lib, host);
    if ip.Some? {
      var raw, kind := ip.value, ATYP_IPV6;
      if IsMapped(ip.value) {
        raw, kind := ip.value[12..], ATYP_IPV4;
      }
      var out := Fill([kind], raw, port.value);
      return Ok(out);
    }
    var name := lib.trim(host);
    if |name| == 0 || |name| > 255 {
      return Err(BadDomainLength);
    }
    var out := Fill([ATYP_DOMAIN, |name|], name, port.value);
    r := Ok(out);
  }

  /** Type and length, address and port, each at its offset. */
  method Fill(head: bytes, body: bytes, port: nat) returns (out: array<byte>)
    requires port < 0x1_0000
    ensures fresh(out) && out[..] == head + body + PutUint16(port)
  {
    out := new byte[|head| + |body| + 2](_ => 0);
    CopyAt(out, 0, head);
    CopyAt(out, |head|, body);
    CopyAt(out, |head| + |body|, PutUint16(port));
    assert out[..|head|] == head by {
      assert out[..|head| + |body|][..|head|] == out[..|head|];
    }
    assert out[..] == out[..|head|] + out[|head|..|head| + |body|] + out[|head| + |body|..];
  }

  method CopyAt(out: array<byte>, at: nat, data: bytes)
    requires at + |data| <= out.Length
    modifies out
    ensures out[..at] == old(out[..at]) && out[at..at + |data|] == data && out[at + |data|..] == old(out[at + |data|..])
  {
    forall k | 0 <= k < |data| {
      out[at + k] := data[k];
    }
  }

  // ---------- round trip ----------

  /** The host a name or literal is read back as. */
  function HostText(lib: Lib, host: bytes): bytes {
    var ip := ParseIP(lib, host);
    if ip.None? then lib.trim(host) else if |ip.value| == 16 then IpText(lib, ip.value) else []
  }

  /** A target written the one way the codec writes it: a port in plain decimal; brackets exactly around a
      host with a colon; a literal address in the form its printer gives it (an IPv4 one in dotted
      quads), a name without space around it. */
  predicate IsCanonical(lib: Lib, target: bytes)
    requires SplitHostPort(target).Some?
  {
    var (host, portText) := SplitHostPort(target).value;
    var ip := ParseIP(lib, host);
    && PlainDecimal(portText)
    && (target[0] == LBRACKET <==> COLON in host)
    && (if ip.None? then lib.trim(host) == host
        else if IsMapped(ip.value) then COLON !in host
        else lib.print6(ip.value) == host)
  }

  lemma Port(port: nat)
    requires port < 0x1_0000
    ensures |PutUint16(port)| == 2 && ReadUint16(PutUint16(port)) == port
  {
  }

  /** An IPv4 address prints without colons, any other with; neither prints brackets. */
  lemma IpTextKinds(lib: Lib, ip: bytes)
    requires lib.Lawful() && |ip| == 16
    ensures Unbracketed(IpText(lib, ip)) && (IsMapped(ip) <==> COLON !in IpText(lib, ip))
  {
    hide FormatOctets;
    if IsMapped(ip) {
      FormatIsDotted(ip[12..]);
    }
  }

  lemma DottedIP(lib: Lib, host: bytes)
    requires ParseOctets(host, 4).Some?
    ensures IsMapped(MAPPED + ParseOctets(host, 4).value)
    ensures FormatOctets((MAPPED + ParseOctets(host, 4).value)[12..]) == host
  {
    hide FormatOctets, ParseOctets;
    FormatOfParse(host, 4);
    MappedSplit(ParseOctets(host, 4).value);
  }

  /** What ParseIP can return: a dotted quad and nothing else from a text without colons. */
  lemma ParseIPKinds(lib: Lib, host: bytes)
    requires lib.Lawful() && ParseIP(lib, host).Some?
    ensures var ip := ParseIP(lib, host).value;
            && |ip| == 16
            && (COLON !in host ==> IsMapped(ip) && FormatOctets(ip[12..]) == host)
            && Unbracketed(IpText(lib, ip))
            && (IsMapped(ip) <==> COLON !in IpText(lib, ip))
  {
    hide FormatOctets, ParseOctets, IsMapped, IpText;
    var ip := ParseIP(lib, host).value;
    var i := FirstSpecial(host, 0).value;
    if host[i] == DOT {
      DottedIP(lib, host);
    } else {
      assert host[i] in host;
    }
    IpTextKinds(lib, ip);
  }

  lemma MappedSplit(raw: bytes)
    requires |raw| == 4
    ensures IsMapped(MAPPED + raw) && (MAPPED + raw)[12..] == raw
  {
  }

  lemma ReadV4(lib: Lib, raw: bytes, port: nat, rest: bytes)
    requires |raw| == 4 && port < 0x1_0000
    ensures SplitAddr(lib, ([ATYP_IPV4] + raw + PutUint16(port)) + rest) ==
            Ok((JoinHostPort(FormatOctets(raw), Itoa(port)), 7))
  {
    hide JoinHostPort, FormatOctets, Itoa, ReadUint16, PutUint16;
    Port(port);
    var s := ([ATYP_IPV4] + raw + PutUint16(port)) + rest;
    assert s[1..5] == raw && s[5..7] == PutUint16(port);
  }

  lemma ReadV6(lib: Lib, raw: bytes, port: nat, rest: bytes)
    requires |raw| == 16 && port < 0x1_0000
    ensures SplitAddr(lib, ([ATYP_IPV6] + raw + PutUint16(port)) + rest) ==
            Ok((JoinHostPort(IpText(lib, raw), Itoa(port)), 19))
  {
    hide JoinHostPort, IpText, Itoa, ReadUint16, PutUint16;
    Port(port);
    var s := ([ATYP_IPV6] + raw + PutUint16(port)) + rest;
    assert s[1..17] == raw && s[17..19] == PutUint16(port);
  }

  lemma ReadName(lib: Lib, name: bytes, port: nat, rest: bytes)
    requires |name| <= 255 && port < 0x1_0000
    ensures SplitAddr(lib, ([ATYP_DOMAIN, |name|] + name + PutUint16(port)) + rest) ==
            Ok((JoinHostPort(name, Itoa(port)), 2 + |name| + 2))
  {
    hide JoinHostPort, Itoa, ReadUint16, PutUint16;
    Port(port);
    var s := ([ATYP_DOMAIN, |name|] + name + PutUint16(port)) + rest;
    assert s[2..2 + |name|] == name && s[2 + |name|..2 + |name| + 2] == PutUint16(port);
  }

  /** Whatever EncodeAddr accepts is read back as the host's text and the port's number, with exactly the
      header consumed. */
  lemma ReadBack(lib: Lib, target: bytes, rest: bytes)
    requires lib.Lawful() && EncodeAddr(lib, target).Ok?
    ensures var (host, portText) := SplitHostPort(target).value;
            var b := EncodeAddr(lib, target).value;
            && |b| <= 259
            && Atoi(portText).Some? && Atoi(portText).value >= 0
            && SplitAddr(lib, b + rest) == Ok((JoinHostPort(HostText(lib, host), Itoa(Atoi(portText).value)), |b|))
  {
    hide SplitHostPort, JoinHostPort, Atoi, Itoa, ParseIP, FormatOctets, ReadUint16, SplitAddr, Lib.Lawful;
    var (host, portText) := SplitHostPort(target).value;
    var port := Atoi(portText).value;
    var ip := ParseIP(lib, host);
    if ip.Some? {
      ParseIPKinds(lib, host);
      if IsMapped(ip.value) {
        ReadV4(lib, ip.value[12..], port, rest);
      } else {
        ReadV6(lib, ip.value, port, rest);
      }
    } else {
      ReadName(lib, lib.trim(host), port, rest);
    }
  }

  lemma HostTextPlain(lib: Lib, host: bytes)
    requires lib.Lawful() && Unbracketed(host)
    ensures Unbracketed(HostText(lib, host))
  {
    hide ParseIP, FormatOctets;
    if ParseIP(lib, host).Some? {
      ParseIPKinds(lib, host);
      hide IpText;
    }
  }

  lemma HostTextIff(lib: Lib, host: bytes)
    requires lib.Lawful()
    ensures var ip := ParseIP(lib, host);
            HostText(lib, host) == host <==>
            (if ip.None? then lib.trim(host) == host
             else if IsMapped(ip.value) then COLON !in host
             else lib.print6(ip.value) == host)
  {
    hide ParseIP, FormatOctets, Lib.Lawful;
    if ParseIP(lib, host).Some? {
      ParseIPKinds(lib, host);
    }
  }

  /** The round trip gives the target back exactly when it was canonical. */
  lemma RoundTripIff(lib: Lib, target: bytes, rest: bytes)
    requires lib.Lawful() && EncodeAddr(lib, target).Ok?
    ensures var b := EncodeAddr(lib, target).value;
            SplitAddr(lib, b + rest) == Ok((target, |b|)) <==> IsCanonical(lib, target)
  {
    hide SplitHostPort, JoinHostPort, Atoi, Itoa, PlainDecimal, ParseIP, HostText, SplitAddr, Lib.Lawful;
    ReadBack(lib, target, rest);
    var (host, portText) := SplitHostPort(target).value;
    var n := Atoi(portText).value;
    JoinOfSplit(target);
    JoinIsSplitIff(target);
    PlainIffItoa(portText);
    AtoiOfItoa(n);
    HostTextIff(lib, host);
    HostTextPlain(lib, host);
    SplitOfJoin(HostText(lib, host), Itoa(n));
  }

  /** The encoding outright, by the kind of host (section 5 of RFC 1928): type and address or name, then
      the port, high byte first. */
  lemma EncodedForms(lib: Lib, host: bytes, port: nat)
    requires Unbracketed(host) && port <= 65535
    ensures var target, ip, tail := JoinHostPort(host, Itoa(port)), ParseIP(lib, host), [port / 256, port % 256];
            EncodeAddr(lib, target) ==
            if ip.Some? && IsMapped(ip.value) then Ok([1] + ip.value[12..] + tail)
            else if ip.Some? then Ok([4] + ip.value + tail)
            else if 0 < |lib.trim(host)| <= 255 then Ok([3, |lib.trim(host)|] + lib.trim(host) + tail)
            else Err(BadDomainLength)
  {
    hide ParseIP, Itoa, Atoi, SplitHostPort, JoinHostPort, IsMapped;
    AtoiOfItoa(port);
    SplitOfJoin(host, Itoa(port));
    assert PutUint16(port) == [port / 256, port % 256];
  }

  predicate IsName(lib: Lib, host: bytes) {
    && 0 < |host| <= 255 && ParseIP(lib, host).None? && Unbracketed(host)
    && forall k :: 0 <= k < |host| ==> 33 <= host[k] <= 126 && host[k] != COLON
  }

  /** A host that is what it encodes to. */
  predicate SelfHost(lib: Lib, host: bytes) {
    var ip := ParseIP(lib, host);
    && Unbracketed(host) && EncodeHost(lib, host).Ok?
    && (if ip.None? then lib.trim(host) == host
        else if IsMapped(ip.value) then COLON !in host
        else lib.print6(ip.value) == host)
  }

  lemma QuadIsSelf(lib: Lib, raw: bytes)
    requires |raw| == 4
    ensures SelfHost(lib, FormatOctets(raw))
  {
    hide FormatOctets, ParseOctets;
    var host := FormatOctets(raw);
    ParseOfFormat(raw);
    FormatIsDotted(raw);
    MappedSplit(raw);
    var i := FirstSpecial(host, 0);
    assert i.Some? && host[i.value] == DOT;
  }

  lemma V6IsSelf(lib: Lib, raw: bytes)
    requires lib.Lawful() && |raw| == 16 && !IsMapped(raw)
    ensures SelfHost(lib, lib.print6(raw))
  {
    hide FormatOctets, ParseOctets;
    var host := lib.print6(raw);
    var i := FirstSpecial(host, 0);
    assert i.Some? && host[i.value] == COLON;
  }

  lemma NameIsSelf(lib: Lib, host: bytes)
    requires lib.Lawful() && IsName(lib, host)
    ensures SelfHost(lib, host)
  {
    hide ParseIP;
  }

  /** The forms promised to survive are canonical: a dotted quad, a printed IPv6 address that does not
      stand for an IPv4 one, and a host name of visible ASCII that is no literal address, each with a
      plain decimal port. */
  lemma CommonTargetsAreCanonical(lib: Lib, host: bytes, raw: bytes, port: nat)
    requires lib.Lawful() && port <= 65535
    requires
      || (|raw| == 4 && host == FormatOctets(raw))
      || (|raw| == 16 && !IsMapped(raw) && host == lib.print6(raw))
      || IsName(lib, host)
    ensures var target := JoinHostPort(host, Itoa(port));
            && EncodeAddr(lib, target).Ok?
            && IsCanonical(lib, target)
  {
    if IsName(lib, host) {
      NameIsSelf(lib, host);
    } else if |raw| == 4 {
      QuadIsSelf(lib, raw);
    } else {
      V6IsSelf(lib, raw);
    }
    SelfTarget(lib, host, port);
  }

  lemma SelfTarget(lib: Lib, host: bytes, port: nat)
    requires SelfHost(lib, host) && port <= 65535
    ensures var target := JoinHostPort(host, Itoa(port));
            && EncodeAddr(lib, target).Ok?
            && IsCanonical(lib, target)
  {
    hide ParseIP, Itoa, PlainDecimal, Atoi, SplitHostPort, JoinHostPort, EncodeHost;
    AtoiOfItoa(port);
    ItoaPlain(port);
    SplitOfJoin(host, Itoa(port));
    JoinIsSplitIff(JoinHostPort(host, Itoa(port)));
  }

  /** A successful parse looks at its header only: it is the same with anything appended, or with
      everything after the header taken away, and the header is at most 259 bytes. */
  lemma SplitIsStable(lib: Lib, payload: bytes, more: bytes)
    requires SplitAddr(lib, payload).Ok?
    ensures var n := SplitAddr(lib, payload).value.1;
            && 0 < n <= |payload| && n <= 259
            && SplitAddr(lib, payload + more) == SplitAddr(lib, payload)
            && SplitAddr(lib, payload[..n]) == SplitAddr(lib, payload)
  {
    hide JoinHostPort, FormatOctets, IpText, Itoa, ReadUint16;
    var n := SplitAddr(lib, payload).value.1;
    SameSlices(payload + more, payload, n);
    SameSlices(payload, payload[..n], n);
  }

  /** Which payloads parse, how long the header is, and which error the others give. */
  lemma SplitsIff(lib: Lib, payload: bytes)
    ensures var r, n := SplitAddr(lib, payload), |payload|;
            && (r.Ok? <==> || (n >= 7 && payload[0] == ATYP_IPV4)
                           || (n >= 2 && payload[0] == ATYP_DOMAIN && n >= 4 + payload[1] as nat)
                           || (n >= 19 && payload[0] == ATYP_IPV6))
            && (r.Ok? ==> r.value.1 == if payload[0] == ATYP_IPV4 then 7
                                       else if payload[0] == ATYP_IPV6 then 19 else 4 + payload[1] as nat)
            && (r.Err? ==> r.error == if n > 0 && payload[0] !in {1, 3, 4} then UnsupportedAtyp else Short)
  {
    hide JoinHostPort, FormatOctets, IpText, Itoa, ReadUint16;
  }

  /** Two buffers that agree on n bytes agree on every slice below n. */
  lemma SameSlices(long: bytes, short: bytes, n: nat)
    requires n <= |short| <= |long| && forall k :: 0 <= k < n ==> long[k] == short[k]
    ensures forall a, b {:trigger long[a..b]} {:trigger short[a..b]} :: 0 <= a <= b <= n ==> long[a..b] == short[a..b]
  {
  }

  /** The encoding is prefix-free: no encoded address begins another. */
  lemma PrefixFree(lib: Lib, s: bytes, t: bytes)
    requires lib.Lawful() && EncodeAddr(lib, s).Ok? && EncodeAddr(lib, t).Ok?
    requires EncodeAddr(lib, s).value <= EncodeAddr(lib, t).value
    ensures EncodeAddr(lib, s).value == EncodeAddr(lib, t).value
  {
    hide EncodeAddr, SplitAddr, SplitHostPort, JoinHostPort, HostText, Lib.Lawful;
    var a, b := EncodeAddr(lib, s).value, EncodeAddr(lib, t).value;
    ReadBack(lib, s, b[|a|..]);
    ReadBack(lib, t, []);
    assert a + b[|a|..] == b && b + [] == b;
  }
}
