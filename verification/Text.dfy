/** Go strings as bytes, and the pieces of strconv, net and netip that addresses go through. */
module Text {
  import opened Bytes

  const ZERO: byte := 48
  const NINE: byte := 57
  const PLUS: byte := 43
  const MINUS: byte := 45
  const DOT: byte := 46
  const COLON: byte := 58
  const LBRACKET: byte := 91
  const RBRACKET: byte := 93

  /** The position of the first occurrence of b from i on. */
  function Index(s: bytes, b: byte, i: nat): (r: Option<nat>)
    requires i <= |s|
    ensures r.Some? ==> i <= r.value < |s| && s[r.value] == b && forall k :: i <= k < r.value ==> s[k] != b
    ensures r.None? ==> forall k :: i <= k < |s| ==> s[k] != b
    decreases |s| - i
  {
    if i == |s| then None else if s[i] == b then Some(i) else Index(s, b, i + 1)
  }

  /** The position of the last occurrence of b before i. */
  function LastIndex(s: bytes, b: byte, i: nat): (r: Option<nat>)
    requires i <= |s|
    ensures r.Some? ==> r.value < i && s[r.value] == b && forall k :: r.value < k < i ==> s[k] != b
    ensures r.None? ==> forall k :: 0 <= k < i ==> s[k] != b
  {
    if i == 0 then None else if s[i - 1] == b then Some(i - 1) else LastIndex(s, b, i - 1)
  }

  // ---------- numbers ----------

  function Itoa(n: nat): bytes {
    if n < 10 then [ZERO + n] else Itoa(n / 10) + [ZERO + n % 10]
  }

  predicate Digits(s: bytes) {
    forall k :: 0 <= k < |s| ==> ZERO <= s[k] <= NINE
  }

  function DecValue(s: bytes): nat
    requires Digits(s)
  {
    if s == [] then 0 else DecValue(s[..|s| - 1]) * 10 + (s[|s| - 1] - ZERO) as int
  }

  /** A decimal without a sign or a superfluous zero. */
  predicate PlainDecimal(s: bytes) {
    s != [] && Digits(s) && (|s| > 1 ==> s[0] != ZERO)
  }

  /** strconv.Atoi, but for the values that do not fit an int: they are refused by every caller here. */
  function Atoi(s: bytes): Option<int> {
    var negative := s != [] && s[0] == MINUS;
    var digits := if s != [] && (s[0] == MINUS || s[0] == PLUS) then s[1..] else s;
    if digits == [] || !Digits(digits) then None
    else
      var value: int := DecValue(digits);
      Some(if negative then -value else value)
  }

  lemma {:induction false} ItoaPlain(n: nat)
    ensures PlainDecimal(Itoa(n)) && DecValue(Itoa(n)) == n
    ensures |Itoa(n)| == 1 <==> n < 10
    ensures n > 0 ==> Itoa(n)[0] != ZERO
  {
    if n >= 10 {
      ItoaPlain(n / 10);
      assert Itoa(n)[..|Itoa(n)| - 1] == Itoa(n / 10);
    }
  }

  lemma {:induction false} PlainIsItoa(s: bytes)
    requires PlainDecimal(s)
    ensures Itoa(DecValue(s)) == s
    ensures |s| > 1 ==> DecValue(s) > 0
  {
    var n := |s| - 1;
    if n > 0 {
      var head := s[..n];
      PlainIsItoa(head);
      assert DecValue(head) > 0 by {
        if n == 1 {
          assert head[..0] == [] && DecValue(head) == head[0] as int - 48;
        }
      }
      var d := (s[n] - ZERO) as int;
      assert DecValue(s) == DecValue(head) * 10 + d;
      assert (DecValue(head) * 10 + d) / 10 == DecValue(head) && (DecValue(head) * 10 + d) % 10 == d;
      assert s == head + [s[n]];
    } else {
      assert s[..0] == [];
      assert s == [s[0]];
    }
  }

  /** A plain decimal is the only text of its value that Itoa gives back. */
  lemma AtoiOfItoa(n: nat)
    ensures Atoi(Itoa(n)) == Some(n)
    ensures COLON !in Itoa(n) && LBRACKET !in Itoa(n) && RBRACKET !in Itoa(n) && DOT !in Itoa(n)
  {
    ItoaPlain(n);
  }

  lemma PlainIffItoa(s: bytes)
    requires Atoi(s).Some? && Atoi(s).value >= 0
    ensures PlainDecimal(s) <==> s == Itoa(Atoi(s).value)
  {
    if PlainDecimal(s) {
      PlainIsItoa(s);
    } else {
      ItoaPlain(Atoi(s).value);
    }
  }

  /** A sign is allowed, anything else but digits is not. */
  lemma AtoiOfDigits(s: bytes)
    ensures s != [] && Digits(s) ==>
              && Atoi(s) == Some(DecValue(s) as int) && Atoi([PLUS] + s) == Some(DecValue(s) as int)
              && Atoi([MINUS] + s) == Some(-(DecValue(s) as int))
    ensures Atoi(s).Some? ==> s != [] && Digits(if s[0] == MINUS || s[0] == PLUS then s[1..] else s)
  {
    hide DecValue;
    assert ([PLUS] + s)[1..] == s && ([MINUS] + s)[1..] == s;
    assert ([PLUS] + s)[0] == PLUS && ([MINUS] + s)[0] == MINUS;
  }

  // ---------- dotted quads ----------

  function FormatOctets(raw: bytes): bytes
    requires raw != []
  {
    if |raw| == 1 then Itoa(raw[0]) else Itoa(raw[0]) + [DOT] + FormatOctets(raw[1..])
  }

  function ParseOctet(s: bytes): Option<byte> {
    if PlainDecimal(s) && DecValue(s) < 256 then Some(DecValue(s)) else None
  }

  /** n octets with dots between them: netip refuses signs, empty fields and leading zeros. */
  function ParseOctets(s: bytes, n: nat): (r: Option<bytes>)
    requires n > 0
    ensures r.Some? ==> |r.value| == n
  {
    if n == 1 then
      var d := ParseOctet(s);
      if d.Some? then Some([d.value]) else None
    else
      var i := Index(s, DOT, 0);
      if i.None? then None else
      var d := ParseOctet(s[..i.value]);
      var rest := ParseOctets(s[i.value + 1..], n - 1);
      if d.Some? && rest.Some? then Some([d.value] + rest.value) else None
  }

  lemma {:induction false} ParseOfFormat(raw: bytes)
    requires raw != []
    ensures ParseOctets(FormatOctets(raw), |raw|) == Some(raw)
    decreases |raw|
  {
    hide ParseOctet, Itoa, Index;
    OctetOfItoa(raw[0]);
    if |raw| == 1 {
      assert raw == [raw[0]];
    } else {
      ParseOfFormat(raw[1..]);
      ParseNext(raw[0], FormatOctets(raw[1..]), |raw| - 1);
      assert raw == [raw[0]] + raw[1..];
    }
  }

  lemma ParseNext(d: byte, tail: bytes, n: nat)
    requires n > 0 && ParseOctets(tail, n).Some?
    ensures ParseOctets(Itoa(d) + [DOT] + tail, n + 1) == Some([d] + ParseOctets(tail, n).value)
  {
    hide Itoa, ParseOctet, Index;
    OctetOfItoa(d);
    FirstDot(Itoa(d), tail);
  }

  lemma OctetOfItoa(b: byte)
    ensures ParseOctet(Itoa(b)) == Some(b) && Digits(Itoa(b))
  {
    ItoaPlain(b);
  }

  /** A dotted text holds nothing but digits and dots, and a dot if it has two fields. */
  lemma {:induction false} FormatIsDotted(raw: bytes)
    requires raw != []
    ensures forall k :: 0 <= k < |FormatOctets(raw)| ==> FormatOctets(raw)[k] == DOT || ZERO <= FormatOctets(raw)[k] <= NINE
    ensures |raw| > 1 ==> DOT in FormatOctets(raw)
    decreases |raw|
  {
    ItoaPlain(raw[0]);
    if |raw| > 1 {
      FormatIsDotted(raw[1..]);
    }
  }

  lemma FirstDot(a: bytes, b: bytes)
    requires Digits(a)
    ensures var s := a + [DOT] + b;
            Index(s, DOT, 0) == Some(|a|) && s[..|a|] == a && s[|a| + 1..] == b
  {
    var s := a + [DOT] + b;
    assert s[|a|] == DOT;
    assert forall k :: 0 <= k < |a| ==> s[k] == a[k] && s[k] != DOT;
  }

  lemma {:induction false} FormatOfParse(s: bytes, n: nat)
    requires n > 0 && ParseOctets(s, n).Some?
    ensures FormatOctets(ParseOctets(s, n).value) == s
    decreases n
  {
    hide PlainDecimal, DecValue, Itoa;
    if n == 1 {
      ItoaOfOctet(s);
    } else {
      var i := Index(s, DOT, 0).value;
      var raw := ParseOctets(s, n).value;
      ItoaOfOctet(s[..i]);
      FormatOfParse(s[i + 1..], n - 1);
      assert raw[1..] == ParseOctets(s[i + 1..], n - 1).value;
      assert s == s[..i] + [DOT] + s[i + 1..];
    }
  }

  lemma ItoaOfOctet(s: bytes)
    requires ParseOctet(s).Some?
    ensures Itoa(ParseOctet(s).value) == s
  {
    PlainIsItoa(s);
  }

  // ---------- host and port ----------

  /** net.JoinHostPort */
  function JoinHostPort(host: bytes, port: bytes): bytes {
    if COLON in host then [LBRACKET] + host + [RBRACKET, COLON] + port else host + [COLON] + port
  }

  /** net.SplitHostPort; None stands for all its errors. */
  function SplitHostPort(t: bytes): Option<(bytes, bytes)> {
    var i := LastIndex(t, COLON, |t|);
    if i.None? then None
    else if t[0] == LBRACKET then
      var end := Index(t, RBRACKET, 0);
      if end.None? || end.value + 1 != i.value then None
      else if LBRACKET in t[1..] || RBRACKET in t[end.value + 1..] then None
      else Some((t[1..end.value], t[i.value + 1..]))
    else
      var host := t[..i.value];
      if COLON in host || LBRACKET in t || RBRACKET in t then None
      else Some((host, t[i.value + 1..]))
  }

  predicate Unbracketed(s: bytes) {
    LBRACKET !in s && RBRACKET !in s
  }

  lemma SplitOfJoin(host: bytes, port: bytes)
    requires Unbracketed(host) && Unbracketed(port) && COLON !in port
    ensures SplitHostPort(JoinHostPort(host, port)) == Some((host, port))
  {
    var t := JoinHostPort(host, port);
    var c := |t| - |port| - 1;
    assert t[c..] == [COLON] + port && t[c + 1..] == port;
    LastIs(t, COLON, c, port);
    if COLON in host {
      assert t[1..] == host + [RBRACKET, COLON] + port;
      assert t[1..c - 1] == host && t[..c - 1] == [LBRACKET] + host;
      FirstIs(t, RBRACKET, c - 1, [LBRACKET] + host);
    } else {
      assert t[..c] == host;
    }
  }

  /** Brackets are taken off whatever they hold. */
  lemma SplitOfBracketed(host: bytes, port: bytes)
    requires Unbracketed(host) && Unbracketed(port) && COLON !in port
    ensures SplitHostPort([LBRACKET] + host + [RBRACKET, COLON] + port) == Some((host, port))
  {
    var t := [LBRACKET] + host + [RBRACKET, COLON] + port;
    var c := |host| + 2;
    assert t[c + 1..] == port && t[1..] == host + [RBRACKET, COLON] + port;
    LastIs(t, COLON, c, port);
    assert t[1..c - 1] == host && t[..c - 1] == [LBRACKET] + host;
    FirstIs(t, RBRACKET, c - 1, [LBRACKET] + host);
    assert forall k :: c - 1 < k < |t| ==> t[k] == if k == c then COLON else port[k - c - 1];
  }

  lemma LastIs(t: bytes, b: byte, c: nat, tail: bytes)
    requires c < |t| && t[c] == b && t[c + 1..] == tail && b !in tail
    ensures LastIndex(t, b, |t|) == Some(c)
  {
    assert forall k :: c < k < |t| ==> t[k] == tail[k - c - 1] && t[k] != b;
  }

  lemma FirstIs(t: bytes, b: byte, c: nat, head: bytes)
    requires c < |t| && t[c] == b && t[..c] == head && b !in head
    ensures Index(t, b, 0) == Some(c)
  {
    assert forall k :: 0 <= k < c ==> t[k] == head[k] && t[k] != b;
  }

  /** Whatever splits is a host and a port joined, with or without brackets. */
  lemma JoinOfSplit(t: bytes)
    requires SplitHostPort(t).Some?
    ensures var (host, port) := SplitHostPort(t).value;
            && Unbracketed(host) && Unbracketed(port) && COLON !in port
            && (if t[0] == LBRACKET then t == [LBRACKET] + host + [RBRACKET, COLON] + port
                else t == host + [COLON] + port && COLON !in host)
  {
    hide Index, LastIndex;
    var i := LastIndex(t, COLON, |t|).value;
    if t[0] == LBRACKET {
      var end := Index(t, RBRACKET, 0).value;
      SplitBracketed(t, end);
      assert forall k :: 1 <= k < end ==> t[1..][k - 1] == t[k];
      assert forall k :: end < k < |t| ==> t[end + 1..][k - end - 1] == t[k] && t[1..][k - 1] == t[k];
    } else {
      assert t == t[..i] + [t[i]] + t[i + 1..];
    }
  }

  lemma SplitBracketed(t: bytes, end: nat)
    requires 1 <= end && end + 1 < |t| && t[0] == LBRACKET && t[end] == RBRACKET && t[end + 1] == COLON
    ensures t == [LBRACKET] + t[1..end] + [RBRACKET, COLON] + t[end + 2..]
  {
  }

  /** When the text is what joining its own parts gives. */
  lemma JoinIsSplitIff(t: bytes)
    requires SplitHostPort(t).Some?
    ensures var (host, port) := SplitHostPort(t).value;
            t == JoinHostPort(host, port) <==> (t[0] == LBRACKET <==> COLON in host)
  {
    JoinOfSplit(t);
    var (host, port) := SplitHostPort(t).value;
    hide SplitHostPort;
    if t[0] == LBRACKET && COLON !in host {
      assert |t| == |JoinHostPort(host, port)| + 2;
    }
  }
}
