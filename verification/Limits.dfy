/** Admission counts (sessionLimiter in limits.go) as values: acquire and release as functions, and what
    they keep. */
module Limits {
  import opened Bytes
  import opened Addresses
  import opened Users

  /** tcpCounts and ipRefs. */
  datatype Counts = Counts(tcp: map<int, int>, ips: map<int, map<Ip, int>>)

  const NO_COUNTS := Counts(map[], map[])

  datatype LimitError = TcpLimitReached | DeviceLimitReached

  function TcpCount(c: Counts, user: int): int {
    if user in c.tcp then c.tcp[user] else 0
  }

  function Refs(c: Counts, user: int): map<Ip, int> {
    if user in c.ips then c.ips[user] else map[]
  }

  function RefCount(c: Counts, user: int, ip: Ip): int {
    if ip in Refs(c, user) then Refs(c, user)[ip] else 0
  }

  predicate TcpFull(c: Counts, user: UserConfig) {
    user.tcpConnLimit > 0 && TcpCount(c, user.id) >= user.tcpConnLimit
  }

  predicate DevicesFull(c: Counts, user: UserConfig, ip: Ip) {
    user.deviceLimit > 0 && RefCount(c, user.id, ip) == 0 && |Refs(c, user.id)| >= user.deviceLimit
  }

  function Acquire(c: Counts, user: UserConfig, ip: Ip, tcp: bool, enforce: bool): Result<Counts, LimitError> {
    if tcp && TcpFull(c, user) then Err(TcpLimitReached)
    else if enforce && DevicesFull(c, user, ip) then Err(DeviceLimitReached)
    else
      Ok(Counts(if tcp then c.tcp[user.id := TcpCount(c, user.id) + 1] else c.tcp,
                c.ips[user.id := Refs(c, user.id)[ip := RefCount(c, user.id, ip) + 1]]))
  }

  function DropTcp(tcp: map<int, int>, user: int): map<int, int> {
    var n := if user in tcp then tcp[user] else 0;
    var n' := if n > 0 then n - 1 else n;
    if n' == 0 then tcp - {user} else tcp[user := n']
  }

  function DropIp(ips: map<int, map<Ip, int>>, user: int, ip: Ip): map<int, map<Ip, int>> {
    if user !in ips then ips else
    var refs := ips[user];
    var refs' := if ip in refs && refs[ip] > 1 then refs[ip := refs[ip] - 1] else refs - {ip};
    if |refs'| == 0 then ips - {user} else ips[user := refs']
  }

  /** release, with its guards against counts that are already gone. */
  function Release(c: Counts, user: int, ip: Ip, tcp: bool): Counts {
    Counts(if tcp then DropTcp(c.tcp, user) else c.tcp, DropIp(c.ips, user, ip))
  }

  /** One of the defensive branches of release would be taken. */
  predicate GuardFires(c: Counts, user: int, ip: Ip, tcp: bool) {
    (tcp && TcpCount(c, user) <= 0) || user !in c.ips || RefCount(c, user, ip) <= 0
  }

  // ---------- counts against leases ----------

  datatype Lease = Lease(user: int, ip: Ip, tcp: bool)

  /** Leases granted and not yet released, by an identifier of the holder. */
  type Leases = map<nat, Lease>

  function TcpLeases(l: Leases, user: int): set<nat> {
    set i | i in l && l[i].tcp && l[i].user == user
  }

  function IpLeases(l: Leases, user: int, ip: Ip): set<nat> {
    set i | i in l && l[i].user == user && l[i].ip == ip
  }

  ghost predicate NoZeros(c: Counts) {
    && (forall u :: u in c.tcp ==> c.tcp[u] > 0)
    && (forall u :: u in c.ips ==> c.ips[u] != map[])
    && (forall u, ip :: u in c.ips && ip in c.ips[u] ==> c.ips[u][ip] > 0)
  }

  /** Every count is the number of outstanding leases it stands for, and nothing is kept at zero. */
  ghost predicate Tally(c: Counts, l: Leases) {
    && (forall u :: TcpCount(c, u) == |TcpLeases(l, u)|)
    && (forall u, ip :: RefCount(c, u, ip) == |IpLeases(l, u, ip)|)
    && NoZeros(c)
  }

  function One(b: bool): int {
    if b then 1 else 0
  }

  lemma AcquireCounts(c: Counts, user: UserConfig, ip: Ip, tcp: bool, enforce: bool)
    requires NoZeros(c) && Acquire(c, user, ip, tcp, enforce).Ok?
    ensures var c' := Acquire(c, user, ip, tcp, enforce).value;
            && NoZeros(c')
            && (forall u :: TcpCount(c', u) == TcpCount(c, u) + One(tcp && u == user.id))
            && (forall u, a :: RefCount(c', u, a) == RefCount(c, u, a) + One(u == user.id && a == ip))
  {
    var c' := Acquire(c, user, ip, tcp, enforce).value;
    assert ip in c'.ips[user.id];
  }

  lemma ReleaseCounts(c: Counts, user: int, ip: Ip, tcp: bool)
    requires NoZeros(c) && !GuardFires(c, user, ip, tcp)
    ensures var c' := Release(c, user, ip, tcp);
            && NoZeros(c')
            && (forall u :: TcpCount(c', u) == TcpCount(c, u) - One(tcp && u == user))
            && (forall u, a :: RefCount(c', u, a) == RefCount(c, u, a) - One(u == user && a == ip))
  {
    hide DropIp, DropTcp;
    var c' := Release(c, user, ip, tcp);
    if tcp {
      DropTcpCounts(c.tcp, user);
    }
    DropIpCounts(c.ips, user, ip);
    forall u
      ensures TcpCount(c', u) == TcpCount(c, u) - One(tcp && u == user)
    {
      assert TcpCount(c', u) == TcpCount(Counts(c'.tcp, map[]), u);
    }
    forall u, a
      ensures RefCount(c', u, a) == RefCount(c, u, a) - One(u == user && a == ip)
    {
      assert RefCount(c', u, a) == RefCount(Counts(map[], c'.ips), u, a);
    }
  }

  lemma DropTcpCounts(tcp: map<int, int>, user: int)
    requires NoZeros(Counts(tcp, map[])) && user in tcp
    ensures var tcp' := DropTcp(tcp, user);
            && NoZeros(Counts(tcp', map[]))
            && (forall u :: TcpCount(Counts(tcp', map[]), u) == TcpCount(Counts(tcp, map[]), u) - One(u == user))
  {
  }

  lemma DropIpCounts(ips: map<int, map<Ip, int>>, user: int, ip: Ip)
    requires NoZeros(Counts(map[], ips)) && user in ips && ip in ips[user]
    ensures var ips' := DropIp(ips, user, ip);
            && NoZeros(Counts(map[], ips'))
            && (forall u, a :: RefCount(Counts(map[], ips'), u, a) ==
                               RefCount(Counts(map[], ips), u, a) - One(u == user && a == ip))
  {
    var refs := ips[user];
    if refs[ip] > 1 {
      assert DropIp(ips, user, ip) == ips[user := refs[ip := refs[ip] - 1]];
    } else if refs - {ip} == map[] {
      assert DropIp(ips, user, ip) == ips - {user};
      assert forall a :: a in refs ==> a == ip by {
        assert forall a :: a in refs && a != ip ==> a in refs - {ip};
      }
    } else {
      assert DropIp(ips, user, ip) == ips[user := refs - {ip}];
    }
  }

  lemma TcpLeasesGrow(l: Leases, i: nat, lease: Lease, u: int)
    requires i !in l
    ensures i !in TcpLeases(l, u)
    ensures TcpLeases(l[i := lease], u) == if lease.tcp && lease.user == u then TcpLeases(l, u) + {i} else TcpLeases(l, u)
  {
  }

  lemma IpLeasesGrow(l: Leases, i: nat, lease: Lease, u: int, ip: Ip)
    requires i !in l
    ensures i !in IpLeases(l, u, ip)
    ensures IpLeases(l[i := lease], u, ip) ==
            if lease.user == u && lease.ip == ip then IpLeases(l, u, ip) + {i} else IpLeases(l, u, ip)
  {
  }

  lemma LeaseAdded(l: Leases, i: nat, lease: Lease, u: int, ip: Ip)
    requires i !in l
    ensures |TcpLeases(l[i := lease], u)| == |TcpLeases(l, u)| + One(lease.tcp && lease.user == u)
    ensures |IpLeases(l[i := lease], u, ip)| == |IpLeases(l, u, ip)| + One(lease.user == u && lease.ip == ip)
  {
    hide TcpLeases, IpLeases;
    TcpLeasesGrow(l, i, lease, u);
    IpLeasesGrow(l, i, lease, u, ip);
  }

  lemma LeaseRemoved(l: Leases, i: nat, u: int, ip: Ip)
    requires i in l
    ensures |TcpLeases(l - {i}, u)| == |TcpLeases(l, u)| - One(l[i].tcp && l[i].user == u)
    ensures |IpLeases(l - {i}, u, ip)| == |IpLeases(l, u, ip)| - One(l[i].user == u && l[i].ip == ip)
  {
    var rest := l - {i};
    assert rest[i := l[i]] == l;
    LeaseAdded(rest, i, l[i], u, ip);
  }

  /** An admission keeps the tally, with the new lease added. */
  lemma AcquireTallies(c: Counts, l: Leases, i: nat, user: UserConfig, ip: Ip, tcp: bool, enforce: bool)
    requires Tally(c, l) && i !in l && Acquire(c, user, ip, tcp, enforce).Ok?
    ensures Tally(Acquire(c, user, ip, tcp, enforce).value, l[i := Lease(user.id, ip, tcp)])
  {
    var c' := Acquire(c, user, ip, tcp, enforce).value;
    var lease := Lease(user.id, ip, tcp);
    AcquireCounts(c, user, ip, tcp, enforce);
    hide TcpLeases, IpLeases, Acquire, NoZeros, TcpCount, RefCount;
    forall u
      ensures TcpCount(c', u) == |TcpLeases(l[i := lease], u)|
    {
      LeaseAdded(l, i, lease, u, ip);
    }
    forall u, a
      ensures RefCount(c', u, a) == |IpLeases(l[i := lease], u, a)|
    {
      LeaseAdded(l, i, lease, u, a);
    }
  }

  /** A release of an outstanding lease keeps the tally without it, and no guard fires. */
  lemma ReleaseTallies(c: Counts, l: Leases, i: nat)
    requires Tally(c, l) && i in l
    ensures !GuardFires(c, l[i].user, l[i].ip, l[i].tcp)
    ensures Tally(Release(c, l[i].user, l[i].ip, l[i].tcp), l - {i})
  {
    var lease, rest := l[i], l - {i};
    var c' := Release(c, lease.user, lease.ip, lease.tcp);
    OutstandingCounted(c, l, i);
    ReleaseCounts(c, lease.user, lease.ip, lease.tcp);
    hide TcpLeases, IpLeases, Release, NoZeros, TcpCount, RefCount, GuardFires;
    forall u
      ensures TcpCount(c', u) == |TcpLeases(rest, u)|
    {
      LeaseRemoved(l, i, u, lease.ip);
    }
    forall u, a
      ensures RefCount(c', u, a) == |IpLeases(rest, u, a)|
    {
      LeaseRemoved(l, i, u, a);
    }
  }

  lemma OutstandingCounted(c: Counts, l: Leases, i: nat)
    requires Tally(c, l) && i in l
    ensures !GuardFires(c, l[i].user, l[i].ip, l[i].tcp)
  {
    assert i in IpLeases(l, l[i].user, l[i].ip);
    assert l[i].tcp ==> i in TcpLeases(l, l[i].user);
    assert RefCount(c, l[i].user, l[i].ip) > 0;
  }

  /** With no lease outstanding both maps are empty. */
  lemma NoLeasesNoCounts(c: Counts)
    requires Tally(c, map[])
    ensures c == NO_COUNTS
  {
    forall u
      ensures u !in c.tcp
    {
      assert TcpLeases(map[], u) == {};
    }
    forall u, ip
      ensures ip !in Refs(c, u)
    {
      assert IpLeases(map[], u, ip) == {} && RefCount(c, u, ip) == 0;
    }
    forall u
      ensures u !in c.ips
    {
      assert Refs(c, u) == map[];
    }
  }

  /** The addresses a user is connected from, according to the leases. */
  function Devices(l: Leases, user: int): set<Ip> {
    set i | i in l && l[i].user == user :: l[i].ip
  }

  lemma RefsAreDevices(c: Counts, l: Leases, user: int)
    requires Tally(c, l)
    ensures Refs(c, user).Keys == Devices(l, user)
    ensures |Refs(c, user)| == |Devices(l, user)|
  {
    forall ip
      ensures ip in Refs(c, user) <==> ip in Devices(l, user)
    {
      assert RefCount(c, user, ip) == |IpLeases(l, user, ip)|;
      if ip in Devices(l, user) {
        var i :| i in l && l[i].user == user && l[i].ip == ip;
        assert i in IpLeases(l, user, ip);
      } else {
        assert IpLeases(l, user, ip) == {};
      }
    }
  }

  // ---------- what the limits mean for the leases ----------

  /** Exactly when a request is refused, in terms of the leases outstanding. */
  lemma RefusedIff(c: Counts, l: Leases, user: UserConfig, ip: Ip, tcp: bool, enforce: bool)
    requires Tally(c, l)
    ensures Acquire(c, user, ip, tcp, enforce) == Err(TcpLimitReached) <==>
            tcp && user.tcpConnLimit > 0 && |TcpLeases(l, user.id)| >= user.tcpConnLimit
    ensures Acquire(c, user, ip, tcp, enforce) == Err(DeviceLimitReached) <==>
            && !(tcp && user.tcpConnLimit > 0 && |TcpLeases(l, user.id)| >= user.tcpConnLimit)
            && enforce && user.deviceLimit > 0
            && ip !in Devices(l, user.id) && |Devices(l, user.id)| >= user.deviceLimit
  {
    RefsAreDevices(c, l, user.id);
    hide Devices, TcpLeases;
  }

  /** What an admission leaves: its own limits respected at that moment, whatever limits were in force
      before. */
  lemma AdmittedWithinLimits(c: Counts, l: Leases, i: nat, user: UserConfig, ip: Ip, tcp: bool, enforce: bool)
    requires Tally(c, l) && i !in l && Acquire(c, user, ip, tcp, enforce).Ok?
    ensures var l' := l[i := Lease(user.id, ip, tcp)];
            && (tcp && user.tcpConnLimit > 0 ==> |TcpLeases(l', user.id)| <= user.tcpConnLimit)
            && (enforce && user.deviceLimit > 0 && ip !in Devices(l, user.id) ==>
                  |Devices(l', user.id)| <= user.deviceLimit)
            && (ip in Devices(l, user.id) ==> Devices(l', user.id) == Devices(l, user.id))
  {
    var lease := Lease(user.id, ip, tcp);
    RefusedIff(c, l, user, ip, tcp, enforce);
    LeaseAdded(l, i, lease, user.id, ip);
    DevicesGrow(l, i, lease, user.id);
    hide Devices, TcpLeases, Acquire;
  }

  lemma DevicesGrow(l: Leases, i: nat, lease: Lease, u: int)
    requires i !in l
    ensures Devices(l[i := lease], u) == (if lease.user == u then Devices(l, u) + {lease.ip} else Devices(l, u))
  {
    var l' := l[i := lease];
    forall ip
      ensures ip in Devices(l', u) <==> ip in Devices(l, u) || (lease.user == u && ip == lease.ip)
    {
      if ip in Devices(l, u) {
        var j :| j in l && l[j].user == u && l[j].ip == ip;
        assert l'[j] == l[j];
      }
      if lease.user == u && ip == lease.ip {
        assert l'[i] == lease;
      }
    }
  }

  lemma DevicesShrink(l: Leases, i: nat, u: int)
    ensures Devices(l - {i}, u) <= Devices(l, u)
    ensures TcpLeases(l - {i}, u) <= TcpLeases(l, u)
  {
  }
}
