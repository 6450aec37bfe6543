/** The objects behind a run of Sessions: the limiter, the release closures, the tracker, and the table of
    UDP sessions (getOrCreateUDPSession, serveUDPSession's exit and closeUDPSessions in service.go).  Each
    method takes the run one event further. */
module UdpTable {
  import opened Bytes
  import opened Addresses
  import opened Users
  import opened Limiter
  import Limits
  import opened Sessions
  import opened Online

  /** udpSession; `id` names it in the run. */
  class UdpSession {
    ghost const id: nat
    const key: Key
    const done: ReleaseFunc
    const limit: RateLimiter?
    var closed: bool // its socket

    constructor (ghost id: nat, key: Key, done: ReleaseFunc, limit: RateLimiter?)
      ensures this.id == id && this.key == key && this.done == done && this.limit == limit && !closed
    {
      this.id, this.key, this.done, this.limit, this.closed := id, key, done, limit, false;
    }
  }

  datatype SessionError = ListenFailed | Refused(limit: Limits.LimitError)

  /** The tracker's time to live, five minutes, in milliseconds. */
  const TTL: int := 5 * 60 * 1000

  /** The part of Service that its handlers work on. */
  class Handlers {
    const limits: SessionLimiter
    const online: OnlineTracker
    var udpSessions: map<Key, UdpSession>

    ghost var run: State
    ghost var closures: map<nat, ReleaseFunc> // of every holder, past ones included

    ghost predicate Consistent()
      reads this, limits, limits.made, closures.Values, online
    {
      && Linked(limits, limits.Counts(), limits.made, run, closures, udpSessions)
      && FlagsMatch(closures, run.holders)
      && limits.Valid()
      && online.Valid() && online.log == run.seen
    }

    /** This object is that session of the run. */
    ghost predicate IsSessionObject(s: UdpSession)
      reads this, limits
    {
      && (s.limit != null ==> s.limit in limits.made)
      && IsSession(run, s.id) && run.holders[s.id].kind.key == s.key && s.id in closures && closures[s.id] == s.done
    }

    /** The rate limiter of a user, if it has one. */
    function LimiterOf(user: int): RateLimiter?
      reads limits
    {
      if user in limits.speedLimiter then limits.speedLimiter[user] else null
    }

    constructor ()
      ensures Consistent() && run == INIT && fresh(limits) && fresh(online) && online.clock == 0 && online.ttl == TTL
    {
      limits := new SessionLimiter();
      online := new OnlineTracker(TTL);
      udpSessions, run, closures := map[], INIT, map[];
      new;
      InitValid();
    }

    /** handleTCP's AcquireTCP. */
    method AcquireTCP(user: UserConfig, ip: Ip, enforce: bool) returns (r: Result<ReleaseFunc, Limits.LimitError>)
      requires Consistent()
      modifies this`run, this`closures, limits`tcpCounts, limits`ipRefs
      ensures Consistent() && run == Next(old(run), TcpOpen(user, ip, enforce))
      ensures r.Ok? <==> run.next == old(run).next + 1
      ensures match Limits.Acquire(old(run).counts, user, ip, true, enforce) case Ok(_) => r.Ok? case Err(e) => r == Err(e)
      ensures r.Ok? ==> old(run).next in closures && r.value == closures[old(run).next]
      ensures r.Ok? ==> run.tasks == old(run).tasks + [Task(user.id, ip, false)]
    {
      hide Linked, FlagsMatch, Limits.Acquire, Next, SessionLimiter.Valid, OnlineTracker.Valid;
      LinkedValid(limits, limits.Counts(), limits.made, run, closures, udpSessions);
      TcpOpenStep(run, user, ip, enforce);
      r := limits.Acquire(user, ip, true, enforce);
      if r.Ok? {
        TcpOpenLinked(limits, limits.made, run, closures, udpSessions, user, ip, enforce, r.value);
        NewFlag(closures, run.holders, run.next, r.value, Holder(Handler, Limits.Lease(user.id, ip, true), false, false, false));
        closures := closures[run.next := r.value];
      }
      run := Next(run, TcpOpen(user, ip, enforce));
    }

    /** getOrCreateUDPSession: `socket` says whether net.ListenPacket succeeds. */
    method GetOrCreateUDPSession(user: UserConfig, identity: ClientIdentity, enforce: bool, socket: bool)
      returns (r: Result<UdpSession, SessionError>)
      requires Consistent()
      modifies this, limits`tcpCounts, limits`ipRefs
      ensures Consistent()
      ensures run == Next(old(run), UdpPacket(user, identity.transportAddr, identity.realAddr, enforce, socket))
      ensures var key := Key(user.id, identity.transportAddr, identity.realAddr);
              if r.Ok? then IsSessionObject(r.value) && key in udpSessions && udpSessions[key] == r.value
              else key !in udpSessions && run == old(run)
      ensures r.Ok? ==> run.tasks == old(run).tasks + [Task(user.id, RealIP(identity), false)]
      ensures var key := Key(user.id, identity.transportAddr, identity.realAddr);
              if key in old(udpSessions) then r == Ok(old(udpSessions)[key])
              else if !socket then r == Err(ListenFailed)
              else match Limits.Acquire(old(run).counts, user, RealIP(identity), false, enforce)
                   case Ok(_) => r.Ok? case Err(e) => r == Err(Refused(e))
      ensures r.Ok? && r.value !in old(udpSessions.Values) ==> r.value.limit == LimiterOf(user.id)
    {
      hide Linked, FlagsMatch, Limits.Acquire, Next, RealIP, SessionLimiter.Valid, OnlineTracker.Valid;
      LinkedValid(limits, limits.Counts(), limits.made, run, closures, udpSessions);
      ghost var e := UdpPacket(user, identity.transportAddr, identity.realAddr, enforce, socket);
      UdpPacketStep(run, user, identity, enforce, socket);
      var key := Key(user.id, identity.transportAddr, identity.realAddr);
      TableHolds(limits, limits.Counts(), limits.made, run, closures, udpSessions, key);
      if key in udpSessions {
        FoundLinked(limits, limits.Counts(), limits.made, run, closures, udpSessions, e);
        run := Next(run, e);
        return Ok(udpSessions[key]);
      }
      if !socket {
        return Err(ListenFailed);
      }
      r := NewUDPSession(key, user, identity, enforce);
    }

    /** The second half of getOrCreateUDPSession, once there is a socket. */
    method NewUDPSession(key: Key, user: UserConfig, identity: ClientIdentity, enforce: bool)
      returns (r: Result<UdpSession, SessionError>)
      requires Consistent() && key == Key(user.id, identity.transportAddr, identity.realAddr) && key !in udpSessions
      modifies this, limits`tcpCounts, limits`ipRefs
      ensures Consistent() && run == Next(old(run), UdpPacket(user, identity.transportAddr, identity.realAddr, enforce, true))
      ensures if r.Ok? then IsSessionObject(r.value) && key in udpSessions && udpSessions[key] == r.value
              else key !in udpSessions && run == old(run)
      ensures r.Ok? ==> run.tasks == old(run).tasks + [Task(user.id, RealIP(identity), false)]
      ensures match Limits.Acquire(old(run).counts, user, RealIP(identity), false, enforce)
              case Ok(_) => r.Ok? && r.value.limit == LimiterOf(user.id)
              case Err(e) => r == Err(Refused(e))
    {
      hide Linked, FlagsMatch, Limits.Acquire, Next, RealIP, SessionLimiter.Valid, OnlineTracker.Valid;
      LinkedValid(limits, limits.Counts(), limits.made, run, closures, udpSessions);
      UdpPacketStep(run, user, identity, enforce, true);
      TableHolds(limits, limits.Counts(), limits.made, run, closures, udpSessions, key);
      var done := limits.Acquire(user, RealIP(identity), false, enforce);
      if done.Err? {
        return Err(Refused(done.error));
      }
      var limit := limits.GetSpeedLimiter(user.id);
      var session := Enter(key, user, identity, enforce, done.value, limit);
      r := Ok(session);
    }

    /** The session is made and entered in the table, with the lease it has just been granted. */
    method Enter(key: Key, ghost user: UserConfig, ghost identity: ClientIdentity, ghost enforce: bool, done: ReleaseFunc,
                 limit: RateLimiter?)
      returns (session: UdpSession)
      requires limits.Valid() && online.Valid() && online.log == run.seen && FlagsMatch(closures, run.holders)
      requires Linked(limits, run.counts, limits.made, run, closures, udpSessions)
      requires Limits.Acquire(run.counts, user, RealIP(identity), false, enforce) == Ok(limits.Counts())
      requires done.limiter == limits && done.lease == Limits.Lease(user.id, RealIP(identity), false)
      requires done !in closures.Values && !done.done && (limit != null ==> limit in limits.made)
      requires key == Key(user.id, identity.transportAddr, identity.realAddr) && key !in run.table
      modifies this
      ensures Consistent() && run == Next(old(run), UdpPacket(user, identity.transportAddr, identity.realAddr, enforce, true))
      ensures IsSessionObject(session) && key in udpSessions && udpSessions[key] == session
      ensures run.tasks == old(run).tasks + [Task(user.id, RealIP(identity), false)] && session.limit == limit
    {
      hide Linked, FlagsMatch, Limits.Acquire, Next, RealIP, SessionLimiter.Valid, OnlineTracker.Valid;
      LinkedValid(limits, run.counts, limits.made, run, closures, udpSessions);
      UdpPacketStep(run, user, identity, enforce, true);
      session := new UdpSession(run.next, key, done, limit);
      NewSessionLinked(limits, limits.made, run, closures, udpSessions, user, identity, enforce, session);
      NewFlag(closures, run.holders, run.next, done,
              Holder(Session(key), Limits.Lease(user.id, RealIP(identity), false), false, false, false));
      closures := closures[run.next := done];
      udpSessions := udpSessions[key := session];
      run := Next(run, UdpPacket(user, identity.transportAddr, identity.realAddr, enforce, true));
    }

    /** The call of seen that follows an admission: `task` is the caller, and reports the user and the
        address it was admitted with. */
    method Seen(user: UserConfig, ip: Ip, now: int, ghost task: nat)
      requires Consistent() && online.clock <= now
      requires task < |run.tasks| && run.tasks[task] == Task(user.id, ip, false)
      modifies this`run, online
      ensures Consistent() && run == Next(old(run), See(task, now)) && online.clock == now
      ensures online.log == old(online.log) + [Sighting(user.id, ip, now)]
    {
      hide Linked, FlagsMatch, SessionLimiter.Valid, OnlineTracker.Valid;
      SeeLinked(limits, limits.Counts(), limits.made, run, closures, udpSessions, See(task, now));
      online.Seen(user.id, ip, now);
      run := Next(run, See(task, now));
    }

    /** The admission steps of handleTCP. */
    method HandleTCP(user: UserConfig, identity: ClientIdentity, enforce: bool, now: int)
      returns (r: Result<ReleaseFunc, Limits.LimitError>)
      requires Consistent() && online.clock <= now
      modifies this`run, this`closures, limits`tcpCounts, limits`ipRefs, online
      ensures Consistent()
      ensures var open := TcpOpen(user, RealIP(identity), enforce);
              run == if r.Err? then Next(old(run), open) else Next(Next(old(run), open), See(|old(run).tasks|, now))
      ensures online.log == old(online.log) + if r.Ok? then [Sighting(user.id, RealIP(identity), now)] else []
    {
      hide Consistent, Next, RealIP;
      var clientIP := RealIP(identity);
      r := AcquireTCP(user, clientIP, enforce);
      if r.Ok? {
        Seen(user, clientIP, now, |old(run).tasks|);
      }
    }

    /** ... and of handleUDP: the packet may find the session another one made. */
    method HandleUDP(user: UserConfig, identity: ClientIdentity, enforce: bool, socket: bool, now: int)
      returns (r: Result<UdpSession, SessionError>)
      requires Consistent() && online.clock <= now
      modifies this, limits`tcpCounts, limits`ipRefs, online
      ensures Consistent()
      ensures var packet := UdpPacket(user, identity.transportAddr, identity.realAddr, enforce, socket);
              run == if r.Err? then Next(old(run), packet) else Next(Next(old(run), packet), See(|old(run).tasks|, now))
      ensures online.log == old(online.log) + if r.Ok? then [Sighting(user.id, RealIP(identity), now)] else []
    {
      hide Consistent, Next, RealIP;
      r := GetOrCreateUDPSession(user, identity, enforce, socket);
      if r.Ok? {
        Seen(user, RealIP(identity), now, |old(run).tasks|);
      }
    }

    /** What Snapshot reports as alive: exactly who was seen within the time to live, and nobody who had
        not been granted a lease for that address. */
    method AliveIPs(now: int) returns (out: seq<AliveIP>)
      requires Consistent() && online.clock <= now
      modifies online
      ensures Consistent() && online.clock == now
      ensures forall user, ip :: Lists(out, user, ip) <==> SeenLately(online.log, online.ttl, now, user, ip)
      ensures forall user, ip :: Lists(out, user, ip) ==> (user, ip) in run.granted
    {
      hide Linked, FlagsMatch, SessionLimiter.Valid, OnlineTracker.Valid, IsAlive, SeenLately, Lists, Limits.Tally, TableValid;
      LinkedValid(limits, limits.Counts(), limits.made, run, closures, udpSessions);
      out := online.Snapshot(now);
      forall user, ip | Lists(out, user, ip)
        ensures (user, ip) in run.granted
      {
        ReportedWereGranted(run, online.ttl, now, user, ip);
      }
    }

    /** Any holder's release closure: a handler's, or a session's done(). */
    method Finish(release: ReleaseFunc, ghost i: nat)
      requires Consistent() && i in closures && closures[i] == release
      modifies this`run, release, limits`tcpCounts, limits`ipRefs
      ensures Consistent() && run == Next(old(run), Done(i)) && release.done
    {
      hide Linked, Limits.Release, Next, SessionLimiter.Valid, OnlineTracker.Valid;
      DoneLinked(limits, limits.Counts(), limits.made, run, closures, udpSessions, i);
      Fire(release, i);
      run := Next(run, Done(i));
    }

    method Fire(release: ReleaseFunc, ghost i: nat)
      requires i in closures && closures[i] == release && release.limiter == limits
      requires forall j :: j in closures && j != i ==> closures[j] != release
      modifies release, limits`tcpCounts, limits`ipRefs
      ensures forall j :: j in closures ==> closures[j].done == (j == i || old(closures[j].done))
      ensures limits.Counts() ==
              if old(release.done) then old(limits.Counts())
              else Limits.Release(old(limits.Counts()), release.lease.user, release.lease.ip, release.lease.tcp)
    {
      release.Call();
    }

    /** The deferred exit of serveUDPSession, which runs once, after done(): close the socket, delete by key. */
    method RemoveSession(session: UdpSession)
      requires Consistent() && IsSessionObject(session) && session.done.done && !run.holders[session.id].removed
      modifies this`udpSessions, this`run, session
      ensures Consistent() && session.closed
      ensures run == Next(old(run), Remove(session.id)) && run.holders[session.id].removed
    {
      hide Linked, Next, SessionLimiter.Valid, OnlineTracker.Valid;
      RemoveLinked(limits, limits.Counts(), limits.made, run, closures, udpSessions, session.id);
      session.closed := true;
      udpSessions := udpSessions - {session.key};
      run := Next(run, Remove(session.id));
    }

    /** closeUDPSessions: every session in the table is closed and taken out. */
    method CloseUDPSessions()
      requires Consistent()
      modifies this`udpSessions, this`run, udpSessions.Values
      ensures Consistent() && run == Next(old(run), CloseAll)
      ensures udpSessions == map[] && forall s :: s in old(udpSessions).Values ==> s.closed
    {
      hide Linked, Next, SessionLimiter.Valid, OnlineTracker.Valid;
      CloseAllLinked(limits, limits.Counts(), limits.made, run, closures, udpSessions);
      CloseEach();
      run := Next(run, CloseAll);
    }

    /** SyncUsers, which leaves the sessions and the limiters they hold alone. */
    method SyncUsers(users: seq<UserConfig>)
      requires Consistent()
      modifies limits`speedLimiter, limits`made, limits.speedLimiter.Values
      ensures Consistent() && limits.Serves(users) && old(limits.made) <= limits.made
    {
      hide Linked, OnlineTracker.Valid, SessionLimiter.Valid, SessionLimiter.Serves;
      limits.SyncUsers(users);
      assert limits.Counts() == old(limits.Counts());
      MoreLimits(limits, limits.Counts(), old(limits.made), limits.made, run, closures, udpSessions);
    }

    method CloseEach()
      modifies this`udpSessions, udpSessions.Values
      ensures udpSessions == map[] && forall s :: s in old(udpSessions).Values ==> s.closed
    {
      ghost var was := udpSessions;
      while exists k :: k in udpSessions
        invariant forall k :: k in udpSessions ==> k in was && udpSessions[k] == was[k]
        invariant forall k :: k in was && k !in udpSessions ==> was[k].closed
        decreases udpSessions.Keys
      {
        var k :| k in udpSessions;
        udpSessions[k].closed := true;
        udpSessions := udpSessions - {k};
      }
    }
  }

  /** The objects are those of the run. */
  ghost predicate Linked(limits: SessionLimiter, counts: Limits.Counts, made: set<RateLimiter>,
                         st: State, closures: map<nat, ReleaseFunc>, t: map<Key, UdpSession>)
  {
    && counts == st.counts && Sessions.Valid(st)
    && ClosuresOf(limits, closures, st.holders)
    && TableMatches(t, st.table, closures)
    && LimitsMade(t, made)
  }

  /** A session keeps the rate limiter it was given, one that was installed when it was made. */
  ghost predicate LimitsMade(t: map<Key, UdpSession>, made: set<RateLimiter>) {
    forall k :: k in t && t[k].limit != null ==> t[k].limit in made
  }

  /** The closures are those of the holders of the run, each its own. */
  ghost predicate ClosuresOf(limits: SessionLimiter, closures: map<nat, ReleaseFunc>, holders: map<nat, Holder>) {
    && (forall i :: i in closures <==> i in holders)
    && (forall i :: i in closures ==> closures[i].limiter == limits && closures[i].lease == holders[i].lease)
    && (forall i, j :: i in closures && j in closures && i != j ==> closures[i] != closures[j])
  }

  /** A closure has been called exactly when its holder's release has run. */
  ghost predicate FlagsMatch(closures: map<nat, ReleaseFunc>, holders: map<nat, Holder>)
    reads closures.Values
  {
    forall i :: i in closures ==> i in holders && closures[i].done == holders[i].released
  }

  lemma NewFlag(closures: map<nat, ReleaseFunc>, holders: map<nat, Holder>, i: nat, release: ReleaseFunc, h: Holder)
    requires FlagsMatch(closures, holders) && release.done == h.released
    ensures FlagsMatch(closures[i := release], holders[i := h])
  {
  }

  /** The table holds the objects of the run's table. */
  ghost predicate TableMatches(t: map<Key, UdpSession>, table: map<Key, nat>, closures: map<nat, ReleaseFunc>) {
    && (forall k :: k in t <==> k in table)
    && forall k :: k in t ==>
         && t[k].id == table[k] && t[k].key == k
         && t[k].id in closures && t[k].done == closures[t[k].id]
  }

  lemma NewClosure(limits: SessionLimiter, closures: map<nat, ReleaseFunc>, holders: map<nat, Holder>,
                   i: nat, release: ReleaseFunc, h: Holder)
    requires ClosuresOf(limits, closures, holders) && i !in holders
    requires release.limiter == limits && release.lease == h.lease && release !in closures.Values
    ensures ClosuresOf(limits, closures[i := release], holders[i := h]) && i !in closures
  {
    assert forall j :: j in closures ==> closures[j] in closures.Values;
  }

  lemma OwnClosure(limits: SessionLimiter, closures: map<nat, ReleaseFunc>, holders: map<nat, Holder>, i: nat)
    requires ClosuresOf(limits, closures, holders) && i in closures
    ensures i in holders && closures[i].limiter == limits && closures[i].lease == holders[i].lease
    ensures forall j :: j in closures ==> j in holders && (j != i ==> closures[j] != closures[i])
  {
  }

  lemma SameLeases(limits: SessionLimiter, closures: map<nat, ReleaseFunc>, a: map<nat, Holder>, b: map<nat, Holder>)
    requires ClosuresOf(limits, closures, a)
    requires forall i :: i in a <==> i in b
    requires forall i :: i in a ==> a[i].lease == b[i].lease
    ensures ClosuresOf(limits, closures, b)
  {
  }

  lemma MoreClosures(t: map<Key, UdpSession>, table: map<Key, nat>, closures: map<nat, ReleaseFunc>, i: nat, release: ReleaseFunc)
    requires TableMatches(t, table, closures) && i !in closures
    ensures TableMatches(t, table, closures[i := release])
  {
  }

  lemma NothingMatches(closures: map<nat, ReleaseFunc>)
    ensures TableMatches(map[], map[], closures)
  {
  }

  lemma NewSession(t: map<Key, UdpSession>, table: map<Key, nat>, closures: map<nat, ReleaseFunc>, s: UdpSession)
    requires TableMatches(t, table, closures) && s.id in closures && s.done == closures[s.id]
    ensures TableMatches(t[s.key := s], table[s.key := s.id], closures)
  {
  }

  lemma SessionGone(t: map<Key, UdpSession>, table: map<Key, nat>, closures: map<nat, ReleaseFunc>, k: Key)
    requires TableMatches(t, table, closures)
    ensures TableMatches(t - {k}, table - {k}, closures)
  {
  }

  lemma LinkedValid(limits: SessionLimiter, counts: Limits.Counts, made: set<RateLimiter>,
                    st: State, closures: map<nat, ReleaseFunc>, t: map<Key, UdpSession>)
    requires Linked(limits, counts, made, st, closures, t)
    ensures counts == st.counts && Sessions.Valid(st)
    ensures forall i :: i in closures ==> i in st.holders
  {
  }

  lemma TableHolds(limits: SessionLimiter, counts: Limits.Counts, made: set<RateLimiter>,
                   st: State, closures: map<nat, ReleaseFunc>, t: map<Key, UdpSession>, k: Key)
    requires Linked(limits, counts, made, st, closures, t)
    ensures k in t <==> k in st.table
    ensures k in t ==> && IsSession(st, t[k].id) && st.holders[t[k].id].kind.key == k == t[k].key
                       && t[k].id in closures && closures[t[k].id] == t[k].done
                       && (t[k].limit != null ==> t[k].limit in made)
  {
  }

  lemma MoreLimits(limits: SessionLimiter, counts: Limits.Counts, made: set<RateLimiter>, more: set<RateLimiter>,
                   st: State, closures: map<nat, ReleaseFunc>, t: map<Key, UdpSession>)
    requires Linked(limits, counts, made, st, closures, t) && made <= more
    ensures Linked(limits, counts, more, st, closures, t)
  {
  }

  /** A session's own rate limiter admits any datagram, even after its user's limit was taken away. */
  lemma SessionNeverRefused(h: Handlers, s: UdpSession, size: int)
    requires h.Consistent() && h.IsSessionObject(s) && size <= 64 * 1024
    ensures WaitForLimit(s.limit, size)
  {
    hide Linked, FlagsMatch;
    if s.limit != null {
      NeverRefused(h.limits, s.limit, size);
    }
  }

  lemma TcpOpenLinked(limits: SessionLimiter, made: set<RateLimiter>, st: State, closures: map<nat, ReleaseFunc>,
                      t: map<Key, UdpSession>, user: UserConfig, ip: Ip, enforce: bool, release: ReleaseFunc)
    requires Linked(limits, st.counts, made, st, closures, t)
    requires Limits.Acquire(st.counts, user, ip, true, enforce).Ok?
    requires release.limiter == limits && release.lease == Limits.Lease(user.id, ip, true) && release !in closures.Values
    ensures Linked(limits, Limits.Acquire(st.counts, user, ip, true, enforce).value, made, Next(st, TcpOpen(user, ip, enforce)),
                   closures[st.next := release], t)
  {
    hide Sessions.Valid, Limits.Acquire, Next, ClosuresOf, TableMatches, LimitsMade;
    StepKeeps(st, TcpOpen(user, ip, enforce));
    TcpOpenStep(st, user, ip, enforce);
    NewClosure(limits, closures, st.holders, st.next, release,
               Holder(Handler, Limits.Lease(user.id, ip, true), false, false, false));
    MoreClosures(t, st.table, closures, st.next, release);
  }

  lemma FoundLinked(limits: SessionLimiter, counts: Limits.Counts, made: set<RateLimiter>,
                    st: State, closures: map<nat, ReleaseFunc>, t: map<Key, UdpSession>, e: Event)
    requires Linked(limits, counts, made, st, closures, t)
    requires e.UdpPacket? && Key(e.user.id, e.transportAddr, e.realAddr) in st.table
    ensures Linked(limits, counts, made, Next(st, e), closures, t)
  {
    hide Sessions.Valid, ClosuresOf, TableMatches, LimitsMade;
    StepKeeps(st, e);
  }

  lemma NewSessionLinked(limits: SessionLimiter, made: set<RateLimiter>, st: State, closures: map<nat, ReleaseFunc>,
                         t: map<Key, UdpSession>, user: UserConfig, id: ClientIdentity, enforce: bool, s: UdpSession)
    requires Linked(limits, st.counts, made, st, closures, t)
    requires s.key == Key(user.id, id.transportAddr, id.realAddr) && s.key !in st.table && s.id == st.next
    requires Limits.Acquire(st.counts, user, RealIP(id), false, enforce).Ok?
    requires s.done.limiter == limits && s.done.lease == Limits.Lease(user.id, RealIP(id), false) && s.done !in closures.Values
    requires s.limit != null ==> s.limit in made
    ensures Linked(limits, Limits.Acquire(st.counts, user, RealIP(id), false, enforce).value, made,
                   Next(st, UdpPacket(user, id.transportAddr, id.realAddr, enforce, true)),
                   closures[st.next := s.done], t[s.key := s])
  {
    hide Sessions.Valid, Limits.Acquire, Next, RealIP, ClosuresOf, TableMatches;
    StepKeeps(st, UdpPacket(user, id.transportAddr, id.realAddr, enforce, true));
    UdpPacketStep(st, user, id, enforce, true);
    NewClosure(limits, closures, st.holders, st.next, s.done,
               Holder(Session(s.key), Limits.Lease(user.id, RealIP(id), false), false, false, false));
    MoreClosures(t, st.table, closures, st.next, s.done);
    NewSession(t, st.table, closures[st.next := s.done], s);
  }

  lemma SeeLinked(limits: SessionLimiter, counts: Limits.Counts, made: set<RateLimiter>,
                  st: State, closures: map<nat, ReleaseFunc>, t: map<Key, UdpSession>, e: Event)
    requires Linked(limits, counts, made, st, closures, t) && e.See?
    ensures Linked(limits, counts, made, Next(st, e), closures, t) && Next(st, e).holders == st.holders
  {
    hide Sessions.Valid, ClosuresOf, TableMatches, LimitsMade;
    StepKeeps(st, e);
  }

  lemma DoneLinked(limits: SessionLimiter, counts: Limits.Counts, made: set<RateLimiter>,
                   st: State, closures: map<nat, ReleaseFunc>, t: map<Key, UdpSession>, i: nat)
    requires Linked(limits, counts, made, st, closures, t) && i in closures
    ensures i in st.holders && closures[i].limiter == limits
    ensures forall j :: j in closures ==> j in st.holders && (j != i ==> closures[j] != closures[i])
    ensures var h, st' := st.holders[i], Next(st, Done(i));
            var after := if h.released then counts
                         else Limits.Release(counts, closures[i].lease.user, closures[i].lease.ip, closures[i].lease.tcp);
            && Linked(limits, after, made, st', closures, t) && st'.seen == st.seen
            && st'.holders == st.holders[i := h.(released := true)]
  {
    hide Sessions.Valid, Limits.Release, Next, ClosuresOf, TableMatches, LimitsMade;
    StepKeeps(st, Done(i));
    OwnClosure(limits, closures, st.holders, i);
    DoneStep(st, i);
    SameLeases(limits, closures, st.holders, Next(st, Done(i)).holders);
  }

  lemma RemoveLinked(limits: SessionLimiter, counts: Limits.Counts, made: set<RateLimiter>,
                     st: State, closures: map<nat, ReleaseFunc>, t: map<Key, UdpSession>, i: nat)
    requires Linked(limits, counts, made, st, closures, t) && IsSession(st, i) && st.holders[i].released && !st.holders[i].removed
    ensures var st' := Next(st, Remove(i));
            && Linked(limits, counts, made, st', closures, t - {st.holders[i].kind.key}) && st'.seen == st.seen
            && st'.holders == st.holders[i := st.holders[i].(removed := true)]
  {
    hide Sessions.Valid, Next, ClosuresOf, TableMatches;
    StepKeeps(st, Remove(i));
    RemoveStep(st, i);
    SessionGone(t, st.table, closures, st.holders[i].kind.key);
    SameLeases(limits, closures, st.holders, Next(st, Remove(i)).holders);
  }

  lemma CloseAllLinked(limits: SessionLimiter, counts: Limits.Counts, made: set<RateLimiter>,
                       st: State, closures: map<nat, ReleaseFunc>, t: map<Key, UdpSession>)
    requires Linked(limits, counts, made, st, closures, t)
    ensures var st' := Next(st, CloseAll);
            && Linked(limits, counts, made, st', closures, map[]) && st'.seen == st.seen
            && forall i :: i in closures ==> i in st.holders && i in st'.holders && st'.holders[i].released == st.holders[i].released
  {
    hide Sessions.Valid, Next, ClosuresOf, TableMatches;
    StepKeeps(st, CloseAll);
    CloseAllStep(st);
    NothingMatches(closures);
    SameLeases(limits, closures, st.holders, Next(st, CloseAll).holders);
    assert ClosuresOf(limits, closures, st.holders) ==> forall i :: i in closures ==> i in st.holders by {
      LinkedValid(limits, counts, made, st, closures, t);
    }
  }

  // ---------- the steps of a run, field by field ----------

  lemma TcpOpenStep(st: State, user: UserConfig, ip: Ip, enforce: bool)
    requires Sessions.Valid(st)
    ensures st.next !in st.holders
    ensures var r, st' := Limits.Acquire(st.counts, user, ip, true, enforce), Next(st, TcpOpen(user, ip, enforce));
            if r.Err? then st' == st
            else && st'.tasks == st.tasks + [Task(user.id, ip, false)] && st'.seen == st.seen
                 && st'.counts == r.value && st'.next == st.next + 1 && st'.table == st.table
                 && st'.holders == st.holders[st.next := Holder(Handler, Limits.Lease(user.id, ip, true), false, false, false)]
  {
    hide Limits.Acquire;
    FreshIsNew(st);
  }

  lemma UdpPacketStep(st: State, user: UserConfig, id: ClientIdentity, enforce: bool, socket: bool)
    requires Sessions.Valid(st)
    ensures st.next !in st.holders
    ensures var key := Key(user.id, id.transportAddr, id.realAddr);
            var r := Limits.Acquire(st.counts, user, RealIP(id), false, enforce);
            var st' := Next(st, UdpPacket(user, id.transportAddr, id.realAddr, enforce, socket));
            if key in st.table then st' == Begin(st, user.id, RealIP(id))
            else if !socket || r.Err? then st' == st
            else && st'.tasks == st.tasks + [Task(user.id, RealIP(id), false)] && st'.seen == st.seen
                 && st'.counts == r.value && st'.next == st.next + 1 && st'.table == st.table[key := st.next]
                 && st'.holders == st.holders[st.next := Holder(Session(key), Limits.Lease(user.id, RealIP(id), false), false, false, false)]
  {
    hide Limits.Acquire, RealIP;
    FreshIsNew(st);
    assert ClientIdentity(id.transportAddr, id.realAddr) == id;
  }

  lemma DoneStep(st: State, i: nat)
    requires i in st.holders
    ensures var h, st' := st.holders[i], Next(st, Done(i));
            if h.released then st' == st
            else && st'.counts == Limits.Release(st.counts, h.lease.user, h.lease.ip, h.lease.tcp)
                 && st'.holders == st.holders[i := h.(released := true)] && st'.table == st.table && st'.seen == st.seen
  {
    hide Limits.Release;
  }

  lemma RemoveStep(st: State, i: nat)
    requires IsSession(st, i) && st.holders[i].released && !st.holders[i].removed
    ensures Next(st, Remove(i)) ==
            st.(table := st.table - {st.holders[i].kind.key}, holders := st.holders[i := st.holders[i].(removed := true)])
  {
  }

  lemma CloseAllStep(st: State)
    ensures var st' := Next(st, CloseAll);
            && st'.counts == st.counts && st'.table == map[] && st'.seen == st.seen
            && (forall i :: i in st'.holders <==> i in st.holders)
            && forall i :: i in st.holders ==> && st'.holders[i].lease == st.holders[i].lease
                                               && st'.holders[i].released == st.holders[i].released
  {
  }
}
