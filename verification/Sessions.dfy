/** Everything that holds a lease, as one interleaved run: TCP handlers, UDP sessions in their table,
    their exits in the order the code performs them, and listener restarts (getOrCreateUDPSession,
    serveUDPSession, closeUDPSessions and the lease parts of handleTCP in service.go). */
module Sessions {
  import opened Bytes
  import opened Addresses
  import opened Users
  import opened Limits

  /** udpSessionKey */
  datatype Key = Key(user: int, transportAddr: AddrPort, realAddr: AddrPort)

  function KeyIp(k: Key): Ip {
    RealIP(ClientIdentity(k.transportAddr, k.realAddr))
  }

  datatype Kind = Handler | Session(key: Key)

  /** A holder of a lease, present or past.  A session is `evicted` when closeUDPSessions took it out of
      the table, and `removed` once its own final delete has run. */
  datatype Holder = Holder(kind: Kind, lease: Lease, released: bool, evicted: bool, removed: bool)

  datatype Sighting = Sighting(user: int, ip: Ip, at: int)

  /** A goroutine that has got past its admission: a TCP handler that was granted its lease, or a packet
      that was given its session.  It has the user and the address it asked with, and reports them to the
      tracker once. */
  datatype Task = Task(user: int, ip: Ip, reported: bool)

  datatype State = State(
    counts: Counts,
    holders: map<nat, Holder>,
    next: nat,
    table: map<Key, nat>,
    granted: set<(int, Ip)>, // every (user, address) that was ever granted a lease
    tasks: seq<Task>,
    seen: seq<Sighting>)     // every call of onlineTracker.seen

  const INIT := State(NO_COUNTS, map[], 0, map[], {}, [], [])

  datatype Event =
    | TcpOpen(user: UserConfig, ip: Ip, enforce: bool)
    | UdpPacket(user: UserConfig, transportAddr: AddrPort, realAddr: AddrPort, enforce: bool, socket: bool)
    | See(task: nat, at: int)
    | Done(i: nat)     // the holder's release closure; it may be called again
    | Remove(i: nat)   // the last step of a session's exit: lock, delete by key
    | CloseAll         // closeUDPSessions

  function Grant(st: State, kind: Kind, user: UserConfig, ip: Ip, tcp: bool, enforce: bool): State {
    var r := Acquire(st.counts, user, ip, tcp, enforce);
    if r.Err? then st else
    st.(counts := r.value,
        holders := st.holders[st.next := Holder(kind, Lease(user.id, ip, tcp), false, false, false)],
        next := st.next + 1,
        granted := st.granted + {(user.id, ip)})
  }

  function Begin(st: State, user: int, ip: Ip): State {
    st.(tasks := st.tasks + [Task(user, ip, false)])
  }

  predicate IsSession(st: State, i: nat) {
    i in st.holders && st.holders[i].kind.Session?
  }

  function Next(st: State, e: Event): State {
    match e
    case TcpOpen(user, ip, enforce) =>
      var st' := Grant(st, Handler, user, ip, true, enforce);
      if st'.next == st.next then st else Begin(st', user.id, ip)
    case UdpPacket(user, transportAddr, realAddr, enforce, socket) =>
      var key := Key(user.id, transportAddr, realAddr);
      var ip := RealIP(ClientIdentity(transportAddr, realAddr));
      if key in st.table then Begin(st, user.id, ip) else
      if !socket then st else
      var st' := Grant(st, Session(key), user, ip, false, enforce);
      if st'.next == st.next then st else Begin(st'.(table := st.table[key := st.next]), user.id, ip)
    case See(task, at) =>
      if task >= |st.tasks| || st.tasks[task].reported then st else
      var t := st.tasks[task];
      st.(seen := st.seen + [Sighting(t.user, t.ip, at)], tasks := st.tasks[task := t.(reported := true)])
    case Done(i) =>
      if i !in st.holders || st.holders[i].released then st else
      var h := st.holders[i];
      st.(counts := Release(st.counts, h.lease.user, h.lease.ip, h.lease.tcp),
          holders := st.holders[i := h.(released := true)])
    case Remove(i) =>
      if !IsSession(st, i) || !st.holders[i].released || st.holders[i].removed then st else
      var h := st.holders[i];
      st.(table := st.table - {h.kind.key}, holders := st.holders[i := h.(removed := true)])
    case CloseAll =>
      st.(table := map[],
          holders := map i | i in st.holders ::
            if i in st.table.Values then st.holders[i].(evicted := true) else st.holders[i])
  }

  function Run(st: State, events: seq<Event>): State
    decreases |events|
  {
    if events == [] then st else Run(Next(st, events[0]), events[1..])
  }

  /** The leases not yet released, by holder. */
  function Outstanding(st: State): Leases {
    map i | i in st.holders && !st.holders[i].released :: st.holders[i].lease
  }

  ghost predicate TableValid(st: State) {
    forall k :: k in st.table ==>
      && IsSession(st, st.table[k])
      && var h := st.holders[st.table[k]];
         h.kind.key == k && !h.removed && !h.evicted
  }

  ghost predicate HoldersValid(st: State) {
    && (forall i :: i in st.holders ==> i < st.next)
    && (forall i :: i in st.holders ==> (st.holders[i].lease.user, st.holders[i].lease.ip) in st.granted)
    && (forall i :: i in st.holders && st.holders[i].removed ==> st.holders[i].released)
    && (forall i :: IsSession(st, i) ==>
          var h := st.holders[i]; h.lease == Lease(h.kind.key.user, KeyIp(h.kind.key), false))
    && (forall j :: 0 <= j < |st.tasks| ==> (st.tasks[j].user, st.tasks[j].ip) in st.granted)
    && (forall j :: 0 <= j < |st.seen| ==> (st.seen[j].user, st.seen[j].ip) in st.granted)
  }

  ghost predicate Valid(st: State) {
    Tally(st.counts, Outstanding(st)) && TableValid(st) && HoldersValid(st)
  }

  // ---------- lease conservation ----------

  lemma GrantKeeps(st: State, kind: Kind, user: UserConfig, ip: Ip, tcp: bool, enforce: bool)
    requires Valid(st)
    requires kind.Session? ==> !tcp && user.id == kind.key.user && ip == KeyIp(kind.key)
    ensures Valid(Grant(st, kind, user, ip, tcp, enforce))
  {
    GrantTallies(st, kind, user, ip, tcp, enforce);
    GrantHolders(st, kind, user, ip, tcp, enforce);
    hide Tally, Acquire, Outstanding, HoldersValid, TableValid, Grant;
  }

  lemma GrantHolders(st: State, kind: Kind, user: UserConfig, ip: Ip, tcp: bool, enforce: bool)
    requires HoldersValid(st) && TableValid(st)
    requires kind.Session? ==> !tcp && user.id == kind.key.user && ip == KeyIp(kind.key)
    ensures HoldersValid(Grant(st, kind, user, ip, tcp, enforce))
    ensures TableValid(Grant(st, kind, user, ip, tcp, enforce))
  {
    hide Acquire, KeyIp;
  }

  lemma GrantTallies(st: State, kind: Kind, user: UserConfig, ip: Ip, tcp: bool, enforce: bool)
    requires Valid(st)
    ensures var st' := Grant(st, kind, user, ip, tcp, enforce);
            && Tally(st'.counts, Outstanding(st'))
            && (st' != st ==> Outstanding(st') == Outstanding(st)[st.next := Lease(user.id, ip, tcp)])
  {
    var st' := Grant(st, kind, user, ip, tcp, enforce);
    hide Tally, Acquire;
    if st' != st {
      var l := Outstanding(st);
      assert st.next !in st.holders;
      AcquireTallies(st.counts, l, st.next, user, ip, tcp, enforce);
      assert Outstanding(st') == l[st.next := Lease(user.id, ip, tcp)];
    }
  }

  lemma DoneTallies(st: State, i: nat)
    requires Valid(st) && i in Outstanding(st)
    ensures var h, st' := st.holders[i].lease, Next(st, Done(i));
            && !GuardFires(st.counts, h.user, h.ip, h.tcp)
            && Tally(st'.counts, Outstanding(st'))
  {
    hide Tally, Release, GuardFires;
    ReleaseTallies(st.counts, Outstanding(st), i);
    assert Outstanding(Next(st, Done(i))) == Outstanding(st) - {i};
  }

  lemma DoneKeeps(st: State, i: nat)
    requires Valid(st)
    ensures Valid(Next(st, Done(i)))
  {
    hide Tally, Release;
    if i in st.holders && !st.holders[i].released {
      DoneTallies(st, i);
      hide Outstanding;
    }
  }

  /** A packet that finds its session comes from an address its user holds or held a lease for: the
      session's own, which the key determines. */
  lemma PacketOfSession(st: State, key: Key)
    requires HoldersValid(st) && TableValid(st) && key in st.table
    ensures (key.user, KeyIp(key)) in st.granted
  {
    hide KeyIp;
    var i := st.table[key];
    assert IsSession(st, i) && st.holders[i].kind.key == key;
  }

  lemma BeginKeeps(st: State, user: int, ip: Ip)
    requires Valid(st) && (user, ip) in st.granted
    ensures Valid(Begin(st, user, ip))
  {
    hide Tally, KeyIp;
    assert Outstanding(Begin(st, user, ip)) == Outstanding(st);
    hide Outstanding;
  }

  /** A packet, by what it meets. */
  lemma PacketStep(st: State, e: Event)
    requires e.UdpPacket?
    ensures var key := Key(e.user.id, e.transportAddr, e.realAddr);
            var granted := Grant(st, Session(key), e.user, KeyIp(key), false, e.enforce);
            Next(st, e) == if key in st.table then Begin(st, e.user.id, KeyIp(key))
                           else if !e.socket || granted.next == st.next then st
                           else Begin(granted.(table := st.table[key := st.next]), e.user.id, KeyIp(key))
  {
    hide RealIP, Acquire;
  }

  lemma UdpPacketKeeps(st: State, e: Event)
    requires Valid(st) && e.UdpPacket?
    ensures Valid(Next(st, e))
  {
    PacketStep(st, e);
    hide Tally, KeyIp, Next, Grant;
    var key := Key(e.user.id, e.transportAddr, e.realAddr);
    if key in st.table {
      PacketOfSession(st, key);
      BeginKeeps(st, e.user.id, KeyIp(key));
    } else {
      GrantKeeps(st, Session(key), e.user, KeyIp(key), false, e.enforce);
      NewSessionKeeps(st, key, e.user, e.enforce);
    }
  }

  /** The session just made is entered in the table. */
  lemma NewSessionKeeps(st: State, key: Key, user: UserConfig, enforce: bool)
    requires user.id == key.user && Valid(Grant(st, Session(key), user, KeyIp(key), false, enforce))
    ensures var granted := Grant(st, Session(key), user, KeyIp(key), false, enforce);
            granted.next != st.next ==> Valid(Begin(granted.(table := st.table[key := st.next]), user.id, KeyIp(key)))
  {
    var granted := Grant(st, Session(key), user, KeyIp(key), false, enforce);
    if granted.next != st.next {
      hide KeyIp, Acquire, Valid;
      assert (user.id, KeyIp(key)) in granted.granted && granted.table == st.table;
      EnterKeeps(granted, key, st.next);
      BeginKeeps(granted.(table := st.table[key := st.next]), user.id, KeyIp(key));
    }
  }

  lemma EnterKeeps(st: State, key: Key, i: nat)
    requires Valid(st) && IsSession(st, i)
    requires var h := st.holders[i]; h.kind.key == key && !h.removed && !h.evicted
    ensures Valid(st.(table := st.table[key := i]))
  {
    hide Tally, KeyIp;
    var st' := st.(table := st.table[key := i]);
    assert Outstanding(st') == Outstanding(st);
    assert HoldersValid(st') by {
      hide Outstanding, TableValid;
    }
    hide Outstanding, HoldersValid;
  }

  /** Every step keeps the invariant. */
  lemma StepKeeps(st: State, e: Event)
    requires Valid(st)
    ensures Valid(Next(st, e))
  {
    match e {
      case TcpOpen(user, ip, enforce) =>
        GrantKeeps(st, Handler, user, ip, true, enforce);
        if Next(st, e) != st {
          BeginKeeps(Grant(st, Handler, user, ip, true, enforce), user.id, ip);
        }
      case UdpPacket(_, _, _, _, _) => UdpPacketKeeps(st, e);
      case Done(i) => DoneKeeps(st, i);
      case _ => OthersKeep(st, e);
    }
  }

  lemma OthersKeep(st: State, e: Event)
    requires Valid(st) && (e.See? || e.Remove? || e.CloseAll?)
    ensures Valid(Next(st, e))
  {
    hide Tally, Outstanding, HoldersValid, TableValid, Next;
    OthersTally(st, e);
    OthersHolders(st, e);
    OthersTable(st, e);
  }

  lemma OthersTally(st: State, e: Event)
    requires e.See? || e.Remove? || e.CloseAll?
    ensures Next(st, e).counts == st.counts && Outstanding(Next(st, e)) == Outstanding(st)
  {
  }

  lemma OthersHolders(st: State, e: Event)
    requires HoldersValid(st) && (e.See? || e.Remove? || e.CloseAll?)
    ensures HoldersValid(Next(st, e))
  {
    hide KeyIp;
  }

  lemma OthersTable(st: State, e: Event)
    requires TableValid(st) && (e.See? || e.Remove? || e.CloseAll?)
    ensures TableValid(Next(st, e))
  {
    hide KeyIp;
  }

  lemma {:induction false} RunKeeps(st: State, events: seq<Event>)
    requires Valid(st)
    ensures Valid(Run(st, events))
    decreases |events|
  {
    hide Valid;
    if events != [] {
      StepKeeps(st, events[0]);
      hide Next;
      RunKeeps(Next(st, events[0]), events[1..]);
    }
  }

  lemma InitValid()
    ensures Valid(INIT)
  {
    assert Outstanding(INIT) == map[];
    assert forall u :: TcpLeases(map[], u) == {};
    assert forall u, ip :: IpLeases(map[], u, ip) == {};
  }

  /** Lease conservation, in every reachable state, restarts included: the counters are the numbers of
      outstanding leases, a pending release meets no guard, a repeated one changes nothing, and when
      every holder is done both maps are empty. */
  lemma LeasesConserved(events: seq<Event>)
    ensures var st := Run(INIT, events);
            && Tally(st.counts, Outstanding(st))
            && (forall i :: i in Outstanding(st) ==>
                  var h := st.holders[i].lease; !GuardFires(st.counts, h.user, h.ip, h.tcp))
            && (forall i :: Next(Next(st, Done(i)), Done(i)) == Next(st, Done(i)))
            && (Outstanding(st) == map[] ==> st.counts == NO_COUNTS)
  {
    InitValid();
    RunKeeps(INIT, events);
    var st := Run(INIT, events);
    hide Tally, Run, GuardFires;
    forall i | i in Outstanding(st)
      ensures var h := st.holders[i].lease; !GuardFires(st.counts, h.user, h.ip, h.tcp)
    {
      DoneTallies(st, i);
    }
    if Outstanding(st) == map[] {
      NoLeasesNoCounts(st.counts);
    }
  }

  /** A run is its events one after the other. */
  lemma {:induction false} RunNext(st: State, events: seq<Event>, e: Event)
    ensures Run(st, events + [e]) == Next(Run(st, events), e)
    decreases |events|
  {
    hide Next;
    if events == [] {
      assert [] + [e] == [e];
      OneStep(st, e, []);
    } else {
      RunNext(Next(st, events[0]), events[1..], e);
      assert (events + [e])[1..] == events[1..] + [e] && (events + [e])[0] == events[0];
    }
  }

  /** A task that has yet to report adds exactly its user, its address and the time to the sightings; no
      other event adds any. */
  lemma SeeRecords(st: State, e: Event)
    ensures Next(st, e).seen ==
            if e.See? && e.task < |st.tasks| && !st.tasks[e.task].reported
            then st.seen + [Sighting(st.tasks[e.task].user, st.tasks[e.task].ip, e.at)] else st.seen
    ensures e.See? ==> Next(st, e) == st.(seen := Next(st, e).seen, tasks := Next(st, e).tasks)
    ensures e.See? && e.task < |st.tasks| ==> Next(st, e).tasks == st.tasks[e.task := st.tasks[e.task].(reported := true)]
  {
    hide Acquire, Release;
    if e.See? && e.task < |st.tasks| && st.tasks[e.task].reported {
      assert st.tasks[e.task].(reported := true) == st.tasks[e.task];
    }
  }

  /** The (user, address) pairs of all leases there have been. */
  function LeasedPairs(st: State): set<(int, Ip)> {
    set i | i in st.holders :: (st.holders[i].lease.user, st.holders[i].lease.ip)
  }

  /** What `granted` stands for: exactly the pairs of the leases of all holders, past and present. */
  lemma {:induction false} GrantedAreLeases(st: State, events: seq<Event>)
    requires Valid(st) && st.granted == LeasedPairs(st)
    ensures Run(st, events).granted == LeasedPairs(Run(st, events))
    decreases |events|
  {
    hide Valid, LeasedPairs;
    if events != [] {
      StepKeeps(st, events[0]);
      StepLeasedPairs(st, events[0]);
      hide Next;
      GrantedAreLeases(Next(st, events[0]), events[1..]);
    }
  }

  lemma StepLeasedPairs(st: State, e: Event)
    requires Valid(st) && st.granted == LeasedPairs(st)
    ensures Next(st, e).granted == LeasedPairs(Next(st, e))
  {
    FreshIsNew(st);
    HoldersChange(st, e);
    hide Valid, LeasedPairs, Next;
    if Next(st, e).next != st.next {
      OneMorePair(st, Next(st, e), st.next);
    } else {
      SamePairs(st, Next(st, e));
    }
  }

  /** A new holder comes with its pair, and nothing else changes who holds or held what. */
  ghost predicate OneHolderMore(st: State, st': State) {
    && st.next in st'.holders && st'.holders == st.holders[st.next := st'.holders[st.next]]
    && st'.granted == st.granted + {(st'.holders[st.next].lease.user, st'.holders[st.next].lease.ip)}
  }

  ghost predicate SameHoldings(st: State, st': State) {
    && st'.granted == st.granted && (forall j :: j in st.holders <==> j in st'.holders)
    && forall j :: j in st.holders ==> st'.holders[j].lease == st.holders[j].lease
  }

  lemma HoldersChange(st: State, e: Event)
    ensures var st' := Next(st, e);
            if st'.next != st.next then OneHolderMore(st, st') else SameHoldings(st, st')
  {
    match e {
      case TcpOpen(user, ip, enforce) =>
        GrantChange(st, Handler, user, ip, true, enforce);
        hide Grant;
      case UdpPacket(_, _, _, _, _) =>
        var key := Key(e.user.id, e.transportAddr, e.realAddr);
        PacketStep(st, e);
        GrantChange(st, Session(key), e.user, KeyIp(key), false, e.enforce);
        hide Grant, Next, KeyIp;
      case _ =>
        OthersChange(st, e);
    }
  }

  lemma GrantChange(st: State, kind: Kind, user: UserConfig, ip: Ip, tcp: bool, enforce: bool)
    ensures var st' := Grant(st, kind, user, ip, tcp, enforce);
            if st'.next != st.next then OneHolderMore(st, st') else st' == st
  {
    hide Acquire;
  }

  lemma OthersChange(st: State, e: Event)
    requires !e.TcpOpen? && !e.UdpPacket?
    ensures Next(st, e).next == st.next && SameHoldings(st, Next(st, e))
  {
    hide Release;
  }

  lemma OneMorePair(st: State, st': State, i: nat)
    requires i !in st.holders && i in st'.holders && st'.holders == st.holders[i := st'.holders[i]]
    ensures LeasedPairs(st') == LeasedPairs(st) + {(st'.holders[i].lease.user, st'.holders[i].lease.ip)}
  {
    assert forall j :: j in st.holders ==> j in st'.holders && st'.holders[j] == st.holders[j];
    forall p | p in LeasedPairs(st)
      ensures p in LeasedPairs(st')
    {
      var j :| j in st.holders && p == (st.holders[j].lease.user, st.holders[j].lease.ip);
      assert j in st'.holders && st'.holders[j] == st.holders[j];
    }
  }

  lemma SamePairs(st: State, st': State)
    requires forall j :: j in st.holders <==> j in st'.holders
    requires forall j :: j in st.holders ==> st'.holders[j].lease == st.holders[j].lease
    ensures LeasedPairs(st') == LeasedPairs(st)
  {
    forall p
      ensures p in LeasedPairs(st') <==> p in LeasedPairs(st)
    {
      if p in LeasedPairs(st) {
        var j :| j in st.holders && p == (st.holders[j].lease.user, st.holders[j].lease.ip);
        assert j in st'.holders && st'.holders[j].lease == st.holders[j].lease;
      }
    }
  }

  /** Every sighting was of a (user, address) that had been granted a lease. */
  lemma SightingsWereGranted(events: seq<Event>)
    ensures var st := Run(INIT, events);
            forall j :: 0 <= j < |st.seen| ==> (st.seen[j].user, st.seen[j].ip) in st.granted
  {
    InitValid();
    RunKeeps(INIT, events);
  }

  // ---------- the session table ----------

  /** Every session neither evicted nor through its final delete is the one its key leads to. */
  ghost predicate Tracked(st: State) {
    forall i :: IsSession(st, i) && !st.holders[i].removed && !st.holders[i].evicted ==>
      st.holders[i].kind.key in st.table && st.table[st.holders[i].kind.key] == i
  }

  /** The final delete of a session that a restart evicted, while its key belongs to a newer session. */
  predicate StaleRemove(st: State, e: Event) {
    && e.Remove?
    && IsSession(st, e.i)
    && st.holders[e.i].released && !st.holders[e.i].removed && st.holders[e.i].evicted
    && st.holders[e.i].kind.key in st.table
  }

  /** Which steps keep the table exact: all but a stale delete, and a stale delete never does. */
  lemma TrackedIff(st: State, e: Event)
    requires Valid(st) && Tracked(st)
    ensures Tracked(Next(st, e)) <==> !StaleRemove(st, e)
  {
    hide Tally, Acquire, Release, HoldersValid;
    assert st.next !in st.holders by {
      FreshIsNew(st);
    }
    if StaleRemove(st, e) {
      var j := st.table[st.holders[e.i].kind.key];
      assert j != e.i && Next(st, e).holders[j] == st.holders[j];
    } else if e == CloseAll {
      assert forall i :: IsSession(st, i) && !st.holders[i].removed && !st.holders[i].evicted ==> i in st.table.Values;
    } else if e.Remove? {
      SameKeySameSession(st, e.i);
    }
  }

  lemma FreshIsNew(st: State)
    requires Valid(st)
    ensures st.next !in st.holders
  {
  }

  lemma SameKeySameSession(st: State, i: nat)
    requires Tracked(st) && TableValid(st)
    ensures IsSession(st, i) && !st.holders[i].removed && !st.holders[i].evicted ==>
              (forall j :: IsSession(st, j) && !st.holders[j].removed && !st.holders[j].evicted
                          && st.holders[j].kind == st.holders[i].kind
                ==> j == i)
  {
  }

  ghost predicate NoStaleRemove(st: State, events: seq<Event>)
    decreases |events|
  {
    events == [] || (!StaleRemove(st, events[0]) && NoStaleRemove(Next(st, events[0]), events[1..]))
  }

  lemma {:induction false} RunTracked(st: State, events: seq<Event>)
    requires Valid(st) && Tracked(st) && NoStaleRemove(st, events)
    ensures Tracked(Run(st, events))
    decreases |events|
  {
    hide Valid, Tracked, StaleRemove;
    if events != [] {
      StepKeeps(st, events[0]);
      TrackedIff(st, events[0]);
      hide Next;
      RunTracked(Next(st, events[0]), events[1..]);
    }
  }

  ghost predicate NoneEvicted(st: State) {
    forall i :: i in st.holders ==> !st.holders[i].evicted
  }

  lemma {:induction false} NoRestartNoEviction(st: State, events: seq<Event>)
    requires NoneEvicted(st) && CloseAll !in events
    ensures NoStaleRemove(st, events) && NoneEvicted(Run(st, events))
    decreases |events|
  {
    if events != [] {
      assert events[0] in events;
      assert NoneEvicted(Next(st, events[0])) by {
        hide Acquire, Release;
      }
      assert !StaleRemove(st, events[0]);
      hide Next, NoneEvicted, StaleRemove;
      NoRestartNoEviction(Next(st, events[0]), events[1..]);
    }
  }

  /** Without restarts the table holds exactly the sessions that have not run their final delete, under
      their own keys, one per key. */
  lemma TableExact(events: seq<Event>)
    requires CloseAll !in events
    ensures var st := Run(INIT, events);
            && (forall i :: IsSession(st, i) && !st.holders[i].removed <==>
                            exists k :: k in st.table && st.table[k] == i)
            && (forall k :: k in st.table ==> IsSession(st, st.table[k]) && st.holders[st.table[k]].kind.key == k)
  {
    InitValid();
    RunKeeps(INIT, events);
    NoRestartNoEviction(INIT, events);
    RunTracked(INIT, events);
    hide Run, Tally, HoldersValid, NoStaleRemove;
  }

  /** With restarts the same holds of the sessions not evicted, given that no stale delete runs. */
  lemma TableExactWithRestarts(events: seq<Event>)
    requires NoStaleRemove(INIT, events)
    ensures var st := Run(INIT, events);
            && (forall i :: IsSession(st, i) && !st.holders[i].removed && !st.holders[i].evicted <==>
                            exists k :: k in st.table && st.table[k] == i)
            && (forall k :: k in st.table ==> IsSession(st, st.table[k]) && st.holders[st.table[k]].kind.key == k)
  {
    InitValid();
    RunKeeps(INIT, events);
    RunTracked(INIT, events);
    hide Run, Tally, HoldersValid, NoStaleRemove;
  }

  /** A step that takes the session of key k out of the table. */
  predicate Disturbs(st: State, k: Key, e: Event) {
    e == CloseAll || (e.Remove? && IsSession(st, e.i) && st.holders[e.i].kind.key == k)
  }

  ghost predicate Undisturbed(st: State, k: Key, events: seq<Event>)
    decreases |events|
  {
    events == [] || (!Disturbs(st, k, events[0]) && Undisturbed(Next(st, events[0]), k, events[1..]))
  }

  /** Endpoint-independent mapping: from the packet that finds or makes the session of a key until that
      key's session exits or a restart, every packet of the key, to any target and under any limits, is
      served by the same session and its one socket. */
  lemma {:induction false} SameSocket(st: State, k: Key, events: seq<Event>)
    requires k in st.table && Undisturbed(st, k, events)
    ensures var st' := Run(st, events);
            && k in st'.table && st'.table[k] == st.table[k]
            && forall user: UserConfig, enforce, socket :: user.id == k.user ==>
                 Next(st', UdpPacket(user, k.transportAddr, k.realAddr, enforce, socket)) == Begin(st', user.id, KeyIp(k))
    decreases |events|
  {
    if events != [] {
      var st' := Next(st, events[0]);
      assert k in st'.table && st'.table[k] == st.table[k] by {
        hide Acquire, Release;
      }
      hide Next, Disturbs;
      SameSocket(st', k, events[1..]);
    }
  }

  /** The hypothesis is needed: a restart between two packets of one client, and the old session's exit
      after the second, leave the new session running outside the table; the next packet opens a second
      socket for the same key and a second lease for the same device. */
  lemma StaleRemoveLosesSession(user: UserConfig, from: AddrPort)
    ensures var packet := UdpPacket(user, from, from, true, true);
            var st := Run(INIT, [packet, CloseAll, packet, Done(0), Remove(0), packet]);
            var key := Key(user.id, from, from);
            && st.table == map[key := 2]
            && IsSession(st, 1) && IsSession(st, 2) && st.holders[1].kind == st.holders[2].kind == Session(key)
            && !st.holders[1].removed && !st.holders[1].evicted && !st.holders[1].released
            && !Tracked(st)
            && RefCount(st.counts, user.id, KeyIp(key)) == 2
  {
    var packet := UdpPacket(user, from, from, true, true);
    var key := Key(user.id, from, from);
    var young := Holder(Session(key), Lease(user.id, KeyIp(key), false), false, false, false);
    var ip, pair, task := KeyIp(key), {(user.id, KeyIp(key))}, Task(user.id, KeyIp(key), false);
    hide Next, Run, KeyIp;
    FirstPacket(INIT, user, from, 0);
    var st1 := State(OneIp(user.id, ip, 1), map[0 := young], 1, map[key := 0], pair, [task], []);
    assert Next(INIT, packet) == st1 by {
      assert INIT.holders[0 := young] == map[0 := young] && INIT.table[key := 0] == map[key := 0];
      assert INIT.granted + pair == pair;
    }
    var old0 := young.(evicted := true);
    var st2 := st1.(holders := map[0 := old0], table := map[]);
    assert Next(st1, CloseAll) == st2 by {
      EvictOnly(st1, key, young);
    }
    FirstPacket(st2, user, from, 1);
    var st3 := State(OneIp(user.id, ip, 2), map[0 := old0, 1 := young], 2, map[key := 1], pair, [task, task], []);
    assert Next(st2, packet) == st3 by {
      assert st2.holders[1 := young] == map[0 := old0, 1 := young];
      assert st2.table[key := 1] == map[key := 1] && st2.granted + pair == pair;
    }
    StaleExit(st3, user, key);
    var st5 := Next(Next(st3, Done(0)), Remove(0));
    FirstPacket(st5, user, from, 1);
    var st6 := Next(st5, packet);
    SixSteps(INIT, packet, CloseAll, packet, Done(0), Remove(0), packet);
  }

  lemma SixSteps(st: State, a: Event, b: Event, c: Event, d: Event, e: Event, f: Event)
    ensures Run(st, [a, b, c, d, e, f]) == Next(Next(Next(Next(Next(Next(st, a), b), c), d), e), f)
  {
    hide Next, Run;
    assert [a] + [b, c, d, e, f] == [a, b, c, d, e, f] && [b] + [c, d, e, f] == [b, c, d, e, f];
    assert [c] + [d, e, f] == [c, d, e, f] && [d] + [e, f] == [d, e, f] && [e] + [f] == [e, f];
    var s1 := Next(st, a);
    var s2 := Next(s1, b);
    var s3 := Next(s2, c);
    OneStep(st, a, [b, c, d, e, f]);
    OneStep(s1, b, [c, d, e, f]);
    OneStep(s2, c, [d, e, f]);
    OneStep(s3, d, [e, f]);
    OneStep(Next(s3, d), e, [f]);
    OneStep(Next(Next(s3, d), e), f, []);
  }

  lemma OneStep(st: State, e: Event, rest: seq<Event>)
    ensures Run(st, [e] + rest) == Run(Next(st, e), rest) && Run(st, []) == st
    ensures rest == [] ==> Run(st, [e]) == Next(st, e)
  {
    hide Next;
    assert ([e] + rest)[1..] == rest;
    assert Run(Next(st, e), []) == Next(st, e);
    assert [e][1..] == [] && [e][0] == e;
  }

  /** A packet whose key is not in the table, from a user whose only leases are n of its address. */
  lemma FirstPacket(st: State, user: UserConfig, from: AddrPort, n: nat)
    requires var key := Key(user.id, from, from);
             key !in st.table && st.counts == if n == 0 then NO_COUNTS else OneIp(user.id, KeyIp(key), n)
    ensures var key := Key(user.id, from, from);
            var young := Holder(Session(key), Lease(user.id, KeyIp(key), false), false, false, false);
            Next(st, UdpPacket(user, from, from, true, true)) ==
            st.(counts := OneIp(user.id, KeyIp(key), n + 1),
                holders := st.holders[st.next := young],
                next := st.next + 1,
                table := st.table[key := st.next],
                granted := st.granted + {(user.id, KeyIp(key))},
                tasks := st.tasks + [Task(user.id, KeyIp(key), false)])
  {
    AdmitOneIp(user, KeyIp(Key(user.id, from, from)), n);
    hide Acquire;
  }

  lemma EvictOnly(st: State, key: Key, young: Holder)
    requires st.holders == map[0 := young] && st.table == map[key := 0]
    ensures Next(st, CloseAll) == st.(holders := map[0 := young.(evicted := true)], table := map[])
  {
    assert key in st.table && 0 in st.table.Values;
  }

  /** The evicted session 0 exits while session 1 holds its key. */
  lemma StaleExit(st: State, user: UserConfig, key: Key)
    requires key.user == user.id && st.table == map[key := 1] && st.counts == OneIp(user.id, KeyIp(key), 2)
    requires 0 in st.holders && 1 in st.holders
    requires var young := Holder(Session(key), Lease(user.id, KeyIp(key), false), false, false, false);
             st.holders[1] == young && st.holders[0] == young.(evicted := true)
    ensures var st' := Next(Next(st, Done(0)), Remove(0));
            && st'.counts == OneIp(user.id, KeyIp(key), 1) && st'.table == map[] && st'.next == st.next
            && 1 in st'.holders && st'.holders[1] == st.holders[1] && st'.granted == st.granted && st'.seen == st.seen
  {
    ReleaseOneIp(user.id, KeyIp(key), 1);
    hide Release, Acquire;
  }

  /** Counts that hold one UDP-only address, n times. */
  function OneIp(user: int, ip: Ip, n: int): Counts {
    Counts(map[], map[user := map[ip := n]])
  }

  lemma MapIs<K, V>(m: map<K, V>, k: K, v: V)
    requires forall j :: j in m <==> j == k
    requires k in m && m[k] == v
    ensures m == map[k := v]
  {
  }

  lemma AdmitOneIp(user: UserConfig, ip: Ip, n: nat)
    ensures Acquire(if n == 0 then NO_COUNTS else OneIp(user.id, ip, n), user, ip, false, true) ==
            Ok(OneIp(user.id, ip, n + 1))
  {
    var c := if n == 0 then NO_COUNTS else OneIp(user.id, ip, n);
    var c' := Acquire(c, user, ip, false, true).value;
    MapIs(c'.ips[user.id], ip, n + 1);
    MapIs(c'.ips, user.id, map[ip := n + 1]);
  }

  lemma ReleaseOneIp(user: int, ip: Ip, n: nat)
    requires n > 0
    ensures Release(OneIp(user, ip, n + 1), user, ip, false) == OneIp(user, ip, n)
  {
    var c' := Release(OneIp(user, ip, n + 1), user, ip, false);
    assert user in c'.ips;
    MapIs(c'.ips[user], ip, n);
    MapIs(c'.ips, user, map[ip := n]);
  }

  // ---------- limits over a whole run ----------

  /** Every request of this user in the run carries these limits, enforced. */
  ghost predicate ConstantLimits(events: seq<Event>, user: int, tcpLimit: int, deviceLimit: int) {
    forall j :: 0 <= j < |events| ==>
      (events[j].TcpOpen? || events[j].UdpPacket?) && events[j].user.id == user ==>
        events[j].user.tcpConnLimit == tcpLimit && events[j].user.deviceLimit == deviceLimit && events[j].enforce
  }

  ghost predicate Within(st: State, user: int, tcpLimit: int, deviceLimit: int) {
    && (tcpLimit > 0 ==> |TcpLeases(Outstanding(st), user)| <= tcpLimit)
    && (deviceLimit > 0 ==> |Devices(Outstanding(st), user)| <= deviceLimit)
  }

  lemma SubsetCard<T>(a: set<T>, b: set<T>)
    requires a <= b
    ensures |a| <= |b|
  {
    assert b == a + (b - a);
  }

  lemma StepWithin(st: State, e: Event, user: int, tcpLimit: int, deviceLimit: int)
    requires Valid(st) && Within(st, user, tcpLimit, deviceLimit) && ConstantLimits([e], user, tcpLimit, deviceLimit)
    ensures Within(Next(st, e), user, tcpLimit, deviceLimit)
  {
    assert e == [e][0];
    hide Tally, Devices, TcpLeases, Acquire;
    match e {
      case TcpOpen(u, ip, enforce) => GrantWithin(st, Handler, u, ip, true, enforce, user, tcpLimit, deviceLimit);
      case UdpPacket(u, transportAddr, realAddr, enforce, socket) =>
        var key := Key(u.id, transportAddr, realAddr);
        GrantWithin(st, Session(key), u, KeyIp(key), false, enforce, user, tcpLimit, deviceLimit);
        PacketOutstanding(st, e);
      case Done(i) =>
        DoneWithin(st, i, user, tcpLimit, deviceLimit);
      case _ =>
        assert Outstanding(Next(st, e)) == Outstanding(st);
    }
  }

  lemma PacketOutstanding(st: State, e: Event)
    requires e.UdpPacket?
    ensures var key := Key(e.user.id, e.transportAddr, e.realAddr);
            Outstanding(Next(st, e)) in {Outstanding(st), Outstanding(Grant(st, Session(key), e.user, KeyIp(key), false, e.enforce))}
  {
    PacketStep(st, e);
    hide Next, Grant, KeyIp;
  }

  lemma DoneWithin(st: State, i: nat, user: int, tcpLimit: int, deviceLimit: int)
    requires Within(st, user, tcpLimit, deviceLimit)
    ensures Within(Next(st, Done(i)), user, tcpLimit, deviceLimit)
  {
    var l := Outstanding(st);
    assert Outstanding(Next(st, Done(i))) == l - {i};
    DevicesShrink(l, i, user);
    hide Next, Outstanding, Devices, TcpLeases;
    SubsetCard(Devices(l - {i}, user), Devices(l, user));
    SubsetCard(TcpLeases(l - {i}, user), TcpLeases(l, user));
  }

  lemma GrantWithin(st: State, kind: Kind, u: UserConfig, ip: Ip, tcp: bool, enforce: bool,
                    user: int, tcpLimit: int, deviceLimit: int)
    requires Valid(st) && Within(st, user, tcpLimit, deviceLimit)
    requires u.id == user ==> u.tcpConnLimit == tcpLimit && u.deviceLimit == deviceLimit && enforce
    ensures Within(Grant(st, kind, u, ip, tcp, enforce), user, tcpLimit, deviceLimit)
  {
    var st' := Grant(st, kind, u, ip, tcp, enforce);
    if st' != st {
      GrantTallies(st, kind, u, ip, tcp, enforce);
      FreshIsNew(st);
      var l, lease := Outstanding(st), Lease(u.id, ip, tcp);
      AdmittedWithinLimits(st.counts, l, st.next, u, ip, tcp, enforce);
      LeaseAdded(l, st.next, lease, user, ip);
      DevicesGrow(l, st.next, lease, user);
      hide Tally, Devices, TcpLeases, Outstanding, Acquire;
    }
  }

  /** With limits that stay the same and are enforced, both bounds hold in every reachable state. */
  lemma {:induction false} LimitsHold(st: State, events: seq<Event>, user: int, tcpLimit: int, deviceLimit: int)
    requires Valid(st) && Within(st, user, tcpLimit, deviceLimit)
    requires ConstantLimits(events, user, tcpLimit, deviceLimit)
    ensures Within(Run(st, events), user, tcpLimit, deviceLimit)
    decreases |events|
  {
    hide Valid, Within;
    if events != [] {
      assert ConstantLimits([events[0]], user, tcpLimit, deviceLimit);
      assert ConstantLimits(events[1..], user, tcpLimit, deviceLimit);
      hide ConstantLimits;
      StepKeeps(st, events[0]);
      StepWithin(st, events[0], user, tcpLimit, deviceLimit);
      hide Next;
      LimitsHold(Next(st, events[0]), events[1..], user, tcpLimit, deviceLimit);
    }
  }

  /** ... and so, from the start, for the leases and for the counters that stand for them. */
  lemma ConstantLimitsHold(events: seq<Event>, user: int, tcpLimit: int, deviceLimit: int)
    requires ConstantLimits(events, user, tcpLimit, deviceLimit)
    ensures var st := Run(INIT, events);
            && Within(st, user, tcpLimit, deviceLimit)
            && (tcpLimit > 0 ==> TcpCount(st.counts, user) <= tcpLimit)
            && (deviceLimit > 0 ==> |Refs(st.counts, user)| <= deviceLimit)
  {
    InitValid();
    assert Outstanding(INIT) == map[] && TcpLeases(map[], user) == {} && Devices(map[], user) == {};
    LimitsHold(INIT, events, user, tcpLimit, deviceLimit);
    RunKeeps(INIT, events);
    RefsAreDevices(Run(INIT, events).counts, Outstanding(Run(INIT, events)), user);
    hide Run, Devices, HoldersValid, TableValid;
  }
}
