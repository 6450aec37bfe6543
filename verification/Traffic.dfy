/** Byte counters from the connections to the panel: trafficStore (service.go), the order of reports in
    pushSnapshot (agent.go) and the map ReportTraffic builds (client.go). */
module Traffic {
  import opened Bytes

  datatype Amount = Amount(up: int, down: int)

  const NOTHING := Amount(0, 0)

  function Plus(a: Amount, b: Amount): Amount {
    Amount(a.up + b.up, a.down + b.down)
  }

  /** Amounts per user; a user that is absent has none. */
  type Ledger = map<int, Amount>

  function At(l: Ledger, user: int): Amount {
    if user in l then l[user] else NOTHING
  }

  function AddTo(l: Ledger, user: int, a: Amount): Ledger {
    l[user := Plus(At(l, user), a)]
  }

  /** model.TrafficReport */
  datatype Report = Report(id: int, amount: Amount)

  /** Each user is listed at most once. */
  ghost predicate Unique(reports: seq<Report>) {
    forall j, k :: 0 <= j < k < |reports| ==> reports[j].id != reports[k].id
  }

  /** What a list of reports says of a user: the sum of its entries. */
  function Reported(reports: seq<Report>, user: int): Amount {
    if reports == [] then NOTHING
    else
      var n := |reports| - 1;
      var before := Reported(reports[..n], user);
      if reports[n].id == user then Plus(before, reports[n].amount) else before
  }

  lemma {:induction false} ReportedAbsent(reports: seq<Report>, user: int)
    requires forall j :: 0 <= j < |reports| ==> reports[j].id != user
    ensures Reported(reports, user) == NOTHING
  {
    if reports != [] {
      ReportedAbsent(reports[..|reports| - 1], user);
    }
  }

  lemma NothingReported()
    ensures forall u :: Reported([], u) == NOTHING
  {
  }

  lemma ReportedNext(reports: seq<Report>, r: Report, user: int)
    ensures Reported(reports + [r], user) ==
            if r.id == user then Plus(Reported(reports, user), r.amount) else Reported(reports, user)
  {
    assert (reports + [r])[..|reports|] == reports;
  }

  /** trafficValue */
  class TrafficValue {
    var up: int
    var down: int

    constructor ()
      ensures up == 0 && down == 0
    {
      up, down := 0, 0;
    }
  }

  class TrafficStore {
    var data: map<int, TrafficValue>

    /** Each user has its own counters. */
    ghost predicate Valid()
      reads this
    {
      forall a, b :: a in data && b in data && a != b ==> data[a] != data[b]
    }

    function Pending(user: int): Amount
      reads this, data.Values
    {
      if user in data then Amount(data[user].up, data[user].down) else NOTHING
    }

    constructor ()
      ensures Valid() && data == map[]
    {
      data := map[];
    }

    method Ensure(user: int) returns (item: TrafficValue)
      requires Valid()
      modifies this
      ensures Valid() && user in data && data[user] == item
      ensures data.Values <= old(data.Values) + {item} && (item in old(data.Values) || fresh(item))
      ensures forall u :: Pending(u) == old(Pending(u))
    {
      if user in data {
        item := data[user];
      } else {
        item := new TrafficValue();
        data := data[user := item];
      }
    }

    /** addUp, and addDown likewise. */
    method AddUp(user: int, value: int)
      requires Valid()
      modifies this, data.Values
      ensures Valid() && forall l :: l in data.Values ==> l in old(data.Values) || fresh(l)
      ensures forall u :: Pending(u) == if u == user then Plus(old(Pending(u)), Amount(value, 0)) else old(Pending(u))
    {
      hide At, AddTo, Reported;
      var item := Ensure(user);
      assert forall u :: u in data && u != user ==> data[u] != item;
      item.up := item.up + value;
    }

    method AddDown(user: int, value: int)
      requires Valid()
      modifies this, data.Values
      ensures Valid() && forall l :: l in data.Values ==> l in old(data.Values) || fresh(l)
      ensures forall u :: Pending(u) == if u == user then Plus(old(Pending(u)), Amount(0, value)) else old(Pending(u))
    {
      hide At, AddTo, Reported;
      var item := Ensure(user);
      assert forall u :: u in data && u != user ==> data[u] != item;
      item.down := item.down + value;
    }

    /** snapshotAndReset: everything pending goes into the reports, each user at most once and never with
        nothing, and nothing stays pending. */
    method SnapshotAndReset() returns (out: seq<Report>)
      requires Valid()
      modifies data.Values
      ensures Valid() && Unique(out)
      ensures forall u :: Reported(out, u) == old(Pending(u)) && Pending(u) == NOTHING
      ensures forall r :: r in out ==> r.amount != NOTHING
    {
      hide Reported;
      NothingReported();
      out := [];
      var left := data.Keys;
      while exists user :: user in left
        invariant left <= data.Keys
        invariant Unique(out)
        invariant forall j :: 0 <= j < |out| ==> out[j].id in data && out[j].id !in left && out[j].amount != NOTHING
        invariant forall u :: u in left ==> Pending(u) == old(Pending(u)) && Reported(out, u) == NOTHING
        invariant forall u :: u !in left ==> Pending(u) == NOTHING && Reported(out, u) == old(Pending(u))
        decreases left
      {
        var user :| user in left;
        left := left - {user};
        var item := data[user];
        if item.up == 0 && item.down == 0 {
          continue;
        }
        var r := Report(user, Amount(item.up, item.down));
        forall u
          ensures Reported(out + [r], u) == if u == user then r.amount else Reported(out, u)
        {
          ReportedNext(out, r, u);
        }
        out := out + [r];
        item.up := 0;
        item.down := 0;
      }
    }
  }

  // ---------- reporting ----------

  /** ReportTraffic's body: one entry per user, the last one winning. */
  method ReportBody(traffic: seq<Report>) returns (data: map<int, Amount>)
    ensures Unique(traffic) ==> forall u :: At(data, u) == Reported(traffic, u)
    ensures forall u :: u in data <==> exists j :: 0 <= j < |traffic| && traffic[j].id == u
  {
    data := map[];
    for i := 0 to |traffic|
      invariant forall u :: u in data <==> exists j :: 0 <= j < i && traffic[j].id == u
      invariant Unique(traffic) ==> forall u :: At(data, u) == Reported(traffic[..i], u)
    {
      var r := traffic[i];
      assert traffic[..i + 1] == traffic[..i] + [r];
      forall u
        ensures Reported(traffic[..i + 1], u) ==
                if r.id == u then Plus(Reported(traffic[..i], u), r.amount) else Reported(traffic[..i], u)
      {
        ReportedNext(traffic[..i], r, u);
      }
      if Unique(traffic) {
        ReportedAbsent(traffic[..i], r.id);
      }
      data := data[r.id := r.amount];
    }
    assert traffic[..|traffic|] == traffic;
  }

  /** The panel, as far as it accepts traffic. */
  class Panel {
    var accepted: Ledger

    constructor ()
      ensures accepted == map[]
    {
      accepted := map[];
    }

    method Accept(data: Ledger)
      modifies this
      ensures forall u :: At(accepted, u) == Plus(old(At(accepted, u)), At(data, u))
    {
      hide Merge, At;
      forall u
        ensures At(Merge(accepted, data), u) == Plus(At(accepted, u), At(data, u))
      {
        MergedAt(accepted, data, u);
      }
      accepted := Merge(accepted, data);
    }
  }

  /** ReportTraffic: nothing is sent for an empty list; `ok` is the outcome of the request otherwise. */
  method ReportTraffic(panel: Panel, traffic: seq<Report>, ok: bool) returns (sent: bool)
    requires Unique(traffic)
    modifies panel
    ensures sent == (ok || traffic == [])
    ensures forall u :: At(panel.accepted, u) ==
              if ok then Plus(old(At(panel.accepted, u)), Reported(traffic, u)) else old(At(panel.accepted, u))
  {
    hide Reported, At;
    NothingReported();
    if traffic == [] {
      return true;
    }
    var data := ReportBody(traffic);
    if ok {
      panel.Accept(data);
    }
    sent := ok;
  }

  lemma SomeReported(traffic: seq<Report>)
    requires traffic != [] && Unique(traffic) && forall r :: r in traffic ==> r.amount != NOTHING
    ensures exists u :: Reported(traffic, u) != NOTHING
  {
    var n := |traffic| - 1;
    ReportedAbsent(traffic[..n], traffic[n].id);
    assert traffic[n] in traffic;
    assert Reported(traffic, traffic[n].id) != NOTHING;
  }

  // ---------- the life of a byte ----------

  /** `taken` is in the hands of the one reporting goroutine, between its snapshot and its report. */
  datatype State = State(counted: Ledger, pending: Ledger, taken: Option<Ledger>, accepted: Ledger, dropped: Ledger)

  const START := State(map[], map[], None, map[], map[])

  datatype Event =
    | Count(user: int, amount: Amount)
    | Take                                      // Snapshot
    | Push(statusOk: bool, trafficOk: bool)     // ReportStatus, then ReportTraffic unless it failed

  function Merge(a: Ledger, b: Ledger): Ledger {
    map u | u in a.Keys + b.Keys :: Plus(At(a, u), At(b, u))
  }

  function Next(st: State, e: Event): State {
    match e
    case Count(user, amount) =>
      st.(counted := AddTo(st.counted, user, amount), pending := AddTo(st.pending, user, amount))
    case Take =>
      if st.taken.Some? then st else st.(taken := Some(st.pending), pending := map[])
    case Push(statusOk, trafficOk) =>
      if st.taken.None? then st
      else if statusOk && trafficOk then st.(taken := None, accepted := Merge(st.accepted, st.taken.value))
      else st.(taken := None, dropped := Merge(st.dropped, st.taken.value))
  }

  function Run(st: State, events: seq<Event>): State
    decreases |events|
  {
    if events == [] then st else Run(Next(st, events[0]), events[1..])
  }

  function OnItsWay(st: State, u: int): Amount {
    Plus(if st.taken.Some? then At(st.taken.value, u) else NOTHING, At(st.pending, u))
  }

  function Outcome(st: State, u: int): Amount {
    Plus(Plus(At(st.accepted, u), At(st.dropped, u)), OnItsWay(st, u))
  }

  ghost predicate Balanced(st: State) {
    forall u :: At(st.counted, u) == Outcome(st, u)
  }

  /** Conservation, per user and direction: what was counted is what the panel accepted, plus what was
      dropped, plus what is still on its way, with counts arriving at any moment of a report. */
  lemma {:induction false} TrafficConserved(st: State, events: seq<Event>)
    requires Balanced(st)
    ensures Balanced(Run(st, events))
    decreases |events|
  {
    if events != [] {
      StepBalanced(st, events[0]);
      hide Balanced, Next;
      TrafficConserved(Next(st, events[0]), events[1..]);
    }
  }

  lemma AddedAt(l: Ledger, user: int, a: Amount, u: int)
    ensures At(AddTo(l, user, a), u) == if u == user then Plus(At(l, u), a) else At(l, u)
  {
  }

  lemma MergedAt(a: Ledger, b: Ledger, u: int)
    ensures At(Merge(a, b), u) == Plus(At(a, u), At(b, u))
  {
  }

  lemma StepBalanced(st: State, e: Event)
    requires Balanced(st)
    ensures Balanced(Next(st, e))
  {
    var st' := Next(st, e);
    hide At, Next, Outcome;
    forall u
      ensures At(st'.counted, u) == Outcome(st', u)
    {
      StepAt(st, e, u);
    }
  }

  /** What a step moves, for one user: a count adds to both sides, a report to neither. */
  lemma StepAt(st: State, e: Event, u: int)
    ensures var st', added := Next(st, e), if e.Count? && e.user == u then e.amount else NOTHING;
            At(st'.counted, u) == Plus(At(st.counted, u), added) && Outcome(st', u) == Plus(Outcome(st, u), added)
  {
    hide At, Next, Outcome;
    match e {
      case Count(user, amount) => CountAt(st, user, amount, u);
      case Take => TakeAt(st, u);
      case Push(statusOk, trafficOk) => PushAt(st, e, u);
    }
  }

  lemma TakeAt(st: State, u: int)
    ensures At(Next(st, Take).counted, u) == At(st.counted, u) && Outcome(Next(st, Take), u) == Outcome(st, u)
  {
    hide At;
    EmptyAt(u);
  }

  lemma CountAt(st: State, user: int, amount: Amount, u: int)
    ensures var st', added := Next(st, Count(user, amount)), if user == u then amount else NOTHING;
            At(st'.counted, u) == Plus(At(st.counted, u), added) && Outcome(st', u) == Plus(Outcome(st, u), added)
  {
    hide At, AddTo;
    AddedAt(st.counted, user, amount, u);
    AddedAt(st.pending, user, amount, u);
  }

  lemma PushAt(st: State, e: Event, u: int)
    requires e.Push?
    ensures At(Next(st, e).counted, u) == At(st.counted, u) && Outcome(Next(st, e), u) == Outcome(st, u)
  {
    hide At, Merge;
    if st.taken.Some? {
      MergedAt(st.accepted, st.taken.value, u);
      MergedAt(st.dropped, st.taken.value, u);
    }
  }

  lemma EmptyAt(u: int)
    ensures At(map[], u) == NOTHING
  {
  }

  /** Bytes are dropped only by a report whose status or traffic request fails. */
  lemma DroppedOnlyByFailure(st: State, e: Event, u: int)
    ensures At(Next(st, e).dropped, u) != At(st.dropped, u) ==>
              e.Push? && st.taken.Some? && At(st.taken.value, u) != NOTHING && !(e.statusOk && e.trafficOk)
  {
    hide Merge;
    if e.Push? && st.taken.Some? {
      MergedAt(st.dropped, st.taken.value, u);
    }
  }

  ghost predicate NoFailure(events: seq<Event>) {
    forall j :: 0 <= j < |events| && events[j].Push? ==> events[j].statusOk && events[j].trafficOk
  }

  /** With no failed report nothing more is dropped. */
  lemma {:induction false} NothingDropped(st: State, events: seq<Event>, u: int)
    requires NoFailure(events)
    ensures At(Run(st, events).dropped, u) == At(st.dropped, u)
    decreases |events|
  {
    hide At, Merge, AddTo;
    if events != [] {
      assert NoFailure(events[1..]);
      DroppedOnlyByFailure(st, events[0], u);
      NothingDropped(Next(st, events[0]), events[1..], u);
    }
  }

  lemma {:induction false} RunNext(st: State, events: seq<Event>, e: Event)
    ensures Run(st, events + [e]) == Next(Run(st, events), e)
    decreases |events|
  {
    hide Next;
    if events == [] {
      assert [] + [e] == [e] && [e][1..] == [];
      assert Run(Next(st, e), []) == Next(st, e);
    } else {
      RunNext(Next(st, events[0]), events[1..], e);
      assert (events + [e])[1..] == events[1..] + [e];
    }
  }

  /** From the start, with nothing assumed about the panel; and with no failed report nothing is dropped. */
  lemma FromTheStart(events: seq<Event>, u: int)
    ensures var st := Run(START, events);
            && At(st.counted, u) == Plus(Plus(At(st.accepted, u), At(st.dropped, u)), OnItsWay(st, u))
            && (NoFailure(events) ==> At(st.counted, u) == Plus(At(st.accepted, u), OnItsWay(st, u)))
  {
    hide Next, At, Run, NoFailure;
    StartBalanced();
    TrafficConserved(START, events);
    assert At(Run(START, events).counted, u) == Outcome(Run(START, events), u);
    if NoFailure(events) {
      NothingDropped(START, events, u);
      NothingAtStart(u);
    }
  }

  lemma NothingAtStart(u: int)
    ensures At(START.dropped, u) == NOTHING
  {
  }

  lemma StartBalanced()
    ensures Balanced(START)
  {
  }

  // ---------- as objects ----------

  /** The list that a snapshot returned is what the run has taken. */
  ghost predicate Carries(traffic: seq<Report>, st: State) {
    && Unique(traffic) && (forall r :: r in traffic ==> r.amount != NOTHING)
    && st.taken.Some? && forall u :: Reported(traffic, u) == At(st.taken.value, u)
  }

  /** The counters of the service, the panel, and the run they have been through. */
  class Accounts {
    const store: TrafficStore
    const panel: Panel

    ghost var run: State

    ghost predicate Consistent()
      reads this, store, store.data.Values, panel
    {
      && store.Valid()
      && (forall u :: store.Pending(u) == At(run.pending, u))
      && (forall u :: At(panel.accepted, u) == At(run.accepted, u))
      && Balanced(run)
    }

    constructor ()
      ensures Consistent() && run == START && fresh(store) && fresh(panel)
    {
      hide Balanced;
      store := new TrafficStore();
      panel := new Panel();
      run := START;
      new;
      StartBalanced();
    }

    /** s.traffic.addUp: one more event of the run. */
    method AddUp(user: int, value: int)
      requires Consistent()
      modifies this, store, store.data.Values
      ensures Consistent() && run == Next(old(run), Count(user, Amount(value, 0)))
      ensures forall l :: l in store.data.Values ==> l in old(store.data.Values) || fresh(l)
    {
      hide Balanced, At, Next;
      CountMoves(run, user, Amount(value, 0));
      store.AddUp(user, value);
      run := Next(run, Count(user, Amount(value, 0)));
    }

    /** s.traffic.addDown */
    method AddDown(user: int, value: int)
      requires Consistent()
      modifies this, store, store.data.Values
      ensures Consistent() && run == Next(old(run), Count(user, Amount(0, value)))
      ensures forall l :: l in store.data.Values ==> l in old(store.data.Values) || fresh(l)
    {
      hide Balanced, At, Next;
      CountMoves(run, user, Amount(0, value));
      store.AddDown(user, value);
      run := Next(run, Count(user, Amount(0, value)));
    }

    /** Snapshot: what was pending is now in the list it returns, and only there. */
    method Snapshot() returns (traffic: seq<Report>)
      requires Consistent() && run.taken.None?
      modifies this, store.data.Values
      ensures Consistent() && run == Next(old(run), Take) && Carries(traffic, run)
    {
      hide Balanced, At, Next, Reported, Unique;
      TakeMoves(run);
      traffic := store.SnapshotAndReset();
      run := Next(run, Take);
    }

    /** ReportStatus and then ReportTraffic, with the list of the last snapshot: the panel has all of it
        exactly when both succeed, and all of it is dropped otherwise. */
    method Report(traffic: seq<Report>, statusOk: bool, trafficOk: bool) returns (ok: bool)
      requires Consistent() && Carries(traffic, run)
      modifies this, panel
      ensures Consistent() && run == Next(old(run), Push(statusOk, trafficOk))
      ensures ok <==> statusOk && (trafficOk || forall u :: At(old(run).taken.value, u) == NOTHING)
      ensures forall u :: At(panel.accepted, u) ==
                if statusOk && trafficOk then Plus(old(At(panel.accepted, u)), Reported(traffic, u)) else old(At(panel.accepted, u))
      ensures forall u :: At(run.dropped, u) ==
                if statusOk && trafficOk then At(old(run).dropped, u) else Plus(At(old(run).dropped, u), Reported(traffic, u))
    {
      hide Balanced, At, Next, Reported, Plus;
      PushMoves(run, statusOk, trafficOk);
      NothingReported();
      ok := statusOk;
      if statusOk {
        if traffic != [] {
          SomeReported(traffic);
        }
        ok := ReportTraffic(panel, traffic, trafficOk);
      }
      run := Next(run, Push(statusOk, trafficOk));
    }

    /** pushSnapshot up to the traffic report, with the handlers counting on in between. */
    method PushSnapshot(statusOk: bool, trafficOk: bool, meanwhile: seq<Event>) returns (ok: bool)
      requires Consistent() && run.taken.None? && OneWay(meanwhile)
      modifies this, store, store.data.Values, panel
      ensures Consistent() && run == Next(Run(Next(old(run), Take), meanwhile), Push(statusOk, trafficOk))
      ensures run.taken.None?
    {
      hide Consistent, Next, Carries, Balanced;
      var traffic := Snapshot();
      ghost var taken := run;
      for i := 0 to |meanwhile|
        invariant Consistent() && Carries(traffic, run) && run == Run(taken, meanwhile[..i])
        invariant forall l :: l in store.data.Values ==> l in old(store.data.Values) || fresh(l)
      {
        var e := meanwhile[i];
        StillCarries(traffic, run, e);
        RunNext(taken, meanwhile[..i], e);
        assert meanwhile[..i + 1] == meanwhile[..i] + [e];
        if e.amount.down == 0 {
          AddUp(e.user, e.amount.up);
        } else {
          AddDown(e.user, e.amount.down);
        }
      }
      assert meanwhile[..|meanwhile|] == meanwhile;
      PushEnds(run, statusOk, trafficOk);
      ok := Report(traffic, statusOk, trafficOk);
    }
  }

  /** Counts, each of one direction. */
  ghost predicate OneWay(events: seq<Event>) {
    forall j :: 0 <= j < |events| ==> events[j].Count? && (events[j].amount.up == 0 || events[j].amount.down == 0)
  }

  lemma StillCarries(traffic: seq<Report>, st: State, e: Event)
    requires Carries(traffic, st) && e.Count?
    ensures Carries(traffic, Next(st, e))
  {
    hide At, Reported, AddTo, Unique;
  }

  lemma PushEnds(st: State, statusOk: bool, trafficOk: bool)
    ensures Next(st, Push(statusOk, trafficOk)).taken.None?
  {
    hide Merge;
  }

  lemma CountMoves(st: State, user: int, amount: Amount)
    requires Balanced(st)
    ensures var st' := Next(st, Count(user, amount));
            && Balanced(st') && st'.accepted == st.accepted
            && forall u :: At(st'.pending, u) == if u == user then Plus(At(st.pending, u), amount) else At(st.pending, u)
  {
    StepBalanced(st, Count(user, amount));
    hide Balanced, At, AddTo;
    forall u
      ensures At(AddTo(st.pending, user, amount), u) == if u == user then Plus(At(st.pending, u), amount) else At(st.pending, u)
    {
      AddedAt(st.pending, user, amount, u);
    }
  }

  lemma TakeMoves(st: State)
    requires Balanced(st) && st.taken.None?
    ensures var st' := Next(st, Take);
            && Balanced(st') && st'.accepted == st.accepted && st'.taken == Some(st.pending)
            && forall u :: At(st'.pending, u) == NOTHING
  {
    StepBalanced(st, Take);
    hide Balanced;
  }

  lemma PushMoves(st: State, statusOk: bool, trafficOk: bool)
    requires Balanced(st) && st.taken.Some?
    ensures var st' := Next(st, Push(statusOk, trafficOk));
            && Balanced(st') && st'.pending == st.pending
            && (forall u :: At(st'.accepted, u) ==
                  if statusOk && trafficOk then Plus(At(st.accepted, u), At(st.taken.value, u)) else At(st.accepted, u))
            && forall u :: At(st'.dropped, u) ==
                 if statusOk && trafficOk then At(st.dropped, u) else Plus(At(st.dropped, u), At(st.taken.value, u))
  {
    StepBalanced(st, Push(statusOk, trafficOk));
    hide Balanced, At, Merge, Plus;
    forall u
      ensures At(Merge(st.accepted, st.taken.value), u) == Plus(At(st.accepted, u), At(st.taken.value, u))
      ensures At(Merge(st.dropped, st.taken.value), u) == Plus(At(st.dropped, u), At(st.taken.value, u))
    {
      MergedAt(st.accepted, st.taken.value, u);
      MergedAt(st.dropped, st.taken.value, u);
    }
  }

  /** Conservation, read off the objects: per user and direction, what was ever counted is what the panel
      has accepted, what was dropped, what the agent's list holds and what the store holds. */
  lemma TrafficAccounted(a: Accounts, traffic: seq<Report>, u: int)
    requires a.Consistent() && (Carries(traffic, a.run) || (a.run.taken.None? && traffic == []))
    ensures At(a.run.counted, u) ==
            Plus(Plus(At(a.panel.accepted, u), At(a.run.dropped, u)), Plus(Reported(traffic, u), a.store.Pending(u)))
  {
    hide At, Plus;
    assert At(a.run.counted, u) == Outcome(a.run, u);
    NothingReported();
  }
}
