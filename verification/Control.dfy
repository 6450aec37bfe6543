/** The control plane: conditional fetches with an ETag cache (client.go), and the agent that merges what
    they return into a plan (agent.go). */
module Control {
  import opened Bytes

  datatype NodeConfig = NodeConfig(protocol: bytes, listenIP: bytes, serverPort: int, cipher: bytes, routes: bytes)
  datatype UserInfo = UserInfo(id: int, password: bytes, speedLimit: int, deviceLimit: int, tcpLimit: int)
  datatype AuditRule = AuditRule(id: int, rule: bytes)
  datatype Plan = Plan(node: NodeConfig, users: seq<UserInfo>, rules: seq<AuditRule>)

  /** What a NodeConfig variable holds before anything is decoded into it. */
  const ZERO_NODE := NodeConfig([], [], 0, [], [])

  // ---------- one conditional fetch ----------

  /** The panel's answer to a GET: nothing, or a status, an ETag header (empty if absent) and a body that
      decodes or does not. */
  datatype Reply<+T> = NoReply | Reply(status: int, etag: bytes, body: Option<T>)

  /** The panel at one moment: its answer for each If-None-Match header, empty meaning none is sent. */
  type Server<T> = bytes -> Reply<T>

  datatype FetchError = Transport | NotFound | BadStatus | DecodeFailed

  /** The cached tag afterwards, and a value if one was fetched. */
  datatype Fetched<+T> = Fetched(tag: bytes, result: Result<Option<T>, FetchError>)

  function Fetch<T>(tag: bytes, serve: Server<T>): Fetched<T> {
    var reply := serve(tag);
    if reply.NoReply? then Fetched(tag, Err(Transport))
    else if reply.status == 304 then Fetched(tag, Ok(None))
    else if reply.status == 404 then Fetched(tag, Err(NotFound))
    else if reply.status >= 300 then Fetched(tag, Err(BadStatus))
    else Fetched(if reply.etag != [] then reply.etag else tag,
                 if reply.body.None? then Err(DecodeFailed) else Ok(Some(reply.body.value)))
  }

  /** What each answer comes to: a value only from a success whose body decodes, none from a 304, an error
      from everything else; and the cached tag changes only to that of a success. */
  lemma FetchOutcomes<T>(tag: bytes, serve: Server<T>)
    ensures var f, reply := Fetch(tag, serve), serve(tag);
            && (forall v :: f.result == Ok(Some(v)) <==> reply.Reply? && reply.status < 300 && reply.body == Some(v))
            && (f.result == Ok(None) <==> reply.Reply? && reply.status == 304)
            && (reply.Reply? && reply.status >= 300 && reply.status != 304 ==> f.result.Err?)
            && f.tag == if reply.Reply? && reply.status < 300 && reply.etag != [] then reply.etag else tag
  {
  }

  class Client {
    var etags: map<string, bytes>

    function ETag(key: string): bytes
      reads this
    {
      if key in etags then etags[key] else []
    }

    constructor ()
      ensures etags == map[]
    {
      etags := map[];
    }

    /** getJSON and getUsers: the new tag is stored before the body is decoded. */
    method Get<T>(key: string, serve: Server<T>) returns (r: Result<Option<T>, FetchError>)
      modifies this
      ensures Fetched(ETag(key), r) == Fetch(old(ETag(key)), serve)
      ensures forall k :: k != key ==> ETag(k) == old(ETag(k))
    {
      var reply := serve(ETag(key));
      if reply.NoReply? {
        return Err(Transport);
      }
      if reply.status == 304 {
        return Ok(None);
      }
      if reply.status == 404 {
        return Err(NotFound);
      }
      if reply.status >= 300 {
        return Err(BadStatus);
      }
      if reply.etag != [] {
        etags := etags[key := reply.etag];
      }
      if reply.body.None? {
        return Err(DecodeFailed);
      }
      return Ok(Some(reply.body.value));
    }
  }

  // ---------- one synchronisation ----------

  /** How Apply ends: the plan runs; it is refused as it stands and nothing changes; or it is stored, but
      the restart it asks for fails and nothing runs. */
  datatype Outcome = Accepted | Refused | Down

  /** Cached tags, what the agent holds, and the plans given to Apply so far; `applied` is the plan the
      runtime runs, if any. */
  datatype State = State(nodeTag: bytes, usersTag: bytes,
                         lastNode: Option<NodeConfig>, lastUsers: seq<UserInfo>, lastRules: seq<AuditRule>,
                         plans: seq<Plan>, applied: Option<Plan>)

  const START := State([], [], None, [], [], [], None)

  /** syncOnce; rules are never fetched on their own. */
  function Sync(st: State, nodes: Server<NodeConfig>, users: Server<seq<UserInfo>>, apply: Plan -> Outcome): (State, bool) {
    var n := Fetch(st.nodeTag, nodes);
    var st1 := st.(nodeTag := n.tag);
    if n.result.Err? then (st1, false) else
    var u := Fetch(st.usersTag, users);
    var st2 := st1.(usersTag := u.tag);
    if u.result.Err? then (st2, false) else
    var nodeChanged := n.result.value.Some? || st.lastNode.None?;
    var usersChanged := u.result.value.Some?;
    if !nodeChanged && !usersChanged then (st2, true) else
    var node := if n.result.value.Some? then n.result.value.value else ZERO_NODE;
    var lastNode := if nodeChanged then Some(node) else st.lastNode;
    var lastUsers := if usersChanged then u.result.value.value else st.lastUsers;
    var plan := Plan(lastNode.value, lastUsers, st.lastRules);
    (st2.(lastNode := lastNode, lastUsers := lastUsers, plans := st.plans + [plan],
          applied := Running(plan, apply(plan), st.applied)),
     apply(plan) == Accepted)
  }

  function Running(plan: Plan, outcome: Outcome, before: Option<Plan>): Option<Plan> {
    match outcome case Accepted => Some(plan) case Refused => before case Down => None
  }

  /** A synchronisation in which a fetch fails, whatever the panel answers, fails and applies nothing. */
  lemma FailedFetchAppliesNothing(st: State, nodes: Server<NodeConfig>, users: Server<seq<UserInfo>>, apply: Plan -> Outcome)
    ensures Fetch(st.nodeTag, nodes).result.Err? || Fetch(st.usersTag, users).result.Err? ==>
              var (st', ok) := Sync(st, nodes, users, apply);
              && !ok && st'.plans == st.plans && st'.applied == st.applied
              && st'.lastNode == st.lastNode && st'.lastUsers == st.lastUsers
  {
  }

  class Agent {
    const provider: Client
    var lastNode: Option<NodeConfig>
    var lastUsers: seq<UserInfo>
    var lastRules: seq<AuditRule>

    // the runtime, as far as it is called
    var plans: seq<Plan>
    var applied: Option<Plan>

    function View(): State
      reads this, provider
    {
      State(provider.ETag("node"), provider.ETag("users"), lastNode, lastUsers, lastRules, plans, applied)
    }

    constructor (provider: Client)
      ensures this.provider == provider
      ensures lastNode.None? && lastUsers == [] && lastRules == [] && plans == [] && applied.None?
    {
      this.provider := provider;
      lastNode, lastUsers, lastRules, plans, applied := None, [], [], [], None;
    }

    method SyncOnce(nodes: Server<NodeConfig>, users: Server<seq<UserInfo>>, apply: Plan -> Outcome) returns (ok: bool)
      modifies this, provider
      ensures (View(), ok) == Sync(old(View()), nodes, users, apply)
    {
      hide Fetch;
      var node := provider.Get("node", nodes);
      if node.Err? {
        return false;
      }
      var userList := provider.Get("users", users);
      if userList.Err? {
        return false;
      }
      var nodeChanged, usersChanged := node.value.Some?, userList.value.Some?;
      if lastNode.None? {
        nodeChanged := true;
      }
      if !nodeChanged && !usersChanged {
        return true;
      }
      if nodeChanged {
        lastNode := Some(if node.value.Some? then node.value.value else ZERO_NODE);
      }
      if usersChanged {
        lastUsers := userList.value.value;
      }
      var plan := Plan(lastNode.value, lastUsers, lastRules);
      plans := plans + [plan];
      applied := Running(plan, apply(plan), applied);
      ok := apply(plan) == Accepted;
    }

    /** Run: a failed first synchronisation ends it, a later one does not.  (What the status ticks in
        between do is the subject of Traffic.) */
    method Run(book: Book, ticks: seq<Tick>) returns (ok: bool)
      requires View() == START && ticks != []
      modifies this, provider
      ensures (View(), ok) == AgentRun(book, ticks)
    {
      hide Sync, Serve;
      ok := Turn(book, ticks[0]);
      if !ok {
        return;
      }
      for i := 1 to |ticks|
        invariant View() == Ticks(book, Step(book, START, ticks[0]).0, ticks[1..][..i - 1])
      {
        ghost var before := ticks[1..][..i - 1];
        TicksNext(book, Step(book, START, ticks[0]).0, before, ticks[i]);
        assert ticks[1..][..i] == before + [ticks[i]];
        var _ := Turn(book, ticks[i]);
      }
      assert ticks[1..][..|ticks| - 1] == ticks[1..];
    }

    method Turn(book: Book, t: Tick) returns (ok: bool)
      modifies this, provider
      ensures (View(), ok) == Step(book, old(View()), t)
    {
      hide Sync, Serve;
      ok := SyncOnce(NodeServer(book, t), UsersServer(book, t), Applier(t));
    }
  }

  // ---------- against a panel that keeps its word ----------

  /** What each tag stands for: equal tags mean equal content (sections 8.8.3 and 13.1.2 of RFC 9110). */
  datatype Book = Book(nodeOf: bytes -> NodeConfig, usersOf: bytes -> seq<UserInfo>)

  datatype Fault = NoFault | NodeTransport | NodeDecode | UsersTransport | UsersDecode | PlanRefused | RestartFails

  /** One tick: the panel's tags when each resource is asked for, whether it sends content again that it
      could answer with 304, and what goes wrong, if anything. */
  datatype Tick = Tick(nodeTag: bytes, usersTag: bytes, nodeAgain: bool, usersAgain: bool, fault: Fault)

  predicate Tagged(t: Tick) {
    t.nodeTag != [] && t.usersTag != []
  }

  /** 304 only for the current tag, the content under its tag otherwise. */
  function Serve<T>(tag: bytes, content: T, again: bool, fails: bool, garbled: bool): Server<T> {
    (ifNoneMatch: bytes) =>
      if fails then NoReply
      else if ifNoneMatch != [] && ifNoneMatch == tag && !again then Reply(304, tag, None)
      else Reply(200, tag, if garbled then None else Some(content))
  }

  function NodeServer(book: Book, t: Tick): Server<NodeConfig> {
    Serve(t.nodeTag, book.nodeOf(t.nodeTag), t.nodeAgain, t.fault == NodeTransport, t.fault == NodeDecode)
  }

  function UsersServer(book: Book, t: Tick): Server<seq<UserInfo>> {
    Serve(t.usersTag, book.usersOf(t.usersTag), t.usersAgain, t.fault == UsersTransport, t.fault == UsersDecode)
  }

  function Applier(t: Tick): Plan -> Outcome {
    (p: Plan) => if t.fault == PlanRefused then Refused else if t.fault == RestartFails then Down else Accepted
  }

  function Step(book: Book, st: State, t: Tick): (State, bool) {
    Sync(st, NodeServer(book, t), UsersServer(book, t), Applier(t))
  }

  function Ticks(book: Book, st: State, ticks: seq<Tick>): State
    decreases |ticks|
  {
    if ticks == [] then st else Ticks(book, Step(book, st, ticks[0]).0, ticks[1..])
  }

  lemma {:induction false} TicksNext(book: Book, st: State, ticks: seq<Tick>, t: Tick)
    ensures Ticks(book, st, ticks + [t]) == Step(book, Ticks(book, st, ticks), t).0
    decreases |ticks|
  {
    hide Step;
    if ticks == [] {
      assert ticks + [t] == [t] && [t][1..] == [];
      assert Ticks(book, Step(book, st, t).0, []) == Step(book, st, t).0;
    } else {
      TicksNext(book, Step(book, st, ticks[0]).0, ticks[1..], t);
      assert (ticks + [t])[1..] == ticks[1..] + [t];
    }
  }

  /** A run of the agent: where it stops, and whether it got past its first synchronisation. */
  function AgentRun(book: Book, ticks: seq<Tick>): (State, bool)
    requires ticks != []
  {
    var (st, ok) := Step(book, START, ticks[0]);
    if ok then (Ticks(book, st, ticks[1..]), true) else (st, false)
  }

  /** What a plain GET of both resources would give. */
  function PlainPlan(book: Book, t: Tick): Plan {
    Plan(book.nodeOf(t.nodeTag), book.usersOf(t.usersTag), [])
  }

  /** The cache, the agent and the runtime agree. */
  ghost predicate InSync(book: Book, st: State) {
    && st.nodeTag != [] && st.usersTag != [] && st.lastRules == []
    && st.lastNode == Some(book.nodeOf(st.nodeTag))
    && st.lastUsers == book.usersOf(st.usersTag)
    && st.applied == Some(Plan(st.lastNode.value, st.lastUsers, []))
  }

  /** The panel sends the node, or the users, in answer to this tick. */
  predicate NodeSent(st: State, t: Tick) {
    t.fault != NodeTransport && (t.nodeTag != st.nodeTag || t.nodeAgain)
  }

  predicate UsersSent(st: State, t: Tick) {
    && t.fault != NodeTransport && t.fault != UsersTransport
    && !(t.fault == NodeDecode && NodeSent(st, t))
    && (t.usersTag != st.usersTag || t.usersAgain)
  }

  /** An undisturbed tick leaves applied what a plain GET would have fetched, and calls Apply exactly when
      something was refetched. */
  lemma CleanTick(book: Book, st: State, t: Tick)
    requires (st == START || InSync(book, st)) && Tagged(t) && t.fault == NoFault
    ensures var (st', ok) := Step(book, st, t);
            && ok && InSync(book, st') && st'.applied == Some(PlainPlan(book, t))
            && st'.plans == (if NodeSent(st, t) || UsersSent(st, t) then st.plans + [PlainPlan(book, t)] else st.plans)
  {
  }

  /** Refinement of unconditional fetching over a whole run: after every tick of an undisturbed run the
      runtime has what a plain GET at that tick would have given it. */
  lemma {:induction false} SyncRefinesPlainGet(book: Book, st: State, ticks: seq<Tick>)
    requires st == START || InSync(book, st)
    requires forall j :: 0 <= j < |ticks| ==> Tagged(ticks[j]) && ticks[j].fault == NoFault
    ensures ticks != [] ==> InSync(book, Ticks(book, st, ticks))
                            && Ticks(book, st, ticks).applied == Some(PlainPlan(book, ticks[|ticks| - 1]))
    decreases |ticks|
  {
    hide InSync, Step, Tagged, PlainPlan;
    if ticks != [] {
      CleanTick(book, st, ticks[0]);
      SyncRefinesPlainGet(book, Step(book, st, ticks[0]).0, ticks[1..]);
    }
  }

  /** A run goes on for as long as there are ticks, unless its first one failed. */
  lemma RunGoesOn(book: Book, ticks: seq<Tick>, t: Tick)
    ensures AgentRun(book, [t]) == Step(book, START, t)
    ensures ticks != [] ==>
              AgentRun(book, ticks + [t]) ==
              if AgentRun(book, ticks).1 then (Step(book, AgentRun(book, ticks).0, t).0, true) else AgentRun(book, ticks)
  {
    hide Step;
    if ticks != [] {
      TicksNext(book, Step(book, START, ticks[0]).0, ticks[1..], t);
      assert (ticks + [t])[0] == ticks[0] && (ticks + [t])[1..] == ticks[1..] + [t];
    }
  }

  /** So an undisturbed run of the agent succeeds, and after each of its ticks the runtime has what a plain
      GET at that tick would have given it. */
  lemma RunRefinesPlainGet(book: Book, ticks: seq<Tick>)
    requires ticks != [] && forall j :: 0 <= j < |ticks| ==> Tagged(ticks[j]) && ticks[j].fault == NoFault
    ensures var (st, ok) := AgentRun(book, ticks);
            ok && InSync(book, st) && st.applied == Some(PlainPlan(book, ticks[|ticks| - 1]))
  {
    hide Step, InSync, Tagged, PlainPlan;
    CleanTick(book, START, ticks[0]);
    SyncRefinesPlainGet(book, Step(book, START, ticks[0]).0, ticks[1..]);
  }

  // ---------- whatever goes wrong ----------

  /** This plan consists of a node and a user list that the panel had at some of these ticks. */
  ghost predicate Served(book: Book, ticks: seq<Tick>, p: Plan) {
    && p.rules == []
    && (exists t :: t in ticks && p.node == book.nodeOf(t.nodeTag))
    && (exists t :: t in ticks && p.users == book.usersOf(t.usersTag))
  }

  ghost predicate PlansServed(book: Book, ticks: seq<Tick>, st: State) {
    && (forall p :: p in st.plans ==> Served(book, ticks, p))
    && (st.applied.Some? ==> st.applied.value in st.plans)
  }

  /** The agent holds a node and a user list of these ticks, and has given Apply no others. */
  ghost predicate HoldsServed(book: Book, ticks: seq<Tick>, st: State) {
    && PlansServed(book, ticks, st)
    && st.lastNode.Some? && Served(book, ticks, Plan(st.lastNode.value, st.lastUsers, st.lastRules))
  }

  /** In every run of the agent, whatever fails and whatever tags the panel uses, each plan given to Apply
      consists of a node and a user list the panel served in that run: never is a node applied that was
      not fetched, because a run whose first synchronisation fails ends there. */
  lemma OnlyServedPlans(book: Book, ticks: seq<Tick>)
    requires ticks != []
    ensures var (st, ok) := AgentRun(book, ticks);
            && (forall p :: p in st.plans ==> Served(book, ticks, p))
            && (st.applied.Some? ==> st.applied.value in st.plans)
            && (ok ==> st.lastNode.Some?)
  {
    FirstServed(book, ticks, ticks[0]);
    hide Step, Served;
    var (st, ok) := Step(book, START, ticks[0]);
    if ok {
      TicksServed(book, ticks, st, ticks[1..]);
    }
  }

  lemma FirstServed(book: Book, ticks: seq<Tick>, t: Tick)
    requires t in ticks
    ensures var (st, ok) := Step(book, START, t);
            PlansServed(book, ticks, st) && (ok ==> HoldsServed(book, ticks, st))
  {
    SentOfTick(book, START, t);
    hide Step, Served;
    PlainIsServed(book, ticks, t);
  }

  lemma PlainIsServed(book: Book, ticks: seq<Tick>, t: Tick)
    requires t in ticks
    ensures Served(book, ticks, PlainPlan(book, t))
  {
  }

  /** What a tick can change, from any state. */
  lemma SentOfTick(book: Book, st: State, t: Tick)
    requires st == START || st.lastNode.Some?
    ensures var (st', ok) := Step(book, st, t);
            && st'.lastRules == st.lastRules
            && (if st'.plans == st.plans
                then st'.lastNode == st.lastNode && st'.lastUsers == st.lastUsers && st'.applied == st.applied
                else && st'.lastNode.Some? && st'.lastNode in {st.lastNode, Some(book.nodeOf(t.nodeTag))}
                     && st'.lastUsers in {st.lastUsers, book.usersOf(t.usersTag)}
                     && (st == START ==> st'.lastUsers == book.usersOf(t.usersTag))
                     && st'.plans == st.plans + [Plan(st'.lastNode.value, st'.lastUsers, st'.lastRules)]
                     && st'.applied in {None, st.applied, Some(Plan(st'.lastNode.value, st'.lastUsers, st'.lastRules))})
            && (st == START && ok ==> st'.plans != st.plans)
  {
  }

  lemma {:induction false} TicksServed(book: Book, all: seq<Tick>, st: State, ticks: seq<Tick>)
    requires HoldsServed(book, all, st) && forall t :: t in ticks ==> t in all
    ensures HoldsServed(book, all, Ticks(book, st, ticks))
    decreases |ticks|
  {
    hide HoldsServed, Step;
    if ticks != [] {
      assert ticks[0] in ticks && forall t :: t in ticks[1..] ==> t in ticks;
      StepServed(book, all, st, ticks[0]);
      TicksServed(book, all, Step(book, st, ticks[0]).0, ticks[1..]);
    }
  }

  lemma StepServed(book: Book, all: seq<Tick>, st: State, t: Tick)
    requires HoldsServed(book, all, st) && t in all
    ensures HoldsServed(book, all, Step(book, st, t).0)
  {
    SentOfTick(book, st, t);
    hide Step;
  }

  /** That takes a panel that keeps to its protocol: one that answers the first request for the node, which
      carries no tag, with 304 has the agent apply an empty node, and only such a panel has. */
  lemma EmptyNodeIff(nodes: Server<NodeConfig>, users: Server<seq<UserInfo>>, apply: Plan -> Outcome)
    ensures var (st, _) := Sync(START, nodes, users, apply);
            var node, list := Fetch([], nodes).result, Fetch([], users).result;
            if node.Err? || list.Err? then st.plans == []
            else st.plans == [Plan(if node.value.None? then ZERO_NODE else node.value.value,
                                   if list.value.None? then [] else list.value.value, [])]
    ensures Fetch([], nodes).result == Ok(None) <==> nodes([]).Reply? && nodes([]).status == 304
  {
    assert START.plans == [];
    FetchOutcomes([], nodes);
  }

  // ---------- when something goes wrong ----------

  /** The fault strikes: decoding and applying cannot fail when there is nothing to decode or apply. */
  predicate Interrupted(st: State, t: Tick) {
    match t.fault
    case NoFault => false
    case NodeTransport => true
    case UsersTransport => true
    case NodeDecode => NodeSent(st, t)
    case UsersDecode => UsersSent(st, t)
    case PlanRefused => NodeSent(st, t) || UsersSent(st, t)
    case RestartFails => NodeSent(st, t) || UsersSent(st, t)
  }

  /** An interrupted tick that had stored the tag of content not yet applied, or left nothing running. */
  predicate Loses(book: Book, st: State, t: Tick) {
    && Interrupted(st, t)
    && (|| t.fault == RestartFails
        || (NodeSent(st, t) && book.nodeOf(t.nodeTag) != book.nodeOf(st.nodeTag))
        || (UsersSent(st, t) && book.usersOf(t.usersTag) != book.usersOf(st.usersTag)))
  }

  /** Exactly which ticks break the agreement: the tags are stored before the content is decoded and
      applied, so an interruption in between loses the change. */
  lemma AgreementLostIff(book: Book, st: State, t: Tick)
    requires InSync(book, st) && Tagged(t)
    ensures InSync(book, Step(book, st, t).0) <==> !Loses(book, st, t)
  {
  }

  /** The agent is past its first synchronisation. */
  predicate Started(st: State) {
    st.nodeTag != [] && st.usersTag != [] && st.lastNode.Some? && st.lastRules == []
  }

  /** Exactly which undisturbed ticks restore the agreement, however it was lost: those that are sent
      again whatever the agent lacks, or anything at all if only the runtime lacks it. */
  lemma RestoredIff(book: Book, st: State, t: Tick)
    requires Started(st) && Tagged(t) && t.fault == NoFault
    ensures InSync(book, Step(book, st, t).0) <==>
            && (NodeSent(st, t) || st.lastNode == Some(book.nodeOf(st.nodeTag)))
            && (UsersSent(st, t) || st.lastUsers == book.usersOf(st.usersTag))
            && (NodeSent(st, t) || UsersSent(st, t) || st.applied == Some(Plan(st.lastNode.value, st.lastUsers, [])))
  {
  }

  lemma StaysStarted(book: Book, st: State, t: Tick)
    requires Tagged(t) && Started(st)
    ensures Started(Step(book, st, t).0)
  {
  }

  ghost predicate NoneLoses(book: Book, st: State, ticks: seq<Tick>)
    decreases |ticks|
  {
    ticks == [] || (!Loses(book, st, ticks[0]) && NoneLoses(book, Step(book, st, ticks[0]).0, ticks[1..]))
  }

  /** Over whole runs of the agent against such a panel, with faults that lose nothing: after every
      undisturbed tick the runtime has what a plain GET at that tick would have given it, and it is in step
      with the panel's tags after the others too.  Lost or not, once past the first synchronisation every
      state is one that RestoredIff speaks of. */
  lemma AgreementKept(book: Book, ticks: seq<Tick>)
    requires ticks != [] && AgentRun(book, ticks).1 && forall t :: t in ticks ==> Tagged(t)
    ensures var (st, _) := AgentRun(book, ticks);
            var last := ticks[|ticks| - 1];
            && Started(st)
            && (NoneLoses(book, Step(book, START, ticks[0]).0, ticks[1..]) ==>
                  && InSync(book, st)
                  && (last.fault == NoFault ==> Has(book, st, last)))
  {
    FirstInSync(book, ticks[0]);
    hide Step, InSync, Started, NoneLoses, Tagged;
    TicksKept(book, Step(book, START, ticks[0]).0, ticks[1..]);
  }

  /** The tags are this tick's, and the runtime has what a plain GET at this tick would have given it. */
  predicate Has(book: Book, st: State, t: Tick) {
    st.nodeTag == t.nodeTag && st.usersTag == t.usersTag && st.applied == Some(PlainPlan(book, t))
  }

  lemma FirstInSync(book: Book, t: Tick)
    requires Tagged(t) && Step(book, START, t).1
    ensures var st := Step(book, START, t).0;
            InSync(book, st) && Started(st) && (t.fault == NoFault ==> Has(book, st, t))
  {
  }

  lemma CleanHas(book: Book, st: State, t: Tick)
    requires InSync(book, st) && Tagged(t) && t.fault == NoFault
    ensures Has(book, Step(book, st, t).0, t)
  {
  }

  lemma {:induction false} TicksKept(book: Book, st: State, ticks: seq<Tick>)
    requires Started(st) && forall t :: t in ticks ==> Tagged(t)
    ensures Started(Ticks(book, st, ticks))
    ensures InSync(book, st) && NoneLoses(book, st, ticks) ==>
              && InSync(book, Ticks(book, st, ticks))
              && (ticks != [] && ticks[|ticks| - 1].fault == NoFault ==> Has(book, Ticks(book, st, ticks), ticks[|ticks| - 1]))
    decreases |ticks|
  {
    hide Step, InSync, Started, Loses, Tagged, Has;
    if ticks != [] {
      assert ticks[0] in ticks && forall t :: t in ticks[1..] ==> t in ticks;
      StaysStarted(book, st, ticks[0]);
      if InSync(book, st) {
        AgreementLostIff(book, st, ticks[0]);
        if ticks[0].fault == NoFault {
          CleanHas(book, st, ticks[0]);
        }
      }
      TicksKept(book, Step(book, st, ticks[0]).0, ticks[1..]);
    }
  }

  /** Until then it stays lost: with the node changed and the user list unreachable once, the panel
      answers 304 from then on, and no number of undisturbed ticks applies the new node. */
  lemma {:induction false} ChangeNeverApplied(book: Book, st: State, nodeTag: bytes, n: nat)
    requires InSync(book, st) && nodeTag != [] && book.nodeOf(nodeTag) != book.nodeOf(st.nodeTag)
    ensures var broken := Step(book, st, Tick(nodeTag, st.usersTag, false, false, UsersTransport)).0;
            var clean := Tick(nodeTag, st.usersTag, false, false, NoFault);
            var st' := Ticks(book, broken, seq(n, _ => clean));
            st'.plans == st.plans && st'.applied == st.applied != Some(PlainPlan(book, clean))
  {
    var broken := Step(book, st, Tick(nodeTag, st.usersTag, false, false, UsersTransport)).0;
    var clean := Tick(nodeTag, st.usersTag, false, false, NoFault);
    assert broken == st.(nodeTag := nodeTag);
    assert Step(book, broken, clean).0 == broken;
    hide Step;
    FixedPoint(book, broken, clean, n);
  }

  /** Nor does the agent try again by itself after a restart that failed: while the panel has nothing new,
      nothing runs. */
  lemma {:induction false} StaysDown(book: Book, st: State, nodeTag: bytes, n: nat)
    requires InSync(book, st) && nodeTag != [] && nodeTag != st.nodeTag
    ensures var down := Step(book, st, Tick(nodeTag, st.usersTag, false, false, RestartFails)).0;
            var clean := Tick(nodeTag, st.usersTag, false, false, NoFault);
            Ticks(book, down, seq(n, _ => clean)).applied == None
  {
    var down := Step(book, st, Tick(nodeTag, st.usersTag, false, false, RestartFails)).0;
    var clean := Tick(nodeTag, st.usersTag, false, false, NoFault);
    assert Step(book, down, clean).0 == down;
    hide Step;
    FixedPoint(book, down, clean, n);
  }

  lemma {:induction false} FixedPoint(book: Book, st: State, t: Tick, n: nat)
    requires Step(book, st, t).0 == st
    ensures Ticks(book, st, seq(n, _ => t)) == st
  {
    hide Step;
    var ticks := seq(n, _ => t);
    if n > 0 {
      FixedPoint(book, st, t, n - 1);
      assert ticks[1..] == seq(n - 1, _ => t);
    }
  }
}
