/** Service.Apply, restartLocked and Close (service.go): configuration changes with and without a restart
    of the listeners. */
module Listeners {
  import opened Bytes
  import opened Users
  import opened UdpTable
  import opened Limiter
  import Sessions

  datatype ServerConfig = ServerConfig(listenIP: bytes, serverPort: int, cipher: bytes,
                                       enableTCP: bool, enableUDP: bool, obfs: bool)

  datatype RuntimeConfig = RuntimeConfig(server: ServerConfig, users: seq<UserConfig>, passX: bool, trustedCIDRs: seq<bytes>)

  const ZERO_CONFIG := RuntimeConfig(ServerConfig([], 0, [], false, false, false), [], false, [])

  /** Which ciphers are supported, and whether a configuration's rules compile. */
  datatype Compiler = Compiler(knowsCipher: bytes -> bool, rulesCompile: RuntimeConfig -> bool)

  /** buildState succeeds. */
  predicate Builds(c: Compiler, cfg: RuntimeConfig) {
    !cfg.server.obfs && c.knowsCipher(cfg.server.cipher) && c.rulesCompile(cfg)
  }

  /** What keeps a configuration from being taken: obfuscation, an unknown cipher, or rules that do not
      compile; nothing else does. */
  lemma BuildsIff(c: Compiler, cfg: RuntimeConfig)
    ensures cfg.server.obfs || !c.knowsCipher(cfg.server.cipher) || !c.rulesCompile(cfg) <==> !Builds(c, cfg)
  {
  }

  /** needsRestart */
  predicate NeedsRestart(a: RuntimeConfig, b: RuntimeConfig) {
    || a.server.listenIP != b.server.listenIP
    || a.server.serverPort != b.server.serverPort
    || a.server.cipher != b.server.cipher
    || a.server.enableTCP != b.server.enableTCP
    || a.server.enableUDP != b.server.enableUDP
    || a.passX != b.passX
  }

  /** What the operating system grants a restart. */
  datatype Grants = Grants(listenTCP: bool, resolveUDP: bool, listenUDP: bool)

  /** An address to listen on, and whether connections are unwrapped from the PROXY protocol. */
  datatype Binding = Binding(ip: bytes, port: int, proxied: bool)

  class Listener {
    const binding: Binding
    var open: bool

    constructor (binding: Binding)
      ensures this.binding == binding && open
    {
      this.binding, this.open := binding, true;
    }
  }

  /** The listeners a configuration asks for. */
  datatype Bindings = Bindings(tcp: Option<Binding>, udp: Option<Binding>)

  function Wanted(cfg: RuntimeConfig): Bindings {
    var s := cfg.server;
    Bindings(if s.enableTCP then Some(Binding(s.listenIP, s.serverPort, cfg.passX)) else None,
             if s.enableUDP then Some(Binding(s.listenIP, s.serverPort, false)) else None)
  }

  // ---------- as values ----------

  /** What a service holds. */
  datatype Held = Held(cfg: RuntimeConfig, bound: Bindings, closed: bool)

  const FRESH := Held(ZERO_CONFIG, Bindings(None, None), false)

  datatype Op = Apply(next: RuntimeConfig, builds: bool, grants: Grants) | Close

  /** restartLocked: a TCP listener is given up only when the UDP one cannot listen, not when its address
      does not resolve. */
  function Restarted(cfg: RuntimeConfig, g: Grants): (Bindings, bool) {
    var s, want := cfg.server, Wanted(cfg);
    if s.enableTCP && !g.listenTCP then (Bindings(None, None), false)
    else if s.enableUDP && !g.resolveUDP then (Bindings(want.tcp, None), false)
    else if s.enableUDP && !g.listenUDP then (Bindings(None, None), false)
    else (want, true)
  }

  function Step(h: Held, op: Op): (Held, bool) {
    match op
    case Apply(next, builds, grants) =>
      if h.closed || !builds then (h, false)
      else if h.bound.tcp.Some? && h.bound.udp.Some? && !NeedsRestart(h.cfg, next) then (h.(cfg := next), true)
      else var (bound, ok) := Restarted(next, grants); (Held(next, bound, false), ok)
    case Close => (Held(h.cfg, Bindings(None, None), true), true)
  }

  /** The same without the fast path: every Apply that builds restarts. */
  function PlainStep(h: Held, op: Op): (Held, bool) {
    match op
    case Apply(next, builds, grants) =>
      if h.closed || !builds then (h, false)
      else var (bound, ok) := Restarted(next, grants); (Held(next, bound, false), ok)
    case Close => (Held(h.cfg, Bindings(None, None), true), true)
  }

  /** Final states, and the outcome of every call. */
  function Run(h: Held, ops: seq<Op>): (Held, seq<bool>)
    decreases |ops|
  {
    if ops == [] then (h, []) else
    var (h', ok) := Step(h, ops[0]);
    var (end, oks) := Run(h', ops[1..]);
    (end, [ok] + oks)
  }

  function PlainRun(h: Held, ops: seq<Op>): (Held, seq<bool>)
    decreases |ops|
  {
    if ops == [] then (h, []) else
    var (h', ok) := PlainStep(h, ops[0]);
    var (end, oks) := PlainRun(h', ops[1..]);
    (end, [ok] + oks)
  }

  /** What is bound is what the stored configuration asks for. */
  predicate Faithful(h: Held) {
    && (h.bound.tcp.Some? ==> h.bound.tcp == Wanted(h.cfg).tcp)
    && (h.bound.udp.Some? ==> h.bound.udp == Wanted(h.cfg).udp)
    && (h.closed ==> h.bound == Bindings(None, None))
  }

  /** In every state that any calls lead to, failed ones included, what is bound is as the stored
      configuration asks; a call that succeeds leaves all of it bound; after one that fails although its
      state built, the next that builds restarts. */
  lemma {:induction false} AlwaysFaithful(h: Held, ops: seq<Op>)
    requires Faithful(h)
    ensures Faithful(Run(h, ops).0)
    decreases |ops|
  {
    if ops != [] {
      StepFaithful(h, ops[0]);
      hide Faithful, Step;
      AlwaysFaithful(Step(h, ops[0]).0, ops[1..]);
    }
  }

  lemma StepFaithful(h: Held, op: Op)
    requires Faithful(h)
    ensures var (h', ok) := Step(h, op);
            && Faithful(h')
            && (op.Apply? && ok ==> h'.bound == Wanted(op.next) && h'.cfg == op.next)
            && (op.Apply? && !ok && op.builds && !h.closed ==>
                  forall again: Op :: again.Apply? && again.builds ==> Step(h', again) == PlainStep(h', again))
            && (op.Close? ==> forall again :: Step(h', again).0 == h')
  {
  }

  /** When a restart succeeds, and what each failure leaves: everything asked for, bound to the configured
      address, or nothing but a TCP listener whose UDP address did not resolve. */
  lemma RestartSucceedsIff(cfg: RuntimeConfig, g: Grants)
    ensures var s, (bound, ok) := cfg.server, Restarted(cfg, g);
            && (ok <==> (s.enableTCP ==> g.listenTCP) && (s.enableUDP ==> g.resolveUDP && g.listenUDP))
            && (bound.tcp.Some? <==> s.enableTCP && g.listenTCP && (s.enableUDP && g.resolveUDP ==> g.listenUDP))
            && (bound.udp.Some? <==> s.enableUDP && g.resolveUDP && g.listenUDP && (s.enableTCP ==> g.listenTCP))
            && (bound.tcp.Some? ==> bound.tcp.value == Binding(s.listenIP, s.serverPort, cfg.passX))
            && (bound.udp.Some? ==> bound.udp.value == Binding(s.listenIP, s.serverPort, false))
  {
  }

  /** With everything granted, an Apply that builds succeeds, restart or not, and binds exactly what the
      configuration enables. */
  lemma ApplyBinds(h: Held, op: Op)
    requires Faithful(h) && !h.closed && op.Apply? && op.builds && op.grants == Grants(true, true, true)
    ensures var s, (h', ok) := op.next.server, Step(h, op);
            && ok && h'.cfg == op.next && !h'.closed
            && h'.bound.tcp == (if s.enableTCP then Some(Binding(s.listenIP, s.serverPort, op.next.passX)) else None)
            && h'.bound.udp == (if s.enableUDP then Some(Binding(s.listenIP, s.serverPort, false)) else None)
  {
  }

  /** A change of users or trusted prefixes only keeps both listeners, whatever could be granted; a change
      of cipher, which sessions rely on, restarts. */
  lemma WhenItRestarts(h: Held, next: RuntimeConfig, grants: Grants)
    requires !h.closed && h.bound.tcp.Some? && h.bound.udp.Some?
    ensures next == h.cfg.(users := next.users, trustedCIDRs := next.trustedCIDRs) ==>
              Step(h, Apply(next, true, grants)) == (h.(cfg := next), true)
    ensures next.server.cipher != h.cfg.server.cipher || Wanted(next) != Wanted(h.cfg) ==>
              Step(h, Apply(next, true, grants)) == PlainStep(h, Apply(next, true, grants)) && !Skips(h, Apply(next, true, grants))
  {
  }

  /** A run is its calls one after the other, and reports one outcome for each. */
  lemma {:induction false} RunNext(h: Held, ops: seq<Op>, op: Op)
    ensures var (h', oks) := Run(h, ops);
            |oks| == |ops| && Run(h, ops + [op]) == (Step(h', op).0, oks + [Step(h', op).1])
    decreases |ops|
  {
    hide Step;
    var (next, ok) := Step(h, if ops == [] then op else ops[0]);
    if ops == [] {
      assert ops + [op] == [op] && [op][1..] == [];
      assert Run(next, []) == (next, []) && [ok] + [] == [] + [ok];
    } else {
      RunNext(next, ops[1..], op);
      assert (ops + [op])[1..] == ops[1..] + [op] && (ops + [op])[0] == ops[0];
      var (h', oks) := Run(next, ops[1..]);
      assert [ok] + (oks + [Step(h', op).1]) == ([ok] + oks) + [Step(h', op).1];
    }
  }

  /** The call skips a restart. */
  predicate Skips(h: Held, op: Op) {
    op.Apply? && !h.closed && op.builds && h.bound.tcp.Some? && h.bound.udp.Some? && !NeedsRestart(h.cfg, op.next)
  }

  /** Each skipped restart would have been granted. */
  predicate SkippedWouldSucceed(h: Held, ops: seq<Op>)
    decreases |ops|
  {
    ops == [] ||
    ((Skips(h, ops[0]) ==> Restarted(ops[0].next, ops[0].grants).1) && SkippedWouldSucceed(Step(h, ops[0]).0, ops[1..]))
  }

  /** The fast path makes no difference: any calls, failing ones included, end with the same listeners and
      the same outcomes as if every Apply had restarted, if and only if no restart was skipped that would
      have failed. */
  lemma {:induction false} FastPathAgreesIff(h: Held, ops: seq<Op>)
    requires Faithful(h)
    ensures Run(h, ops) == PlainRun(h, ops) <==> SkippedWouldSucceed(h, ops)
    decreases |ops|
  {
    if ops != [] {
      StepFaithful(h, ops[0]);
      SkipAgreesIff(h, ops[0]);
      hide Faithful, Step, PlainStep, Skips, Restarted;
      var (a, ok) := Step(h, ops[0]);
      var (b, plainOk) := PlainStep(h, ops[0]);
      FastPathAgreesIff(a, ops[1..]);
      SameOutcomes(ok, Run(a, ops[1..]).1, plainOk, PlainRun(b, ops[1..]).1);
    }
  }

  lemma SameOutcomes(ok: bool, oks: seq<bool>, ok': bool, oks': seq<bool>)
    ensures [ok] + oks == [ok'] + oks' <==> ok == ok' && oks == oks'
  {
    assert ([ok] + oks)[0] == ok && ([ok] + oks)[1..] == oks;
    assert ([ok'] + oks')[0] == ok' && ([ok'] + oks')[1..] == oks';
  }

  lemma SkipAgreesIff(h: Held, op: Op)
    requires Faithful(h)
    ensures !Skips(h, op) ==> Step(h, op) == PlainStep(h, op)
    ensures Skips(h, op) ==> Step(h, op).1
    ensures Skips(h, op) ==> PlainStep(h, op).1 == Restarted(op.next, op.grants).1
    ensures Skips(h, op) && Restarted(op.next, op.grants).1 ==> Step(h, op) == PlainStep(h, op)
  {
  }

  // ---------- as objects ----------

  class Service {
    var cfg: RuntimeConfig
    var state: Option<RuntimeConfig> // the configuration the handlers' state was built from
    var tcpLn: Listener?
    var udpConn: Listener?
    var closed: bool
    const handlers: Handlers         // limits, online and udpSessions

    ghost var made: set<Listener> // every listener ever opened

    function Bound(): Bindings
      reads this, tcpLn, udpConn
    {
      Bindings(if tcpLn != null then Some(tcpLn.binding) else None,
               if udpConn != null then Some(udpConn.binding) else None)
    }

    function View(): Held
      reads this, tcpLn, udpConn
    {
      Held(cfg, Bound(), closed)
    }

    /** A listener that is held is known; no other is open. */
    ghost predicate Tidy()
      reads this, made
    {
      && (tcpLn != null ==> tcpLn in made)
      && (udpConn != null ==> udpConn in made)
      && (tcpLn != null ==> tcpLn != udpConn)
      && (forall l :: l in made && l.open ==> l == tcpLn || l == udpConn)
    }

    /** A listener that is held is open and as the current configuration asks; one that is not held is
        closed; a closed service holds none.  The handlers go their own way in between. */
    ghost predicate Valid()
      reads this, made
    {
      && Tidy()
      && (tcpLn != null ==> tcpLn.open && Wanted(cfg).tcp == Some(tcpLn.binding))
      && (udpConn != null ==> udpConn.open && Wanted(cfg).udp == Some(udpConn.binding))
      && (closed ==> tcpLn == null && udpConn == null)
    }

    constructor ()
      ensures Valid() && View() == FRESH && state.None?
      ensures handlers.Consistent() && handlers.run == Sessions.INIT
    {
      cfg, state, tcpLn, udpConn, closed, made := ZERO_CONFIG, None, null, null, false, {};
      handlers := new Handlers();
    }

    method CloseListeners()
      requires Tidy()
      modifies this`tcpLn, this`udpConn, made
      ensures tcpLn == null && udpConn == null && forall l :: l in made ==> !l.open
    {
      if tcpLn != null {
        tcpLn.open := false;
        tcpLn := null;
      }
      if udpConn != null {
        udpConn.open := false;
        udpConn := null;
      }
    }

    /** restartLocked, for the configuration just stored: the old listeners and every listed session are
        closed before anything is opened. */
    method Restart(grants: Grants) returns (ok: bool)
      requires !closed && Tidy() && handlers.Consistent()
      modifies this`tcpLn, this`udpConn, this`made, made
      modifies handlers`udpSessions, handlers`run, handlers.udpSessions.Values
      ensures Valid() && fresh(made - old(made))
      ensures (Bound(), ok) == Restarted(cfg, grants)
      ensures forall l :: l in old(made) ==> !l.open
      ensures handlers.Consistent() && handlers.run == Sessions.Next(old(handlers.run), Sessions.CloseAll)
      ensures forall s :: s in old(handlers.udpSessions).Values ==> s.closed
    {
      hide Handlers.Consistent, Sessions.Next;
      CloseListeners();
      handlers.CloseUDPSessions();
      ok := Open(grants);
    }

    /** The second half of restartLocked. */
    method Open(grants: Grants) returns (ok: bool)
      requires !closed && tcpLn == null && udpConn == null && forall l :: l in made ==> !l.open
      modifies this`tcpLn, this`udpConn, this`made
      ensures Valid() && fresh(made - old(made)) && (Bound(), ok) == Restarted(cfg, grants)
      ensures old(made) <= made && forall l :: l in old(made) ==> !l.open
    {
      var s := cfg.server;
      if s.enableTCP {
        if !grants.listenTCP {
          return false;
        }
        tcpLn := new Listener(Binding(s.listenIP, s.serverPort, cfg.passX));
        made := made + {tcpLn};
      }
      if s.enableUDP {
        if !grants.resolveUDP {
          return false;
        }
        if !grants.listenUDP {
          if tcpLn != null {
            tcpLn.open := false;
            tcpLn := null;
          }
          return false;
        }
        udpConn := new Listener(Binding(s.listenIP, s.serverPort, false));
        made := made + {udpConn};
      }
      ok := true;
    }

    /** Apply.  Listeners are left alone, or closed and opened anew, as Step says, and the sessions are
        closed exactly with them; the handlers' state and the users' rate limits change with the
        configuration, even when the restart then fails. */
    method Apply(next: RuntimeConfig, c: Compiler, grants: Grants) returns (ok: bool)
      requires Valid() && handlers.Consistent()
      modifies this`cfg, this`state, this`tcpLn, this`udpConn, this`made, made
      modifies handlers`udpSessions, handlers`run, handlers.udpSessions.Values
      modifies handlers.limits`speedLimiter, handlers.limits`made, handlers.limits.speedLimiter.Values
      ensures Valid() && fresh(made - old(made)) && handlers.Consistent()
      ensures var op := Op.Apply(next, Builds(c, next), grants);
              && (View(), ok) == Step(old(View()), op)
              && handlers.run == (if old(closed) || !op.builds || Skips(old(View()), op) then old(handlers.run)
                                  else Sessions.Next(old(handlers.run), Sessions.CloseAll))
      ensures if old(closed) || !Builds(c, next) then state == old(state) && handlers.limits.speedLimiter == old(handlers.limits.speedLimiter)
              else state == Some(next) && handlers.limits.Serves(next.users)
      ensures old(tcpLn) != null && old(udpConn) != null && !NeedsRestart(old(cfg), next) ==>
                tcpLn == old(tcpLn) && udpConn == old(udpConn) && handlers.udpSessions == old(handlers.udpSessions)
    {
      hide Handlers.Consistent, SessionLimiter.Serves, Sessions.Next, Builds, NeedsRestart, Restarted, Valid;
      if closed {
        return false;
      }
      if !Builds(c, next) {
        return false;
      }
      ok := Accept(next, grants);
    }

    /** Apply, for a configuration whose state has been built. */
    method Accept(next: RuntimeConfig, grants: Grants) returns (ok: bool)
      requires Valid() && handlers.Consistent() && !closed
      modifies this`cfg, this`state, this`tcpLn, this`udpConn, this`made, made
      modifies handlers`udpSessions, handlers`run, handlers.udpSessions.Values
      modifies handlers.limits`speedLimiter, handlers.limits`made, handlers.limits.speedLimiter.Values
      ensures Valid() && fresh(made - old(made)) && handlers.Consistent()
      ensures var op := Op.Apply(next, true, grants);
              && (View(), ok) == Step(old(View()), op)
              && handlers.run == (if Skips(old(View()), op) then old(handlers.run)
                                  else Sessions.Next(old(handlers.run), Sessions.CloseAll))
      ensures state == Some(next) && handlers.limits.Serves(next.users)
      ensures old(tcpLn) != null && old(udpConn) != null && !NeedsRestart(old(cfg), next) ==>
                tcpLn == old(tcpLn) && udpConn == old(udpConn) && handlers.udpSessions == old(handlers.udpSessions)
    {
      hide Handlers.Consistent, SessionLimiter.Serves, Sessions.Next, Restarted;
      var restart := tcpLn == null || udpConn == null || NeedsRestart(cfg, next);
      state := Some(next);
      cfg := next;
      handlers.SyncUsers(next.users);
      if !restart {
        return true;
      }
      ok := Restart(grants);
    }

    /** Close: nothing stays bound, no session stays listed, and nothing ever will be bound again. */
    method Close()
      requires Valid() && handlers.Consistent()
      modifies this`closed, this`tcpLn, this`udpConn, made
      modifies handlers`udpSessions, handlers`run, handlers.udpSessions.Values
      ensures Valid() && View() == Step(old(View()), Op.Close).0
      ensures forall l :: l in made ==> !l.open
      ensures handlers.Consistent() && handlers.run == Sessions.Next(old(handlers.run), Sessions.CloseAll)
      ensures handlers.udpSessions == map[] && forall s :: s in old(handlers.udpSessions).Values ==> s.closed
    {
      hide Handlers.Consistent, Sessions.Next;
      closed := true;
      CloseListeners();
      handlers.CloseUDPSessions();
    }
  }
}
