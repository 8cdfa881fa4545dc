/**
 Who owns an agent id: the strong references in `registry` against the weak references in the connections
 (src/controller/Controller.cpp:69-122, 177-186).
 */
module Registry {
  import opened Options
  import opened Policies
  import opened Sessions
  import opened System

  /** A registered session is filed under its own agent id and its connection's context refers back to it. */
  ghost predicate RegistryOk(s: State) {
    forall a :: a in s.registry ==>
      var sid := s.registry[a];
      && sid < |s.sessions| && s.sessions[sid].agentId == a && s.sessions[sid].conn < |s.conns|
      && s.conns[s.sessions[sid].conn].context == Some(sid)
  }

  /** A connection's context refers to a session made for that connection. */
  ghost predicate ContextsOk(s: State) {
    forall c :: 0 <= c < |s.conns| && s.conns[c].context.Some? ==>
      var sid := s.conns[c].context.value;
      sid < |s.sessions| && s.sessions[sid].conn == c
  }

  ghost predicate ReadersOk(s: State) {
    forall p :: 0 <= p < |s.agents| && s.agents[p].conn.Some? ==> s.agents[p].conn.value < |s.conns|
  }

  ghost predicate Wired(s: State) {
    RegistryOk(s) && ContextsOk(s) && ReadersOk(s)
  }

  lemma RegisteredMeans(s: State, sid: nat)
    requires RegistryOk(s)
    ensures sid in s.registry.Values <==>
              sid < |s.sessions| && s.sessions[sid].agentId in s.registry && s.registry[s.sessions[sid].agentId] == sid
  {
    if sid in s.registry.Values {
      var a :| a in s.registry && s.registry[a] == sid;
    }
  }

  /** Two registered sessions never share a connection. */
  lemma OwnConnection(s: State, sid: nat)
    requires Wired(s) && sid in s.registry.Values
    ensures sid < |s.sessions| && s.sessions[sid].conn < |s.conns| && Lock(s, s.sessions[sid].conn) == Some(sid)
  {
    RegisteredMeans(s, sid);
  }

  // ---------------------------------------------------------------- every step keeps it

  lemma {:induction false} IssueGivenKeepsNames(s: State, i: nat, ss: Session, cmds: seq<Cmd<nat>>)
    ensures var t := IssueGiven(s, i, ss, cmds);
            t.agentId == ss.agentId && t.conn == ss.conn && t.lastHeartbeat == ss.lastHeartbeat
    decreases |cmds|
  {
    if cmds != [] {
      IssueGivenKeepsNames(s, i, ss, cmds[..|cmds| - 1]);
    }
  }

  lemma TickKeepsNames(s: State, i: nat, cmds: seq<Cmd<nat>>)
    requires i < |s.sessions|
    ensures var t := TickSession(s, i, cmds);
            && t.agentId == s.sessions[i].agentId && t.conn == s.sessions[i].conn
            && t.lastHeartbeat == s.sessions[i].lastHeartbeat
  {
    hide Healthy, IssueGiven;
    IssueGivenKeepsNames(s, i, CheckTimeouts(s.sessions[i], CheckTime(s, i)), cmds);
  }

  lemma TickLoopsKeepWired(s: State, out: Outcome)
    requires Wired(s)
    ensures Wired(TickLoops(s, out)) && Wired(TickWith(s, out))
  {
    hide TickSession, TickFrames, TickCloses, Commands, Healthy, TickFailureCounts, TickTrackedCounts;
    var cmds := Commands(|s.issued|, out.modes);
    forall i: nat | i < |s.sessions|
      ensures TickSession(s, i, cmds).agentId == s.sessions[i].agentId
      ensures TickSession(s, i, cmds).conn == s.sessions[i].conn
    {
      TickKeepsNames(s, i, cmds);
    }
  }

  lemma TickKeepsWired(s: State, load: real)
    requires Wired(s)
    ensures Wired(OnTick(s, load))
  {
    hide Wired, TickWith;
    TickLoopsKeepWired(s, RunPolicies(s.policies, load, s.overload));
  }

  /** The policies and the clock play no part in the wiring. */
  lemma BeginKeepsWired(s: State, reload: Option<seq<Policy>>, clock: Clock)
    requires Wired(s)
    ensures Wired(Begin(s, reload, clock))
  {
  }

  lemma DestroyKeepsNames(s: State, agentId: nat)
    ensures var ss := Destroy(s.sessions, s.registry, agentId);
            |ss| == |s.sessions| &&
            forall i :: 0 <= i < |ss| ==> ss[i].agentId == s.sessions[i].agentId && ss[i].conn == s.sessions[i].conn
  {
  }

  lemma RegisterKeepsWired(s: State, c: nat, agentId: nat)
    requires Wired(s) && c < |s.conns| && Lock(s, c).None?
    ensures Wired(Register(s, c, agentId))
  {
    hide Destroy;
    DestroyKeepsNames(s, agentId);
    var t := Register(s, c, agentId);
    forall a | a in t.registry
      ensures var sid := t.registry[a];
              && sid < |t.sessions| && t.sessions[sid].agentId == a && t.sessions[sid].conn < |t.conns|
              && t.conns[t.sessions[sid].conn].context == Some(sid)
    {
      if a != agentId {
        RegisteredMeans(s, s.registry[a]);
      }
    }
  }

  lemma ErrorKeepsWired(s: State, c: nat)
    requires Wired(s) && c < |s.conns|
    ensures Wired(OnError(s, c))
  {
    hide Destroy;
    var sid := Lock(s, c);
    if sid.Some? {
      DestroyKeepsNames(s, s.sessions[sid.value].agentId);
    }
  }

  lemma CloseKeepsWired(s: State, c: nat)
    requires Wired(s) && c < |s.conns|
    ensures Wired(s.(conns := s.conns[c := s.conns[c].(closeAsked := true)]))
  {
  }

  /** Changing one session but not its names does not affect the wiring. */
  lemma SessionKeepsWired(s: State, t: State, sid: nat)
    requires Wired(s) && sid < |s.sessions| && |t.sessions| == |s.sessions| && t.registry == s.registry
    requires t.sessions == s.sessions[sid := t.sessions[sid]] && t.conns == s.conns && t.agents == s.agents
    requires t.sessions[sid].agentId == s.sessions[sid].agentId && t.sessions[sid].conn == s.sessions[sid].conn
    ensures Wired(t)
  {
  }

  lemma MessageKeepsWired(s: State, c: nat, msg: Inbound)
    requires Wired(s) && c < |s.conns|
    ensures Wired(OnMessage(s, c, msg))
  {
    hide Register, OnError, Wired;
    ErrorKeepsWired(s, c);
    match Lock(s, c)
    case None =>
      if !msg.Hello? {
        CloseKeepsWired(s, c);
      } else if msg.agentId.Some? {
        RegisterKeepsWired(s, c, msg.agentId.value);
      }
    case Some(sid) =>
      var ss := s.sessions[sid];
      match msg
      case Heartbeat => SessionKeepsWired(s, s.(sessions := s.sessions[sid := Beat(ss, s.now)]), sid);
      case Report(Some(load)) => SessionKeepsWired(s, s.(loads := s.loads[ss.agentId := load]), sid);
      case AckOf(Some(id)) => SessionKeepsWired(s, OnAck(s, sid, id), sid);
      case NackOf(Some(id)) => SessionKeepsWired(s, OnAck(s, sid, id), sid);
      case _ =>
  }

  lemma ShutdownKeepsWired(s: State)
    requires Wired(s)
    ensures Wired(OnShutdown(s))
  {
    hide FlushedFrames, Flush, Lock;
    assert forall i: nat :: i < |s.sessions| ==>
        FlushSession(s, i).agentId == s.sessions[i].agentId && FlushSession(s, i).conn == s.sessions[i].conn by {
      FlushKeepsNames(s);
    }
  }

  lemma FlushKeepsNames(s: State)
    ensures forall i: nat :: i < |s.sessions| ==>
              FlushSession(s, i).agentId == s.sessions[i].agentId && FlushSession(s, i).conn == s.sessions[i].conn
  {
  }

  lemma ConnectKeepsWired(s: State, p: nat)
    requires Wired(s) && p < |s.agents|
    ensures Wired(OnConnect(s, p))
  {
  }

  lemma StepKeepsWired(s: State, e: Event)
    requires Wired(s)
    ensures Wired(Step(s, e))
  {
    hide OnMessage, OnError, OnTick, OnShutdown, OnConnect, Begin;
    match e
    case Shutdown => ShutdownKeepsWired(s);
    case Connect(p) => if p < |s.agents| { ConnectKeepsWired(s, p); }
    case Receive(c, msg) => if c < |s.conns| { MessageKeepsWired(s, c, msg); }
    case ConnectionError(c) => if c < |s.conns| { ErrorKeepsWired(s, c); }
    case Tick(reload, load, clock) =>
      BeginKeepsWired(s, reload, clock);
      TickKeepsWired(Begin(s, reload, clock), load);
    case _ =>
  }

  lemma {:induction false} RunKeepsWired(s: State, es: seq<Event>)
    requires Wired(s)
    ensures Wired(Run(s, es))
    decreases |es|
  {
    hide Step;
    if es != [] {
      StepKeepsWired(s, es[0]);
      RunKeepsWired(Step(s, es[0]), es[1..]);
    }
  }

  lemma MessageKeepsNames(s: State, c: nat, msg: Inbound, sid: nat)
    requires c < |s.conns| && sid < |s.sessions|
    ensures var t := OnMessage(s, c, msg); sid < |t.sessions| && t.sessions[sid].conn == s.sessions[sid].conn
  {
    hide Destroy;
    if msg.Hello? && msg.agentId.Some? {
      DestroyKeepsNames(s, msg.agentId.value);
    }
    if Lock(s, c).Some? {
      DestroyKeepsNames(s, s.sessions[Lock(s, c).value].agentId);
    }
  }

  /** A session is made for one connection, for good. */
  lemma StepKeepsConn(s: State, e: Event, sid: nat)
    requires sid < |s.sessions|
    ensures sid < |Step(s, e).sessions| && Step(s, e).sessions[sid].conn == s.sessions[sid].conn
  {
    hide OnMessage, Destroy, TickSession, TickConn, TickFailureCounts, TickTrackedCounts, RunPolicies, Commands;
    hide FlushConn, Healthy;
    match e
    case Receive(c, msg) => if c < |s.conns| { MessageKeepsNames(s, c, msg, sid); }
    case ConnectionError(c) =>
      if c < |s.conns| && Lock(s, c).Some? {
        DestroyKeepsNames(s, s.sessions[Lock(s, c).value].agentId);
      }
    case Tick(reload, load, clock) =>
      var b := Begin(s, reload, clock);
      TickKeepsNames(b, sid, Commands(|b.issued|, RunPolicies(b.policies, load, b.overload).modes));
    case _ =>
  }

  lemma {:induction false} RunKeepsConn(s: State, es: seq<Event>, sid: nat)
    requires sid < |s.sessions|
    ensures sid < |Run(s, es).sessions| && Run(s, es).sessions[sid].conn == s.sessions[sid].conn
    decreases |es|
  {
    hide Step;
    if es != [] {
      StepKeepsConn(s, es[0], sid);
      RunKeepsConn(Step(s, es[0]), es[1..], sid);
    }
  }

  // ---------------------------------------------------------------- theorems

  /**
   Registry ownership: in every reachable state a connection's context locks to a session exactly when that session
   is the one registered under its own agent id, and every registered session is reached through its connection.
   */
  lemma Ownership(setup: Setup, es: seq<Event>)
    ensures var s := Run(Initial(setup), es);
            && (forall c :: 0 <= c < |s.conns| && s.conns[c].context.Some? ==>
                  var sid := s.conns[c].context.value;
                  && sid < |s.sessions|
                  && (Lock(s, c) == Some(sid) <==>
                        s.sessions[sid].agentId in s.registry && s.registry[s.sessions[sid].agentId] == sid))
            && (forall a :: a in s.registry ==>
                  var sid := s.registry[a];
                  && sid < |s.sessions| && s.sessions[sid].conn < |s.conns|
                  && Lock(s, s.sessions[sid].conn) == Some(sid))
  {
    var s := Run(Initial(setup), es);
    RunKeepsWired(Initial(setup), es);
    forall c: nat | c < |s.conns| && s.conns[c].context.Some?
      ensures Lock(s, c) == Some(s.conns[c].context.value) <==>
                var sid := s.conns[c].context.value;
                s.sessions[sid].agentId in s.registry && s.registry[s.sessions[sid].agentId] == sid
    {
      RegisteredMeans(s, s.conns[c].context.value);
    }
    forall a | a in s.registry
      ensures var sid := s.registry[a];
              sid < |s.sessions| && s.sessions[sid].conn < |s.conns| && Lock(s, s.sessions[sid].conn) == Some(sid)
    {
      OwnConnection(s, s.registry[a]);
    }
  }

  /** The event concerns connection `c` only. */
  predicate OnConn(e: Event, c: nat) {
    (e.Receive? || e.ConnectionError? || e.SocketClosed?) && e.conn == c
  }

  /** The session registered for `a` is still registered, and neither it nor the load reported for `a` has changed. */
  ghost predicate Untouched(s: State, t: State, a: nat) {
    && a in s.registry && a in t.registry && t.registry[a] == s.registry[a]
    && s.registry[a] < |s.sessions| && s.registry[a] < |t.sessions|
    && t.sessions[s.registry[a]] == s.sessions[s.registry[a]]
    && (a in t.loads <==> a in s.loads) && (a in s.loads ==> t.loads[a] == s.loads[a])
  }

  lemma ErrorIsolated(s: State, c: nat, a: nat)
    requires Wired(s) && c < |s.conns|
    requires a in s.registry && s.sessions[s.registry[a]].conn != c
    ensures Untouched(s, OnError(s, c), a)
  {
    if Lock(s, c).Some? {
      RegisteredMeans(s, Lock(s, c).value);
    }
  }

  lemma RegisterIsolated(s: State, c: nat, b: nat, a: nat)
    requires Wired(s) && c < |s.conns|
    requires a in s.registry && s.sessions[s.registry[a]].conn != c
    ensures Untouched(s, Register(s, c, b), a) <==> b != a
  {
    if b in s.registry {
      RegisteredMeans(s, s.registry[b]);
    }
  }

  lemma MessageIsolated(s: State, c: nat, msg: Inbound, a: nat)
    requires Wired(s) && c < |s.conns|
    requires a in s.registry && s.sessions[s.registry[a]].conn != c
    ensures Untouched(s, OnMessage(s, c, msg), a) <==> !(msg == Hello(Some(a)) && Lock(s, c).None?)
  {
    hide Register, OnError;
    ErrorIsolated(s, c, a);
    if Lock(s, c).Some? {
      RegisteredMeans(s, Lock(s, c).value);
    } else if msg.Hello? && msg.agentId.Some? {
      RegisterIsolated(s, c, msg.agentId.value, a);
    }
  }

  lemma IsolationStep(s: State, e: Event, c: nat, a: nat)
    requires Wired(s) && c < |s.conns| && OnConn(e, c)
    requires a in s.registry && s.sessions[s.registry[a]].conn != c
    ensures Untouched(s, Step(s, e), a) <==>
              !(e.Receive? && e.msg == Hello(Some(a)) && Lock(s, c).None?)
  {
    hide OnMessage, OnError;
    match e
    case Receive(_, msg) => MessageIsolated(s, c, msg, a);
    case ConnectionError(_) => ErrorIsolated(s, c, a);
    case SocketClosed(_) =>
  }

  /**
   Isolation: whatever arrives on, or happens to, a connection other than the one of the session registered for `a`
   (for instance a displaced connection of the same agent), that session is not evicted, its heartbeat, pending
   commands and reported state are untouched, with a single exception: a HELLO for `a` on a connection that has no
   live session takes the id over.
   */
  lemma Isolation(setup: Setup, es: seq<Event>, e: Event, c: nat, a: nat)
    requires var s := Run(Initial(setup), es);
             && c < |s.conns| && OnConn(e, c)
             && a in s.registry && s.registry[a] < |s.sessions| && s.sessions[s.registry[a]].conn != c
    ensures var s := Run(Initial(setup), es);
            Untouched(s, Step(s, e), a) <==> !(e.Receive? && e.msg == Hello(Some(a)) && Lock(s, c).None?)
  {
    RunKeepsWired(Initial(setup), es);
    hide Run, Step;
    IsolationStep(Run(Initial(setup), es), e, c, a);
  }

  /**
   The exception is real: an agent's connection displaced by a newer one takes the agent id back with a late HELLO,
   and the newer session is destroyed.
   */
  lemma LateHelloTakesOver()
    ensures var setup := Setup(2, []);
            var es := [Connect(0), Connect(1), Receive(0, Hello(Some(7))), Receive(1, Hello(Some(7)))];
            var s := Run(Initial(setup), es);
            var t := Step(s, Receive(0, Hello(Some(7))));
            && 7 in s.registry && s.registry[7] == 1 && s.sessions[1].conn == 1
            && 7 in t.registry && t.registry[7] == 2 && t.sessions[2].conn == 0 && !Untouched(s, t, 7)
  {
    var s0 := Initial(Setup(2, []));
    var e0, e1, e2, e3 := Connect(0), Connect(1), Receive(0, Hello(Some(7))), Receive(1, Hello(Some(7)));
    var s1 := Step(s0, e0);
    var s2 := Step(s1, e1);
    assert s2.conns == [NewConn(), NewConn()];
    TwoHellos(s2);
    RunFour(s0, e0, e1, e2, e3);
  }

  lemma TwoHellos(s: State)
    requires s.conns == [NewConn(), NewConn()] && s.registry == map[] && s.sessions == []
    ensures var hello := (c: nat) => Receive(c, Hello(Some(7)));
            var t := Step(Step(s, hello(0)), hello(1));
            var u := Step(t, hello(0));
            && t.registry == map[7 := 1] && |t.sessions| == 2 && t.sessions[1].conn == 1
            && u.registry == map[7 := 2] && |u.sessions| == 3 && u.sessions[2].conn == 0
  {
    var s3 := Step(s, Receive(0, Hello(Some(7))));
    assert s3.registry == map[7 := 0] && |s3.sessions| == 1 && |s3.conns| == 2 && s3.conns[1] == NewConn();
    var s4 := Step(s3, Receive(1, Hello(Some(7))));
    assert s4.registry == map[7 := 1] && |s4.sessions| == 2 && |s4.conns| == 2 && s4.conns[0].context == Some(0);
    assert 0 !in s4.registry.Values;
  }

  lemma RunFour(s: State, e0: Event, e1: Event, e2: Event, e3: Event)
    ensures Run(s, [e0, e1, e2, e3]) == Step(Step(Step(Step(s, e0), e1), e2), e3)
  {
    hide Step;
    var s1, s2, s3 := Step(s, e0), Step(Step(s, e0), e1), Step(Step(Step(s, e0), e1), e2);
    assert Run(s3, [e3]) == Step(s3, e3);
    assert [e2, e3][1..] == [e3] && [e1, e2, e3][1..] == [e2, e3] && [e0, e1, e2, e3][1..] == [e1, e2, e3];
    assert Run(s2, [e2, e3]) == Run(s3, [e3]);
    assert Run(s1, [e1, e2, e3]) == Run(s2, [e2, e3]);
  }
}
