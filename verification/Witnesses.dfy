/**
 Runs in which the code does not do what one might expect: an agent that joins late, a superseded entry, a command
 refused after a restart (src/controller/Controller.cpp:93-115, 192-219, src/agent/Agent.cpp:159-180).
 */
module Witnesses {
  import opened Options
  import opened Policies
  import opened Sessions
  import opened System
  import opened Registry
  import opened CommandOrder
  import opened Restarts

  const BAND: seq<Policy> := Band(40.0, 60.0)

  /** Agent 7, the only one, is registered on an open connection, has just been heard of and has nothing due. */
  ghost predicate Lone(s: State) {
    && |s.sessions| == 1 && s.registry == map[7 := 0] && s.sessions[0].conn == 0 && s.sessions[0].lastHeartbeat == s.now
    && |s.conns| == 1 && s.conns[0].context == Some(0) && s.conns[0].open
    && (forall k :: k in s.sessions[0].pending ==> s.sessions[0].pending[k].lastSend == s.now)
    && s.policies == BAND
  }

  lemma NothingDue(ss: Session, now: int)
    requires forall k :: k in ss.pending ==> ss.pending[k].lastSend == now
    ensures CheckTimeouts(ss, now) == ss && ResendKeys(ss, now) == {} && FailKeys(ss, now) == {}
  {
    assert CheckTimeouts(ss, now).pending == ss.pending;
    assert CheckTimeouts(ss, now).ledger == ss.ledger;
  }

  lemma LoneHealthy(s: State, cmd: Cmd<nat>)
    requires Lone(s) && s.clock == STOPPED
    ensures Healthy(s, 0) && 0 in s.registry.Values && Lock(s, 0) == Some(0) && CheckTime(s, 0) == s.now
    ensures Given(s, 0, [cmd]) == [cmd] && IssueGiven(s, 0, s.sessions[0], [cmd]) == Issue(s.sessions[0], cmd, s.now)
  {
    hide Issue;
    assert s.registry[7] in s.registry.Values;
    assert HealthyAgain(s, 0, 0) && [cmd][..0] == [];
    assert Given(s, 0, [cmd][..0]) == [] && IssueGiven(s, 0, s.sessions[0], [cmd][..0]) == s.sessions[0];
  }

  /** A tick at which the load leaves the band issues one command to the one agent. */
  lemma LoneTick(s: State, load: real, mode: nat)
    requires Lone(s) && |s.issued| < SENTINEL
    requires RunPolicies(BAND, load, s.overload) == Outcome(mode == 1, [mode])
    ensures var t, cmd := Step(s, Tick(None, load, STOPPED)), Cmd(|s.issued|, mode);
            && Lone(t) && t.overload == (mode == 1) && t.issued == s.issued + [mode] && t.agents == s.agents
            && t.sessions[0] == Issue(s.sessions[0], cmd, s.now) && t.conns[0].sent == s.conns[0].sent + [cmd]
  {
    hide RunPolicies, Healthy, Given, IssueGiven, CheckTimeouts, TickFailureCounts, TickTrackedCounts, FailKeys;
    hide ResendKeys;
    var b := Begin(s, None, STOPPED);
    var cmd: Cmd<nat> := Cmd(|s.issued|, mode);
    assert Commands(|s.issued|, [mode]) == [cmd];
    NothingDue(s.sessions[0], s.now);
    LoneHealthy(b, cmd);
    var t := OnTick(b, load);
    assert TickSession(b, 0, [cmd]) == Issue(s.sessions[0], cmd, s.now);
    assert TickConn(b, 0, [cmd]).sent == s.conns[0].sent + [cmd];
    assert t.registry == s.registry;
  }

  lemma BandTicks()
    ensures RunPolicies(BAND, 61.0, false) == Outcome(true, [1])
    ensures RunPolicies(BAND, 39.0, true) == Outcome(false, [0])
  {
    BandTick(40.0, 60.0, 61.0, false);
    BandTick(40.0, 60.0, 39.0, true);
  }

  /** Connect and HELLO, when nobody is there. */
  lemma JoinAlone(s: State)
    requires |s.agents| == 1 && s.sessions == [] && s.registry == map[] && s.conns == [] && s.policies == BAND
    ensures var t := Step(Step(s, Connect(0)), Receive(0, Hello(Some(7))));
            && Lone(t) && t.sessions[0] == NewSession(7, 0, s.now) && t.conns[0].sent == []
            && t.overload == s.overload && t.issued == s.issued
            && t.agents == [s.agents[0].(conn := Some(0), base := |s.agents[0].received|)]
  {
  }

  // ---------------------------------------------------------------- the runs

  /** Nobody tells an agent that joins during overload: connected, registered, nothing left to read, and in mode 0. */
  lemma LateJoinerIsNotTold()
    ensures var es := [Tick(None, 61.0, STOPPED), Connect(0), Receive(0, Hello(Some(7))), Deliver(0)];
            var s := Run(Initial(Setup(1, BAND)), es);
            && s.overload && 7 in s.registry && |s.agents| == 1 && s.agents[0].conn == Some(0) && !Unread(s, 0)
            && s.agents[0].core.mode == 0
  {
    hide RunPolicies, OnTick;
    var s0 := Initial(Setup(1, BAND));
    var e0, e1, e2, e3 := Tick(None, 61.0, STOPPED), Connect(0), Receive(0, Hello(Some(7))), Deliver(0);
    RunFour(s0, e0, e1, e2, e3);
    BandTicks();
    EmptyTick(s0, 61.0);
    JoinAlone(Step(s0, e0));
  }

  /** A tick when there are no sessions. */
  lemma EmptyTick(s: State, load: real)
    requires s.sessions == [] && s.registry == map[] && s.conns == []
    ensures var t := Step(s, Tick(None, load, STOPPED));
            && t.sessions == [] && t.registry == map[] && t.conns == [] && t.agents == s.agents && t.now == s.now
            && t.policies == s.policies && t.overload == RunPolicies(s.policies, load, s.overload).overload
  {
    hide RunPolicies, TickFailureCounts, TickTrackedCounts;
  }

  /** An entry is superseded: after two commands both ids are pending, and the session's message carries the second. */
  lemma EntryIsSuperseded()
    ensures var es := [Connect(0), Receive(0, Hello(Some(7))), Tick(None, 61.0, STOPPED), Tick(None, 39.0, STOPPED)];
            var s := Run(Initial(Setup(1, BAND)), es);
            && s.registry == map[7 := 0] && |s.sessions| == 1
            && s.sessions[0].pending.Keys == {0, 1} && s.sessions[0].slot == Some(Cmd(1, 0))
  {
    hide RunPolicies, Step;
    var s0 := Initial(Setup(1, BAND));
    var e0, e1, e2, e3 :=
      Connect(0), Receive(0, Hello(Some(7))), Tick(None, 61.0, STOPPED), Tick(None, 39.0, STOPPED);
    RunFour(s0, e0, e1, e2, e3);
    BandTicks();
    JoinAlone(s0);
    var s2 := Step(Step(s0, e0), e1);
    LoneTick(s2, 61.0, 1);
    LoneTick(Step(s2, e2), 39.0, 0);
  }

  /** A lifetime in which one command reaches the one agent. */
  function OneCommand(): Life {
    Life(BAND, [Connect(0), Receive(0, Hello(Some(7))), Tick(None, 61.0, STOPPED), Deliver(0)])
  }

  lemma OneCommandLife(memory: AgentCore.Core<nat>)
    ensures var s, r := Live([memory], OneCommand()), AgentCore.Handle(memory, Cmd(0, 1));
            && |s.agents| == 1 && s.agents[0].core == r.core && s.agents[0].received == [Cmd(0, 1)]
            && s.agents[0].applied == if r.reply.Ack? then [Cmd(0, 1)] else []
  {
    hide RunPolicies, OnTick, OnMessage;
    var s0, es := Started(BAND, [memory]), OneCommand().events;
    RunFour(s0, es[0], es[1], es[2], es[3]);
    assert es == [es[0], es[1], es[2], es[3]];
    BandTicks();
    JoinAlone(s0);
    LoneTick(Step(Step(s0, es[0]), es[1]), 61.0, 1);
  }

  /** After a restart the agent refuses the new controller's first command, which it has never applied. */
  lemma RestartRefusesCommand()
    ensures var s := Live(LiveAll([FRESH], [OneCommand()]), OneCommand());
            && |s.agents| == 1 && s.agents[0].received == [Cmd(0, 1)] && s.agents[0].applied == []
            && FullHistory(s.agents[0].received) == [Cmd(0, 1)]
  {
    hide Live, OneCommand;
    OneCommandLife(FRESH);
    var life := OneCommand();
    assert [life][..0] == [];
    assert LiveAll([FRESH], [life][..0]) == [FRESH];
    assert LiveAll([FRESH], [life]) == [AgentCore.Core(0, 1, 0)];
    OneCommandLife(AgentCore.Core(0, 1, 0));
    assert [Cmd(0, 1)][..0] == [];
  }
}
