/**
 Mode 1 goes with even ids: by parity, without any bound on the number of commands, and whatever the agents remembered
 when the controller was started (src/controller/Controller.cpp:201-208, include/agent/Agent.hpp:46-59).
 */
module Parity {
  import opened Constants
  import opened Policies
  import opened Sessions
  import opened System
  import opened CommandOrder

  ghost predicate EvenOdd(f: Cmd<nat>) {
    f.mode == 1 <==> f.id % 2 == 0
  }

  ghost predicate AllEvenOdd(fs: Frames) {
    forall i :: 0 <= i < |fs| ==> EvenOdd(fs[i])
  }

  ghost predicate MemoryEvenOdd(a: AgentCore.Core<nat>) {
    a.mode == 1 <==> a.lastId % 2 == 0
  }

  /** The agent's memory, and the last frame it received. */
  ghost predicate AgentInStep(a: AgentProc) {
    && MemoryEvenOdd(a.core)
    && (if a.received == [] then a.core == a.start
        else a.core.lastId == Last(a.received).id && EvenOdd(Last(a.received)))
  }

  ghost predicate SlotEvenOdd(ss: Session) {
    ss.slot.Some? ==> EvenOdd(ss.slot.value)
  }

  ghost predicate InStep(s: State) {
    && InPhase(s.overload, s.issued)
    && (forall i :: 0 <= i < |s.sessions| ==> SlotEvenOdd(s.sessions[i]))
    && (forall c :: 0 <= c < |s.conns| ==> AllEvenOdd(s.conns[c].sent))
    && (forall p :: 0 <= p < |s.agents| ==> AgentInStep(s.agents[p]))
  }

  // ---------------------------------------------------------------- every step keeps it

  /** Ids wrap at an even number, so wrapping does not change their parity. */
  lemma CommandsEvenOdd(issued: seq<nat>, modes: seq<nat>)
    requires Alternating(issued + modes)
    ensures AllEvenOdd(Commands(|issued|, modes))
  {
    var cmds := Commands(|issued|, modes);
    forall i | 0 <= i < |cmds|
      ensures EvenOdd(cmds[i])
    {
      assert (issued + modes)[|issued| + i] == modes[i];
      WrapKeepsParity(|issued| + i);
    }
  }

  lemma WrapKeepsParity(n: nat)
    ensures n % U32_RANGE % 2 == n % 2
  {
  }

  lemma {:induction false} GivenEvenOdd(s: State, i: nat, ss: Session, cmds: Frames)
    requires AllEvenOdd(cmds) && SlotEvenOdd(ss)
    ensures AllEvenOdd(Given(s, i, cmds)) && SlotEvenOdd(IssueGiven(s, i, ss, cmds))
    decreases |cmds|
  {
    hide HealthyAgain, EvenOdd;
    if cmds != [] {
      GivenEvenOdd(s, i, ss, cmds[..|cmds| - 1]);
    }
  }

  lemma CopiesEvenOdd(ss: Session, n: nat)
    requires SlotEvenOdd(ss)
    ensures AllEvenOdd(Copies(ss, n))
  {
  }

  lemma ConcatEvenOdd(a: Frames, b: Frames)
    requires AllEvenOdd(a) && AllEvenOdd(b)
    ensures AllEvenOdd(a + b)
  {
  }

  lemma TickSessionInStep(s: State, i: nat, cmds: Frames)
    requires InStep(s) && AllEvenOdd(cmds) && i < |s.sessions|
    ensures SlotEvenOdd(TickSession(s, i, cmds))
  {
    hide Healthy, AllEvenOdd, EvenOdd, IssueGiven, AgentInStep;
    GivenEvenOdd(s, i, CheckTimeouts(s.sessions[i], CheckTime(s, i)), cmds);
  }

  lemma TickConnInStep(s: State, c: nat, cmds: Frames)
    requires InStep(s) && AllEvenOdd(cmds) && c < |s.conns|
    ensures AllEvenOdd(TickConn(s, c, cmds).sent)
  {
    hide Healthy, AllEvenOdd, SlotEvenOdd, IssueGiven, Given, Copies, ResendKeys, TickCloses, AgentInStep;
    var sid := Lock(s, c);
    if sid.Some? && Healthy(s, sid.value) {
      var ss, resent := s.sessions[sid.value], ResentFrames(s.sessions[sid.value], CheckTime(s, sid.value));
      GivenEvenOdd(s, sid.value, ss, cmds);
      CopiesEvenOdd(ss, |ResendKeys(ss, CheckTime(s, sid.value))|);
      ConcatEvenOdd(resent, Given(s, sid.value, cmds));
      ConcatEvenOdd(s.conns[c].sent, resent + Given(s, sid.value, cmds));
    } else {
      assert s.conns[c].sent + [] == s.conns[c].sent;
    }
  }

  lemma TickInStep(s: State, load: real)
    requires InStep(s)
    ensures InStep(OnTick(s, load))
  {
    hide TickSession, TickConn, RunPolicies, Commands, TickFailureCounts, TickTrackedCounts, Healthy, InPhase;
    hide SlotEvenOdd, AllEvenOdd, AgentInStep;
    var t, out := OnTick(s, load), RunPolicies(s.policies, load, s.overload);
    var cmds := Commands(|s.issued|, out.modes);
    PoliciesKeepPhase(s.policies, load, s.overload, s.issued);
    assert Alternating(s.issued + out.modes) by { PhaseMeans(out.overload, s.issued + out.modes); }
    CommandsEvenOdd(s.issued, out.modes);
    forall i: nat | i < |s.sessions|
      ensures SlotEvenOdd(t.sessions[i])
    {
      TickSessionInStep(s, i, cmds);
    }
    forall c: nat | c < |s.conns|
      ensures AllEvenOdd(t.conns[c].sent)
    {
      TickConnInStep(s, c, cmds);
    }
  }

  lemma PhaseMeans(overload: bool, issued: seq<nat>)
    requires InPhase(overload, issued)
    ensures Alternating(issued) && (overload <==> |issued| % 2 == 1)
  {
  }

  lemma DestroyKeepsSlots(s: State, agentId: nat)
    ensures var ss := Destroy(s.sessions, s.registry, agentId);
            |ss| == |s.sessions| && forall i :: 0 <= i < |ss| ==> ss[i].slot == s.sessions[i].slot
  {
  }

  lemma ErrorInStep(s: State, c: nat)
    requires InStep(s) && c < |s.conns|
    ensures InStep(OnError(s, c))
  {
    hide Destroy, EvenOdd, AllEvenOdd, AgentInStep, InPhase;
    if Lock(s, c).Some? {
      DestroyKeepsSlots(s, s.sessions[Lock(s, c).value].agentId);
    }
  }

  lemma RegisterInStep(s: State, c: nat, agentId: nat)
    requires InStep(s) && c < |s.conns|
    ensures InStep(Register(s, c, agentId))
  {
    hide Destroy, EvenOdd, AllEvenOdd, AgentInStep, InPhase;
    DestroyKeepsSlots(s, agentId);
  }

  lemma SameSlotsInStep(s: State, t: State)
    requires InStep(s) && t.overload == s.overload && t.issued == s.issued && t.agents == s.agents
    requires |t.sessions| == |s.sessions| && |t.conns| == |s.conns|
    requires forall i :: 0 <= i < |s.sessions| ==> t.sessions[i].slot == s.sessions[i].slot
    requires forall c :: 0 <= c < |s.conns| ==> t.conns[c].sent == s.conns[c].sent
    ensures InStep(t)
  {
    hide EvenOdd, AllEvenOdd, AgentInStep, InPhase;
  }

  lemma MessageInStep(s: State, c: nat, msg: Inbound)
    requires InStep(s) && c < |s.conns|
    ensures InStep(OnMessage(s, c, msg))
  {
    hide OnError, Register, InStep;
    ErrorInStep(s, c);
    match Lock(s, c)
    case None =>
      if !msg.Hello? {
        SameSlotsInStep(s, OnMessage(s, c, msg));
      } else if msg.agentId.Some? {
        RegisterInStep(s, c, msg.agentId.value);
      }
    case Some(sid) =>
      match msg
      case Heartbeat => SameSlotsInStep(s, OnMessage(s, c, msg));
      case Report(Some(_)) => SameSlotsInStep(s, OnMessage(s, c, msg));
      case AckOf(Some(_)) => SameSlotsInStep(s, OnMessage(s, c, msg));
      case NackOf(Some(_)) => SameSlotsInStep(s, OnMessage(s, c, msg));
      case _ =>
  }

  lemma ShutdownInStep(s: State)
    requires InStep(s)
    ensures InStep(OnShutdown(s))
  {
    hide EvenOdd, AllEvenOdd, AgentInStep, InPhase, Copies;
    forall c: nat | c < |s.conns|
      ensures AllEvenOdd(FlushConn(s, c).sent)
    {
      if Lock(s, c).Some? {
        var ss := s.sessions[Lock(s, c).value];
        CopiesEvenOdd(ss, |ss.pending|);
        ConcatEvenOdd(s.conns[c].sent, FlushedFrames(ss));
      }
    }
  }

  lemma ConnectInStep(s: State, p: nat)
    requires InStep(s) && p < |s.agents|
    ensures InStep(OnConnect(s, p))
  {
    hide EvenOdd, SlotEvenOdd, InPhase;
  }

  lemma DeliverInStep(s: State, p: nat)
    requires InStep(s) && Unread(s, p)
    ensures InStep(OnDeliver(s, p))
  {
    hide SlotEvenOdd, InPhase;
    var a := s.agents[p];
    var f := s.conns[a.conn.value].sent[|a.received| - a.base];
    assert AllEvenOdd(s.conns[a.conn.value].sent) && EvenOdd(f) && AgentInStep(a);
    assert Last(a.received + [f]) == f;
  }

  lemma StepInStep(s: State, e: Event)
    requires InStep(s)
    ensures InStep(Step(s, e))
  {
    hide InStep, OnTick, OnMessage, OnError, OnShutdown, OnConnect, OnDeliver;
    match e
    case Elapse(_) => SameSlotsInStep(s, Step(s, e));
    case Connect(p) => if p < |s.agents| { ConnectInStep(s, p); }
    case Receive(c, msg) => if c < |s.conns| { MessageInStep(s, c, msg); }
    case ConnectionError(c) => if c < |s.conns| { ErrorInStep(s, c); }
    case SocketClosed(c) => if c < |s.conns| { SameSlotsInStep(s, Step(s, e)); }
    case Tick(reload, load, clock) =>
      SameSlotsInStep(s, Begin(s, reload, clock));
      TickInStep(Begin(s, reload, clock), load);
    case Deliver(p) => if Unread(s, p) { DeliverInStep(s, p); }
    case Shutdown => ShutdownInStep(s);
  }

  lemma {:induction false} RunInStep(s: State, es: seq<Event>)
    requires InStep(s)
    ensures InStep(Run(s, es))
    decreases |es|
  {
    hide Step, InStep;
    if es != [] {
      StepInStep(s, es[0]);
      RunInStep(Step(s, es[0]), es[1..]);
    }
  }

  lemma StartedInStep(policies: seq<Policy>, memories: seq<AgentCore.Core<nat>>)
    requires forall p :: 0 <= p < |memories| ==> MemoryEvenOdd(memories[p])
    ensures InStep(Started(policies, memories))
  {
  }

  // ---------------------------------------------------------------- theorems

  lemma ReachedInStep(setup: Setup, es: seq<Event>)
    ensures InStep(Run(Initial(setup), es))
  {
    hide InStep, Run, Started;
    StartedInStep(setup.policies, seq(setup.agentCount, _ => FRESH));
    RunInStep(Initial(setup), es);
  }

  /**
   Parity, across any policy lists, reloads and loads, and without any bound: overload_mode_ is true exactly when
   the number of commands issued is odd, and the command with an even number, and only it, carries mode 1.
   */
  lemma OverloadIsParity(setup: Setup, es: seq<Event>)
    ensures var s := Run(Initial(setup), es);
            && (s.overload <==> |s.issued| % 2 == 1)
            && (forall i :: 0 <= i < |s.issued| ==> (s.issued[i] == 1 <==> i % 2 == 0))
  {
    hide Run;
    ReachedInStep(setup, es);
  }

  /** Hence an agent is in mode 1 exactly when the id it remembers is even; the initial sentinel is odd. */
  lemma AgentModeIsParity(setup: Setup, es: seq<Event>, p: nat)
    requires p < |Run(Initial(setup), es).agents|
    ensures var a := Run(Initial(setup), es).agents[p]; a.core.mode == 1 <==> a.core.lastId % 2 == 0
  {
    hide Run;
    ReachedInStep(setup, es);
    assert AgentInStep(Run(Initial(setup), es).agents[p]);
  }

  /**
   Agreement: agent and controller are of one mind exactly when the id the agent remembers and the number of the next
   command differ in parity.  In particular nobody tells a late joiner that the system is in overload.
   */
  lemma AgreementIsParity(setup: Setup, es: seq<Event>, p: nat)
    requires p < |Run(Initial(setup), es).agents|
    ensures var s := Run(Initial(setup), es);
            var a := s.agents[p];
            && ((a.core.mode == 1 <==> s.overload) <==> (|s.issued| + a.core.lastId) % 2 == 1)
            && (a.received == [] ==> a.core.mode == 0 && ((a.core.mode == 1 <==> s.overload) <==> |s.issued| % 2 == 0))
  {
    hide Run, Initial, InStep;
    AgentModeIsParity(setup, es, p);
    OverloadIsParity(setup, es);
    var s := Run(Initial(setup), es);
    ReachedInStep(setup, es);
    assert AgentInStep(s.agents[p]) by { AgentPart(s, p); }
    InitialInv(setup);
    StartsStay(Initial(setup), es);
    ParitiesDiffer(|s.issued|, s.agents[p].core.lastId);
  }

  lemma AgentPart(s: State, p: nat)
    requires InStep(s) && p < |s.agents|
    ensures AgentInStep(s.agents[p])
  {
  }

  lemma ParitiesDiffer(n: nat, k: nat)
    ensures (n + k) % 2 == 1 <==> (k % 2 == 0 <==> n % 2 == 1)
  {
  }
}
