/**
 Controllers come and go while agent processes live on: a new controller numbers its commands from 0 again, and the
 agents still remember the last id of the old one (include/controller/Controller.hpp:58-60, include/agent/Agent.hpp:59,
 src/agent/Agent.cpp:159-180).
 */
module Restarts {
  import opened Policies
  import opened System
  import opened CommandOrder
  import opened Parity

  /** One controller lifetime. */
  datatype Life = Life(policies: seq<Policy>, events: seq<Event>)

  /** The state at the end of a lifetime that the agents entered with the given memories. */
  function Live(memories: seq<AgentCore.Core<nat>>, life: Life): State {
    Run(Started(life.policies, memories), life.events)
  }

  function Memories(s: State): (r: seq<AgentCore.Core<nat>>)
    ensures |r| == |s.agents| && forall p :: 0 <= p < |r| ==> r[p] == s.agents[p].core
  {
    seq(|s.agents|, p requires 0 <= p < |s.agents| => s.agents[p].core)
  }

  /** What the agents remember after a number of lifetimes. */
  function LiveAll(memories: seq<AgentCore.Core<nat>>, lives: seq<Life>): seq<AgentCore.Core<nat>> {
    if lives == [] then memories
    else Memories(Live(LiveAll(memories, lives[..|lives| - 1]), lives[|lives| - 1]))
  }

  // ---------------------------------------------------------------- what restarts do not break

  ghost predicate AllEvenOddMemories(memories: seq<AgentCore.Core<nat>>) {
    forall p :: 0 <= p < |memories| ==> MemoryEvenOdd(memories[p])
  }

  lemma LiveInStep(memories: seq<AgentCore.Core<nat>>, life: Life)
    requires AllEvenOddMemories(memories)
    ensures InStep(Live(memories, life)) && AllEvenOddMemories(Memories(Live(memories, life)))
    ensures |Live(memories, life).agents| == |memories|
  {
    hide Run, MemoryEvenOdd;
    StartedInStep(life.policies, memories);
    RunInStep(Started(life.policies, memories), life.events);
    StartsStay(Started(life.policies, memories), life.events);
    var s := Live(memories, life);
    forall p | 0 <= p < |s.agents|
      ensures MemoryEvenOdd(s.agents[p].core)
    {
      assert AgentInStep(s.agents[p]);
    }
  }

  lemma {:induction false} LiveAllInStep(memories: seq<AgentCore.Core<nat>>, lives: seq<Life>)
    requires AllEvenOddMemories(memories)
    ensures AllEvenOddMemories(LiveAll(memories, lives)) && |LiveAll(memories, lives)| == |memories|
    decreases |lives|
  {
    hide Live, AllEvenOddMemories;
    if lives != [] {
      LiveAllInStep(memories, lives[..|lives| - 1]);
      LiveInStep(LiveAll(memories, lives[..|lives| - 1]), lives[|lives| - 1]);
    }
  }

  /**
   Restarts never leave an agent on the wrong side of mode 1.  Agents that were new at first go through any number of
   controller lifetimes, each with any policies and any events and without any bound on the commands issued.  At any
   point of the last one an agent is in mode 1 exactly when the id it remembers is even and, if it has received a
   command from this controller, exactly when the last command received says so, even if it refused it.  And if it is
   about to refuse a command as a duplicate, that command agrees with the mode it is in.
   */
  lemma ModeSurvivesRestarts(agentCount: nat, lives: seq<Life>, life: Life, p: nat)
    requires p < agentCount
    ensures var s := Live(LiveAll(seq(agentCount, _ => FRESH), lives), life);
            && |s.agents| == agentCount
            && var a := s.agents[p];
               && (a.core.mode == 1 <==> a.core.lastId % 2 == 0)
               && (a.received != [] ==> (a.core.mode == 1 <==> Last(a.received).mode == 1))
               && (Unread(s, p) ==>
                     var f := s.conns[a.conn.value].sent[|a.received| - a.base];
                     AgentCore.Handle(a.core, f).reply.Nack? ==> (f.mode == 1 <==> a.core.mode == 1))
  {
    hide Live, LiveAll, InPhase, SlotEvenOdd;
    var memories := seq(agentCount, _ => FRESH);
    LiveAllInStep(memories, lives);
    LiveInStep(LiveAll(memories, lives), life);
    var s := Live(LiveAll(memories, lives), life);
    assert AgentInStep(s.agents[p]);
    if Unread(s, p) {
      assert AllEvenOdd(s.conns[s.agents[p].conn.value].sent);
    }
  }

  // ---------------------------------------------------------------- what they do break

  /**
   "Each id is applied once" does not survive.  In a bounded lifetime frames still reach each agent in order, but the
   agent applies what a full-history filter would keep exactly if the first command it receives does not have the id
   it remembered at the start; otherwise it applies all of that but this one command.  And it is in the mode issued
   under the id it remembers, unless it has received only refused copies of that command, issued in another mode.
   */
  lemma FilterAfterRestart(memories: seq<AgentCore.Core<nat>>, life: Life, p: nat)
    requires p < |memories| && Bounded(Live(memories, life))
    ensures var s := Live(memories, life);
            && |s.agents| == |memories|
            && var a := s.agents[p];
               && Mono(a.received)
               && (a.applied == FullHistory(a.received) <==>
                     !(a.received != [] && a.received[0].id == memories[p].lastId))
               && (a.applied != FullHistory(a.received) ==> [a.received[0]] + a.applied == FullHistory(a.received))
               && (a.received == [] ==> a.core == memories[p])
               && (a.received != [] ==>
                     && a.core.lastId == Last(a.received).id < |s.issued|
                     && (a.core.mode == s.issued[a.core.lastId] <==>
                           !(a.received[0].id == Last(a.received).id == memories[p].lastId)
                           || memories[p].mode == s.issued[a.core.lastId]))
  {
    hide Run, FramesOk, SlotsOk, SessionsOk, InPhase, FullHistory;
    var s0, s := Started(life.policies, memories), Live(memories, life);
    StartedInv(life.policies, memories);
    RunKeepsInv(s0, life.events);
    StartsStay(s0, life.events);
    var a := s.agents[p];
    assert AgentOk(a, s.conns, s.issued) && a.start == memories[p];
    ReceivedMono(a, s.conns, s.issued);
    if a.received != [] {
      FullHistoryFirst(a.received);
      assert GoodFrame(a.received[|a.received| - 1], s.issued);
    }
  }

  lemma {:induction false} FullHistoryFirst(fs: Frames)
    requires fs != []
    ensures FullHistory(fs) != [] && FullHistory(fs)[0] == fs[0]
    decreases |fs|
  {
    if |fs| > 1 {
      FullHistoryFirst(fs[..|fs| - 1]);
    }
  }
}
