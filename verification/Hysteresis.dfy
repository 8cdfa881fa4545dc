/** The policies' hysteresis over whole runs of the system (src/controller/Controller.cpp:189-219). */
module Hysteresis {
  import opened Policies
  import opened Sessions
  import opened System

  /** The average loads seen by the ticks of a run. */
  function TickLoads(es: seq<Event>): seq<real> {
    if es == [] then []
    else if es[0].Tick? then [es[0].load] + TickLoads(es[1..])
    else TickLoads(es[1..])
  }

  /** No tick of the run loads policies other than `ps`. */
  ghost predicate NoOtherPolicies(es: seq<Event>, ps: seq<Policy>) {
    forall e :: e in es && e.Tick? && e.reload.Some? ==> e.reload.value == ps
  }

  /** Only a tick loads policies, changes overload_mode_ or issues commands. */
  lemma OnlyTicksDecide(s: State, e: Event)
    ensures var t := Step(s, e);
            if e.Tick? then
              var ps := if e.reload.Some? then e.reload.value else s.policies;
              var r := RunPolicies(ps, e.load, s.overload);
              t.policies == ps && t.overload == r.overload && t.issued == s.issued + r.modes
            else t.policies == s.policies && t.overload == s.overload && t.issued == s.issued
  {
    hide RunPolicies, Commands, TickSession, TickConn, TickFailureCounts, TickTrackedCounts, Healthy;
    hide FlushSession, FlushConn, OnMessage, Destroy;
    if e.Receive? && e.conn < |s.conns| {
      MessagesDoNotDecide(s, e.conn, e.msg);
    }
  }

  lemma MessagesDoNotDecide(s: State, c: nat, msg: Inbound)
    requires c < |s.conns|
    ensures var t := OnMessage(s, c, msg);
            t.policies == s.policies && t.overload == s.overload && t.issued == s.issued
  {
    hide Destroy, HandleAck, Beat, Lock;
  }

  lemma SamePolicies(s: State, e: Event)
    requires e.Tick? && e.reload.Some? ==> e.reload.value == s.policies
    ensures var t := Step(s, e);
            var r := if e.Tick? then RunPolicies(s.policies, e.load, s.overload) else Outcome(s.overload, []);
            t.policies == s.policies && t.overload == r.overload && t.issued == s.issued + r.modes
  {
    hide Step, RunPolicies;
    OnlyTicksDecide(s, e);
  }

  lemma {:induction false} RunIsTicks(s: State, es: seq<Event>)
    requires NoOtherPolicies(es, s.policies)
    ensures var t, r := Run(s, es), RunTicks(s.policies, TickLoads(es), s.overload);
            t.overload == r.overload && t.issued == s.issued + r.modes
    decreases |es|
  {
    hide Step, RunPolicies, RunTicks;
    if es == [] {
      NoTicks(s.policies, s.overload);
    } else {
      var t, rest := Step(s, es[0]), TickLoads(es[1..]);
      SamePolicies(s, es[0]);
      RunIsTicks(t, es[1..]);
      if es[0].Tick? {
        var r := RunPolicies(s.policies, es[0].load, s.overload);
        FirstTick(s.policies, es[0].load, rest, s.overload);
        assert s.issued + (r.modes + RunTicks(s.policies, rest, r.overload).modes) == Run(s, es).issued;
      }
    }
  }

  lemma NoTicks(ps: seq<Policy>, overload: bool)
    ensures RunTicks(ps, [], overload) == Outcome(overload, [])
  {
  }

  lemma FirstTick(ps: seq<Policy>, load: real, loads: seq<real>, overload: bool)
    ensures var r := RunPolicies(ps, load, overload);
            var rest := RunTicks(ps, loads, r.overload);
            RunTicks(ps, [load] + loads, overload) == Outcome(rest.overload, r.modes + rest.modes)
  {
    hide RunPolicies;
    assert ([load] + loads)[1..] == loads;
  }

  /**
   Hysteresis over runs: from any state with a proper band loaded, through any events that load no other policies,
   overload_mode_ says on which side the average load last left the band at a tick (or is unchanged), and the
   commands issued are as many as the load changed side.
   */
  lemma HysteresisOverRuns(s: State, es: seq<Event>, low: real, high: real)
    requires low <= high && s.policies == Band(low, high) && NoOtherPolicies(es, s.policies)
    ensures var t, loads := Run(s, es), TickLoads(es);
            && t.overload == LastOutside(low, high, loads, s.overload)
            && |t.issued| == |s.issued| + Alternations(low, high, loads, s.overload)
  {
    RunIsTicks(s, es);
    BandHysteresis(low, high, TickLoads(es), s.overload);
  }
}
