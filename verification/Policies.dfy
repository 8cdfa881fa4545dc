/** The policy loop of the controller's health-check tick (src/controller/Controller.cpp:189-219). */
module Policies {
  import opened Constants

  datatype Policy = Policy(op: string, threshold: real, command: bv16, mode: nat)

  predicate ConditionMet(p: Policy, load: real) {
    if p.op == ">" then load > p.threshold
    else if p.op == "<" then load < p.threshold
    else false
  }

  predicate Triggers(p: Policy, load: real, overload: bool) {
    ConditionMet(p, load) && p.command == CMD_SET_MODE && overload != (p.mode == 1)
  }

  /** overload_mode_ after the loop, and the modes of the commands issued by it, in order. */
  datatype Outcome = Outcome(overload: bool, modes: seq<nat>)

  function RunPolicies(ps: seq<Policy>, load: real, overload: bool): Outcome {
    if ps == [] then Outcome(overload, [])
    else if Triggers(ps[0], load, overload) then
      var r := RunPolicies(ps[1..], load, ps[0].mode == 1);
      Outcome(r.overload, [ps[0].mode] + r.modes)
    else RunPolicies(ps[1..], load, overload)
  }

  lemma {:induction false} RunPoliciesSnoc(ps: seq<Policy>, p: Policy, load: real, overload: bool)
    ensures var r := RunPolicies(ps, load, overload);
            RunPolicies(ps + [p], load, overload)
            == if Triggers(p, load, r.overload) then Outcome(p.mode == 1, r.modes + [p.mode]) else r
    decreases |ps|
  {
    if ps != [] {
      assert (ps + [p])[1..] == ps[1..] + [p];
      var next := if Triggers(ps[0], load, overload) then ps[0].mode == 1 else overload;
      RunPoliciesSnoc(ps[1..], p, load, next);
    } else {
      assert [] + [p] == [p] && [p][1..] == [];
    }
  }

  // ---------------------------------------------------------------- which policies count

  /** A policy that sets a mode and whose comparison, strictly, holds. */
  predicate Applies(p: Policy, load: real) {
    p.command == 0x1003 && ((p.op == ">" && load > p.threshold) || (p.op == "<" && load < p.threshold))
  }

  /** The last applicable policy decides the mode; if there is none, nothing happens. */
  lemma {:induction false} LastApplicableDecides(ps: seq<Policy>, load: real, overload: bool)
    ensures var r := RunPolicies(ps, load, overload);
            && ((forall p :: p in ps ==> !Applies(p, load)) ==> r == Outcome(overload, []))
            && (forall i :: 0 <= i < |ps| && Applies(ps[i], load)
                            && (forall j :: i < j < |ps| ==> !Applies(ps[j], load)) ==>
                  r.overload == (ps[i].mode == 1))
    decreases |ps|
  {
    if ps != [] {
      var n := |ps| - 1;
      var front, r := ps[..n], RunPolicies(ps[..n], load, overload);
      LastApplicableDecides(front, load, overload);
      assert ps == front + [ps[n]];
      RunPoliciesSnoc(front, ps[n], load, overload);
      assert Triggers(ps[n], load, r.overload) <==> Applies(ps[n], load) && r.overload != (ps[n].mode == 1);
      hide RunPolicies;
      if !Applies(ps[n], load) {
        assert forall i :: 0 <= i < n ==> front[i] == ps[i];
      }
    }
  }

  /** Every command issued carries the mode of an applicable policy. */
  lemma {:induction false} CommandsHaveReasons(ps: seq<Policy>, load: real, overload: bool, mode: nat)
    requires mode in RunPolicies(ps, load, overload).modes
    ensures exists p :: p in ps && Applies(p, load) && p.mode == mode
    decreases |ps|
  {
    assert Triggers(ps[0], load, overload) ==> Applies(ps[0], load);
    if Triggers(ps[0], load, overload) {
      if mode != ps[0].mode {
        CommandsHaveReasons(ps[1..], load, ps[0].mode == 1, mode);
      }
    } else {
      CommandsHaveReasons(ps[1..], load, overload, mode);
    }
  }

  // ---------------------------------------------------------------- parity

  /** Commands alternate: the one at an even position carries mode 1, the one at an odd position does not. */
  ghost predicate Alternating(issued: seq<nat>) {
    forall i :: 0 <= i < |issued| ==> (issued[i] == 1 <==> i % 2 == 0)
  }

  /** overload_mode_ is the parity of the number of commands issued so far. */
  ghost predicate InPhase(overload: bool, issued: seq<nat>) {
    Alternating(issued) && (overload <==> |issued| % 2 == 1)
  }

  /** Whatever the policies and the load, one pass of the loop keeps the phase. */
  lemma {:induction false} PoliciesKeepPhase(ps: seq<Policy>, load: real, overload: bool, issued: seq<nat>)
    requires InPhase(overload, issued)
    ensures var r := RunPolicies(ps, load, overload); InPhase(r.overload, issued + r.modes)
    decreases |ps|
  {
    if ps == [] {
      assert issued + [] == issued;
    } else if Triggers(ps[0], load, overload) {
      PoliciesKeepPhase(ps[1..], load, ps[0].mode == 1, issued + [ps[0].mode]);
      var r := RunPolicies(ps[1..], load, ps[0].mode == 1);
      assert issued + ([ps[0].mode] + r.modes) == (issued + [ps[0].mode]) + r.modes;
    } else {
      PoliciesKeepPhase(ps[1..], load, overload, issued);
    }
  }

  // ---------------------------------------------------------------- hysteresis

  /** The shipped shape of policy file: above `high` enter mode 1, below `low` leave it. */
  function Band(low: real, high: real): seq<Policy> {
    [Policy(">", high, CMD_SET_MODE, 1), Policy("<", low, CMD_SET_MODE, 0)]
  }

  /** overload_mode_ and all commands issued, after one tick for each load. */
  function RunTicks(ps: seq<Policy>, loads: seq<real>, overload: bool): Outcome
    decreases |loads|
  {
    if loads == [] then Outcome(overload, [])
    else
      var r := RunPolicies(ps, loads[0], overload);
      var rest := RunTicks(ps, loads[1..], r.overload);
      Outcome(rest.overload, r.modes + rest.modes)
  }

  /** Whether the last load outside the band was above it; `before` if every load was inside. */
  function LastOutside(low: real, high: real, loads: seq<real>, before: bool): bool
    decreases |loads|
  {
    if loads == [] then before
    else
      var last := loads[|loads| - 1];
      if last > high then true
      else if last < low then false
      else LastOutside(low, high, loads[..|loads| - 1], before)
  }

  /** How often the loads outside the band change side, starting from side `before`. */
  function Alternations(low: real, high: real, loads: seq<real>, before: bool): nat
    decreases |loads|
  {
    if loads == [] then 0
    else
      var front, last := loads[..|loads| - 1], loads[|loads| - 1];
      var side := LastOutside(low, high, front, before);
      Alternations(low, high, front, before) + if (last > high && !side) || (last < low && side) then 1 else 0
  }

  /** One tick of a proper band: a command only when the load leaves the band on the other side. */
  lemma BandTick(low: real, high: real, load: real, overload: bool)
    requires low <= high
    ensures var r := RunPolicies(Band(low, high), load, overload);
            && r.overload == (if load > high then true else if load < low then false else overload)
            && r.modes == (if load > high && !overload then [1] else if load < low && overload then [0] else [])
  {
    var ps := Band(low, high);
    assert ps[1..] == [ps[1]] && ps[1..][1..] == [];
    assert "<"[0] != ">"[0];
    var next := if load > high then true else overload;
    assert RunPolicies(ps[1..], load, next)
        == if load < low && next then Outcome(false, [0] + []) else Outcome(next, []);
  }

  lemma {:induction false} RunTicksSnoc(ps: seq<Policy>, loads: seq<real>, load: real, overload: bool)
    ensures var r := RunTicks(ps, loads, overload);
            var t := RunPolicies(ps, load, r.overload);
            RunTicks(ps, loads + [load], overload) == Outcome(t.overload, r.modes + t.modes)
    decreases |loads|
  {
    if loads == [] {
      assert ([] + [load])[1..] == [];
      assert RunTicks(ps, [load][1..], RunPolicies(ps, load, overload).overload).modes == [];
    } else {
      assert (loads + [load])[1..] == loads[1..] + [load];
      var first := RunPolicies(ps, loads[0], overload);
      RunTicksSnoc(ps, loads[1..], load, first.overload);
      var r := RunTicks(ps, loads[1..], first.overload);
      var t := RunPolicies(ps, load, r.overload);
      assert first.modes + (r.modes + t.modes) == (first.modes + r.modes) + t.modes;
    }
  }

  /**
   Hysteresis: over any sequence of loads the mode says on which side the load last left the band, and the number
   of commands is the number of times it changed side.
   */
  lemma {:induction false} BandHysteresis(low: real, high: real, loads: seq<real>, before: bool)
    requires low <= high
    ensures var r := RunTicks(Band(low, high), loads, before);
            && r.overload == LastOutside(low, high, loads, before)
            && |r.modes| == Alternations(low, high, loads, before)
    decreases |loads|
  {
    if loads != [] {
      var front, last := loads[..|loads| - 1], loads[|loads| - 1];
      BandHysteresis(low, high, front, before);
      assert loads == front + [last];
      RunTicksSnoc(Band(low, high), front, last, before);
      BandTick(low, high, last, RunTicks(Band(low, high), front, before).overload);
    }
  }

  lemma InvertedTick(low: real, high: real, load: real)
    requires high < load < low
    ensures RunPolicies(Band(low, high), load, false).modes == [1, 0]
  {
    var ps := Band(low, high);
    assert ps[1..] == [ps[1]] && ps[1..][1..] == [];
    assert "<"[0] != ">"[0];
    assert RunPolicies(ps[1..], load, true).modes == [0] + [];
  }

  /** At most one command per tick holds for every load exactly when the thresholds do not overlap. */
  lemma OneCommandPerTick(low: real, high: real)
    ensures low <= high <==> forall load, overload :: |RunPolicies(Band(low, high), load, overload).modes| <= 1
  {
    if low <= high {
      forall load, overload
        ensures |RunPolicies(Band(low, high), load, overload).modes| <= 1
      {
        BandTick(low, high, load, overload);
      }
    } else {
      var load := (low + high) / 2.0;
      InvertedTick(low, high, load);
      assert |RunPolicies(Band(low, high), load, false).modes| == 2;
    }
  }
}
