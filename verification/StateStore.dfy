/** The controller's store of reported loads (src/controller/StateStore.cpp). */
module StateStores {
  import opened Options
  import opened Policies
  import opened System

  /** The sum of the loads of `agents`, added up in any order. */
  ghost function Total(loads: map<nat, real>, agents: set<nat>): real
    requires agents <= loads.Keys
    decreases |agents|
  {
    if agents == {} then 0.0
    else
      var a :| a in agents;
      loads[a] + Total(loads, agents - {a})
  }

  /** The order of summation does not matter. */
  lemma {:induction false} TotalWithout(loads: map<nat, real>, agents: set<nat>, a: nat)
    requires agents <= loads.Keys && a in agents
    ensures Total(loads, agents) == loads[a] + Total(loads, agents - {a})
    decreases |agents|
  {
    var b :| b in agents && Total(loads, agents) == loads[b] + Total(loads, agents - {b});
    if b != a {
      TotalWithout(loads, agents - {b}, a);
      TotalWithout(loads, agents - {a}, b);
      assert agents - {b} - {a} == agents - {a} - {b};
    }
  }

  /** getAggregateLoad: the mean of all loads stored, 0 if there are none. */
  ghost function Average(loads: map<nat, real>): real {
    if loads == map[] then 0.0 else Total(loads, loads.Keys) / |loads| as real
  }

  class StateStore {
    var states: map<nat, real>

    constructor ()
      ensures states == map[]
    {
      states := map[];
    }

    method UpdateAgentState(agentId: nat, load: real)
      modifies this
      ensures states == old(states)[agentId := load]
    {
      states := states[agentId := load];
    }

    method GetAggregateLoad() returns (avg: real)
      ensures avg == Average(states)
    {
      if states == map[] {
        return 0.0;
      }
      var total := 0.0;
      var todo := states.Keys;
      while todo != {}
        invariant todo <= states.Keys && total + Total(states, todo) == Total(states, states.Keys)
        decreases |todo|
      {
        var a :| a in todo;
        TotalWithout(states, todo, a);
        total := total + states[a];
        todo := todo - {a};
      }
      avg := total / |states| as real;
    }
  }

  // ---------------------------------------------------------------- the mean

  function Times(x: real, n: nat): real {
    x * n as real
  }

  lemma TimesNext(x: real, n: nat)
    ensures Times(x, 0) == 0.0 && Times(x, n + 1) == x + Times(x, n)
  {
  }

  /** How the sum compares when all loads are on one side of `x`. */
  lemma {:induction false} TotalCompares(loads: map<nat, real>, agents: set<nat>, x: real)
    requires agents <= loads.Keys
    ensures (forall a :: a in agents ==> loads[a] >= x) ==> Total(loads, agents) >= Times(x, |agents|)
    ensures (forall a :: a in agents ==> loads[a] <= x) ==> Total(loads, agents) <= Times(x, |agents|)
    ensures agents != {} && (forall a :: a in agents ==> loads[a] > x) ==> Total(loads, agents) > Times(x, |agents|)
    ensures agents != {} && (forall a :: a in agents ==> loads[a] < x) ==> Total(loads, agents) < Times(x, |agents|)
    decreases |agents|
  {
    hide Times;
    TimesNext(x, 0);
    if agents != {} {
      var a :| a in agents && Total(loads, agents) == loads[a] + Total(loads, agents - {a});
      TotalCompares(loads, agents - {a}, x);
      TimesNext(x, |agents - {a}|);
    }
  }

  lemma Divided(total: real, n: nat, x: real)
    requires n > 0
    ensures total >= Times(x, n) <==> total / n as real >= x
    ensures total <= Times(x, n) <==> total / n as real <= x
  {
    var m := total / n as real;
    assert m * n as real == total;
    Ordered(m, x, n as real);
    Ordered(x, m, n as real);
  }

  lemma Ordered(x: real, y: real, n: real)
    requires n > 0.0
    ensures x * n <= y * n <==> x <= y
  {
  }

  /** The mean is on the side of `x` that all loads are on. */
  lemma AverageCompares(loads: map<nat, real>, x: real)
    requires loads != map[]
    ensures (forall a :: a in loads ==> loads[a] >= x) ==> Average(loads) >= x
    ensures (forall a :: a in loads ==> loads[a] <= x) ==> Average(loads) <= x
    ensures (forall a :: a in loads ==> loads[a] > x) ==> Average(loads) > x
    ensures (forall a :: a in loads ==> loads[a] < x) ==> Average(loads) < x
  {
    hide Times, Total;
    TotalCompares(loads, loads.Keys, x);
    Divided(Total(loads, loads.Keys), |loads|, x);
  }

  /** A report moves the sum by the change of that agent's load. */
  lemma ReportMovesTotal(loads: map<nat, real>, a: nat, x: real)
    ensures var after := loads[a := x];
            Total(after, after.Keys) == x + Total(loads, loads.Keys - {a})
  {
    var after := loads[a := x];
    TotalWithout(after, after.Keys, a);
    assert after.Keys - {a} == loads.Keys - {a};
    SameTotal(after, loads, loads.Keys - {a});
  }

  lemma {:induction false} SameTotal(x: map<nat, real>, y: map<nat, real>, agents: set<nat>)
    requires agents <= x.Keys && agents <= y.Keys && forall a :: a in agents ==> x[a] == y[a]
    ensures Total(x, agents) == Total(y, agents)
    decreases |agents|
  {
    if agents != {} {
      var a :| a in agents && Total(x, agents) == x[a] + Total(x, agents - {a});
      TotalWithout(y, agents, a);
      SameTotal(x, y, agents - {a});
    }
  }

  // ---------------------------------------------------------------- what the tick makes of it

  /**
   The tick compares the mean of all stored loads: while every stored load is inside a proper band no tick issues a
   command, and when all are above it, or all below, overload_mode_ says so afterwards.  With an empty store the
   mean is 0.
   */
  lemma LoadsDecide(s: State, clock: Clock, low: real, high: real)
    requires low <= high && s.policies == Band(low, high)
    ensures var t := Step(s, Tick(None, Average(s.loads), clock));
            && (s.loads != map[] && (forall a :: a in s.loads ==> low <= s.loads[a] <= high) ==>
                  t.issued == s.issued && t.overload == s.overload)
            && (s.loads != map[] && (forall a :: a in s.loads ==> s.loads[a] > high) ==> t.overload)
            && (s.loads != map[] && (forall a :: a in s.loads ==> s.loads[a] < low) ==> !t.overload)
            && (s.loads == map[] && low > 0.0 ==> !t.overload)
  {
    hide TickSession, TickConn, TickFailureCounts, TickTrackedCounts, RunPolicies, Commands, Healthy;
    BandTick(low, high, Average(s.loads), s.overload);
    if s.loads != map[] {
      AverageCompares(s.loads, low);
      AverageCompares(s.loads, high);
    }
  }
}
