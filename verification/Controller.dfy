/**
 The controller (src/controller/Controller.cpp): its handlers as methods that update its fields, each proved to take
 the step of System.dfy.  Sessions and connections are entries of append-only sequences; AgentTcpSession.dfy shows
 that a session object on the heap behaves as such an entry.
 */
module Controllers {
  import opened Constants
  import opened Options
  import opened Policies
  import opened Sessions
  import opened System
  import opened Registry
  import opened ControllerLoops

  class Controller {
    /** The time at which the handler in progress began; a tick reads the clock again and again. */
    var now: int
    var clock: Clock
    var policies: seq<Policy>
    /** message_counters_[CMD_SET_MODE], a 32-bit counter. */
    var counter: nat
    var overloadMode: bool
    var isShuttingDown: bool
    var sessionTable: seq<Session>
    /** sessions_ */
    var sessions: map<nat, nat>
    var conns: seq<Conn>
    var store: map<nat, real>
    var rttSamples: nat
    var commandFailures: nat

    ghost var lastTick: int
    ghost var issued: seq<nat>
    ghost var tracked: nat
    /** The agents are not the controller's; they are carried along to form a system state. */
    ghost var agents: seq<AgentProc>

    ghost function Model(): State
      reads this
    {
      State(now, lastTick, clock, policies, issued, overloadMode, isShuttingDown, sessionTable, sessions, conns, agents,
            store, rttSamples, commandFailures, tracked)
    }

    ghost predicate Valid()
      reads this
    {
      Wired(Model()) && counter == |issued| % U32_RANGE
    }

    /** `loaded` is what loadPolicies reads at start-up. */
    constructor (loaded: seq<Policy>, ghost memories: seq<AgentCore.Core<nat>>)
      ensures Valid() && Model() == Started(loaded, memories)
    {
      now, clock, policies, counter, overloadMode, isShuttingDown := 0, STOPPED, loaded, 0, false, false;
      sessionTable, sessions, conns, store, rttSamples, commandFailures := [], map[], [], map[], 0, 0;
      lastTick, issued, tracked := 0, [], 0;
      agents := seq(|memories|, i requires 0 <= i < |memories| => AgentWith(memories[i]));
    }

    /** Locking the weak reference kept in a connection's context. */
    method LockContext(c: nat) returns (r: Option<nat>)
      requires c < |conns|
      ensures r == Lock(Model(), c)
    {
      var ctx := conns[c].context;
      if ctx.Some? && ctx.value < |sessionTable| && ctx.value in sessions.Values {
        r := ctx;
      } else {
        r := None;
      }
    }

    method DropReference(agentId: nat)
      modifies this`sessionTable
      ensures sessionTable == Destroy(old(sessionTable), sessions, agentId)
    {
      if agentId in sessions && sessions[agentId] < |sessionTable| {
        sessionTable := sessionTable[sessions[agentId] := Abandon(sessionTable[sessions[agentId]])];
      }
    }

    /** The connection's error handler. */
    method OnConnectionError(c: nat)
      requires Valid() && c < |conns|
      modifies this`sessionTable, this`sessions
      ensures Valid() && Model() == OnError(old(Model()), c)
    {
      hide Wired, Destroy;
      ErrorKeepsWired(Model(), c);
      var s := LockContext(c);
      if s.Some? {
        var agentId := sessionTable[s.value].agentId;
        if agentId != 0 {
          DropReference(agentId);
          sessions := sessions - {agentId};
        }
      }
    }

    method RegisterAgent(c: nat, agentId: nat)
      requires Valid() && c < |conns| && Lock(Model(), c).None?
      modifies this`sessionTable, this`sessions, this`conns
      ensures Valid() && Model() == Register(old(Model()), c, agentId)
    {
      hide Wired, Destroy;
      RegisterKeepsWired(Model(), c, agentId);
      var sid := |sessionTable|;
      DropReference(agentId);
      sessionTable := sessionTable + [NewSession(agentId, c, now)];
      sessions := sessions[agentId := sid];
      conns := conns[c := conns[c].(context := Some(sid))];
    }

    /** session->handleAck, for ACK and NACK. */
    method HandleAckFrom(sid: nat, cmdId: nat)
      requires sid < |sessionTable|
      modifies this`sessionTable, this`rttSamples
      ensures Model() == OnAck(old(Model()), sid, cmdId)
    {
      if cmdId in sessionTable[sid].pending {
        rttSamples := rttSamples + 1;
      }
      sessionTable := sessionTable[sid := HandleAck(sessionTable[sid], cmdId, now)];
    }

    /** onMessage. */
    method OnMessage(c: nat, msg: Inbound)
      requires Valid() && c < |conns|
      modifies this`sessionTable, this`sessions, this`conns, this`store, this`rttSamples
      ensures Valid() && Model() == System.OnMessage(old(Model()), c, msg)
    {
      hide Wired, Register, OnError, OnAck, HandleAck;
      MessageKeepsWired(Model(), c, msg);
      var session := LockContext(c);
      if session.None? {
        if msg.Hello? {
          if msg.agentId.Some? {
            RegisterAgent(c, msg.agentId.value);
          } else {
            OnConnectionError(c);
          }
        } else {
          conns := conns[c := conns[c].(closeAsked := true)];
        }
        return;
      }
      var sid := session.value;
      match msg
      case Hello(_) =>
      case Heartbeat => sessionTable := sessionTable[sid := Beat(sessionTable[sid], now)];
      case Report(load) =>
        if load.Some? {
          store := store[sessionTable[sid].agentId := load.value];
        } else {
          OnConnectionError(c);
        }
      case AckOf(id) =>
        if id.Some? {
          HandleAckFrom(sid, id.value);
        } else {
          OnConnectionError(c);
        }
      case NackOf(id) =>
        if id.Some? {
          HandleAckFrom(sid, id.value);
        } else {
          OnConnectionError(c);
        }
      case OtherType =>
    }

    /** isHealthy, when the clock says `t`. */
    method IsHealthy(sid: nat, t: int) returns (r: bool)
      requires sid < |sessionTable| && sessionTable[sid].conn < |conns|
      ensures r == HealthyAt(Model(), sid, t)
    {
      r := conns[sessionTable[sid].conn].open && Seconds(t - sessionTable[sid].lastHeartbeat) < 3;
    }

    /** One round of the loop over sessions_ in the tick: drop an unhealthy session, or check its timeouts. */
    method CheckSession(a: nat)
      requires a in sessions && sessions[a] < |sessionTable| && sessionTable[sessions[a]].conn < |conns|
      modifies this`sessionTable, this`sessions, this`conns, this`commandFailures
      ensures Model() == One(old(Model()), Check, a)
    {
      hide CheckTimeouts, Abandon, ResentFrames, FailKeys, HealthyAt;
      var sid := sessions[a];
      var c := sessionTable[sid].conn;
      var healthy := IsHealthy(sid, now + clock.Health(sid));
      if !healthy {
        conns := conns[c := conns[c].(closeAsked := true)];
        sessions := sessions - {a};
        sessionTable := sessionTable[sid := Abandon(sessionTable[sid])];
      } else {
        var at := now + clock.Check(sid);
        var failed := FailKeys(sessionTable[sid], at);
        commandFailures := commandFailures + |failed|;
        conns := conns[c := conns[c].(sent := conns[c].sent + ResentFrames(sessionTable[sid], at),
                                      closeAsked := conns[c].closeAsked || failed != {})];
        sessionTable := sessionTable[sid := CheckTimeouts(sessionTable[sid], at)];
      }
    }

    method CheckSessions()
      requires Valid()
      modifies this`sessionTable, this`sessions, this`conns, this`commandFailures
      ensures Model() == Part(old(Model()), Check, old(sessions).Keys)
    {
      hide One, Part, Wired;
      var todo := sessions.Keys;
      ghost var s0, done: set<nat> := Model(), {};
      NoRounds(s0, Check);
      while todo != {}
        invariant Model() == Part(s0, Check, done)
        invariant todo == s0.registry.Keys - done && done <= s0.registry.Keys
        decreases |todo|
      {
        var a :| a in todo;
        NextRound(s0, Check, done, a);
        CheckSession(a);
        todo := todo - {a};
        done := done + {a};
      }
      assert done == s0.registry.Keys;
    }

    /** One round of the policy loop's inner loop: rewrite the message, track it, send it. */
    method IssueTo(a: nat, cmd: Cmd<nat>, j: nat)
      requires a in sessions && sessions[a] < |sessionTable| && sessionTable[sessions[a]].conn < |conns|
      modifies this`sessionTable, this`conns, this`tracked
      ensures Model() == One(old(Model()), IssueCmd(cmd, j), a)
    {
      hide Issue, HealthyAt;
      var sid := sessions[a];
      var c := sessionTable[sid].conn;
      var healthy := IsHealthy(sid, now + clock.Again(sid, j));
      if healthy {
        sessionTable := sessionTable[sid := Issue(sessionTable[sid], cmd, now + clock.Track(sid, j))];
        tracked := tracked + 1;
        conns := conns[c := conns[c].(sent := conns[c].sent + [cmd])];
      } else {
        assert conns[c := conns[c]] == conns;
        assert sessionTable[sid := sessionTable[sid]] == sessionTable;
      }
    }

    /** The tick's `j`-th command, to all sessions still healthy. */
    method IssueToAll(cmd: Cmd<nat>, j: nat)
      requires Wired(Model())
      modifies this`sessionTable, this`conns, this`tracked
      ensures Model() == Part(old(Model()), IssueCmd(cmd, j), sessions.Keys)
    {
      hide One, Part, Wired;
      var todo := sessions.Keys;
      ghost var s0, w, done: set<nat> := Model(), IssueCmd(cmd, j), {};
      NoRounds(s0, w);
      while todo != {}
        invariant Model() == Part(s0, w, done)
        invariant todo == s0.registry.Keys - done && done <= s0.registry.Keys
        decreases |todo|
      {
        var a :| a in todo;
        NextRound(s0, w, done, a);
        IssueTo(a, cmd, j);
        todo := todo - {a};
        done := done + {a};
      }
      assert done == s0.registry.Keys;
    }

    /** getNextId, as the command's id. */
    method GetNextId() returns (id: nat)
      modifies this`counter
      ensures id == old(counter) && counter == (old(counter) + 1) % U32_RANGE
    {
      id := counter;
      counter := (counter + 1) % U32_RANGE;
    }

    /** A policy triggers: the mode is recorded and every healthy session gets a command with the next id. */
    method Trigger(mode: nat, j: nat, ghost s0: State, ghost out: Outcome)
      requires Wired(s0) && Model() == TickLoops(s0, out) && j == |out.modes| && counter == |issued| % U32_RANGE
      modifies this`counter, this`overloadMode, this`sessionTable, this`conns, this`issued, this`tracked
      ensures Model() == TickLoops(s0, Outcome(mode == 1, out.modes + [mode]))
      ensures counter == |issued| % U32_RANGE
    {
      hide Wired, TickLoops, Part;
      TickFields(s0, out);
      IssuePass(s0, out, mode, mode == 1);
      TickLoopsKeepWired(s0, out);
      NextId(|issued|);
      overloadMode := mode == 1;
      var id := GetNextId();
      assert Model() == TickLoops(s0, out).(overload := mode == 1);
      assert Wired(Model()) by { OverloadDoesNotMatter(TickLoops(s0, out), mode == 1); }
      IssueToAll(Cmd(id, mode), j);
      issued := issued + [mode];
      OverloadCommutes(TickLoops(s0, out), mode == 1, IssueCmd(Cmd(id, mode), j));
    }

    /** The policy loop, in the middle of a tick that started in state `s0`. */
    method ApplyPolicies(load: real, ghost s0: State)
      requires Wired(s0) && s0.policies == policies && Model() == TickLoops(s0, Outcome(s0.overload, []))
      requires counter == |issued| % U32_RANGE
      modifies this`counter, this`overloadMode, this`sessionTable, this`conns, this`issued, this`tracked
      ensures Model() == TickLoops(s0, RunPolicies(policies, load, s0.overload)) && counter == |issued| % U32_RANGE
    {
      hide Wired, TickLoops, Part, ConditionMet;
      var j := 0;
      for i := 0 to |policies|
        invariant policies == s0.policies && counter == |issued| % U32_RANGE
        invariant j == |RunPolicies(policies[..i], load, s0.overload).modes|
        invariant Model() == TickLoops(s0, RunPolicies(policies[..i], load, s0.overload))
      {
        ghost var out := RunPolicies(policies[..i], load, s0.overload);
        var policy := policies[i];
        RunPoliciesSnoc(policies[..i], policy, load, s0.overload);
        assert policies[..i + 1] == policies[..i] + [policy];
        assert overloadMode == out.overload by { TickFields(s0, out); }
        if ConditionMet(policy, load) {
          if policy.command == CMD_SET_MODE {
            var alreadyInMode := overloadMode == (policy.mode == 1);
            if !alreadyInMode {
              Trigger(policy.mode, j, s0, out);
              j := j + 1;
            }
          }
        }
      }
      assert policies[..|policies|] == policies;
    }

    /** The two loops of the health-check handler. */
    method RunLoops(load: real)
      requires Valid()
      modifies this`counter, this`overloadMode, this`sessionTable, this`sessions, this`conns, this`commandFailures,
               this`issued, this`tracked
      ensures Model() == TickLoops(old(Model()), RunPolicies(policies, load, old(overloadMode)))
      ensures counter == |issued| % U32_RANGE
    {
      hide Wired, TickLoops, Part, RunPolicies;
      ghost var s0 := Model();
      CheckPass(s0);
      CheckSessions();
      ApplyPolicies(load, s0);
    }

    /** The health-check handler; `readings` is what the clock will say while it runs. */
    method HealthCheck(reload: Option<seq<Policy>>, load: real, readings: Clock)
      requires Valid()
      modifies this
      ensures Valid() && Model() == Step(old(Model()), Tick(reload, load, readings))
    {
      hide Wired, Step, TickLoops, RunPolicies;
      TickInParts(Model(), reload, load, readings);
      if reload.Some? {
        policies := reload.value;
      }
      clock := readings;
      ghost var begun := Model();
      RunLoops(load);
      ghost var ended := Model();
      lastTick, now := now, now + clock.length;
      assert Model() == ended.(lastTick := begun.now, now := begun.now + readings.length);
    }

    method FlushSession(a: nat)
      requires a in sessions && sessions[a] < |sessionTable| && sessionTable[sessions[a]].conn < |conns|
      modifies this`sessionTable, this`conns
      ensures Model() == One(old(Model()), FlushAll, a)
    {
      hide FlushedFrames, Flush, Healthy;
      var sid := sessions[a];
      var c := sessionTable[sid].conn;
      conns := conns[c := conns[c].(sent := conns[c].sent + FlushedFrames(sessionTable[sid]), drainAsked := true)];
      sessionTable := sessionTable[sid := Flush(sessionTable[sid])];
    }

    /** shutdownController. */
    method ShutdownController()
      requires Valid()
      modifies this`isShuttingDown, this`sessionTable, this`conns
      ensures Valid() && Model() == OnShutdown(old(Model()))
    {
      hide One, Part, Wired, OnShutdown;
      ShutdownKeepsWired(Model());
      if isShuttingDown {
        ShutdownOnce(Model());
        return;
      }
      ghost var s0, done: set<nat> := Model(), {};
      FlushPass(s0);
      NoRounds(s0, FlushAll);
      var todo := sessions.Keys;
      while todo != {}
        invariant Model() == Part(s0, FlushAll, done)
        invariant todo == s0.registry.Keys - done && done <= s0.registry.Keys
        decreases |todo|
      {
        var a :| a in todo;
        NextRound(s0, FlushAll, done, a);
        FlushSession(a);
        todo := todo - {a};
        done := done + {a};
      }
      assert done == s0.registry.Keys;
      isShuttingDown := true;
    }
  }

  lemma TickInParts(s: State, reload: Option<seq<Policy>>, load: real, clock: Clock)
    requires Wired(s)
    ensures var b := s.(policies := if reload.Some? then reload.value else s.policies, clock := clock);
            var t := TickLoops(b, RunPolicies(b.policies, load, b.overload));
            && Wired(b)
            && Step(s, Tick(reload, load, clock)) == t.(lastTick := b.now, now := b.now + clock.length)
    ensures Wired(Step(s, Tick(reload, load, clock)))
  {
    hide Wired, RunPolicies, TickLoops;
    BeginKeepsWired(s, reload, clock);
    StepKeepsWired(s, Tick(reload, load, clock));
  }

  lemma TickFields(s: State, out: Outcome)
    ensures var t := TickLoops(s, out); t.overload == out.overload && t.issued == s.issued + out.modes
  {
  }

  lemma OverloadDoesNotMatter(s: State, overload: bool)
    requires Wired(s)
    ensures Wired(s.(overload := overload))
  {
  }

  /** The loops over sessions neither read nor write overload_mode_. */
  lemma OverloadCommutes(s: State, overload: bool, w: Work)
    ensures Part(s.(overload := overload), w, s.registry.Keys) == Part(s, w, s.registry.Keys).(overload := overload)
  {
    hide WorkSession, WorkConn, WorkFailures, WorkTracked, Healthy;
    var t := s.(overload := overload);
    var done := s.registry.Keys;
    var x, y := Part(t, w, done), Part(s, w, done);
    forall i: nat
      ensures Healthy(t, i) == Healthy(s, i) && Among(t, done, i) == Among(s, done, i)
      ensures i < |s.sessions| ==> WorkSession(t, w, i) == WorkSession(s, w, i)
      ensures i < |s.sessions| ==> WorkFailures(t, w, i) == WorkFailures(s, w, i)
      ensures WorkTracked(t, w, i) == WorkTracked(s, w, i)
      ensures forall c: nat :: c < |s.conns| && i < |s.sessions| ==> WorkConn(t, w, i, c) == WorkConn(s, w, i, c)
    {
      OverloadNotRead(s, overload, w, i);
    }
    assert x.sessions == y.sessions;
    assert x.conns == y.conns;
    assert x.registry == y.registry;
    assert PartFailures(t, w, done) == PartFailures(s, w, done);
    assert PartTracked(t, w, done) == PartTracked(s, w, done);
  }

  lemma OverloadNotRead(s: State, overload: bool, w: Work, i: nat)
    ensures var t := s.(overload := overload);
            && Healthy(t, i) == Healthy(s, i) && WorkTracked(t, w, i) == WorkTracked(s, w, i)
            && (i < |s.sessions| ==>
                  && WorkSession(t, w, i) == WorkSession(s, w, i) && WorkFailures(t, w, i) == WorkFailures(s, w, i)
                  && forall c: nat :: c < |s.conns| ==> WorkConn(t, w, i, c) == WorkConn(s, w, i, c))
  {
    hide CheckTimeouts, Settle, Issue, Copies, FailKeys, ResendKeys;
    var t := s.(overload := overload);
    assert forall x :: HealthyAt(t, i, x) == HealthyAt(s, i, x);
  }

  lemma NextId(n: nat)
    ensures (n % U32_RANGE + 1) % U32_RANGE == (n + 1) % U32_RANGE
  {
  }

  lemma ShutdownOnce(s: State)
    requires s.shuttingDown
    ensures OnShutdown(s) == s
  {
  }
}
