/**
 The controller's loops over its sessions (src/controller/Controller.cpp:177-187, 209-215, 305-307), one session at a
 time.  The order in which a loop visits the sessions does not matter, and a complete pass is the step of System.dfy.
 */
module ControllerLoops {
  import opened Constants
  import opened Options
  import opened Sums
  import opened Policies
  import opened Sessions
  import opened System
  import opened Registry

  /** The three loops: the health check, the `j`-th command of a tick, the shutdown flush. */
  datatype Work = Check | IssueCmd(cmd: Cmd<nat>, j: nat) | FlushAll

  predicate Works(s: State, w: Work, sid: nat) {
    match w
    case Check => Healthy(s, sid)
    case IssueCmd(_, j) => HealthyAgain(s, sid, j)
    case FlushAll => true
  }

  function WorkSession(s: State, w: Work, sid: nat): Session
    requires sid < |s.sessions|
  {
    var ss := s.sessions[sid];
    if !Works(s, w, sid) then (if w.Check? then Abandon(ss) else ss)
    else match w
         case Check => CheckTimeouts(ss, CheckTime(s, sid))
         case IssueCmd(cmd, j) => Issue(ss, cmd, TrackTime(s, sid, j))
         case FlushAll => Flush(ss)
  }

  /** The connection `c` of session `sid`. */
  function WorkConn(s: State, w: Work, sid: nat, c: nat): Conn
    requires sid < |s.sessions| && c < |s.conns|
  {
    var ss, conn := s.sessions[sid], s.conns[c];
    if !Works(s, w, sid) then (if w.Check? then conn.(closeAsked := true) else conn)
    else match w
         case Check =>
           conn.(sent := conn.sent + ResentFrames(ss, CheckTime(s, sid)),
                 closeAsked := conn.closeAsked || FailKeys(ss, CheckTime(s, sid)) != {})
         case IssueCmd(cmd, _) => conn.(sent := conn.sent + [cmd])
         case FlushAll => conn.(sent := conn.sent + FlushedFrames(ss), drainAsked := true)
  }

  function WorkFailures(s: State, w: Work, sid: nat): nat
    requires sid < |s.sessions|
  {
    if w.Check? && Works(s, w, sid) then |FailKeys(s.sessions[sid], CheckTime(s, sid))| else 0
  }

  function WorkTracked(s: State, w: Work, sid: nat): nat {
    if w.IssueCmd? && Works(s, w, sid) then 1 else 0
  }

  /** One round of a loop, for the session registered under `a`. */
  function One(s: State, w: Work, a: nat): State
    requires a in s.registry && s.registry[a] < |s.sessions| && s.sessions[s.registry[a]].conn < |s.conns|
  {
    var sid := s.registry[a];
    var c := s.sessions[sid].conn;
    s.(sessions := s.sessions[sid := WorkSession(s, w, sid)],
       conns := s.conns[c := WorkConn(s, w, sid, c)],
       registry := if w.Check? && !Healthy(s, sid) then s.registry - {a} else s.registry,
       failures := s.failures + WorkFailures(s, w, sid),
       tracked := s.tracked + WorkTracked(s, w, sid))
  }

  /** The registered session `i` belongs to an agent in `done`. */
  predicate Among(s: State, done: set<nat>, i: nat) {
    i < |s.sessions| && i in s.registry.Values && s.sessions[i].agentId in done
  }

  function PartSession(s: State, w: Work, done: set<nat>, i: nat): Session
    requires i < |s.sessions|
  {
    if Among(s, done, i) then WorkSession(s, w, i) else s.sessions[i]
  }

  function PartConn(s: State, w: Work, done: set<nat>, c: nat): Conn
    requires c < |s.conns|
  {
    var sid := Lock(s, c);
    if sid.Some? && Among(s, done, sid.value) then WorkConn(s, w, sid.value, c) else s.conns[c]
  }

  function PartFailures(s: State, w: Work, done: set<nat>): (r: seq<nat>)
    ensures |r| == |s.sessions|
    ensures forall i :: 0 <= i < |r| ==> r[i] == if Among(s, done, i) then WorkFailures(s, w, i) else 0
  {
    seq(|s.sessions|, i requires 0 <= i < |s.sessions| => if Among(s, done, i) then WorkFailures(s, w, i) else 0)
  }

  function PartTracked(s: State, w: Work, done: set<nat>): (r: seq<nat>)
    ensures |r| == |s.sessions|
    ensures forall i :: 0 <= i < |r| ==> r[i] == if Among(s, done, i) then WorkTracked(s, w, i) else 0
  {
    seq(|s.sessions|, i requires 0 <= i < |s.sessions| => if Among(s, done, i) then WorkTracked(s, w, i) else 0)
  }

  function PartRegistry(s: State, w: Work, done: set<nat>): map<nat, nat> {
    map a | a in s.registry && !(w.Check? && a in done && !Healthy(s, s.registry[a])) :: s.registry[a]
  }

  /** The state when a loop has been through the agents in `done`. */
  function Part(s: State, w: Work, done: set<nat>): State {
    s.(sessions := seq(|s.sessions|, i requires 0 <= i < |s.sessions| => PartSession(s, w, done, i)),
       conns := seq(|s.conns|, c requires 0 <= c < |s.conns| => PartConn(s, w, done, c)),
       registry := PartRegistry(s, w, done),
       failures := s.failures + Sum(PartFailures(s, w, done)),
       tracked := s.tracked + Sum(PartTracked(s, w, done)))
  }

  // ---------------------------------------------------------------- one more round

  lemma NoRounds(s: State, w: Work)
    ensures Part(s, w, {}) == s
  {
    hide WorkSession, WorkConn, WorkFailures, WorkTracked, Sum, Lock;
    SumZero(PartFailures(s, w, {}));
    SumZero(PartTracked(s, w, {}));
    var t := Part(s, w, {});
    assert t.sessions == s.sessions;
    assert t.conns == s.conns;
    assert t.registry == s.registry;
  }

  /** The round for `a` adds exactly the session registered under `a`. */
  lemma AmongNext(s: State, done: set<nat>, a: nat, i: nat)
    requires Wired(s) && a in s.registry && i < |s.sessions|
    ensures Among(s, done + {a}, i) <==> Among(s, done, i) || i == s.registry[a]
    ensures a !in done ==> !Among(s, done, s.registry[a])
  {
    RegisteredMeans(s, i);
    RegisteredMeans(s, s.registry[a]);
  }

  /** Until its round, a session and its connection are as they were. */
  lemma UntouchedYet(s: State, w: Work, done: set<nat>, a: nat)
    requires Wired(s) && a in s.registry && a !in done
    ensures var t, sid := Part(s, w, done), s.registry[a];
            && a in t.registry && t.registry[a] == sid && sid < |t.sessions| && t.sessions[sid] == s.sessions[sid]
            && s.sessions[sid].conn < |t.conns| && t.conns[s.sessions[sid].conn] == s.conns[s.sessions[sid].conn]
            && t.now == s.now && t.clock == s.clock
            && forall x :: HealthyAt(t, sid, x) <==> HealthyAt(s, sid, x)
  {
    hide WorkSession, WorkConn, PartFailures, PartTracked;
    var sid := s.registry[a];
    AmongNext(s, done, a, sid);
    assert sid in s.registry.Values;
    OwnConnection(s, sid);
  }

  lemma NextSessions(s: State, w: Work, done: set<nat>, a: nat)
    requires Wired(s) && a in s.registry && a !in done
    ensures Part(s, w, done + {a}).sessions
            == Part(s, w, done).sessions[s.registry[a] := WorkSession(s, w, s.registry[a])]
  {
    hide WorkSession, PartFailures, PartTracked, PartConn, PartRegistry, Among;
    var x := Part(s, w, done).sessions[s.registry[a] := WorkSession(s, w, s.registry[a])];
    forall i: nat | i < |s.sessions|
      ensures Part(s, w, done + {a}).sessions[i] == x[i]
    {
      AmongNext(s, done, a, i);
    }
  }

  lemma NextConns(s: State, w: Work, done: set<nat>, a: nat)
    requires Wired(s) && a in s.registry && a !in done
    ensures var sid := s.registry[a];
            var c := s.sessions[sid].conn;
            Part(s, w, done + {a}).conns
            == Part(s, w, done).conns[c := WorkConn(s, w, sid, c)]
  {
    hide WorkConn, PartFailures, PartTracked, PartSession, PartRegistry, Among;
    var sid := s.registry[a];
    var c := s.sessions[sid].conn;
    var x := Part(s, w, done).conns[c := WorkConn(s, w, sid, c)];
    assert sid in s.registry.Values;
    OwnConnection(s, sid);
    forall d: nat | d < |s.conns|
      ensures Part(s, w, done + {a}).conns[d] == x[d]
    {
      if Lock(s, d).Some? {
        AmongNext(s, done, a, Lock(s, d).value);
      }
    }
  }

  lemma NextRegistry(s: State, w: Work, done: set<nat>, a: nat)
    requires Wired(s) && a in s.registry && a !in done
    ensures PartRegistry(s, w, done + {a})
            == if w.Check? && !Healthy(s, s.registry[a]) then PartRegistry(s, w, done) - {a}
               else PartRegistry(s, w, done)
  {
    hide Healthy;
  }

  lemma NextCounts(s: State, w: Work, done: set<nat>, a: nat)
    requires Wired(s) && a in s.registry && a !in done
    ensures Sum(PartFailures(s, w, done + {a})) == Sum(PartFailures(s, w, done)) + WorkFailures(s, w, s.registry[a])
    ensures Sum(PartTracked(s, w, done + {a})) == Sum(PartTracked(s, w, done)) + WorkTracked(s, w, s.registry[a])
  {
    hide WorkFailures, WorkTracked, Sum, Among;
    var sid := s.registry[a];
    var f, t := PartFailures(s, w, done), PartTracked(s, w, done);
    forall i: nat | i < |s.sessions|
      ensures Among(s, done + {a}, i) <==> Among(s, done, i) || i == sid
      ensures !Among(s, done, sid)
    {
      AmongNext(s, done, a, i);
    }
    AmongNext(s, done, a, sid);
    assert PartFailures(s, w, done + {a}) == f[sid := WorkFailures(s, w, sid)];
    assert PartTracked(s, w, done + {a}) == t[sid := WorkTracked(s, w, sid)];
    SumUpdate(f, sid, WorkFailures(s, w, sid));
    SumUpdate(t, sid, WorkTracked(s, w, sid));
  }

  /** One round after `done` is the state after one more agent, whichever it is. */
  lemma NextRound(s: State, w: Work, done: set<nat>, a: nat)
    requires Wired(s) && a in s.registry && a !in done
    ensures var t := Part(s, w, done);
            && a in t.registry && t.registry[a] < |t.sessions| && t.sessions[t.registry[a]].conn < |t.conns|
            && One(t, w, a) == Part(s, w, done + {a})
  {
    hide PartFailures, PartTracked, PartSession, PartConn, PartRegistry, Sum, WorkSession, WorkConn;
    hide WorkFailures, WorkTracked, HealthyAt;
    UntouchedYet(s, w, done, a);
    NextSessions(s, w, done, a);
    NextConns(s, w, done, a);
    NextRegistry(s, w, done, a);
    NextCounts(s, w, done, a);
    SameWork(s, Part(s, w, done), w, s.registry[a]);
  }

  lemma SameWork(s: State, t: State, w: Work, sid: nat)
    requires sid < |s.sessions| && sid < |t.sessions| && t.sessions[sid] == s.sessions[sid]
    requires var c := s.sessions[sid].conn; c < |s.conns| && c < |t.conns| && t.conns[c] == s.conns[c]
    requires t.now == s.now && t.clock == s.clock && forall x :: HealthyAt(t, sid, x) <==> HealthyAt(s, sid, x)
    ensures WorkSession(t, w, sid) == WorkSession(s, w, sid)
    ensures WorkConn(t, w, sid, s.sessions[sid].conn) == WorkConn(s, w, sid, s.sessions[sid].conn)
    ensures WorkFailures(t, w, sid) == WorkFailures(s, w, sid) && WorkTracked(t, w, sid) == WorkTracked(s, w, sid)
    ensures Healthy(t, sid) <==> Healthy(s, sid)
  {
    hide HealthyAt, CheckTimeouts, Settle, Issue, Copies, FailKeys;
  }

  // ---------------------------------------------------------------- complete passes

  lemma EveryoneAmong(s: State, i: nat)
    requires Wired(s) && i < |s.sessions|
    ensures Among(s, s.registry.Keys, i) <==> i in s.registry.Values
  {
    RegisteredMeans(s, i);
  }

  /** A complete pass of the health and timeout loop is a tick's loops when the policies issue nothing. */
  lemma CheckPass(s: State)
    requires Wired(s)
    ensures Part(s, Check, s.registry.Keys) == TickLoops(s, Outcome(s.overload, []))
  {
    hide Healthy, CheckTimeouts, Settle, Sum, ResentFrames, Among, FailKeys;
    var t, u := Part(s, Check, s.registry.Keys), TickLoops(s, Outcome(s.overload, []));
    var cmds := Commands(|s.issued|, []);
    assert cmds == [];
    forall i: nat | i < |s.sessions|
      ensures t.sessions[i] == u.sessions[i]
      ensures PartFailures(s, Check, s.registry.Keys)[i] == TickFailureCounts(s)[i]
      ensures PartTracked(s, Check, s.registry.Keys)[i] == TickTrackedCounts(s, cmds)[i]
    {
      EveryoneAmong(s, i);
    }
    forall c: nat | c < |s.conns|
      ensures t.conns[c] == u.conns[c]
    {
      CheckConn(s, c);
    }
    assert t.sessions == u.sessions;
    assert t.conns == u.conns;
    assert t.registry == u.registry;
    assert PartFailures(s, Check, s.registry.Keys) == TickFailureCounts(s);
    assert PartTracked(s, Check, s.registry.Keys) == TickTrackedCounts(s, cmds);
  }

  lemma CheckConn(s: State, c: nat)
    requires Wired(s) && c < |s.conns|
    ensures PartConn(s, Check, s.registry.Keys, c) == TickConn(s, c, [])
  {
    hide Healthy, ResentFrames, Among, FailKeys;
    if Lock(s, c).Some? {
      EveryoneAmong(s, Lock(s, c).value);
    }
  }

  lemma FlushPass(s: State)
    requires Wired(s) && !s.shuttingDown
    ensures Part(s, FlushAll, s.registry.Keys).(shuttingDown := true) == OnShutdown(s)
  {
    hide Settle, Sum, FlushedFrames, Among;
    var t, u := Part(s, FlushAll, s.registry.Keys), OnShutdown(s);
    forall i: nat | i < |s.sessions|
      ensures t.sessions[i] == u.sessions[i]
    {
      EveryoneAmong(s, i);
    }
    forall c: nat | c < |s.conns|
      ensures t.conns[c] == u.conns[c]
    {
      if Lock(s, c).Some? {
        EveryoneAmong(s, Lock(s, c).value);
      }
    }
    SumZero(PartFailures(s, FlushAll, s.registry.Keys));
    SumZero(PartTracked(s, FlushAll, s.registry.Keys));
    assert t.sessions == u.sessions;
    assert t.conns == u.conns;
    assert t.registry == u.registry;
  }

  /** A tick's loops keep the healthy sessions, and what decides about health. */
  lemma Survivors(s: State, out: Outcome, sid: nat)
    requires Wired(s)
    ensures var t := TickLoops(s, out);
            && (sid in t.registry.Values <==> sid in s.registry.Values && Healthy(s, sid))
            && (sid < |s.sessions| ==> forall x :: HealthyAt(t, sid, x) <==> HealthyAt(s, sid, x))
  {
    hide TickSession, TickFrames, TickCloses, TickFailureCounts, TickTrackedCounts, Commands;
    var t, cmds := TickLoops(s, out), Commands(|s.issued|, out.modes);
    if sid < |s.sessions| {
      TickKeepsNames(s, sid, cmds);
    }
    if sid in s.registry.Values && Healthy(s, sid) {
      var a :| a in s.registry && s.registry[a] == sid;
      assert a in t.registry && t.registry[a] == sid;
    }
  }

  lemma CommandsSnoc(first: nat, modes: seq<nat>, mode: nat)
    ensures Commands(first, modes + [mode]) == Commands(first, modes) + [Cmd((first + |modes|) % U32_RANGE, mode)]
  {
  }

  lemma IssueGivenSnoc(s: State, i: nat, ss: Session, cmds: seq<Cmd<nat>>, cmd: Cmd<nat>)
    ensures var j := |cmds|;
            && Given(s, i, cmds + [cmd]) == Given(s, i, cmds) + (if HealthyAgain(s, i, j) then [cmd] else [])
            && IssueGiven(s, i, ss, cmds + [cmd])
               == var before := IssueGiven(s, i, ss, cmds);
                  if HealthyAgain(s, i, j) then Issue(before, cmd, TrackTime(s, i, j)) else before
  {
    hide Issue, HealthyAgain;
    assert (cmds + [cmd])[..|cmds|] == cmds;
  }

  lemma TickedSession(s: State, out: Outcome, i: nat)
    requires i < |s.sessions|
    ensures var t := TickLoops(s, out);
            && |t.sessions| == |s.sessions| && t.sessions[i] == TickSession(s, i, Commands(|s.issued|, out.modes))
            && t.now == s.now && t.clock == s.clock
  {
    hide TickSession, TickConn, TickFailureCounts, TickTrackedCounts, Commands;
  }

  lemma IssueSessions(s: State, out: Outcome, mode: nat, w: Work, i: nat)
    requires Wired(s) && i < |s.sessions|
    requires w == IssueCmd(Cmd((|s.issued| + |out.modes|) % U32_RANGE, mode), |out.modes|)
    ensures var t := TickLoops(s, out);
            && |t.sessions| == |s.sessions|
            && PartSession(t, w, t.registry.Keys, i) == TickSession(s, i, Commands(|s.issued|, out.modes + [mode]))
  {
    hide HealthyAt, CheckTimeouts, Settle, Commands, IssueGiven, Given, Issue, Wired, TickLoops, Among;
    var t, cmds := TickLoops(s, out), Commands(|s.issued|, out.modes);
    TickLoopsKeepWired(s, out);
    Survivors(s, out, i);
    TickedSession(s, out, i);
    EveryoneAmong(t, i);
    CommandsSnoc(|s.issued|, out.modes, mode);
    IssueGivenSnoc(s, i, CheckTimeouts(s.sessions[i], CheckTime(s, i)), cmds, w.cmd);
  }

  lemma TickLock(s: State, out: Outcome, c: nat)
    requires Wired(s) && c < |s.conns|
    ensures var t := TickLoops(s, out);
            && Lock(t, c) == (if Lock(s, c).Some? && Healthy(s, Lock(s, c).value) then Lock(s, c) else None)
            && (Lock(t, c).Some? ==>
                  var sid := Lock(t, c).value;
                  Among(t, t.registry.Keys, sid) && forall x :: HealthyAt(t, sid, x) <==> HealthyAt(s, sid, x))
  {
    hide HealthyAt, TickSession, TickFrames, TickCloses, Commands, TickFailureCounts, TickTrackedCounts, Among, Wired;
    TickLoopsKeepWired(s, out);
    var ctx := s.conns[c].context;
    if ctx.Some? {
      Survivors(s, out, ctx.value);
      if ctx.value < |s.sessions| {
        EveryoneAmong(TickLoops(s, out), ctx.value);
      }
    }
  }

  lemma AppendLast<T>(a: seq<T>, b: seq<T>, c: seq<T>, x: T)
    ensures (a + (b + c)) + [x] == a + (b + (c + [x]))
  {
  }

  lemma IssueConns(s: State, out: Outcome, mode: nat, w: Work, c: nat)
    requires Wired(s) && c < |s.conns|
    requires w == IssueCmd(Cmd((|s.issued| + |out.modes|) % U32_RANGE, mode), |out.modes|)
    ensures var t := TickLoops(s, out);
            PartConn(t, w, t.registry.Keys, c) == TickConn(s, c, Commands(|s.issued|, out.modes + [mode]))
  {
    hide HealthyAt, TickSession, Commands, TickFailureCounts, TickTrackedCounts, Among, ResentFrames, Wired;
    hide Given, IssueGiven, Issue, FailKeys;
    var cmds, sid := Commands(|s.issued|, out.modes), Lock(s, c);
    TickLock(s, out, c);
    CommandsSnoc(|s.issued|, out.modes, mode);
    if sid.Some? {
      var ss := s.sessions[sid.value];
      IssueGivenSnoc(s, sid.value, ss, cmds, w.cmd);
      AppendLast(s.conns[c].sent, ResentFrames(ss, CheckTime(s, sid.value)), Given(s, sid.value, cmds), w.cmd);
    }
  }

  lemma IssueCounts(s: State, out: Outcome, mode: nat, w: Work)
    requires Wired(s)
    requires w == IssueCmd(Cmd((|s.issued| + |out.modes|) % U32_RANGE, mode), |out.modes|)
    ensures var t := TickLoops(s, out);
            && Sum(PartFailures(t, w, t.registry.Keys)) == 0
            && Sum(TickTrackedCounts(s, Commands(|s.issued|, out.modes + [mode])))
               == Sum(TickTrackedCounts(s, Commands(|s.issued|, out.modes))) + Sum(PartTracked(t, w, t.registry.Keys))
  {
    hide HealthyAt, TickSession, TickConn, Commands, Sum, Among, Given, IssueGiven, Wired;
    var t, cmds := TickLoops(s, out), Commands(|s.issued|, out.modes);
    TickLoopsKeepWired(s, out);
    SumZero(PartFailures(t, w, t.registry.Keys));
    CommandsSnoc(|s.issued|, out.modes, mode);
    var more := cmds + [w.cmd];
    forall i: nat | i < |s.sessions|
      ensures TickTrackedCounts(s, more)[i]
           == TickTrackedCounts(s, cmds)[i] + PartTracked(t, w, t.registry.Keys)[i]
    {
      Survivors(s, out, i);
      EveryoneAmong(t, i);
      IssueGivenSnoc(s, i, s.sessions[i], cmds, w.cmd);
    }
    SumAdd(TickTrackedCounts(s, cmds), PartTracked(t, w, t.registry.Keys), TickTrackedCounts(s, more));
  }

  /** Issuing one more command to all sessions extends the tick's list of commands by it. */
  lemma IssuePass(s: State, out: Outcome, mode: nat, overload: bool)
    requires Wired(s)
    ensures var t := TickLoops(s, out);
            var w := IssueCmd(Cmd((|s.issued| + |out.modes|) % U32_RANGE, mode), |out.modes|);
            Part(t, w, t.registry.Keys).(issued := t.issued + [mode], overload := overload)
            == TickLoops(s, Outcome(overload, out.modes + [mode]))
  {
    hide Healthy, TickSession, TickConn, PartSession, PartConn, Commands, Sum, TickFailureCounts, TickTrackedCounts;
    hide PartFailures, PartTracked;
    var t := TickLoops(s, out);
    var w := IssueCmd(Cmd((|s.issued| + |out.modes|) % U32_RANGE, mode), |out.modes|);
    var u, v := Part(t, w, t.registry.Keys), TickLoops(s, Outcome(overload, out.modes + [mode]));
    forall i: nat | i < |s.sessions|
      ensures u.sessions[i] == v.sessions[i]
    {
      IssueSessions(s, out, mode, w, i);
    }
    forall c: nat | c < |s.conns|
      ensures u.conns[c] == v.conns[c]
    {
      IssueConns(s, out, mode, w, c);
    }
    IssueCounts(s, out, mode, w);
    assert u.sessions == v.sessions;
    assert u.conns == v.conns;
    assert u.registry == v.registry;
    assert s.issued + (out.modes + [mode]) == (s.issued + out.modes) + [mode];
  }
}
