/**
 What single events do to the agents' registrations, loads and connections, in every reachable state
 (src/controller/Controller.cpp:69-165, 177-187, 293-308, src/controller/AgentTcpSession.cpp:106-145).
 */
module Handlers {
  import opened Options
  import opened Policies
  import opened Sessions
  import opened System
  import opened Registry
  import opened CommandOrder

  // ---------------------------------------------------------------- eviction

  /** The session is destroyed: what it had open is abandoned, everything else stays as it was. */
  ghost predicate Destroyed(x: Session, y: Session) {
    && y.pending == map[] && y.ledger.Keys == x.ledger.Keys
    && (forall k :: k in x.ledger ==> y.ledger[k] == if k in x.pending then Abandoned else x.ledger[k])
    && y == x.(pending := y.pending, ledger := y.ledger)
  }

  /** Only the registration of `a` and its session change. */
  ghost predicate OnlyEvicts(s: State, t: State, a: nat)
    requires a in s.registry && s.registry[a] < |s.sessions|
  {
    && t.registry == s.registry - {a}
    && |t.sessions| == |s.sessions| && Destroyed(s.sessions[s.registry[a]], t.sessions[s.registry[a]])
    && (forall i :: 0 <= i < |s.sessions| && i != s.registry[a] ==> t.sessions[i] == s.sessions[i])
    && t == s.(registry := t.registry, sessions := t.sessions)
  }

  lemma ErrorEvicts(s: State, a: nat)
    requires Wired(s) && a in s.registry
    ensures s.sessions[s.registry[a]].conn < |s.conns|
    ensures var t := OnError(s, s.sessions[s.registry[a]].conn); if a == 0 then t == s else OnlyEvicts(s, t, a)
  {
    assert s.registry[a] in s.registry.Values;
    OwnConnection(s, s.registry[a]);
  }

  /**
   An error on a connection evicts the agent registered on it, except agent id 0: its session is destroyed, its open
   commands are abandoned, and nothing else changes; the load it last reported, in particular, stays.
   */
  lemma ConnectionErrorEvicts(setup: Setup, es: seq<Event>, a: nat)
    requires a in Run(Initial(setup), es).registry
    ensures var s := Run(Initial(setup), es);
            && s.registry[a] < |s.sessions|
            && var t := Step(s, ConnectionError(s.sessions[s.registry[a]].conn));
               && (a in t.registry <==> a == 0)
               && (if a == 0 then t == s else OnlyEvicts(s, t, a))
  {
    hide Run, OnError, OnlyEvicts;
    RunKeepsWired(Initial(setup), es);
    var s := Run(Initial(setup), es);
    ErrorEvicts(s, a);
    if a != 0 {
      assert a !in OnError(s, s.sessions[s.registry[a]].conn).registry by {
        EvictedIsGone(s, OnError(s, s.sessions[s.registry[a]].conn), a);
      }
    }
  }

  lemma EvictedIsGone(s: State, t: State, a: nat)
    requires a in s.registry && s.registry[a] < |s.sessions| && OnlyEvicts(s, t, a)
    ensures a !in t.registry
  {
  }

  /** A payload that does not decode is an error of its connection; where no session lives, an error does nothing. */
  lemma UndecodableIsError(s: State, c: nat, msg: Inbound)
    requires c < |s.conns|
    requires msg == Report(None) || msg == AckOf(None) || msg == NackOf(None) || msg == Hello(None)
    ensures Lock(s, c).Some? && !msg.Hello? ==> Step(s, Receive(c, msg)) == Step(s, ConnectionError(c))
    ensures Lock(s, c).None? ==> Step(s, ConnectionError(c)) == s && (msg.Hello? ==> Step(s, Receive(c, msg)) == s)
  {
  }

  // ---------------------------------------------------------------- registration

  /**
   HELLO registers: in every reachable state a HELLO on a connection without a live session makes a new session for
   the agent, heard of now, with nothing pending, bound to the connection; one that the id had before is destroyed.
   On a connection with a live session a HELLO changes nothing.
   */
  lemma HelloRegisters(setup: Setup, es: seq<Event>, c: nat, a: nat)
    requires c < |Run(Initial(setup), es).conns|
    ensures var s := Run(Initial(setup), es);
            var t, sid := Step(s, Receive(c, Hello(Some(a)))), |s.sessions|;
            if Lock(s, c).Some? then t == s
            else
              && t.registry == s.registry[a := sid] && |t.sessions| == sid + 1
              && t.sessions[sid] == Session(a, c, None, map[], s.now, map[]) && Lock(t, c) == Some(sid)
              && (forall i :: 0 <= i < sid ==>
                    if a in s.registry && s.registry[a] == i then Destroyed(s.sessions[i], t.sessions[i])
                    else t.sessions[i] == s.sessions[i])
  {
    hide Run, Register, Destroyed;
    var s := Run(Initial(setup), es);
    RunKeepsWired(Initial(setup), es);
    if Lock(s, c).None? {
      RegisterMakesSession(s, c, a);
    }
  }

  lemma RegisterMakesSession(s: State, c: nat, a: nat)
    requires Wired(s) && c < |s.conns|
    ensures var t, sid := Register(s, c, a), |s.sessions|;
            && t.registry == s.registry[a := sid] && |t.sessions| == sid + 1
            && t.sessions[sid] == Session(a, c, None, map[], s.now, map[]) && |t.conns| == |s.conns|
            && Lock(t, c) == Some(sid)
            && (forall i :: 0 <= i < sid ==>
                  if a in s.registry && s.registry[a] == i then Destroyed(s.sessions[i], t.sessions[i])
                  else t.sessions[i] == s.sessions[i])
  {
    var t := Register(s, c, a);
    assert t.registry[a] in t.registry.Values;
  }

  // ---------------------------------------------------------------- loads

  /** The load that event `e` reports for agent `a`: a STATE message on the connection of a session of `a`. */
  function Reported(s: State, e: Event, a: nat): Option<real> {
    if e.Receive? && e.conn < |s.conns| && e.msg.Report? && e.msg.load.Some? && Lock(s, e.conn).Some?
       && s.sessions[Lock(s, e.conn).value].agentId == a
    then e.msg.load
    else None
  }

  lemma StepStoresReport(s: State, e: Event, a: nat)
    ensures var t, x := Step(s, e), Reported(s, e, a);
            if x.Some? then a in t.loads && t.loads[a] == x.value
            else (a in t.loads <==> a in s.loads) && (a in s.loads ==> t.loads[a] == s.loads[a])
  {
    hide OnTick, Destroy, HandleAck, Beat, FlushSession, FlushConn;
    if e.Tick? {
      TickKeepsLoads(Begin(s, e.reload, e.clock), e.load);
    }
  }

  lemma TickKeepsLoads(s: State, load: real)
    ensures OnTick(s, load).loads == s.loads
  {
    hide TickSession, TickConn, TickFailureCounts, TickTrackedCounts, RunPolicies, Commands, Healthy;
  }

  /** What agent `a` last reported in the run, `before` if it reported nothing. */
  function LastReport(s: State, es: seq<Event>, a: nat, before: Option<real>): Option<real>
    decreases |es|
  {
    if es == [] then before
    else
      var x := Reported(s, es[0], a);
      LastReport(Step(s, es[0]), es[1..], a, if x.Some? then x else before)
  }

  function Stored(s: State, a: nat): Option<real> {
    if a in s.loads then Some(s.loads[a]) else None
  }

  lemma {:induction false} RunStoresLastReport(s: State, es: seq<Event>, a: nat)
    ensures Stored(Run(s, es), a) == LastReport(s, es, a, Stored(s, a))
    decreases |es|
  {
    hide Step, Reported;
    if es != [] {
      StepStoresReport(s, es[0], a);
      RunStoresLastReport(Step(s, es[0]), es[1..], a);
    }
  }

  /**
   The load store, over every run: for each agent it holds the load of the last STATE message that came on a
   connection whose context locked to a session of that agent, and nothing for an agent that never reported.  No
   other event touches it: evicted, dropped and displaced agents keep their last load.
   */
  lemma LoadsAreLastReports(setup: Setup, es: seq<Event>, a: nat)
    ensures Stored(Run(Initial(setup), es), a) == LastReport(Initial(setup), es, a, None)
  {
    RunStoresLastReport(Initial(setup), es, a);
  }

  // ---------------------------------------------------------------- close requests

  /** A connection without a live session that sends anything but HELLO is asked to close, and nothing else happens. */
  lemma StrangerIsAskedToLeave(s: State, c: nat, msg: Inbound)
    requires c < |s.conns| && Lock(s, c).None? && !msg.Hello?
    ensures var t := Step(s, Receive(c, msg));
            t.conns == s.conns[c := s.conns[c].(closeAsked := true)] && t == s.(conns := t.conns)
  {
  }

  /** The tick fails a command of the session: its fate becomes Failed. */
  ghost predicate FailsOne(x: Session, y: Session) {
    exists k :: k in x.pending && k in y.ledger && y.ledger[k].Failed?
  }

  lemma CheckFails(ss: Session, at: int, now: int)
    requires SessionOk(ss, now)
    ensures FailKeys(ss, at) != {} <==> FailsOne(ss, CheckTimeouts(ss, at))
  {
    hide Fails, Retry;
    var t := CheckTimeouts(ss, at);
    if k :| k in FailKeys(ss, at) {
      assert k in ss.pending && k in t.ledger && t.ledger[k].Failed?;
    }
    if FailsOne(ss, t) {
      var k :| k in ss.pending && k in t.ledger && t.ledger[k].Failed?;
      assert k in FailKeys(ss, at);
    }
  }

  /** Commands with other ids leave an entry and its fate alone. */
  lemma {:induction false} IssueLeavesOld(s: State, i: nat, ss: Session, cmds: Frames, k: nat)
    requires forall j :: 0 <= j < |cmds| ==> cmds[j].id != k
    ensures var t := IssueGiven(s, i, ss, cmds);
            && (k in t.ledger <==> k in ss.ledger) && (k in ss.ledger ==> t.ledger[k] == ss.ledger[k])
            && (k in t.pending <==> k in ss.pending) && (k in ss.pending ==> t.pending[k] == ss.pending[k])
    decreases |cmds|
  {
    hide HealthyAgain;
    if cmds != [] {
      IssueLeavesOld(s, i, ss, cmds[..|cmds| - 1], k);
    }
  }

  lemma TickFails(s: State, sid: nat, modes: seq<nat>)
    requires Inv(s) && sid in s.registry.Values && Healthy(s, sid) && |s.issued| + |modes| <= SENTINEL
    ensures sid < |s.sessions|
    ensures FailsOne(s.sessions[sid], TickSession(s, sid, Commands(|s.issued|, modes)))
            <==> FailKeys(s.sessions[sid], CheckTime(s, sid)) != {}
  {
    hide Inv, Healthy, SessionOk, CheckTimeouts, IssueGiven, FailKeys, Commands;
    LiveSlot(s, sid);
    var ss, at, cmds := s.sessions[sid], CheckTime(s, sid), Commands(|s.issued|, modes);
    var mid, t := CheckTimeouts(ss, at), TickSession(s, sid, cmds);
    CheckFails(ss, at, s.now);
    CommandsGood(s.issued, modes);
    forall k | k in ss.pending
      ensures k in mid.ledger && k in t.ledger && (t.ledger[k].Failed? <==> mid.ledger[k].Failed?)
    {
      assert k in mid.ledger && k < |s.issued| by { OldKey(s, sid, at, k); }
      IssueLeavesOld(s, sid, mid, cmds, k);
    }
  }

  lemma OldKey(s: State, sid: nat, at: int, k: nat)
    requires Inv(s) && sid < |s.sessions| && k in s.sessions[sid].pending
    ensures k in s.sessions[sid].ledger && k in CheckTimeouts(s.sessions[sid], at).ledger && k < |s.issued|
  {
    hide AgentsOk, FramesOk, Fails, Retry, TimesOk;
    assert SessionOk(s.sessions[sid], s.now);
    assert s.sessions[sid].slot.Some? ==> GoodFrame(s.sessions[sid].slot.value, s.issued);
  }

  /**
   When a tick asks for a connection to be closed: in every reachable state, exactly if that was asked before, or the
   tick drops the session registered on it, or fails one of its commands.
   */
  lemma TickAsksToClose(setup: Setup, es: seq<Event>, e: Event, a: nat)
    requires e.Tick? && Bounded(Step(Run(Initial(setup), es), e)) && a in Run(Initial(setup), es).registry
    ensures var s := Run(Initial(setup), es);
            var t, sid := Step(s, e), s.registry[a];
            && sid < |s.sessions| && sid < |t.sessions| && s.sessions[sid].conn < |s.conns| == |t.conns|
            && var c := s.sessions[sid].conn;
               t.conns[c].closeAsked <==>
                 s.conns[c].closeAsked || a !in t.registry || FailsOne(s.sessions[sid], t.sessions[sid])
  {
    hide Run, Inv, TickSession, TickFrames, TickFailureCounts, TickTrackedCounts, RunPolicies, Commands, FailKeys;
    hide Healthy, FailsOne;
    var s := Run(Initial(setup), es);
    IssuedGrows(s, e);
    Reachable(setup, es);
    BeginKeepsInv(s, e.reload, e.clock);
    var b, sid := Begin(s, e.reload, e.clock), s.registry[a];
    assert sid in b.registry.Values;
    LiveSlot(b, sid);
    if Healthy(b, sid) {
      TickFails(b, sid, RunPolicies(b.policies, e.load, b.overload).modes);
    }
  }

  // ---------------------------------------------------------------- tracking and acknowledging

  lemma {:induction false} IssueFiles(s: State, i: nat, ss: Session, cmds: Frames, first: nat, j: nat)
    requires j < |cmds| && forall k :: 0 <= k < |cmds| ==> cmds[k].id == first + k
    requires (first + j) !in ss.ledger
    ensures var t, at := IssueGiven(s, i, ss, cmds), s.now + s.clock.Track(i, j);
            if HealthyAgain(s, i, j) then
              && first + j in t.pending && t.pending[first + j] == Pending(at, 0, at)
              && first + j in t.ledger && t.ledger[first + j] == Waiting(at)
            else first + j !in t.ledger
    decreases |cmds|
  {
    hide HealthyAgain;
    var n := |cmds| - 1;
    if j < n {
      IssueFiles(s, i, ss, cmds[..n], first, j);
    } else {
      IssueLeavesOld(s, i, ss, cmds[..n], first + j);
    }
  }

  lemma NewKey(s: State, sid: nat, at: int, id: nat)
    requires Inv(s) && sid < |s.sessions| && |s.issued| <= id
    ensures id !in CheckTimeouts(s.sessions[sid], at).ledger
  {
    hide AgentsOk, FramesOk, Fails, Retry, TimesOk;
    assert SessionOk(s.sessions[sid], s.now);
    assert s.sessions[sid].slot.Some? ==> GoodFrame(s.sessions[sid].slot.value, s.issued);
  }

  /**
   What a tick files: in every reachable state, for a session it finds healthy, the tick's `j`-th command becomes
   pending, from the moment it is tracked and with no retry yet, exactly if the last heartbeat is less than 3 seconds
   old when that command is about to be issued; otherwise the session never hears of it.
   */
  lemma TickFilesCommands(setup: Setup, es: seq<Event>, e: Event, a: nat, j: nat)
    requires e.Tick? && Bounded(Step(Run(Initial(setup), es), e)) && a in Run(Initial(setup), es).registry
    requires a in Step(Run(Initial(setup), es), e).registry
    requires j < |Step(Run(Initial(setup), es), e).issued| - |Run(Initial(setup), es).issued|
    ensures var s := Run(Initial(setup), es);
            var t, sid, id := Step(s, e), s.registry[a], |s.issued| + j;
            && sid < |s.sessions| == |t.sessions|
            && var ss, at := t.sessions[sid], s.now + e.clock.Track(sid, j);
               if s.now + e.clock.Again(sid, j) - s.sessions[sid].lastHeartbeat < 3000 then
                 && id in ss.pending && ss.pending[id] == Pending(at, 0, at)
                 && id in ss.ledger && ss.ledger[id] == Waiting(at)
               else id !in ss.ledger && id !in ss.pending
  {
    hide Run, Inv, TickConn, TickFailureCounts, TickTrackedCounts, RunPolicies, Commands, CheckTimeouts;
    hide HealthyAt, IssueGiven, SessionOk;
    var s := Run(Initial(setup), es);
    IssuedGrows(s, e);
    Reachable(setup, es);
    BeginKeepsInv(s, e.reload, e.clock);
    var b, sid, id := Begin(s, e.reload, e.clock), s.registry[a], |s.issued| + j;
    var modes := RunPolicies(b.policies, e.load, b.overload).modes;
    var cmds, at := Commands(|b.issued|, modes), CheckTime(b, sid);
    assert sid in b.registry.Values;
    LiveSlot(b, sid);
    CommandsGood(b.issued, modes);
    NewKey(b, sid, at, id);
    IssueFiles(b, sid, CheckTimeouts(b.sessions[sid], at), cmds, |b.issued|, j);
    StillHealthy(b, sid, e.clock.Again(sid, j));
    TickKeepsInv(b, e.load);
    assert SessionOk(Step(s, e).sessions[sid], Step(s, e).now) by { InvParts(Step(s, e)); }
    PendingIsTracked(Step(s, e).sessions[sid], Step(s, e).now, id);
  }

  /**
   What a tick does to what was pending: in every reachable state, for a session that the tick keeps, an entry stays as
   it is until 2^r seconds after its last transmission, r being its retries; then, looked at by the timeout check, it
   is retried, up to 5 times, or gone and failed.
   */
  lemma TickChecksEntries(setup: Setup, es: seq<Event>, e: Event, a: nat, k: nat)
    requires e.Tick? && Bounded(Step(Run(Initial(setup), es), e)) && a in Run(Initial(setup), es).registry
    requires a in Step(Run(Initial(setup), es), e).registry
    requires var s := Run(Initial(setup), es);
             s.registry[a] < |s.sessions| && k in s.sessions[s.registry[a]].pending
    ensures var s := Run(Initial(setup), es);
            var t, sid := Step(s, e), s.registry[a];
            var p, at := s.sessions[sid].pending[k], s.now + e.clock.Check(sid);
            && sid < |t.sessions|
            && var ss := t.sessions[sid];
               if at - p.lastSend < 1000 * Wait(p.retryCount) then k in ss.pending && ss.pending[k] == p
               else if p.retryCount < 5 then
                 k in ss.pending && ss.pending[k] == Pending(at, p.retryCount + 1, p.since)
               else k !in ss.pending && k in ss.ledger && ss.ledger[k] == Failed(p.since, at)
  {
    hide Run, Inv, TickConn, TickFailureCounts, TickTrackedCounts, RunPolicies, Commands, CheckTimeouts;
    hide HealthyAt, IssueGiven, SessionOk;
    var s := Run(Initial(setup), es);
    IssuedGrows(s, e);
    Reachable(setup, es);
    BeginKeepsInv(s, e.reload, e.clock);
    var b, sid := Begin(s, e.reload, e.clock), s.registry[a];
    var modes := RunPolicies(b.policies, e.load, b.overload).modes;
    var cmds, at := Commands(|b.issued|, modes), CheckTime(b, sid);
    assert sid in b.registry.Values;
    LiveSlot(b, sid);
    CommandsGood(b.issued, modes);
    OldKey(b, sid, at, k);
    CheckEntryExactly(b.sessions[sid], at, k);
    IssueLeavesOld(b, sid, CheckTimeouts(b.sessions[sid], at), cmds, k);
  }

  lemma CheckEntryExactly(ss: Session, at: int, k: nat)
    requires k in ss.pending
    ensures var p, t := ss.pending[k], CheckTimeouts(ss, at);
            if at - p.lastSend < 1000 * Wait(p.retryCount) then k in t.pending && t.pending[k] == p
            else if p.retryCount < 5 then k in t.pending && t.pending[k] == Pending(at, p.retryCount + 1, p.since)
            else k !in t.pending && (k in ss.ledger ==> k in t.ledger && t.ledger[k] == Failed(p.since, at))
  {
    hide Due;
    DueMeans(ss.pending[k], at);
  }

  lemma PendingIsTracked(ss: Session, now: int, id: nat)
    requires SessionOk(ss, now)
    ensures id in ss.pending ==> id in ss.ledger
  {
  }

  /**
   What a reply does: in every reachable state an ACK or NACK of `k` on the connection of a registered session, if `k`
   is pending there, removes the entry, is its one sample, with the times of tracking and of the reply, and changes
   nothing else; if `k` is not pending, nothing changes at all.
   */
  lemma ReplySettlesExactly(setup: Setup, es: seq<Event>, a: nat, k: nat, msg: Inbound)
    requires a in Run(Initial(setup), es).registry && (msg == AckOf(Some(k)) || msg == NackOf(Some(k)))
    ensures var s := Run(Initial(setup), es);
            var sid := s.registry[a];
            && sid < |s.sessions|
            && var ss, t := s.sessions[sid], Step(s, Receive(s.sessions[sid].conn, msg));
               if k !in ss.pending then t == s
               else
                 && t.samples == s.samples + 1
                 && t.sessions == s.sessions[sid := ss.(pending := ss.pending - {k},
                                                        ledger := ss.ledger[k := Sampled(ss.pending[k].since, s.now)])]
                 && t == s.(samples := t.samples, sessions := t.sessions)
  {
    hide Run;
    var s := Run(Initial(setup), es);
    RunKeepsWired(Initial(setup), es);
    assert s.registry[a] in s.registry.Values;
    OwnConnection(s, s.registry[a]);
    assert s.sessions[s.registry[a] := s.sessions[s.registry[a]]] == s.sessions;
  }

  // ---------------------------------------------------------------- sockets and shutdown

  lemma OpenNeverReturns(s: State, e: Event, c: nat)
    requires c < |s.conns|
    ensures c < |Step(s, e).conns|
    ensures !s.conns[c].open ==> !Step(s, e).conns[c].open
    ensures s.conns[c].closeAsked ==> Step(s, e).conns[c].closeAsked
    ensures s.conns[c].drainAsked ==> Step(s, e).conns[c].drainAsked
  {
    hide OnMessage, Destroy, TickSession, TickFrames, TickCloses, TickFailureCounts, TickTrackedCounts, RunPolicies;
    hide Commands, Healthy, FlushSession, FlushedFrames, Lock;
    if e.Receive? && e.conn < |s.conns| {
      MessageKeepsSockets(s, e.conn, e.msg, c);
    }
  }

  lemma MessageKeepsSockets(s: State, d: nat, msg: Inbound, c: nat)
    requires c < |s.conns| && d < |s.conns|
    ensures var t := OnMessage(s, d, msg);
            && c < |t.conns| && t.conns[c].open == s.conns[c].open && t.conns[c].drainAsked == s.conns[c].drainAsked
            && (s.conns[c].closeAsked ==> t.conns[c].closeAsked)
  {
    hide Destroy, HandleAck, Beat, Lock;
  }

  /** A closed socket stays closed, and requests to close or drain are never taken back. */
  lemma {:induction false} SocketsStayClosed(s: State, es: seq<Event>, c: nat)
    requires c < |s.conns|
    ensures c < |Run(s, es).conns|
    ensures !s.conns[c].open ==> !Run(s, es).conns[c].open
    ensures s.conns[c].closeAsked ==> Run(s, es).conns[c].closeAsked
    ensures s.conns[c].drainAsked ==> Run(s, es).conns[c].drainAsked
    decreases |es|
  {
    hide Step;
    if es != [] {
      OpenNeverReturns(s, es[0], c);
      SocketsStayClosed(Step(s, es[0]), es[1..], c);
    }
  }

  /**
   A closed socket costs the registration: after the socket of connection `c` has closed, and whatever happens then, a
   tick leaves nobody registered on `c`.
   */
  lemma ClosedSocketIsDropped(setup: Setup, es: seq<Event>, c: nat, more: seq<Event>, e: Event, a: nat)
    requires c < |Run(Initial(setup), es).conns| && e.Tick?
    requires a in Step(Run(Step(Run(Initial(setup), es), SocketClosed(c)), more), e).registry
    ensures var t := Step(Run(Step(Run(Initial(setup), es), SocketClosed(c)), more), e);
            t.registry[a] < |t.sessions| && t.sessions[t.registry[a]].conn != c
  {
    hide Run, OnTick, Wired;
    var s := Run(Initial(setup), es);
    var closed := Step(s, SocketClosed(c));
    var u := Run(closed, more);
    assert Wired(Initial(setup)) by { InitialInv(setup); InvParts(Initial(setup)); }
    RunKeepsWired(Initial(setup), es);
    StepKeepsWired(s, SocketClosed(c));
    RunKeepsWired(closed, more);
    SocketsStayClosed(closed, more, c);
    BeginKeepsWired(u, e.reload, e.clock);
    TickDropsClosed(Begin(u, e.reload, e.clock), e.load, c, a);
  }

  lemma TickDropsClosed(s: State, load: real, c: nat, a: nat)
    requires Wired(s) && c < |s.conns| && !s.conns[c].open && a in OnTick(s, load).registry
    ensures var t := OnTick(s, load); t.registry[a] < |t.sessions| && t.sessions[t.registry[a]].conn != c
  {
    hide TickSession, TickConn, TickFailureCounts, TickTrackedCounts, RunPolicies, Commands;
    TickKeepsNames(s, s.registry[a], Commands(|s.issued|, RunPolicies(s.policies, load, s.overload).modes));
  }

  /**
   Shutdown: every registered session's open commands are flushed and its connection is asked to drain; nobody is
   evicted; and a second shutdown does nothing.
   */
  lemma ShutdownHappensOnce(setup: Setup, es: seq<Event>, a: nat)
    requires var s := Run(Initial(setup), es); a in s.registry && !s.shuttingDown
    ensures var s := Run(Initial(setup), es);
            var t, sid := Step(s, Shutdown), s.registry[a];
            && t.shuttingDown && t.registry == s.registry && Step(t, Shutdown) == t
            && sid < |s.sessions| == |t.sessions| && s.sessions[sid].conn < |s.conns| == |t.conns|
            && t.conns[s.sessions[sid].conn].drainAsked
            && (forall k :: k in s.sessions[sid].ledger ==>
                  && k in t.sessions[sid].ledger
                  && t.sessions[sid].ledger[k]
                     == if k in s.sessions[sid].pending then Flushed else s.sessions[sid].ledger[k])
  {
    hide Run, FlushedFrames;
    RunKeepsWired(Initial(setup), es);
    var s := Run(Initial(setup), es);
    assert s.registry[a] in s.registry.Values;
    OwnConnection(s, s.registry[a]);
  }
}
