/**
 Timing over whole runs: the retry backoff and the heartbeat window (src/controller/AgentTcpSession.cpp:32-38,
 66-68, 106-145; src/controller/Controller.cpp:167-187).
 */
module Timeliness {
  import opened Options
  import opened Policies
  import opened Sessions
  import opened System
  import opened Registry
  import opened CommandOrder

  function TickEnd(s: State, e: Event): int {
    if e.Tick? then s.now + e.clock.length else s.now
  }

  /** Throughout the run, the start of the last tick is never more than `gap` milliseconds ago, even during a tick. */
  ghost predicate Punctual(s: State, es: seq<Event>, gap: nat)
    decreases |es|
  {
    && s.now - s.lastTick <= gap
    && (es != [] ==> TickEnd(s, es[0]) - s.lastTick <= gap && Punctual(Step(s, es[0]), es[1..], gap))
  }

  // ---------------------------------------------------------------- heartbeats

  /** Every registered session had a heartbeat in the 3 seconds before the last tick, or later. */
  ghost predicate Beating(s: State) {
    && s.lastTick <= s.now
    && forall a :: a in s.registry && s.registry[a] < |s.sessions| ==>
         s.lastTick - s.sessions[s.registry[a]].lastHeartbeat < 3000
  }

  lemma TickKeepsBeating(s: State, load: real)
    requires Wired(s) && Beating(s)
    ensures Beating(OnTick(s, load))
  {
    hide TickSession, TickConn, TickFailureCounts, TickTrackedCounts, RunPolicies, Commands;
    var cmds := Commands(|s.issued|, RunPolicies(s.policies, load, s.overload).modes);
    var t := OnTick(s, load);
    forall a | a in t.registry && t.registry[a] < |t.sessions|
      ensures t.lastTick - t.sessions[t.registry[a]].lastHeartbeat < 3000
    {
      TickKeepsNames(s, s.registry[a], cmds);
      HeartbeatMeans(s.sessions[s.registry[a]].lastHeartbeat, s.now + s.clock.Health(s.registry[a]));
    }
  }

  /** What a message can do to a registered session: settle entries, renew the heartbeat, or make the session. */
  ghost predicate Mild(s: State, t: State, a: nat) {
    && a in t.registry && t.registry[a] < |t.sessions|
    && var y := t.sessions[t.registry[a]];
       if a in s.registry && t.registry[a] == s.registry[a] && s.registry[a] < |s.sessions| then
         var x := s.sessions[s.registry[a]];
         && (y.lastHeartbeat == x.lastHeartbeat || y.lastHeartbeat == s.now)
         && (forall k :: k in y.pending ==> k in x.pending && y.pending[k] == x.pending[k])
       else y.pending == map[] && y.lastHeartbeat == s.now
  }

  lemma ErrorIsMild(s: State, c: nat, a: nat)
    requires Wired(s) && c < |s.conns| && a in OnError(s, c).registry
    ensures Mild(s, OnError(s, c), a)
  {
    if Lock(s, c).Some? {
      RegisteredMeans(s, Lock(s, c).value);
    }
  }

  lemma RegisterIsMild(s: State, c: nat, b: nat, a: nat)
    requires Wired(s) && c < |s.conns| && a in Register(s, c, b).registry
    ensures Mild(s, Register(s, c, b), a)
  {
  }

  lemma AckIsMild(s: State, sid: nat, id: nat, a: nat)
    requires Wired(s) && sid < |s.sessions| && a in s.registry
    ensures Mild(s, OnAck(s, sid, id), a)
  {
  }

  lemma MessageIsMild(s: State, c: nat, msg: Inbound, a: nat)
    requires Wired(s) && c < |s.conns| && a in OnMessage(s, c, msg).registry
    ensures Mild(s, OnMessage(s, c, msg), a)
  {
    hide OnError, Register, OnAck;
    match Lock(s, c)
    case None =>
      if msg.Hello? && msg.agentId.Some? {
        RegisterIsMild(s, c, msg.agentId.value, a);
      } else if msg.Hello? {
        ErrorIsMild(s, c, a);
      }
    case Some(sid) =>
      match msg
      case AckOf(Some(id)) => assert a in s.registry by { AckKeepsRegistry(s, sid, id); } AckIsMild(s, sid, id, a);
      case NackOf(Some(id)) => assert a in s.registry by { AckKeepsRegistry(s, sid, id); } AckIsMild(s, sid, id, a);
      case AckOf(None) => ErrorIsMild(s, c, a);
      case NackOf(None) => ErrorIsMild(s, c, a);
      case Report(None) => ErrorIsMild(s, c, a);
      case _ =>
  }

  lemma AckKeepsRegistry(s: State, sid: nat, id: nat)
    requires sid < |s.sessions|
    ensures OnAck(s, sid, id).registry == s.registry
  {
  }

  lemma MessageKeepsClock(s: State, c: nat, msg: Inbound)
    requires c < |s.conns|
    ensures OnMessage(s, c, msg).now == s.now && OnMessage(s, c, msg).lastTick == s.lastTick
  {
    hide Destroy, HandleAck;
  }

  lemma MessageKeepsBeating(s: State, c: nat, msg: Inbound)
    requires Wired(s) && Beating(s) && c < |s.conns|
    ensures Beating(OnMessage(s, c, msg))
  {
    hide OnMessage, Wired;
    MessageKeepsClock(s, c, msg);
    forall a | a in OnMessage(s, c, msg).registry
      ensures Mild(s, OnMessage(s, c, msg), a)
    {
      MessageIsMild(s, c, msg, a);
    }
  }

  lemma StepKeepsBeating(s: State, e: Event)
    requires Wired(s) && Beating(s)
    ensures Beating(Step(s, e))
  {
    hide OnMessage, OnTick, FlushConn, Wired;
    match e
    case Receive(c, msg) => if c < |s.conns| { MessageKeepsBeating(s, c, msg); }
    case Tick(reload, load, clock) =>
      BeginKeepsWired(s, reload, clock);
      TickKeepsBeating(Begin(s, reload, clock), load);
    case _ =>
  }

  lemma {:induction false} RunKeepsBeating(s: State, es: seq<Event>)
    requires Wired(s) && Beating(s)
    ensures Beating(Run(s, es))
    decreases |es|
  {
    hide Step, Wired, Beating;
    if es != [] {
      StepKeepsWired(s, es[0]);
      StepKeepsBeating(s, es[0]);
      RunKeepsBeating(Step(s, es[0]), es[1..]);
    }
  }

  /**
   Liveness window: if the last tick began at most `gap` ago, a session still registered has had a heartbeat (or was
   made) less than 3 s + `gap` ago; with the 2 s timer, less than 5 s ago.
   */
  lemma SilentSessionsAreDropped(setup: Setup, es: seq<Event>, gap: nat, a: nat)
    requires var s := Run(Initial(setup), es); s.now - s.lastTick <= gap && a in s.registry
    ensures var s := Run(Initial(setup), es);
            s.registry[a] < |s.sessions| && s.now - s.sessions[s.registry[a]].lastHeartbeat < 3000 + gap
  {
    hide Run;
    RunKeepsWired(Initial(setup), es);
    RunKeepsBeating(Initial(setup), es);
  }

  /**
   Conversely, in every reachable state the tick keeps a registered session, with its heartbeat time, exactly when
   its socket is open and, at the moment the session is looked at, its last heartbeat is less than 3 seconds ago; and
   it asks for the connection of a session it drops to be closed.
   */
  lemma TickKeepsExactlyTheHealthy(
    setup: Setup, es: seq<Event>, reload: Option<seq<Policy>>, load: real, clock: Clock, a: nat)
    requires a in Run(Initial(setup), es).registry
    ensures var s := Run(Initial(setup), es);
            var t := Step(s, Tick(reload, load, clock));
            var sid := s.registry[a];
            && sid < |s.sessions| && sid < |t.sessions| && s.sessions[sid].conn < |s.conns| == |t.conns|
            && (a in t.registry <==> s.conns[s.sessions[sid].conn].open
                                     && s.now + clock.Health(sid) - s.sessions[sid].lastHeartbeat < 3000)
            && (a in t.registry ==>
                  t.registry[a] == sid && t.sessions[sid].lastHeartbeat == s.sessions[sid].lastHeartbeat)
            && (a !in t.registry ==> t.conns[s.sessions[sid].conn].closeAsked)
  {
    hide Run, TickSession, TickFrames, TickFailureCounts, TickTrackedCounts, RunPolicies, Commands, FailKeys;
    RunKeepsWired(Initial(setup), es);
    var s := Run(Initial(setup), es);
    var r, sid := Begin(s, reload, clock), s.registry[a];
    assert sid in s.registry.Values;
    HeartbeatMeans(s.sessions[sid].lastHeartbeat, s.now + clock.Health(sid));
    OwnConnection(s, sid);
    TickKeepsNames(r, sid, Commands(|r.issued|, RunPolicies(r.policies, load, r.overload).modes));
  }

  /**
   The event neither closes the connection `c` of agent `a`'s session, nor makes its error handler evict `a`, nor
   gives `a` to another connection.
   */
  predicate Harmless(s: State, e: Event, c: nat, a: nat) {
    match e
    case ConnectionError(d) => d != c || a == 0
    case SocketClosed(d) => d != c
    case Receive(d, msg) =>
      if d == c then a == 0 || (msg != Report(None) && msg != AckOf(None) && msg != NackOf(None))
      else !(msg == Hello(Some(a)) && d < |s.conns| && Lock(s, d).None?)
    case _ => true
  }

  ghost predicate HarmlessRun(s: State, es: seq<Event>, c: nat, a: nat)
    decreases |es|
  {
    es == [] || (Harmless(s, es[0], c, a) && HarmlessRun(Step(s, es[0]), es[1..], c, a))
  }

  /** How long connection `c` has been without a heartbeat, in milliseconds, counting only the events. */
  function Silence(before: nat, e: Event, c: nat): nat {
    match e
    case Elapse(ms) => before + ms
    case Tick(_, _, clock) => before + clock.length
    case Receive(d, msg) => if d == c && msg == Heartbeat then 0 else before
    case _ => before
  }

  /** Every tick of the run finds session `sid` on connection `c` silent for less than 3 seconds. */
  ghost predicate BeatsOften(silence: nat, es: seq<Event>, sid: nat, c: nat)
    decreases |es|
  {
    es == [] ||
    ((es[0].Tick? ==> silence + es[0].clock.Health(sid) < 3000) &&
     BeatsOften(Silence(silence, es[0], c), es[1..], sid, c))
  }

  /** Agent `a` is registered with session `sid` on the open connection `c`, last heard from `silence` ms ago. */
  ghost predicate Heard(s: State, a: nat, sid: nat, c: nat, silence: nat) {
    && a in s.registry && s.registry[a] == sid && sid < |s.sessions| && c < |s.conns| && s.sessions[sid].conn == c
    && s.conns[c].open && s.now - s.sessions[sid].lastHeartbeat == silence
  }

  lemma OthersLeaveAlone(s: State, e: Event, a: nat, sid: nat, c: nat, silence: nat)
    requires Wired(s) && Heard(s, a, sid, c, silence) && Harmless(s, e, c, a)
    requires (e.Receive? || e.ConnectionError? || e.SocketClosed?) && e.conn != c && e.conn < |s.conns|
    ensures Heard(Step(s, e), a, sid, c, silence)
  {
    hide Step;
    IsolationStep(s, e, e.conn, a);
    ConnsStay(s, e, c);
    ClockStays(s, e);
  }

  lemma ConnsStay(s: State, e: Event, c: nat)
    requires e.Receive? || e.ConnectionError? || e.SocketClosed?
    requires c < |s.conns|
    ensures c < |Step(s, e).conns| && (e != SocketClosed(c) ==> Step(s, e).conns[c].open == s.conns[c].open)
  {
    hide OnMessage, Destroy;
    if e.Receive? && e.conn < |s.conns| {
      MessageKeepsOpen(s, e.conn, e.msg, c);
    }
  }

  lemma MessageKeepsOpen(s: State, d: nat, msg: Inbound, c: nat)
    requires c < |s.conns| && d < |s.conns|
    ensures var t := OnMessage(s, d, msg); c < |t.conns| && t.conns[c].open == s.conns[c].open
  {
    hide Destroy, HandleAck, Beat, Lock;
  }

  lemma ClockStays(s: State, e: Event)
    requires e.Receive? || e.ConnectionError? || e.SocketClosed?
    ensures Step(s, e).now == s.now
  {
    hide OnMessage, Destroy;
    if e.Receive? && e.conn < |s.conns| {
      MessageKeepsClock(s, e.conn, e.msg);
    }
  }

  lemma OwnMessageKeeps(s: State, msg: Inbound, a: nat, sid: nat, c: nat, silence: nat)
    requires Wired(s) && Heard(s, a, sid, c, silence) && Harmless(s, Receive(c, msg), c, a)
    ensures Heard(Step(s, Receive(c, msg)), a, sid, c, Silence(silence, Receive(c, msg), c))
  {
    hide HandleAck;
    assert sid in s.registry.Values;
    OwnConnection(s, sid);
    if (msg.AckOf? || msg.NackOf?) && msg.cmdId.Some? {
      AckKeepsHeartbeat(s.sessions[sid], msg.cmdId.value, s.now);
    }
  }

  lemma AckKeepsHeartbeat(s: Session, id: nat, now: int)
    ensures HandleAck(s, id, now).lastHeartbeat == s.lastHeartbeat && HandleAck(s, id, now).conn == s.conn
  {
  }

  lemma TickKeepsHeard(s: State, load: real, a: nat, sid: nat, c: nat, silence: nat)
    requires Wired(s) && Heard(s, a, sid, c, silence) && silence + s.clock.Health(sid) < 3000
    ensures Heard(OnTick(s, load), a, sid, c, silence + s.clock.length)
  {
    hide TickSession, TickFrames, TickCloses, TickFailureCounts, TickTrackedCounts, RunPolicies, Commands;
    HeartbeatMeans(s.sessions[sid].lastHeartbeat, s.now + s.clock.Health(sid));
    TickKeepsNames(s, sid, Commands(|s.issued|, RunPolicies(s.policies, load, s.overload).modes));
  }

  lemma StepKeepsHeard(s: State, e: Event, a: nat, sid: nat, c: nat, silence: nat)
    requires Wired(s) && Heard(s, a, sid, c, silence) && Harmless(s, e, c, a)
    requires e.Tick? ==> silence + e.clock.Health(sid) < 3000
    ensures Heard(Step(s, e), a, sid, c, Silence(silence, e, c))
  {
    hide OnMessage, OnError, OnTick, Wired, FlushedFrames;
    match e
    case Receive(d, msg) =>
      if d == c {
        OwnMessageKeeps(s, msg, a, sid, c, silence);
      } else if d < |s.conns| {
        OthersLeaveAlone(s, e, a, sid, c, silence);
      }
    case ConnectionError(d) =>
      if d == c {
        OwnErrorKeeps(s, a, sid, c, silence);
      } else if d < |s.conns| {
        OthersLeaveAlone(s, e, a, sid, c, silence);
      }
    case SocketClosed(d) =>
    case Tick(reload, load, clock) =>
      BeginKeepsWired(s, reload, clock);
      TickKeepsHeard(Begin(s, reload, clock), load, a, sid, c, silence);
    case _ =>
  }

  /** Agent id 0 survives the error handler of its connection. */
  lemma OwnErrorKeeps(s: State, a: nat, sid: nat, c: nat, silence: nat)
    requires Wired(s) && Heard(s, a, sid, c, silence) && a == 0
    ensures OnError(s, c) == s
  {
    assert sid in s.registry.Values;
    OwnConnection(s, sid);
  }

  /**
   A session whose socket stays open, whose messages decode, whose id is not taken over, and that is never silent for
   3 seconds when a tick looks at it, is never dropped: through any run it stays registered.
   */
  lemma {:induction false} NeverDropped(s: State, es: seq<Event>, a: nat, sid: nat, c: nat, silence: nat)
    requires Wired(s) && Heard(s, a, sid, c, silence)
    requires HarmlessRun(s, es, c, a) && BeatsOften(silence, es, sid, c)
    ensures a in Run(s, es).registry && Run(s, es).registry[a] == sid
    decreases |es|
  {
    hide Step, Wired;
    if es != [] {
      StepKeepsWired(s, es[0]);
      StepKeepsHeard(s, es[0], a, sid, c, silence);
      NeverDropped(Step(s, es[0]), es[1..], a, sid, c, Silence(silence, es[0], c));
    }
  }

  // ---------------------------------------------------------------- backoff

  /** No resend is later than the schedule plus one `gap` per resend, and the last tick came before the next is due. */
  ghost predicate OnSchedule(p: Pending, lastTick: int, gap: nat) {
    && p.lastSend <= p.since + 1000 * (Wait(p.retryCount) - 1) + p.retryCount * gap
    && lastTick - p.lastSend < 1000 * Wait(p.retryCount)
  }

  ghost predicate AllOnSchedule(ss: Session, lastTick: int, gap: nat) {
    forall k :: k in ss.pending ==> OnSchedule(ss.pending[k], lastTick, gap)
  }

  ghost predicate Scheduled(s: State, gap: nat) {
    forall a :: a in s.registry && s.registry[a] < |s.sessions| ==>
      AllOnSchedule(s.sessions[s.registry[a]], s.lastTick, gap)
  }

  lemma RetryOnSchedule(p: Pending, lastTick: int, tick: int, at: int, gap: nat)
    requires OnSchedule(p, lastTick, gap) && at - lastTick <= gap && lastTick <= tick <= at && !Fails(p, at)
    ensures OnSchedule(Retry(p, at), tick, gap)
  {
    DueMeans(p, at);
    assert (p.retryCount + 1) * gap == p.retryCount * gap + gap;
    assert Wait(p.retryCount + 1) == 2 * Wait(p.retryCount);
  }

  lemma {:induction false} IssueGivenOnSchedule(s: State, i: nat, ss: Session, cmds: Frames, gap: nat)
    requires AllOnSchedule(ss, s.now, gap)
    ensures AllOnSchedule(IssueGiven(s, i, ss, cmds), s.now, gap)
    decreases |cmds|
  {
    hide OnSchedule, HealthyAgain;
    if cmds != [] {
      IssueGivenOnSchedule(s, i, ss, cmds[..|cmds| - 1], gap);
      FreshOnSchedule(s.now, TrackTime(s, i, |cmds| - 1), gap);
    }
  }

  lemma FreshOnSchedule(tick: int, at: int, gap: nat)
    requires tick <= at
    ensures OnSchedule(Pending(at, 0, at), tick, gap)
  {
  }

  lemma TimeoutsOnSchedule(ss: Session, lastTick: int, tick: int, at: int, gap: nat)
    requires AllOnSchedule(ss, lastTick, gap) && at - lastTick <= gap && lastTick <= tick <= at
    ensures AllOnSchedule(CheckTimeouts(ss, at), tick, gap)
  {
    hide OnSchedule, Fails, Retry;
    forall k | k in ss.pending && !Fails(ss.pending[k], at)
      ensures OnSchedule(Retry(ss.pending[k], at), tick, gap)
    {
      RetryOnSchedule(ss.pending[k], lastTick, tick, at, gap);
    }
  }

  lemma TickKeepsSchedule(s: State, load: real, gap: nat)
    requires Wired(s) && Scheduled(s, gap) && s.lastTick <= s.now && s.now + s.clock.length - s.lastTick <= gap
    ensures Scheduled(OnTick(s, load), gap)
  {
    hide TickConn, TickFailureCounts, TickTrackedCounts, RunPolicies, Commands;
    hide AllOnSchedule, Healthy, IssueGiven, CheckTimeouts;
    var cmds := Commands(|s.issued|, RunPolicies(s.policies, load, s.overload).modes);
    var t := OnTick(s, load);
    forall a | a in t.registry && t.registry[a] < |t.sessions|
      ensures AllOnSchedule(t.sessions[t.registry[a]], t.lastTick, gap)
    {
      var sid := s.registry[a];
      assert sid in s.registry.Values;
      var at := CheckTime(s, sid);
      TimeoutsOnSchedule(s.sessions[sid], s.lastTick, s.now, at, gap);
      IssueGivenOnSchedule(s, sid, CheckTimeouts(s.sessions[sid], at), cmds, gap);
    }
  }

  lemma MessageKeepsSchedule(s: State, c: nat, msg: Inbound, gap: nat)
    requires Wired(s) && Scheduled(s, gap) && c < |s.conns|
    ensures Scheduled(OnMessage(s, c, msg), gap)
  {
    hide OnSchedule, OnMessage, Wired;
    MessageKeepsClock(s, c, msg);
    forall a | a in OnMessage(s, c, msg).registry
      ensures Mild(s, OnMessage(s, c, msg), a)
    {
      MessageIsMild(s, c, msg, a);
    }
  }

  lemma StepKeepsSchedule(s: State, e: Event, gap: nat)
    requires Wired(s) && Scheduled(s, gap) && s.lastTick <= s.now && TickEnd(s, e) - s.lastTick <= gap
    ensures Scheduled(Step(s, e), gap)
  {
    hide OnMessage, OnTick, FlushConn, Wired, OnSchedule;
    match e
    case Receive(c, msg) => if c < |s.conns| { MessageKeepsSchedule(s, c, msg, gap); }
    case Tick(reload, load, clock) =>
      BeginKeepsWired(s, reload, clock);
      TickKeepsSchedule(Begin(s, reload, clock), load, gap);
    case _ =>
  }

  lemma {:induction false} RunKeepsSchedule(s: State, es: seq<Event>, gap: nat)
    requires Wired(s) && Beating(s) && Scheduled(s, gap) && Punctual(s, es, gap)
    ensures Scheduled(Run(s, es), gap)
    ensures var t := Run(s, es); t.now - t.lastTick <= gap
    decreases |es|
  {
    hide Step, Wired, Scheduled;
    if es != [] {
      StepKeepsWired(s, es[0]);
      StepKeepsBeating(s, es[0]);
      StepKeepsSchedule(s, es[0], gap);
      RunKeepsSchedule(Step(s, es[0]), es[1..], gap);
    }
  }

  lemma DeadlineOf(p: Pending, lastTick: int, now: int, gap: nat)
    requires OnSchedule(p, lastTick, gap) && p.retryCount <= MAX_RETRIES && now - lastTick <= gap
    ensures now - p.since < 63000 + 6 * gap
  {
    WaitValues();
    assert p.retryCount * gap <= 5 * gap;
  }

  /**
   Backoff deadline: if every tick ends at most `gap` after the one before began, and the session is still registered,
   no entry is pending 63 s + 6 `gap` after it was tracked: by then it was acknowledged, flushed, or counted as a
   failure.
   */
  lemma BackoffDeadline(setup: Setup, es: seq<Event>, gap: nat, a: nat, k: nat)
    requires Bounded(Run(Initial(setup), es)) && Punctual(Initial(setup), es, gap)
    requires var s := Run(Initial(setup), es);
             a in s.registry && s.registry[a] < |s.sessions| && k in s.sessions[s.registry[a]].pending
    ensures var s := Run(Initial(setup), es);
            s.now - s.sessions[s.registry[a]].pending[k].since < 63000 + 6 * gap
  {
    hide Run, Punctual, OnSchedule, Inv;
    var s := Run(Initial(setup), es);
    RunKeepsSchedule(Initial(setup), es, gap);
    InitialInv(setup);
    RunKeepsInv(Initial(setup), es);
    var ss := s.sessions[s.registry[a]];
    assert SessionOk(ss, s.now) by { InvParts(s); }
    assert AllOnSchedule(ss, s.lastTick, gap);
    DeadlineOf(ss.pending[k], s.lastTick, s.now, gap);
  }

  /**
   Backoff floor, for every session ever made: a pending entry has been resent at most 5 times, the last (k-th)
   time at least 2^k - 1 seconds after tracking, so the shift exponent stays within 0..5; and every command counted
   as a failure failed at least 63 seconds after tracking.
   */
  lemma BackoffFloor(setup: Setup, es: seq<Event>, sid: nat, k: nat)
    requires Bounded(Run(Initial(setup), es)) && sid < |Run(Initial(setup), es).sessions|
    ensures var ss := Run(Initial(setup), es).sessions[sid];
            && (k in ss.pending ==>
                  var p := ss.pending[k];
                  p.retryCount <= 5 && p.lastSend >= p.since + 1000 * (Wait(p.retryCount) - 1))
            && (k in ss.ledger && ss.ledger[k].Failed? ==> ss.ledger[k].at >= ss.ledger[k].since + 63000)
  {
    hide Run, Inv;
    InitialInv(setup);
    RunKeepsInv(Initial(setup), es);
    var s := Run(Initial(setup), es);
    assert SessionOk(s.sessions[sid], s.now) by { InvParts(s); }
    assert k in s.sessions[sid].ledger ==> FateOk(s.sessions[sid].ledger[k], s.now);
  }
}
