/**
 Where every tracked command ends up: an RTT sample, a failure, the shutdown flush, or a session that was dropped or
 replaced (src/controller/AgentTcpSession.cpp:47-145, src/controller/Controller.cpp:149-213).
 */
module Accounting {
  import opened Sums
  import opened Policies
  import opened Sessions
  import opened System
  import opened Registry
  import opened CommandOrder

  function Samples(ss: seq<Session>): (r: seq<nat>)
    ensures |r| == |ss| && forall i :: 0 <= i < |ss| ==> r[i] == |SampledKeys(ss[i])|
  {
    seq(|ss|, i requires 0 <= i < |ss| => |SampledKeys(ss[i])|)
  }

  function Failures(ss: seq<Session>): (r: seq<nat>)
    ensures |r| == |ss| && forall i :: 0 <= i < |ss| ==> r[i] == |FailedKeys(ss[i])|
  {
    seq(|ss|, i requires 0 <= i < |ss| => |FailedKeys(ss[i])|)
  }

  function Tracked(ss: seq<Session>): (r: seq<nat>)
    ensures |r| == |ss| && forall i :: 0 <= i < |ss| ==> r[i] == |ss[i].ledger|
  {
    seq(|ss|, i requires 0 <= i < |ss| => |ss[i].ledger|)
  }

  function StillPending(ss: seq<Session>): (r: seq<nat>)
    ensures |r| == |ss| && forall i :: 0 <= i < |ss| ==> r[i] == |ss[i].pending|
  {
    seq(|ss|, i requires 0 <= i < |ss| => |ss[i].pending|)
  }

  function FlushedOut(ss: seq<Session>): (r: seq<nat>)
    ensures |r| == |ss| && forall i :: 0 <= i < |ss| ==> r[i] == |FlushedKeys(ss[i])|
  {
    seq(|ss|, i requires 0 <= i < |ss| => |FlushedKeys(ss[i])|)
  }

  function LeftBehind(ss: seq<Session>): (r: seq<nat>)
    ensures |r| == |ss| && forall i :: 0 <= i < |ss| ==> r[i] == |AbandonedKeys(ss[i])|
  {
    seq(|ss|, i requires 0 <= i < |ss| => |AbandonedKeys(ss[i])|)
  }

  /** The metrics count fates in the ledgers, each command once. */
  ghost predicate Accounts(s: State) {
    && s.samples == Sum(Samples(s.sessions))
    && s.failures == Sum(Failures(s.sessions))
    && s.tracked == Sum(Tracked(s.sessions))
  }

  // ---------------------------------------------------------------- every step keeps the accounts

  ghost predicate SameCounts(x: Session, y: Session) {
    && |SampledKeys(x)| == |SampledKeys(y)| && |FailedKeys(x)| == |FailedKeys(y)| && |x.ledger| == |y.ledger|
  }

  lemma SameCountsKeepAccounts(s: State, t: State)
    requires Accounts(s)
    requires t.samples == s.samples && t.failures == s.failures && t.tracked == s.tracked
    requires |t.sessions| == |s.sessions|
    requires forall i :: 0 <= i < |s.sessions| ==> SameCounts(t.sessions[i], s.sessions[i])
    ensures Accounts(t)
  {
    hide SampledKeys, FailedKeys;
    assert Samples(t.sessions) == Samples(s.sessions);
    assert Failures(t.sessions) == Failures(s.sessions);
    assert Tracked(t.sessions) == Tracked(s.sessions);
  }

  lemma DestroyCounts(s: State, agentId: nat)
    requires Inv(s)
    ensures var ss := Destroy(s.sessions, s.registry, agentId);
            |ss| == |s.sessions| && forall i :: 0 <= i < |ss| ==> SameCounts(ss[i], s.sessions[i])
  {
    hide Inv, Settle, SampledKeys, FailedKeys, SessionOk;
    assert SessionsOk(s.sessions, s.now) && Wired(s) by { InvParts(s); }
    if agentId in s.registry {
      var gone := s.sessions[s.registry[agentId]];
      assert LedgerOk(gone) by { LedgerOf(gone, s.now); }
      SettleCount(gone, Abandoned);
    }
  }

  lemma LedgerOf(s: Session, now: int)
    requires SessionOk(s, now)
    ensures LedgerOk(s)
  {
  }

  lemma LedgerAt(s: State, i: nat)
    requires Inv(s) && i < |s.sessions|
    ensures LedgerOk(s.sessions[i]) && SessionOk(s.sessions[i], s.now)
  {
    hide SlotsOk, AgentsOk, FramesOk;
  }

  lemma ErrorKeepsAccounts(s: State, c: nat)
    requires Inv(s) && Accounts(s) && c < |s.conns|
    ensures Accounts(OnError(s, c))
  {
    hide Inv, Destroy, SameCounts;
    if Lock(s, c).Some? {
      DestroyCounts(s, s.sessions[Lock(s, c).value].agentId);
      if s.sessions[Lock(s, c).value].agentId != 0 {
        SameCountsKeepAccounts(s, OnError(s, c));
      }
    }
  }

  lemma RegisterKeepsAccounts(s: State, c: nat, agentId: nat)
    requires Inv(s) && Accounts(s) && c < |s.conns|
    ensures Accounts(Register(s, c, agentId))
  {
    hide Inv, Destroy, SameCounts, Sum, Samples, Failures, Tracked;
    DestroyCounts(s, agentId);
    var ss := Destroy(s.sessions, s.registry, agentId);
    SameCountsKeepAccounts(s, s.(sessions := ss));
    NewSums(ss, NewSession(agentId, c, s.now));
  }

  lemma NewSums(ss: seq<Session>, x: Session)
    requires x.ledger == map[]
    ensures Sum(Samples(ss + [x])) == Sum(Samples(ss))
    ensures Sum(Failures(ss + [x])) == Sum(Failures(ss))
    ensures Sum(Tracked(ss + [x])) == Sum(Tracked(ss))
  {
    hide Sum;
    assert SampledKeys(x) == {} && FailedKeys(x) == {};
    SumSnoc(Samples(ss), 0);
    SumSnoc(Failures(ss), 0);
    SumSnoc(Tracked(ss), 0);
    assert Samples(ss + [x]) == Samples(ss) + [0];
    assert Failures(ss + [x]) == Failures(ss) + [0];
    assert Tracked(ss + [x]) == Tracked(ss) + [0];
  }

  lemma AckKeepsAccounts(s: State, sid: nat, id: nat)
    requires Inv(s) && Accounts(s) && sid < |s.sessions|
    ensures Accounts(OnAck(s, sid, id))
  {
    hide Inv, SampledKeys, FailedKeys, HandleAck;
    LedgerAt(s, sid);
    var x := HandleAck(s.sessions[sid], id, s.now);
    var ss := s.sessions[sid := x];
    AckCount(s.sessions[sid], id, s.now);
    SumUpdate(Samples(s.sessions), sid, |SampledKeys(x)|);
    SumUpdate(Failures(s.sessions), sid, |FailedKeys(x)|);
    SumUpdate(Tracked(s.sessions), sid, |x.ledger|);
    assert Samples(ss) == Samples(s.sessions)[sid := |SampledKeys(x)|];
    assert Failures(ss) == Failures(s.sessions)[sid := |FailedKeys(x)|];
    assert Tracked(ss) == Tracked(s.sessions)[sid := |x.ledger|];
  }

  lemma MessageKeepsAccounts(s: State, c: nat, msg: Inbound)
    requires Inv(s) && Accounts(s) && c < |s.conns|
    ensures Accounts(OnMessage(s, c, msg))
  {
    hide Inv, Accounts, Register, OnError, OnAck;
    ErrorKeepsAccounts(s, c);
    match Lock(s, c)
    case None =>
      if !msg.Hello? {
        SameCountsKeepAccounts(s, OnMessage(s, c, msg));
      } else if msg.agentId.Some? {
        RegisterKeepsAccounts(s, c, msg.agentId.value);
      }
    case Some(sid) =>
      match msg
      case Heartbeat => BeatKeepsAccounts(s, sid);
      case Report(load) =>
        if load.Some? {
          SameCountsKeepAccounts(s, s.(loads := s.loads[s.sessions[sid].agentId := load.value]));
        }
      case AckOf(id) => if id.Some? { AckKeepsAccounts(s, sid, id.value); }
      case NackOf(id) => if id.Some? { AckKeepsAccounts(s, sid, id.value); }
      case _ =>
  }

  lemma BeatKeepsAccounts(s: State, sid: nat)
    requires Accounts(s) && sid < |s.sessions|
    ensures Accounts(s.(sessions := s.sessions[sid := Beat(s.sessions[sid], s.now)]))
  {
    SameCountsKeepAccounts(s, s.(sessions := s.sessions[sid := Beat(s.sessions[sid], s.now)]));
  }

  lemma {:induction false} IssueGivenCounts(
    s: State, i: nat, ss: Session, cmds: Frames, first: nat, issued: seq<nat>, end: int)
    requires SessionOk(ss, end) && (ss.slot.Some? ==> ss.slot.value.id < first) && s.now + s.clock.length <= end
    requires FreshFrames(cmds, first, issued)
    ensures var t := IssueGiven(s, i, ss, cmds);
            && |t.ledger| == |ss.ledger| + |Given(s, i, cmds)|
            && |SampledKeys(t)| == |SampledKeys(ss)| && |FailedKeys(t)| == |FailedKeys(ss)|
    decreases |cmds|
  {
    hide SessionOk, SampledKeys, FailedKeys, HealthyAgain, GoodFrame, Issue, FreshFrames;
    if cmds != [] {
      var front, j := cmds[..|cmds| - 1], |cmds| - 1;
      FreshFront(cmds, first, issued);
      IssueGivenCounts(s, i, ss, front, first, issued, end);
      if HealthyAgain(s, i, j) {
        IssueGivenKeepsSession(s, i, ss, front, first, issued, end);
        GivenFresh(s, i, front, first, issued);
        var t := IssueGiven(s, i, ss, front);
        IssueKeepsSession(t, cmds[j], TrackTime(s, i, j), end);
        IssueCount(t, cmds[j], TrackTime(s, i, j));
      }
    }
  }

  lemma TickCounts(s: State, i: nat, modes: seq<nat>)
    requires Inv(s) && i < |s.sessions| && |s.issued| + |modes| <= SENTINEL
    ensures var cmds := Commands(|s.issued|, modes);
            var t := TickSession(s, i, cmds);
            && |SampledKeys(t)| == |SampledKeys(s.sessions[i])|
            && |FailedKeys(t)| == |FailedKeys(s.sessions[i])| + TickFailures(s, i)
            && |t.ledger| == |s.sessions[i].ledger| + TickTracked(s, i, cmds)
  {
    hide Inv, SessionOk, SampledKeys, FailedKeys, FailKeys, CheckTimeouts, Settle, Healthy, Commands, GoodFrame;
    hide IssueGiven, Given, FreshFrames;
    LedgerAt(s, i);
    var ss := s.sessions[i];
    if i in s.registry.Values {
      if Healthy(s, i) {
        var at, end := CheckTime(s, i), s.now + s.clock.length;
        TimeoutsCount(ss, at);
        CheckedSession(ss, s.now, at, end);
        assert ss.slot.Some? ==> ss.slot.value.id < |s.issued| by { if ss.slot.Some? { GoodMeans(s, i); } }
        CommandsFresh(s.issued, modes);
        IssueGivenCounts(s, i, CheckTimeouts(ss, at), Commands(|s.issued|, modes), |s.issued|, s.issued + modes, end);
      } else {
        SettleCount(ss, Abandoned);
      }
    }
  }

  lemma GoodMeans(s: State, i: nat)
    requires Inv(s) && i < |s.sessions| && s.sessions[i].slot.Some?
    ensures s.sessions[i].slot.value.id < |s.issued|
  {
    hide AgentsOk, FramesOk, SessionOk;
  }

  lemma TickKeepsAccounts(s: State, load: real)
    requires Inv(s) && Accounts(s) && Bounded(OnTick(s, load))
    ensures Accounts(OnTick(s, load))
  {
    hide Inv, SampledKeys, FailedKeys, TickSession, TickFailures, TickTracked, TickConn, Commands, RunPolicies, Healthy;
    var t := OnTick(s, load);
    var modes := RunPolicies(s.policies, load, s.overload).modes;
    var cmds, n := Commands(|s.issued|, modes), |s.sessions|;
    forall i: nat | i < n
      ensures |SampledKeys(t.sessions[i])| == |SampledKeys(s.sessions[i])|
      ensures |FailedKeys(t.sessions[i])| == |FailedKeys(s.sessions[i])| + TickFailures(s, i)
      ensures |t.sessions[i].ledger| == |s.sessions[i].ledger| + TickTracked(s, i, cmds)
    {
      TickCounts(s, i, modes);
    }
    assert Samples(t.sessions) == Samples(s.sessions);
    SumAdd(Failures(s.sessions), TickFailureCounts(s), Failures(t.sessions));
    SumAdd(Tracked(s.sessions), TickTrackedCounts(s, cmds), Tracked(t.sessions));
  }

  lemma ShutdownKeepsAccounts(s: State)
    requires Inv(s) && Accounts(s)
    ensures Accounts(OnShutdown(s))
  {
    hide Inv, Accounts, SampledKeys, FailedKeys, Settle, FlushConn;
    if !s.shuttingDown {
      forall i: nat | i < |s.sessions|
        ensures SameCounts(FlushSession(s, i), s.sessions[i])
      {
        LedgerAt(s, i);
        SettleCount(s.sessions[i], Flushed);
      }
      SameCountsKeepAccounts(s, OnShutdown(s));
    }
  }

  lemma StepKeepsAccounts(s: State, e: Event)
    requires Inv(s) && Accounts(s) && Bounded(Step(s, e))
    ensures Accounts(Step(s, e))
  {
    hide Inv, OnTick, OnMessage, OnError, OnShutdown, Sum, Samples, Failures, Tracked;
    match e
    case Receive(c, msg) => if c < |s.conns| { MessageKeepsAccounts(s, c, msg); }
    case ConnectionError(c) => if c < |s.conns| { ErrorKeepsAccounts(s, c); }
    case Tick(reload, load, clock) =>
      BeginKeepsInv(s, reload, clock);
      TickKeepsAccounts(Begin(s, reload, clock), load);
    case Shutdown => ShutdownKeepsAccounts(s);
    case _ =>
  }

  lemma {:induction false} RunKeepsAccounts(s: State, es: seq<Event>)
    requires Inv(s) && Accounts(s) && Bounded(Run(s, es))
    ensures Accounts(Run(s, es))
    decreases |es|
  {
    hide Step, Inv, Accounts;
    if es != [] {
      IssuedGrowsRun(Step(s, es[0]), es[1..]);
      StepKeepsInv(s, es[0]);
      StepKeepsAccounts(s, es[0]);
      RunKeepsAccounts(Step(s, es[0]), es[1..]);
    }
  }

  // ---------------------------------------------------------------- theorems

  lemma {:induction false} SumFive(a: seq<nat>, b: seq<nat>, c: seq<nat>, d: seq<nat>, e: seq<nat>, t: seq<nat>)
    requires |a| == |b| == |c| == |d| == |e| == |t|
    requires forall i :: 0 <= i < |t| ==> t[i] == a[i] + b[i] + c[i] + d[i] + e[i]
    ensures Sum(t) == Sum(a) + Sum(b) + Sum(c) + Sum(d) + Sum(e)
    decreases |t|
  {
    if t != [] {
      var n := |t| - 1;
      SumFive(a[..n], b[..n], c[..n], d[..n], e[..n], t[..n]);
    }
  }

  /**
   Command accounting, over every run: the calls of trackCommand are the RTT samples plus the command failures plus
   the entries still pending plus those cleared by the shutdown flush plus those abandoned with dropped or replaced
   sessions.  Each sample and each failure in the metrics is the fate of one tracked command, so no command is
   counted twice, however many ACKs and NACKs arrive.
   */
  lemma CommandAccounting(setup: Setup, es: seq<Event>)
    requires Bounded(Run(Initial(setup), es))
    ensures var s := Run(Initial(setup), es);
            && s.tracked == s.samples + s.failures + Sum(StillPending(s.sessions)) + Sum(FlushedOut(s.sessions))
                            + Sum(LeftBehind(s.sessions))
            && s.samples == Sum(Samples(s.sessions)) && s.failures == Sum(Failures(s.sessions))
  {
    hide Run, Inv;
    InitialInv(setup);
    RunKeepsInv(Initial(setup), es);
    RunKeepsAccounts(Initial(setup), es);
    var s := Run(Initial(setup), es);
    forall i: nat | i < |s.sessions|
      ensures Tracked(s.sessions)[i] == Samples(s.sessions)[i] + Failures(s.sessions)[i] + StillPending(s.sessions)[i]
                                        + FlushedOut(s.sessions)[i] + LeftBehind(s.sessions)[i]
    {
      LedgerAt(s, i);
      FatesPartition(s.sessions[i]);
    }
    SumFive(Samples(s.sessions), Failures(s.sessions), StillPending(s.sessions), FlushedOut(s.sessions),
            LeftBehind(s.sessions), Tracked(s.sessions));
  }

  /** The command's fate is decided. */
  ghost predicate Decided(s: State, sid: nat, k: nat) {
    sid < |s.sessions| && k in s.sessions[sid].ledger && !s.sessions[sid].ledger[k].Waiting?
  }

  ghost predicate SameFate(x: Session, y: Session, k: nat) {
    k in x.ledger && k in y.ledger && x.ledger[k] == y.ledger[k]
  }

  lemma {:induction false} IssueGivenKeepsFate(
    s: State, i: nat, ss: Session, cmds: Frames, first: nat, issued: seq<nat>, k: nat)
    requires k in ss.ledger && k < first && FreshFrames(cmds, first, issued)
    ensures SameFate(ss, IssueGiven(s, i, ss, cmds), k)
    decreases |cmds|
  {
    hide HealthyAgain, GoodFrame;
    if cmds != [] {
      IssueGivenKeepsFate(s, i, ss, cmds[..|cmds| - 1], first, issued, k);
    }
  }

  lemma TickKeepsFate(s: State, sid: nat, modes: seq<nat>, k: nat)
    requires Inv(s) && Decided(s, sid, k) && |s.issued| + |modes| <= SENTINEL
    ensures SameFate(s.sessions[sid], TickSession(s, sid, Commands(|s.issued|, modes)), k)
  {
    hide Inv, GoodFrame, Commands, Healthy, Fails, Retry, IssueGiven, FreshFrames;
    LedgerAt(s, sid);
    var ss := s.sessions[sid];
    if sid in s.registry.Values && Healthy(s, sid) {
      GoodMeans(s, sid);
      CommandsFresh(s.issued, modes);
      IssueGivenKeepsFate(s, sid, CheckTimeouts(ss, CheckTime(s, sid)), Commands(|s.issued|, modes), |s.issued|,
                          s.issued + modes, k);
    }
  }

  lemma DestroyKeepsFate(s: State, agentId: nat, sid: nat, k: nat)
    requires Inv(s) && Decided(s, sid, k)
    ensures |Destroy(s.sessions, s.registry, agentId)| == |s.sessions|
    ensures SameFate(s.sessions[sid], Destroy(s.sessions, s.registry, agentId)[sid], k)
  {
    hide Inv;
    LedgerAt(s, sid);
  }

  lemma MessageKeepsFate(s: State, c: nat, msg: Inbound, sid: nat, k: nat)
    requires Inv(s) && Decided(s, sid, k) && c < |s.conns|
    ensures var t := OnMessage(s, c, msg); sid < |t.sessions| && SameFate(s.sessions[sid], t.sessions[sid], k)
  {
    hide Inv, Destroy;
    LedgerAt(s, sid);
    if Lock(s, c).Some? {
      DestroyKeepsFate(s, s.sessions[Lock(s, c).value].agentId, sid, k);
    } else if msg.Hello? && msg.agentId.Some? {
      DestroyKeepsFate(s, msg.agentId.value, sid, k);
    }
  }

  lemma StepKeepsFate(s: State, e: Event, sid: nat, k: nat)
    requires Inv(s) && Decided(s, sid, k) && Bounded(Step(s, e))
    ensures sid < |Step(s, e).sessions| && SameFate(s.sessions[sid], Step(s, e).sessions[sid], k)
  {
    hide Inv, OnMessage, TickSession, TickConn, FlushConn, Destroy;
    hide Commands, RunPolicies, Healthy, TickFailureCounts, TickTrackedCounts;
    LedgerAt(s, sid);
    match e
    case Receive(c, msg) => if c < |s.conns| { MessageKeepsFate(s, c, msg, sid, k); }
    case ConnectionError(c) =>
      if c < |s.conns| && Lock(s, c).Some? {
        DestroyKeepsFate(s, s.sessions[Lock(s, c).value].agentId, sid, k);
      }
    case Tick(reload, load, clock) =>
      var r := Begin(s, reload, clock);
      BeginKeepsInv(s, reload, clock);
      TickKeepsFate(r, sid, RunPolicies(r.policies, load, r.overload).modes, k);
    case _ =>
  }

  lemma {:induction false} RunKeepsFate(s: State, es: seq<Event>, sid: nat, k: nat)
    requires Inv(s) && Decided(s, sid, k) && Bounded(Run(s, es))
    ensures sid < |Run(s, es).sessions| && SameFate(s.sessions[sid], Run(s, es).sessions[sid], k)
    decreases |es|
  {
    hide Step, Inv;
    if es != [] {
      IssuedGrowsRun(Step(s, es[0]), es[1..]);
      StepKeepsInv(s, es[0]);
      StepKeepsFate(s, es[0], sid, k);
      RunKeepsFate(Step(s, es[0]), es[1..], sid, k);
    }
  }

  /** Fates are final: once a command is sampled, failed, flushed or abandoned, no continuation changes that. */
  lemma FatesAreFinal(setup: Setup, es: seq<Event>, more: seq<Event>, sid: nat, k: nat)
    requires Bounded(Run(Run(Initial(setup), es), more)) && Decided(Run(Initial(setup), es), sid, k)
    ensures var s := Run(Initial(setup), es);
            var t := Run(s, more);
            sid < |t.sessions| && SameFate(s.sessions[sid], t.sessions[sid], k)
  {
    hide Run, Inv;
    var s := Run(Initial(setup), es);
    IssuedGrowsRun(s, more);
    InitialInv(setup);
    RunKeepsInv(Initial(setup), es);
    RunKeepsFate(s, more, sid, k);
  }
}
