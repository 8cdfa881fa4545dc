/**
 When all is answered, nothing is pending (src/controller/AgentTcpSession.cpp:78-104,
 src/controller/Controller.cpp:177-215).  A resend transmits the session's latest command whatever the entry, but every
 tracked command was sent once under its own id, so the replies to the frames of a connection settle all entries,
 however many commands overlapped.
 */
module Quiescence {
  import opened Options
  import opened Policies
  import opened Sessions
  import opened System
  import opened Registry
  import opened CommandOrder

  /** Every command tracked by the session was sent under its own id on the session's connection. */
  ghost predicate SessionSent(s: State, sid: nat)
    requires sid < |s.sessions|
  {
    var ss := s.sessions[sid];
    ss.conn < |s.conns| && forall k :: k in ss.ledger ==> Seen(s.conns[ss.conn].sent, k)
  }

  ghost predicate LedgersSent(s: State) {
    forall sid :: 0 <= sid < |s.sessions| ==> SessionSent(s, sid)
  }

  /** A session that is not registered any more has nothing pending. */
  ghost predicate GoneAreIdle(s: State) {
    forall sid :: 0 <= sid < |s.sessions| && sid !in s.registry.Values ==> s.sessions[sid].pending == map[]
  }

  /** Command `k` was issued, and is not pending with session `sid` if that session is on connection `c`. */
  ghost predicate Settled(s: State, sid: nat, c: nat, k: nat) {
    k < |s.issued| && (sid < |s.sessions| && s.sessions[sid].conn == c ==> k !in s.sessions[sid].pending)
  }

  // ---------------------------------------------------------------- what a step tracks

  /** The session after a step tracks and holds pending nothing new. */
  ghost predicate NothingNew(x: Session, y: Session) {
    y.ledger.Keys <= x.ledger.Keys && y.pending.Keys <= x.pending.Keys
  }

  lemma {:induction false} IssueGivenKeys(s: State, i: nat, ss: Session, cmds: Frames)
    ensures var t, given := IssueGiven(s, i, ss, cmds), Given(s, i, cmds);
            && (forall k :: k in t.ledger ==> k in ss.ledger || Seen(given, k))
            && (forall k :: k in t.pending ==> k in ss.pending || Seen(given, k))
    decreases |cmds|
  {
    hide HealthyAgain;
    if cmds != [] {
      var n := |cmds| - 1;
      IssueGivenKeys(s, i, ss, cmds[..n]);
      var before, given := Given(s, i, cmds[..n]), Given(s, i, cmds);
      assert HealthyAgain(s, i, n) ==> given[|given| - 1] == cmds[n];
      forall k | Seen(before, k)
        ensures Seen(given, k)
      {
        SeenGrows(before, given, k);
      }
    }
  }

  lemma TimeoutsTrackNothing(ss: Session, now: int)
    ensures NothingNew(ss, CheckTimeouts(ss, now))
  {
    hide Fails, Retry;
  }

  lemma SettleTracksNothing(ss: Session, fate: Fate)
    ensures NothingNew(ss, Settle(ss, fate)) && Settle(ss, fate).pending == map[]
  {
  }

  /** A tick tracks only commands that it sends to the session and that are new. */
  lemma TickTracks(s: State, i: nat, modes: seq<nat>)
    requires Wired(s) && i < |s.sessions| && s.sessions[i].conn < |s.conns| && |s.issued| + |modes| <= SENTINEL
    ensures var cmds := Commands(|s.issued|, modes);
            var t, sent := TickSession(s, i, cmds), TickConn(s, s.sessions[i].conn, cmds).sent;
            && (forall k :: k in t.ledger ==> k in s.sessions[i].ledger || Seen(sent, k))
            && (forall k :: k in t.pending ==> k in s.sessions[i].pending || |s.issued| <= k)
  {
    hide Wired, Healthy, Commands, Given, IssueGiven, CheckTimeouts, Settle, Copies, ResendKeys, FreshFrames;
    hide TickCloses, Seen;
    var cmds, ss, at := Commands(|s.issued|, modes), s.sessions[i], CheckTime(s, i);
    TimeoutsTrackNothing(ss, at);
    SettleTracksNothing(ss, Abandoned);
    if i in s.registry.Values && Healthy(s, i) {
      OwnConnection(s, i);
      var given, sent := Given(s, i, cmds), TickConn(s, ss.conn, cmds).sent;
      IssueGivenKeys(s, i, CheckTimeouts(ss, at), cmds);
      CommandsFresh(s.issued, modes);
      GivenFresh(s, i, cmds, |s.issued|, s.issued + modes);
      forall k | Seen(given, k)
        ensures Seen(sent, k) && |s.issued| <= k
      {
        SeenAtEnd(s.conns[ss.conn].sent, ResentFrames(ss, at), given, k);
        FreshIds(given, |s.issued|, s.issued + modes, k);
      }
    }
  }

  lemma SeenAtEnd(a: Frames, b: Frames, c: Frames, k: nat)
    requires Seen(c, k)
    ensures Seen(a + (b + c), k)
  {
    var i :| 0 <= i < |c| && c[i].id == k;
    assert (a + (b + c))[|a| + |b| + i] == c[i];
  }

  lemma FreshIds(fs: Frames, first: nat, issued: seq<nat>, k: nat)
    requires FreshFrames(fs, first, issued) && Seen(fs, k)
    ensures first <= k
  {
  }

  lemma DestroyTracksNothing(s: State, agentId: nat)
    ensures var ss := Destroy(s.sessions, s.registry, agentId);
            |ss| == |s.sessions| && forall i :: 0 <= i < |ss| ==> NothingNew(s.sessions[i], ss[i])
  {
  }

  lemma MessageTracksNothing(s: State, c: nat, msg: Inbound, sid: nat)
    requires Inv(s) && c < |s.conns| && sid < |OnMessage(s, c, msg).sessions|
    ensures var y := OnMessage(s, c, msg).sessions[sid];
            if sid < |s.sessions| then NothingNew(s.sessions[sid], y)
            else y.ledger == map[] && y.pending == map[] && y.conn == c
  {
    hide Inv, Destroy, NothingNew, HandleAck, Beat;
    SameTracksNothing(s);
    if msg.Hello? && msg.agentId.Some? {
      DestroyTracksNothing(s, msg.agentId.value);
    }
    if Lock(s, c).Some? {
      var own := s.sessions[Lock(s, c).value];
      DestroyTracksNothing(s, own.agentId);
      assert SessionOk(own, s.now) by { InvParts(s); }
      BeatTracksNothing(own, s.now);
      if (msg.AckOf? || msg.NackOf?) && msg.cmdId.Some? {
        AckTracksNothing(own, msg.cmdId.value, s.now);
      }
    }
  }

  lemma SameTracksNothing(s: State)
    ensures forall i :: 0 <= i < |s.sessions| ==> NothingNew(s.sessions[i], s.sessions[i])
  {
  }

  lemma AckTracksNothing(ss: Session, id: nat, now: int)
    requires SessionOk(ss, now)
    ensures NothingNew(ss, HandleAck(ss, id, now))
  {
  }

  lemma BeatTracksNothing(ss: Session, now: int)
    ensures NothingNew(ss, Beat(ss, now))
  {
  }

  /** What a step does to the keys of session `sid`. */
  lemma StepTracks(s: State, e: Event, sid: nat)
    requires Inv(s) && Bounded(Step(s, e)) && sid < |Step(s, e).sessions|
    requires sid < |s.sessions| ==> s.sessions[sid].conn < |s.conns|
    ensures var t := Step(s, e);
            var y := t.sessions[sid];
            && y.conn < |t.conns|
            && if sid < |s.sessions| then
                 && (forall k :: k in y.ledger ==> k in s.sessions[sid].ledger || Seen(t.conns[y.conn].sent, k))
                 && (forall k :: k in y.pending ==> k in s.sessions[sid].pending || |s.issued| <= k)
               else y.ledger == map[] && y.pending == map[]
  {
    hide Inv, OnMessage, Destroy, TickSession, TickConn, TickFailureCounts, TickTrackedCounts, RunPolicies, Commands;
    hide FlushConn, Healthy, Seen, Settle, Wired;
    assert Wired(s) by { InvParts(s); }
    if sid < |s.sessions| {
      StepKeepsConn(s, e, sid);
      SentGrows(s, e, s.sessions[sid].conn);
    }
    match e
    case Receive(c, msg) =>
      if c < |s.conns| {
        MessageTracksNothing(s, c, msg, sid);
        MessageSendsNothing(s, c, msg);
      }
    case ConnectionError(c) =>
      if c < |s.conns| && Lock(s, c).Some? {
        DestroyTracksNothing(s, s.sessions[Lock(s, c).value].agentId);
      }
    case Tick(reload, load, clock) =>
      var b := Begin(s, reload, clock);
      BeginKeepsWired(s, reload, clock);
      TickTracks(b, sid, RunPolicies(b.policies, load, b.overload).modes);
    case Shutdown => SettleTracksNothing(s.sessions[sid], Flushed);
    case _ =>
  }

  lemma StepKeepsLedgersSent(s: State, e: Event)
    requires Inv(s) && LedgersSent(s) && Bounded(Step(s, e))
    ensures LedgersSent(Step(s, e))
  {
    hide Step, Inv, Seen;
    var t := Step(s, e);
    forall sid | 0 <= sid < |t.sessions|
      ensures SessionSent(t, sid)
    {
      assert sid < |s.sessions| ==> SessionSent(s, sid);
      StepTracks(s, e, sid);
      if sid < |s.sessions| {
        StepKeepsConn(s, e, sid);
        var c := s.sessions[sid].conn;
        SentGrows(s, e, c);
        forall k | k in s.sessions[sid].ledger
          ensures Seen(t.conns[c].sent, k)
        {
          SeenGrows(s.conns[c].sent, t.conns[c].sent, k);
        }
      }
    }
  }

  lemma {:induction false} RunKeepsLedgersSent(s: State, es: seq<Event>)
    requires Inv(s) && LedgersSent(s) && Bounded(Run(s, es))
    ensures LedgersSent(Run(s, es))
    decreases |es|
  {
    hide Step, Inv, LedgersSent;
    if es != [] {
      IssuedGrowsRun(Step(s, es[0]), es[1..]);
      StepKeepsInv(s, es[0]);
      StepKeepsLedgersSent(s, es[0]);
      RunKeepsLedgersSent(Step(s, es[0]), es[1..]);
    }
  }

  // ---------------------------------------------------------------- sessions that are gone

  lemma EvictedAreIdle(s: State, agentId: nat, sid: nat)
    requires Wired(s) && GoneAreIdle(s) && sid < |s.sessions|
    requires sid in s.registry.Values ==> agentId in s.registry && s.registry[agentId] == sid
    ensures var ss := Destroy(s.sessions, s.registry, agentId); |ss| == |s.sessions| && ss[sid].pending == map[]
  {
    if agentId in s.registry {
      SettleTracksNothing(s.sessions[s.registry[agentId]], Abandoned);
    }
  }

  lemma ErrorKeepsIdle(s: State, c: nat)
    requires Wired(s) && GoneAreIdle(s) && c < |s.conns|
    ensures GoneAreIdle(OnError(s, c))
  {
    hide Destroy;
    var t := OnError(s, c);
    if Lock(s, c).Some? && s.sessions[Lock(s, c).value].agentId != 0 {
      var agentId := s.sessions[Lock(s, c).value].agentId;
      DestroyKeepsNames(s, agentId);
      forall sid: nat | sid < |t.sessions| && sid !in t.registry.Values
        ensures t.sessions[sid].pending == map[]
      {
        if sid in s.registry.Values {
          OthersStay(s, t, agentId, sid);
        }
        EvictedAreIdle(s, agentId, sid);
      }
    }
  }

  /** A step that touches the registration of `agentId` only keeps all other sessions registered. */
  lemma OthersStay(s: State, t: State, agentId: nat, sid: nat)
    requires forall a :: a in s.registry && a != agentId ==> a in t.registry && t.registry[a] == s.registry[a]
    requires sid in s.registry.Values
    ensures sid in t.registry.Values || (agentId in s.registry && s.registry[agentId] == sid)
  {
    var a :| a in s.registry && s.registry[a] == sid;
    if a != agentId {
      assert t.registry[a] in t.registry.Values;
    }
  }

  lemma RegisterKeepsIdle(s: State, c: nat, agentId: nat)
    requires Wired(s) && GoneAreIdle(s) && c < |s.conns|
    ensures GoneAreIdle(Register(s, c, agentId))
  {
    hide Destroy;
    var t := Register(s, c, agentId);
    DestroyKeepsNames(s, agentId);
    assert t.registry[agentId] in t.registry.Values;
    forall sid: nat | sid < |t.sessions| && sid !in t.registry.Values
      ensures t.sessions[sid].pending == map[]
    {
      if sid in s.registry.Values {
        OthersStay(s, t, agentId, sid);
      }
      EvictedAreIdle(s, agentId, sid);
    }
  }

  lemma MessageKeepsIdle(s: State, c: nat, msg: Inbound)
    requires Wired(s) && GoneAreIdle(s) && c < |s.conns|
    ensures GoneAreIdle(OnMessage(s, c, msg))
  {
    hide Wired, OnError, Register;
    ErrorKeepsIdle(s, c);
    if Lock(s, c).None? && msg.Hello? && msg.agentId.Some? {
      RegisterKeepsIdle(s, c, msg.agentId.value);
    }
  }

  lemma HealthyStay(s: State, load: real, sid: nat)
    requires sid in s.registry.Values && Healthy(s, sid)
    ensures sid in OnTick(s, load).registry.Values
  {
    hide TickSession, TickConn, TickFailureCounts, TickTrackedCounts, RunPolicies, Commands, Healthy;
    var a :| a in s.registry && s.registry[a] == sid;
    assert OnTick(s, load).registry[a] == sid;
  }

  lemma TickKeepsIdle(s: State, load: real)
    requires Wired(s) && GoneAreIdle(s)
    ensures GoneAreIdle(OnTick(s, load))
  {
    hide Wired, TickConn, TickFailureCounts, TickTrackedCounts, RunPolicies, Commands, Healthy, IssueGiven, Settle;
    hide CheckTimeouts;
    var t := OnTick(s, load);
    forall sid: nat | sid < |t.sessions| && sid !in t.registry.Values
      ensures t.sessions[sid].pending == map[]
    {
      SettleTracksNothing(s.sessions[sid], Abandoned);
      if sid in s.registry.Values && Healthy(s, sid) {
        HealthyStay(s, load, sid);
      }
    }
  }

  lemma StepKeepsIdle(s: State, e: Event)
    requires Wired(s) && GoneAreIdle(s)
    ensures GoneAreIdle(Step(s, e))
  {
    hide Wired, OnMessage, OnError, OnTick, FlushConn;
    match e
    case Receive(c, msg) => if c < |s.conns| { MessageKeepsIdle(s, c, msg); }
    case ConnectionError(c) => if c < |s.conns| { ErrorKeepsIdle(s, c); }
    case Tick(reload, load, clock) =>
      BeginKeepsWired(s, reload, clock);
      TickKeepsIdle(Begin(s, reload, clock), load);
    case _ =>
  }

  // ---------------------------------------------------------------- answers

  /** The event brings the agent's reply to command `k` on connection `c`. */
  predicate Replies(e: Event, c: nat, k: nat) {
    e == Receive(c, AckOf(Some(k))) || e == Receive(c, NackOf(Some(k)))
  }

  /** At some point of the run a reply to `k` arrives on `c`, where `k` was sent before. */
  ghost predicate Answered(s: State, es: seq<Event>, c: nat, k: nat)
    decreases |es|
  {
    && es != []
    && (|| (Replies(es[0], c, k) && c < |s.conns| && Seen(s.conns[c].sent, k))
        || Answered(Step(s, es[0]), es[1..], c, k))
  }

  lemma ReplySettles(s: State, e: Event, sid: nat, c: nat, k: nat)
    requires Inv(s) && GoneAreIdle(s) && Replies(e, c, k) && c < |s.conns| && Seen(s.conns[c].sent, k)
    ensures Settled(Step(s, e), sid, c, k)
  {
    hide Inv, Wired, HandleAck, Seen, Step;
    assert Wired(s) && k < |s.issued| by { InvParts(s); SeenIsIssued(s, c, k); }
    ReplyIsAck(s, e, c, k);
    if sid < |s.sessions| {
      AckRemoves(s.sessions[sid], k, s.now);
      if s.sessions[sid].conn == c && sid in s.registry.Values {
        OwnConnection(s, sid);
      }
    }
  }

  lemma ReplyIsAck(s: State, e: Event, c: nat, k: nat)
    requires Replies(e, c, k) && c < |s.conns|
    ensures var t := Step(s, e);
            if Lock(s, c).Some? then t == OnAck(s, Lock(s, c).value, k)
            else t.sessions == s.sessions && t.issued == s.issued
  {
    hide Lock, OnAck;
  }

  lemma SeenIsIssued(s: State, c: nat, k: nat)
    requires FramesOk(s.conns, s.issued) && c < |s.conns| && Seen(s.conns[c].sent, k)
    ensures k < |s.issued|
  {
    hide Mono;
    var i :| 0 <= i < |s.conns[c].sent| && s.conns[c].sent[i].id == k;
    assert GoodFrame(s.conns[c].sent[i], s.issued);
  }

  lemma AckRemoves(ss: Session, k: nat, now: int)
    ensures k !in HandleAck(ss, k, now).pending && HandleAck(ss, k, now).conn == ss.conn
  {
  }

  lemma StepKeepsSettled(s: State, e: Event, sid: nat, c: nat, k: nat)
    requires Inv(s) && LedgersSent(s) && Settled(s, sid, c, k) && Bounded(Step(s, e))
    ensures Settled(Step(s, e), sid, c, k)
  {
    hide Step, Inv;
    var t := Step(s, e);
    IssuedGrows(s, e);
    if sid < |t.sessions| {
      assert sid < |s.sessions| ==> SessionSent(s, sid);
      StepTracks(s, e, sid);
      if sid < |s.sessions| {
        StepKeepsConn(s, e, sid);
      }
    }
  }

  lemma {:induction false} RunKeepsSettled(s: State, es: seq<Event>, sid: nat, c: nat, k: nat)
    requires Inv(s) && LedgersSent(s) && Settled(s, sid, c, k) && Bounded(Run(s, es))
    ensures Settled(Run(s, es), sid, c, k)
    decreases |es|
  {
    hide Step, Inv, LedgersSent, Settled;
    if es != [] {
      IssuedGrowsRun(Step(s, es[0]), es[1..]);
      StepKeepsInv(s, es[0]);
      StepKeepsLedgersSent(s, es[0]);
      StepKeepsSettled(s, es[0], sid, c, k);
      RunKeepsSettled(Step(s, es[0]), es[1..], sid, c, k);
    }
  }

  lemma {:induction false} AnswerSettles(s: State, es: seq<Event>, sid: nat, c: nat, k: nat)
    requires Inv(s) && LedgersSent(s) && GoneAreIdle(s) && Bounded(Run(s, es)) && Answered(s, es, c, k)
    ensures Settled(Run(s, es), sid, c, k)
    decreases |es|
  {
    hide Step, Inv, LedgersSent, GoneAreIdle, Settled, Replies, Wired, Seen;
    var t := Step(s, es[0]);
    assert Wired(s) by { InvParts(s); }
    IssuedGrowsRun(t, es[1..]);
    StepKeepsInv(s, es[0]);
    StepKeepsLedgersSent(s, es[0]);
    StepKeepsIdle(s, es[0]);
    if Replies(es[0], c, k) && c < |s.conns| && Seen(s.conns[c].sent, k) {
      ReplySettles(s, es[0], sid, c, k);
      RunKeepsSettled(t, es[1..], sid, c, k);
    } else {
      AnswerSettles(t, es[1..], sid, c, k);
    }
  }

  // ---------------------------------------------------------------- theorems

  /** In every bounded run, every command a session ever tracked was sent under its own id on its connection. */
  lemma TrackedWasSent(setup: Setup, es: seq<Event>, sid: nat, k: nat)
    requires Bounded(Run(Initial(setup), es)) && sid < |Run(Initial(setup), es).sessions|
    ensures var s := Run(Initial(setup), es);
            var ss := s.sessions[sid];
            ss.conn < |s.conns| && (k in ss.ledger ==> Seen(s.conns[ss.conn].sent, k))
  {
    hide Run, Inv;
    InitialInv(setup);
    RunKeepsLedgersSent(Initial(setup), es);
    assert SessionSent(Run(Initial(setup), es), sid);
  }

  /** A reply that comes after the command was sent settles it for good. */
  lemma AnsweredIsSettled(setup: Setup, es: seq<Event>, sid: nat, k: nat)
    requires Bounded(Run(Initial(setup), es)) && sid < |Run(Initial(setup), es).sessions|
    requires Answered(Initial(setup), es, Run(Initial(setup), es).sessions[sid].conn, k)
    ensures k !in Run(Initial(setup), es).sessions[sid].pending
  {
    hide Run, Inv, Answered;
    InitialInv(setup);
    AnswerSettles(Initial(setup), es, sid, Run(Initial(setup), es).sessions[sid].conn, k);
  }

  /**
   Quiescence: in every bounded run, once every frame on a connection has been answered on it, no session made for
   that connection has anything pending, however many commands overlapped and whatever was resent.
   */
  lemma NothingPendingOnceAnswered(setup: Setup, es: seq<Event>, sid: nat)
    requires Bounded(Run(Initial(setup), es)) && sid < |Run(Initial(setup), es).sessions|
    requires var s := Run(Initial(setup), es);
             var c := s.sessions[sid].conn;
             c < |s.conns| ==> forall f :: f in s.conns[c].sent ==> Answered(Initial(setup), es, c, f.id)
    ensures Run(Initial(setup), es).sessions[sid].pending == map[]
  {
    hide Run, Inv, Answered;
    var s := Run(Initial(setup), es);
    var ss := s.sessions[sid];
    if k :| k in ss.pending {
      Reachable(setup, es);
      assert k in ss.ledger by { InvParts(s); }
      TrackedWasSent(setup, es, sid, k);
      var i :| 0 <= i < |s.conns[ss.conn].sent| && s.conns[ss.conn].sent[i].id == k;
      assert Answered(Initial(setup), es, ss.conn, s.conns[ss.conn].sent[i].id);
      AnsweredIsSettled(setup, es, sid, k);
      assert false;
    }
  }
}
