/**
 What an acknowledgement is worth: if agents send ACKs and NACKs only for frames they have received, every RTT sample
 belongs to a command its agent really received (src/agent/Agent.cpp:159-180, src/controller/AgentTcpSession.cpp:78-95).
 */
module Acknowledgements {
  import opened Options
  import opened Policies
  import opened Sessions
  import opened System
  import opened Registry
  import opened CommandOrder

  /** Agent `p` has read a frame with this id on connection `c`. */
  ghost predicate ReadBy(s: State, p: nat, c: nat, id: nat) {
    p < |s.agents| &&
    exists i :: 0 <= i < |s.agents[p].received| && i < |s.agents[p].readOn|
                && s.agents[p].received[i].id == id && s.agents[p].readOn[i] == c
  }

  ghost predicate ReadOn(s: State, c: nat, id: nat) {
    exists p :: 0 <= p < |s.agents| && ReadBy(s, p, c, id)
  }

  /** Acknowledgements on a connection answer frames read from it. */
  ghost predicate HonestStep(s: State, e: Event) {
    e.Receive? && (e.msg.AckOf? || e.msg.NackOf?) && e.msg.cmdId.Some? ==> ReadOn(s, e.conn, e.msg.cmdId.value)
  }

  ghost predicate Honest(s: State, es: seq<Event>)
    decreases |es|
  {
    es == [] || (HonestStep(s, es[0]) && Honest(Step(s, es[0]), es[1..]))
  }

  ghost predicate Sampled(s: State, sid: nat, k: nat) {
    sid < |s.sessions| && k in s.sessions[sid].ledger && s.sessions[sid].ledger[k].Sampled?
  }

  /** Every sampled command was read on its session's connection. */
  ghost predicate SamplesEarned(s: State) {
    forall sid: nat, k: nat :: Sampled(s, sid, k) ==> ReadOn(s, s.sessions[sid].conn, k)
  }

  // ---------------------------------------------------------------- what has been read stays read

  lemma ReadStays(s: State, e: Event, c: nat, id: nat)
    requires ReadOn(s, c, id)
    ensures ReadOn(Step(s, e), c, id)
  {
    hide Step;
    AgentsGrow(s, e);
    var p :| 0 <= p < |s.agents| && ReadBy(s, p, c, id);
    var i :| 0 <= i < |s.agents[p].received| && i < |s.agents[p].readOn|
             && s.agents[p].received[i].id == id && s.agents[p].readOn[i] == c;
    assert Step(s, e).agents[p].received[i] == s.agents[p].received[i];
    assert Step(s, e).agents[p].readOn[i] == s.agents[p].readOn[i];
    assert ReadBy(Step(s, e), p, c, id);
  }

  // ---------------------------------------------------------------- where samples come from

  /** A session after a step: same connection, and no new sample. */
  ghost predicate NoNewSample(x: Session, y: Session) {
    y.conn == x.conn && forall k :: k in y.ledger && y.ledger[k].Sampled? ==> k in x.ledger && x.ledger[k].Sampled?
  }

  lemma {:induction false} IssueGivenSamplesNothing(s: State, i: nat, ss: Session, cmds: Frames)
    ensures NoNewSample(ss, IssueGiven(s, i, ss, cmds))
    decreases |cmds|
  {
    hide HealthyAgain;
    if cmds != [] {
      IssueGivenSamplesNothing(s, i, ss, cmds[..|cmds| - 1]);
    }
  }

  lemma TickSamplesNothing(s: State, i: nat, cmds: Frames)
    requires i < |s.sessions|
    ensures NoNewSample(s.sessions[i], TickSession(s, i, cmds))
  {
    hide Healthy, Fails, Retry, IssueGiven;
    IssueGivenSamplesNothing(s, i, CheckTimeouts(s.sessions[i], CheckTime(s, i)), cmds);
  }

  lemma DestroySamplesNothing(s: State, agentId: nat)
    ensures var ss := Destroy(s.sessions, s.registry, agentId);
            |ss| == |s.sessions| && forall i :: 0 <= i < |ss| ==> NoNewSample(s.sessions[i], ss[i])
  {
  }

  lemma AckSamplesOne(ss: Session, id: nat, now: int)
    ensures var t := HandleAck(ss, id, now);
            && t.conn == ss.conn
            && forall k :: k in t.ledger && t.ledger[k].Sampled? && k != id ==> k in ss.ledger && ss.ledger[k].Sampled?
  {
  }

  /** A step samples at most the command acknowledged by it, on the session of its connection. */
  ghost predicate SampleSource(s: State, e: Event, t: State, sid: nat, k: nat) {
    || (Sampled(s, sid, k) && sid < |t.sessions| && t.sessions[sid].conn == s.sessions[sid].conn)
    || (e.Receive? && (e.msg == AckOf(Some(k)) || e.msg == NackOf(Some(k)))
        && sid < |t.sessions| && t.sessions[sid].conn == e.conn)
  }

  lemma RegisterSamplesNothing(s: State, c: nat, agentId: nat, sid: nat, k: nat)
    requires c < |s.conns| && Sampled(Register(s, c, agentId), sid, k)
    ensures Sampled(s, sid, k) && Register(s, c, agentId).sessions[sid].conn == s.sessions[sid].conn
  {
    hide Destroy;
    DestroySamplesNothing(s, agentId);
  }

  lemma ErrorSamplesNothing(s: State, c: nat, sid: nat, k: nat)
    requires c < |s.conns|
    ensures Sampled(OnError(s, c), sid, k) ==>
              Sampled(s, sid, k) && OnError(s, c).sessions[sid].conn == s.sessions[sid].conn
  {
    hide Destroy;
    if Lock(s, c).Some? {
      DestroySamplesNothing(s, s.sessions[Lock(s, c).value].agentId);
    }
  }

  lemma MessageSampleSource(s: State, c: nat, msg: Inbound, sid: nat, k: nat)
    requires Wired(s) && c < |s.conns| && Sampled(OnMessage(s, c, msg), sid, k)
    ensures SampleSource(s, Receive(c, msg), OnMessage(s, c, msg), sid, k)
  {
    hide OnError, Register, HandleAck;
    ErrorSamplesNothing(s, c, sid, k);
    match Lock(s, c)
    case None =>
      if msg.Hello? && msg.agentId.Some? {
        RegisterSamplesNothing(s, c, msg.agentId.value, sid, k);
      }
    case Some(own) =>
      if (msg.AckOf? || msg.NackOf?) && msg.cmdId.Some? {
        AckSamplesOne(s.sessions[own], msg.cmdId.value, s.now);
      }
  }

  lemma TickSampleSource(s: State, load: real, sid: nat, k: nat)
    requires Sampled(OnTick(s, load), sid, k)
    ensures Sampled(s, sid, k) && OnTick(s, load).sessions[sid].conn == s.sessions[sid].conn
  {
    hide TickSession, TickConn, TickFailureCounts, TickTrackedCounts, RunPolicies, Commands, Healthy;
    TickSamplesNothing(s, sid, Commands(|s.issued|, RunPolicies(s.policies, load, s.overload).modes));
  }

  lemma ShutdownSampleSource(s: State, sid: nat, k: nat)
    requires Sampled(OnShutdown(s), sid, k)
    ensures Sampled(s, sid, k) && OnShutdown(s).sessions[sid].conn == s.sessions[sid].conn
  {
    hide FlushConn;
  }

  lemma ConnectKeepsSessions(s: State, p: nat)
    requires p < |s.agents|
    ensures OnConnect(s, p).sessions == s.sessions
  {
  }

  lemma DeliverKeepsSessions(s: State, p: nat)
    requires Unread(s, p)
    ensures OnDeliver(s, p).sessions == s.sessions
  {
  }

  lemma StepSampleSource(s: State, e: Event, sid: nat, k: nat)
    requires Wired(s) && Sampled(Step(s, e), sid, k)
    ensures SampleSource(s, e, Step(s, e), sid, k)
  {
    hide OnMessage, OnError, OnTick, OnShutdown, OnConnect, OnDeliver;
    match e
    case Receive(c, msg) => if c < |s.conns| { MessageSampleSource(s, c, msg, sid, k); }
    case ConnectionError(c) =>
      if c < |s.conns| {
        ErrorSamplesNothing(s, c, sid, k);
      }
    case Tick(reload, load, clock) => TickSampleSource(Begin(s, reload, clock), load, sid, k);
    case Shutdown => ShutdownSampleSource(s, sid, k);
    case Connect(p) => if p < |s.agents| { ConnectKeepsSessions(s, p); }
    case Deliver(p) => if Unread(s, p) { DeliverKeepsSessions(s, p); }
    case _ =>
  }

  lemma StepEarnsSamples(s: State, e: Event)
    requires Wired(s) && SamplesEarned(s) && HonestStep(s, e)
    ensures SamplesEarned(Step(s, e))
  {
    hide Step, ReadOn;
    var t := Step(s, e);
    forall sid: nat, k: nat | Sampled(t, sid, k)
      ensures ReadOn(t, t.sessions[sid].conn, k)
    {
      StepSampleSource(s, e, sid, k);
      if Sampled(s, sid, k) && t.sessions[sid].conn == s.sessions[sid].conn {
        ReadStays(s, e, s.sessions[sid].conn, k);
      } else {
        ReadStays(s, e, e.conn, k);
      }
    }
  }

  lemma {:induction false} RunEarnsSamples(s: State, es: seq<Event>)
    requires Wired(s) && SamplesEarned(s) && Honest(s, es)
    ensures SamplesEarned(Run(s, es))
    decreases |es|
  {
    hide Step, Wired, SamplesEarned, HonestStep;
    if es != [] {
      StepKeepsWired(s, es[0]);
      StepEarnsSamples(s, es[0]);
      RunEarnsSamples(Step(s, es[0]), es[1..]);
    }
  }

  // ---------------------------------------------------------------- theorem

  /**
   Acknowledged means applied: in every run in which acknowledgements answer frames read on their connection, a
   command counted as an RTT sample was read by some agent on the session's own connection, and that agent has
   applied it, with the mode it was issued with.
   */
  lemma AcknowledgedMeansApplied(setup: Setup, es: seq<Event>, sid: nat, k: nat)
    requires Bounded(Run(Initial(setup), es)) && Honest(Initial(setup), es)
    requires Sampled(Run(Initial(setup), es), sid, k)
    ensures var s := Run(Initial(setup), es);
            exists p :: 0 <= p < |s.agents| && ReadBy(s, p, s.sessions[sid].conn, k) && k < |s.issued|
                        && Cmd(k, s.issued[k]) in s.agents[p].applied
  {
    hide Run, Honest;
    var s := Run(Initial(setup), es);
    assert SamplesEarned(Initial(setup));
    RunEarnsSamples(Initial(setup), es);
    Reachable(setup, es);
    assert ReadOn(s, s.sessions[sid].conn, k);
    var p :| 0 <= p < |s.agents| && ReadBy(s, p, s.sessions[sid].conn, k);
    AppliedWhenRead(s, p, s.sessions[sid].conn, k);
  }

  lemma AppliedWhenRead(s: State, p: nat, c: nat, k: nat)
    requires Inv(s) && AllFresh(s) && Bounded(s) && p < |s.agents| && ReadBy(s, p, c, k)
    ensures k < |s.issued| && Cmd(k, s.issued[k]) in s.agents[p].applied
  {
    hide FramesOk, SessionOk, InPhase, FullHistory, Mono;
    var a := s.agents[p];
    assert AgentOk(a, s.conns, s.issued);
    FreshMemory(s, p);
    var i :| 0 <= i < |a.received| && a.received[i].id == k;
    assert GoodFrame(a.received[i], s.issued);
    FullHistoryCovers(a.received, i);
    var j :| 0 <= j < |a.applied| && a.applied[j].id == k;
    FullHistoryKeepsOnly(a.received, a.applied[j]);
    var m :| 0 <= m < |a.received| && a.received[m] == a.applied[j];
    assert GoodFrame(a.received[m], s.issued);
    assert a.applied[j] == Cmd(k, s.issued[k]);
  }

  // ---------------------------------------------------------------- superseded commands

  /** Every frame an agent has read was sent on the connection it read it from. */
  ghost predicate ReadsSent(s: State) {
    forall p :: 0 <= p < |s.agents| ==> AgentReadsSent(s, p)
  }

  ghost predicate AgentReadsSent(s: State, p: nat)
    requires p < |s.agents|
  {
    var a := s.agents[p];
    && |a.readOn| == |a.received| && (forall i :: 0 <= i < |a.readOn| ==> ReadSent(s, p, i))
    && (forall i :: a.base <= i < |a.readOn| ==> a.conn == Some(a.readOn[i]))
  }

  ghost predicate ReadSent(s: State, p: nat, i: nat)
    requires p < |s.agents| && i < |s.agents[p].readOn|
  {
    var a := s.agents[p];
    i < |a.received| && a.readOn[i] < |s.conns| && Seen(s.conns[a.readOn[i]].sent, a.received[i].id)
  }

  /**
   What step `e` adds to what agent `p` has read: nothing, or the next frame of its connection; and when it changes
   connection.
   */
  lemma NewRead(s: State, e: Event, p: nat)
    requires p < |s.agents|
    ensures var a, b := s.agents[p], Step(s, e).agents[p];
            || (b.readOn == a.readOn && b.received == a.received
                && ((b.conn == a.conn && b.base == a.base) || b.base == |a.received|))
            || (Unread(s, p) && b.conn == a.conn && b.base == a.base && b.readOn == a.readOn + [a.conn.value]
                && b.received == a.received + [s.conns[a.conn.value].sent[|a.received| - a.base]])
  {
    hide RunPolicies, Commands, TickSession, TickConn, TickFailureCounts, TickTrackedCounts, FlushSession, FlushConn;
    hide Destroy, Lock, Healthy, OnMessage;
    AgentsGrow(s, e);
    if e.Receive? && e.conn < |s.conns| {
      MessageKeepsAgents(s, e.conn, e.msg);
    }
  }

  lemma StepKeepsReadsSent(s: State, e: Event)
    requires ReadsSent(s)
    ensures ReadsSent(Step(s, e))
  {
    hide Step, Seen, ReadSent;
    var t := Step(s, e);
    AgentsGrow(s, e);
    forall p: nat | p < |t.agents|
      ensures AgentReadsSent(t, p)
    {
      assert AgentReadsSent(s, p);
      NewRead(s, e, p);
      forall i: nat | i < |t.agents[p].readOn|
        ensures ReadSent(t, p, i)
      {
        ReadStaysSent(s, e, p, i);
      }
    }
  }

  lemma ReadStaysSent(s: State, e: Event, p: nat, i: nat)
    requires p < |s.agents| && AgentReadsSent(s, p)
    requires p < |Step(s, e).agents| && i < |Step(s, e).agents[p].readOn|
    ensures ReadSent(Step(s, e), p, i)
  {
    hide Step;
    NewRead(s, e, p);
    var a, t := s.agents[p], Step(s, e);
    var c, k := t.agents[p].readOn[i], t.agents[p].received[i].id;
    if i < |a.readOn| {
      assert ReadSent(s, p, i);
    } else {
      assert s.conns[c].sent[|a.received| - a.base].id == k;
    }
    SentGrows(s, e, c);
    SeenGrows(s.conns[c].sent, t.conns[c].sent, k);
  }

  lemma {:induction false} RunKeepsReadsSent(s: State, es: seq<Event>)
    requires ReadsSent(s)
    ensures ReadsSent(Run(s, es))
    decreases |es|
  {
    hide Step, ReadsSent;
    if es != [] {
      StepKeepsReadsSent(s, es[0]);
      RunKeepsReadsSent(Step(s, es[0]), es[1..]);
    }
  }

  /**
   A superseded command is sampled only through an old frame.  Let `k` be pending while the session's message already
   carries a newer command, and let acknowledgements answer frames read on their connection.  If `k` is sampled in the
   continuation, then some agent has read a frame with id `k` on the connection, and all such frames there are among
   those sent before that point.
   */
  lemma SupersededSampleIsOld(setup: Setup, es: seq<Event>, more: seq<Event>, sid: nat, k: nat)
    requires Bounded(Run(Run(Initial(setup), es), more))
    requires Honest(Initial(setup), es) && Honest(Run(Initial(setup), es), more)
    requires var s := Run(Initial(setup), es);
             && sid in s.registry.Values && sid < |s.sessions| && k in s.sessions[sid].pending
             && (s.sessions[sid].slot.Some? ==> s.sessions[sid].slot.value.id != k)
    requires Sampled(Run(Run(Initial(setup), es), more), sid, k)
    ensures var s := Run(Initial(setup), es);
            var t := Run(s, more);
            var c := s.sessions[sid].conn;
            && c < |s.conns| && c < |t.conns| && ReadOn(t, c, k) && Seen(s.conns[c].sent, k)
            && forall i :: 0 <= i < |t.conns[c].sent| && t.conns[c].sent[i].id == k ==> i < |s.conns[c].sent|
  {
    hide Run, Honest, Wired, Initial;
    var s0 := Initial(setup);
    var s := Run(s0, es);
    var t := Run(s, more);
    assert Wired(s0) && SamplesEarned(s0) && ReadsSent(s0) by { InitialEarned(setup); }
    RunKeepsWired(s0, es);
    RunEarnsSamples(s0, es);
    RunEarnsSamples(s, more);
    RunKeepsConn(s, more, sid);
    RunKeepsReadsSent(s0, es);
    RunKeepsReadsSent(s, more);
    SupersededNeverResent(setup, es, more, sid, k);
    var c := s.sessions[sid].conn;
    assert ReadOn(t, c, k);
    ReadMeansSent(t, c, k);
    var i :| 0 <= i < |t.conns[c].sent| && t.conns[c].sent[i].id == k;
    assert s.conns[c].sent[i].id == k;
  }

  lemma InitialEarned(setup: Setup)
    ensures Wired(Initial(setup)) && SamplesEarned(Initial(setup)) && ReadsSent(Initial(setup))
  {
  }

  lemma ReadMeansSent(s: State, c: nat, k: nat)
    requires ReadsSent(s) && ReadOn(s, c, k)
    ensures c < |s.conns| && Seen(s.conns[c].sent, k)
  {
    var p :| 0 <= p < |s.agents| && ReadBy(s, p, c, k);
    var i :| 0 <= i < |s.agents[p].received| && i < |s.agents[p].readOn|
             && s.agents[p].received[i].id == k && s.agents[p].readOn[i] == c;
    assert AgentReadsSent(s, p) && ReadSent(s, p, i);
  }
}
