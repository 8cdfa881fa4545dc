/**
 What reaches the agents, over every run: ids never decrease, equal ids carry equal modes, and the agent's one-slot
 duplicate check therefore decides as a full history would (src/agent/Agent.cpp:159-180,
 src/controller/AgentTcpSession.cpp:70-145, src/controller/Controller.cpp:167-224).
 */
module CommandOrder {
  import opened Options
  import opened Policies
  import opened Sessions
  import opened System
  import opened Registry

  type Frames = seq<Cmd<nat>>

  /** The frame carries a command that was issued, with the mode it was issued with. */
  ghost predicate GoodFrame(f: Cmd<nat>, issued: seq<nat>) {
    f.id < |issued| && f.mode == issued[f.id]
  }

  ghost predicate AllGood(fs: Frames, issued: seq<nat>) {
    forall i :: 0 <= i < |fs| ==> GoodFrame(fs[i], issued)
  }

  /** Ids never decrease. */
  ghost predicate Mono(fs: Frames) {
    forall i, j :: 0 <= i < j < |fs| ==> fs[i].id <= fs[j].id
  }

  function Last(fs: Frames): Cmd<nat>
    requires fs != []
  {
    fs[|fs| - 1]
  }

  ghost predicate Seen(fs: Frames, id: nat) {
    exists i :: 0 <= i < |fs| && fs[i].id == id
  }

  lemma SeenGrows(fs: Frames, gs: Frames, k: nat)
    requires Seen(fs, k) && fs <= gs
    ensures Seen(gs, k)
  {
    var i :| 0 <= i < |fs| && fs[i].id == k;
    assert gs[i].id == k;
  }

  /** The reference filter: keep a frame unless some earlier one had the same id. */
  ghost function FullHistory(fs: Frames): Frames {
    if fs == [] then []
    else
      var front := fs[..|fs| - 1];
      if Seen(front, Last(fs).id) then FullHistory(front) else FullHistory(front) + [Last(fs)]
  }

  // ---------------------------------------------------------------- the invariant

  /** The first command of this controller has the very id that the agent remembered from before. */
  ghost predicate Misled(a: AgentProc) {
    a.received != [] && a.received[0].id == a.start.lastId
  }

  /** What an agent applies of the frames `fs`: what the reference filter keeps, but for the first if misled by it. */
  ghost function AppliedOf(misled: bool, fs: Frames): Frames {
    if misled && FullHistory(fs) != [] then FullHistory(fs)[1..] else FullHistory(fs)
  }

  /**
   The agent remembers the last frame it received, with its mode unless it was misled and has seen no other id since;
   and it has applied what a full-history filter keeps, except the command it was misled about.
   */
  ghost predicate MemoryOk(a: AgentProc) {
    && a.applied == AppliedOf(Misled(a), a.received)
    && (if a.received == [] then a.core == a.start
        else
          && a.core.lastId == Last(a.received).id
          && a.core.mode == if Misled(a) && a.core.lastId == a.start.lastId then a.start.mode
                            else Last(a.received).mode)
  }

  /** What the agent received before its current connection, followed by everything sent on that connection. */
  ghost function Stream(a: AgentProc, conns: seq<Conn>): Frames
    requires a.base <= |a.received| && a.conn.Some? && a.conn.value < |conns|
  {
    a.received[..a.base] + conns[a.conn.value].sent
  }

  ghost predicate AgentOk(a: AgentProc, conns: seq<Conn>, issued: seq<nat>) {
    && a.base <= |a.received|
    && (a.conn.None? ==> a.received == [])
    && (a.conn.Some? ==> a.conn.value < |conns| && a.received <= Stream(a, conns) && Mono(Stream(a, conns)))
    && AllGood(a.received, issued)
    && MemoryOk(a)
  }

  ghost predicate FramesOk(conns: seq<Conn>, issued: seq<nat>) {
    forall c :: 0 <= c < |conns| ==> Mono(conns[c].sent) && AllGood(conns[c].sent, issued)
  }

  /** The message of the session a connection was made for, registered still or not, is the last frame sent on it. */
  ghost predicate SlotSent(s: State, c: nat)
    requires c < |s.conns|
  {
    var ctx, sent := s.conns[c].context, s.conns[c].sent;
    ctx.Some? && ctx.value < |s.sessions| && s.sessions[ctx.value].slot.Some? ==>
      sent != [] && Last(sent) == s.sessions[ctx.value].slot.value
  }

  ghost predicate SlotsOk(s: State) {
    && (forall sid :: 0 <= sid < |s.sessions| && s.sessions[sid].slot.Some? ==>
          GoodFrame(s.sessions[sid].slot.value, s.issued))
    && (forall c :: 0 <= c < |s.conns| ==> SlotSent(s, c))
  }

  ghost predicate SessionsOk(sessions: seq<Session>, now: int) {
    forall sid :: 0 <= sid < |sessions| ==> SessionOk(sessions[sid], now)
  }

  ghost predicate AgentsOk(s: State) {
    forall p :: 0 <= p < |s.agents| ==> AgentOk(s.agents[p], s.conns, s.issued)
  }

  ghost predicate Inv(s: State) {
    && Wired(s) && FramesOk(s.conns, s.issued) && SlotsOk(s) && SessionsOk(s.sessions, s.now) && AgentsOk(s)
    && InPhase(s.overload, s.issued) && s.lastTick <= s.now
  }

  // ---------------------------------------------------------------- frames added to a connection

  /**
   New frames are good; each repeats the last frame sent or carries a command issued in this step; and they are in
   order among themselves.
   */
  ghost predicate Appends(before: Frames, after: Frames, first: nat, issued: seq<nat>) {
    && before <= after
    && (forall i :: |before| <= i < |after| ==>
          GoodFrame(after[i], issued) && (first <= after[i].id || (before != [] && after[i] == Last(before))))
    && (forall i, j :: |before| <= i < j < |after| ==> after[i].id <= after[j].id)
  }

  lemma AppendKeepsMono(history: Frames, before: Frames, after: Frames, issued: seq<nat>, issued': seq<nat>)
    requires Mono(history + before) && AllGood(history + before, issued) && Appends(before, after, |issued|, issued')
    ensures Mono(history + after)
  {
    var h, n, all := history + before, |history + before|, history + after;
    assert forall i :: 0 <= i < n ==> all[i] == h[i];
    assert forall i :: n <= i < |all| ==> all[i] == after[i - |history|];
    forall i, j | 0 <= i < j < |all|
      ensures all[i].id <= all[j].id
    {
      if i < n <= j {
        var f := after[j - |history|];
        assert GoodFrame(h[i], issued);
        if before != [] && f == Last(before) {
          assert h[n - 1] == f;
        }
      }
    }
  }

  lemma AppendKeepsGood(before: Frames, after: Frames, issued: seq<nat>, issued': seq<nat>)
    requires AllGood(before, issued) && issued <= issued' && Appends(before, after, |issued|, issued')
    ensures AllGood(after, issued')
  {
  }

  lemma GoodGrows(fs: Frames, issued: seq<nat>, issued': seq<nat>)
    requires AllGood(fs, issued) && issued <= issued'
    ensures AllGood(fs, issued')
  {
  }

  ghost predicate AllAppend(before: seq<Conn>, after: seq<Conn>, first: nat, issued: seq<nat>) {
    |before| == |after| && forall c :: 0 <= c < |before| ==> Appends(before[c].sent, after[c].sent, first, issued)
  }

  lemma AppendKeepsFrames(before: seq<Conn>, after: seq<Conn>, issued: seq<nat>, issued': seq<nat>)
    requires FramesOk(before, issued) && issued <= issued' && AllAppend(before, after, |issued|, issued')
    ensures FramesOk(after, issued')
  {
    hide Mono, AllGood, Appends;
    forall c | 0 <= c < |after|
      ensures Mono(after[c].sent) && AllGood(after[c].sent, issued')
    {
      assert [] + before[c].sent == before[c].sent && [] + after[c].sent == after[c].sent;
      AppendKeepsMono([], before[c].sent, after[c].sent, issued, issued');
      AppendKeepsGood(before[c].sent, after[c].sent, issued, issued');
    }
  }

  lemma AppendKeepsAgent(a: AgentProc, before: seq<Conn>, after: seq<Conn>, issued: seq<nat>, issued': seq<nat>)
    requires AgentOk(a, before, issued) && FramesOk(before, issued)
    requires issued <= issued' && AllAppend(before, after, |issued|, issued')
    ensures AgentOk(a, after, issued')
  {
    hide MemoryOk;
    GoodGrows(a.received, issued, issued');
    if a.conn.Some? {
      var c := a.conn.value;
      var h := a.received[..a.base];
      assert AllGood(h + before[c].sent, issued);
      AppendKeepsMono(h, before[c].sent, after[c].sent, issued, issued');
      assert Stream(a, before) <= Stream(a, after);
    }
  }

  lemma AppendKeepsAgents(s: State, t: State)
    requires AgentsOk(s) && FramesOk(s.conns, s.issued) && t.agents == s.agents
    requires s.issued <= t.issued && AllAppend(s.conns, t.conns, |s.issued|, t.issued)
    ensures AgentsOk(t) && FramesOk(t.conns, t.issued)
  {
    hide AgentOk, FramesOk, AllAppend;
    AppendKeepsFrames(s.conns, t.conns, s.issued, t.issued);
    forall p | 0 <= p < |t.agents|
      ensures AgentOk(t.agents[p], t.conns, t.issued)
    {
      AppendKeepsAgent(s.agents[p], s.conns, t.conns, s.issued, t.issued);
    }
  }

  lemma NothingAppended(s: State, t: State)
    requires |t.conns| == |s.conns| && forall c :: 0 <= c < |s.conns| ==> t.conns[c].sent == s.conns[c].sent
    ensures AllAppend(s.conns, t.conns, |s.issued|, t.issued)
  {
  }

  // ---------------------------------------------------------------- the tick

  lemma CommandsGood(issued: seq<nat>, modes: seq<nat>)
    requires |issued| + |modes| <= SENTINEL
    ensures var cmds := Commands(|issued|, modes);
            forall i :: 0 <= i < |cmds| ==> cmds[i].id == |issued| + i && GoodFrame(cmds[i], issued + modes)
  {
  }

  /** The frames are good, in order, and carry commands issued in this step. */
  ghost predicate FreshFrames(fs: Frames, first: nat, issued: seq<nat>) {
    && (forall i :: 0 <= i < |fs| ==> first <= fs[i].id && GoodFrame(fs[i], issued))
    && (forall i, j :: 0 <= i < j < |fs| ==> fs[i].id < fs[j].id)
  }

  lemma FreshFront(fs: Frames, first: nat, issued: seq<nat>)
    requires FreshFrames(fs, first, issued) && fs != []
    ensures var front := fs[..|fs| - 1];
            && FreshFrames(front, first, issued) && first <= Last(fs).id && GoodFrame(Last(fs), issued)
            && (front != [] ==> Last(front).id < Last(fs).id)
  {
  }

  lemma FreshSnoc(fs: Frames, f: Cmd<nat>, first: nat, issued: seq<nat>)
    requires FreshFrames(fs, first, issued) && first <= f.id && GoodFrame(f, issued)
    requires fs != [] ==> Last(fs).id < f.id
    ensures FreshFrames(fs + [f], first, issued)
  {
    hide GoodFrame;
    forall i | 0 <= i < |fs|
      ensures fs[i].id < f.id
    {
      assert fs[i].id <= fs[|fs| - 1].id;
    }
  }

  /** The commands given to a session are a selection, in order, of those issued. */
  lemma {:induction false} GivenFresh(s: State, i: nat, cmds: Frames, first: nat, issued: seq<nat>)
    requires FreshFrames(cmds, first, issued)
    ensures FreshFrames(Given(s, i, cmds), first, issued)
    ensures Given(s, i, cmds) != [] ==> cmds != [] && Last(Given(s, i, cmds)).id <= Last(cmds).id
    decreases |cmds|
  {
    hide HealthyAgain, GoodFrame, FreshFrames;
    if cmds != [] {
      var front := cmds[..|cmds| - 1];
      FreshFront(cmds, first, issued);
      GivenFresh(s, i, front, first, issued);
      if HealthyAgain(s, i, |front|) {
        FreshSnoc(Given(s, i, front), Last(cmds), first, issued);
      } else {
        assert Given(s, i, cmds) == Given(s, i, front);
      }
    } else {
      assert Given(s, i, cmds) == cmds;
    }
  }

  /** Giving a session commands above its message keeps the session; the last one given is its message. */
  lemma {:induction false} IssueGivenKeepsSession(
    s: State, i: nat, ss: Session, cmds: Frames, first: nat, issued: seq<nat>, end: int)
    requires SessionOk(ss, end) && (ss.slot.Some? ==> ss.slot.value.id < first) && s.now + s.clock.length <= end
    requires FreshFrames(cmds, first, issued)
    ensures var t, given := IssueGiven(s, i, ss, cmds), Given(s, i, cmds);
            SessionOk(t, end) && t.slot == if given == [] then ss.slot else Some(Last(given))
    decreases |cmds|
  {
    hide SessionOk, HealthyAgain, GoodFrame, FreshFrames;
    if cmds != [] {
      var front, j := cmds[..|cmds| - 1], |cmds| - 1;
      FreshFront(cmds, first, issued);
      IssueGivenKeepsSession(s, i, ss, front, first, issued, end);
      if HealthyAgain(s, i, j) {
        GivenFresh(s, i, front, first, issued);
        IssueKeepsSession(IssueGiven(s, i, ss, front), cmds[j], TrackTime(s, i, j), end);
      }
    }
  }

  /** A connection with a context: its session's message is good and was sent last. */
  lemma BoundSlot(s: State, c: nat)
    requires Inv(s) && c < |s.conns| && s.conns[c].context.Some?
    ensures var sid := s.conns[c].context.value;
            && sid < |s.sessions| && s.sessions[sid].conn == c && SessionOk(s.sessions[sid], s.now)
            && (s.sessions[sid].slot.Some? ==>
                  && s.conns[c].sent != [] && Last(s.conns[c].sent) == s.sessions[sid].slot.value
                  && GoodFrame(s.sessions[sid].slot.value, s.issued))
  {
    hide FramesOk, AgentsOk, SessionOk, GoodFrame;
    assert SlotSent(s, c);
  }

  lemma LiveSlot(s: State, sid: nat)
    requires Inv(s) && sid in s.registry.Values
    ensures sid < |s.sessions| && s.sessions[sid].conn < |s.conns|
    ensures Lock(s, s.sessions[sid].conn) == Some(sid)
    ensures var ss := s.sessions[sid];
            && SessionOk(ss, s.now)
            && (ss.slot.Some? ==>
                  && s.conns[ss.conn].sent != [] && Last(s.conns[ss.conn].sent) == ss.slot.value
                  && GoodFrame(ss.slot.value, s.issued))
  {
    hide FramesOk, AgentsOk, SessionOk, GoodFrame;
    OwnConnection(s, sid);
    BoundSlot(s, s.sessions[sid].conn);
  }

  lemma CommandsFresh(issued: seq<nat>, modes: seq<nat>)
    requires |issued| + |modes| <= SENTINEL
    ensures FreshFrames(Commands(|issued|, modes), |issued|, issued + modes)
  {
    CommandsGood(issued, modes);
  }

  lemma CopiesAppend(before: Frames, ss: Session, n: nat, given: Frames, issued: seq<nat>, issued': seq<nat>)
    requires ss.slot.Some? ==> before != [] && Last(before) == ss.slot.value && GoodFrame(ss.slot.value, issued)
    requires issued <= issued' && FreshFrames(given, |issued|, issued')
    ensures var after := before + (Copies(ss, n) + given);
            && Appends(before, after, |issued|, issued')
            && (given == [] && ss.slot.Some? ==> after != [] && Last(after) == ss.slot.value)
            && (given != [] ==> after != [] && Last(after) == Last(given))
  {
    hide Appends, FreshFrames, GoodFrame, Copies;
    var mid, after := before + Copies(ss, n), before + (Copies(ss, n) + given);
    assert after == mid + given;
    FlushedAppend(before, ss, n, issued);
    FreshAppend(before, mid, given, issued, issued');
    if given == [] {
      assert after == mid;
    } else {
      assert Last(after) == Last(given);
    }
  }

  lemma FreshAppend(before: Frames, mid: Frames, given: Frames, issued: seq<nat>, issued': seq<nat>)
    requires Appends(before, mid, |issued|, issued) && issued <= issued' && FreshFrames(given, |issued|, issued')
    ensures Appends(before, mid + given, |issued|, issued')
  {
    var after := mid + given;
    assert forall j :: 0 <= j < |mid| ==> after[j] == mid[j];
    assert forall j :: |mid| <= j < |after| ==> after[j] == given[j - |mid|];
  }

  lemma TickAppends(s: State, c: nat, modes: seq<nat>)
    requires Inv(s) && c < |s.conns| && |s.issued| + |modes| <= SENTINEL
    ensures var cmds := Commands(|s.issued|, modes);
            Appends(s.conns[c].sent, TickConn(s, c, cmds).sent, |s.issued|, s.issued + modes)
  {
    hide AgentsOk, Inv, Appends, FreshFrames, Healthy, Commands, Given, Copies, ResendKeys, TickCloses;
    var cmds := Commands(|s.issued|, modes);
    var sid := Lock(s, c);
    if sid.Some? && Healthy(s, sid.value) {
      BoundSlot(s, c);
      var ss := s.sessions[sid.value];
      CommandsFresh(s.issued, modes);
      GivenFresh(s, sid.value, cmds, |s.issued|, s.issued + modes);
      CopiesAppend(s.conns[c].sent, ss, |ResendKeys(ss, CheckTime(s, sid.value))|, Given(s, sid.value, cmds),
                   s.issued, s.issued + modes);
    } else {
      assert s.conns[c].sent + [] == s.conns[c].sent;
      AppendNothing(s.conns[c].sent, |s.issued|, s.issued + modes);
    }
  }

  lemma AppendNothing(fs: Frames, first: nat, issued: seq<nat>)
    ensures Appends(fs, fs, first, issued)
  {
  }

  lemma InvParts(s: State)
    requires Inv(s)
    ensures Wired(s) && FramesOk(s.conns, s.issued) && SlotsOk(s) && SessionsOk(s.sessions, s.now) && AgentsOk(s)
  {
  }

  /** A session that is not dropped by the tick still has its message as the last frame on its connection. */
  lemma TickKeepsSlot(s: State, sid: nat, modes: seq<nat>)
    requires Inv(s) && sid in s.registry.Values && Healthy(s, sid) && |s.issued| + |modes| <= SENTINEL
    ensures sid < |s.sessions| && s.sessions[sid].conn < |s.conns|
    ensures var cmds := Commands(|s.issued|, modes);
            var t, sent := TickSession(s, sid, cmds), TickConn(s, s.sessions[sid].conn, cmds).sent;
            && SessionOk(t, s.now + s.clock.length)
            && (t.slot.Some? ==> GoodFrame(t.slot.value, s.issued + modes) && sent != [] && Last(sent) == t.slot.value)
  {
    hide Inv, SessionOk, CheckTimeouts, ResendKeys, Healthy, Copies, TickCloses, Commands, Given, IssueGiven;
    hide FreshFrames, Appends;
    var cmds, first, issued' := Commands(|s.issued|, modes), |s.issued|, s.issued + modes;
    LiveSlot(s, sid);
    var ss, at := s.sessions[sid], CheckTime(s, sid);
    var c, given := ss.conn, Given(s, sid, cmds);
    CheckedSession(ss, s.now, at, s.now + s.clock.length);
    CommandsFresh(s.issued, modes);
    GivenFresh(s, sid, cmds, first, issued');
    IssueGivenKeepsSession(s, sid, CheckTimeouts(ss, at), cmds, first, issued', s.now + s.clock.length);
    CopiesAppend(s.conns[c].sent, ss, |ResendKeys(ss, at)|, given, s.issued, issued');
    if given != [] {
      FreshFront(given, first, issued');
    }
  }

  lemma CheckedSession(ss: Session, start: int, at: int, end: int)
    requires SessionOk(ss, start) && start <= at <= end
    ensures SessionOk(CheckTimeouts(ss, at), end) && CheckTimeouts(ss, at).slot == ss.slot
  {
    hide SessionOk, CheckTimeouts;
    TimePasses(ss, start, at);
    TimeoutsKeepSession(ss, at);
    TimePasses(CheckTimeouts(ss, at), at, end);
    TimeoutsKeepSlot(ss, at);
  }

  lemma TimeoutsKeepSlot(s: Session, now: int)
    ensures CheckTimeouts(s, now).slot == s.slot
  {
  }

  lemma TickKeepsSessions(s: State, i: nat, modes: seq<nat>)
    requires Inv(s) && i < |s.sessions| && |s.issued| + |modes| <= SENTINEL
    ensures var t := TickSession(s, i, Commands(|s.issued|, modes));
            && SessionOk(t, s.now + s.clock.length)
            && (t.slot.Some? ==> GoodFrame(t.slot.value, s.issued + modes))
            && (i !in s.registry.Values || !Healthy(s, i) ==> t.slot == s.sessions[i].slot)
  {
    hide Inv, SessionOk, FramesOk, AgentsOk, Commands, Settle, Healthy, IssueGiven, TickConn;
    assert SessionOk(s.sessions[i], s.now) by { InvParts(s); }
    assert s.sessions[i].slot.Some? ==> GoodFrame(s.sessions[i].slot.value, s.issued) by { InvParts(s); }
    TimePasses(s.sessions[i], s.now, s.now + s.clock.length);
    if i in s.registry.Values {
      if Healthy(s, i) {
        TickKeepsSlot(s, i, modes);
      } else {
        SettleKeepsSession(s.sessions[i], Abandoned, s.now + s.clock.length);
        SettleKeepsSlot(s.sessions[i], Abandoned);
      }
    }
  }

  lemma SettleKeepsSlot(s: Session, fate: Fate)
    ensures Settle(s, fate).slot == s.slot
  {
  }

  lemma TickKeepsSlotSent(s: State, out: Outcome, c: nat)
    requires Inv(s) && c < |s.conns| && |s.issued| + |out.modes| <= SENTINEL
    ensures SlotSent(TickWith(s, out), c)
  {
    hide Inv, TickSession, TickFrames, TickCloses, Commands, GoodFrame, Healthy, SessionOk;
    hide TickFailureCounts, TickTrackedCounts;
    var ctx, cmds := s.conns[c].context, Commands(|s.issued|, out.modes);
    if ctx.Some? {
      BoundSlot(s, c);
      if ctx.value in s.registry.Values && Healthy(s, ctx.value) {
        TickKeepsSlot(s, ctx.value, out.modes);
      } else {
        TickKeepsSessions(s, ctx.value, out.modes);
        assert TickFrames(s, c, cmds) == [] by { NothingToSend(s, c, cmds); }
      }
    }
  }

  lemma NothingToSend(s: State, c: nat, cmds: Frames)
    requires c < |s.conns| && (Lock(s, c).None? || !Healthy(s, Lock(s, c).value))
    ensures TickFrames(s, c, cmds) == []
  {
  }

  lemma TickKeepsSlots(s: State, out: Outcome)
    requires Inv(s) && |s.issued| + |out.modes| <= SENTINEL
    ensures SlotsOk(TickWith(s, out)) && SessionsOk(TickWith(s, out).sessions, TickWith(s, out).now)
  {
    hide Inv, SessionOk, TickSession, TickConn, Commands, GoodFrame, Healthy, SlotSent;
    hide TickFailureCounts, TickTrackedCounts;
    var t := TickWith(s, out);
    forall i: nat | i < |s.sessions|
      ensures SessionOk(t.sessions[i], t.now)
      ensures t.sessions[i].slot.Some? ==> GoodFrame(t.sessions[i].slot.value, t.issued)
    {
      TickKeepsSessions(s, i, out.modes);
    }
    forall c: nat | c < |s.conns|
      ensures SlotSent(t, c)
    {
      TickKeepsSlotSent(s, out, c);
    }
  }

  lemma TickKeepsInv(s: State, load: real)
    requires Inv(s) && Bounded(OnTick(s, load))
    ensures Inv(OnTick(s, load))
  {
    hide Inv, AgentsOk, FramesOk, SessionsOk, SlotsOk, Wired, TickConn, RunPolicies, InPhase, Appends, TickSession;
    hide Healthy, TickFailureCounts, TickTrackedCounts;
    var t := OnTick(s, load);
    var out := RunPolicies(s.policies, load, s.overload);
    assert Wired(s) && AgentsOk(s) && FramesOk(s.conns, s.issued) by { InvParts(s); }
    TickKeepsSlots(s, out);
    TickKeepsWired(s, load);
    forall c | 0 <= c < |s.conns|
      ensures Appends(s.conns[c].sent, t.conns[c].sent, |s.issued|, t.issued)
    {
      TickAppends(s, c, out.modes);
    }
    AppendKeepsAgents(s, t);
    assert InPhase(t.overload, t.issued) by {
      PhaseOf(s);
      PoliciesKeepPhase(s.policies, load, s.overload, s.issued);
    }
    InvJoin(t);
  }

  lemma InvJoin(s: State)
    requires Wired(s) && FramesOk(s.conns, s.issued) && SlotsOk(s) && SessionsOk(s.sessions, s.now) && AgentsOk(s)
    requires InPhase(s.overload, s.issued) && s.lastTick <= s.now
    ensures Inv(s)
  {
  }

  // ---------------------------------------------------------------- the other steps

  /** A step that replaces sessions by sessions with the same slots, binds no connection, and sends nothing. */
  lemma QuietStepKeepsInv(s: State, t: State)
    requires Inv(s) && Wired(t)
    requires t.now >= s.now && t.lastTick == s.lastTick && t.issued == s.issued && t.overload == s.overload
    requires t.agents == s.agents && |t.conns| == |s.conns| && |t.sessions| == |s.sessions|
    requires forall c :: 0 <= c < |s.conns| ==>
               t.conns[c].sent == s.conns[c].sent && t.conns[c].context == s.conns[c].context
    requires forall i :: 0 <= i < |s.sessions| ==>
               t.sessions[i].slot == s.sessions[i].slot && SessionOk(t.sessions[i], t.now)
    ensures Inv(t)
  {
    hide AgentsOk, FramesOk, AllAppend, InPhase, SessionOk, GoodFrame;
    assert AgentsOk(s) && FramesOk(s.conns, s.issued) by { InvParts(s); }
    NothingAppended(s, t);
    AppendKeepsAgents(s, t);
    forall c | 0 <= c < |t.conns|
      ensures SlotSent(t, c)
    {
      assert SlotSent(s, c);
    }
  }

  lemma ElapseKeepsInv(s: State, ms: nat)
    requires Inv(s)
    ensures Inv(s.(now := s.now + ms))
  {
    hide SessionOk, AgentsOk, FramesOk;
    var t := s.(now := s.now + ms);
    forall i | 0 <= i < |s.sessions|
      ensures SessionOk(t.sessions[i], t.now)
    {
      assert SessionOk(s.sessions[i], s.now);
      TimePasses(s.sessions[i], s.now, t.now);
    }
    QuietStepKeepsInv(s, t);
  }

  lemma SocketKeepsInv(s: State, c: nat)
    requires Inv(s) && c < |s.conns|
    ensures Inv(s.(conns := s.conns[c := s.conns[c].(open := false)]))
  {
    hide SessionOk, AgentsOk, FramesOk;
    QuietStepKeepsInv(s, s.(conns := s.conns[c := s.conns[c].(open := false)]));
  }

  lemma DestroyKeepsSessions(s: State, agentId: nat)
    requires Inv(s)
    ensures var ss := Destroy(s.sessions, s.registry, agentId);
            |ss| == |s.sessions| && forall i :: 0 <= i < |ss| ==>
              ss[i].slot == s.sessions[i].slot && SessionOk(ss[i], s.now)
  {
    hide SessionOk, AgentsOk, FramesOk, SlotsOk, Settle;
    if agentId in s.registry {
      var gone := s.sessions[s.registry[agentId]];
      SettleKeepsSession(gone, Abandoned, s.now);
      SettleKeepsSlot(gone, Abandoned);
    }
  }

  lemma ErrorKeepsInv(s: State, c: nat)
    requires Inv(s) && c < |s.conns|
    ensures Inv(OnError(s, c))
  {
    hide SessionOk, AgentsOk, FramesOk, Destroy, SlotsOk, InPhase;
    ErrorKeepsWired(s, c);
    if Lock(s, c).Some? {
      DestroyKeepsSessions(s, s.sessions[Lock(s, c).value].agentId);
    }
    QuietStepKeepsInv(s, OnError(s, c));
  }

  lemma RegisterKeepsInv(s: State, c: nat, agentId: nat)
    requires Inv(s) && c < |s.conns| && Lock(s, c).None?
    ensures Inv(Register(s, c, agentId))
  {
    hide SessionOk, AgentsOk, FramesOk, Destroy, InPhase, GoodFrame;
    var t := Register(s, c, agentId);
    RegisterKeepsWired(s, c, agentId);
    DestroyKeepsSessions(s, agentId);
    NewSessionOk(agentId, c, s.now);
    NothingAppended(s, t);
    AppendKeepsAgents(s, t);
    forall d | 0 <= d < |t.conns|
      ensures SlotSent(t, d)
    {
      assert SlotSent(s, d);
    }
  }

  lemma NewSessionOk(agentId: nat, conn: nat, now: int)
    ensures SessionOk(NewSession(agentId, conn, now), now)
  {
  }

  lemma SessionStepKeepsInv(s: State, sid: nat, x: Session, loads: map<nat, real>, samples: nat)
    requires Inv(s) && sid < |s.sessions|
    requires x.slot == s.sessions[sid].slot && x.conn == s.sessions[sid].conn && x.agentId == s.sessions[sid].agentId
    requires SessionOk(x, s.now)
    ensures Inv(s.(sessions := s.sessions[sid := x], loads := loads, samples := samples))
  {
    hide SessionOk, AgentsOk, FramesOk, SlotsOk, InPhase;
    QuietStepKeepsInv(s, s.(sessions := s.sessions[sid := x], loads := loads, samples := samples));
  }

  lemma LockedStepKeepsInv(s: State, c: nat, msg: Inbound)
    requires Inv(s) && c < |s.conns| && Lock(s, c).Some?
    ensures Inv(OnMessage(s, c, msg))
  {
    hide Inv, SessionOk, AgentsOk, FramesOk, SlotsOk, InPhase, OnError;
    var sid := Lock(s, c).value;
    var ss := s.sessions[sid];
    assert SessionOk(ss, s.now) by { InvParts(s); }
    ErrorKeepsInv(s, c);
    match msg
    case Hello(_) =>
    case OtherType =>
    case Heartbeat =>
      BeatKeepsSession(ss, s.now);
      SessionStepKeepsInv(s, sid, Beat(ss, s.now), s.loads, s.samples);
    case Report(load) =>
      if load.Some? {
        assert s.sessions == s.sessions[sid := ss];
        SessionStepKeepsInv(s, sid, ss, s.loads[ss.agentId := load.value], s.samples);
      }
    case AckOf(id) => if id.Some? { AckKeepsInv(s, sid, id.value); }
    case NackOf(id) => if id.Some? { AckKeepsInv(s, sid, id.value); }
  }

  lemma BeatKeepsSession(s: Session, now: int)
    requires SessionOk(s, now)
    ensures SessionOk(Beat(s, now), now)
  {
  }

  lemma AckKeepsInv(s: State, sid: nat, id: nat)
    requires Inv(s) && sid < |s.sessions|
    ensures Inv(OnAck(s, sid, id))
  {
    hide Inv, SessionOk;
    var ss := s.sessions[sid];
    assert SessionOk(ss, s.now) by { InvParts(s); }
    AckKeepsSession(ss, id, s.now);
    SessionStepKeepsInv(s, sid, HandleAck(ss, id, s.now), s.loads, OnAck(s, sid, id).samples);
  }

  lemma CloseKeepsInv(s: State, c: nat)
    requires Inv(s) && c < |s.conns|
    ensures Inv(s.(conns := s.conns[c := s.conns[c].(closeAsked := true)]))
  {
    hide SessionOk, AgentsOk, FramesOk;
    QuietStepKeepsInv(s, s.(conns := s.conns[c := s.conns[c].(closeAsked := true)]));
  }

  lemma MessageKeepsInv(s: State, c: nat, msg: Inbound)
    requires Inv(s) && c < |s.conns|
    ensures Inv(OnMessage(s, c, msg))
  {
    hide Inv, Register, OnError;
    if Lock(s, c).Some? {
      LockedStepKeepsInv(s, c, msg);
    } else {
      ErrorKeepsInv(s, c);
      if !msg.Hello? {
        CloseKeepsInv(s, c);
      } else if msg.agentId.Some? {
        RegisterKeepsInv(s, c, msg.agentId.value);
      }
    }
  }

  lemma FlushAppends(s: State, c: nat)
    requires Inv(s) && c < |s.conns|
    ensures var sent, sent' := s.conns[c].sent, FlushConn(s, c).sent;
            && Appends(sent, sent', |s.issued|, s.issued)
            && (Lock(s, c).Some? && s.sessions[Lock(s, c).value].slot.Some? ==>
                  sent' != [] && Last(sent') == s.sessions[Lock(s, c).value].slot.value)
  {
    hide Inv, Appends, Copies;
    var sid := Lock(s, c);
    if sid.Some? {
      var ss := s.sessions[sid.value];
      BoundSlot(s, c);
      FlushedAppend(s.conns[c].sent, ss, |ss.pending|, s.issued);
    } else {
      AppendNothing(s.conns[c].sent, |s.issued|, s.issued);
    }
  }

  lemma FlushedAppend(before: Frames, ss: Session, n: nat, issued: seq<nat>)
    requires ss.slot.Some? ==> before != [] && Last(before) == ss.slot.value && GoodFrame(ss.slot.value, issued)
    ensures var after := before + Copies(ss, n);
            && Appends(before, after, |issued|, issued)
            && (ss.slot.Some? ==> after != [] && Last(after) == ss.slot.value)
  {
    var after := before + Copies(ss, n);
    assert forall j :: |before| <= j < |after| ==> after[j] == ss.slot.value;
    assert |before| > 0 && |Copies(ss, n)| == 0 ==> after[|before| - 1] == Last(before);
  }

  lemma FlushSessionOk(s: State, i: nat)
    requires Inv(s) && i < |s.sessions|
    ensures SessionOk(FlushSession(s, i), s.now) && FlushSession(s, i).slot == s.sessions[i].slot
  {
    hide Inv, SessionOk, Settle;
    assert SessionOk(s.sessions[i], s.now) by { InvParts(s); }
    SettleKeepsSession(s.sessions[i], Flushed, s.now);
    SettleKeepsSlot(s.sessions[i], Flushed);
  }

  lemma FlushKeepsSlotSent(s: State, c: nat)
    requires Inv(s) && c < |s.conns| && !s.shuttingDown
    ensures SlotSent(OnShutdown(s), c)
  {
    hide Inv, SessionOk, FlushSession, Appends, GoodFrame, Copies;
    var ctx := s.conns[c].context;
    if ctx.Some? {
      BoundSlot(s, c);
      FlushSessionOk(s, ctx.value);
      FlushAppends(s, c);
    }
  }

  lemma ShutdownKeepsSlots(s: State)
    requires Inv(s)
    ensures Wired(OnShutdown(s)) && SlotsOk(OnShutdown(s)) && SessionsOk(OnShutdown(s).sessions, s.now)
  {
    hide Inv, SessionOk, FlushSession, FlushConn, Wired, GoodFrame, SlotSent;
    InvParts(s);
    ShutdownKeepsWired(s);
    var t := OnShutdown(s);
    if !s.shuttingDown {
      forall i: nat | i < |s.sessions|
        ensures SessionOk(t.sessions[i], s.now) && t.sessions[i].slot == s.sessions[i].slot
      {
        FlushSessionOk(s, i);
      }
      forall c: nat | c < |s.conns|
        ensures SlotSent(t, c)
      {
        FlushKeepsSlotSent(s, c);
      }
    }
  }

  lemma ShutdownKeepsInv(s: State)
    requires Inv(s)
    ensures Inv(OnShutdown(s))
  {
    hide Inv, AgentsOk, FramesOk, SessionsOk, SlotsOk, Wired, FlushConn, FlushSession, InPhase, Appends;
    var t := OnShutdown(s);
    assert Wired(s) && AgentsOk(s) && FramesOk(s.conns, s.issued) by { InvParts(s); }
    ShutdownKeepsSlots(s);
    if !s.shuttingDown {
      forall c | 0 <= c < |s.conns|
        ensures Appends(s.conns[c].sent, t.conns[c].sent, |s.issued|, t.issued)
      {
        FlushAppends(s, c);
      }
      AppendKeepsAgents(s, t);
      assert InPhase(t.overload, t.issued) && t.lastTick <= t.now by { PhaseOf(s); }
      InvJoin(t);
    }
  }

  lemma PhaseOf(s: State)
    requires Inv(s)
    ensures InPhase(s.overload, s.issued) && s.lastTick <= s.now
  {
  }

  lemma AgentUnaffected(a: AgentProc, conns: seq<Conn>, x: Conn, issued: seq<nat>)
    requires AgentOk(a, conns, issued)
    ensures AgentOk(a, conns + [x], issued)
  {
    hide Mono, AllGood, MemoryOk;
    if a.conn.Some? {
      assert Stream(a, conns + [x]) == Stream(a, conns);
    }
  }

  lemma ReconnectedOk(a: AgentProc, conns: seq<Conn>, x: Conn, issued: seq<nat>)
    requires AgentOk(a, conns, issued) && x.sent == []
    ensures AgentOk(a.(conn := Some(|conns|), base := |a.received|), conns + [x], issued)
  {
    var b := a.(conn := Some(|conns|), base := |a.received|);
    assert Stream(b, conns + [x]) == a.received;
    if a.conn.Some? {
      var fs := Stream(a, conns);
      assert forall i :: 0 <= i < |a.received| ==> a.received[i] == fs[i];
    }
  }

  lemma ConnectKeepsInv(s: State, p: nat)
    requires Inv(s) && p < |s.agents|
    ensures Inv(OnConnect(s, p))
  {
    hide AgentOk, InPhase, GoodFrame, SessionsOk;
    var t := OnConnect(s, p);
    ConnectKeepsWired(s, p);
    forall q | 0 <= q < |t.agents|
      ensures AgentOk(t.agents[q], t.conns, t.issued)
    {
      if q == p {
        ReconnectedOk(s.agents[p], s.conns, NewConn(), s.issued);
      } else {
        AgentUnaffected(s.agents[q], s.conns, NewConn(), s.issued);
      }
    }
    forall c | 0 <= c < |t.conns|
      ensures SlotSent(t, c)
    {
      assert c < |s.conns| ==> SlotSent(s, c);
    }
  }

  /**
   One delivery: the one-slot check and the full-history check agree on the frame, unless it is the first from this
   controller and has the id remembered from before.
   */
  lemma SlotCheckAgrees(a: AgentProc, conns: seq<Conn>, issued: seq<nat>, f: Cmd<nat>)
    requires AgentOk(a, conns, issued)
    requires a.conn.Some? && |a.received| < |Stream(a, conns)| && f == Stream(a, conns)[|a.received|]
    requires GoodFrame(f, issued)
    ensures f.id == a.core.lastId <==> Seen(a.received, f.id) || (a.received == [] && f.id == a.start.lastId)
    ensures a.received != [] && f.id == a.core.lastId ==> f == Last(a.received)
    ensures Mono(a.received + [f])
  {
    var fs, n := Stream(a, conns), |a.received|;
    assert forall i :: 0 <= i < n ==> a.received[i] == fs[i];
    if n > 0 {
      assert a.received[n - 1] == Last(a.received) && GoodFrame(a.received[n - 1], issued);
      if Seen(a.received, f.id) {
        var i :| 0 <= i < n && a.received[i].id == f.id;
        assert fs[i].id <= fs[n - 1].id <= fs[n].id;
      }
    }
  }

  lemma NextIsGood(fs: Frames, conns: seq<Conn>, c: nat, i: nat, issued: seq<nat>)
    requires AllGood(fs, issued) && FramesOk(conns, issued) && c < |conns| && i < |conns[c].sent|
    ensures GoodFrame(conns[c].sent[i], issued) && AllGood(fs + [conns[c].sent[i]], issued)
  {
    hide Mono;
  }

  lemma DeliveredOk(a: AgentProc, b: AgentProc, conns: seq<Conn>, issued: seq<nat>)
    requires AgentOk(a, conns, issued) && FramesOk(conns, issued)
    requires a.conn.Some? && |a.received| - a.base < |conns[a.conn.value].sent|
    requires var f := conns[a.conn.value].sent[|a.received| - a.base];
             var r := AgentCore.Handle(a.core, f);
             && b.core == r.core && b.applied == (if r.reply.Ack? then a.applied + [f] else a.applied)
             && b.received == a.received + [f] && b.start == a.start && b.conn == a.conn && b.base == a.base
    ensures AgentOk(b, conns, issued)
  {
    hide Mono, AllGood, GoodFrame, Seen, MemoryOk, FramesOk;
    var f, fs := conns[a.conn.value].sent[|a.received| - a.base], Stream(a, conns);
    NextIsGood(a.received, conns, a.conn.value, |a.received| - a.base, issued);
    NextOfStream(a, conns);
    SlotCheckAgrees(a, conns, issued, f);
    MemoryKept(a, b, f);
    assert Stream(b, conns) == fs by { assert b.received[..a.base] == a.received[..a.base]; }
    assert b.received <= fs;
  }

  lemma NextOfStream(a: AgentProc, conns: seq<Conn>)
    requires a.base <= |a.received| && a.conn.Some? && a.conn.value < |conns|
    requires |a.received| - a.base < |conns[a.conn.value].sent|
    ensures |a.received| < |Stream(a, conns)|
    ensures Stream(a, conns)[|a.received|] == conns[a.conn.value].sent[|a.received| - a.base]
  {
  }

  lemma MemoryKept(a: AgentProc, b: AgentProc, f: Cmd<nat>)
    requires MemoryOk(a) && Mono(a.received + [f]) && b.received == a.received + [f] && b.start == a.start
    requires var r := AgentCore.Handle(a.core, f);
             b.core == r.core && b.applied == if r.reply.Ack? then a.applied + [f] else a.applied
    requires f.id == a.core.lastId <==> Seen(a.received, f.id) || (a.received == [] && f.id == a.start.lastId)
    requires a.received != [] && f.id == a.core.lastId ==> f == Last(a.received)
    ensures MemoryOk(b)
  {
    var n := |a.received|;
    assert b.received[..n] == a.received && b.received[n] == f;
    if n == 0 {
      assert FullHistory(b.received) == [f];
    } else {
      assert b.received[0] == a.received[0] && b.received[n - 1] == Last(a.received);
      assert b.received[0].id <= b.received[n - 1].id <= b.received[n].id;
      FullHistoryCovers(a.received, 0);
    }
  }

  lemma DeliverKeepsInv(s: State, p: nat)
    requires Inv(s) && Unread(s, p)
    ensures Inv(OnDeliver(s, p))
  {
    hide AgentOk, InPhase, GoodFrame, SessionsOk, FramesOk;
    assert AgentOk(s.agents[p], s.conns, s.issued);
    var t := OnDeliver(s, p);
    DeliveredOk(s.agents[p], t.agents[p], s.conns, s.issued);
    forall c | 0 <= c < |t.conns|
      ensures SlotSent(t, c)
    {
      assert c < |s.conns| ==> SlotSent(s, c);
    }
  }

  // ---------------------------------------------------------------- all runs

  lemma StepKeepsInv(s: State, e: Event)
    requires Inv(s) && Bounded(Step(s, e))
    ensures Inv(Step(s, e))
  {
    hide Inv, OnTick, OnMessage, OnError, OnShutdown, OnConnect, OnDeliver;
    match e
    case Elapse(ms) => ElapseKeepsInv(s, ms);
    case Connect(p) => if p < |s.agents| { ConnectKeepsInv(s, p); }
    case Receive(c, msg) => if c < |s.conns| { MessageKeepsInv(s, c, msg); }
    case ConnectionError(c) => if c < |s.conns| { ErrorKeepsInv(s, c); }
    case SocketClosed(c) => if c < |s.conns| { SocketKeepsInv(s, c); }
    case Tick(reload, load, clock) =>
      BeginKeepsInv(s, reload, clock);
      TickKeepsInv(Begin(s, reload, clock), load);
    case Deliver(p) =>
      if Unread(s, p) {
        DeliverKeepsInv(s, p);
      }
    case Shutdown => ShutdownKeepsInv(s);
  }

  lemma BeginKeepsInv(s: State, reload: Option<seq<Policy>>, clock: Clock)
    requires Inv(s)
    ensures Inv(Begin(s, reload, clock))
  {
    hide SessionOk, AgentOk, FramesOk, InPhase;
    var t := Begin(s, reload, clock);
    forall c | 0 <= c < |t.conns|
      ensures SlotSent(t, c)
    {
      assert c < |s.conns| ==> SlotSent(s, c);
    }
  }

  lemma MessageKeepsAgents(s: State, c: nat, msg: Inbound)
    requires c < |s.conns|
    ensures OnMessage(s, c, msg).agents == s.agents && OnMessage(s, c, msg).issued == s.issued
  {
    hide Destroy, HandleAck, Beat;
  }

  lemma IssuedGrows(s: State, e: Event)
    ensures s.issued <= Step(s, e).issued
  {
    hide RunPolicies, Commands, TickSession, TickConn, FlushSession, OnMessage, Destroy;
    hide FlushConn, TickFailureCounts, TickTrackedCounts, Healthy;
    if e.Receive? && e.conn < |s.conns| {
      MessageKeepsAgents(s, e.conn, e.msg);
    }
  }

  lemma {:induction false} IssuedGrowsRun(s: State, es: seq<Event>)
    ensures s.issued <= Run(s, es).issued
    decreases |es|
  {
    hide Step;
    if es != [] {
      IssuedGrows(s, es[0]);
      IssuedGrowsRun(Step(s, es[0]), es[1..]);
    }
  }

  lemma StartedInv(policies: seq<Policy>, memories: seq<AgentCore.Core<nat>>)
    ensures Inv(Started(policies, memories))
  {
  }

  /** Every agent was new when the controller started. */
  ghost predicate AllFresh(s: State) {
    forall p :: 0 <= p < |s.agents| ==> s.agents[p].start == FRESH
  }

  lemma InitialInv(setup: Setup)
    ensures Inv(Initial(setup)) && AllFresh(Initial(setup))
  {
    StartedInv(setup.policies, seq(setup.agentCount, _ => FRESH));
  }

  lemma {:induction false} RunKeepsInv(s: State, es: seq<Event>)
    requires Inv(s) && Bounded(Run(s, es))
    ensures Inv(Run(s, es))
    decreases |es|
  {
    hide Step, Inv;
    if es != [] {
      IssuedGrowsRun(Step(s, es[0]), es[1..]);
      StepKeepsInv(s, es[0]);
      RunKeepsInv(Step(s, es[0]), es[1..]);
    }
  }

  /** The agents stay, with the memory they had at the start, and forget nothing they have read. */
  lemma AgentsGrow(s: State, e: Event)
    ensures |Step(s, e).agents| == |s.agents|
    ensures forall p :: 0 <= p < |s.agents| ==>
              && Step(s, e).agents[p].start == s.agents[p].start
              && s.agents[p].received <= Step(s, e).agents[p].received
              && s.agents[p].readOn <= Step(s, e).agents[p].readOn
  {
    hide RunPolicies, Commands, TickSession, TickConn, TickFailureCounts, TickTrackedCounts, FlushSession, FlushConn;
    hide Destroy, Lock, Healthy, OnMessage;
    if e.Receive? && e.conn < |s.conns| {
      MessageKeepsAgents(s, e.conn, e.msg);
    }
  }

  lemma {:induction false} StartsStay(s: State, es: seq<Event>)
    ensures |Run(s, es).agents| == |s.agents|
    ensures forall p :: 0 <= p < |s.agents| ==> Run(s, es).agents[p].start == s.agents[p].start
    decreases |es|
  {
    hide Step;
    if es != [] {
      AgentsGrow(s, es[0]);
      StartsStay(Step(s, es[0]), es[1..]);
    }
  }

  /** In every bounded run the invariant holds, and the agents were new at the start. */
  lemma Reachable(setup: Setup, es: seq<Event>)
    requires Bounded(Run(Initial(setup), es))
    ensures Inv(Run(Initial(setup), es)) && AllFresh(Run(Initial(setup), es))
  {
    hide Run, Inv, Initial;
    InitialInv(setup);
    RunKeepsInv(Initial(setup), es);
    StartsStay(Initial(setup), es);
  }

  /** A new agent is never misled: it remembers the last frame and has applied what a full-history filter keeps. */
  lemma FreshMemory(s: State, p: nat)
    requires Inv(s) && AllFresh(s) && Bounded(s) && p < |s.agents|
    ensures var a := s.agents[p];
            && a.applied == FullHistory(a.received)
            && (if a.received == [] then a.core == FRESH
                else a.core.lastId == Last(a.received).id && a.core.mode == Last(a.received).mode)
  {
    hide FramesOk, SlotsOk, SessionsOk, InPhase, FullHistory;
    assert AgentOk(s.agents[p], s.conns, s.issued);
    if s.agents[p].received != [] {
      assert GoodFrame(s.agents[p].received[0], s.issued);
    }
  }

  // ---------------------------------------------------------------- theorems

  ghost predicate StrictlyRising(fs: Frames) {
    forall i, j :: 0 <= i < j < |fs| ==> fs[i].id < fs[j].id
  }

  /** What the reference filter keeps was received. */
  lemma {:induction false} FullHistoryKeepsOnly(fs: Frames, f: Cmd<nat>)
    requires f in FullHistory(fs)
    ensures f in fs
    decreases |fs|
  {
    var front := fs[..|fs| - 1];
    if f in FullHistory(front) {
      FullHistoryKeepsOnly(front, f);
    }
  }

  /** Every id received is kept by the reference filter. */
  lemma {:induction false} FullHistoryCovers(fs: Frames, i: nat)
    requires i < |fs|
    ensures Seen(FullHistory(fs), fs[i].id)
    decreases |fs|
  {
    var front, h := fs[..|fs| - 1], FullHistory(fs[..|fs| - 1]);
    if i < |front| || Seen(front, fs[i].id) {
      var k :| 0 <= k < |front| && front[k].id == fs[i].id by {
        assert i < |front| ==> front[i] == fs[i];
      }
      FullHistoryCovers(front, k);
      var j :| 0 <= j < |h| && h[j].id == fs[i].id;
      assert FullHistory(fs)[j] == h[j];
    } else {
      assert FullHistory(fs)[|h|] == fs[i];
    }
  }

  /** On frames in order, the reference filter keeps each id once. */
  lemma {:induction false} FullHistoryRises(fs: Frames)
    requires Mono(fs)
    ensures StrictlyRising(FullHistory(fs))
    decreases |fs|
  {
    if fs != [] {
      var front, h := fs[..|fs| - 1], FullHistory(fs[..|fs| - 1]);
      FullHistoryRises(front);
      if !Seen(front, Last(fs).id) {
        forall i | 0 <= i < |h|
          ensures h[i].id < Last(fs).id
        {
          FullHistoryKeepsOnly(front, h[i]);
          var k :| 0 <= k < |front| && front[k] == h[i];
          assert fs[k].id <= fs[|fs| - 1].id;
        }
      }
    }
  }

  lemma ReceivedMono(a: AgentProc, conns: seq<Conn>, issued: seq<nat>)
    requires AgentOk(a, conns, issued)
    ensures Mono(a.received)
  {
    if a.conn.Some? {
      var fs := Stream(a, conns);
      assert forall i :: 0 <= i < |a.received| ==> a.received[i] == fs[i];
    }
  }

  lemma GoodFramesAgree(fs: Frames, issued: seq<nat>)
    requires AllGood(fs, issued)
    ensures forall f, g :: f in fs && g in fs && f.id == g.id ==> f.mode == g.mode
  {
    forall f | f in fs
      ensures GoodFrame(f, issued)
    {
    }
  }

  /**
   In every run (resends, several pending commands, reconnects and the shutdown flush included) the ids reaching an
   agent never decrease and equal ids carry equal modes; the frames its one-slot check lets through are exactly
   those a full-history check would; so every id received is applied once.
   */
  lemma CommandsInOrder(setup: Setup, es: seq<Event>, p: nat)
    requires Bounded(Run(Initial(setup), es)) && p < |Run(Initial(setup), es).agents|
    ensures var a := Run(Initial(setup), es).agents[p];
            && Mono(a.received)
            && (forall f, g :: f in a.received && g in a.received && f.id == g.id ==> f.mode == g.mode)
            && a.applied == FullHistory(a.received)
            && StrictlyRising(a.applied)
            && (forall i :: 0 <= i < |a.received| ==> Seen(a.applied, a.received[i].id))
  {
    hide Run;
    Reachable(setup, es);
    var s := Run(Initial(setup), es);
    var a := s.agents[p];
    assert AgentOk(a, s.conns, s.issued);
    ReceivedMono(a, s.conns, s.issued);
    GoodFramesAgree(a.received, s.issued);
    FreshMemory(s, p);
    FullHistoryRises(a.received);
    forall i | 0 <= i < |a.received|
      ensures Seen(a.applied, a.received[i].id)
    {
      FullHistoryCovers(a.received, i);
    }
  }

  /**
   Latest mode wins: in every reachable state an agent that has received a command is in the mode of the highest id
   it has received; and once it has read every frame sent on its connection, it is in the mode of the last command
   issued to the session made for that connection (the one with the highest id in the session's ledger), if there was
   any, whether that session is still registered or was evicted, displaced or dropped meanwhile.
   */
  lemma LatestModeWins(setup: Setup, es: seq<Event>, p: nat)
    requires Bounded(Run(Initial(setup), es)) && p < |Run(Initial(setup), es).agents|
    ensures var s := Run(Initial(setup), es);
            var a := s.agents[p];
            && (a.received == [] ==> a.core == FRESH)
            && (a.received != [] ==>
                  && Seen(a.received, a.core.lastId)
                  && (forall i :: 0 <= i < |a.received| ==> a.received[i].id <= a.core.lastId)
                  && a.core.lastId == Last(a.received).id && a.core.mode == Last(a.received).mode
                  && a.core.lastId < |s.issued| && a.core.mode == s.issued[a.core.lastId])
            && (a.conn.Some? ==> a.conn.value < |s.conns|)
            && (a.conn.Some? && !Unread(s, p) && s.conns[a.conn.value].context.Some? ==>
                  var sid := s.conns[a.conn.value].context.value;
                  && sid < |s.sessions|
                  && var ledger := s.sessions[sid].ledger;
                     ledger != map[] ==>
                       && a.core.lastId in ledger && (forall k :: k in ledger ==> k <= a.core.lastId)
                       && a.core.lastId < |s.issued| && a.core.mode == s.issued[a.core.lastId])
  {
    hide Run;
    Reachable(setup, es);
    var s := Run(Initial(setup), es);
    var a := s.agents[p];
    assert AgentOk(a, s.conns, s.issued);
    ReceivedMono(a, s.conns, s.issued);
    FreshMemory(s, p);
    if a.received != [] {
      assert GoodFrame(a.received[|a.received| - 1], s.issued);
    }
    if a.conn.Some? && !Unread(s, p) && s.conns[a.conn.value].context.Some? {
      ReadToTheEnd(s, p);
    }
  }

  lemma ReadToTheEnd(s: State, p: nat)
    requires Inv(s) && AllFresh(s) && Bounded(s)
    requires p < |s.agents| && s.agents[p].conn.Some? && s.agents[p].conn.value < |s.conns|
    requires !Unread(s, p) && s.conns[s.agents[p].conn.value].context.Some?
    ensures var a, sid := s.agents[p], s.conns[s.agents[p].conn.value].context.value;
            && sid < |s.sessions|
            && var ledger := s.sessions[sid].ledger;
               ledger != map[] ==>
                 && a.core.lastId in ledger && (forall k :: k in ledger ==> k <= a.core.lastId)
                 && a.core.lastId < |s.issued| && a.core.mode == s.issued[a.core.lastId]
  {
    hide FramesOk, InPhase, Mono, AllGood, FullHistory;
    var a := s.agents[p];
    assert AgentOk(a, s.conns, s.issued);
    FreshMemory(s, p);
    var c := a.conn.value;
    BoundSlot(s, c);
    var ledger := s.sessions[s.conns[c].context.value].ledger;
    if ledger != map[] {
      var k :| k in ledger;
      assert a.received == Stream(a, s.conns);
      assert Last(a.received) == Last(s.conns[c].sent);
    }
  }

  lemma MessageSendsNothing(s: State, c: nat, msg: Inbound)
    requires c < |s.conns|
    ensures var t := OnMessage(s, c, msg);
            |t.conns| == |s.conns| && forall d :: 0 <= d < |s.conns| ==> t.conns[d].sent == s.conns[d].sent
  {
    hide Destroy, HandleAck, Beat;
  }

  lemma SentGrows(s: State, e: Event, c: nat)
    requires c < |s.conns|
    ensures c < |Step(s, e).conns| && s.conns[c].sent <= Step(s, e).conns[c].sent
  {
    hide RunPolicies, Commands, TickSession, TickFrames, FlushSession;
    hide FlushedFrames, TickFailureCounts, TickTrackedCounts, Healthy;
    hide Destroy, Lock, OnMessage;
    if e.Receive? && e.conn < |s.conns| {
      MessageSendsNothing(s, e.conn, e.msg);
    }
  }

  lemma {:induction false} SentGrowsRun(s: State, es: seq<Event>, c: nat)
    requires c < |s.conns|
    ensures c < |Run(s, es).conns| && s.conns[c].sent <= Run(s, es).conns[c].sent
    decreases |es|
  {
    hide Step;
    if es != [] {
      SentGrows(s, es[0], c);
      SentGrowsRun(Step(s, es[0]), es[1..], c);
    }
  }

  /**
   A pending entry need not be filed under the id its message carries: once a newer command has rewritten the
   session's message, every frame sent on the connection from then on, the entry's own resends included, carries a
   higher id than the entry's key, in every continuation of the run.
   */
  lemma SupersededNeverResent(setup: Setup, es: seq<Event>, more: seq<Event>, sid: nat, k: nat)
    requires Bounded(Run(Run(Initial(setup), es), more))
    requires var s := Run(Initial(setup), es);
             && sid in s.registry.Values && sid < |s.sessions| && k in s.sessions[sid].pending
             && (s.sessions[sid].slot.Some? ==> s.sessions[sid].slot.value.id != k)
    ensures var s := Run(Initial(setup), es);
            var t := Run(s, more);
            var c := s.sessions[sid].conn;
            && c < |s.conns| && c < |t.conns| && s.conns[c].sent <= t.conns[c].sent
            && forall i :: |s.conns[c].sent| <= i < |t.conns[c].sent| ==> t.conns[c].sent[i].id > k
  {
    hide Run;
    var s := Run(Initial(setup), es);
    var t := Run(s, more);
    IssuedGrowsRun(s, more);
    Reachable(setup, es);
    RunKeepsInv(s, more);
    LiveSlot(s, sid);
    var c := s.sessions[sid].conn;
    SentGrowsRun(s, more, c);
    assert k in s.sessions[sid].ledger;
    var before, after := s.conns[c].sent, t.conns[c].sent;
    assert after[|before| - 1] == Last(before) == s.sessions[sid].slot.value;
    assert Mono(after);
  }

  /** Why the bound: the first command to reach a fresh agent is refused exactly when its id is the sentinel. */
  lemma SentinelCollision(c: Cmd<nat>)
    ensures AgentCore.Handle(FRESH, c).reply.Nack? <==> c.id == SENTINEL
  {
  }

  // ---------------------------------------------------------------- how many frames

  lemma CopiesCount(ss: Session, n: nat, now: int)
    requires SessionOk(ss, now) && (n > 0 ==> ss.pending != map[])
    ensures |Copies(ss, n)| == n
  {
    if n > 0 {
      var k :| k in ss.pending;
      assert k in ss.ledger;
    }
  }

  lemma {:induction false} GivenCount(s: State, i: nat, cmds: Frames)
    ensures |Given(s, i, cmds)| == |set j | 0 <= j < |cmds| && HealthyAgain(s, i, j)|
    decreases |cmds|
  {
    hide HealthyAgain;
    var all := set j | 0 <= j < |cmds| && HealthyAgain(s, i, j);
    if cmds != [] {
      var n := |cmds| - 1;
      GivenCount(s, i, cmds[..n]);
      var front := set j | 0 <= j < n && HealthyAgain(s, i, j);
      assert all == front + if HealthyAgain(s, i, n) then {n} else {};
    } else {
      assert all == {};
    }
  }

  lemma {:induction false} GivenAll(s: State, i: nat, cmds: Frames)
    requires HealthyAt(s, i, s.now + s.clock.length)
    ensures Given(s, i, cmds) == cmds
    decreases |cmds|
  {
    if cmds != [] {
      GivenAll(s, i, cmds[..|cmds| - 1]);
    }
  }

  lemma TickFrameCount(s: State, sid: nat, cmds: Frames)
    requires Inv(s) && sid in s.registry.Values && Healthy(s, sid)
    ensures sid < |s.sessions| && s.sessions[sid].conn < |s.conns|
    ensures var c := s.sessions[sid].conn;
            |TickConn(s, c, cmds).sent|
            == |s.conns[c].sent| + |ResendKeys(s.sessions[sid], CheckTime(s, sid))| + |Given(s, sid, cmds)|
  {
    hide Inv, SessionOk, Copies, Healthy, Given, TickCloses;
    LiveSlot(s, sid);
    var ss, at := s.sessions[sid], CheckTime(s, sid);
    if |ResendKeys(ss, at)| > 0 {
      var k :| k in ResendKeys(ss, at);
    }
    CopiesCount(ss, |ResendKeys(ss, at)|, s.now);
  }

  /**
   In every reachable state a tick sends, to a session it finds healthy, one frame per entry due at its timeout check
   and one per command for which it is still healthy; all of them if its heartbeat is not too old when the tick ends.
   */
  lemma TickSendsAllDue(setup: Setup, es: seq<Event>, e: Event, a: nat)
    requires e.Tick? && Bounded(Run(Initial(setup), es))
    requires var b := Begin(Run(Initial(setup), es), e.reload, e.clock); a in b.registry && Healthy(b, b.registry[a])
    ensures var s := Run(Initial(setup), es);
            var t, sid := Step(s, e), s.registry[a];
            var c, due := s.sessions[sid].conn, |ResendKeys(s.sessions[sid], s.now + e.clock.Check(sid))|;
            var age, count := s.now - s.sessions[sid].lastHeartbeat, |t.issued| - |s.issued|;
            && c < |s.conns| && c < |t.conns|
            && |t.conns[c].sent|
               == |s.conns[c].sent| + due + |set j: nat | j < count && age + e.clock.Again(sid, j) < 3000|
            && (age + e.clock.length < 3000 ==> |t.conns[c].sent| == |s.conns[c].sent| + due + count)
  {
    hide Run, Inv, TickSession, TickFailureCounts, TickTrackedCounts, RunPolicies, Commands, Healthy;
    hide HealthyAt, Given, TickConn, ResendKeys;
    Reachable(setup, es);
    var s := Run(Initial(setup), es);
    BeginKeepsInv(s, e.reload, e.clock);
    var b := Begin(s, e.reload, e.clock);
    var sid := b.registry[a];
    assert sid in b.registry.Values;
    var cmds := Commands(|b.issued|, RunPolicies(b.policies, e.load, b.overload).modes);
    TickFrameCount(b, sid, cmds);
    GivenCount(b, sid, cmds);
    var age := s.now - s.sessions[sid].lastHeartbeat;
    StillHealthy(b, sid, e.clock.length);
    assert (set j: nat | j < |cmds| && age + e.clock.Again(sid, j) < 3000)
        == (set j | 0 <= j < |cmds| && HealthyAgain(b, sid, j)) by {
      forall j: nat
        ensures HealthyAgain(b, sid, j) <==> age + e.clock.Again(sid, j) < 3000
      {
        StillHealthy(b, sid, e.clock.Again(sid, j));
      }
    }
    if age + e.clock.length < 3000 {
      GivenAll(b, sid, cmds);
    }
  }

  /** Once the health check has passed, only the age of the heartbeat can change the verdict. */
  lemma StillHealthy(s: State, sid: nat, x: int)
    requires Healthy(s, sid)
    ensures HealthyAt(s, sid, s.now + x) <==> s.now - s.sessions[sid].lastHeartbeat + x < 3000
  {
    HeartbeatMeans(s.sessions[sid].lastHeartbeat, s.now + x);
  }

  /** The shutdown flush sends one frame per pending entry of every session and leaves nothing pending. */
  lemma ShutdownFlushesAll(setup: Setup, es: seq<Event>, a: nat)
    requires Bounded(Run(Initial(setup), es))
    requires var s := Run(Initial(setup), es); a in s.registry && !s.shuttingDown
    ensures var s := Run(Initial(setup), es);
            var t := Step(s, Shutdown);
            var sid := s.registry[a];
            && sid < |s.sessions| && sid < |t.sessions| && t.sessions[sid].pending == map[]
            && var c := s.sessions[sid].conn;
               c < |s.conns| && c < |t.conns| && |t.conns[c].sent| == |s.conns[c].sent| + |s.sessions[sid].pending|
  {
    hide Run, Inv, Copies;
    Reachable(setup, es);
    var s := Run(Initial(setup), es);
    var sid := s.registry[a];
    assert sid in s.registry.Values;
    LiveSlot(s, sid);
    CopiesCount(s.sessions[sid], |s.sessions[sid].pending|, s.now);
  }
}
