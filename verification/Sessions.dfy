/**
 The state of one agent session (src/controller/AgentTcpSession.cpp) and what its operations do to it.

 A session owns a single reusable CMD_SET_MODE message, `slot`.  A pending entry is a reference to that message, so
 it stores no command of its own: whatever key it is filed under, a resend transmits the slot.  The class in
 AgentTcpSession.dfy keeps the message as a heap object and implements these functions.
 */
module Sessions {
  import opened Options

  const MAX_RETRIES: nat := 5

  /** `W` is the type of 32-bit words: bit vectors on the wire, numbers everywhere else. */
  datatype Cmd<W> = Cmd(id: W, mode: W)

  /** `since` is history: when trackCommand filed the entry. Times are in milliseconds. */
  datatype Pending = Pending(lastSend: int, retryCount: nat, since: int)

  /** What became of a tracked command. */
  datatype Fate =
    | Waiting(since: int)
    | Sampled(since: int, at: int)
    | Failed(since: int, at: int)
    | Flushed
    | Abandoned

  /** `ledger` is history: the fate of every command ever tracked by the session. */
  datatype Session = Session(
    agentId: nat, conn: nat, slot: Option<Cmd<nat>>, pending: map<nat, Pending>, lastHeartbeat: int,
    ledger: map<nat, Fate>)

  function NewSession(agentId: nat, conn: nat, now: int): Session {
    Session(agentId, conn, None, map[], now, map[])
  }

  /** duration_cast to seconds: truncation toward zero. */
  function Seconds(ms: int): int {
    if ms >= 0 then ms / 1000 else -((-ms) / 1000)
  }

  /** 1 << retry_count. */
  function Wait(retryCount: nat): (r: nat)
    ensures r >= 1
  {
    if retryCount == 0 then 1 else 2 * Wait(retryCount - 1)
  }

  predicate HeartbeatOk(lastHeartbeat: int, now: int) {
    Seconds(now - lastHeartbeat) < 3
  }

  predicate Due(p: Pending, now: int) {
    Seconds(now - p.lastSend) >= Wait(p.retryCount)
  }

  predicate Resends(p: Pending, now: int) {
    Due(p, now) && p.retryCount < MAX_RETRIES
  }

  predicate Fails(p: Pending, now: int) {
    Due(p, now) && p.retryCount >= MAX_RETRIES
  }

  function Retry(p: Pending, now: int): Pending {
    if Resends(p, now) then Pending(now, p.retryCount + 1, p.since) else p
  }

  function ResendKeys(s: Session, now: int): set<nat> {
    set k | k in s.pending && Resends(s.pending[k], now)
  }

  function FailKeys(s: Session, now: int): set<nat> {
    set k | k in s.pending && Fails(s.pending[k], now)
  }

  /** checkCommandTimeouts. */
  function CheckTimeouts(s: Session, now: int): Session {
    s.(pending := map k | k in s.pending && !Fails(s.pending[k], now) :: Retry(s.pending[k], now),
       ledger := map k | k in s.ledger ::
         if k in s.pending && Fails(s.pending[k], now) then Failed(s.pending[k].since, now) else s.ledger[k])
  }

  /** `n` transmissions of the session's message. */
  function Copies(s: Session, n: nat): seq<Cmd<nat>> {
    if s.slot.None? then [] else seq(n, _ => s.slot.value)
  }

  /** The frames checkCommandTimeouts sends. */
  function ResentFrames(s: Session, now: int): seq<Cmd<nat>> {
    Copies(s, |ResendKeys(s, now)|)
  }

  /** getSetModeMsg followed by trackCommand: the message is rewritten in place and filed under its new id. */
  function Issue(s: Session, c: Cmd<nat>, now: int): Session {
    s.(slot := Some(c), pending := s.pending[c.id := Pending(now, 0, now)], ledger := s.ledger[c.id := Waiting(now)])
  }

  /** handleAck, for ACK and NACK alike. */
  function HandleAck(s: Session, id: nat, now: int): Session {
    if id !in s.pending then s
    else s.(pending := s.pending - {id}, ledger := s.ledger[id := Sampled(s.pending[id].since, now)])
  }

  function Settle(s: Session, fate: Fate): Session {
    s.(pending := map[], ledger := map k | k in s.ledger :: if k in s.pending then fate else s.ledger[k])
  }

  /** flushPendingCommands: one frame per entry, then the map is cleared. */
  function Flush(s: Session): Session {
    Settle(s, Flushed)
  }

  function FlushedFrames(s: Session): seq<Cmd<nat>> {
    Copies(s, |s.pending|)
  }

  /** Destruction of the session object with whatever it still had pending. */
  function Abandon(s: Session): Session {
    Settle(s, Abandoned)
  }

  function Beat(s: Session, now: int): Session {
    s.(lastHeartbeat := now)
  }

  // ---------------------------------------------------------------- one entry at a time

  /** The body of the loop of checkCommandTimeouts, for the entry filed under `k`. */
  function CheckOne(s: Session, k: nat, now: int): Session
    requires k in s.pending
  {
    var p := s.pending[k];
    if Fails(p, now) then s.(pending := s.pending - {k}, ledger := s.ledger[k := Failed(p.since, now)])
    else s.(pending := s.pending[k := Retry(p, now)])
  }

  /** The session when the loop has been through `keys`. */
  function CheckSome(s: Session, keys: set<nat>, now: int): Session {
    s.(pending := map k | k in s.pending && !(k in keys && Fails(s.pending[k], now)) ::
         if k in keys then Retry(s.pending[k], now) else s.pending[k],
       ledger := map k | k in s.ledger ::
         if k in keys && k in s.pending && Fails(s.pending[k], now) then Failed(s.pending[k].since, now)
         else s.ledger[k])
  }

  /** The order in which the loop visits the entries does not matter. */
  lemma CheckNext(s: Session, keys: set<nat>, k: nat, now: int)
    requires k in s.pending && k !in keys && s.pending.Keys <= s.ledger.Keys
    ensures k in CheckSome(s, keys, now).pending && CheckSome(s, keys, now).pending[k] == s.pending[k]
    ensures CheckOne(CheckSome(s, keys, now), k, now) == CheckSome(s, keys + {k}, now)
  {
    hide Fails, Retry;
    var a, b := CheckOne(CheckSome(s, keys, now), k, now), CheckSome(s, keys + {k}, now);
    assert a.pending == b.pending;
    assert a.ledger == b.ledger;
  }

  lemma CheckNone(s: Session, now: int)
    ensures CheckSome(s, {}, now) == s
  {
    hide Fails, Retry;
    assert CheckSome(s, {}, now).pending == s.pending;
    assert CheckSome(s, {}, now).ledger == s.ledger;
  }

  lemma CheckAll(s: Session, now: int)
    ensures CheckSome(s, s.pending.Keys, now) == CheckTimeouts(s, now)
  {
    hide Fails, Retry;
    assert CheckSome(s, s.pending.Keys, now).pending == CheckTimeouts(s, now).pending;
    assert CheckSome(s, s.pending.Keys, now).ledger == CheckTimeouts(s, now).ledger;
  }

  // ---------------------------------------------------------------- what every operation keeps

  /** The pending map holds exactly the tracked commands whose fate is open. */
  ghost predicate LedgerOk(s: Session) {
    && (forall k :: k in s.pending <==> k in s.ledger && s.ledger[k].Waiting?)
    && (forall k :: k in s.pending ==> s.ledger[k] == Waiting(s.pending[k].since))
  }

  /** The k-th resend comes at least 2^k - 1 seconds, and a failure at least 63 seconds, after tracking. */
  ghost predicate EntryOk(p: Pending, now: int) {
    p.retryCount <= MAX_RETRIES && p.since + 1000 * (Wait(p.retryCount) - 1) <= p.lastSend <= now
  }

  ghost predicate FateOk(f: Fate, now: int) {
    match f
    case Sampled(since, at) => since <= at <= now
    case Failed(since, at) => since + 63000 <= at <= now
    case _ => true
  }

  ghost predicate TimesOk(s: Session, now: int) {
    && (forall k :: k in s.pending ==> EntryOk(s.pending[k], now))
    && (forall k :: k in s.ledger ==> FateOk(s.ledger[k], now))
  }

  /** The session's message is the tracked command with the highest id. */
  ghost predicate SlotOk(s: Session) {
    && (forall k :: k in s.ledger ==> s.slot.Some? && k <= s.slot.value.id)
    && (s.slot.Some? ==> s.slot.value.id in s.ledger)
  }

  ghost predicate SessionOk(s: Session, now: int) {
    LedgerOk(s) && TimesOk(s, now) && SlotOk(s)
  }

  lemma WaitValues()
    ensures Wait(0) == 1 && Wait(1) == 2 && Wait(2) == 4 && Wait(3) == 8 && Wait(4) == 16 && Wait(5) == 32
  {
    assert Wait(1) == 2 && Wait(2) == 4;
    assert Wait(3) == 8;
  }

  lemma DueMeans(p: Pending, now: int)
    ensures Due(p, now) <==> now - p.lastSend >= 1000 * Wait(p.retryCount)
  {
  }

  lemma HeartbeatMeans(lastHeartbeat: int, now: int)
    ensures HeartbeatOk(lastHeartbeat, now) <==> now - lastHeartbeat < 3000
  {
  }

  lemma RetryKeepsEntry(p: Pending, before: int, now: int)
    requires EntryOk(p, before) && before <= now
    ensures EntryOk(Retry(p, now), now)
    ensures Fails(p, now) ==> p.since + 63000 <= now
  {
    DueMeans(p, now);
    WaitValues();
    assert Wait(p.retryCount + 1) == 2 * Wait(p.retryCount);
  }

  lemma TimePasses(s: Session, before: int, now: int)
    requires SessionOk(s, before) && before <= now
    ensures SessionOk(s, now)
  {
  }

  lemma TimeoutsKeepLedger(s: Session, now: int)
    requires LedgerOk(s) && SlotOk(s)
    ensures LedgerOk(CheckTimeouts(s, now)) && SlotOk(CheckTimeouts(s, now))
  {
    hide Fails, Resends;
  }

  lemma TimeoutsKeepTimes(s: Session, now: int)
    requires TimesOk(s, now)
    ensures TimesOk(CheckTimeouts(s, now), now)
  {
    hide Fails, Retry, EntryOk;
    forall k | k in s.pending
      ensures EntryOk(Retry(s.pending[k], now), now)
      ensures Fails(s.pending[k], now) ==> s.pending[k].since + 63000 <= now
    {
      RetryKeepsEntry(s.pending[k], now, now);
    }
  }

  lemma TimeoutsKeepSession(s: Session, now: int)
    requires SessionOk(s, now)
    ensures SessionOk(CheckTimeouts(s, now), now)
  {
    hide CheckTimeouts, LedgerOk, TimesOk, SlotOk;
    TimeoutsKeepLedger(s, now);
    TimeoutsKeepTimes(s, now);
  }

  lemma IssueKeepsSession(s: Session, c: Cmd<nat>, t: int, now: int)
    requires SessionOk(s, now) && t <= now
    requires s.slot.Some? ==> s.slot.value.id < c.id
    ensures SessionOk(Issue(s, c, t), now)
    ensures c.id !in s.ledger
  {
  }

  lemma AckKeepsSession(s: Session, id: nat, now: int)
    requires SessionOk(s, now)
    ensures SessionOk(HandleAck(s, id, now), now)
  {
  }

  lemma SettleKeepsSession(s: Session, fate: Fate, now: int)
    requires SessionOk(s, now) && (fate == Flushed || fate == Abandoned)
    ensures SessionOk(Settle(s, fate), now)
  {
  }

  // ---------------------------------------------------------------- counting fates

  function SampledKeys(s: Session): set<nat> {
    set k | k in s.ledger && s.ledger[k].Sampled?
  }

  function FailedKeys(s: Session): set<nat> {
    set k | k in s.ledger && s.ledger[k].Failed?
  }

  function FlushedKeys(s: Session): set<nat> {
    set k | k in s.ledger && s.ledger[k].Flushed?
  }

  function AbandonedKeys(s: Session): set<nat> {
    set k | k in s.ledger && s.ledger[k].Abandoned?
  }

  lemma DisjointCard<T>(a: set<T>, b: set<T>)
    requires a !! b
    ensures |a + b| == |a| + |b|
  {
  }

  lemma FateSets(s: Session)
    requires LedgerOk(s)
    ensures s.ledger.Keys
            == (SampledKeys(s) + FailedKeys(s)) + (s.pending.Keys + (FlushedKeys(s) + AbandonedKeys(s)))
  {
    forall k | k in s.ledger
      ensures k in (SampledKeys(s) + FailedKeys(s)) + (s.pending.Keys + (FlushedKeys(s) + AbandonedKeys(s)))
    {
      match s.ledger[k]
      case Waiting(_) =>
      case Sampled(_, _) =>
      case Failed(_, _) =>
      case Flushed =>
      case Abandoned =>
    }
  }

  /** Every tracked command has exactly one fate. */
  lemma FatesPartition(s: Session)
    requires LedgerOk(s)
    ensures |s.ledger| == |SampledKeys(s)| + |FailedKeys(s)| + |s.pending| + |FlushedKeys(s)| + |AbandonedKeys(s)|
  {
    FateSets(s);
    DisjointCard(SampledKeys(s), FailedKeys(s));
    DisjointCard(FlushedKeys(s), AbandonedKeys(s));
    DisjointCard(s.pending.Keys, FlushedKeys(s) + AbandonedKeys(s));
    DisjointCard(SampledKeys(s) + FailedKeys(s), s.pending.Keys + (FlushedKeys(s) + AbandonedKeys(s)));
  }

  lemma TimeoutsCount(s: Session, now: int)
    requires LedgerOk(s)
    ensures var t := CheckTimeouts(s, now);
            && |t.ledger| == |s.ledger| && |SampledKeys(t)| == |SampledKeys(s)|
            && |FailedKeys(t)| == |FailedKeys(s)| + |FailKeys(s, now)|
  {
    hide Fails, Retry;
    var t := CheckTimeouts(s, now);
    assert t.ledger.Keys == s.ledger.Keys;
    assert SampledKeys(t) == SampledKeys(s);
    assert FailedKeys(t) == FailedKeys(s) + FailKeys(s, now) by {
      forall k | k in s.ledger
        ensures k in FailedKeys(t) <==> k in FailedKeys(s) + FailKeys(s, now)
      {
      }
    }
    DisjointCard(FailedKeys(s), FailKeys(s, now));
  }

  lemma IssueCount(s: Session, c: Cmd<nat>, now: int)
    requires c.id !in s.ledger
    ensures var t := Issue(s, c, now);
            |t.ledger| == |s.ledger| + 1 && SampledKeys(t) == SampledKeys(s) && FailedKeys(t) == FailedKeys(s)
  {
    assert Issue(s, c, now).ledger.Keys == s.ledger.Keys + {c.id};
  }

  lemma AckCount(s: Session, id: nat, now: int)
    requires LedgerOk(s)
    ensures var t := HandleAck(s, id, now);
            && |t.ledger| == |s.ledger| && FailedKeys(t) == FailedKeys(s)
            && |SampledKeys(t)| == |SampledKeys(s)| + if id in s.pending then 1 else 0
  {
    var t := HandleAck(s, id, now);
    assert t.ledger.Keys == s.ledger.Keys;
    if id in s.pending {
      assert SampledKeys(t) == SampledKeys(s) + {id};
    }
  }

  lemma SettleCount(s: Session, fate: Fate)
    requires LedgerOk(s) && (fate == Flushed || fate == Abandoned)
    ensures var t := Settle(s, fate);
            |t.ledger| == |s.ledger| && SampledKeys(t) == SampledKeys(s) && FailedKeys(t) == FailedKeys(s)
  {
    assert Settle(s, fate).ledger.Keys == s.ledger.Keys;
  }

  // ---------------------------------------------------------------- the life of one entry

  /** The times at which one entry is resent and fails, when timeouts are checked at the given times. */
  datatype Timeline = Timeline(resends: seq<int>, failedAt: Option<int>, entry: Pending)

  function EntryLife(p: Pending, ticks: seq<int>): Timeline
    decreases |ticks|
  {
    if ticks == [] then Timeline([], None, p)
    else if Fails(p, ticks[0]) then Timeline([], Some(ticks[0]), p)
    else
      var rest := EntryLife(Retry(p, ticks[0]), ticks[1..]);
      if Resends(p, ticks[0]) then rest.(resends := [ticks[0]] + rest.resends) else rest
  }

  ghost predicate Ascending(from: int, ticks: seq<int>) {
    && (forall i :: 0 <= i < |ticks| ==> from <= ticks[i])
    && (forall i, j :: 0 <= i < j < |ticks| ==> ticks[i] <= ticks[j])
  }

  lemma EntryRange(p: Pending, now: int)
    requires EntryOk(p, now)
    ensures p.retryCount <= MAX_RETRIES && p.since + 1000 * (Wait(p.retryCount) - 1) <= p.lastSend <= now
  {
  }

  lemma {:induction false} EntryLifeFrom(p: Pending, now: int, ticks: seq<int>)
    requires EntryOk(p, now) && Ascending(now, ticks)
    ensures var t := EntryLife(p, ticks);
            && p.retryCount + |t.resends| <= MAX_RETRIES
            && (forall k :: 0 <= k < |t.resends| ==> t.resends[k] >= p.since + 1000 * (Wait(p.retryCount + k + 1) - 1))
            && (t.failedAt.Some? ==> p.retryCount + |t.resends| == MAX_RETRIES && t.failedAt.value >= p.since + 63000)
    decreases |ticks|
  {
    hide EntryOk, Due;
    if ticks != [] {
      RetryKeepsEntry(p, now, ticks[0]);
      assert p.retryCount <= MAX_RETRIES by { EntryRange(p, now); }
      if !Fails(p, ticks[0]) {
        EntryLifeFrom(Retry(p, ticks[0]), ticks[0], ticks[1..]);
        if Resends(p, ticks[0]) {
          EntryRange(Retry(p, ticks[0]), ticks[0]);
        }
      }
    } else {
      EntryRange(p, now);
    }
  }

  /**
   Backoff timeline: an entry tracked at `since` is resent at most 5 times, the k-th time at least 2^k - 1 seconds
   later, and fails only after all 5, at least 63 seconds later, whenever timeouts are checked.
   */
  lemma BackoffTimeline(since: int, ticks: seq<int>)
    requires Ascending(since, ticks)
    ensures var t := EntryLife(Pending(since, 0, since), ticks);
            && |t.resends| <= 5
            && (forall k :: 0 <= k < |t.resends| ==> t.resends[k] >= since + 1000 * (Wait(k + 1) - 1))
            && (t.failedAt.Some? ==> |t.resends| == 5 && t.failedAt.value >= since + 63000)
  {
    EntryLifeFrom(Pending(since, 0, since), since, ticks);
  }

  function CheckTimeoutsAt(s: Session, ticks: seq<int>): Session
    decreases |ticks|
  {
    if ticks == [] then s else CheckTimeoutsAt(CheckTimeouts(s, ticks[0]), ticks[1..])
  }

  /** Each entry of a session lives its own timeline, independent of the others. */
  lemma {:induction false} EntriesLiveAlone(s: Session, k: nat, ticks: seq<int>)
    requires k in s.pending
    ensures var t := EntryLife(s.pending[k], ticks);
            var r := CheckTimeoutsAt(s, ticks);
            if t.failedAt.Some? then k !in r.pending else k in r.pending && r.pending[k] == t.entry
    decreases |ticks|
  {
    if ticks != [] {
      if Fails(s.pending[k], ticks[0]) {
        GoneStaysGone(CheckTimeouts(s, ticks[0]), k, ticks[1..]);
      } else {
        EntriesLiveAlone(CheckTimeouts(s, ticks[0]), k, ticks[1..]);
      }
    }
  }

  lemma {:induction false} GoneStaysGone(s: Session, k: nat, ticks: seq<int>)
    requires k !in s.pending
    ensures k !in CheckTimeoutsAt(s, ticks).pending
    decreases |ticks|
  {
    if ticks != [] {
      GoneStaysGone(CheckTimeouts(s, ticks[0]), k, ticks[1..]);
    }
  }
}
