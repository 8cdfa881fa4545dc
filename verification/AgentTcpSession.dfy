/**
 The controller's session object for one agent (src/controller/AgentTcpSession.cpp), with its reusable message on the
 heap.  Its view is a `Session`; each method is proved to do to the view what the function of Sessions.dfy says.
 */
module AgentTcpSessions {
  import opened Constants
  import opened Options
  import opened ByteSerializer
  import opened BinaryMessageParser
  import opened Sessions
  import opened WritePump
  import Agents
  import TcpComm

  class MetricsTracker {
    var commandFailures: nat
    var totalRttMs: int
    var rttSamples: nat

    constructor ()
      ensures commandFailures == 0 && totalRttMs == 0 && rttSamples == 0
    {
      commandFailures, totalRttMs, rttSamples := 0, 0, 0;
    }
  }

  /** The message a session acquires once and rewrites for every command. */
  class CommandMessage {
    var headerId: bv32
    var payload: Bytes
    var payloadLen: bv32
    const timestamp: bv64

    constructor (timestamp: bv64)
      ensures headerId == 0 && payload == [] && payloadLen == 0 && this.timestamp == timestamp
    {
      headerId, payload, payloadLen := 0, [], 0;
      this.timestamp := timestamp;
    }

    /** The message as it is now: what send serialises. */
    function Snapshot(): Message
      reads this
    {
      Message(CMD_SET_MODE, 0, 0, headerId, timestamp, payloadLen, payload, 0)
    }
  }

  /** `msg` is a reference; every entry of a session shares one message. `since` is history. */
  datatype PendingCommand = PendingCommand(msg: CommandMessage, lastSend: int, retryCount: nat, since: int)

  function Entry(pc: PendingCommand): Pending {
    Pending(pc.lastSend, pc.retryCount, pc.since)
  }

  /** A pending map without the message references. */
  function Entries(p: map<nat, PendingCommand>): (r: map<nat, Pending>)
    ensures r.Keys == p.Keys && forall k :: k in p ==> r[k] == Entry(p[k])
  {
    map k | k in p :: Entry(p[k])
  }

  lemma EntriesPut(p: map<nat, PendingCommand>, k: nat, pc: PendingCommand)
    ensures Entries(p[k := pc]) == Entries(p)[k := Entry(pc)]
  {
  }

  lemma EntriesDrop(p: map<nat, PendingCommand>, k: nat)
    ensures Entries(p - {k}) == Entries(p) - {k}
  {
  }

  function Repeat<T>(x: T, n: nat): (r: seq<T>)
    ensures |r| == n && forall i :: 0 <= i < n ==> r[i] == x
  {
    seq(n, _ => x)
  }

  class AgentTcpSession {
    var conn: TcpComm.TcpComm?
    var id: nat
    var lastHeartbeat: int
    var pending: map<nat, PendingCommand>
    var payloadMode: bv32
    const msgSetMode: CommandMessage
    const tracker: MetricsTracker?

    ghost var used: bool
    ghost var ledger: map<nat, Fate>

    /** Every pending entry refers to the session's one message, which carries the last mode it was given. */
    ghost predicate Valid()
      reads this, msgSetMode
    {
      && (forall k :: k in pending ==> pending[k].msg == msgSetMode)
      && (pending != map[] ==> used)
      && pending.Keys <= ledger.Keys
      && (used ==> Agents.Carries(msgSetMode.Snapshot(), Command()))
    }

    /** The command the session's message carries. */
    function Command(): Cmd<bv32>
      reads this, msgSetMode
    {
      Cmd(msgSetMode.headerId, payloadMode)
    }

    ghost function View(): Session
      reads this, msgSetMode
    {
      Session(id, 0, if used then Some(Agents.NatCmd(Command())) else None,
              Entries(pending), lastHeartbeat, ledger)
    }

    lemma ViewKeys()
      ensures View().pending.Keys == pending.Keys
      ensures Valid() ==> View().pending.Keys <= View().ledger.Keys
    {
    }

    constructor (conn: TcpComm.TcpComm?, tracker: MetricsTracker?, id: nat, now: int, timestamp: bv64)
      ensures Valid() && View() == NewSession(id, 0, now)
      ensures this.conn == conn && this.tracker == tracker && fresh(msgSetMode)
    {
      this.conn, this.tracker, this.id, lastHeartbeat := conn, tracker, id, now;
      pending, payloadMode := map[], 0;
      msgSetMode := new CommandMessage(timestamp);
      used, ledger := false, map[];
    }

    /** isHealthy: an open socket and a heartbeat less than 3000 ms ago, although the age is truncated to seconds. */
    method IsHealthy(now: int) returns (r: bool)
      ensures r <==> conn != null && conn.socketOpen && now - lastHeartbeat < 3000
    {
      HeartbeatMeans(lastHeartbeat, now);
      var connectionLive := conn != null && conn.socketOpen;
      var heartbeatOk := Seconds(now - lastHeartbeat) < 3;
      r := connectionLive && heartbeatOk;
    }

    method UpdateHeartbeat(now: int)
      requires Valid()
      modifies this`lastHeartbeat
      ensures Valid() && View() == Beat(old(View()), now)
    {
      lastHeartbeat := now;
    }

    method Disconnect()
      requires Valid()
      modifies this`conn, conn
      ensures Valid() && View() == old(View()) && conn == null
      ensures old(conn) != null ==> old(conn).State() == Step(old(conn.State()), Event.Disconnect)
    {
      if conn != null {
        conn.Disconnect();
        conn := null;
      }
    }

    method Send(msg: CommandMessage)
      modifies conn
      ensures conn != null ==> conn.State() == Step(old(conn.State()), Event.Send(Frame(msg.Snapshot())))
    {
      if conn != null {
        conn.Send(msg.Snapshot());
      }
    }

    /** getSetModeMsg: the shared message is rewritten in place, under every entry that refers to it. */
    method GetSetModeMsg(mode: bv32, headerId: bv32) returns (msg: CommandMessage)
      requires Valid()
      modifies this`payloadMode, this`used, msgSetMode
      ensures Valid() && msg == msgSetMode && used
      ensures msgSetMode.Snapshot() == Message(0x1003, 0, 0, headerId, msgSetMode.timestamp, 4, WriteU32(mode), 0)
      ensures Command() == Cmd(headerId, mode) && View() == old(View()).(slot := Some(Agents.NatCmd(Command())))
    {
      FourBytes();
      payloadMode := mode;
      msgSetMode.payload := WriteU32(mode);
      msgSetMode.headerId := headerId;
      msgSetMode.payloadLen := 4;
      used := true;
      msg := msgSetMode;
    }

    /** trackCommand: file a message, any message, under its present id. */
    method TrackCommand(msg: CommandMessage, now: int)
      modifies this`pending, this`ledger
      ensures pending == old(pending)[ToNat(msg.headerId) := PendingCommand(msg, now, 0, now)]
      ensures ledger == old(ledger)[ToNat(msg.headerId) := Waiting(now)]
      ensures old(Valid()) && used && msg == msgSetMode ==>
                Valid() && View() == Issue(old(View()), Agents.NatCmd(Command()), now)
    {
      hide ToNat;
      var key := ToNat(msg.headerId);
      EntriesPut(pending, key, PendingCommand(msg, now, 0, now));
      pending := pending[key := PendingCommand(msg, now, 0, now)];
      ledger := ledger[key := Waiting(now)];
    }

    /** What the policy loop does with a healthy session: getSetModeMsg, trackCommand, send. */
    method IssueCommand(mode: bv32, headerId: bv32, now: int)
      requires Valid()
      modifies this`payloadMode, this`used, this`pending, this`ledger, msgSetMode, conn
      ensures Valid() && View() == Issue(old(View()), Agents.NatCmd(Cmd(headerId, mode)), now)
      ensures Agents.Carries(msgSetMode.Snapshot(), Cmd(headerId, mode))
      ensures msgSetMode.Snapshot() == Message(0x1003, 0, 0, headerId, msgSetMode.timestamp, 4, WriteU32(mode), 0)
      ensures conn != null ==> conn.State() == Step(old(conn.State()), Event.Send(Frame(msgSetMode.Snapshot())))
    {
      hide Frame, Step, WriteU32, ToNat;
      var msg := GetSetModeMsg(mode, headerId);
      TrackCommand(msg, now);
      Send(msg);
    }

    method HandleAck(cmdId: nat, now: int)
      requires Valid()
      modifies this`pending, this`ledger, tracker
      ensures Valid() && View() == Sessions.HandleAck(old(View()), cmdId, now)
      ensures tracker != null ==>
                && tracker.rttSamples == old(tracker.rttSamples) + (if cmdId in old(pending) then 1 else 0)
                && tracker.totalRttMs == old(tracker.totalRttMs)
                                         + (if cmdId in old(pending) then now - old(pending)[cmdId].lastSend else 0)
                && tracker.commandFailures == old(tracker.commandFailures)
    {
      if cmdId in pending {
        var rtt := now - pending[cmdId].lastSend;
        if tracker != null {
          tracker.totalRttMs := tracker.totalRttMs + rtt;
          tracker.rttSamples := tracker.rttSamples + 1;
        }
        ledger := ledger[cmdId := Sampled(pending[cmdId].since, now)];
        EntriesDrop(pending, cmdId);
        pending := pending - {cmdId};
      }
    }

    method ResendEntry(k: nat, now: int)
      requires Valid() && k in pending && Resends(Entry(pending[k]), now)
      modifies this`pending, conn
      ensures Valid() && View() == CheckOne(old(View()), k, now)
      ensures conn != null ==> conn.State() == Step(old(conn.State()), Event.Send(Frame(msgSetMode.Snapshot())))
    {
      hide Frame, Step, WriteU32, ToNat, Agents.NatCmd, Entries, Seconds, Wait;
      var pc := pending[k];
      var again := pc.(retryCount := pc.retryCount + 1, lastSend := now);
      EntriesPut(pending, k, again);
      pending := pending[k := again];
      if conn != null {
        conn.Send(pc.msg.Snapshot());
      }
    }

    method FailEntry(k: nat, now: int)
      requires Valid() && k in pending && Fails(Entry(pending[k]), now)
      modifies this`pending, this`ledger, tracker, conn
      ensures Valid() && View() == CheckOne(old(View()), k, now)
      ensures tracker != null ==>
                && tracker.commandFailures == old(tracker.commandFailures) + 1
                && tracker.rttSamples == old(tracker.rttSamples) && tracker.totalRttMs == old(tracker.totalRttMs)
      ensures conn != null ==> conn.State() == Step(old(conn.State()), Event.Disconnect)
    {
      hide Frame, Step, WriteU32, ToNat, Agents.NatCmd, Entries, Seconds, Wait;
      if tracker != null {
        tracker.commandFailures := tracker.commandFailures + 1;
      }
      ledger := ledger[k := Failed(pending[k].since, now)];
      EntriesDrop(pending, k);
      pending := pending - {k};
      if conn != null {
        conn.Disconnect();
      }
    }

    /** One round of the loop of checkCommandTimeouts. */
    method CheckEntry(k: nat, now: int)
      requires Valid() && k in pending
      modifies this`pending, this`ledger, tracker, conn
      ensures Valid() && View() == CheckOne(old(View()), k, now)
      ensures var p := old(View()).pending[k];
              && (tracker != null ==>
                    && tracker.commandFailures == old(tracker.commandFailures) + (if Fails(p, now) then 1 else 0)
                    && tracker.rttSamples == old(tracker.rttSamples) && tracker.totalRttMs == old(tracker.totalRttMs))
              && (conn != null ==>
                    conn.State() ==
                    if Resends(p, now) then Step(old(conn.State()), Event.Send(Frame(msgSetMode.Snapshot())))
                    else if Fails(p, now) then Step(old(conn.State()), Event.Disconnect)
                    else old(conn.State()))
    {
      hide Frame, Step, WriteU32, ToNat, Agents.NatCmd, Seconds, Wait, Agents.Carries;
      var pc := pending[k];
      var waitSec := Wait(pc.retryCount);
      if Seconds(now - pc.lastSend) >= waitSec {
        if pc.retryCount < MAX_RETRIES {
          ResendEntry(k, now);
        } else {
          FailEntry(k, now);
        }
      } else {
        SameEntry(View().pending, k);
      }
    }

    /** One round, in the context of the rounds before it. */
    method CheckRound(k: nat, now: int, ghost v0: Session, ghost order: seq<nat>, ghost w0: Wire<Bytes>)
      requires Valid() && View() == CheckSome(v0, Set(order), now)
      requires k in v0.pending && k !in order && v0.pending.Keys <= v0.ledger.Keys
      requires conn != null ==> Progress(w0, conn.State(), Frame(msgSetMode.Snapshot()), v0, order, now)
      modifies this`pending, this`ledger, tracker, conn
      ensures Valid() && View() == CheckSome(v0, Set(order + [k]), now)
      ensures tracker != null ==>
                && tracker.commandFailures - |SoFar(v0, Set(order + [k]), now).1|
                   == old(tracker.commandFailures) - |SoFar(v0, Set(order), now).1|
                && tracker.rttSamples == old(tracker.rttSamples) && tracker.totalRttMs == old(tracker.totalRttMs)
      ensures conn != null ==> Progress(w0, conn.State(), Frame(msgSetMode.Snapshot()), v0, order + [k], now)
    {
      hide Frame, Step, Fails, Resends, Retry, CheckSome, CheckOne, Progress, SoFar, Valid, View;
      assert Set(order + [k]) == Set(order) + {k};
      CheckNext(v0, Set(order), k, now);
      ViewKeys();
      CheckEntry(k, now);
      ResendsOrFails(v0.pending[k], now);
      GrowByOne(v0, Set(order), k, now);
      if conn != null {
        PostedOne(w0, old(conn.State()), conn.State(), Frame(msgSetMode.Snapshot()), v0, order, k, now);
      }
    }

    method CheckLoop(now: int, ghost v0: Session)
      requires Valid() && View() == v0
      modifies this`pending, this`ledger, tracker, conn
      ensures Valid() && View() == CheckSome(v0, v0.pending.Keys, now)
      ensures tracker != null ==>
                && tracker.commandFailures == old(tracker.commandFailures) + |SoFar(v0, v0.pending.Keys, now).1|
                && tracker.rttSamples == old(tracker.rttSamples) && tracker.totalRttMs == old(tracker.totalRttMs)
      ensures Set(InOrder(v0.pending.Keys)) == v0.pending.Keys
      ensures conn != null ==>
                Progress(old(conn.State()), conn.State(), Frame(msgSetMode.Snapshot()), v0,
                         InOrder(v0.pending.Keys), now)
    {
      hide Frame, CheckSome, Progress, SoFar, Valid, View, Set, InOrder, Least, Halfway;
      var todo := pending.Keys;
      ghost var order: seq<nat> := [];
      ViewKeys();
      HalfwayStart(todo);
      CheckNone(v0, now);
      NoneSoFar(v0, now);
      if conn != null {
        NothingPosted(conn.State(), Frame(msgSetMode.Snapshot()), v0, now);
      }
      while todo != {}
        invariant Valid() && View() == CheckSome(v0, Set(order), now) && Halfway(v0.pending.Keys, order, todo)
        invariant tracker != null ==>
                    && tracker.commandFailures == old(tracker.commandFailures) + |SoFar(v0, Set(order), now).1|
                    && tracker.rttSamples == old(tracker.rttSamples) && tracker.totalRttMs == old(tracker.totalRttMs)
        invariant conn != null ==>
                    Progress(old(conn.State()), conn.State(), Frame(msgSetMode.Snapshot()), v0, order, now)
        decreases |todo|
      {
        LeastThere(todo);
        var k :| k in todo && IsLeast(todo, k);
        HalfwayNext(v0.pending.Keys, order, todo, k);
        CheckRound(k, now, v0, order, if conn == null then Initial() else old(conn.State()));
        todo := todo - {k};
        order := order + [k];
      }
      HalfwayEnd(v0.pending.Keys, order);
    }

    /**
     checkCommandTimeouts: in ascending order of their ids, every due entry is resent or, after the last retry,
     erased.  All resends transmit the one message as it is now, whatever id the entry was filed under; each failure
     asks for the socket to be closed.
     */
    method CheckCommandTimeouts(now: int)
      requires Valid()
      modifies this`pending, this`ledger, tracker, conn
      ensures Valid() && View() == CheckTimeouts(old(View()), now)
      ensures tracker != null ==>
                && tracker.commandFailures == old(tracker.commandFailures) + |FailKeys(old(View()), now)|
                && tracker.rttSamples == old(tracker.rttSamples) && tracker.totalRttMs == old(tracker.totalRttMs)
      ensures conn != null ==>
                var frame := Frame(msgSetMode.Snapshot());
                && conn.State().tasks == old(conn.State()).tasks
                                         + Visits(old(View()), InOrder(old(pending).Keys), frame, now)
                && TimeoutsPosted(old(conn.State()), conn.State(), frame,
                                  |ResendKeys(old(View()), now)|, |FailKeys(old(View()), now)|)
    {
      hide Frame, CheckSome, CheckTimeouts, TimeoutsPosted, SoFar, Valid, View, ResendKeys, FailKeys;
      CheckAll(View(), now);
      AllSoFar(View(), now);
      ViewKeys();
      CheckLoop(now, View());
    }

    /** The loop of flushPendingCommands: one transmission of the message per entry. */
    method SendPending()
      requires Valid()
      modifies conn
      ensures Valid() && View() == old(View())
      ensures conn != null ==>
                conn.State() == PostCopies(old(conn.State()), Frame(msgSetMode.Snapshot()), |pending|)
    {
      hide Frame, Step, WriteU32, ToNat, Agents.NatCmd, Entries, Agents.Carries;
      ghost var frame := Frame(msgSetMode.Snapshot());
      var todo := pending.Keys;
      ghost var sent: set<nat> := {};
      while todo != {}
        invariant todo + sent == pending.Keys && todo !! sent
        invariant conn != null ==> conn.State() == PostCopies(old(conn.State()), frame, |sent|)
        decreases |todo|
      {
        var k :| k in todo;
        todo := todo - {k};
        if conn != null {
          conn.Send(pending[k].msg.Snapshot());
        }
        assert |sent + {k}| == |sent| + 1;
        sent := sent + {k};
      }
      assert sent == pending.Keys;
    }

    /** flushPendingCommands: every entry is transmitted once more, then the connection drains and closes. */
    method FlushPendingCommands()
      requires Valid()
      modifies this`pending, this`ledger, conn
      ensures Valid() && View() == Flush(old(View()))
      ensures conn != null ==>
                conn.State() == Run(old(conn.State()),
                                    Sends(Repeat(Frame(msgSetMode.Snapshot()), |old(pending)|))
                                    + [Event.FlushAndDisconnect])
    {
      hide Frame, Step, Run, Sends, PostCopies, WriteU32, ToNat, Agents.NatCmd, Agents.Carries;
      if conn != null {
        CopiesThenFlush(conn.State(), Frame(msgSetMode.Snapshot()), |pending|);
      }
      if pending == map[] {
        if conn != null {
          assert PostCopies(conn.State(), Frame(msgSetMode.Snapshot()), 0) == conn.State() by {
            NoCopies(conn.State(), Frame(msgSetMode.Snapshot()));
          }
          conn.FlushAndDisconnect();
        }
        assert View() == Flush(View()) by { FlushOfNothing(View()); }
        return;
      }
      SendPending();
      if conn != null {
        conn.FlushAndDisconnect();
      }
      ledger := map k | k in ledger :: if k in pending then Flushed else ledger[k];
      pending := map[];
    }
  }

  lemma FlushOfNothing(v: Session)
    requires v.pending == map[]
    ensures Flush(v) == v
  {
  }

  lemma FourBytes()
    ensures ToNat(4) == 4
  {
  }

  /** Which of `keys` are due for a resend, and which have failed. */
  ghost function SoFar(v: Session, keys: set<nat>, now: int): (set<nat>, set<nat>) {
    (set k | k in keys && k in v.pending && Resends(v.pending[k], now),
     set k | k in keys && k in v.pending && Fails(v.pending[k], now))
  }

  lemma NoneSoFar(v: Session, now: int)
    ensures SoFar(v, {}, now) == ({}, {})
  {
    assert SoFar(v, {}, now).0 == {} && SoFar(v, {}, now).1 == {};
  }

  lemma AllSoFar(v: Session, now: int)
    ensures SoFar(v, v.pending.Keys, now) == (ResendKeys(v, now), FailKeys(v, now))
  {
    hide Resends, Fails;
    assert SoFar(v, v.pending.Keys, now).0 == ResendKeys(v, now);
    assert SoFar(v, v.pending.Keys, now).1 == FailKeys(v, now);
  }

  lemma GrowByOne(v: Session, keys: set<nat>, k: nat, now: int)
    requires k in v.pending && k !in keys
    ensures var before, after := SoFar(v, keys, now), SoFar(v, keys + {k}, now);
            && |after.0| == |before.0| + (if Resends(v.pending[k], now) then 1 else 0)
            && |after.1| == |before.1| + (if Fails(v.pending[k], now) then 1 else 0)
  {
    hide Resends, Fails;
    var before, after := SoFar(v, keys, now), SoFar(v, keys + {k}, now);
    assert after.0 == if Resends(v.pending[k], now) then before.0 + {k} else before.0;
    assert after.1 == if Fails(v.pending[k], now) then before.1 + {k} else before.1;
  }

  /** `n` calls of send with the same frame. */
  ghost function PostCopies(w: Wire<Bytes>, frame: Bytes, n: nat): Wire<Bytes> {
    if n == 0 then w else Step(PostCopies(w, frame, n - 1), Event.Send(frame))
  }

  lemma NoCopies(w: Wire<Bytes>, frame: Bytes)
    ensures PostCopies(w, frame, 0) == w
  {
  }

  lemma RunOne(w: Wire<Bytes>, e: Event<Bytes>)
    ensures Run(w, [e]) == Step(w, e)
  {
    hide Step;
    assert [e][1..] == [];
    assert Run(w, [e]) == Run(Step(w, [e][0]), [e][1..]);
  }

  lemma {:induction false} CopiesAsRun(w: Wire<Bytes>, frame: Bytes, n: nat)
    ensures PostCopies(w, frame, n) == Run(w, Sends(Repeat(frame, n)))
    decreases n
  {
    hide Step;
    if n == 0 {
      assert Sends(Repeat(frame, 0)) == [];
    } else {
      CopiesAsRun(w, frame, n - 1);
      assert Sends(Repeat(frame, n)) == Sends(Repeat(frame, n - 1)) + [Event.Send(frame)];
      RunConcat(w, Sends(Repeat(frame, n - 1)), [Event.Send(frame)]);
      RunOne(PostCopies(w, frame, n - 1), Event.Send(frame));
    }
  }

  lemma CopiesThenFlush(w: Wire<Bytes>, frame: Bytes, n: nat)
    ensures Step(PostCopies(w, frame, n), Event.FlushAndDisconnect)
         == Run(w, Sends(Repeat(frame, n)) + [Event.FlushAndDisconnect])
  {
    hide Step, Run, PostCopies;
    CopiesAsRun(w, frame, n);
    RunConcat(w, Sends(Repeat(frame, n)), [Event.FlushAndDisconnect]);
    RunOne(PostCopies(w, frame, n), Event.FlushAndDisconnect);
  }

  /** Between the two states `sends` copies of `frame` and `closes` close requests were posted, and nothing else. */
  ghost predicate TimeoutsPosted(w: Wire<Bytes>, v: Wire<Bytes>, frame: Bytes, sends: nat, closes: nat) {
    && w.tasks <= v.tasks
    && |v.tasks| == |w.tasks| + sends + closes
    && v.posted == w.posted + Repeat(frame, sends)
    && TaskFrames(v.tasks) == TaskFrames(w.tasks) + Repeat(frame, sends)
    && v == w.(tasks := v.tasks, posted := v.posted)
  }

  /** The keys in ascending order, which is how the source's map is iterated. */
  ghost function InOrder(keys: set<nat>): (r: seq<nat>)
    ensures forall k :: k in r <==> k in keys
    ensures Rising(r)
    decreases |keys|
  {
    if keys == {} then [] else [Least(keys)] + InOrder(keys - {Least(keys)})
  }

  ghost predicate Rising(order: seq<nat>) {
    forall i, j :: 0 <= i < j < |order| ==> order[i] < order[j]
  }

  predicate IsLeast(keys: set<nat>, k: nat) {
    k in keys && forall j :: j in keys ==> k <= j
  }

  ghost function Least(keys: set<nat>): (k: nat)
    requires keys != {}
    ensures IsLeast(keys, k)
  {
    var x :| x in keys;
    LeastExists(keys, x);
    var k :| IsLeast(keys, k);
    k
  }

  lemma LeastExists(keys: set<nat>, x: nat)
    requires x in keys
    ensures exists k :: IsLeast(keys, k)
    decreases x
  {
    if j :| j in keys && j < x {
      LeastExists(keys, j);
    } else {
      assert IsLeast(keys, x);
    }
  }

  lemma InOrderStarts(keys: set<nat>, k: nat)
    requires IsLeast(keys, k)
    ensures InOrder(keys) == [k] + InOrder(keys - {k})
  {
    assert k == Least(keys);
  }

  ghost function Set(order: seq<nat>): set<nat> {
    set k | k in order
  }

  /** The loop has been through `order` and still has `todo` before it. */
  ghost predicate Halfway(keys: set<nat>, order: seq<nat>, todo: set<nat>) {
    todo == keys - Set(order) && Set(order) <= keys && InOrder(keys) == order + InOrder(todo)
  }

  lemma HalfwayStart(keys: set<nat>)
    ensures Set([]) == {} && Halfway(keys, [], keys)
  {
    assert [] + InOrder(keys) == InOrder(keys);
  }

  lemma HalfwayNext(keys: set<nat>, order: seq<nat>, todo: set<nat>, k: nat)
    requires Halfway(keys, order, todo) && IsLeast(todo, k)
    ensures k in keys && k !in order && Halfway(keys, order + [k], todo - {k})
  {
    hide InOrder, Rising;
    InOrderStarts(todo, k);
    assert Set(order + [k]) == Set(order) + {k};
    assert order + ([k] + InOrder(todo - {k})) == (order + [k]) + InOrder(todo - {k});
  }

  lemma HalfwayEnd(keys: set<nat>, order: seq<nat>)
    requires Halfway(keys, order, {})
    ensures order == InOrder(keys) && Set(order) == keys
  {
  }

  lemma LeastThere(keys: set<nat>)
    requires keys != {}
    ensures exists k :: k in keys && IsLeast(keys, k)
  {
    assert IsLeast(keys, Least(keys));
  }

  /** What the round for one entry posts. */
  ghost function Visit(p: Pending, frame: Bytes, now: int): seq<Task<Bytes>> {
    if Resends(p, now) then [SendTask(frame)] else if Fails(p, now) then [CloseTask] else []
  }

  /** What the rounds for the entries in `order` post. */
  ghost function Visits(v: Session, order: seq<nat>, frame: Bytes, now: int): seq<Task<Bytes>> {
    if order == [] then []
    else
      var k := order[|order| - 1];
      Visits(v, order[..|order| - 1], frame, now) + if k in v.pending then Visit(v.pending[k], frame, now) else []
  }

  /** What the rounds for `order` have posted. */
  ghost predicate Progress(w: Wire<Bytes>, v: Wire<Bytes>, frame: Bytes, v0: Session, order: seq<nat>, now: int) {
    && v.tasks == w.tasks + Visits(v0, order, frame, now)
    && TimeoutsPosted(w, v, frame, |SoFar(v0, Set(order), now).0|, |SoFar(v0, Set(order), now).1|)
  }

  lemma NothingPosted(w: Wire<Bytes>, frame: Bytes, v0: Session, now: int)
    ensures Progress(w, w, frame, v0, [], now)
  {
    assert Set([]) == {};
    NoneSoFar(v0, now);
  }

  lemma PostedOne(
    w: Wire<Bytes>, v: Wire<Bytes>, u: Wire<Bytes>, frame: Bytes, v0: Session, order: seq<nat>, k: nat, now: int)
    requires Progress(w, v, frame, v0, order, now) && k in v0.pending && k !in order
    requires u == if Resends(v0.pending[k], now) then Step(v, Event.Send(frame))
                  else if Fails(v0.pending[k], now) then Step(v, Event.Disconnect)
                  else v
    ensures Progress(w, u, frame, v0, order + [k], now)
  {
    hide SoFar, Resends, Fails;
    var p := v0.pending[k];
    var sends, closes := |SoFar(v0, Set(order), now).0|, |SoFar(v0, Set(order), now).1|;
    ResendsOrFails(p, now);
    GrowByOne(v0, Set(order), k, now);
    assert Set(order + [k]) == Set(order) + {k};
    assert (order + [k])[..|order|] == order;
    assert u.tasks == v.tasks + Visit(p, frame, now);
    TaskFramesSnoc(v.tasks, SendTask(frame));
    TaskFramesSnoc(v.tasks, CloseTask);
    assert Repeat(frame, sends + 1) == Repeat(frame, sends) + [frame];
  }

  lemma SameEntry(p: map<nat, Pending>, k: nat)
    requires k in p
    ensures p[k := p[k]] == p
  {
  }

  lemma ResendsOrFails(p: Pending, now: int)
    ensures !(Resends(p, now) && Fails(p, now))
  {
  }
}
