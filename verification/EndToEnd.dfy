/**
 From the controller's decisions to the mode of an agent that is fed bytes: the order of commands in the system model
 (CommandOrder.dfy) carried over the wire (Agent.dfy, TcpComm.dfy).
 */
module EndToEnd {
  import opened Options
  import opened ByteSerializer
  import opened BinaryMessageParser
  import opened Sessions
  import opened AgentCore
  import opened Agents
  import opened CommandOrder
  import opened Parity
  import opened Acknowledgements
  import Inbox

  /** The memory of an agent that has received the frames `h`, in order. */
  function Remembered(h: seq<Cmd<nat>>): Core<nat> {
    if h == [] then Core(System.SENTINEL, 0, 0) else Core(Last(h).id, Last(h).mode, 0)
  }

  /** Frames that were issued and are in order. */
  ghost predicate Orderly(h: seq<Cmd<nat>>, issued: seq<nat>) {
    Mono(h) && AllGood(h, issued)
  }

  lemma OrderlyFront(h: seq<Cmd<nat>>, n: nat, issued: seq<nat>)
    requires Orderly(h, issued) && n <= |h|
    ensures Orderly(h[..n], issued)
  {
  }

  /** A new agent process starts with the memory of an empty history. */
  lemma FreshProcess()
    ensures NatCore(Core(0xFFFF_FFFF, 0, 0)) == Remembered([]) == System.FRESH
  {
  }

  /** The one-slot check on the next frame: it refuses exactly the ids seen before, and remembers the frame. */
  lemma OneMore(h: seq<Cmd<nat>>, f: Cmd<nat>, issued: seq<nat>)
    requires Orderly(h + [f], issued) && |issued| <= System.SENTINEL
    ensures Handle(Remembered(h), f).core == Remembered(h + [f])
    ensures Handle(Remembered(h), f).reply.Nack? <==> Seen(h, f.id)
  {
    var fs, n := h + [f], |h|;
    assert GoodFrame(fs[n], issued);
    if n > 0 {
      assert fs[n - 1] == Last(h) && GoodFrame(fs[n - 1], issued);
      assert h[n - 1].id == Last(h).id;
      if Seen(h, f.id) {
        var i :| 0 <= i < n && h[i].id == f.id;
        assert fs[i].id <= fs[n - 1].id <= fs[n].id;
      }
    }
  }

  lemma {:induction false} RememberAll(h: seq<Cmd<nat>>, fs: seq<Cmd<nat>>, issued: seq<nat>)
    requires Orderly(h + fs, issued) && |issued| <= System.SENTINEL
    ensures HandleAll(Remembered(h), fs) == Remembered(h + fs)
    decreases |fs|
  {
    hide Remembered, Orderly, Handle;
    if fs == [] {
      assert h + [] == h;
    } else {
      var n := |fs| - 1;
      assert (h + fs)[..|h| + n] == h + fs[..n];
      OrderlyFront(h + fs, |h| + n, issued);
      RememberAll(h, fs[..n], issued);
      assert h + fs == (h + fs[..n]) + [fs[n]];
      OneMore(h + fs[..n], fs[n], issued);
    }
  }

  /** What a memory `Remembered(h)` says. */
  lemma RememberedMeans(h: seq<Cmd<nat>>, issued: seq<nat>)
    requires Orderly(h, issued) && h != []
    ensures var a := Remembered(h);
            && (forall i :: 0 <= i < |h| ==> h[i].id <= a.lastId)
            && a.lastId < |issued| && a.mode == issued[a.lastId]
  {
  }

  // ---------------------------------------------------------------- an agent fed bytes

  /**
   The setting.  In system state `s` agent `p` is connected; the messages `ms` posted on that connection carry the
   commands that the controller put on it; `core` is the memory of the agent process when it made the connection: that
   of a new process, Core(0xFFFF_FFFF, 0, 0), if it was the first, and see MemorySurvivesReconnect for the others.
   */
  ghost predicate Fed(s: System.State, p: nat, core: Core<bv32>, ms: seq<Message>, cs: seq<Cmd<bv32>>) {
    && p < |s.agents| && s.agents[p].conn.Some? && s.agents[p].conn.value < |s.conns|
    && s.agents[p].base <= |s.agents[p].received|
    && NatCore(core) == Remembered(s.agents[p].received[..s.agents[p].base])
    && AllCarry(ms, cs) && NatCmds(cs) == s.conns[s.agents[p].conn.value].sent
  }

  /** The messages the agent's read loop delivers when `k` bytes have arrived in run `ws` of the sender. */
  ghost function Delivered(ws: seq<WritePump.Event<Bytes>>, k: nat): seq<Message>
    requires var w := WritePump.Run(WritePump.Initial<Bytes>(), ws); k <= |Framing.Flatten(w.written + w.queue)|
  {
    var w := WritePump.Run(WritePump.Initial<Bytes>(), ws);
    Framing.Deframe(Framing.Flatten(w.written + w.queue)[..k]).messages
  }

  ghost predicate Sender(ws: seq<WritePump.Event<Bytes>>, ms: seq<Message>, k: nat) {
    var w := WritePump.Run(WritePump.Initial<Bytes>(), ws);
    w.posted == Framing.Frames(ms) && k <= |Framing.Flatten(w.written + w.queue)|
  }

  /** What the agent has received by then: all frames of earlier connections and the first `n` of this one. */
  ghost function History(s: System.State, p: nat, n: nat): seq<Cmd<nat>>
    requires p < |s.agents| && s.agents[p].conn.Some? && s.agents[p].conn.value < |s.conns|
    requires s.agents[p].base <= |s.agents[p].received| && n <= |s.conns[s.agents[p].conn.value].sent|
  {
    s.agents[p].received[..s.agents[p].base] + s.conns[s.agents[p].conn.value].sent[..n]
  }

  lemma HistoryInOrder(s: System.State, p: nat, n: nat)
    requires Inv(s) && p < |s.agents| && s.agents[p].conn.Some? && s.agents[p].conn.value < |s.conns|
    requires s.agents[p].base <= |s.agents[p].received| && n <= |s.conns[s.agents[p].conn.value].sent|
    ensures Orderly(History(s, p, n), s.issued)
  {
    hide MemoryOk, SlotsOk, SessionsOk;
    var a := s.agents[p];
    assert AgentOk(a, s.conns, s.issued);
    var fs, h := Stream(a, s.conns), History(s, p, n);
    assert forall i :: 0 <= i < |h| ==> h[i] == fs[i];
    assert FramesOk(s.conns, s.issued);
  }

  lemma DeliveredPrefix(ws: seq<WritePump.Event<Bytes>>, ms: seq<Message>, cs: seq<Cmd<bv32>>, k: nat)
    requires AllCarry(ms, cs) && Sender(ws, ms, k)
    ensures |Delivered(ws, k)| <= |ms| && Delivered(ws, k) == Framing.Received(ms)[..|Delivered(ws, k)|]
  {
    hide WritePump.Run, Framing.Deframe, Framing.Flatten, Frame, Carries, Message.Received;
    CommandsSendable(ms, cs);
    TcpComm.PeerSeesPrefix(ws, ms, k);
  }

  /** The agent's memory after the first `n` messages. */
  lemma MemoryAfter(
    s: System.State, p: nat, core: Core<bv32>, ms: seq<Message>, cs: seq<Cmd<bv32>>, n: nat)
    requires Inv(s) && System.Bounded(s) && Fed(s, p, core, ms, cs) && n <= |ms|
    ensures NatCore(ReactAll(core, Framing.Received(ms)[..n])) == Remembered(History(s, p, n))
  {
    hide Inv, ReactAll, HandleAll, NatCore, Remembered, Orderly, Carries, React, Message.Received, NatCmd;
    assert Framing.Received(ms)[..n] == Framing.Received(ms[..n]);
    ReactsToCommands(core, ms[..n], cs[..n]);
    NumbersWillDoAll(core, cs[..n]);
    assert NatCmds(cs[..n]) == NatCmds(cs)[..n];
    HistoryInOrder(s, p, n);
    RememberAll(s.agents[p].received[..s.agents[p].base], NatCmds(cs)[..n], s.issued);
  }

  /** The agent's reply to message `i`. */
  lemma ReplyTo(
    s: System.State, p: nat, core: Core<bv32>, ms: seq<Message>, cs: seq<Cmd<bv32>>, i: nat)
    requires Inv(s) && System.Bounded(s) && Fed(s, p, core, ms, cs) && i < |ms|
    ensures React(ReactAll(core, Framing.Received(ms)[..i]), Framing.Received(ms)[i]).reply.Nack?
            <==> Seen(History(s, p, i), ToNat(ms[i].headerId))
  {
    hide Inv, ReactAll, NatCore, Remembered, Orderly, React, Message.Received, Message.WellFormed, WriteU32, ToNat;
    MemoryAfter(s, p, core, ms, cs, i);
    HistoryInOrder(s, p, i + 1);
    var before, f := ReactAll(core, Framing.Received(ms)[..i]), NatCmds(cs)[i];
    assert Carries(ms[i], cs[i]);
    CommandSurvivesWire(before, ms[i], cs[i]);
    NumbersWillDo(before, cs[i]);
    assert History(s, p, i + 1) == History(s, p, i) + [f];
    OneMore(History(s, p, i), f, s.issued);
  }

  /**
   Latest mode wins, over bytes.  In every bounded run of the system, every run of the sender's write pump, and
   wherever the byte stream is cut, the agent's read loop delivers the first `n` command frames put on its connection.
   Its memory is then that of the last frame of its history: the highest id it has received, with the mode issued
   under it, which is 1 exactly for an even id.  It refused message `i` exactly when its id was in the history
   before.  And if all frames have arrived, that last command is the last one issued to the connection's session,
   whether that session is still registered or not.
   */
  lemma LatestModeWinsOverBytes(
    setup: System.Setup, es: seq<System.Event>, p: nat, core: Core<bv32>, ms: seq<Message>, cs: seq<Cmd<bv32>>,
    ws: seq<WritePump.Event<Bytes>>, k: nat)
    requires var s := System.Run(System.Initial(setup), es); System.Bounded(s) && Fed(s, p, core, ms, cs)
    requires Sender(ws, ms, k)
    ensures var s := System.Run(System.Initial(setup), es);
            var messages := Delivered(ws, k);
            var n, sent := |messages|, s.conns[s.agents[p].conn.value].sent;
            && n <= |sent|
            && var h, a := History(s, p, n), NatCore(ReactAll(core, messages));
               && a == Remembered(h) && Orderly(h, s.issued)
               && (h != [] ==>
                     && (forall i :: 0 <= i < |h| ==> h[i].id <= a.lastId)
                     && a.lastId < |s.issued| && a.mode == s.issued[a.lastId] && (a.mode == 1 <==> a.lastId % 2 == 0))
               && (forall i :: 0 <= i < n ==>
                     (React(ReactAll(core, messages[..i]), messages[i]).reply.Nack? <==>
                        Seen(History(s, p, i), sent[i].id)))
               && (n == |sent| ==> LastOfSession(s, s.agents[p].conn.value, a))
  {
    hide System.Run, Inv, ReactAll, NatCore, Remembered, Orderly, Fed, LastOfSession, Delivered, React;
    hide Message.Received, Framing.Flatten, WritePump.Run;
    var s := System.Run(System.Initial(setup), es);
    Reachable(setup, es);
    FedMeans(s, p, core, ms, cs);
    DeliveredPrefix(ws, ms, cs, k);
    var messages := Delivered(ws, k);
    var n := |messages|;
    MemoryAfter(s, p, core, ms, cs, n);
    HistoryInOrder(s, p, n);
    var h := History(s, p, n);
    if h != [] {
      RememberedMeans(h, s.issued);
      OverloadIsParity(setup, es);
    }
    forall i | 0 <= i < n
      ensures React(ReactAll(core, messages[..i]), messages[i]).reply.Nack? <==>
                Seen(History(s, p, i), NatCmds(cs)[i].id)
    {
      assert messages[..i] == Framing.Received(ms)[..i];
      ReplyTo(s, p, core, ms, cs, i);
      assert NatCmds(cs)[i].id == ToNat(ms[i].headerId) by { CarriedId(ms, cs, i); }
    }
    if n == |ms| {
      LastRead(s, p);
    }
  }

  /** The memory is that of the last command in the ledger of the session made for connection `c`, if there is any. */
  ghost predicate LastOfSession(s: System.State, c: nat, a: Core<nat>) {
    && c < |s.conns|
    && (s.conns[c].context.Some? ==>
          var sid := s.conns[c].context.value;
          && sid < |s.sessions|
          && (s.sessions[sid].ledger != map[] ==>
                a.lastId in s.sessions[sid].ledger && forall k :: k in s.sessions[sid].ledger ==> k <= a.lastId))
  }

  lemma LastRead(s: System.State, p: nat)
    requires Inv(s) && p < |s.agents| && s.agents[p].conn.Some? && s.agents[p].conn.value < |s.conns|
    requires s.agents[p].base <= |s.agents[p].received|
    ensures var c := s.agents[p].conn.value;
            LastOfSession(s, c, Remembered(History(s, p, |s.conns[c].sent|)))
  {
    hide Inv, LedgerOk, TimesOk, GoodFrame;
    var c := s.agents[p].conn.value;
    if s.conns[c].context.Some? {
      BoundSlot(s, c);
      var ledger := s.sessions[s.conns[c].context.value].ledger;
      if ledger != map[] {
        var k :| k in ledger;
        assert Last(History(s, p, |s.conns[c].sent|)) == Last(s.conns[c].sent);
      }
    }
  }

  lemma FedMeans(s: System.State, p: nat, core: Core<bv32>, ms: seq<Message>, cs: seq<Cmd<bv32>>)
    requires Fed(s, p, core, ms, cs)
    ensures p < |s.agents| && s.agents[p].conn.Some? && s.agents[p].conn.value < |s.conns|
    ensures s.agents[p].base <= |s.agents[p].received| && AllCarry(ms, cs)
    ensures NatCmds(cs) == s.conns[s.agents[p].conn.value].sent && |ms| == |cs|
  {
  }

  lemma CarriedId(ms: seq<Message>, cs: seq<Cmd<bv32>>, i: nat)
    requires AllCarry(ms, cs) && i < |ms|
    ensures NatCmds(cs)[i].id == ToNat(ms[i].headerId)
  {
    assert Carries(ms[i], cs[i]);
  }

  /**
   The setting is entered again at every reconnect: if the system's agent has read as many frames as arrived, then
   after a reconnect the memory is the one with which the next connection starts.
   */
  lemma MemorySurvivesReconnect(
    setup: System.Setup, es: seq<System.Event>, p: nat, core: Core<bv32>, ms: seq<Message>, cs: seq<Cmd<bv32>>,
    ws: seq<WritePump.Event<Bytes>>, k: nat)
    requires var s := System.Run(System.Initial(setup), es);
             && System.Bounded(s) && Fed(s, p, core, ms, cs) && Sender(ws, ms, k)
             && |s.agents[p].received| == s.agents[p].base + |Delivered(ws, k)|
    ensures var s := System.Run(System.Initial(setup), es);
            var t := System.Step(s, System.Connect(p));
            && p < |t.agents| && t.agents[p].base <= |t.agents[p].received|
            && NatCore(ReactAll(core, Delivered(ws, k))) == Remembered(t.agents[p].received[..t.agents[p].base])
  {
    hide System.Run, Inv, ReactAll, NatCore, Remembered, Orderly, Fed, LastOfSession, Delivered, Sender, React;
    var s := System.Run(System.Initial(setup), es);
    FedMeans(s, p, core, ms, cs);
    LatestModeWinsOverBytes(setup, es, p, core, ms, cs, ws, k);
    Reachable(setup, es);
    ReadSoFar(s, p);
  }

  lemma ReadSoFar(s: System.State, p: nat)
    requires Inv(s) && p < |s.agents| && s.agents[p].conn.Some? && s.agents[p].conn.value < |s.conns|
    requires s.agents[p].base <= |s.agents[p].received|
    ensures var a := s.agents[p];
            var n := |a.received| - a.base;
            && n <= |s.conns[a.conn.value].sent| && History(s, p, n) == a.received
            && a.received[..|a.received|] == a.received
  {
    hide MemoryOk, SlotsOk, SessionsOk, Mono, AllGood;
    var a := s.agents[p];
    assert AgentOk(a, s.conns, s.issued);
    assert a.received <= Stream(a, s.conns);
  }

  // ---------------------------------------------------------------- replies

  /** The message with which the agent answers the `i`-th message it got on the connection. */
  function Answer(
    core: Core<bv32>, messages: seq<Message>, i: nat, agentId: bv32, reason: Bytes, counter: bv32, timestamp: bv64)
    : Message
    requires i < |messages|
  {
    ReplyMessage(agentId, React(ReactAll(core, messages[..i]), messages[i]).reply, reason, counter, timestamp)
  }

  /**
   Replies, over bytes: in the setting above, the agent's answer to the `i`-th frame it got, sent back and read by the
   controller, is an acknowledgement of the id of the `i`-th frame that the controller put on the connection, or a
   refusal of it if the agent had received that id before.  If the agent has read that frame in the system model, the
   answer is honest there, which is what AcknowledgedMeansApplied asks for.
   */
  lemma RepliesNameFrames(
    setup: System.Setup, es: seq<System.Event>, p: nat, core: Core<bv32>, ms: seq<Message>, cs: seq<Cmd<bv32>>,
    ws: seq<WritePump.Event<Bytes>>, k: nat, i: nat,
    agentId: bv32, reason: Bytes, counter: bv32, timestamp: bv64, rest: Bytes, float: bv32 -> real)
    requires var s := System.Run(System.Initial(setup), es); System.Bounded(s) && Fed(s, p, core, ms, cs)
    requires Sender(ws, ms, k) && i < |Delivered(ws, k)| && |reason| <= MAX_PAYLOAD - 4
    ensures var s := System.Run(System.Initial(setup), es);
            var c := s.agents[p].conn.value;
            && i < |s.conns[c].sent|
            && var id := s.conns[c].sent[i].id;
               var answer := Inbox.Arrival(Answer(core, Delivered(ws, k), i, agentId, reason, counter, timestamp), rest,
                                           float);
               && answer == Some(if Seen(History(s, p, i), id) then System.NackOf(Some(id)) else System.AckOf(Some(id)))
               && (i < |s.agents[p].received| - s.agents[p].base ==> HonestStep(s, System.Receive(c, answer.value)))
  {
    hide System.Run, Inv, ReactAll, NatCore, Remembered, Orderly, Fed, Delivered, React, Message.Received, ToNat;
    hide Framing.Flatten, WritePump.Run, Inbox.Arrival, ReplyMessage, ReadOn;
    var s := System.Run(System.Initial(setup), es);
    Reachable(setup, es);
    FedMeans(s, p, core, ms, cs);
    DeliveredPrefix(ws, ms, cs, k);
    var messages := Delivered(ws, k);
    assert messages[..i] == Framing.Received(ms)[..i];
    ReplyTo(s, p, core, ms, cs, i);
    CarriedId(ms, cs, i);
    assert messages[i].headerId == ms[i].headerId by { SameHeader(ms, i); }
    Inbox.ReplyDecodes(ReactAll(core, messages[..i]), messages[i], agentId, reason, counter, timestamp, rest, float);
    if i < |s.agents[p].received| - s.agents[p].base {
      ReadOnConnection(setup, es, p, i);
    }
  }

  lemma SameHeader(ms: seq<Message>, i: nat)
    requires i < |ms|
    ensures Framing.Received(ms)[i].headerId == ms[i].headerId
  {
  }

  lemma ReadOnConnection(setup: System.Setup, es: seq<System.Event>, p: nat, i: nat)
    requires System.Bounded(System.Run(System.Initial(setup), es))
    requires var s := System.Run(System.Initial(setup), es);
             && p < |s.agents| && s.agents[p].conn.Some? && s.agents[p].conn.value < |s.conns|
             && s.agents[p].base <= |s.agents[p].received| && i < |s.agents[p].received| - s.agents[p].base
             && i < |s.conns[s.agents[p].conn.value].sent|
    ensures var s := System.Run(System.Initial(setup), es);
            var c := s.agents[p].conn.value;
            ReadOn(s, c, s.conns[c].sent[i].id)
  {
    hide System.Run, Inv;
    var s := System.Run(System.Initial(setup), es);
    InitialEarned(setup);
    RunKeepsReadsSent(System.Initial(setup), es);
    Reachable(setup, es);
    ReadSoFar(s, p);
    var a := s.agents[p];
    var c, j := a.conn.value, a.base + i;
    assert AgentReadsSent(s, p);
    assert a.readOn[j] == c;
    assert a.received[j] == History(s, p, |a.received| - a.base)[j] == s.conns[c].sent[i];
    assert ReadBy(s, p, c, s.conns[c].sent[i].id);
  }
}
