/** The agent's command handling (src/agent/Agent.cpp:150-189). */
module Agents {
  import opened Constants
  import opened ByteSerializer
  import opened BinaryMessageParser
  import opened Sessions
  import opened AgentCore
  import opened Framing
  import WritePump
  import TcpComm

  const TYPE_ACK: bv16 := 0x2001
  const TYPE_NACK: bv16 := 0x2002

  /** A decoded message of any type.  The duplicate memory is written before the payload is read. */
  function React(a: Core<bv32>, m: Message): Reaction<bv32> {
    if m.msgType != CMD_SET_MODE then Reaction(a, Nack(m.headerId))
    else if m.headerId == a.lastId then Reaction(a, Nack(m.headerId))
    else if |m.payload| < 4 then Reaction(Core(m.headerId, a.mode, -1), Nack(m.headerId))
    else Handle(a, Cmd(m.headerId, ReadU32(m.payload)))
  }

  /** The CMD_SET_MODE message a session sends for a command. */
  predicate Carries(m: Message, c: Cmd<bv32>) {
    m.WellFormed() && m.msgType == CMD_SET_MODE && m.headerId == c.id && m.payload == WriteU32(c.mode)
  }

  /** The command survives the wire: the agent reacts to the received frame as to the command itself. */
  lemma CommandSurvivesWire(a: Core<bv32>, m: Message, c: Cmd<bv32>)
    requires Carries(m, c)
    ensures React(a, m.Received()) == Handle(a, c)
  {
    assert WriteU32(c.mode) + [] == WriteU32(c.mode);
    U32RoundTrip(c.mode, []);
  }

  /** The agent's memory after a list of messages. */
  function ReactAll(a: Core<bv32>, ms: seq<Message>): Core<bv32> {
    if ms == [] then a else React(ReactAll(a, ms[..|ms| - 1]), ms[|ms| - 1]).core
  }

  ghost predicate AllCarry(ms: seq<Message>, cs: seq<Cmd<bv32>>) {
    |ms| == |cs| && forall i :: 0 <= i < |ms| ==> Carries(ms[i], cs[i])
  }

  lemma {:induction false} ReactsToCommands(a: Core<bv32>, ms: seq<Message>, cs: seq<Cmd<bv32>>)
    requires AllCarry(ms, cs)
    ensures ReactAll(a, Received(ms)) == HandleAll(a, cs)
    decreases |ms|
  {
    hide React, Carries, Message.Received;
    if ms != [] {
      var n := |ms| - 1;
      ReactsToCommands(a, ms[..n], cs[..n]);
      assert Received(ms)[..n] == Received(ms[..n]);
      CommandSurvivesWire(HandleAll(a, cs[..n]), ms[n], cs[n]);
    }
  }

  lemma CommandsSendable(ms: seq<Message>, cs: seq<Cmd<bv32>>)
    requires AllCarry(ms, cs)
    ensures Sendable(ms)
  {
    hide Message.WellFormed, WriteU32;
    forall m | m in ms
      ensures m.WellFormed() && |m.payload| <= MAX_PAYLOAD
    {
      var i :| 0 <= i < |ms| && ms[i] == m;
      assert Carries(ms[i], cs[i]);
    }
  }

  /**
   From a session's send to the agent's mode: if the messages posted on a connection carry the commands `cs`, then in
   every run of the sender, and wherever the byte stream is cut, the agent's memory is that of an agent given some
   first commands of `cs` directly.  This is what lets the system model pass commands instead of bytes.
   */
  lemma BytesRefineCommands(
    es: seq<WritePump.Event<Bytes>>, ms: seq<Message>, cs: seq<Cmd<bv32>>, k: nat, a: Core<bv32>)
    requires AllCarry(ms, cs) && WritePump.Run(WritePump.Initial<Bytes>(), es).posted == Frames(ms)
    requires var w := WritePump.Run(WritePump.Initial<Bytes>(), es); k <= |Flatten(w.written + w.queue)|
    ensures var w := WritePump.Run(WritePump.Initial<Bytes>(), es);
            var d := Deframe(Flatten(w.written + w.queue)[..k]);
            && |d.messages| <= |cs| && d.skipped == 0 && d.end == Cut
            && ReactAll(a, d.messages) == HandleAll(a, cs[..|d.messages|])
  {
    hide WritePump.Run, Deframe, Flatten, Frame, Carries, React, Message.Received;
    CommandsSendable(ms, cs);
    TcpComm.PeerSeesPrefix(es, ms, k);
    var w := WritePump.Run(WritePump.Initial<Bytes>(), es);
    var d := Deframe(Flatten(w.written + w.queue)[..k]);
    var n := |d.messages|;
    assert d.messages == Received(ms)[..n] == Received(ms[..n]);
    ReactsToCommands(a, ms[..n], cs[..n]);
  }

  /** message_counters_[type]++, wrapping at 32 bits. */
  function Next(counter: bv32): bv32 {
    counter + 1
  }

  /** Counters go up by one, and from the largest word back to 0. */
  lemma CountersStep(counter: bv32)
    ensures Next(counter) - counter == 1 && Next(0) == 1 && Next(0xFFFF_FFFF) == 0
  {
  }

  function NatCmd(c: Cmd<bv32>): Cmd<nat> {
    Cmd(ToNat(c.id), ToNat(c.mode))
  }

  function NatCore(a: Core<bv32>): Core<nat> {
    Core(ToNat(a.lastId), ToNat(a.mode), a.rc)
  }

  function NatReply(r: Reply<bv32>): Reply<nat> {
    match r
    case Ack(id) => Ack(ToNat(id))
    case Nack(id) => Nack(ToNat(id))
  }

  /** Reading the 32-bit words as numbers changes nothing the agent does. */
  lemma NumbersWillDo(a: Core<bv32>, c: Cmd<bv32>)
    ensures var r := Handle(a, c);
            Handle(NatCore(a), NatCmd(c)) == Reaction(NatCore(r.core), NatReply(r.reply))
  {
    hide ToNat;
    FromToNat(a.lastId);
    FromToNat(c.id);
  }

  function NatCmds(cs: seq<Cmd<bv32>>): (r: seq<Cmd<nat>>)
    ensures |r| == |cs| && forall i :: 0 <= i < |cs| ==> r[i] == NatCmd(cs[i])
  {
    seq(|cs|, i requires 0 <= i < |cs| => NatCmd(cs[i]))
  }

  lemma {:induction false} NumbersWillDoAll(a: Core<bv32>, cs: seq<Cmd<bv32>>)
    ensures NatCore(HandleAll(a, cs)) == HandleAll(NatCore(a), NatCmds(cs))
    decreases |cs|
  {
    hide NatCmd, NatCore, Handle;
    if cs != [] {
      var n := |cs| - 1;
      NumbersWillDoAll(a, cs[..n]);
      assert NatCmds(cs)[..n] == NatCmds(cs[..n]);
      NumbersWillDo(HandleAll(a, cs[..n]), cs[n]);
    }
  }

  function AckMessage(agentId: bv32, cmdId: bv32, headerId: bv32, timestamp: bv64): Message {
    Message(TYPE_ACK, 0, agentId, headerId, timestamp, 4, WriteU32(cmdId), 0)
  }

  function NackMessage(agentId: bv32, cmdId: bv32, reason: Bytes, headerId: bv32, timestamp: bv64): Message {
    var payload := WriteU32(cmdId) + reason;
    Message(TYPE_NACK, 0, agentId, headerId, timestamp, FromNat(|payload|), payload, 0)
  }

  /** The message sent in reply; `counter` is the reply type's own. */
  function ReplyMessage(agentId: bv32, reply: Reply<bv32>, reason: Bytes, counter: bv32, timestamp: bv64): Message {
    match reply
    case Ack(id) => AckMessage(agentId, id, counter, timestamp)
    case Nack(id) => NackMessage(agentId, id, reason, counter, timestamp)
  }

  // ---------------------------------------------------------------- what the agent does with a message

  /** Messages of any type but CMD_SET_MODE, and duplicates, are refused and leave no trace. */
  lemma RefusedWithoutTrace(a: Core<bv32>, m: Message)
    ensures m.msgType != 0x1003 || m.headerId == a.lastId <==> React(a, m) == Reaction(a, Nack(m.headerId))
  {
  }

  /**
   A command with an unreadable payload is refused too, but its id counts as seen: the mode stays, the result code says
   failure, and the same command sent again intact is refused as a duplicate.
   */
  lemma UnreadableCommandIsRemembered(a: Core<bv32>, bad: Message, good: Message)
    requires bad.msgType == 0x1003 && |bad.payload| < 4 && bad.headerId != a.lastId
    requires good.msgType == 0x1003 && good.headerId == bad.headerId
    ensures React(a, bad) == Reaction(Core(bad.headerId, a.mode, -1), Nack(bad.headerId))
    ensures React(React(a, bad).core, good) == Reaction(React(a, bad).core, Nack(good.headerId))
  {
  }

  /** A new command is obeyed: mode, memory and result code are set, and the reply is an ACK. */
  lemma NewCommandIsObeyed(a: Core<bv32>, m: Message, mode: bv32, rest: Bytes)
    requires m.msgType == 0x1003 && m.headerId != a.lastId && m.payload == WriteU32(mode) + rest
    ensures React(a, m) == Reaction(Core(m.headerId, mode, 0), Ack(m.headerId))
  {
    U32RoundTrip(mode, rest);
  }

  lemma ReplyNamesMessage(a: Core<bv32>, m: Message)
    ensures React(a, m).reply.id == m.headerId
  {
  }

  class Agent {
    const agentId: bv32
    var currentMode: bv32
    var lastCmdRc: int
    var cmdSetModeHeaderId: bv32
    /** message_counters_ for the two reply types. */
    var ackCounter: bv32
    var nackCounter: bv32
    var conn: TcpComm.TcpComm?

    function Memory(): Core<bv32>
      reads this
    {
      Core(cmdSetModeHeaderId, currentMode, lastCmdRc)
    }

    constructor (agentId: bv32)
      ensures Memory() == Core(0xFFFF_FFFF, 0, 0) && conn == null && this.agentId == agentId
    {
      this.agentId := agentId;
      currentMode, lastCmdRc, cmdSetModeHeaderId := 0, 0, 0xFFFF_FFFF;
      ackCounter, nackCounter, conn := 0, 0, null;
    }

    method SendAck(cmdId: bv32, timestamp: bv64)
      modifies this`ackCounter, conn
      ensures ackCounter == Next(old(ackCounter))
      ensures conn != null ==>
                conn.State() == WritePump.Step(
                  old(conn.State()), WritePump.Send(Frame(AckMessage(agentId, cmdId, old(ackCounter), timestamp))))
    {
      var headerId := ackCounter;
      ackCounter := Next(ackCounter);
      if conn != null {
        conn.Send(AckMessage(agentId, cmdId, headerId, timestamp));
      }
    }

    method SendNack(cmdId: bv32, reason: Bytes, timestamp: bv64)
      modifies this`nackCounter, conn
      ensures nackCounter == Next(old(nackCounter))
      ensures conn != null ==>
                conn.State() == WritePump.Step(
                  old(conn.State()),
                  WritePump.Send(Frame(NackMessage(agentId, cmdId, reason, old(nackCounter), timestamp))))
    {
      var headerId := nackCounter;
      nackCounter := Next(nackCounter);
      if conn != null {
        conn.Send(NackMessage(agentId, cmdId, reason, headerId, timestamp));
      }
    }

    /** onMessage: one reply is sent for every message, and mode and memory change as `React` says. */
    method OnMessage(m: Message, reason: Bytes, timestamp: bv64)
      modifies this, conn
      ensures conn == old(conn)
      ensures Memory() == React(old(Memory()), m).core
      ensures var reply := React(old(Memory()), m).reply;
              && ackCounter == (if reply.Ack? then Next(old(ackCounter)) else old(ackCounter))
              && nackCounter == (if reply.Nack? then Next(old(nackCounter)) else old(nackCounter))
              && (conn != null ==>
                    conn.State() == WritePump.Step(old(conn.State()), WritePump.Send(Frame(
                      ReplyMessage(agentId, reply, reason, if reply.Ack? then old(ackCounter) else old(nackCounter),
                                   timestamp)))))
    {
      hide Frame, ReadU32, WritePump.Step, NackMessage, AckMessage, Next;
      if m.msgType == CMD_SET_MODE {
        if m.headerId == cmdSetModeHeaderId {
          SendNack(m.headerId, reason, timestamp);
          return;
        }
        cmdSetModeHeaderId := m.headerId;
        if |m.payload| < 4 {
          lastCmdRc := -1;
          SendNack(m.headerId, reason, timestamp);
        } else {
          currentMode := ReadU32(m.payload);
          lastCmdRc := 0;
          SendAck(m.headerId, timestamp);
        }
      } else {
        SendNack(m.headerId, reason, timestamp);
      }
    }
  }
}
