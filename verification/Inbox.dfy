/**
 What the controller makes of a message (src/controller/Controller.cpp:93-165, src/core/message/payload), and that the
 messages agents send reach it as the events they stand for.
 */
module Inbox {
  import opened Options
  import opened ByteSerializer
  import opened BinaryMessageParser
  import opened AgentCore
  import opened Agents
  import System

  function WordAt(payload: Bytes, at: nat, size: nat): Option<bv32>
    requires at + 4 <= size
  {
    if |payload| < size then None else Some(ReadU32(payload[at..]))
  }

  function Number(w: Option<bv32>): Option<nat> {
    if w.None? then None else Some(ToNat(w.value))
  }

  /** The message as an event; `float` is the value of an IEEE 754 single, which the model leaves open. */
  function Decode(m: Message, float: bv32 -> real): System.Inbound {
    if m.msgType == 0x0001 then System.Hello(Number(WordAt(m.payload, 0, 8)))
    else if m.msgType == 0x0002 then System.Heartbeat
    else if m.msgType == 0x0003 then
      var load := WordAt(m.payload, 4, 16);
      System.Report(if load.None? then None else Some(float(load.value)))
    else if m.msgType == 0x2001 then System.AckOf(Number(WordAt(m.payload, 0, 4)))
    else if m.msgType == 0x2002 then System.NackOf(Number(WordAt(m.payload, 0, 4)))
    else System.OtherType
  }

  /** What the controller sees of a message that was sent, whatever bytes follow it. */
  function Arrival(m: Message, rest: Bytes, float: bv32 -> real): Option<System.Inbound> {
    match Parse(Frame(m) + rest)
    case Parsed(r, _) => Some(Decode(r, float))
    case _ => None
  }

  /** Which payloads do not decode: those shorter than their type's fields.  A heartbeat needs none. */
  lemma UndecodableExactly(m: Message, float: bv32 -> real)
    ensures var r := Decode(m, float);
            && (r == System.Hello(None) <==> m.msgType == 0x0001 && |m.payload| < 8)
            && (r == System.Report(None) <==> m.msgType == 0x0003 && |m.payload| < 16)
            && (r == System.AckOf(None) <==> m.msgType == 0x2001 && |m.payload| < 4)
            && (r == System.NackOf(None) <==> m.msgType == 0x2002 && |m.payload| < 4)
            && (r == System.Heartbeat <==> m.msgType == 0x0002)
            && (r == System.OtherType <==> m.msgType !in {0x0001, 0x0002, 0x0003, 0x2001, 0x2002})
  {
  }

  lemma WireKeepsMeaning(m: Message, rest: Bytes, float: bv32 -> real)
    requires m.WellFormed()
    ensures Arrival(m, rest, float) == Some(Decode(m, float))
  {
    hide Parse, Frame, Message.WellFormed, WordAt;
    RoundTrip(m, rest);
  }

  // ---------------------------------------------------------------- replies

  lemma FirstWord(w: bv32, rest: Bytes)
    ensures ReadU32((WriteU32(w) + rest)[0..]) == w
  {
    assert (WriteU32(w) + rest)[0..] == WriteU32(w) + rest;
    U32RoundTrip(w, rest);
  }

  lemma FourLong()
    ensures ToNat(4) == 4 && ToNat(8) == 8 && ToNat(16) == 16 && ToNat(0) == 0
  {
  }

  lemma AckDecodes(agentId: bv32, cmdId: bv32, counter: bv32, timestamp: bv64, rest: Bytes, float: bv32 -> real)
    ensures Arrival(AckMessage(agentId, cmdId, counter, timestamp), rest, float)
         == Some(System.AckOf(Some(ToNat(cmdId))))
  {
    hide ToNat, ReadU32, WriteU32, Parse, Frame;
    FourLong();
    assert WriteU32(cmdId) + [] == WriteU32(cmdId);
    FirstWord(cmdId, []);
    WireKeepsMeaning(AckMessage(agentId, cmdId, counter, timestamp), rest, float);
  }

  lemma NackDecodes(
    agentId: bv32, cmdId: bv32, reason: Bytes, counter: bv32, timestamp: bv64, rest: Bytes, float: bv32 -> real)
    requires |reason| <= MAX_PAYLOAD - 4
    ensures Arrival(NackMessage(agentId, cmdId, reason, counter, timestamp), rest, float)
         == Some(System.NackOf(Some(ToNat(cmdId))))
  {
    hide ToNat, ReadU32, WriteU32, Parse, Frame;
    FirstWord(cmdId, reason);
    NackWellFormed(agentId, cmdId, reason, counter, timestamp);
    WireKeepsMeaning(NackMessage(agentId, cmdId, reason, counter, timestamp), rest, float);
  }

  lemma NackWellFormed(agentId: bv32, cmdId: bv32, reason: Bytes, counter: bv32, timestamp: bv64)
    requires |reason| <= MAX_PAYLOAD - 4
    ensures NackMessage(agentId, cmdId, reason, counter, timestamp).WellFormed()
  {
    hide ToNat, FromNat;
    ToFromNat(4 + |reason|);
  }

  lemma ReplyWellFormed(agentId: bv32, reply: Reply<bv32>, reason: Bytes, counter: bv32, timestamp: bv64)
    requires |reason| <= MAX_PAYLOAD - 4
    ensures ReplyMessage(agentId, reply, reason, counter, timestamp).WellFormed()
  {
    hide ToNat, FromNat, WriteU32;
    FourLong();
    NackWellFormed(agentId, reply.id, reason, counter, timestamp);
  }

  /**
   Replies arrive as what they are: whatever message `m` an agent in any state reacts to, the frame it sends in reply
   reaches the controller as an acknowledgement or refusal, as it reacted, of the very id of `m`, from this agent,
   under this counter and, if a refusal, with its reason.
   */
  lemma ReplyDecodes(
    a: Core<bv32>, m: Message, agentId: bv32, reason: Bytes, counter: bv32, timestamp: bv64, rest: Bytes,
    float: bv32 -> real)
    requires |reason| <= MAX_PAYLOAD - 4
    ensures var reply := React(a, m).reply;
            Arrival(ReplyMessage(agentId, reply, reason, counter, timestamp), rest, float)
            == Some(if reply.Ack? then System.AckOf(Some(ToNat(m.headerId)))
                    else System.NackOf(Some(ToNat(m.headerId))))
    ensures var r := Parse(Frame(ReplyMessage(agentId, React(a, m).reply, reason, counter, timestamp)) + rest);
            && r.Parsed? && r.message.agentId == agentId && r.message.headerId == counter
            && r.message.timestamp == timestamp && r.message.flags == 0
            && (React(a, m).reply.Nack? ==> r.message.payload == WriteU32(m.headerId) + reason)
  {
    hide React, Arrival, ToNat, Parse, Frame, Message.WellFormed;
    var r := ReplyMessage(agentId, React(a, m).reply, reason, counter, timestamp);
    assert r.WellFormed() by { ReplyWellFormed(agentId, React(a, m).reply, reason, counter, timestamp); }
    RoundTrip(r, rest);
    ReplyNamesMessage(a, m);
    AckDecodes(agentId, m.headerId, counter, timestamp, rest, float);
    NackDecodes(agentId, m.headerId, reason, counter, timestamp, rest, float);
  }

  // ---------------------------------------------------------------- the agent's own messages

  function HelloMessage(agentId: bv32, counter: bv32, timestamp: bv64): Message {
    Message(0x0001, 0, agentId, counter, timestamp, 8, WriteU32(agentId) + WriteU32(1), 0)
  }

  function HeartbeatMessage(agentId: bv32, counter: bv32, timestamp: bv64): Message {
    Message(0x0002, 0, agentId, counter, timestamp, 0, [], 0)
  }

  /** Mode, load, temperature and result code, each a 32-bit word. */
  function StateMessage(
    agentId: bv32, mode: bv32, load: bv32, temp: bv32, rc: bv32, counter: bv32, timestamp: bv64): Message
  {
    Message(0x0003, 0, agentId, counter, timestamp, 16,
            WriteU32(mode) + (WriteU32(load) + (WriteU32(temp) + WriteU32(rc))), 0)
  }

  /** An agent registers under its own id. */
  lemma HelloDecodes(agentId: bv32, counter: bv32, timestamp: bv64, rest: Bytes, float: bv32 -> real)
    ensures Arrival(HelloMessage(agentId, counter, timestamp), rest, float) == Some(System.Hello(Some(ToNat(agentId))))
  {
    hide ToNat, ReadU32, WriteU32, Parse, Frame;
    FourLong();
    FirstWord(agentId, WriteU32(1));
    WireKeepsMeaning(HelloMessage(agentId, counter, timestamp), rest, float);
  }

  lemma HeartbeatDecodes(agentId: bv32, counter: bv32, timestamp: bv64, rest: Bytes, float: bv32 -> real)
    ensures Arrival(HeartbeatMessage(agentId, counter, timestamp), rest, float) == Some(System.Heartbeat)
  {
    hide ToNat, Parse, Frame;
    FourLong();
    WireKeepsMeaning(HeartbeatMessage(agentId, counter, timestamp), rest, float);
  }

  /** The load reported is the second word of the state, not the mode or the temperature. */
  lemma StateDecodes(
    agentId: bv32, mode: bv32, load: bv32, temp: bv32, rc: bv32, counter: bv32, timestamp: bv64, rest: Bytes,
    float: bv32 -> real)
    ensures Arrival(StateMessage(agentId, mode, load, temp, rc, counter, timestamp), rest, float)
         == Some(System.Report(Some(float(load))))
  {
    hide ToNat, ReadU32, WriteU32, Parse, Frame;
    FourLong();
    var m := StateMessage(agentId, mode, load, temp, rc, counter, timestamp);
    assert m.payload[4..] == WriteU32(load) + (WriteU32(temp) + WriteU32(rc));
    U32RoundTrip(load, WriteU32(temp) + WriteU32(rc));
    WireKeepsMeaning(m, rest, float);
  }
}
