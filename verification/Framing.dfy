/**
 The byte stream between two TcpComm endpoints: what the read loop of src/core/comm/TcpComm.cpp delivers from
 an arbitrary stream, and what it delivers from the concatenated frames of a sender.
 */
module Framing {
  import opened ByteSerializer
  import opened BinaryMessageParser

  /** How a read loop stops: the stream ends (or is cut) inside a frame, or a frame fails its CRC. */
  datatype StreamEnd = Cut | BadFrame

  /** `skipped` counts completed reads whose parse result is null or of the wrong size: the silent branch. */
  datatype Deframed = Deframed(messages: seq<Message>, skipped: nat, end: StreamEnd)

  /** The number of bytes the reader waits for once it has a header. */
  function FrameSize(stream: Bytes): nat
    requires |stream| >= HEADER_SIZE
  {
    OVERHEAD + LengthField(stream)
  }

  /** Whether the stream starts with as many bytes as its first header announces. */
  predicate HasFrame(stream: Bytes) {
    |stream| >= HEADER_SIZE && |stream| >= FrameSize(stream)
  }

  function Deframe(stream: Bytes): Deframed {
    if !HasFrame(stream) then Deframed([], 0, Cut)
    else
      var size := FrameSize(stream);
      var rest := Deframe(stream[size..]);
      match Parse(stream[..size])
      case Corrupt => Deframed([], 0, BadFrame)
      case Parsed(m, consumed) =>
        if consumed == size then Deframed([m] + rest.messages, rest.skipped, rest.end)
        else rest.(skipped := rest.skipped + 1)
      case _ => rest.(skipped := rest.skipped + 1)
  }

  function Flatten(parts: seq<Bytes>): Bytes {
    if parts == [] then [] else parts[0] + Flatten(parts[1..])
  }

  function Frames(ms: seq<Message>): (r: seq<Bytes>)
    ensures |r| == |ms| && forall i :: 0 <= i < |ms| ==> r[i] == Frame(ms[i])
  {
    seq(|ms|, i requires 0 <= i < |ms| => Frame(ms[i]))
  }

  function Received(ms: seq<Message>): (r: seq<Message>)
    ensures |r| == |ms| && forall i :: 0 <= i < |ms| ==> r[i] == ms[i].Received()
  {
    seq(|ms|, i requires 0 <= i < |ms| => ms[i].Received())
  }

  ghost predicate Sendable(ms: seq<Message>) {
    forall m :: m in ms ==> m.WellFormed() && |m.payload| <= MAX_PAYLOAD
  }

  /** Every frame the stream completes announces a payload of at most `MAX_PAYLOAD` bytes. */
  ghost predicate InRange(stream: Bytes) {
    HasFrame(stream) ==> LengthField(stream) <= MAX_PAYLOAD && InRange(stream[FrameSize(stream)..])
  }

  function Max(a: nat, b: nat): nat {
    if a >= b then a else b
  }

  /** The largest frame size announced by a header that the read loop reads, that of an unfinished frame included. */
  function LargestFrame(stream: Bytes): nat {
    if |stream| < HEADER_SIZE then 0
    else if !HasFrame(stream) || Parse(stream[..FrameSize(stream)]).Corrupt? then FrameSize(stream)
    else Max(FrameSize(stream), LargestFrame(stream[FrameSize(stream)..]))
  }

  // ---------------------------------------------------------------- one frame

  /** A completed frame either parses or is corrupt, and is skipped exactly when its announced length is too large. */
  lemma WholeFrame(stream: Bytes)
    requires HasFrame(stream)
    ensures var p := Parse(stream[..FrameSize(stream)]);
            && (p.Parsed? || p.Corrupt?)
            && (p.Parsed? ==> (p.consumed == FrameSize(stream) <==> LengthField(stream) <= MAX_PAYLOAD))
  {
    hide ToNat, Wrap32, ReadU32, Fields, Crc32.Checksum;
    var f := stream[..FrameSize(stream)];
    assert f[..4] == stream[..4];
    U32Local(f, stream);
  }

  lemma FrameFirst(m: Message, rest: Bytes)
    requires m.WellFormed()
    ensures HasFrame(Frame(m) + rest) && FrameSize(Frame(m) + rest) == |Frame(m)|
    ensures (Frame(m) + rest)[..|Frame(m)|] == Frame(m) && (Frame(m) + rest)[|Frame(m)|..] == rest
  {
    hide Frame, LengthField, Fields;
    FieldsOfFrame(m);
    FieldsLocal(Frame(m), rest);
  }

  /** A frame at the head of the stream is delivered exactly when its payload fits `MAX_PAYLOAD`, else skipped. */
  lemma DeframeOne(m: Message, rest: Bytes)
    requires m.WellFormed()
    ensures var d := Deframe(rest);
            Deframe(Frame(m) + rest)
            == if |m.payload| <= MAX_PAYLOAD then Deframed([m.Received()] + d.messages, d.skipped, d.end)
               else d.(skipped := d.skipped + 1)
  {
    hide Frame, Parse, HasFrame, FrameSize;
    FrameFirst(m, rest);
    assert Frame(m) + [] == Frame(m);
    RoundTrip(m, []);
  }

  // ---------------------------------------------------------------- whole streams

  lemma FramesHead(ms: seq<Message>)
    requires ms != []
    ensures Flatten(Frames(ms)) == Frame(ms[0]) + Flatten(Frames(ms[1..]))
    ensures Received(ms) == [ms[0].Received()] + Received(ms[1..])
  {
    hide Frame, Message.Received;
    assert Frames(ms)[1..] == Frames(ms[1..]);
  }

  lemma NoFrames()
    ensures Flatten(Frames([])) == [] && Received([]) == []
  {
  }

  lemma Assoc<T>(a: seq<T>, b: seq<T>, c: seq<T>)
    ensures (a + b) + c == a + (b + c)
  {
  }

  /** Stream round trip: the frames of any sendable messages are delivered in order, whatever comes after them. */
  lemma {:induction false} StreamRoundTrip(ms: seq<Message>, rest: Bytes)
    requires Sendable(ms)
    ensures var d := Deframe(rest);
            Deframe(Flatten(Frames(ms)) + rest) == Deframed(Received(ms) + d.messages, d.skipped, d.end)
    decreases |ms|
  {
    hide Frame, Deframe, Received, Flatten, Message.WellFormed;
    if ms == [] {
      NoFrames();
      assert [] + rest == rest && [] + Deframe(rest).messages == Deframe(rest).messages;
    } else {
      FramesHead(ms);
      Assoc(Frame(ms[0]), Flatten(Frames(ms[1..])), rest);
      StreamRoundTrip(ms[1..], rest);
      DeframeOne(ms[0], Flatten(Frames(ms[1..])) + rest);
      Assoc([ms[0].Received()], Received(ms[1..]), Deframe(rest).messages);
    }
  }

  lemma ShortStream(m: Message, k: nat)
    requires m.WellFormed() && k < |Frame(m)|
    ensures Deframe(Frame(m)[..k]) == Deframed([], 0, Cut)
  {
    hide Frame, Parse, ReadU32;
    if k >= HEADER_SIZE {
      FieldsOfFrame(m);
      assert Frame(m)[..k][..4] == Frame(m)[..4];
      U32Local(Frame(m)[..k], Frame(m));
    }
  }

  lemma EmptyStream()
    ensures Deframe([]) == Deframed([], 0, Cut)
  {
  }

  /** How many leading messages have their whole frame within the first `k` bytes. */
  function WholeFrames(ms: seq<Message>, k: nat): (j: nat)
    ensures j <= |ms|
  {
    if ms == [] || k < |Frame(ms[0])| then 0 else 1 + WholeFrames(ms[1..], k - |Frame(ms[0])|)
  }

  lemma CutSplit(a: Bytes, b: Bytes, k: nat)
    requires |a| <= k <= |a + b|
    ensures (a + b)[..k] == a + b[..k - |a|]
  {
  }

  lemma ReceivedTake(ms: seq<Message>, j: nat)
    requires ms != [] && j <= |ms[1..]|
    ensures Received(ms[..1 + j]) == [ms[0].Received()] + Received(ms[1..][..j])
  {
    hide Message.Received;
  }

  /** A stream cut after any number of bytes delivers exactly the messages whose frames are complete. */
  lemma {:induction false} CutAnywhere(ms: seq<Message>, k: nat)
    requires Sendable(ms) && k <= |Flatten(Frames(ms))|
    ensures Deframe(Flatten(Frames(ms))[..k]) == Deframed(Received(ms[..WholeFrames(ms, k)]), 0, Cut)
    decreases |ms|
  {
    hide Frame, Deframe, Received, Flatten, Sendable, Message.WellFormed, Message.Received;
    if ms == [] {
      NoFrames();
      EmptyStream();
      assert Flatten(Frames(ms))[..k] == [] && ms[..0] == [];
    } else {
      FramesHead(ms);
      SendableParts(ms);
      if k < |Frame(ms[0])| {
        CutFirst(ms, k);
      } else {
        var rest := Flatten(Frames(ms[1..]));
        CutSplit(Frame(ms[0]), rest, k);
        CutAnywhere(ms[1..], k - |Frame(ms[0])|);
        DeframeOne(ms[0], rest[..k - |Frame(ms[0])|]);
        ReceivedTake(ms, WholeFrames(ms[1..], k - |Frame(ms[0])|));
      }
    }
  }

  lemma SendableParts(ms: seq<Message>)
    requires Sendable(ms) && ms != []
    ensures ms[0].WellFormed() && |ms[0].payload| <= MAX_PAYLOAD && Sendable(ms[1..])
  {
    hide Message.WellFormed;
  }

  lemma CutFirst(ms: seq<Message>, k: nat)
    requires ms != [] && ms[0].WellFormed() && k < |Frame(ms[0])|
    ensures k <= |Flatten(Frames(ms))|
    ensures Deframe(Flatten(Frames(ms))[..k]) == Deframed(Received(ms[..0]), 0, Cut)
  {
    hide Frame, Deframe, Received, Flatten, Message.WellFormed;
    FramesHead(ms);
    NoFrames();
    assert Flatten(Frames(ms))[..k] == Frame(ms[0])[..k] && ms[..0] == [];
    ShortStream(ms[0], k);
  }

  /** A corrupt frame ends the loop: what was whole before it is delivered, and nothing behind it ever is. */
  lemma CorruptionStops(ms: seq<Message>, bad: Bytes)
    requires Sendable(ms) && HasFrame(bad) && Parse(bad[..FrameSize(bad)]) == Corrupt
    ensures Deframe(Flatten(Frames(ms)) + bad) == Deframed(Received(ms), 0, BadFrame)
  {
    hide Frame, Received, Flatten, Sendable, Parse, FrameSize;
    StreamRoundTrip(ms, bad);
    assert Received(ms) + [] == Received(ms);
  }

  /** The buffer must hold every frame whose header arrives; for whole frames the largest of them is what it takes. */
  lemma HeaderIsAnnounced(stream: Bytes)
    requires |stream| >= HEADER_SIZE
    ensures LargestFrame(stream) >= FrameSize(stream)
    ensures |stream| < FrameSize(stream) ==> LargestFrame(stream) == FrameSize(stream)
  {
  }

  lemma {:induction false} LargestOfFrames(ms: seq<Message>)
    requires Sendable(ms)
    ensures var n := LargestFrame(Flatten(Frames(ms)));
            && (forall i :: 0 <= i < |ms| ==> |Frame(ms[i])| <= n)
            && (if ms == [] then n == 0 else exists i :: 0 <= i < |ms| && |Frame(ms[i])| == n)
    decreases |ms|
  {
    hide Frame, Flatten, Frames, Received, Sendable, Message.WellFormed, LargestFrame;
    if ms == [] {
      NoFrames();
      NothingAnnounced();
    } else {
      FramesHead(ms);
      SendableParts(ms);
      LargestOfFrames(ms[1..]);
      LargestFirst(ms[0], Flatten(Frames(ms[1..])));
      LargestSplit(ms, LargestFrame(Flatten(Frames(ms[1..]))));
    }
  }

  lemma LargestSplit(ms: seq<Message>, n: nat)
    requires ms != [] && forall i :: 0 <= i < |ms| - 1 ==> |Frame(ms[1..][i])| <= n
    requires if |ms| == 1 then n == 0 else exists i :: 0 <= i < |ms| - 1 && |Frame(ms[1..][i])| == n
    ensures var k := Max(|Frame(ms[0])|, n);
            && (forall i :: 0 <= i < |ms| ==> |Frame(ms[i])| <= k)
            && (exists i :: 0 <= i < |ms| && |Frame(ms[i])| == k)
  {
    hide Frame;
    forall i | 1 <= i < |ms|
      ensures |Frame(ms[i])| <= n
    {
      assert ms[i] == ms[1..][i - 1];
    }
    if n > |Frame(ms[0])| {
      var i :| 0 <= i < |ms| - 1 && |Frame(ms[1..][i])| == n;
      assert |Frame(ms[i + 1])| == n;
    } else {
      assert |Frame(ms[0])| == Max(|Frame(ms[0])|, n);
    }
  }

  lemma NothingAnnounced()
    ensures LargestFrame([]) == 0
  {
  }

  lemma LargestFirst(m: Message, rest: Bytes)
    requires m.WellFormed()
    ensures LargestFrame(Frame(m) + rest) == Max(|Frame(m)|, LargestFrame(rest))
  {
    hide Frame, Parse, HasFrame, FrameSize;
    FrameFirst(m, rest);
    assert Frame(m) + [] == Frame(m);
    RoundTrip(m, []);
  }

  /** Canonical decoding: printing what was delivered gives a prefix of the stream, and nothing was skipped. */
  lemma {:induction false} DeframeCanonical(stream: Bytes)
    requires InRange(stream)
    ensures var d := Deframe(stream);
            d.skipped == 0 && Flatten(Frames(d.messages)) <= stream && Sendable(d.messages)
    decreases |stream|
  {
    hide Frame, Parse, ReadU32, ToNat, Flatten, Message.Received, Message.WellFormed;
    NoFrames();
    if HasFrame(stream) {
      var size := FrameSize(stream);
      WholeFrame(stream);
      var p := Parse(stream[..size]);
      if p.Parsed? {
        DeframeCanonical(stream[size..]);
        ParseCanonical(stream[..size]);
        ParsedSize(stream[..size]);
        assert stream[..size][..4] == stream[..4];
        U32Local(stream[..size], stream);
        var rest := Deframe(stream[size..]).messages;
        FramesHead([p.message] + rest);
        assert ([p.message] + rest)[1..] == rest;
        assert stream == stream[..size] + stream[size..];
        assert Frame(p.message) == stream[..size];
      }
    }
  }

  lemma ParsedSize(data: Bytes)
    requires Parse(data).Parsed?
    ensures |data| >= HEADER_SIZE && |Parse(data).message.payload| == LengthField(data)
  {
    hide ToNat, Wrap32, ReadU16, ReadU32, ReadU64, Crc32.Checksum;
  }

  /** A stream of at most 2^32 - 1 bytes cannot complete an oversized frame, so `InRange` holds of it. */
  lemma {:induction false} ShortStreamsInRange(stream: Bytes)
    requires |stream| <= MAX_PAYLOAD + OVERHEAD
    ensures InRange(stream)
    decreases |stream|
  {
    if HasFrame(stream) {
      ShortStreamsInRange(stream[FrameSize(stream)..]);
    }
  }

  lemma HeaderStable(stream: Bytes, more: Bytes)
    requires HasFrame(stream)
    ensures HasFrame(stream + more) && FrameSize(stream + more) == FrameSize(stream)
    ensures (stream + more)[..FrameSize(stream)] == stream[..FrameSize(stream)]
    ensures (stream + more)[FrameSize(stream)..] == stream[FrameSize(stream)..] + more
  {
    hide ReadU32, ToNat;
    assert (stream + more)[..4] == stream[..4];
    U32Local(stream + more, stream);
  }

  /** Later bytes only add deliveries: what a prefix of the stream delivered is never revised. */
  lemma {:induction false} DeliveriesGrow(stream: Bytes, more: Bytes)
    ensures Deframe(stream).messages <= Deframe(stream + more).messages
    decreases |stream|
  {
    hide Parse, FrameSize;
    if HasFrame(stream) {
      var size := FrameSize(stream);
      assert size > 0 by { SizePositive(stream); }
      HeaderStable(stream, more);
      DeliveriesGrow(stream[size..], more);
    }
  }

  lemma SizePositive(stream: Bytes)
    requires HasFrame(stream)
    ensures 0 < FrameSize(stream) <= |stream|
  {
  }
}
