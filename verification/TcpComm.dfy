/** One TCP connection endpoint (src/core/comm/TcpComm.cpp). */
module TcpComm {
  import opened ByteSerializer
  import opened BinaryMessageParser
  import opened Framing
  import opened WritePump
  import opened Options

  class TcpComm {
    /** Work posted to the executor and not yet run. */
    var tasks: seq<Task<Bytes>>
    var writeQueue: seq<Bytes>
    var isShuttingDown: bool
    var socketOpen: bool
    /** Reused for every frame; it only ever grows. */
    var readBuffer: array<bv8>

    ghost var inFlight: seq<Bytes>
    ghost var posted: seq<Bytes>
    ghost var written: seq<Bytes>
    ghost var started: nat
    ghost var errors: nat
    ghost var mark: Option<nat>

    ghost function State(): Wire<Bytes>
      reads this
    {
      Wire(tasks, writeQueue, inFlight, isShuttingDown, socketOpen, posted, written, started, errors, mark)
    }

    constructor ()
      ensures State() == Initial<Bytes>()
      ensures fresh(readBuffer) && readBuffer.Length == 8192
    {
      tasks, writeQueue, isShuttingDown, socketOpen := [], [], false, true;
      readBuffer := new bv8[8192];
      inFlight, posted, written, started, errors, mark := [], [], [], 0, 0, None;
    }

    /** send: the message is serialised at the call, so what is posted is a snapshot of it. */
    method Send(m: Message)
      modifies this
      ensures State() == Step(old(State()), Event.Send(Frame(m)))
      ensures readBuffer == old(readBuffer)
    {
      var encoded := Serialize(m);
      tasks := tasks + [SendTask(encoded)];
      posted := posted + [encoded];
    }

    method Disconnect()
      modifies this
      ensures State() == Step(old(State()), Event.Disconnect)
      ensures readBuffer == old(readBuffer)
    {
      tasks := tasks + [CloseTask];
    }

    method FlushAndDisconnect()
      modifies this
      ensures State() == Step(old(State()), Event.FlushAndDisconnect)
      ensures readBuffer == old(readBuffer)
    {
      tasks := tasks + [FlushTask];
      mark := if mark.None? then Some(|posted|) else mark;
    }

    method WritePump()
      requires writeQueue != []
      modifies this
      ensures State() == Pump(old(State()))
      ensures readBuffer == old(readBuffer)
    {
      inFlight := inFlight + [writeQueue[0]];
      started := started + 1;
    }

    /** The executor runs the oldest posted task. */
    method RunTask()
      requires tasks != []
      modifies this
      ensures State() == Step(old(State()), Event.RunTask)
      ensures readBuffer == old(readBuffer)
    {
      var task := tasks[0];
      tasks := tasks[1..];
      match task
      case SendTask(frame) =>
        var idle := writeQueue == [];
        writeQueue := writeQueue + [frame];
        if idle {
          WritePump();
        }
      case CloseTask =>
        if socketOpen {
          socketOpen := false;
        }
      case FlushTask =>
        isShuttingDown := true;
        if writeQueue == [] && socketOpen {
          socketOpen := false;
        }
    }

    /** The completion handler of async_write. */
    method WriteDone(ok: bool)
      requires inFlight != []
      modifies this
      ensures State() == Step(old(State()), Event.WriteDone(ok))
      ensures readBuffer == old(readBuffer)
    {
      ghost var frame := inFlight[0];
      inFlight := inFlight[1..];
      if ok {
        written := written + [frame];
        if writeQueue != [] {
          writeQueue := writeQueue[1..];
        }
        if writeQueue != [] {
          WritePump();
        } else if isShuttingDown {
          if socketOpen {
            socketOpen := false;
          }
        }
      } else {
        errors := errors + 1;
      }
    }

    /** async_read into part of the buffer. */
    method Fill(at: nat, bytes: Bytes)
      requires at + |bytes| <= readBuffer.Length
      modifies readBuffer
      ensures readBuffer[..] == old(readBuffer[..at]) + bytes + old(readBuffer[at + |bytes|..])
    {
      var i := 0;
      while i < |bytes|
        invariant 0 <= i <= |bytes|
        invariant readBuffer[..] == old(readBuffer[..at]) + bytes[..i] + old(readBuffer[at + i..])
      {
        readBuffer[at + i] := bytes[i];
        assert bytes[..i + 1] == bytes[..i] + [bytes[i]];
        i := i + 1;
      }
      assert bytes[..|bytes|] == bytes;
    }

    /** read_buffer_.resize: the contents are kept and zero bytes appended. */
    method Grow(size: nat)
      requires size >= readBuffer.Length
      modifies this`readBuffer
      ensures fresh(readBuffer) && readBuffer.Length == size
      ensures readBuffer[..old(readBuffer.Length)] == old(readBuffer[..])
    {
      var bigger := new bv8[size](_ => 0);
      var i := 0;
      while i < readBuffer.Length
        invariant 0 <= i <= readBuffer.Length == old(readBuffer.Length)
        invariant fresh(bigger) && readBuffer[..] == old(readBuffer[..])
        invariant bigger[..i] == readBuffer[..i]
      {
        bigger[i] := readBuffer[i];
        i := i + 1;
      }
      readBuffer := bigger;
    }

    /**
     readHeader and readBody: frame after frame is read into the reused buffer, which is then parsed as a whole,
     stale tail included.  Whatever the buffer held before, the messages delivered and the way the loop ends are
     those of `Deframe` on the stream alone; and the buffer has grown to the largest frame announced, not further.
     */
    method ReadLoop(stream: Bytes) returns (delivered: seq<Message>, ghost skipped: nat, end: StreamEnd)
      requires readBuffer.Length >= HEADER_SIZE
      modifies this`readBuffer, readBuffer
      ensures Deframed(delivered, skipped, end) == Deframe(stream)
      ensures readBuffer.Length == Max(old(readBuffer.Length), LargestFrame(stream))
    {
      hide ReadU32, ToNat, Parse, Deframe, LargestFrame;
      delivered, skipped := [], 0;
      var rest := stream;
      while true
        invariant readBuffer.Length >= old(readBuffer.Length) >= HEADER_SIZE
        invariant readBuffer == old(readBuffer) || fresh(readBuffer)
        invariant Max(readBuffer.Length, LargestFrame(rest)) == Max(old(readBuffer.Length), LargestFrame(stream))
        invariant var d := Deframe(rest);
                  Deframe(stream) == Deframed(delivered + d.messages, skipped + d.skipped, d.end)
        decreases |rest|
      {
        DeframeUnfold(rest);
        if |rest| < HEADER_SIZE {
          end := Cut;
          return;
        }
        Fill(0, rest[..HEADER_SIZE]);
        HeaderInBuffer(readBuffer[..], rest);
        var payloadLen := ToNat(ReadU32(readBuffer[..4]));
        var totalSize := HEADER_SIZE + payloadLen + 4;
        assert totalSize == FrameSize(rest);
        if totalSize > readBuffer.Length {
          Grow(totalSize);
        }
        assert readBuffer[..HEADER_SIZE] == rest[..HEADER_SIZE];
        if |rest| < totalSize {
          end := Cut;
          return;
        }
        Fill(HEADER_SIZE, rest[HEADER_SIZE..totalSize]);
        WholeInBuffer(readBuffer[..], rest);
        var parsed := Deserialize(readBuffer[..]);
        if parsed.Corrupt? {
          end := BadFrame;
          return;
        }
        ghost var d := Deframe(rest[totalSize..]);
        if parsed.Parsed? && parsed.consumed == totalSize {
          Assoc(delivered, [parsed.message], d.messages);
          delivered := delivered + [parsed.message];
        } else {
          skipped := skipped + 1;
        }
        rest := rest[totalSize..];
      }
    }
  }

  lemma DeframeUnfold(stream: Bytes)
    ensures LargestFrame(stream)
         == if |stream| < HEADER_SIZE then 0
            else if !HasFrame(stream) || Parse(stream[..FrameSize(stream)]).Corrupt? then FrameSize(stream)
            else Max(FrameSize(stream), LargestFrame(stream[FrameSize(stream)..]))
    ensures !HasFrame(stream) ==> Deframe(stream) == Deframed([], 0, Cut)
    ensures HasFrame(stream) ==>
              var rest := Deframe(stream[FrameSize(stream)..]);
              Deframe(stream) == match Parse(stream[..FrameSize(stream)])
                                 case Corrupt => Deframed([], 0, BadFrame)
                                 case Parsed(m, consumed) =>
                                   if consumed == FrameSize(stream)
                                   then Deframed([m] + rest.messages, rest.skipped, rest.end)
                                   else rest.(skipped := rest.skipped + 1)
                                 case _ => rest.(skipped := rest.skipped + 1)
  {
  }

  /** The length is read from the buffer, where the header has just arrived. */
  lemma HeaderInBuffer(buffer: Bytes, stream: Bytes)
    requires |buffer| >= HEADER_SIZE && |stream| >= HEADER_SIZE
    requires buffer[..HEADER_SIZE] == stream[..HEADER_SIZE]
    ensures ReadU32(buffer[..4]) == ReadU32(stream)
  {
    assert buffer[..4] == buffer[..HEADER_SIZE][..4] == stream[..HEADER_SIZE][..4] == stream[..4];
    U32Local(buffer[..4], stream);
  }

  /** The stale bytes behind the current frame do not matter. */
  lemma WholeInBuffer(buffer: Bytes, stream: Bytes)
    requires HasFrame(stream) && |buffer| >= FrameSize(stream)
    requires buffer[..FrameSize(stream)] == stream[..FrameSize(stream)]
    ensures Parse(buffer) == Parse(stream[..FrameSize(stream)])
  {
    hide ReadU32, ToNat, Parse, Fields;
    var frame := stream[..FrameSize(stream)];
    assert frame[..4] == stream[..4];
    U32Local(frame, stream);
    assert buffer == frame + buffer[|frame|..];
    ParseLocal(frame, buffer[|frame|..]);
  }

  // ---------------------------------------------------------------- the peer's view

  lemma {:induction false} FlattenConcat(a: seq<Bytes>, b: seq<Bytes>)
    ensures Flatten(a + b) == Flatten(a) + Flatten(b)
  {
    if a == [] {
      assert a + b == b;
    } else {
      assert (a + b)[1..] == a[1..] + b;
      FlattenConcat(a[1..], b);
    }
  }

  lemma PrefixFlatten(a: seq<Bytes>, b: seq<Bytes>)
    requires a <= b
    ensures Flatten(a) <= Flatten(b)
  {
    assert b == a + b[|a|..];
    FlattenConcat(a, b[|a|..]);
  }

  lemma ReceivedPrefix(ms: seq<Message>, j: nat)
    requires j <= |ms|
    ensures Received(ms[..j]) <= Received(ms)
  {
    hide Message.Received;
  }

  /**
   End to end: if only sendable messages are posted, then in every run of the sender, after any number of bytes of
   the frames written, being written or queued (so also part of a frame whose write failed) have reached the peer,
   the peer's read loop has delivered an in-order prefix of the messages posted, with nothing corrupt or skipped.
   */
  lemma PeerSeesPrefix(es: seq<Event<Bytes>>, ms: seq<Message>, k: nat)
    requires Sendable(ms) && Run(Initial<Bytes>(), es).posted == Frames(ms)
    requires var w := Run(Initial<Bytes>(), es); k <= |Flatten(w.written + w.queue)|
    ensures var w := Run(Initial<Bytes>(), es);
            var d := Deframe(Flatten(w.written + w.queue)[..k]);
            d.messages <= Received(ms) && d.skipped == 0 && d.end == Cut
  {
    hide Run, Deframe, Flatten, Received, Frame, Message.WellFormed;
    var w := Run(Initial<Bytes>(), es);
    RunKeepsPump(Initial<Bytes>(), es);
    var out := w.written + w.queue;
    assert out <= w.posted by {
      assert w.posted == w.written + (w.queue + TaskFrames(w.tasks));
    }
    PrefixFlatten(out, w.posted);
    assert Flatten(out)[..k] == Flatten(Frames(ms))[..k];
    CutAnywhere(ms, k);
    ReceivedPrefix(ms, WholeFrames(ms, k));
  }
}
