/**
 The frame codec (src/core/message/BinaryMessageParser.cpp).

 A frame is a 23-byte header, the payload, and the CRC-32 of both, all big-endian:

   payload_len:4  type:2  flags:1  agent_id:4  header_id:4  timestamp:8  payload  crc:4
 */
module BinaryMessageParser {
  import opened Constants
  import opened ByteSerializer
  import Crc32

  const HEADER_SIZE: nat := 23

  /** Header bytes plus the trailing CRC field. */
  const OVERHEAD: nat := 27

  /** The longest payload for which the 32-bit frame size at deserialize does not wrap. */
  const MAX_PAYLOAD: nat := 0xFFFF_FFE4

  datatype Message = Message(
    msgType: bv16, flags: bv8, agentId: bv32, headerId: bv32, timestamp: bv64,
    payloadLen: bv32, payload: Bytes, crc32: bv32)
  {
    /** The length field tells the truth; every sender sets it from the payload's size. */
    predicate WellFormed() {
      ToNat(payloadLen) == |payload|
    }

    /** The message as the peer sees it: the stored checksum is that of the frame it arrived in. */
    function Received(): Message {
      this.(crc32 := Crc32.Checksum(Body(this)))
    }
  }

  /**
   What deserialize does with its input.  `Incomplete` is the null result with nothing consumed, `Corrupt` the
   thrown "CRC mismatch".  `OutOfBounds` is a read past the end of the input, which the source does not guard
   against when the 32-bit frame size has wrapped.
   */
  datatype ParseResult = Incomplete | Corrupt | OutOfBounds | Parsed(message: Message, consumed: nat)

  function HeaderBytes(m: Message): (r: Bytes)
    ensures |r| == HEADER_SIZE
  {
    WriteU32(m.payloadLen) + WriteU16(m.msgType) + [m.flags] + WriteU32(m.agentId) + WriteU32(m.headerId)
    + WriteU64(m.timestamp)
  }

  function Body(m: Message): (r: Bytes)
    ensures |r| == HEADER_SIZE + |m.payload|
  {
    HeaderBytes(m) + m.payload
  }

  function Frame(m: Message): (r: Bytes)
    ensures |r| == OVERHEAD + |m.payload|
  {
    Body(m) + WriteU32(Crc32.Checksum(Body(m)))
  }

  /** The payload length announced by a header. */
  function LengthField(data: Bytes): (n: nat)
    requires |data| >= HEADER_SIZE
    ensures n < U32_RANGE
  {
    ToNat(ReadU32(data))
  }

  /** The fields of the first frame in `data`, with the checksum stored in it. */
  function Fields(data: Bytes): Message
    requires |data| >= HEADER_SIZE && |data| >= OVERHEAD + LengthField(data)
  {
    var n := LengthField(data);
    Message(ReadU16(data[4..]), data[6], ReadU32(data[7..]), ReadU32(data[11..]), ReadU64(data[15..]),
            ReadU32(data), data[HEADER_SIZE..HEADER_SIZE + n], ReadU32(data[HEADER_SIZE + n..]))
  }

  function Parse(data: Bytes): ParseResult {
    if |data| < HEADER_SIZE then Incomplete
    else
      var n := LengthField(data);
      var total := Wrap32(OVERHEAD + n);
      if |data| < total then Incomplete
      else if |data| < OVERHEAD + n then OutOfBounds
      else if Fields(data).crc32 != Crc32.Checksum(data[..HEADER_SIZE + n]) then Corrupt
      else Parsed(Fields(data), total)
  }

  // ---------------------------------------------------------------- the source's two operations

  method Serialize(m: Message) returns (buf: Bytes)
    ensures buf == Frame(m)
  {
    hide WriteU16, WriteU32, WriteU64, Crc32.Checksum;
    buf := [];
    buf := buf + WriteU32(m.payloadLen);
    buf := buf + WriteU16(m.msgType);
    buf := buf + [m.flags];
    buf := buf + WriteU32(m.agentId);
    buf := buf + WriteU32(m.headerId);
    buf := buf + WriteU64(m.timestamp);
    assert buf == HeaderBytes(m);
    if m.payload != [] {
      buf := buf + m.payload;
    }
    assert buf == Body(m);
    var crc := Crc32.ComputeCrc32(buf);
    buf := buf + WriteU32(crc);
  }

  method Deserialize(data: Bytes) returns (r: ParseResult)
    ensures r == Parse(data)
  {
    hide ToNat, Wrap32, ReadU16, ReadU32, ReadU64, Crc32.Checksum;
    if |data| < HEADER_SIZE {
      return Incomplete;
    }
    var payloadLen := ToNat(ReadU32(data));
    var totalFrameSize := Wrap32(HEADER_SIZE + payloadLen + 4);
    if |data| < totalFrameSize {
      return Incomplete;
    }
    if |data| < HEADER_SIZE + payloadLen + 4 {
      return OutOfBounds;
    }
    var typeVal := ReadU16(data[4..]);
    var flags := data[6];
    var agentId := ReadU32(data[7..]);
    var headerId := ReadU32(data[11..]);
    var timestamp := ReadU64(data[15..]);
    var payloadData: Bytes := [];
    if payloadLen > 0 {
      payloadData := data[HEADER_SIZE..HEADER_SIZE + payloadLen];
    }
    var msgCrc := ReadU32(data[HEADER_SIZE + payloadLen..]);
    var computedCrc := Crc32.ComputeCrc32(data[..HEADER_SIZE + payloadLen]);
    if msgCrc != computedCrc {
      return Corrupt;
    }
    FromToNat(ReadU32(data));
    assert |payloadData| == payloadLen;
    var out := Message(typeVal, flags, agentId, headerId, timestamp, FromNat(|payloadData|), payloadData, msgCrc);
    r := Parsed(out, totalFrameSize);
  }

  // ---------------------------------------------------------------- locality

  /** Bytes past the frame never influence the fields read from it. */
  lemma FieldsLocal(data: Bytes, rest: Bytes)
    requires |data| >= HEADER_SIZE && |data| >= OVERHEAD + LengthField(data)
    ensures LengthField(data + rest) == LengthField(data)
    ensures Fields(data + rest) == Fields(data)
  {
    hide ToNat, Wrap32, ReadU16, ReadU32, ReadU64;
    var all, n := data + rest, LengthField(data);
    assert all[..4] == data[..4];
    U32Local(all, data);
    assert all[4..][..2] == data[4..][..2];
    U16Local(all[4..], data[4..]);
    assert all[7..][..4] == data[7..][..4];
    U32Local(all[7..], data[7..]);
    assert all[11..][..4] == data[11..][..4];
    U32Local(all[11..], data[11..]);
    assert all[15..][..8] == data[15..][..8];
    U64Local(all[15..], data[15..]);
    assert all[HEADER_SIZE..HEADER_SIZE + n] == data[HEADER_SIZE..HEADER_SIZE + n];
    assert all[HEADER_SIZE + n..][..4] == data[HEADER_SIZE + n..][..4];
    U32Local(all[HEADER_SIZE + n..], data[HEADER_SIZE + n..]);
  }

  /** A buffer that holds a whole frame parses the same whatever (stale) bytes follow the frame. */
  lemma ParseLocal(data: Bytes, rest: Bytes)
    requires |data| >= HEADER_SIZE && |data| >= OVERHEAD + LengthField(data)
    ensures Parse(data + rest) == Parse(data)
  {
    hide ToNat, Wrap32, LengthField, Fields, Crc32.Checksum;
    FieldsLocal(data, rest);
    var n := LengthField(data);
    assert (data + rest)[..HEADER_SIZE + n] == data[..HEADER_SIZE + n];
  }

  // ---------------------------------------------------------------- printer and parser undo each other

  /** Where each part of a frame sits. */
  lemma Offsets(a: Bytes, b: Bytes, c: bv8, d: Bytes, e: Bytes, g: Bytes, p: Bytes, z: Bytes)
    requires |a| == |d| == |e| == |z| == 4 && |b| == 2 && |g| == 8
    ensures var f := a + b + [c] + d + e + g + p + z;
            && f == a + f[4..] && f[4..] == b + f[6..] && f[6] == c && f[7..] == d + f[11..] && f[11..] == e + f[15..]
            && f[15..] == g + f[23..] && f[23..23 + |p|] == p && f[23 + |p|..] == z
            && f[..23 + |p|] == a + b + [c] + d + e + g + p
  {
    var f := a + b + [c] + d + e + g + p + z;
    var f23 := p + z;
    var f15 := g + f23;
    var f11 := e + f15;
    var f7 := d + f11;
    var f6 := [c] + f7;
    var f4 := b + f6;
    assert f[0..] == f == a + f4;
    Peel(f, 0, a, f4);
    Peel(f, 4, b, f6);
    Peel(f, 6, [c], f7);
    Peel(f, 7, d, f11);
    Peel(f, 11, e, f15);
    Peel(f, 15, g, f23);
    Peel(f, 23, p, z);
    assert f[..23 + |p|] == a + b + [c] + d + e + g + p;
  }

  lemma Peel(f: Bytes, at: nat, x: Bytes, rest: Bytes)
    requires at <= |f| && f[at..] == x + rest
    ensures at + |x| <= |f| && f[at + |x|..] == rest && f[at..at + |x|] == x
  {
    assert |f| == at + |x| + |rest|;
    assert f[at + |x|..] == f[at..][|x|..];
    assert f[at..at + |x|] == f[at..][..|x|];
  }

  /** The fields read from a printed frame are the fields printed. */
  lemma FieldsOfFrame(m: Message)
    requires m.WellFormed()
    ensures LengthField(Frame(m)) == |m.payload|
    ensures Fields(Frame(m)) == m.Received()
    ensures Frame(m)[..HEADER_SIZE + |m.payload|] == Body(m)
  {
    hide ToNat, Wrap32, ReadU16, ReadU32, ReadU64, WriteU16, WriteU32, WriteU64, Crc32.Checksum;
    var f, crc := Frame(m), WriteU32(Crc32.Checksum(Body(m)));
    Offsets(WriteU32(m.payloadLen), WriteU16(m.msgType), m.flags, WriteU32(m.agentId), WriteU32(m.headerId),
            WriteU64(m.timestamp), m.payload, crc);
    U32RoundTrip(m.payloadLen, f[4..]);
    U16RoundTrip(m.msgType, f[6..]);
    U32RoundTrip(m.agentId, f[11..]);
    U32RoundTrip(m.headerId, f[15..]);
    U64RoundTrip(m.timestamp, f[23..]);
    U32RoundTrip(Crc32.Checksum(Body(m)), []);
    assert crc + [] == crc;
  }

  /** Where the fields of a frame are, and what its CRC covers: everything before it. */
  lemma FrameLayout(m: Message)
    ensures var f, n := Frame(m), |m.payload|;
            && |f| == 27 + n
            && f[..4] == WriteU32(m.payloadLen) && f[4..6] == WriteU16(m.msgType) && f[6] == m.flags
            && f[7..11] == WriteU32(m.agentId) && f[11..15] == WriteU32(m.headerId)
            && f[15..23] == WriteU64(m.timestamp) && f[23..23 + n] == m.payload
            && f[23 + n..] == WriteU32(Crc32.Checksum(f[..23 + n]))
  {
    hide WriteU16, WriteU32, WriteU64, Crc32.Checksum;
    var f, crc := Frame(m), WriteU32(Crc32.Checksum(Body(m)));
    var a, b, d, e, g :=
      WriteU32(m.payloadLen), WriteU16(m.msgType), WriteU32(m.agentId), WriteU32(m.headerId), WriteU64(m.timestamp);
    Offsets(a, b, m.flags, d, e, g, m.payload, crc);
    assert f[..4] == a by { assert f == a + f[4..]; }
    Peel(f, 4, b, f[6..]);
    Peel(f, 7, d, f[11..]);
    Peel(f, 11, e, f[15..]);
    Peel(f, 15, g, f[23..]);
  }

  /**
   Round trip: parsing a printed message gives it back, whatever follows it.  The reported size is the true frame
   size reduced to 32 bits, so it is the true one exactly for payloads up to `MAX_PAYLOAD`.
   */
  lemma RoundTrip(m: Message, rest: Bytes)
    requires m.WellFormed()
    ensures Parse(Frame(m) + rest) == Parsed(m.Received(), Wrap32(|Frame(m)|))
    ensures Wrap32(|Frame(m)|) == |Frame(m)| <==> |m.payload| <= MAX_PAYLOAD
  {
    hide ToNat, Wrap32, LengthField, Fields, Frame, Crc32.Checksum;
    FieldsOfFrame(m);
    ParseLocal(Frame(m), rest);
  }

  lemma HeaderCanonical(data: Bytes)
    requires |data| >= HEADER_SIZE && |data| >= OVERHEAD + LengthField(data)
    ensures HeaderBytes(Fields(data)) == data[..HEADER_SIZE]
  {
    hide ToNat, Wrap32, ReadU16, ReadU32, ReadU64, WriteU16, WriteU32, WriteU64;
    U32Local(data, data[..4]);
    U32Canonical(data[..4]);
    assert data[4..][..2] == data[4..6];
    U16Local(data[4..], data[4..6]);
    U16Canonical(data[4..6]);
    assert data[7..][..4] == data[7..11];
    U32Local(data[7..], data[7..11]);
    U32Canonical(data[7..11]);
    assert data[11..][..4] == data[11..15];
    U32Local(data[11..], data[11..15]);
    U32Canonical(data[11..15]);
    assert data[15..][..8] == data[15..23];
    U64Local(data[15..], data[15..23]);
    U64Canonical(data[15..23]);
    assert data[..23] == data[..4] + data[4..6] + [data[6]] + data[7..11] + data[11..15] + data[15..23];
  }

  /** Canonical decoding: a parsed message, printed again, is the very bytes it was parsed from. */
  lemma ParseCanonical(data: Bytes)
    requires Parse(data).Parsed?
    ensures var m := Parse(data).message;
            m.WellFormed() && |Frame(m)| <= |data| && data[..|Frame(m)|] == Frame(m) && m == m.Received()
  {
    hide ToNat, Wrap32, ReadU16, ReadU32, ReadU64, WriteU16, WriteU32, WriteU64, Crc32.Checksum, HeaderBytes;
    var m, n := Parse(data).message, LengthField(data);
    HeaderCanonical(data);
    assert Body(m) == data[..HEADER_SIZE + n];
    var tail := data[HEADER_SIZE + n..];
    U32Local(tail, tail[..4]);
    U32Canonical(tail[..4]);
    assert data[..OVERHEAD + n] == data[..HEADER_SIZE + n] + tail[..4];
  }

  /**
   When deserialize reads past its input: the header is there and announces a payload so long that the 32-bit frame
   size wraps, and the input has the wrapped size but not the true one.
   */
  lemma OutOfBoundsExactly(data: Bytes)
    ensures Parse(data).OutOfBounds? <==>
              && |data| >= HEADER_SIZE && LengthField(data) > MAX_PAYLOAD
              && OVERHEAD + LengthField(data) - U32_RANGE <= |data| < OVERHEAD + LengthField(data)
  {
    hide ToNat, Wrap32, ReadU16, ReadU32, ReadU64, Crc32.Checksum;
    if |data| >= HEADER_SIZE {
      WrapOnce(OVERHEAD + LengthField(data));
    }
  }

  lemma WrapOnce(n: nat)
    requires n < 2 * U32_RANGE
    ensures Wrap32(n) == if n < U32_RANGE then n else n - U32_RANGE
  {
  }

  /** A strict prefix of a frame never parses and never counts as corrupt. */
  lemma PrefixParse(m: Message, k: nat)
    requires m.WellFormed() && k < |Frame(m)|
    ensures Parse(Frame(m)[..k])
         == if |m.payload| > MAX_PAYLOAD && k >= HEADER_SIZE && k + U32_RANGE >= |Frame(m)| then OutOfBounds
            else Incomplete
  {
    hide ToNat, Wrap32, ReadU32, Crc32.Checksum, Frame;
    FieldsOfFrame(m);
    WrapOnce(|Frame(m)|);
    if k >= HEADER_SIZE {
      assert Frame(m)[..k][..4] == Frame(m)[..4];
      U32Local(Frame(m)[..k], Frame(m));
    }
  }

  /** Every strict prefix of a frame is reported incomplete exactly when the payload is not too long. */
  lemma StrictPrefixIncomplete(m: Message)
    requires m.WellFormed()
    ensures (forall k: nat :: k < |Frame(m)| ==> Parse(Frame(m)[..k]) == Incomplete) <==> |m.payload| <= MAX_PAYLOAD
  {
    hide Parse, Frame, LengthField, Message.WellFormed;
    forall k: nat | k < |Frame(m)|
      ensures |m.payload| <= MAX_PAYLOAD ==> Parse(Frame(m)[..k]) == Incomplete
    {
      PrefixParse(m, k);
    }
    if |m.payload| > MAX_PAYLOAD {
      assert |m.payload| < U32_RANGE by { PayloadBound(m); }
      PrefixParse(m, OVERHEAD);
    }
  }

  lemma PayloadBound(m: Message)
    requires m.WellFormed()
    ensures |m.payload| < U32_RANGE
  {
  }

  // ---------------------------------------------------------------- error detection

  /**
   Burst detection on frames.  `good` is any input that parses; `bad` has the same length field and the same CRC
   field, and differs from it by a non-empty change confined to 32 consecutive bits (in transmission order of the
   CRC: least significant bit of each byte first) of the bytes between them.
   */
  lemma BurstDetected(good: Bytes, bad: Bytes, pre: seq<bool>, u: seq<bool>, v: seq<bool>, post: seq<bool>)
    requires Parse(good).Parsed? && |bad| == |good|
    requires var end := HEADER_SIZE + LengthField(good);
             && bad[..4] == good[..4] && bad[end..end + 4] == good[end..end + 4]
             && Crc32.Bits(good[4..end]) == pre + u + post && Crc32.Bits(bad[4..end]) == pre + v + post
    requires |u| == |v| <= 32 && u != v
    ensures Parse(bad) == Corrupt
  {
    hide ToNat, Wrap32, ReadU16, ReadU32, ReadU64, Crc32.Checksum, Crc32.Bits;
    var end := HEADER_SIZE + LengthField(good);
    U32Local(good, bad);
    var lenBits := Crc32.Bits(good[..4]);
    assert good[..end] == good[..4] + good[4..end] && bad[..end] == bad[..4] + bad[4..end];
    Crc32.BitsConcat(good[..4], good[4..end]);
    Crc32.BitsConcat(bad[..4], bad[4..end]);
    assert Crc32.Bits(good[..end]) == (lenBits + pre) + u + post;
    assert Crc32.Bits(bad[..end]) == (lenBits + pre) + v + post;
    Crc32.BurstChangesChecksum(good[..end], bad[..end], lenBits + pre, u, v, post);
    assert good[end..][..4] == good[end..end + 4] == bad[end..end + 4] == bad[end..][..4];
    U32Local(good[end..], bad[end..]);
  }

  lemma SameSlice(x: Bytes, y: Bytes, lo: nat, hi: nat)
    requires |x| == |y| && lo <= hi <= |x|
    requires forall i :: lo <= i < hi ==> x[i] == y[i]
    ensures x[lo..hi] == y[lo..hi]
  {
  }

  lemma AsThree(x: Bytes, lo: nat, at: nat, k: nat, end: nat)
    requires lo <= at && at + k <= end <= |x|
    ensures x[lo..end] == x[lo..at] + x[at..at + k] + x[at + k..end]
  {
  }

  /** In particular any change of up to four consecutive bytes after the length field and before the CRC field. */
  lemma FourByteChangeDetected(good: Bytes, bad: Bytes, at: nat, k: nat)
    requires Parse(good).Parsed? && |bad| == |good| && bad != good
    requires k <= 4 && 4 <= at && at + k <= HEADER_SIZE + LengthField(good)
    requires forall i :: 0 <= i < |good| && !(at <= i < at + k) ==> bad[i] == good[i]
    ensures Parse(bad) == Corrupt
  {
    hide Parse, LengthField, Crc32.Bits;
    ParsedIsLong(good);
    var end := HEADER_SIZE + LengthField(good);
    var a, u, v, z := good[4..at], good[at..at + k], bad[at..at + k], good[at + k..end];
    AsThree(good, 4, at, k, end);
    AsThree(bad, 4, at, k, end);
    SameSlice(good, bad, 4, at);
    SameSlice(good, bad, at + k, end);
    SameSlice(good, bad, 0, 4);
    SameSlice(good, bad, end, end + 4);
    Crc32.BitsConcat(a + u, z);
    Crc32.BitsConcat(a, u);
    Crc32.BitsConcat(a + v, z);
    Crc32.BitsConcat(a, v);
    if Crc32.Bits(u) == Crc32.Bits(v) {
      Crc32.BitsInjective(u, v);
      assert forall i :: at <= i < at + k ==> good[i] == u[i - at] == bad[i];
      assert false;
    }
    BurstDetected(good, bad, Crc32.Bits(a), Crc32.Bits(u), Crc32.Bits(v), Crc32.Bits(z));
  }

  lemma ParsedIsLong(data: Bytes)
    requires Parse(data).Parsed?
    ensures |data| >= HEADER_SIZE && |data| >= OVERHEAD + LengthField(data)
  {
    hide ToNat, Wrap32, ReadU32, ReadU16, ReadU64, Crc32.Checksum;
  }

  /** Any change confined to the CRC field is detected. */
  lemma CrcFieldChangeDetected(good: Bytes, bad: Bytes)
    requires Parse(good).Parsed? && |bad| == |good|
    requires var end := HEADER_SIZE + LengthField(good);
             bad[..end] == good[..end] && bad[end..end + 4] != good[end..end + 4]
    ensures Parse(bad) == Corrupt
  {
    hide ToNat, Wrap32, ReadU16, ReadU32, ReadU64, Crc32.Checksum, WriteU32;
    var end := HEADER_SIZE + LengthField(good);
    assert bad[..4] == bad[..end][..4] == good[..end][..4] == good[..4];
    U32Local(good, bad);
    assert good[end..][..4] == good[end..end + 4] && bad[end..][..4] == bad[end..end + 4];
    U32Local(good[end..], good[end..end + 4]);
    U32Local(bad[end..], bad[end..end + 4]);
    U32Canonical(good[end..end + 4]);
    U32Canonical(bad[end..end + 4]);
  }
}
