/** Big-endian byte readers and writers (include/core/utils/ByteSerializer.hpp). */
module ByteSerializer {
  import opened Constants

  type Bytes = seq<bv8>

  function WriteU16(val: bv16): (r: Bytes)
    ensures |r| == 2
  {
    [((val >> 8) & 0xFF) as bv8, (val & 0xFF) as bv8]
  }

  function ReadU16(buf: Bytes): bv16
    requires |buf| >= 2
  {
    ((buf[0] as bv16) << 8) | (buf[1] as bv16)
  }

  function WriteU32(val: bv32): (r: Bytes)
    ensures |r| == 4
  {
    [((val >> 24) & 0xFF) as bv8, ((val >> 16) & 0xFF) as bv8, ((val >> 8) & 0xFF) as bv8, (val & 0xFF) as bv8]
  }

  function ReadU32(buf: Bytes): bv32
    requires |buf| >= 4
  {
    ((buf[0] as bv32) << 24) | ((buf[1] as bv32) << 16) | ((buf[2] as bv32) << 8) | (buf[3] as bv32)
  }

  function WriteU64(val: bv64): (r: Bytes)
    ensures |r| == 8
  {
    WriteU32(((val >> 32) & 0xFFFF_FFFF) as bv32) + WriteU32((val & 0xFFFF_FFFF) as bv32)
  }

  function Join(hi: bv32, lo: bv32): bv64 {
    ((hi as bv64) << 32) | (lo as bv64)
  }

  function ReadU64(buf: Bytes): bv64
    requires |buf| >= 8
  {
    Join(ReadU32(buf), ReadU32(buf[4..]))
  }

  /** The number with the given base-256 digits, most significant first. */
  function Digits(a: bv8, b: bv8, c: bv8, d: bv8): (n: nat)
    ensures n < U32_RANGE
  {
    0x100_0000 * (a as int) + 0x1_0000 * (b as int) + 0x100 * (c as int) + (d as int)
  }

  function Assemble(a: bv8, b: bv8, c: bv8, d: bv8): bv32 {
    ((a as bv32) << 24) | ((b as bv32) << 16) | ((c as bv32) << 8) | (d as bv32)
  }

  /** The value of a 32-bit word as a number. */
  function ToNat(w: bv32): (n: nat)
    ensures n < U32_RANGE
  {
    Digits(((w >> 24) & 0xFF) as bv8, ((w >> 16) & 0xFF) as bv8, ((w >> 8) & 0xFF) as bv8, (w & 0xFF) as bv8)
  }

  /** The byte with the given value, bit by bit. */
  function ByteFor(n: nat): (b: bv8)
    requires n < 0x100
    ensures b as int == n
  {
    if n == 0 then 0
    else
      var c := ByteFor(n / 2);
      HalfFits(c);
      if n % 2 == 0 then DoubleValue(c); c << 1 else DoubleValue(c); (c << 1) | 1
  }

  lemma HalfFits(c: bv8)
    ensures (c as int) < 0x80 <==> c & 0x80 == 0
  {
  }

  lemma DoubleValue(c: bv8)
    requires c & 0x80 == 0
    ensures (c << 1) as int == 2 * (c as int) && ((c << 1) | 1) as int == 2 * (c as int) + 1
  {
  }

  /** The last base-256 digit of a number. */
  function Digit(n: nat): (b: bv8)
    ensures b as int == n % 0x100
  {
    ByteFor(n % 0x100)
  }

  /** The word for a number, reduced to 32 bits. */
  function FromNat(n: nat): bv32 {
    var q1 := n / 0x100;
    var q2 := q1 / 0x100;
    Assemble(Digit(q2 / 0x100), Digit(q2), Digit(q1), Digit(n))
  }

  /** A number reduced to 32 bits, as an assignment to uint32_t does. */
  function Wrap32(n: nat): (r: nat)
    ensures r <= n && r < U32_RANGE
    ensures r == n <==> n < U32_RANGE
  {
    n % U32_RANGE
  }

  lemma AssembledParts(a: bv8, b: bv8, c: bv8, d: bv8)
    ensures var w := Assemble(a, b, c, d);
            && ((w >> 24) & 0xFF) as bv8 == a && ((w >> 16) & 0xFF) as bv8 == b
            && ((w >> 8) & 0xFF) as bv8 == c && (w & 0xFF) as bv8 == d
  {
  }

  lemma PartsAssembled(w: bv32)
    ensures w == Assemble(((w >> 24) & 0xFF) as bv8, ((w >> 16) & 0xFF) as bv8, ((w >> 8) & 0xFF) as bv8,
                          (w & 0xFF) as bv8)
  {
  }

  lemma ByteBack(b: bv8)
    ensures (b as int) as bv8 == b
  {
  }

  lemma DivisionDigits(n: nat, q1: nat, q2: nat, q3: nat)
    requires q1 == n / 0x100 && q2 == q1 / 0x100 && q3 == q2 / 0x100
    ensures 0x100_0000 * (q3 % 0x100) + 0x1_0000 * (q2 % 0x100) + 0x100 * (q1 % 0x100) + n % 0x100 == n % U32_RANGE
  {
    var r := 0x100_0000 * (q3 % 0x100) + 0x1_0000 * (q2 % 0x100) + 0x100 * (q1 % 0x100) + n % 0x100;
    assert n == U32_RANGE * (q3 / 0x100) + r;
    Remainder(n, q3 / 0x100, r);
  }

  lemma Remainder(n: nat, q: nat, r: nat)
    requires n == U32_RANGE * q + r && r < U32_RANGE
    ensures n % U32_RANGE == r
  {
  }

  /** Words and numbers correspond, modulo 2^32. */
  lemma ToFromNat(n: nat)
    ensures ToNat(FromNat(n)) == Wrap32(n)
  {
    hide Assemble, Digit;
    var q1 := n / 0x100;
    var q2 := q1 / 0x100;
    var q3 := q2 / 0x100;
    AssembledParts(Digit(q3), Digit(q2), Digit(q1), Digit(n));
    DivisionDigits(n, q1, q2, q3);
  }

  lemma FromToNat(w: bv32)
    ensures FromNat(ToNat(w)) == w
  {
    hide Assemble, ToNat, Digit, Digits;
    var a, b, c, d := ((w >> 24) & 0xFF) as bv8, ((w >> 16) & 0xFF) as bv8, ((w >> 8) & 0xFF) as bv8, (w & 0xFF) as bv8;
    assert ToNat(w) == Digits(a, b, c, d) by { NatDigits(w); }
    DigitsBack(a, b, c, d);
    PartsAssembled(w);
  }

  lemma NatDigits(w: bv32)
    ensures ToNat(w) == Digits(((w >> 24) & 0xFF) as bv8, ((w >> 16) & 0xFF) as bv8, ((w >> 8) & 0xFF) as bv8,
                               (w & 0xFF) as bv8)
  {
  }

  lemma DigitsBack(a: bv8, b: bv8, c: bv8, d: bv8)
    ensures var n := Digits(a, b, c, d);
            var q1 := n / 0x100;
            var q2 := q1 / 0x100;
            Digit(q2 / 0x100) == a && Digit(q2) == b && Digit(q1) == c && Digit(n) == d
  {
    hide Digit;
    var n := Digits(a, b, c, d);
    var q1 := n / 0x100;
    var q2 := q1 / 0x100;
    DigitsDivide(a as int, b as int, c as int, d as int, n);
    DigitOf(n, d);
    DigitOf(q1, c);
    DigitOf(q2, b);
    DigitOf(q2 / 0x100, a);
  }

  lemma DigitsDivide(a: nat, b: nat, c: nat, d: nat, n: nat)
    requires a < 0x100 && b < 0x100 && c < 0x100 && d < 0x100
    requires n == 0x100_0000 * a + 0x1_0000 * b + 0x100 * c + d
    ensures n % 0x100 == d && n / 0x100 % 0x100 == c && n / 0x100 / 0x100 % 0x100 == b
    ensures n / 0x100 / 0x100 / 0x100 % 0x100 == a
  {
    assert n / 0x100 == 0x1_0000 * a + 0x100 * b + c;
    assert n / 0x100 / 0x100 == 0x100 * a + b;
  }

  lemma DigitOf(n: nat, b: bv8)
    requires n % 0x100 == b as int
    ensures Digit(n) == b
  {
    hide Digit;
    ByteBack(b);
    ByteBack(Digit(n));
  }

  /** A read looks at no byte beyond the value. */
  lemma U16Local(a: Bytes, b: Bytes)
    requires |a| >= 2 && |b| >= 2 && a[..2] == b[..2]
    ensures ReadU16(a) == ReadU16(b)
  {
    assert forall i :: 0 <= i < 2 ==> a[i] == a[..2][i] == b[..2][i] == b[i];
  }

  lemma U32Local(a: Bytes, b: Bytes)
    requires |a| >= 4 && |b| >= 4 && a[..4] == b[..4]
    ensures ReadU32(a) == ReadU32(b)
  {
    assert forall i :: 0 <= i < 4 ==> a[i] == a[..4][i] == b[..4][i] == b[i];
  }

  lemma U64Local(a: Bytes, b: Bytes)
    requires |a| >= 8 && |b| >= 8 && a[..8] == b[..8]
    ensures ReadU64(a) == ReadU64(b)
  {
    hide ReadU32, Join;
    assert a[..4] == a[..8][..4] == b[..8][..4] == b[..4];
    assert a[4..][..4] == a[..8][4..] == b[..8][4..] == b[4..][..4];
    U32Local(a, b);
    U32Local(a[4..], b[4..]);
  }

  /** Reading two, four or eight bytes back gives the value written, whatever follows in the buffer. */
  lemma U16RoundTrip(val: bv16, rest: Bytes)
    ensures ReadU16(WriteU16(val) + rest) == val
  {
  }

  lemma U32RoundTrip(val: bv32, rest: Bytes)
    ensures ReadU32(WriteU32(val) + rest) == val
  {
  }

  lemma JoinHalves(val: bv64)
    ensures ((((val >> 32) & 0xFFFF_FFFF) as bv32) as bv64 << 32) | (((val & 0xFFFF_FFFF) as bv32) as bv64) == val
  {
  }

  lemma U64RoundTrip(val: bv64, rest: Bytes)
    ensures ReadU64(WriteU64(val) + rest) == val
  {
    var hi, lo := ((val >> 32) & 0xFFFF_FFFF) as bv32, (val & 0xFFFF_FFFF) as bv32;
    var buf := WriteU64(val) + rest;
    assert buf == WriteU32(hi) + (WriteU32(lo) + rest);
    assert buf[4..] == WriteU32(lo) + rest;
    U32RoundTrip(hi, WriteU32(lo) + rest);
    U32RoundTrip(lo, rest);
    JoinHalves(val);
  }

  /** Conversely, writing what was read reproduces the bytes: the encodings are canonical. */
  lemma U16Canonical(buf: Bytes)
    requires |buf| == 2
    ensures WriteU16(ReadU16(buf)) == buf
  {
  }

  lemma U32Canonical(buf: Bytes)
    requires |buf| == 4
    ensures WriteU32(ReadU32(buf)) == buf
  {
  }

  lemma SplitHalves(hi: bv32, lo: bv32)
    ensures (((((hi as bv64) << 32) | (lo as bv64)) >> 32) & 0xFFFF_FFFF) as bv32 == hi
    ensures ((((hi as bv64) << 32) | (lo as bv64)) & 0xFFFF_FFFF) as bv32 == lo
  {
  }

  lemma U64Canonical(buf: Bytes)
    requires |buf| == 8
    ensures WriteU64(ReadU64(buf)) == buf
  {
    hide ReadU32, WriteU32;
    SplitHalves(ReadU32(buf), ReadU32(buf[4..]));
    U32Local(buf, buf[..4]);
    U32Canonical(buf[..4]);
    U32Canonical(buf[4..]);
    assert buf == buf[..4] + buf[4..];
  }

  // ---------------------------------------------------------------- byte order

  /** Network byte order: the most significant byte comes first. */
  lemma U16BigEndian(val: bv16)
    ensures var r := WriteU16(val); r[0] as bv16 == val >> 8 && r[1] as bv16 == val & 0xFF
  {
  }

  lemma U32BigEndian(val: bv32)
    ensures var r := WriteU32(val);
            && r[0] as bv32 == val >> 24 && r[1] as bv32 == (val >> 16) & 0xFF
            && r[2] as bv32 == (val >> 8) & 0xFF && r[3] as bv32 == val & 0xFF
  {
  }

  lemma U64BigEndian(val: bv64)
    ensures var r := WriteU64(val);
            && r[0] as bv64 == val >> 56 && r[1] as bv64 == (val >> 48) & 0xFF
            && r[2] as bv64 == (val >> 40) & 0xFF && r[3] as bv64 == (val >> 32) & 0xFF
            && r[4] as bv64 == (val >> 24) & 0xFF && r[5] as bv64 == (val >> 16) & 0xFF
            && r[6] as bv64 == (val >> 8) & 0xFF && r[7] as bv64 == val & 0xFF
  {
    var hi, lo := ((val >> 32) & 0xFFFF_FFFF) as bv32, (val & 0xFFFF_FFFF) as bv32;
    var r := WriteU64(val);
    assert r[..4] == WriteU32(hi) && r[4..] == WriteU32(lo);
    assert r[0] == WriteU32(hi)[0] && r[1] == WriteU32(hi)[1] && r[2] == WriteU32(hi)[2] && r[3] == WriteU32(hi)[3];
    assert r[4] == WriteU32(lo)[0] && r[5] == WriteU32(lo)[1] && r[6] == WriteU32(lo)[2] && r[7] == WriteU32(lo)[3];
  }

  /** Hence a word read is the number whose base-256 digits are the bytes, in order. */
  lemma U32Value(buf: Bytes)
    requires |buf| >= 4
    ensures ToNat(ReadU32(buf))
         == 0x100_0000 * (buf[0] as int) + 0x1_0000 * (buf[1] as int) + 0x100 * (buf[2] as int) + (buf[3] as int)
  {
    hide Assemble;
    assert ReadU32(buf) == Assemble(buf[0], buf[1], buf[2], buf[3]) by { ReadAssembles(buf); }
    AssembledParts(buf[0], buf[1], buf[2], buf[3]);
  }

  lemma ReadAssembles(buf: Bytes)
    requires |buf| >= 4
    ensures ReadU32(buf) == Assemble(buf[0], buf[1], buf[2], buf[3])
  {
  }
}
