/**
 The CRC-32 of src/core/message/BinaryMessageParser.cpp, and its algebra.

 The register is a 32-bit word.  One shift step is an xor-linear bijection of that word; everything
 below (burst detection, the table-driven form, affinity) is derived from this.  Word operations are
 named, so that the inductive proofs can hide them and reason from their algebraic laws alone.
 */
module Crc32 {
  import opened ByteSerializer

  const INITIAL: bv32 := 0xFFFF_FFFF

  function Xor(a: bv32, b: bv32): bv32 { a ^ b }

  function Half(w: bv32): bv32 { w >> 1 }

  predicate Odd(w: bv32) { w & 1 == 1 }

  function Double(w: bv32): bv32 { w << 1 }

  function Widen(b: bv8): bv32 { b as bv32 }

  function Complement(w: bv32): bv32 { !w }

  /** One shift of the register: the body of the inner loop. */
  function Step(c: bv32): bv32 {
    if c & 1 == 1 then (c >> 1) ^ 0xEDB8_8320 else c >> 1
  }

  function StepN(c: bv32, n: nat): bv32
    decreases n
  {
    if n == 0 then c else StepN(Step(c), n - 1)
  }

  /** The register after the bytes of `data`, started at `c`. */
  function Update(c: bv32, data: Bytes): bv32 {
    if data == [] then c
    else StepN(Xor(Update(c, data[..|data| - 1]), Widen(data[|data| - 1])), 8)
  }

  function Checksum(data: Bytes): bv32 {
    Complement(Update(INITIAL, data))
  }

  lemma StepCases(c: bv32)
    ensures Step(c) == if c & 1 == 1 then (c >> 1) ^ 0xEDB8_8320 else c >> 1
  {
  }

  /** The inner loop: eight shifts. */
  method ShiftByte(start: bv32) returns (crc: bv32)
    ensures crc == StepN(start, 8)
  {
    hide Step;
    crc := start;
    for j := 0 to 8
      invariant StepN(start, 8) == StepN(crc, 8 - j)
    {
      StepCases(crc);
      if crc & 1 == 1 {
        crc := (crc >> 1) ^ 0xEDB8_8320;
      } else {
        crc := crc >> 1;
      }
    }
  }

  /** compute_crc32: the bitwise loop computes `Checksum`. */
  method ComputeCrc32(data: Bytes) returns (r: bv32)
    ensures r == Checksum(data)
  {
    hide StepN, Xor, Widen, Complement;
    var crc := INITIAL;
    for i := 0 to |data|
      invariant crc == Update(INITIAL, data[..i])
    {
      assert data[..i + 1][..i] == data[..i];
      crc := ShiftByte(Xor(crc, Widen(data[i])));
    }
    assert data[..|data|] == data;
    r := Complement(crc);
  }

  // ---------------------------------------------------------------- laws of the word operations

  lemma XorLaws(a: bv32, b: bv32)
    ensures Xor(Xor(a, b), b) == a && Xor(b, Xor(b, a)) == a
    ensures Xor(a, 0) == a && Xor(0, a) == a
  {
  }

  lemma XorShift(a: bv32, b: bv32)
    ensures (a ^ b) >> 1 == (a >> 1) ^ (b >> 1)
    ensures (a ^ b) & 1 == (a & 1) ^ (b & 1)
    ensures a & 1 == 0 || a & 1 == 1
    ensures b & 1 == 0 || b & 1 == 1
  {
  }

  lemma XorMove(a: bv32, b: bv32, p: bv32)
    ensures (a ^ p) ^ (b ^ p) == a ^ b
    ensures (a ^ p) ^ b == (a ^ b) ^ p
    ensures a ^ (b ^ p) == (a ^ b) ^ p
  {
  }

  /** The shift step is linear over xor. */
  lemma StepLinear(a: bv32, b: bv32)
    ensures Step(Xor(a, b)) == Xor(Step(a), Step(b))
  {
    XorShift(a, b);
    XorMove(a >> 1, b >> 1, 0xEDB8_8320);
  }

  lemma {:induction false} StepNLinear(a: bv32, b: bv32, n: nat)
    ensures StepN(Xor(a, b), n) == Xor(StepN(a, n), StepN(b, n))
    decreases n
  {
    hide Step, Xor;
    if n > 0 {
      StepLinear(a, b);
      StepNLinear(Step(a), Step(b), n - 1);
    }
  }

  /** The inverse of `Step`: the polynomial has its top bit set, so the top bit tells which branch was taken. */
  function Unstep(c: bv32): bv32 {
    if c >> 31 == 1 then ((c ^ 0xEDB8_8320) << 1) | 1 else c << 1
  }

  lemma StepInvertible(c: bv32)
    ensures Unstep(Step(c)) == c
  {
  }

  lemma {:induction false} StepNInjective(a: bv32, b: bv32, n: nat)
    requires StepN(a, n) == StepN(b, n)
    ensures a == b
    decreases n
  {
    hide Step, Unstep;
    if n > 0 {
      StepNInjective(Step(a), Step(b), n - 1);
      StepInvertible(a);
      StepInvertible(b);
    }
  }

  // ---------------------------------------------------------------- the bit-serial view

  /** `w` shifted right `n` times. */
  function Shr(w: bv32, n: nat): bv32
    decreases n
  {
    if n == 0 then w else Shr(Half(w), n - 1)
  }

  /** The `n` low bits of `w`, least significant first: the order in which the register consumes them. */
  function WordBits(w: bv32, n: nat): (r: seq<bool>)
    ensures |r| == n
    decreases n
  {
    if n == 0 then [] else [Odd(w)] + WordBits(Half(w), n - 1)
  }

  function Bits(data: Bytes): (r: seq<bool>)
    ensures |r| == 8 * |data|
  {
    if data == [] then []
    else Bits(data[..|data| - 1]) + WordBits(Widen(data[|data| - 1]), 8)
  }

  function BitStep(c: bv32, bit: bool): bv32 {
    Step(if bit then Xor(c, 1) else c)
  }

  /** The register fed one bit at a time. */
  function UpdateBits(c: bv32, bits: seq<bool>): bv32
    decreases |bits|
  {
    if bits == [] then c else UpdateBits(BitStep(c, bits[0]), bits[1..])
  }

  lemma {:induction false} UpdateBitsConcat(c: bv32, a: seq<bool>, b: seq<bool>)
    ensures UpdateBits(c, a + b) == UpdateBits(UpdateBits(c, a), b)
    decreases |a|
  {
    hide BitStep;
    if a == [] {
      assert a + b == b;
    } else {
      assert (a + b)[1..] == a[1..] + b;
      UpdateBitsConcat(BitStep(c, a[0]), a[1..], b);
    }
  }

  lemma SplitOdd(c: bv32, w: bv32)
    requires w & 1 == 1
    ensures c ^ w == (c ^ 1) ^ ((w >> 1) << 1)
  {
  }

  lemma SplitEven(c: bv32, w: bv32)
    requires w & 1 != 1
    ensures c ^ w == c ^ ((w >> 1) << 1)
  {
  }

  lemma EvenStep(w: bv32)
    ensures Step(Double(Half(w))) == Half(w)
  {
  }

  lemma SplitWord(c: bv32, w: bv32)
    ensures Xor(c, w) == Xor(if Odd(w) then Xor(c, 1) else c, Double(Half(w)))
  {
    if w & 1 == 1 {
      SplitOdd(c, w);
    } else {
      SplitEven(c, w);
    }
  }

  /** Shifting a register that holds a whole word consumes the word's low bit and keeps the rest. */
  lemma StepConsumesBit(c: bv32, w: bv32)
    ensures Step(Xor(c, w)) == Xor(BitStep(c, Odd(w)), Half(w))
  {
    hide Step, Xor, Odd, Half, Double;
    SplitWord(c, w);
    EvenStep(w);
    StepLinear(if Odd(w) then Xor(c, 1) else c, Double(Half(w)));
  }

  /** Xoring a word into the register at once is the same as feeding its bits one by one. */
  lemma {:induction false} StepsConsumeWord(c: bv32, w: bv32, n: nat)
    ensures StepN(Xor(c, w), n) == Xor(UpdateBits(c, WordBits(w, n)), Shr(w, n))
    decreases n
  {
    hide Step, BitStep, Xor, Half, Odd;
    if n > 0 {
      StepConsumesBit(c, w);
      assert WordBits(w, n)[1..] == WordBits(Half(w), n - 1);
      StepsConsumeWord(BitStep(c, Odd(w)), Half(w), n - 1);
    }
  }

  lemma {:induction false} ShrAdd(w: bv32, m: nat, n: nat)
    ensures Shr(w, m + n) == Shr(Shr(w, m), n)
    decreases m
  {
    hide Half;
    if m > 0 {
      ShrAdd(Half(w), m - 1, n);
    }
  }

  function HighBytes(w: bv32): bv32 { w >> 8 }

  function TopBit(w: bv32): bv32 { w >> 31 }

  lemma Halves(w: bv32)
    ensures ((((((((w >> 1) >> 1) >> 1) >> 1) >> 1) >> 1) >> 1) >> 1) == w >> 8
    ensures (((((((((w >> 8) >> 8) >> 8) >> 1) >> 1) >> 1) >> 1) >> 1) >> 1) >> 1 == w >> 31
    ensures (((w >> 8) >> 8) >> 8) >> 8 == 0
  {
  }

  lemma HalvesNamed(w: bv32)
    ensures Half(Half(Half(Half(Half(Half(Half(Half(w)))))))) == HighBytes(w)
    ensures Half(Half(Half(Half(Half(Half(Half(HighBytes(HighBytes(HighBytes(w)))))))))) == TopBit(w)
    ensures HighBytes(HighBytes(HighBytes(HighBytes(w)))) == 0
  {
    Halves(w);
  }

  lemma Shr8(w: bv32)
    ensures Shr(w, 7) == Half(Half(Half(Half(Half(Half(Half(w)))))))
    ensures Shr(w, 8) == HighBytes(w)
  {
    hide Half, HighBytes, TopBit;
    HalvesNamed(w);
    var v := Half(Half(Half(Half(w))));
    assert Shr(w, 4) == Shr(Half(w), 3) == Shr(Half(Half(w)), 2) == Shr(Half(Half(Half(w))), 1) == v;
    assert Shr(v, 4) == Shr(Half(v), 3) == Shr(Half(Half(v)), 2) == Shr(Half(Half(Half(v))), 1);
    assert Shr(Half(Half(Half(v))), 1) == Half(Half(Half(Half(v))));
    assert Shr(v, 3) == Shr(Half(v), 2) == Shr(Half(Half(v)), 1) == Half(Half(Half(v)));
    ShrAdd(w, 4, 4);
    ShrAdd(w, 4, 3);
  }

  /** 31 shifts leave exactly the top bit; 32 shifts leave nothing. */
  lemma ShrWide(w: bv32)
    ensures Shr(w, 31) == TopBit(w) && Shr(w, 32) == 0
  {
    hide Half, Shr, HighBytes, TopBit;
    var v1 := HighBytes(w);
    var v2 := HighBytes(v1);
    var v3 := HighBytes(v2);
    Shr8(w);
    Shr8(v1);
    Shr8(v2);
    Shr8(v3);
    ShrAdd(w, 8, 8);
    ShrAdd(w, 16, 8);
    ShrAdd(w, 24, 8);
    ShrAdd(w, 24, 7);
    HalvesNamed(w);
  }

  lemma {:induction false} ShrZero(n: nat)
    ensures Shr(0, n) == 0
  {
    if n > 0 {
      assert Half(0) == 0;
      ShrZero(n - 1);
    }
  }

  lemma WidenIsLow(b: bv8)
    ensures HighBytes(Widen(b)) == 0
  {
  }

  lemma ByteAsBits(c: bv32, b: bv8)
    ensures StepN(Xor(c, Widen(b)), 8) == UpdateBits(c, WordBits(Widen(b), 8))
  {
    hide StepN, UpdateBits, WordBits, Shr, Xor, Widen, HighBytes, Half;
    StepsConsumeWord(c, Widen(b), 8);
    Shr8(Widen(b));
    WidenIsLow(b);
    XorLaws(UpdateBits(c, WordBits(Widen(b), 8)), 0);
  }

  /** The byte loop is the bit-serial register run over the bits of the bytes. */
  lemma {:induction false} UpdateAsBits(c: bv32, data: Bytes)
    ensures Update(c, data) == UpdateBits(c, Bits(data))
  {
    hide StepN, UpdateBits, WordBits, Xor, Widen;
    if data == [] {
      assert UpdateBits(c, []) == c by { EmptyBits(c); }
    } else {
      var front, last := data[..|data| - 1], data[|data| - 1];
      UpdateAsBits(c, front);
      ByteAsBits(Update(c, front), last);
      UpdateBitsConcat(c, Bits(front), WordBits(Widen(last), 8));
    }
  }

  lemma EmptyBits(c: bv32)
    ensures UpdateBits(c, []) == c
  {
  }

  lemma {:induction false} BitsConcat(a: Bytes, b: Bytes)
    ensures Bits(a + b) == Bits(a) + Bits(b)
    decreases |b|
  {
    hide WordBits, Widen;
    if b == [] {
      assert a + b == a;
    } else {
      var front := b[..|b| - 1];
      assert (a + b)[..|a + b| - 1] == a + front;
      BitsConcat(a, front);
    }
  }

  // ---------------------------------------------------------------- injectivity

  function Pack(w: bv32, bit: bool): bv32 {
    (w << 1) | (if bit then 1 else 0)
  }

  /** A bit string packed into a word, first bit lowest. */
  function Word(bits: seq<bool>): bv32 {
    if bits == [] then 0 else Pack(Word(bits[1..]), bits[0])
  }

  lemma PackLaws(w: bv32, bit: bool)
    requires TopBit(w) == 0
    ensures Half(Pack(w, bit)) == w && Odd(Pack(w, bit)) == bit
  {
  }

  /** Up to 32 bits survive packing. */
  lemma {:induction false} PackUnpack(bits: seq<bool>)
    requires |bits| <= 32
    ensures WordBits(Word(bits), |bits|) == bits
    ensures Shr(Word(bits), |bits|) == 0
  {
    hide Pack, Half, Odd, TopBit;
    if bits != [] {
      var rest := bits[1..];
      PackUnpack(rest);
      assert TopBit(Word(rest)) == 0 by {
        ShrAdd(Word(rest), |rest|, 31 - |rest|);
        ShrZero(31 - |rest|);
        ShrWide(Word(rest));
      }
      PackLaws(Word(rest), bits[0]);
    }
  }

  /** From one register value, two different bit strings of equal length up to 32 lead to different registers. */
  lemma WindowInjective(c: bv32, u: seq<bool>, v: seq<bool>)
    requires |u| == |v| <= 32
    requires UpdateBits(c, u) == UpdateBits(c, v)
    ensures u == v
  {
    hide StepN, UpdateBits, WordBits, Word, Shr, Xor;
    PackUnpack(u);
    PackUnpack(v);
    StepsConsumeWord(c, Word(u), |u|);
    StepsConsumeWord(c, Word(v), |v|);
    StepNInjective(Xor(c, Word(u)), Xor(c, Word(v)), |u|);
    XorLaws(Word(u), c);
    XorLaws(Word(v), c);
  }

  lemma BitStepInjective(a: bv32, b: bv32, bit: bool)
    requires BitStep(a, bit) == BitStep(b, bit)
    ensures a == b
  {
    hide Step, Unstep, Xor;
    StepInvertible(if bit then Xor(a, 1) else a);
    StepInvertible(if bit then Xor(b, 1) else b);
    XorLaws(a, 1);
    XorLaws(b, 1);
  }

  /** Over any common input, different registers stay different. */
  lemma {:induction false} StateInjective(a: bv32, b: bv32, bits: seq<bool>)
    requires UpdateBits(a, bits) == UpdateBits(b, bits)
    ensures a == b
    decreases |bits|
  {
    hide BitStep;
    if bits != [] {
      StateInjective(BitStep(a, bits[0]), BitStep(b, bits[0]), bits[1..]);
      BitStepInjective(a, b, bits[0]);
    }
  }

  lemma WidenInjective(x: bv8, y: bv8)
    requires Widen(x) == Widen(y)
    ensures x == y
  {
  }

  lemma ByteBitsInjective(x: bv8, y: bv8)
    requires WordBits(Widen(x), 8) == WordBits(Widen(y), 8)
    ensures x == y
  {
    hide StepN, UpdateBits, WordBits, Xor, Widen;
    ByteAsBits(0, x);
    ByteAsBits(0, y);
    XorLaws(Widen(x), 0);
    XorLaws(Widen(y), 0);
    StepNInjective(Widen(x), Widen(y), 8);
    WidenInjective(x, y);
  }

  lemma {:induction false} BitsInjective(a: Bytes, b: Bytes)
    requires |a| == |b|
    requires Bits(a) == Bits(b)
    ensures a == b
  {
    hide WordBits, Widen;
    if a != [] {
      var fa, fb, x, y := a[..|a| - 1], b[..|b| - 1], a[|a| - 1], b[|b| - 1];
      assert Bits(fa) == Bits(a)[..8 * |fa|] == Bits(b)[..8 * |fb|] == Bits(fb);
      assert WordBits(Widen(x), 8) == Bits(a)[8 * |fa|..] == Bits(b)[8 * |fb|..] == WordBits(Widen(y), 8);
      BitsInjective(fa, fb);
      ByteBitsInjective(x, y);
      assert a == fa + [x] && b == fb + [y];
    }
  }

  lemma NotInjective(a: bv32, b: bv32)
    requires Complement(a) == Complement(b)
    ensures a == b
  {
  }

  /** Burst detection: a change confined to 32 consecutive bits of data of any length changes the checksum. */
  lemma BurstChangesChecksum(d: Bytes, e: Bytes, pre: seq<bool>, u: seq<bool>, v: seq<bool>, post: seq<bool>)
    requires Bits(d) == pre + u + post && Bits(e) == pre + v + post
    requires |u| == |v| <= 32 && u != v
    ensures Checksum(d) != Checksum(e)
  {
    hide Update, UpdateBits, Bits, Complement;
    if Checksum(d) == Checksum(e) {
      NotInjective(Update(INITIAL, d), Update(INITIAL, e));
      UpdateAsBits(INITIAL, d);
      UpdateAsBits(INITIAL, e);
      var c := UpdateBits(INITIAL, pre);
      UpdateBitsConcat(INITIAL, pre + u, post);
      UpdateBitsConcat(INITIAL, pre, u);
      UpdateBitsConcat(INITIAL, pre + v, post);
      UpdateBitsConcat(INITIAL, pre, v);
      StateInjective(UpdateBits(c, u), UpdateBits(c, v), post);
      WindowInjective(c, u, v);
    }
  }

  // ---------------------------------------------------------------- affinity

  function XorBytes(a: Bytes, b: Bytes): (r: Bytes)
    requires |a| == |b|
    ensures |r| == |a|
  {
    seq(|a|, i requires 0 <= i < |a| => a[i] ^ b[i])
  }

  lemma XorWiden(a: bv32, b: bv32, x: bv8, y: bv8)
    ensures Xor(Xor(a, b), Widen(x ^ y)) == Xor(Xor(a, Widen(x)), Xor(b, Widen(y)))
  {
  }

  lemma {:induction false} UpdateLinear(a: bv32, b: bv32, x: Bytes, y: Bytes)
    requires |x| == |y|
    ensures Update(Xor(a, b), XorBytes(x, y)) == Xor(Update(a, x), Update(b, y))
    decreases |x|
  {
    hide StepN, Xor, Widen;
    if x != [] {
      var n := |x| - 1;
      assert XorBytes(x, y)[..n] == XorBytes(x[..n], y[..n]);
      UpdateLinear(a, b, x[..n], y[..n]);
      XorWiden(Update(a, x[..n]), Update(b, y[..n]), x[n], y[n]);
      StepNLinear(Xor(Update(a, x[..n]), Widen(x[n])), Xor(Update(b, y[..n]), Widen(y[n])), 8);
    }
  }

  lemma NotOverXor(a: bv32, b: bv32, c: bv32)
    ensures !((a ^ b) ^ c) == ((!a) ^ (!b)) ^ (!c)
  {
  }

  lemma ComplementOverXor(a: bv32, b: bv32, c: bv32)
    ensures Complement(Xor(Xor(a, b), c)) == Xor(Xor(Complement(a), Complement(b)), Complement(c))
  {
    NotOverXor(a, b, c);
  }

  /** The checksum is affine over xor: the fixed start value and final complement cancel for an odd number of terms. */
  lemma ChecksumAffine(a: Bytes, b: Bytes, c: Bytes)
    requires |a| == |b| == |c|
    ensures Checksum(XorBytes(XorBytes(a, b), c)) == Xor(Xor(Checksum(a), Checksum(b)), Checksum(c))
  {
    hide Update, Xor, Complement;
    UpdateLinear(INITIAL, INITIAL, a, b);
    UpdateLinear(Xor(INITIAL, INITIAL), INITIAL, XorBytes(a, b), c);
    XorLaws(INITIAL, INITIAL);
    ComplementOverXor(Update(INITIAL, a), Update(INITIAL, b), Update(INITIAL, c));
  }

  // ---------------------------------------------------------------- the table-driven form

  function LowByte(w: bv32): bv8 { (w & 0xFF) as bv8 }

  function ShiftUp(w: bv32): bv32 { w << 8 }

  /** Entry `i` of the table in section 8 of RFC 1952. */
  function TableEntry(i: bv8): bv32 {
    StepN(Widen(i), 8)
  }

  lemma SplitLowByte(x: bv32)
    ensures x == Xor(Widen(LowByte(x)), ShiftUp(HighBytes(x)))
  {
  }

  /** Eight shifts of a register whose low byte is clear only move it. */
  lemma HighBytesMove(x: bv32)
    ensures StepN(ShiftUp(HighBytes(x)), 8) == HighBytes(x)
  {
  }

  lemma HighPart(c: bv32, b: bv8)
    ensures HighBytes(Xor(c, Widen(b))) == HighBytes(c)
  {
  }

  /** One table lookup does the work of the eight inner iterations. */
  lemma TableStep(c: bv32, b: bv8)
    ensures StepN(Xor(c, Widen(b)), 8) == Xor(TableEntry(LowByte(Xor(c, Widen(b)))), HighBytes(c))
  {
    hide StepN, Xor, Widen, LowByte, HighBytes, ShiftUp;
    var x := Xor(c, Widen(b));
    SplitLowByte(x);
    HighPart(c, b);
    HighBytesMove(x);
    StepNLinear(Widen(LowByte(x)), ShiftUp(HighBytes(x)), 8);
  }

  lemma ByteIndex(b: bv8)
    ensures (b as int) as bv8 == b
  {
  }

  /** make_crc_table of section 8 of RFC 1952. */
  method MakeCrcTable() returns (table: array<bv32>)
    ensures fresh(table) && table.Length == 256
    ensures forall i :: 0 <= i < 256 ==> table[i] == TableEntry(i as bv8)
  {
    hide StepN, Widen;
    table := new bv32[256];
    for n := 0 to 256
      invariant forall i :: 0 <= i < n ==> table[i] == TableEntry(i as bv8)
    {
      var c := ShiftByte(Widen(n as bv8));
      table[n] := c;
    }
  }

  /** update_crc of section 8 of RFC 1952, run over a whole byte string: the same checksum as the bitwise loop. */
  method TableDrivenCrc32(table: array<bv32>, data: Bytes) returns (r: bv32)
    requires table.Length == 256
    requires forall i :: 0 <= i < 256 ==> table[i] == TableEntry(i as bv8)
    ensures r == Checksum(data)
  {
    hide StepN, Xor, Widen, LowByte, HighBytes, TableEntry, Complement;
    var c := INITIAL;
    for n := 0 to |data|
      invariant c == Update(INITIAL, data[..n])
    {
      assert data[..n + 1][..n] == data[..n];
      TableStep(c, data[n]);
      var index := LowByte(Xor(c, Widen(data[n])));
      ByteIndex(index);
      c := Xor(table[index as int], HighBytes(c));
    }
    assert data[..|data|] == data;
    r := Complement(c);
  }

  // ---------------------------------------------------------------- the standard's form and check value

  function Zeros(n: nat): (r: Bytes)
    ensures |r| == n
  {
    seq(n, _ => 0)
  }

  lemma XorZeros(d: Bytes)
    ensures XorBytes(d, Zeros(|d|)) == d
  {
    forall i | 0 <= i < |d|
      ensures XorBytes(d, Zeros(|d|))[i] == d[i]
    {
      assert d[i] ^ 0 == d[i];
    }
  }

  /**
   The form of section 8.1.1.6.2 of ITU-T V.42: the ones complement of the sum of the remainder of 32 ones, shifted by
   the length of the message, and the remainder of the message itself.
   */
  lemma ChecksumAsRemainders(d: Bytes)
    ensures Checksum(d) == Complement(Xor(Update(0, d), Update(0xFFFF_FFFF, Zeros(|d|))))
  {
    hide Update, Xor;
    XorLaws(0xFFFF_FFFF, 0);
    UpdateLinear(0, 0xFFFF_FFFF, d, Zeros(|d|));
    XorZeros(d);
  }

  lemma EmptyChecksum()
    ensures Checksum([]) == 0 && Complement(0) == 0xFFFF_FFFF
  {
  }

  lemma StepNEight(c: bv32)
    ensures StepN(c, 8) == Step(Step(Step(Step(Step(Step(Step(Step(c))))))))
  {
    hide Step;
    var d := Step(Step(Step(Step(c))));
    assert StepN(c, 8) == StepN(d, 4) == Step(Step(Step(Step(d))));
  }

  /** The bytes of "123456789" go through the register one after the other. */
  lemma CheckBytes()
    ensures StepN(Xor(0xFFFF_FFFF, Widen(0x31)), 8) == 0x7C23_1048
    ensures StepN(Xor(0x7C23_1048, Widen(0x32)), 8) == 0xB0AC_BB32
    ensures StepN(Xor(0xB0AC_BB32, Widen(0x33)), 8) == 0x77B7_9C2D
    ensures StepN(Xor(0x77B7_9C2D, Widen(0x34)), 8) == 0x641C_1F5C
    ensures StepN(Xor(0x641C_1F5C, Widen(0x35)), 8) == 0x340A_C5E3
    ensures StepN(Xor(0x340A_C5E3, Widen(0x36)), 8) == 0xF68D_2C9E
    ensures StepN(Xor(0xF68D_2C9E, Widen(0x37)), 8) == 0xAFFC_9660
    ensures StepN(Xor(0xAFFC_9660, Widen(0x38)), 8) == 0x651F_2550
    ensures StepN(Xor(0x651F_2550, Widen(0x39)), 8) == 0x340B_C6D9
  {
    StepNEight(Xor(0xFFFF_FFFF, Widen(0x31)));
    StepNEight(Xor(0x7C23_1048, Widen(0x32)));
    StepNEight(Xor(0xB0AC_BB32, Widen(0x33)));
    StepNEight(Xor(0x77B7_9C2D, Widen(0x34)));
    StepNEight(Xor(0x641C_1F5C, Widen(0x35)));
    StepNEight(Xor(0x340A_C5E3, Widen(0x36)));
    StepNEight(Xor(0xF68D_2C9E, Widen(0x37)));
    StepNEight(Xor(0xAFFC_9660, Widen(0x38)));
    StepNEight(Xor(0x651F_2550, Widen(0x39)));
  }

  lemma OneMoreByte(data: Bytes, b: bv8, before: bv32, after: bv32)
    requires Update(INITIAL, data) == before && StepN(Xor(before, Widen(b)), 8) == after
    ensures Update(INITIAL, data + [b]) == after
  {
    hide StepN, Xor, Widen;
    assert (data + [b])[..|data|] == data;
  }

  /** The published check value of this CRC: that of the nine ASCII digits "123456789". */
  lemma CheckValue()
    ensures Checksum([0x31, 0x32, 0x33, 0x34, 0x35, 0x36, 0x37, 0x38, 0x39]) == 0xCBF4_3926
  {
    hide StepN, Update, Xor, Widen;
    CheckBytes();
    var d0: Bytes := [];
    EmptyUpdate(INITIAL);
    var d1: Bytes := d0 + [0x31];
    OneMoreByte(d0, 0x31, 0xFFFF_FFFF, 0x7C23_1048);
    var d2: Bytes := d1 + [0x32];
    OneMoreByte(d1, 0x32, 0x7C23_1048, 0xB0AC_BB32);
    var d3: Bytes := d2 + [0x33];
    OneMoreByte(d2, 0x33, 0xB0AC_BB32, 0x77B7_9C2D);
    var d4: Bytes := d3 + [0x34];
    OneMoreByte(d3, 0x34, 0x77B7_9C2D, 0x641C_1F5C);
    var d5: Bytes := d4 + [0x35];
    OneMoreByte(d4, 0x35, 0x641C_1F5C, 0x340A_C5E3);
    var d6: Bytes := d5 + [0x36];
    OneMoreByte(d5, 0x36, 0x340A_C5E3, 0xF68D_2C9E);
    var d7: Bytes := d6 + [0x37];
    OneMoreByte(d6, 0x37, 0xF68D_2C9E, 0xAFFC_9660);
    var d8: Bytes := d7 + [0x38];
    OneMoreByte(d7, 0x38, 0xAFFC_9660, 0x651F_2550);
    var d9: Bytes := d8 + [0x39];
    OneMoreByte(d8, 0x39, 0x651F_2550, 0x340B_C6D9);
    assert d9 == [0x31, 0x32, 0x33, 0x34, 0x35, 0x36, 0x37, 0x38, 0x39];
  }

  lemma EmptyUpdate(c: bv32)
    ensures Update(c, []) == c
  {
  }
}
