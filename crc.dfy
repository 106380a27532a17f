/** The host-side software reference model of the CRC peripheral
    (tb_crc_host.c): bit reflection, and a 32-bit MSB-first CRC over the
    eight bytes of a 64-bit word with optional input/output reflection,
    a seed and a final XOR. */
module CrcModel {

  /** Bit j of x, as a 0/1 value. */
  function Bit(x: bv32, j: bv32): bv32
    requires j < 32
  {
    (x >> j) & 1
  }

  /** x < 2^width: no bit at or above position width is set. */
  ghost predicate Fits(x: bv32, width: bv32)
  {
    forall j | width <= j < 32 :: Bit(x, j) == 0
  }

  // ---------------------------------------------------------------------
  // reflect_bits

  /** One iteration of reflect_bits' loop: if bit i of v is set, set the
      mirrored bit width-1-i of the accumulator. */
  function ReflectStep(r: bv32, v: bv32, width: bv32, i: bv32): bv32
    requires i < width <= 32
  {
    if v & (1 << i) != 0 then r | (1 << (width - 1 - i)) else r
  }

  /** The accumulator of reflect_bits after its first i iterations. */
  function ReflectUpTo(v: bv32, width: bv32, i: bv32): bv32
    requires i <= width <= 32
    decreases i
  {
    if i == 0 then 0 else ReflectStep(ReflectUpTo(v, width, i - 1), v, width, i - 1)
  }

  /** reflect_bits(v, width). */
  function Reflect(v: bv32, width: bv32): bv32
    requires width <= 32
  {
    ReflectUpTo(v, width, width)
  }

  /** Bit j of the accumulator after i iterations: the mirrored source bit
      for the i highest positions below width, and clear everywhere else. */
  function Mirrored(v: bv32, width: bv32, i: bv32, j: bv32): bv32
    requires i <= width <= 32 && j < 32
  {
    if width - i <= j < width then Bit(v, width - 1 - j) else 0
  }

  ghost predicate ReflectedUpTo(r: bv32, v: bv32, width: bv32, i: bv32)
    requires i <= width <= 32
  {
    forall j | 0 <= j < 32 :: Bit(r, j) == Mirrored(v, width, i, j)
  }

  /** The test in reflect_bits' loop reads bit i of v. */
  lemma TestedBit(v: bv32, i: bv32)
    requires i < 32
    ensures Bit(v, i) == if v & (1 << i) != 0 then 1 else 0
  {
  }

  /** Setting bit s sets bit s ... */
  lemma SetBitSame(r: bv32, s: bv32)
    requires s < 32
    ensures Bit(r | (1 << s), s) == 1
  {
  }

  /** ... and leaves every other bit alone. */
  lemma SetBitOther(r: bv32, s: bv32, j: bv32)
    requires s < 32 && j < 32 && j != s
    ensures Bit(r | (1 << s), j) == Bit(r, j)
  {
  }

  lemma MirroredNew(v: bv32, width: bv32, i: bv32)
    requires i < width <= 32
    ensures Mirrored(v, width, i, width - 1 - i) == 0
    ensures Mirrored(v, width, i + 1, width - 1 - i) == Bit(v, i)
  {
  }

  lemma MirroredKept(v: bv32, width: bv32, i: bv32, j: bv32)
    requires i < width <= 32 && j < 32 && j != width - 1 - i
    ensures Mirrored(v, width, i + 1, j) == Mirrored(v, width, i, j)
  {
    assert (width - (i + 1) <= j < width) == (width - i <= j < width);
  }

  /** Setting bit s, the mirror of a set bit i of v, ... */
  lemma SetMirror(r: bv32, v: bv32, width: bv32, i: bv32, s: bv32)
    requires i < width <= 32 && s == width - 1 - i && Bit(v, i) == 1
    requires Bit(r, s) == Mirrored(v, width, i, s)
    ensures Bit(r | (1 << s), s) == Mirrored(v, width, i + 1, s)
  {
    MirroredNew(v, width, i);
    SetBitSame(r, s);
  }

  /** ... leaves the other bits as they were. */
  lemma SetMirrorOnly(r: bv32, v: bv32, width: bv32, i: bv32, j: bv32, s: bv32)
    requires i < width <= 32 && j < 32 && s == width - 1 - i && j != s
    requires Bit(r, j) == Mirrored(v, width, i, j)
    ensures Bit(r | (1 << s), j) == Mirrored(v, width, i + 1, j)
  {
    MirroredKept(v, width, i, j);
    SetBitOther(r, s, j);
  }

  lemma StepWhenSet(r: bv32, v: bv32, width: bv32, i: bv32, s: bv32)
    requires i < width <= 32 && s == width - 1 - i && v & (1 << i) != 0
    ensures ReflectStep(r, v, width, i) == r | (1 << s) && Bit(v, i) == 1
  {
    TestedBit(v, i);
  }

  lemma StepWhenClear(r: bv32, v: bv32, width: bv32, i: bv32)
    requires i < width <= 32 && v & (1 << i) == 0
    ensures ReflectStep(r, v, width, i) == r && Bit(v, i) == 0
  {
    TestedBit(v, i);
  }

  /** Bit j of the accumulator after one more iteration. */
  lemma StepBit(r: bv32, v: bv32, width: bv32, i: bv32, j: bv32, s: bv32)
    requires i < width <= 32 && j < 32 && s == width - 1 - i
    requires Bit(r, j) == Mirrored(v, width, i, j)
    ensures Bit(ReflectStep(r, v, width, i), j) == Mirrored(v, width, i + 1, j)
  {
    if v & (1 << i) != 0 {
      StepWhenSet(r, v, width, i, s);
      if j == s {
        SetMirror(r, v, width, i, s);
      } else {
        SetMirrorOnly(r, v, width, i, j, s);
      }
    } else {
      StepWhenClear(r, v, width, i);
      if j == s {
        MirroredNew(v, width, i);
      } else {
        MirroredKept(v, width, i, j);
      }
    }
  }

  lemma StepReflected(r: bv32, v: bv32, width: bv32, i: bv32)
    requires i < width <= 32
    requires ReflectedUpTo(r, v, width, i)
    ensures ReflectedUpTo(ReflectStep(r, v, width, i), v, width, i + 1)
  {
    forall j | 0 <= j < 32
      ensures Bit(ReflectStep(r, v, width, i), j) == Mirrored(v, width, i + 1, j)
    {
      StepBit(r, v, width, i, j, width - 1 - i);
    }
  }

  lemma {:induction false} ReflectUpToBits(v: bv32, width: bv32, i: bv32)
    requires i <= width <= 32
    ensures ReflectedUpTo(ReflectUpTo(v, width, i), v, width, i)
    decreases i
  {
    if i == 0 {
      forall j | 0 <= j < 32
        ensures Bit(0, j) == Mirrored(v, width, 0, j)
      {
      }
    } else {
      ReflectUpToBits(v, width, i - 1);
      StepReflected(ReflectUpTo(v, width, i - 1), v, width, i - 1);
    }
  }

  /** Bit j of reflect_bits(v, width) is bit width-1-j of v below width and
      clear at and above width. */
  lemma ReflectBit(v: bv32, width: bv32, j: bv32)
    requires width <= 32 && j < 32
    ensures Bit(Reflect(v, width), j) == if j < width then Bit(v, width - 1 - j) else 0
  {
    ReflectUpToBits(v, width, width);
  }

  /** reflect_bits, with its loop. */
  method ReflectBits(v: bv32, width: bv32) returns (r: bv32)
    requires width <= 32
    ensures r == Reflect(v, width)
  {
    r := 0;
    var i: bv32 := 0;
    while i < width
      invariant i <= width
      invariant r == ReflectUpTo(v, width, i)
    {
      r := ReflectStep(r, v, width, i);
      i := i + 1;
    }
  }

  /** Two words with the same mirrored bits are equal. */
  lemma SameReflection(a: bv32, b: bv32, v: bv32, width: bv32)
    requires width <= 32
    requires ReflectedUpTo(a, v, width, width) && ReflectedUpTo(b, v, width, width)
    ensures a == b
  {
    BitsEqual(a, b);
  }

  /** Two words whose bits all agree are equal. */
  lemma BitsEqual(a: bv32, b: bv32)
    requires forall j | 0 <= j < 32 :: Bit(a, j) == Bit(b, j)
    ensures a == b
  {
    assert Bit(a, 0) == Bit(b, 0);
    assert Bit(a, 1) == Bit(b, 1);
    assert Bit(a, 2) == Bit(b, 2);
    assert Bit(a, 3) == Bit(b, 3);
    assert Bit(a, 4) == Bit(b, 4);
    assert Bit(a, 5) == Bit(b, 5);
    assert Bit(a, 6) == Bit(b, 6);
    assert Bit(a, 7) == Bit(b, 7);
    assert Bit(a, 8) == Bit(b, 8);
    assert Bit(a, 9) == Bit(b, 9);
    assert Bit(a, 10) == Bit(b, 10);
    assert Bit(a, 11) == Bit(b, 11);
    assert Bit(a, 12) == Bit(b, 12);
    assert Bit(a, 13) == Bit(b, 13);
    assert Bit(a, 14) == Bit(b, 14);
    assert Bit(a, 15) == Bit(b, 15);
    assert Bit(a, 16) == Bit(b, 16);
    assert Bit(a, 17) == Bit(b, 17);
    assert Bit(a, 18) == Bit(b, 18);
    assert Bit(a, 19) == Bit(b, 19);
    assert Bit(a, 20) == Bit(b, 20);
    assert Bit(a, 21) == Bit(b, 21);
    assert Bit(a, 22) == Bit(b, 22);
    assert Bit(a, 23) == Bit(b, 23);
    assert Bit(a, 24) == Bit(b, 24);
    assert Bit(a, 25) == Bit(b, 25);
    assert Bit(a, 26) == Bit(b, 26);
    assert Bit(a, 27) == Bit(b, 27);
    assert Bit(a, 28) == Bit(b, 28);
    assert Bit(a, 29) == Bit(b, 29);
    assert Bit(a, 30) == Bit(b, 30);
    assert Bit(a, 31) == Bit(b, 31);
  }

  /** reflect_bits sets no bit at or above position width. */
  lemma ReflectNoHighBits(v: bv32, width: bv32)
    requires width <= 32
    ensures Fits(Reflect(v, width), width)
  {
    forall j | width <= j < 32
      ensures Bit(Reflect(v, width), j) == 0
    {
      ReflectBit(v, width, j);
    }
  }

  /** reflect_bits reads only the low width bits of its argument. */
  lemma ReflectLowBitsOnly(u: bv32, v: bv32, width: bv32)
    requires width <= 32
    requires forall j | 0 <= j < width :: Bit(u, j) == Bit(v, j)
    ensures Reflect(u, width) == Reflect(v, width)
  {
    forall j | 0 <= j < 32
      ensures Bit(Reflect(u, width), j) == Bit(Reflect(v, width), j)
    {
      ReflectBit(u, width, j);
      ReflectBit(v, width, j);
    }
    BitsEqual(Reflect(u, width), Reflect(v, width));
  }

  lemma InvolutionBitLow(v: bv32, width: bv32, j: bv32)
    requires j < width <= 32
    ensures Bit(Reflect(Reflect(v, width), width), j) == Bit(v, j)
  {
    var r := Reflect(v, width);
    var k := width - 1 - j;
    ReflectBit(r, width, j);
    assert Bit(Reflect(r, width), j) == Bit(r, k);
    ReflectBit(v, width, k);
    assert width - 1 - k == j;
  }

  lemma InvolutionBitHigh(v: bv32, width: bv32, j: bv32)
    requires width <= j < 32 && Fits(v, width)
    ensures Bit(Reflect(Reflect(v, width), width), j) == Bit(v, j)
  {
    ReflectBit(Reflect(v, width), width, j);
  }

  /** reflect_bits is an involution on width-bit values. */
  lemma ReflectInvolution(v: bv32, width: bv32)
    requires width <= 32 && Fits(v, width)
    ensures Reflect(Reflect(v, width), width) == v
  {
    forall j | 0 <= j < 32
      ensures Bit(Reflect(Reflect(v, width), width), j) == Bit(v, j)
    {
      if j < width {
        InvolutionBitLow(v, width, j);
      } else {
        InvolutionBitHigh(v, width, j);
      }
    }
    BitsEqual(Reflect(Reflect(v, width), width), v);
  }

  /** Reflecting zero gives zero. */
  lemma ReflectZero(width: bv32)
    requires width <= 32
    ensures Reflect(0, width) == 0
  {
    forall j | 0 <= j < 32
      ensures Bit(Reflect(0, width), j) == Bit(0, j)
    {
      ReflectBit(0, width, j);
    }
    BitsEqual(Reflect(0, width), 0);
  }

  // ---------------------------------------------------------------------
  // crc_sw_model

  /** The order in which the eight bytes of data_in enter the register. */
  datatype ByteOrder = LsbFirst | MsbFirst

  /** The byte of data_in consumed in round n. */
  function ByteIndex(order: ByteOrder, n: bv8): bv8
    requires n < 8
  {
    if order == LsbFirst then n else 7 - n
  }

  /** Byte i of a 64-bit word: (d >> 8i) & 0xFF. */
  function ByteAt(d: bv64, i: bv8): bv32
    requires i < 8
  {
    ((d >> (8 * i)) & 0xFF) as bv32
  }

  /** The byte as it enters the register: bit-reversed when reflect_in is set. */
  function InputByte(b: bv32, reflectIn: bool): bv32
  {
    if reflectIn then Reflect(b, 8) else b
  }

  /** One clock of the MSB-first divider: shift left, XOR in the polynomial
      when the bit shifted out was set. */
  function Shift(crc: bv32, poly: bv32): bv32
  {
    if crc & 0x8000_0000 != 0 then (crc << 1) ^ poly else crc << 1
  }

  function Shifts(crc: bv32, poly: bv32, k: nat): bv32
  {
    if k == 0 then crc else Shift(Shifts(crc, poly, k - 1), poly)
  }

  /** A byte XORed into the top eight bits, then eight shift steps. */
  function Absorb(crc: bv32, b: bv32, poly: bv32): bv32
  {
    Shifts(crc ^ (b << 24), poly, 8)
  }

  /** The CRC register after the first n bytes. */
  function Register(data: bv64, poly: bv32, seed: bv32, reflectIn: bool, order: ByteOrder, n: bv8): bv32
    requires n <= 8
    decreases n
  {
    if n == 0 then seed
    else Absorb(Register(data, poly, seed, reflectIn, order, n - 1),
                InputByte(ByteAt(data, ByteIndex(order, n - 1)), reflectIn), poly)
  }

  lemma RegisterStep(data: bv64, poly: bv32, seed: bv32, reflectIn: bool, order: ByteOrder, n: bv8)
    requires n < 8
    ensures Register(data, poly, seed, reflectIn, order, n + 1)
         == Absorb(Register(data, poly, seed, reflectIn, order, n),
                   InputByte(ByteAt(data, ByteIndex(order, n)), reflectIn), poly)
  {
  }

  /** Output stage: optional 32-bit reflection, then the final XOR. */
  function Finish(crc: bv32, finalXor: bv32, reflectOut: bool): bv32
  {
    (if reflectOut then Reflect(crc, 32) else crc) ^ finalXor
  }

  /** The output stage of crc_sw_model computes Finish: the final XOR it
      applies only when final_xor_val is non-zero is the unconditional one. */
  lemma OutputStage(c: bv32, reflected: bv32, out: bv32, finalXor: bv32, reflectOut: bool)
    requires reflected == if reflectOut then Reflect(c, 32) else c
    requires out == if finalXor != 0 then reflected ^ finalXor else reflected
    ensures out == Finish(c, finalXor, reflectOut)
  {
  }

  function Crc(data: bv64, poly: bv32, seed: bv32, finalXor: bv32,
               reflectIn: bool, reflectOut: bool, order: ByteOrder): bv32
  {
    Finish(Register(data, poly, seed, reflectIn, order, 8), finalXor, reflectOut)
  }

  /** The per-byte input reflection loop of crc_sw_model (the uint8_t rb
      accumulator): the same loop as reflect_bits at width 8. */
  method ReflectByte(b: bv32) returns (rb: bv32)
    ensures rb == Reflect(b, 8)
  {
    rb := 0;
    var k: bv32 := 0;
    ReflectUpToBits(b, 8, 0);
    while k < 8
      invariant k <= 8
      invariant ReflectedUpTo(rb, b, 8, k)
    {
      ghost var rb0 := rb;
      if b & (1 << k) != 0 {
        rb := rb | (1 << (7 - k));
        assert rb == ReflectStep(rb0, b, 8, k);
      } else {
        assert rb == ReflectStep(rb0, b, 8, k);
      }
      StepReflected(rb0, b, 8, k);
      k := k + 1;
    }
    ReflectUpToBits(b, 8, 8);
    SameReflection(rb, Reflect(b, 8), b, 8);
  }

  /** The eight shift/conditional-XOR-polynomial steps of crc_sw_model's
      byte loop. */
  method ShiftEight(c0: bv32, polynomial: bv32) returns (crc: bv32)
    ensures crc == Shifts(c0, polynomial, 8)
  {
    crc := c0;
    var k := 0;
    while k < 8
      invariant k <= 8
      invariant crc == Shifts(c0, polynomial, k)
    {
      if crc & 0x8000_0000 != 0 {
        crc := (crc << 1) ^ polynomial;
      } else {
        crc := crc << 1;
      }
      k := k + 1;
    }
  }

  /** The byte taken from data_in in round n, reflected when reflect_in
      is set. */
  method NextByte(dataIn: bv64, order: ByteOrder, n: bv8, reflectIn: bool) returns (b: bv32)
    requires n < 8
    ensures b == InputByte(ByteAt(dataIn, ByteIndex(order, n)), reflectIn)
  {
    b := ByteAt(dataIn, ByteIndex(order, n));
    if reflectIn {
      b := ReflectByte(b);
    }
  }

  /** The byte loop of crc_sw_model (its lines 26-51): the register after
      all eight bytes. */
  method ByteLoop(dataIn: bv64, polynomial: bv32, seed: bv32, reflectIn: bool, order: ByteOrder)
    returns (crc: bv32)
    ensures crc == Register(dataIn, polynomial, seed, reflectIn, order, 8)
  {
    crc := seed;
    var n: bv8 := 0;
    while n < 8
      invariant n <= 8
      invariant crc == Register(dataIn, polynomial, seed, reflectIn, order, n)
    {
      var b := NextByte(dataIn, order, n, reflectIn);
      crc := crc ^ (b << 24);
      crc := ShiftEight(crc, polynomial);
      RegisterStep(dataIn, polynomial, seed, reflectIn, order, n);
      n := n + 1;
    }
  }

  /** crc_sw_model. With order == LsbFirst it is the routine as written; the
      reflect_in and reflect_out flags stand for the C ints being non-zero. */
  method CrcSwModel(dataIn: bv64, polynomial: bv32, seed: bv32, finalXorVal: bv32,
                    reflectIn: bool, reflectOut: bool, order: ByteOrder) returns (crc: bv32)
    ensures crc == Crc(dataIn, polynomial, seed, finalXorVal, reflectIn, reflectOut, order)
  {
    crc := ByteLoop(dataIn, polynomial, seed, reflectIn, order);
    ghost var c8 := crc;
    if reflectOut {
      crc := ReflectBits(crc, 32);
      assert crc == Reflect(c8, 32);
    } else {
      assert crc == c8;
    }
    ghost var c9 := crc;
    if finalXorVal != 0 {
      crc := crc ^ finalXorVal;
      assert crc == c9 ^ finalXorVal;
    } else {
      assert crc == c9;
    }
    OutputStage(c8, c9, crc, finalXorVal, reflectOut);
  }

  // ---------------------------------------------------------------------
  // Properties of crc_sw_model

  lemma {:induction false} ShiftsZero(poly: bv32, k: nat)
    ensures Shifts(0, poly, k) == 0
  {
    if k > 0 {
      ShiftsZero(poly, k - 1);
    }
  }

  lemma {:induction false} RegisterZero(poly: bv32, reflectIn: bool, order: ByteOrder, n: bv8)
    requires n <= 8
    ensures Register(0, poly, 0, reflectIn, order, n) == 0
    decreases n
  {
    if n > 0 {
      RegisterZero(poly, reflectIn, order, n - 1);
      ReflectZero(8);
      assert ByteAt(0, ByteIndex(order, n - 1)) == 0;
      ShiftsZero(poly, 8);
    }
  }

  /** With data 0, seed 0 and final XOR 0 the CRC is 0, whatever the
      polynomial, the reflection settings and the byte order. */
  lemma ZeroMessage(poly: bv32, reflectIn: bool, reflectOut: bool, order: ByteOrder)
    ensures Crc(0, poly, 0, 0, reflectIn, reflectOut, order) == 0
  {
    RegisterZero(poly, reflectIn, order, 8);
    ReflectZero(32);
  }

  // ---------------------------------------------------------------------
  // The run_case test vectors. Each lemma evaluates the model on one test
  // word; the register value after every byte is given so that each step is
  // a short computation.

  /** The four low bytes of the test message, bit-reversed. */
  lemma ReflectedLowBytes()
    ensures Reflect(0x74, 8) == 0x2E
         && Reflect(0x65, 8) == 0xA6
         && Reflect(0x63, 8) == 0xC6
         && Reflect(0x6F, 8) == 0xF6
  {
  }

  /** The four high bytes of the test message, bit-reversed. */
  lemma ReflectedHighBytes()
    ensures Reflect(0x73, 8) == 0xCE
         && Reflect(0x70, 8) == 0x0E
         && Reflect(0x69, 8) == 0x96
         && Reflect(0x76, 8) == 0x6E
  {
  }

  lemma Reflect287DEEE5()
    ensures Reflect(0x287DEEE5, 32) == 0xA777BE14
  {
    assert ReflectUpTo(0x287DEEE5, 32, 4) == 0xA0000000;
    assert ReflectUpTo(0x287DEEE5, 32, 8) == 0xA7000000;
    assert ReflectUpTo(0x287DEEE5, 32, 12) == 0xA7700000;
    assert ReflectUpTo(0x287DEEE5, 32, 16) == 0xA7770000;
    assert ReflectUpTo(0x287DEEE5, 32, 20) == 0xA777B000;
    assert ReflectUpTo(0x287DEEE5, 32, 24) == 0xA777BE00;
    assert ReflectUpTo(0x287DEEE5, 32, 28) == 0xA777BE10;
  }
  lemma Reflect36CE4FEC()
    ensures Reflect(0x36CE4FEC, 32) == 0x37F2736C
  {
    assert ReflectUpTo(0x36CE4FEC, 32, 4) == 0x30000000;
    assert ReflectUpTo(0x36CE4FEC, 32, 8) == 0x37000000;
    assert ReflectUpTo(0x36CE4FEC, 32, 12) == 0x37F00000;
    assert ReflectUpTo(0x36CE4FEC, 32, 16) == 0x37F20000;
    assert ReflectUpTo(0x36CE4FEC, 32, 20) == 0x37F27000;
    assert ReflectUpTo(0x36CE4FEC, 32, 24) == 0x37F27300;
    assert ReflectUpTo(0x36CE4FEC, 32, 28) == 0x37F27360;
  }

  /** The test message 0x766970736F636574, described by its eight bytes
      (least significant first) so that the register can be followed byte
      by byte. */
  ghost predicate TestMessage(data: bv64)
  {
    ByteAt(data, 0) == 0x74 && ByteAt(data, 1) == 0x65 && ByteAt(data, 2) == 0x63 && ByteAt(data, 3) == 0x6F &&
    ByteAt(data, 4) == 0x73 && ByteAt(data, 5) == 0x70 && ByteAt(data, 6) == 0x69 && ByteAt(data, 7) == 0x76
  }

  lemma TestMessageIs(data: bv64)
    ensures TestMessage(data) <==> data == 0x766970736F636574
  {
  }

  /** The sixth test word 0x4637234586740986, by its bytes. */
  ghost predicate SixthWord(data: bv64)
  {
    ByteAt(data, 0) == 0x86 && ByteAt(data, 1) == 0x09 && ByteAt(data, 2) == 0x74 && ByteAt(data, 3) == 0x86 &&
    ByteAt(data, 4) == 0x45 && ByteAt(data, 5) == 0x23 && ByteAt(data, 6) == 0x37 && ByteAt(data, 7) == 0x46
  }

  lemma SixthWordIs(data: bv64)
    ensures SixthWord(data) <==> data == 0x4637234586740986
  {
  }

  /** The register for the test message, no input reflection, most significant byte first, byte by byte. */
  lemma PlainRegister1(data: bv64)
    requires TestMessage(data)
    ensures Register(data, 0x04C11DB7, 0x00000000, false, MsbFirst, 1) == 0xFA325055
  {
    assert Shifts(0x76000000, 0x04C11DB7, 8) == 0xFA325055;
  }

  lemma PlainRegister2(data: bv64)
    requires TestMessage(data)
    ensures Register(data, 0x04C11DB7, 0x00000000, false, MsbFirst, 2) == 0x1A0E4847
  {
    PlainRegister1(data);
    assert Shifts(0x93325055, 0x04C11DB7, 8) == 0x1A0E4847;
  }

  lemma PlainRegister3(data: bv64)
    requires TestMessage(data)
    ensures Register(data, 0x04C11DB7, 0x00000000, false, MsbFirst, 3) == 0x8D675741
  {
    PlainRegister2(data);
    assert Shifts(0x6A0E4847, 0x04C11DB7, 8) == 0x8D675741;
  }

  lemma PlainRegister4(data: bv64)
    requires TestMessage(data)
    ensures Register(data, 0x04C11DB7, 0x00000000, false, MsbFirst, 4) == 0xD2611C03
  {
    PlainRegister3(data);
    assert Shifts(0xFE675741, 0x04C11DB7, 8) == 0xD2611C03;
  }

  lemma PlainRegister5(data: bv64)
    requires TestMessage(data)
    ensures Register(data, 0x04C11DB7, 0x00000000, false, MsbFirst, 5) == 0xEDEF08AD
  {
    PlainRegister4(data);
    assert Shifts(0xBD611C03, 0x04C11DB7, 8) == 0xEDEF08AD;
  }

  lemma PlainRegister6(data: bv64)
    requires TestMessage(data)
    ensures Register(data, 0x04C11DB7, 0x00000000, false, MsbFirst, 6) == 0xBA8AEDE4
  {
    PlainRegister5(data);
    assert Shifts(0x8EEF08AD, 0x04C11DB7, 8) == 0xBA8AEDE4;
  }

  lemma PlainRegister7(data: bv64)
    requires TestMessage(data)
    ensures Register(data, 0x04C11DB7, 0x00000000, false, MsbFirst, 7) == 0xA3391254
  {
    PlainRegister6(data);
    assert Shifts(0xDF8AEDE4, 0x04C11DB7, 8) == 0xA3391254;
  }

  lemma PlainRegister8(data: bv64)
    requires TestMessage(data)
    ensures Register(data, 0x04C11DB7, 0x00000000, false, MsbFirst, 8) == 0x36CE4FEC
  {
    PlainRegister7(data);
    assert Shifts(0xD7391254, 0x04C11DB7, 8) == 0x36CE4FEC;
  }

  /** The register for the test message, input reflection, most significant byte first, byte by byte. */
  lemma ReflectInRegister1(data: bv64)
    requires TestMessage(data)
    ensures Register(data, 0x04C11DB7, 0x00000000, true, MsbFirst, 1) == 0x902B669D
  {
    ReflectedHighBytes();
    assert Shifts(0x6E000000, 0x04C11DB7, 8) == 0x902B669D;
  }

  lemma ReflectInRegister2(data: bv64)
    requires TestMessage(data)
    ensures Register(data, 0x04C11DB7, 0x00000000, true, MsbFirst, 2) == 0x31E0D0B2
  {
    ReflectInRegister1(data);
    ReflectedHighBytes();
    assert Shifts(0x062B669D, 0x04C11DB7, 8) == 0x31E0D0B2;
  }

  lemma ReflectInRegister3(data: bv64)
    requires TestMessage(data)
    ensures Register(data, 0x04C11DB7, 0x00000000, true, MsbFirst, 3) == 0x0CAD622D
  {
    ReflectInRegister2(data);
    ReflectedHighBytes();
    assert Shifts(0x3FE0D0B2, 0x04C11DB7, 8) == 0x0CAD622D;
  }

  lemma ReflectInRegister4(data: bv64)
    requires TestMessage(data)
    ensures Register(data, 0x04C11DB7, 0x00000000, true, MsbFirst, 4) == 0xF96A86F7
  {
    ReflectInRegister3(data);
    ReflectedHighBytes();
    assert Shifts(0xC2AD622D, 0x04C11DB7, 8) == 0xF96A86F7;
  }

  lemma ReflectInRegister5(data: bv64)
    requires TestMessage(data)
    ensures Register(data, 0x04C11DB7, 0x00000000, true, MsbFirst, 5) == 0x52C94ABD
  {
    ReflectInRegister4(data);
    ReflectedLowBytes();
    assert Shifts(0x0F6A86F7, 0x04C11DB7, 8) == 0x52C94ABD;
  }

  lemma ReflectInRegister6(data: bv64)
    requires TestMessage(data)
    ensures Register(data, 0x04C11DB7, 0x00000000, true, MsbFirst, 6) == 0xFF53F042
  {
    ReflectInRegister5(data);
    ReflectedLowBytes();
    assert Shifts(0x94C94ABD, 0x04C11DB7, 8) == 0xFF53F042;
  }

  lemma ReflectInRegister7(data: bv64)
    requires TestMessage(data)
    ensures Register(data, 0x04C11DB7, 0x00000000, true, MsbFirst, 7) == 0x09AE1908
  {
    ReflectInRegister6(data);
    ReflectedLowBytes();
    assert Shifts(0x5953F042, 0x04C11DB7, 8) == 0x09AE1908;
  }

  lemma ReflectInRegister8(data: bv64)
    requires TestMessage(data)
    ensures Register(data, 0x04C11DB7, 0x00000000, true, MsbFirst, 8) == 0x287DEEE5
  {
    ReflectInRegister7(data);
    ReflectedLowBytes();
    assert Shifts(0x27AE1908, 0x04C11DB7, 8) == 0x287DEEE5;
  }

  /** The register for the test message, input reflection and seed 0xFFFFFFFF, most significant byte first, byte by byte. */
  lemma ReflectInSeededRegister1(data: bv64)
    requires TestMessage(data)
    ensures Register(data, 0x04C11DB7, 0xFFFFFFFF, true, MsbFirst, 1) == 0xDE23D929
  {
    ReflectedHighBytes();
    assert Shifts(0x91FFFFFF, 0x04C11DB7, 8) == 0xDE23D929;
  }

  lemma ReflectInSeededRegister2(data: bv64)
    requires TestMessage(data)
    ensures Register(data, 0x04C11DB7, 0xFFFFFFFF, true, MsbFirst, 2) == 0x3157B4CF
  {
    ReflectInSeededRegister1(data);
    ReflectedHighBytes();
    assert Shifts(0x4823D929, 0x04C11DB7, 8) == 0x3157B4CF;
  }

  lemma ReflectInSeededRegister3(data: bv64)
    requires TestMessage(data)
    ensures Register(data, 0x04C11DB7, 0xFFFFFFFF, true, MsbFirst, 3) == 0xBBC91F2D
  {
    ReflectInSeededRegister2(data);
    ReflectedHighBytes();
    assert Shifts(0x3F57B4CF, 0x04C11DB7, 8) == 0xBBC91F2D;
  }

  lemma ReflectInSeededRegister4(data: bv64)
    requires TestMessage(data)
    ensures Register(data, 0x04C11DB7, 0xFFFFFFFF, true, MsbFirst, 4) == 0x3E6E5B8C
  {
    ReflectInSeededRegister3(data);
    ReflectedHighBytes();
    assert Shifts(0x75C91F2D, 0x04C11DB7, 8) == 0x3E6E5B8C;
  }

  lemma ReflectInSeededRegister5(data: bv64)
    requires TestMessage(data)
    ensures Register(data, 0x04C11DB7, 0xFFFFFFFF, true, MsbFirst, 5) == 0x15D9F121
  {
    ReflectInSeededRegister4(data);
    ReflectedLowBytes();
    assert Shifts(0xC86E5B8C, 0x04C11DB7, 8) == 0x15D9F121;
  }

  lemma ReflectInSeededRegister6(data: bv64)
    requires TestMessage(data)
    ensures Register(data, 0x04C11DB7, 0xFFFFFFFF, true, MsbFirst, 6) == 0xC5294C30
  {
    ReflectInSeededRegister5(data);
    ReflectedLowBytes();
    assert Shifts(0xD3D9F121, 0x04C11DB7, 8) == 0xC5294C30;
  }

  lemma ReflectInSeededRegister7(data: bv64)
    requires TestMessage(data)
    ensures Register(data, 0x04C11DB7, 0xFFFFFFFF, true, MsbFirst, 7) == 0x88AAD04E
  {
    ReflectInSeededRegister6(data);
    ReflectedLowBytes();
    assert Shifts(0x63294C30, 0x04C11DB7, 8) == 0x88AAD04E;
  }

  lemma ReflectInSeededRegister8(data: bv64)
    requires TestMessage(data)
    ensures Register(data, 0x04C11DB7, 0xFFFFFFFF, true, MsbFirst, 8) == 0x417955BC
  {
    ReflectInSeededRegister7(data);
    ReflectedLowBytes();
    assert Shifts(0xA6AAD04E, 0x04C11DB7, 8) == 0x417955BC;
  }

  /** The register for the test message, no input reflection, least significant byte first as written, byte by byte. */
  lemma PlainLsbFirstRegister1(data: bv64)
    requires TestMessage(data)
    ensures Register(data, 0x04C11DB7, 0x00000000, false, LsbFirst, 1) == 0xF3B06B3B
  {
    assert Shifts(0x74000000, 0x04C11DB7, 8) == 0xF3B06B3B;
  }

  lemma PlainLsbFirstRegister2(data: bv64)
    requires TestMessage(data)
    ensures Register(data, 0x04C11DB7, 0x00000000, false, LsbFirst, 2) == 0x8FF04D2C
  {
    PlainLsbFirstRegister1(data);
    assert Shifts(0x96B06B3B, 0x04C11DB7, 8) == 0x8FF04D2C;
  }

  lemma PlainLsbFirstRegister3(data: bv64)
    requires TestMessage(data)
    ensures Register(data, 0x04C11DB7, 0x00000000, false, LsbFirst, 3) == 0x00E8911D
  {
    PlainLsbFirstRegister2(data);
    assert Shifts(0xECF04D2C, 0x04C11DB7, 8) == 0x00E8911D;
  }

  lemma PlainLsbFirstRegister4(data: bv64)
    requires TestMessage(data)
    ensures Register(data, 0x04C11DB7, 0x00000000, false, LsbFirst, 4) == 0x7C7B662A
  {
    PlainLsbFirstRegister3(data);
    assert Shifts(0x6FE8911D, 0x04C11DB7, 8) == 0x7C7B662A;
  }

  lemma PlainLsbFirstRegister5(data: bv64)
    requires TestMessage(data)
    ensures Register(data, 0x04C11DB7, 0x00000000, false, LsbFirst, 5) == 0x432997BD
  {
    PlainLsbFirstRegister4(data);
    assert Shifts(0x0F7B662A, 0x04C11DB7, 8) == 0x432997BD;
  }

  lemma PlainLsbFirstRegister6(data: bv64)
    requires TestMessage(data)
    ensures Register(data, 0x04C11DB7, 0x00000000, false, LsbFirst, 6) == 0xF0E6F649
  {
    PlainLsbFirstRegister5(data);
    assert Shifts(0x332997BD, 0x04C11DB7, 8) == 0xF0E6F649;
  }

  lemma PlainLsbFirstRegister7(data: bv64)
    requires TestMessage(data)
    ensures Register(data, 0x04C11DB7, 0x00000000, false, LsbFirst, 7) == 0xE1228291
  {
    PlainLsbFirstRegister6(data);
    assert Shifts(0x99E6F649, 0x04C11DB7, 8) == 0xE1228291;
  }

  lemma PlainLsbFirstRegister8(data: bv64)
    requires TestMessage(data)
    ensures Register(data, 0x04C11DB7, 0x00000000, false, LsbFirst, 8) == 0x19D8FA9B
  {
    PlainLsbFirstRegister7(data);
    assert Shifts(0x97228291, 0x04C11DB7, 8) == 0x19D8FA9B;
  }

  /** The register for the sixth test word, polynomial 0x06782345, most significant byte first, byte by byte. */
  lemma OtherPolyRegister1(data: bv64)
    requires SixthWord(data)
    ensures Register(data, 0x06782345, 0x00000000, false, MsbFirst, 1) == 0x8D60399B
  {
    assert Shifts(0x46000000, 0x06782345, 8) == 0x8D60399B;
  }

  lemma OtherPolyRegister2(data: bv64)
    requires SixthWord(data)
    ensures Register(data, 0x06782345, 0x00000000, false, MsbFirst, 2) == 0xC1175C1D
  {
    OtherPolyRegister1(data);
    assert Shifts(0xBA60399B, 0x06782345, 8) == 0xC1175C1D;
  }

  lemma OtherPolyRegister3(data: bv64)
    requires SixthWord(data)
    ensures Register(data, 0x06782345, 0x00000000, false, MsbFirst, 3) == 0x7A410660
  {
    OtherPolyRegister2(data);
    assert Shifts(0xE2175C1D, 0x06782345, 8) == 0x7A410660;
  }

  lemma OtherPolyRegister4(data: bv64)
    requires SixthWord(data)
    ensures Register(data, 0x06782345, 0x00000000, false, MsbFirst, 4) == 0xC929CE03
  {
    OtherPolyRegister3(data);
    assert Shifts(0x3F410660, 0x06782345, 8) == 0xC929CE03;
  }

  lemma OtherPolyRegister5(data: bv64)
    requires SixthWord(data)
    ensures Register(data, 0x06782345, 0x00000000, false, MsbFirst, 5) == 0x911703F6
  {
    OtherPolyRegister4(data);
    assert Shifts(0x4F29CE03, 0x06782345, 8) == 0x911703F6;
  }

  lemma OtherPolyRegister6(data: bv64)
    requires SixthWord(data)
    ensures Register(data, 0x06782345, 0x00000000, false, MsbFirst, 6) == 0x697605BB
  {
    OtherPolyRegister5(data);
    assert Shifts(0xE51703F6, 0x06782345, 8) == 0x697605BB;
  }

  lemma OtherPolyRegister7(data: bv64)
    requires SixthWord(data)
    ensures Register(data, 0x06782345, 0x00000000, false, MsbFirst, 7) == 0x217121A5
  {
    OtherPolyRegister6(data);
    assert Shifts(0x607605BB, 0x06782345, 8) == 0x217121A5;
  }

  lemma OtherPolyRegister8(data: bv64)
    requires SixthWord(data)
    ensures Register(data, 0x06782345, 0x00000000, false, MsbFirst, 8) == 0x9BD4E234
  {
    OtherPolyRegister7(data);
    assert Shifts(0xA77121A5, 0x06782345, 8) == 0x9BD4E234;
  }

  /** The register for the sixth test word, polynomial 0x06782345, least significant byte first as written, byte by byte. */
  lemma OtherPolyLsbFirstRegister1(data: bv64)
    requires SixthWord(data)
    ensures Register(data, 0x06782345, 0x00000000, false, LsbFirst, 1) == 0x23890CD1
  {
    assert Shifts(0x86000000, 0x06782345, 8) == 0x23890CD1;
  }

  lemma OtherPolyLsbFirstRegister2(data: bv64)
    requires SixthWord(data)
    ensures Register(data, 0x06782345, 0x00000000, false, LsbFirst, 2) == 0x7939E502
  {
    OtherPolyLsbFirstRegister1(data);
    assert Shifts(0x2A890CD1, 0x06782345, 8) == 0x7939E502;
  }

  lemma OtherPolyLsbFirstRegister3(data: bv64)
    requires SixthWord(data)
    ensures Register(data, 0x06782345, 0x00000000, false, LsbFirst, 3) == 0x15BCB679
  {
    OtherPolyLsbFirstRegister2(data);
    assert Shifts(0x0D39E502, 0x06782345, 8) == 0x15BCB679;
  }

  lemma OtherPolyLsbFirstRegister4(data: bv64)
    requires SixthWord(data)
    ensures Register(data, 0x06782345, 0x00000000, false, LsbFirst, 4) == 0xE725EFD0
  {
    OtherPolyLsbFirstRegister3(data);
    assert Shifts(0x93BCB679, 0x06782345, 8) == 0xE725EFD0;
  }

  lemma OtherPolyLsbFirstRegister5(data: bv64)
    requires SixthWord(data)
    ensures Register(data, 0x06782345, 0x00000000, false, LsbFirst, 5) == 0xD0823965
  {
    OtherPolyLsbFirstRegister4(data);
    assert Shifts(0xA225EFD0, 0x06782345, 8) == 0xD0823965;
  }

  lemma OtherPolyLsbFirstRegister6(data: bv64)
    requires SixthWord(data)
    ensures Register(data, 0x06782345, 0x00000000, false, LsbFirst, 6) == 0x8EDE6975
  {
    OtherPolyLsbFirstRegister5(data);
    assert Shifts(0xF3823965, 0x06782345, 8) == 0x8EDE6975;
  }

  lemma OtherPolyLsbFirstRegister7(data: bv64)
    requires SixthWord(data)
    ensures Register(data, 0x06782345, 0x00000000, false, LsbFirst, 7) == 0x75CFD7D2
  {
    OtherPolyLsbFirstRegister6(data);
    assert Shifts(0xB9DE6975, 0x06782345, 8) == 0x75CFD7D2;
  }

  lemma OtherPolyLsbFirstRegister8(data: bv64)
    requires SixthWord(data)
    ensures Register(data, 0x06782345, 0x00000000, false, LsbFirst, 8) == 0x6DD9EB3F
  {
    OtherPolyLsbFirstRegister7(data);
    assert Shifts(0x33CFD7D2, 0x06782345, 8) == 0x6DD9EB3F;
  }

  /** Test case 1 under the byte order as written (least significant byte first): the result is 0x19D8FA9B, not the expected 0x36CE4FEC. */
  lemma AsWrittenVector1(data: bv64)
    requires TestMessage(data)
    ensures Crc(data, 0x04C11DB7, 0x00000000, 0x00000000, false, false, LsbFirst) == 0x19D8FA9B
  {
    PlainLsbFirstRegister8(data);
  }

  /** Test case 1 (no reflection), most significant byte first: the expected 0x36CE4FEC. */
  lemma Vector1(data: bv64)
    requires TestMessage(data)
    ensures Crc(data, 0x04C11DB7, 0x00000000, 0x00000000, false, false, MsbFirst) == 0x36CE4FEC
  {
    PlainRegister8(data);
  }

  /** Test case 2 (reflect in), most significant byte first: the expected 0x287DEEE5. */
  lemma Vector2(data: bv64)
    requires TestMessage(data)
    ensures Crc(data, 0x04C11DB7, 0x00000000, 0x00000000, true, false, MsbFirst) == 0x287DEEE5
  {
    ReflectInRegister8(data);
  }

  /** Test case 3 (reflect in and out), most significant byte first: the expected 0xA777BE14. */
  lemma Vector3(data: bv64)
    requires TestMessage(data)
    ensures Crc(data, 0x04C11DB7, 0x00000000, 0x00000000, true, true, MsbFirst) == 0xA777BE14
  {
    ReflectInRegister8(data);
    Reflect287DEEE5();
  }

  /** Test case 4 (reflect in, seed 0xFFFFFFFF), most significant byte first: the expected 0x417955BC. */
  lemma Vector4(data: bv64)
    requires TestMessage(data)
    ensures Crc(data, 0x04C11DB7, 0xFFFFFFFF, 0x00000000, true, false, MsbFirst) == 0x417955BC
  {
    ReflectInSeededRegister8(data);
  }

  /** Test case 5 (final XOR 0xFFFFFFFF, reflect out), most significant byte first: the expected 0xC80D8C93. */
  lemma Vector5(data: bv64)
    requires TestMessage(data)
    ensures Crc(data, 0x04C11DB7, 0x00000000, 0xFFFFFFFF, false, true, MsbFirst) == 0xC80D8C93
  {
    PlainRegister8(data);
    Reflect36CE4FEC();
  }

  /** Test case 6 (polynomial 0x06782345, final XOR 0xFFFFFFFF), most significant byte first: 0x642B1DCB, not the expected 0xEF26C3B7. */
  lemma Vector6MsbFirst(data: bv64)
    requires SixthWord(data)
    ensures Crc(data, 0x06782345, 0x00000000, 0xFFFFFFFF, false, false, MsbFirst) == 0x642B1DCB
  {
    OtherPolyRegister8(data);
  }

  /** Test case 6 under the byte order as written: 0x922614C0, not the expected 0xEF26C3B7. */
  lemma Vector6AsWritten(data: bv64)
    requires SixthWord(data)
    ensures Crc(data, 0x06782345, 0x00000000, 0xFFFFFFFF, false, false, LsbFirst) == 0x922614C0
  {
    OtherPolyLsbFirstRegister8(data);
  }
}
