/** The software receive buffer of SLIP/uart_read_byte_nonblock.h. One read
    of the UART data register yields up to three bytes (the fill count sits
    in its top byte); they are kept in rx_sw_buf and handed out one per
    call. The two register reads are replaced by the values they would
    return, passed in by the caller. */
module UartRx {
  import opened Bytes

  /** What one call yields: 0 (no byte), or 1 with the byte stored in *out. */
  datatype Read = NoByte | Byte(value: u8)

  /** rx_sw_buf, rx_sw_cnt and rx_sw_idx. */
  datatype RxState = RxState(buf: seq<u8>, cnt: nat, idx: nat)

  /** Every access rx_sw_buf[rx_sw_idx] made while bytes remain is in bounds. */
  predicate RxInv(s: RxState)
  {
    |s.buf| == 3 && s.idx + s.cnt <= 3
  }

  /** The bytes still to be handed out, oldest first. */
  function Pending(s: RxState): seq<u8>
    requires RxInv(s)
  {
    s.buf[s.idx .. s.idx + s.cnt]
  }

  /** The zero-initialised statics. */
  const Initial: RxState := RxState([0, 0, 0], 0, 0)

  /** fifoCount after its two corrections: a count of 0 is taken as 1, and
      anything above 3 as 3. */
  function ClampCount(raw: u8): (c: nat)
    ensures 1 <= c <= 3
    ensures 1 <= raw <= 3 ==> c == raw
    ensures raw == 0 ==> c == 1
    ensures raw > 3 ==> c == 3
  {
    if raw == 0 then 1 else if raw > 3 then 3 else raw
  }

  /** The fill count: bits 24..31 of the data word. */
  function FifoCount(data: u32): u8
  {
    data / 0x100_0000
  }

  /** The three low bytes of the data word, least significant first. */
  function Unpack(data: u32): (b: seq<u8>)
    ensures |b| == 3
  {
    [data % 0x100, (data / 0x100) % 0x100, (data / 0x100 / 0x100) % 0x100]
  }

  /** The unpacked bytes are the word's low 24 bits, and the count is the rest. */
  lemma UnpackRoundTrip(data: u32)
    ensures var b := Unpack(data);
      b[0] + 0x100 * (b[1] + 0x100 * b[2]) + 0x100_0000 * FifoCount(data) == data
  {
    var q1 := data / 0x100;
    var q2 := q1 / 0x100;
    assert data == data % 0x100 + 0x100 * q1;
    assert q1 == q1 % 0x100 + 0x100 * q2;
    assert q2 == q2 % 0x100 + 0x100 * (q2 / 0x100);
    assert q2 / 0x100 == FifoCount(data);
  }

  /** One call of uart_read_byte_nonblock: the new state and what it yields. */
  function Step(s: RxState, rxstate: u32, rxdata: u32): (r: (RxState, Read))
    requires RxInv(s)
    ensures RxInv(r.0)
    ensures s.cnt > 0 ==> r.1 == Byte(Pending(s)[0]) && Pending(r.0) == Pending(s)[1..]
    ensures s.cnt == 0 && rxstate % 2 == 0 ==> r == (s, NoByte)
    ensures s.cnt == 0 && rxstate % 2 == 1 ==>
      var c := ClampCount(FifoCount(rxdata));
      r.1 == Byte(Unpack(rxdata)[0]) && Pending(r.0) == Unpack(rxdata)[1 .. c]
  {
    if s.cnt != 0 then
      (s.(idx := s.idx + 1, cnt := s.cnt - 1), Byte(s.buf[s.idx]))
    else if rxstate % 2 == 0 then
      (s, NoByte)
    else
      var b := Unpack(rxdata);
      (RxState(b, ClampCount(FifoCount(rxdata)) - 1, 1), Byte(b[0]))
  }

  /** While buffered bytes remain, the registers are not looked at. */
  lemma BufferedIgnoresRegisters(s: RxState, rxstate: u32, rxdata: u32, rxstate': u32, rxdata': u32)
    requires RxInv(s) && s.cnt > 0
    ensures Step(s, rxstate, rxdata) == Step(s, rxstate', rxdata')
  {
  }

  /** The register values a sequence of calls would see. */
  datatype Regs = Regs(rxstate: u32, rxdata: u32)

  /** Calls one after the other: the final state and what each call yielded. */
  function Run(s: RxState, regs: seq<Regs>): (r: (RxState, seq<Read>))
    requires RxInv(s)
    ensures RxInv(r.0) && |r.1| == |regs|
    decreases |regs|
  {
    if regs == [] then (s, [])
    else
      var (s1, x) := Step(s, regs[0].rxstate, regs[0].rxdata);
      var (s2, xs) := Run(s1, regs[1..]);
      (s2, [x] + xs)
  }

  function AsReads(bs: seq<u8>): (rs: seq<Read>)
    ensures |rs| == |bs| && forall i | 0 <= i < |bs| :: rs[i] == Byte(bs[i])
  {
    seq(|bs|, i requires 0 <= i < |bs| => Byte(bs[i]))
  }

  /** As many calls as bytes are buffered hand them out in order, whatever
      the registers hold, and leave the buffer empty. */
  lemma {:induction false} DrainInOrder(s: RxState, regs: seq<Regs>)
    requires RxInv(s) && |regs| == s.cnt
    ensures Run(s, regs).1 == AsReads(Pending(s)) && Run(s, regs).0.cnt == 0
    decreases |regs|
  {
    if regs != [] {
      var (s1, x) := Step(s, regs[0].rxstate, regs[0].rxdata);
      DrainInOrder(s1, regs[1..]);
      assert Run(s, regs).1 == [x] + Run(s1, regs[1..]).1;
      assert AsReads(Pending(s)) == [x] + AsReads(Pending(s1));
    } else {
      assert AsReads(Pending(s)) == [];
    }
  }

  /** With the buffer empty and a byte available, one register word yields
      exactly its clamped count of bytes, least significant first, over
      consecutive calls; the register is read again only after that. */
  lemma OneWordPerRefill(s: RxState, regs: seq<Regs>)
    requires RxInv(s) && s.cnt == 0 && regs != [] && regs[0].rxstate % 2 == 1
    requires |regs| == ClampCount(FifoCount(regs[0].rxdata))
    ensures var c := ClampCount(FifoCount(regs[0].rxdata));
      Run(s, regs).1 == AsReads(Unpack(regs[0].rxdata)[..c]) && Run(s, regs).0.cnt == 0
  {
    var d := regs[0].rxdata;
    var c := ClampCount(FifoCount(d));
    var (s1, x) := Step(s, regs[0].rxstate, d);
    DrainInOrder(s1, regs[1..]);
    assert Run(s, regs).1 == [x] + Run(s1, regs[1..]).1;
    assert Unpack(d)[..c] == [Unpack(d)[0]] + Pending(s1);
    assert AsReads(Unpack(d)[..c]) == [x] + AsReads(Pending(s1));
  }

  /** The statics and the buffer, updated in place. */
  class Receiver {
    var rxSwBuf: array<u8>
    var rxSwCnt: nat
    var rxSwIdx: nat

    ghost predicate Valid()
      reads this, rxSwBuf
    {
      rxSwBuf.Length == 3 && rxSwIdx + rxSwCnt <= 3
    }

    function Model(): (s: RxState)
      reads this, rxSwBuf
    {
      RxState(rxSwBuf[..], rxSwCnt, rxSwIdx)
    }

    constructor ()
      ensures Valid() && fresh(rxSwBuf) && Model() == Initial
    {
      rxSwBuf := new u8[3](_ => 0);
      rxSwCnt := 0;
      rxSwIdx := 0;
    }

    /** uart_read_byte_nonblock, given what rxstate and rxdata would read. */
    method ReadByteNonblock(rxstate: u32, rxdata: u32) returns (r: Read)
      requires Valid()
      modifies this`rxSwCnt, this`rxSwIdx, rxSwBuf
      ensures Valid()
      ensures (Model(), r) == Step(old(Model()), rxstate, rxdata)
    {
      if rxSwCnt != 0 {
        r := Byte(rxSwBuf[rxSwIdx]);
        rxSwIdx := rxSwIdx + 1;
        rxSwCnt := rxSwCnt - 1;
        return;
      }
      if rxstate % 2 == 0 {
        return NoByte;
      }
      var data := rxdata;
      var fifoCount := data / 0x100_0000;
      if fifoCount == 0 {
        fifoCount := 1;
      }
      if fifoCount > 3 {
        fifoCount := 3;
      }
      rxSwBuf[0] := data % 0x100;
      rxSwBuf[1] := (data / 0x100) % 0x100;
      rxSwBuf[2] := (data / 0x100 / 0x100) % 0x100;
      assert rxSwBuf[..] == Unpack(rxdata);
      rxSwCnt := fifoCount;
      rxSwIdx := 0;
      r := Byte(rxSwBuf[rxSwIdx]);
      rxSwIdx := rxSwIdx + 1;
      rxSwCnt := rxSwCnt - 1;
    }
  }
}
