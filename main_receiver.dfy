/** The receiver of main.c: the same SLIP decoder with a 10 KiB frame
    buffer, and handlers without the META range checks, appending DATA
    payloads into the 10 KiB static data_buf. */
module MainReceiver {
  import opened Bytes
  import Slip

  const MAX_FRAME: nat := 10 * 1024
  const MEM_SIZE: nat := 10 * 1024
  const TYPE_META: u8 := 0x01
  const TYPE_DATA: u8 := 0x02
  const MIN_META: nat := 13
  const MIN_DATA: nat := 11
  const FNAME_SIZE: nat := 256

  /** transfer_info_t of main.c: `active` is a uint32_t and there are no
      write pointers. */
  datatype TransferInfo = TransferInfo(
    fileId: u32, total: u32, received: u32, chunk: u16, expectSeq: u32,
    active: u32, fnameLen: u8, fname: seq<u8>)

  /** The all-zero transfer_info_t. */
  const Cleared: TransferInfo := TransferInfo(0, 0, 0, 0, 0, 0, 0, Zeros(FNAME_SIZE))

  /** The session and data_buf. */
  datatype Session = Session(info: TransferInfo, dataBuf: seq<u8>)

  /** received never passes total nor the size of data_buf. */
  predicate InfoInv(t: TransferInfo)
  {
    |t.fname| == FNAME_SIZE && t.received <= t.total && t.received <= MEM_SIZE
  }

  predicate Inv(s: Session)
  {
    InfoInv(s.info) && |s.dataBuf| == MEM_SIZE
  }

  /** Frames handed to the handlers are the whole frame_buf and its length. */
  predicate FrameOk(f: Slip.Frame)
  {
    f.len <= |f.buf| == MAX_FRAME
  }

  // ---------------------------------------------------------------------
  // Handlers.

  /** handle_meta. Only a frame shorter than the header is refused; the name
      is copied from frame_buf for buf[12] bytes even when the frame ends
      earlier, and transfer_info.fname_len is left at the 0 memset wrote. */
  function OnMeta(s: Session, f: Slip.Frame): (r: Session)
    requires Inv(s) && FrameOk(f)
    ensures Inv(r) && r.dataBuf == s.dataBuf
  {
    if f.len < MIN_META then s
    else
      var fileId := Rd32(f.buf, 2);
      var totalSize := Rd32(f.buf, 6);
      var chunk := Rd16(f.buf, 10);
      var fnameLen := f.buf[12];
      var fname := f.buf[13 .. 13 + fnameLen] + Zeros(FNAME_SIZE - fnameLen);
      Session(TransferInfo(fileId, totalSize, 0, chunk, 0, 1, 0, fname), s.dataBuf)
  }

  /** handle_data: the checks of the hardened receiver, with the capacity
      check made on `received` against the size of data_buf. */
  function OnData(s: Session, f: Slip.Frame): (r: Session)
    requires Inv(s) && FrameOk(f)
    ensures Inv(r)
    ensures r.info.received >= s.info.received && r.info.total == s.info.total
  {
    var t := s.info;
    if t.active == 0 then s
    else if f.len < MIN_DATA then s
    else
      var fileId := Rd32(f.buf, 1);
      var sq := Rd32(f.buf, 5);
      var len := Rd16(f.buf, 9);
      if MIN_DATA + len > f.len then s
      else if fileId != t.fileId then s
      else if sq != t.expectSeq then s
      else if t.received + len > t.total then s
      else if t.received + len > MEM_SIZE then s
      else
        var dataBuf := s.dataBuf[..t.received] + f.buf[MIN_DATA .. MIN_DATA + len]
                       + s.dataBuf[t.received + len ..];
        var received := t.received + len;
        Session(t.(received := received, expectSeq := (sq as int + 1) % 0x1_0000_0000,
                   active := if received == t.total then 0 else t.active),
                dataBuf)
  }

  /** handle_frame. */
  function OnFrame(s: Session, f: Slip.Frame): (r: Session)
    requires Inv(s) && FrameOk(f)
    ensures Inv(r)
  {
    var ty := f.buf[0];
    if f.len == 0 then s
    else if ty == TYPE_META then OnMeta(s, f)
    else if ty == TYPE_DATA then OnData(s, f)
    else s
  }

  // ---------------------------------------------------------------------
  // What the handlers accept.

  predicate DataAcceptable(t: TransferInfo, f: Slip.Frame)
    requires InfoInv(t) && FrameOk(f)
  {
    t.active != 0 && f.len >= MIN_DATA
    && MIN_DATA + Rd16(f.buf, 9) <= f.len
    && Rd32(f.buf, 1) == t.fileId
    && Rd32(f.buf, 5) == t.expectSeq
    && t.received + Rd16(f.buf, 9) <= t.total
    && t.received + Rd16(f.buf, 9) <= MEM_SIZE
  }

  /** Every META frame of at least 13 bytes opens a session, whatever size and
      name length it announces; the stored fname_len is always 0. */
  lemma MetaEffect(s: Session, f: Slip.Frame)
    requires Inv(s) && FrameOk(f)
    ensures f.len < MIN_META ==> OnMeta(s, f) == s
    ensures f.len >= MIN_META ==>
      var t := OnMeta(s, f).info;
      t.active == 1 && t.received == 0 && t.expectSeq == 0 && t.fnameLen == 0
      && t.fileId == Rd32(f.buf, 2) && t.total == Rd32(f.buf, 6) && t.chunk == Rd16(f.buf, 10)
      && t.fname[..f.buf[12]] == f.buf[13 .. 13 + f.buf[12]] && t.fname[f.buf[12]] == 0
      && t.fname[f.buf[12]..] == Zeros(FNAME_SIZE - f.buf[12])
  {
  }

  /** handle_meta reads past the end of the frame: two META frames with the
      same 13 bytes (the last one announcing a one-byte name) that differ only
      in stale frame_buf contents give different sessions. */
  lemma MetaReadsStaleBytes()
    ensures var b1 := [1, 1] + Zeros(10) + [1] + [0x41] + Zeros(MAX_FRAME - 14);
            var b2 := [1, 1] + Zeros(10) + [1] + [0x42] + Zeros(MAX_FRAME - 14);
            var s := Session(Cleared, Zeros(MEM_SIZE));
            Slip.Content(Slip.Frame(b1, 13)) == Slip.Content(Slip.Frame(b2, 13))
            && OnFrame(s, Slip.Frame(b1, 13)).info.fname[0] == 0x41
            && OnFrame(s, Slip.Frame(b2, 13)).info.fname[0] == 0x42
  {
    var b1: seq<u8> := [1, 1] + Zeros(10) + [1] + [0x41] + Zeros(MAX_FRAME - 14);
    var b2: seq<u8> := [1, 1] + Zeros(10) + [1] + [0x42] + Zeros(MAX_FRAME - 14);
    assert b1[..13] == b2[..13];
    assert b1[0] == 1 && b1[12] == 1 && b1[13] == 0x41;
    assert b2[0] == 1 && b2[12] == 1 && b2[13] == 0x42;
  }

  /** handle_data changes the session exactly when every check passes. */
  lemma DataChangesIffAccepted(s: Session, f: Slip.Frame)
    requires Inv(s) && FrameOk(f)
    ensures OnData(s, f) != s <==> DataAcceptable(s.info, f)
  {
    if DataAcceptable(s.info, f) {
      var sq := Rd32(f.buf, 5);
      assert OnData(s, f).info.expectSeq == (sq as int + 1) % 0x1_0000_0000 != sq;
    }
  }

  /** An accepted payload is copied to data_buf[received ..], which is in
      bounds, and nothing else in data_buf changes. */
  lemma DataEffect(s: Session, f: Slip.Frame)
    requires Inv(s) && FrameOk(f) && DataAcceptable(s.info, f)
    ensures var r := OnData(s, f); var len := Rd16(f.buf, 9); var off := s.info.received;
      && off + len <= MEM_SIZE
      && r.dataBuf[off .. off + len] == f.buf[MIN_DATA .. MIN_DATA + len]
      && r.dataBuf[..off] == s.dataBuf[..off] && r.dataBuf[off + len ..] == s.dataBuf[off + len ..]
      && r.info.received == off + len
      && r.info.expectSeq == (Rd32(f.buf, 5) as int + 1) % 0x1_0000_0000
      && (r.info.active == 0 <==> r.info.received == r.info.total)
      && r.info == s.info.(received := r.info.received, expectSeq := r.info.expectSeq,
                           active := r.info.active)
  {
  }

  /** With the size check gone, a session announcing more than data_buf holds
      can never be completed: no DATA frame closes it. */
  lemma OversizedNeverCompletes(s: Session, f: Slip.Frame)
    requires Inv(s) && FrameOk(f) && s.info.total > MEM_SIZE && s.info.active != 0
    ensures OnData(s, f).info.active != 0 && OnData(s, f).info.total == s.info.total
  {
  }

  // ---------------------------------------------------------------------
  // The receiver: decoder and session together.

  datatype State = State(dec: Slip.Decoder, session: Session)

  predicate StateInv(st: State)
  {
    Slip.Valid(st.dec) && |st.dec.buf| == MAX_FRAME && Inv(st.session)
  }

  /** split_byte_stream(byte), including the handle_frame call it may make.
      X07Receiver.Receive has the same text over the checked receiver's session. */
  function Receive(st: State, b: u8): (r: State)
    requires StateInv(st)
    ensures StateInv(r)
  {
    var o := Slip.Feed(st.dec, b);
    match o.dispatched
    case None => State(o.next, st.session)
    case Some(f) => State(o.next, OnFrame(st.session, f))
  }

  function ReceiveAll(st: State, bytes: seq<u8>): (r: State)
    requires StateInv(st)
    ensures StateInv(r)
    decreases |bytes|
  {
    if bytes == [] then st else ReceiveAll(Receive(st, bytes[0]), bytes[1..])
  }

  /** The zero-initialised statics, data_buf included. */
  function Initial(): (st: State)
    ensures StateInv(st)
  {
    State(Slip.Initial(MAX_FRAME), Session(Cleared, Zeros(MEM_SIZE)))
  }

  // ---------------------------------------------------------------------
  // The globals, updated in place.

  class Receiver {
    var splitter: Slip.Splitter
    var info: TransferInfo
    var dataBuf: array<u8>

    ghost predicate Valid()
      reads this, splitter
    {
      splitter.Valid() && splitter.frameBuf.Length == MAX_FRAME
      && dataBuf.Length == MEM_SIZE && dataBuf != splitter.frameBuf && InfoInv(info)
    }

    function Model(): State
      reads this, splitter, splitter.frameBuf, dataBuf
    {
      State(splitter.Model(), Session(info, dataBuf[..]))
    }

    constructor ()
      ensures Valid() && fresh(splitter) && fresh(splitter.frameBuf) && fresh(dataBuf)
      ensures Model() == Initial()
    {
      splitter := new Slip.Splitter(MAX_FRAME);
      info := Cleared;
      dataBuf := new u8[MEM_SIZE](_ => 0);
    }

    /** split_byte_stream, with the frame it completes handed to handle_frame. */
    method SplitByteStream(b: u8)
      requires Valid()
      modifies splitter, splitter.frameBuf, this`info, dataBuf
      ensures Valid() && splitter == old(splitter) && splitter.frameBuf == old(splitter.frameBuf)
      ensures dataBuf == old(dataBuf)
      ensures Model() == Receive(old(Model()), b)
    {
      var dispatched := splitter.SplitByte(b);
      if dispatched.Some? {
        HandleFrame(dispatched.value);
      }
    }

    method HandleFrame(f: Slip.Frame)
      requires Valid() && FrameOk(f)
      modifies this`info, dataBuf
      ensures Valid() && Session(info, dataBuf[..]) == OnFrame(old(Session(info, dataBuf[..])), f)
    {
      var ty := f.buf[0];
      if f.len == 0 {
        return;
      }
      if ty == TYPE_META {
        HandleMeta(f);
      } else if ty == TYPE_DATA {
        HandleData(f);
      }
    }

    method HandleMeta(f: Slip.Frame)
      requires Valid() && FrameOk(f)
      modifies this`info
      ensures Valid() && Session(info, dataBuf[..]) == OnMeta(old(Session(info, dataBuf[..])), f)
    {
      if f.len < MIN_META {
        return;
      }
      var fileId := Rd32(f.buf, 2);
      var totalSize := Rd32(f.buf, 6);
      var chunk := Rd16(f.buf, 10);
      var fnameLen := f.buf[12];
      info := Cleared;
      info := info.(fileId := fileId, total := totalSize, chunk := chunk);
      info := info.(received := 0, expectSeq := 0, active := 1);
      if fnameLen != 0 {
        info := info.(fname := f.buf[13 .. 13 + fnameLen] + info.fname[fnameLen..]);
      }
      info := info.(fname := info.fname[fnameLen := 0]);
    }

    method HandleData(f: Slip.Frame)
      requires Valid() && FrameOk(f)
      modifies this`info, dataBuf
      ensures Valid() && Session(info, dataBuf[..]) == OnData(old(Session(info, dataBuf[..])), f)
    {
      if info.active == 0 {
        return;
      }
      if f.len < MIN_DATA {
        return;
      }
      var fileId := Rd32(f.buf, 1);
      var sq := Rd32(f.buf, 5);
      var len := Rd16(f.buf, 9);
      if MIN_DATA + len > f.len {
        return;
      }
      if fileId != info.fileId {
        return;
      }
      if sq != info.expectSeq {
        return;
      }
      if info.received + len > info.total {
        return;
      }
      if info.received + len > MEM_SIZE {
        return;
      }
      var off := info.received;
      Memcpy(dataBuf, off, f.buf[MIN_DATA .. MIN_DATA + len]);
      info := info.(received := info.received + len);
      info := info.(expectSeq := (sq as int + 1) % 0x1_0000_0000);
      if info.received == info.total {
        info := info.(active := 0);
      }
    }
  }
}
