/** The hardened receiver of SLIP/x07_receiver.c: the SLIP decoder with an
    8 KiB frame buffer feeding handle_frame, whose META and DATA handlers
    open a transfer session and append its payloads, in sequence order, to a
    64 MiB memory region starting at MEM_BASE. */
module X07Receiver {
  import opened Bytes
  import Slip

  const MAX_FRAME: nat := 8 * 1024
  const MEM_SIZE: nat := 64 * 1024 * 1024
  const MEM_BASE: nat := 0x8000_0000
  const TYPE_META: u8 := 0x01
  const TYPE_DATA: u8 := 0x02
  const MIN_META: nat := 13
  const MIN_DATA: nat := 11
  const FNAME_SIZE: nat := 256

  /** transfer_info_t. The two pointers are addresses; fname is the whole
      256-byte array. */
  datatype TransferInfo = TransferInfo(
    fileId: u32, total: u32, received: u32, chunk: u16, expectSeq: u32,
    writeBase: nat, writePtr: nat, active: bool, fnameLen: u8, fname: seq<u8>)

  /** The all-zero transfer_info_t: the static's initial value, and what memset leaves. */
  const Cleared: TransferInfo :=
    TransferInfo(0, 0, 0, 0, 0, 0, 0, false, 0, Zeros(FNAME_SIZE))

  /** The session and the memory region MEM_BASE .. MEM_BASE + MEM_SIZE. */
  datatype Session = Session(info: TransferInfo, mem: seq<u8>)

  /** write_ptr - write_base == received <= total <= MEM_SIZE, and an active
      session writes into the region at MEM_BASE. */
  predicate InfoInv(t: TransferInfo)
  {
    |t.fname| == FNAME_SIZE
    && t.writePtr == t.writeBase + t.received
    && t.received <= t.total <= MEM_SIZE
    && (t.active ==> t.writeBase == MEM_BASE)
  }

  predicate Inv(s: Session)
  {
    InfoInv(s.info) && |s.mem| == MEM_SIZE
  }

  // ---------------------------------------------------------------------
  // Handlers.

  /** handle_meta. A frame that is too short for its header or its name, or
      announces more than MEM_SIZE bytes, changes nothing; any other frame
      replaces the whole session. The clamp of fname_len to 255 can never
      fire for a byte and has no counterpart here. */
  function OnMeta(s: Session, f: Slip.Frame): (r: Session)
    requires Inv(s) && f.len <= |f.buf|
    ensures Inv(r) && r.mem == s.mem
  {
    if f.len < MIN_META then s
    else
      var fileId := Rd32(f.buf, 2);
      var total := Rd32(f.buf, 6);
      var chunk := Rd16(f.buf, 10);
      var fnameLen := f.buf[12];
      if MIN_META + fnameLen > f.len then s
      else if total > MEM_SIZE then s
      else
        var fname := f.buf[13 .. 13 + fnameLen] + Zeros(FNAME_SIZE - fnameLen);
        Session(TransferInfo(fileId, total, 0, chunk, 0, MEM_BASE, MEM_BASE, true, fnameLen, fname), s.mem)
  }

  /** handle_data. Each failed check returns before anything changes; an
      accepted payload is copied to write_ptr, both counters advance, the
      next sequence number is expected (wrapping as a uint32_t), and the
      session closes when the total is reached. */
  function OnData(s: Session, f: Slip.Frame): (r: Session)
    requires Inv(s) && f.len <= |f.buf|
    ensures Inv(r)
    ensures r.info.received >= s.info.received && r.info.total == s.info.total
  {
    var t := s.info;
    if !t.active then s
    else if f.len < MIN_DATA then s
    else
      var fileId := Rd32(f.buf, 1);
      var sq := Rd32(f.buf, 5);
      var len := Rd16(f.buf, 9);
      if MIN_DATA + len > f.len then s
      else if fileId != t.fileId then s
      else if sq != t.expectSeq then s
      else if t.received + len > t.total then s
      else
        var used := t.writePtr - t.writeBase;
        if used + len > MEM_SIZE then s
        else
          var off := t.writePtr - MEM_BASE;
          var mem := s.mem[..off] + f.buf[MIN_DATA .. MIN_DATA + len] + s.mem[off + len ..];
          var received := t.received + len;
          Session(t.(writePtr := t.writePtr + len, received := received,
                     expectSeq := (sq as int + 1) % 0x1_0000_0000,
                     active := if received == t.total then false else t.active),
                  mem)
  }

  /** handle_frame: dispatch on the type byte; other types are ignored. */
  function OnFrame(s: Session, f: Slip.Frame): (r: Session)
    requires Inv(s) && f.len <= |f.buf| && |f.buf| > 0
    ensures Inv(r)
  {
    var ty := f.buf[0];
    if f.len == 0 then s
    else if ty == TYPE_META then OnMeta(s, f)
    else if ty == TYPE_DATA then OnData(s, f)
    else s
  }

  // ---------------------------------------------------------------------
  // What the handlers accept.

  /** The checks handle_meta makes, all passed. */
  predicate MetaAcceptable(f: Slip.Frame)
    requires f.len <= |f.buf|
  {
    f.len >= MIN_META && MIN_META + f.buf[12] <= f.len && Rd32(f.buf, 6) <= MEM_SIZE
  }

  /** The checks handle_data makes, all passed. */
  predicate DataAcceptable(t: TransferInfo, f: Slip.Frame)
    requires InfoInv(t) && f.len <= |f.buf|
  {
    t.active && f.len >= MIN_DATA
    && MIN_DATA + Rd16(f.buf, 9) <= f.len
    && Rd32(f.buf, 1) == t.fileId
    && Rd32(f.buf, 5) == t.expectSeq
    && t.received + Rd16(f.buf, 9) <= t.total
    && (t.writePtr - t.writeBase) + Rd16(f.buf, 9) <= MEM_SIZE
  }

  /** A rejected META changes nothing; an accepted one opens a fresh session
      from the header, whatever the session was. */
  lemma MetaEffect(s: Session, f: Slip.Frame)
    requires Inv(s) && f.len <= |f.buf|
    ensures !MetaAcceptable(f) ==> OnMeta(s, f) == s
    ensures MetaAcceptable(f) ==>
      var t := OnMeta(s, f).info;
      t.active && t.received == 0 && t.expectSeq == 0 && t.writePtr == t.writeBase == MEM_BASE
      && t.fileId == Rd32(f.buf, 2) && t.total == Rd32(f.buf, 6) && t.chunk == Rd16(f.buf, 10)
      && t.fnameLen == f.buf[12] && t.fname[..t.fnameLen] == f.buf[13 .. 13 + t.fnameLen]
      && t.fname[t.fnameLen] == 0 && t.fname[t.fnameLen..] == Zeros(FNAME_SIZE - t.fnameLen)
  {
  }

  /** handle_data changes the session exactly when every check passes. */
  lemma DataChangesIffAccepted(s: Session, f: Slip.Frame)
    requires Inv(s) && f.len <= |f.buf|
    ensures OnData(s, f) != s <==> DataAcceptable(s.info, f)
  {
    if DataAcceptable(s.info, f) {
      var sq := Rd32(f.buf, 5);
      assert OnData(s, f).info.expectSeq == (sq as int + 1) % 0x1_0000_0000 != sq;
    }
  }

  /** An accepted payload lands at offset `received` of the region, nothing
      else in memory changes, and the counters and the sequence number move on. */
  lemma DataEffect(s: Session, f: Slip.Frame)
    requires Inv(s) && f.len <= |f.buf| && DataAcceptable(s.info, f)
    ensures var r := OnData(s, f); var len := Rd16(f.buf, 9); var off := s.info.received;
      && r.mem[off .. off + len] == f.buf[MIN_DATA .. MIN_DATA + len]
      && r.mem[..off] == s.mem[..off] && r.mem[off + len ..] == s.mem[off + len ..]
      && r.info.received == off + len && r.info.writePtr == s.info.writePtr + len
      && r.info.expectSeq == (Rd32(f.buf, 5) as int + 1) % 0x1_0000_0000
      && (r.info.active <==> r.info.received != r.info.total)
      && r.info == s.info.(received := r.info.received, writePtr := r.info.writePtr,
                           expectSeq := r.info.expectSeq, active := r.info.active)
  {
  }

  /** The handlers look at nothing past the frame's length: two buffers that
      agree on the frame give the same result. */
  lemma OnFrameReadsOnlyFrame(s: Session, f: Slip.Frame, g: Slip.Frame)
    requires Inv(s) && f.len <= |f.buf| && g.len <= |g.buf| && |f.buf| > 0 && |g.buf| > 0
    requires f.len == g.len && Slip.Content(f) == Slip.Content(g)
    ensures OnFrame(s, f) == OnFrame(s, g)
  {
    if f.len > 0 {
      assert f.buf[0] == Slip.Content(f)[0] == g.buf[0];
      MetaReadsOnlyFrame(s, f, g);
      DataReadsOnlyFrame(s, f, g);
    }
  }

  lemma MetaReadsOnlyFrame(s: Session, f: Slip.Frame, g: Slip.Frame)
    requires Inv(s) && f.len <= |f.buf| && g.len <= |g.buf|
    requires f.len == g.len && Slip.Content(f) == Slip.Content(g)
    ensures OnMeta(s, f) == OnMeta(s, g)
  {
    var n := f.len;
    if n >= MIN_META {
      var h := Slip.Content(f);
      assert Rd32(f.buf, 2) == Rd32(g.buf, 2) && Rd32(f.buf, 6) == Rd32(g.buf, 6) by {
        assert f.buf[2] == h[2] == g.buf[2] && f.buf[3] == h[3] == g.buf[3];
        assert f.buf[4] == h[4] == g.buf[4] && f.buf[5] == h[5] == g.buf[5];
        assert f.buf[6] == h[6] == g.buf[6] && f.buf[7] == h[7] == g.buf[7];
        assert f.buf[8] == h[8] == g.buf[8] && f.buf[9] == h[9] == g.buf[9];
      }
      assert Rd16(f.buf, 10) == Rd16(g.buf, 10) by {
        assert f.buf[10] == h[10] == g.buf[10] && f.buf[11] == h[11] == g.buf[11];
      }
      var k := f.buf[12];
      assert k == h[12] == g.buf[12];
      if MIN_META + k <= n {
        Slip.SameContentSlice(f, g, MIN_META, MIN_META + k);
      }
    }
  }

  lemma DataReadsOnlyFrame(s: Session, f: Slip.Frame, g: Slip.Frame)
    requires Inv(s) && f.len <= |f.buf| && g.len <= |g.buf|
    requires f.len == g.len && Slip.Content(f) == Slip.Content(g)
    ensures OnData(s, f) == OnData(s, g)
  {
    var n := f.len;
    if n >= MIN_DATA {
      var h := Slip.Content(f);
      assert Rd32(f.buf, 1) == Rd32(g.buf, 1) && Rd32(f.buf, 5) == Rd32(g.buf, 5) by {
        assert f.buf[1] == h[1] == g.buf[1] && f.buf[2] == h[2] == g.buf[2];
        assert f.buf[3] == h[3] == g.buf[3] && f.buf[4] == h[4] == g.buf[4];
        assert f.buf[5] == h[5] == g.buf[5] && f.buf[6] == h[6] == g.buf[6];
        assert f.buf[7] == h[7] == g.buf[7] && f.buf[8] == h[8] == g.buf[8];
      }
      assert Rd16(f.buf, 9) == Rd16(g.buf, 9) by {
        assert f.buf[9] == h[9] == g.buf[9] && f.buf[10] == h[10] == g.buf[10];
      }
      var len := Rd16(f.buf, 9);
      if MIN_DATA + len <= n {
        Slip.SameContentSlice(f, g, MIN_DATA, MIN_DATA + len);
      }
    }
  }

  // ---------------------------------------------------------------------
  // The receiver: decoder and session together.

  datatype State = State(dec: Slip.Decoder, session: Session)

  predicate StateInv(st: State)
  {
    Slip.Valid(st.dec) && |st.dec.buf| == MAX_FRAME && Inv(st.session)
  }

  /** split_byte_stream(byte), including the handle_frame call it may make.
      MainReceiver.Receive has the same text over main.c's own session. */
  function Receive(st: State, b: u8): (r: State)
    requires StateInv(st)
    ensures StateInv(r)
  {
    var o := Slip.Feed(st.dec, b);
    match o.dispatched
    case None => State(o.next, st.session)
    case Some(f) => State(o.next, OnFrame(st.session, f))
  }

  function ReceiveAll(st: State, bytes: seq<u8>): (r: State)
    requires StateInv(st)
    ensures StateInv(r)
    decreases |bytes|
  {
    if bytes == [] then st else ReceiveAll(Receive(st, bytes[0]), bytes[1..])
  }

  /** handle_frame applied to each frame in turn. */
  function OnFrames(s: Session, fs: seq<Slip.Frame>): (r: Session)
    requires Inv(s) && forall f | f in fs :: f.len <= |f.buf| == MAX_FRAME
    ensures Inv(r)
    decreases |fs|
  {
    if fs == [] then s else OnFrames(OnFrame(s, fs[0]), fs[1..])
  }

  lemma {:induction false} OnFramesAppend(s: Session, a: seq<Slip.Frame>, b: seq<Slip.Frame>)
    requires Inv(s)
    requires forall f | f in a + b :: f.len <= |f.buf| == MAX_FRAME
    ensures OnFrames(s, a + b) == OnFrames(OnFrames(s, a), b)
    decreases |a|
  {
    if a == [] {
      assert a + b == b;
    } else {
      assert (a + b)[0] == a[0] && (a + b)[1..] == a[1..] + b;
      OnFramesAppend(OnFrame(s, a[0]), a[1..], b);
    }
  }

  /** Receiving a stream is decoding it and handing each decoded frame, in
      order, to handle_frame. */
  lemma {:induction false} ReceiveAllDecodes(st: State, bytes: seq<u8>)
    requires StateInv(st)
    ensures forall f | f in Slip.Dispatches(st.dec, bytes) :: f.len <= |f.buf| == MAX_FRAME
    ensures ReceiveAll(st, bytes)
         == State(Slip.FeedAll(st.dec, bytes), OnFrames(st.session, Slip.Dispatches(st.dec, bytes)))
    decreases |bytes|
  {
    Slip.DispatchesWithinBuffer(st.dec, bytes);
    if bytes != [] {
      ReceiveAllDecodes(Receive(st, bytes[0]), bytes[1..]);
      var o := Slip.Feed(st.dec, bytes[0]);
      var rest := Slip.Dispatches(o.next, bytes[1..]);
      if o.dispatched.Some? {
        assert [o.dispatched.value] + rest == Slip.Dispatches(st.dec, bytes);
        assert OnFrames(st.session, [o.dispatched.value] + rest)
            == OnFrames(OnFrame(st.session, o.dispatched.value), rest);
      } else {
        assert [] + rest == rest;
      }
    }
  }

  lemma {:induction false} ReceiveAllAppend(st: State, a: seq<u8>, b: seq<u8>)
    requires StateInv(st)
    ensures ReceiveAll(st, a + b) == ReceiveAll(ReceiveAll(st, a), b)
    decreases |a|
  {
    if a == [] {
      assert a + b == b;
    } else {
      assert (a + b)[0] == a[0] && (a + b)[1..] == a[1..] + b;
      ReceiveAllAppend(Receive(st, a[0]), a[1..], b);
    }
  }

  /** Receiving one SLIP-encoded frame: whatever frame was pending is handled,
      then the frame itself, found at the start of frame_buf. */
  lemma ReceiveEncoded(st: State, p: seq<u8>)
    requires StateInv(st) && 0 < |p| <= MAX_FRAME
    ensures var buf := p + st.dec.buf[|p|..];
      && |buf| == MAX_FRAME
      && ReceiveAll(st, Slip.Encode(p))
         == State(Slip.Decoder(Slip.In, buf, 0),
                  OnFrame(OnFrames(st.session, Slip.Pending(st.dec)), Slip.Frame(buf, |p|)))
  {
    var buf := p + st.dec.buf[|p|..];
    ReceiveAllDecodes(st, Slip.Encode(p));
    Slip.RoundTrip(st.dec, p);
    OnFramesAppend(st.session, Slip.Pending(st.dec), [Slip.Frame(buf, |p|)]);
    var s1 := OnFrames(st.session, Slip.Pending(st.dec));
    assert OnFrames(s1, [Slip.Frame(buf, |p|)]) == OnFrames(OnFrame(s1, Slip.Frame(buf, |p|)), []);
  }

  /** The zero-initialised statics; the memory region's contents are unknown. */
  predicate Initial(st: State)
  {
    st.dec == Slip.Initial(MAX_FRAME) && st.session.info == Cleared && |st.session.mem| == MEM_SIZE
  }

  /** Without an open session (as the zero-initialised static starts) a
      DATA frame changes nothing. */
  lemma NoSessionNoWrite(s: Session, f: Slip.Frame)
    requires Inv(s) && !s.info.active && f.len <= |f.buf|
    ensures OnData(s, f) == s
  {
  }

  // ---------------------------------------------------------------------
  // The globals, updated in place.

  class Receiver {
    var splitter: Slip.Splitter
    var info: TransferInfo
    var mem: array<u8>

    ghost predicate Valid()
      reads this, splitter
    {
      splitter.Valid() && splitter.frameBuf.Length == MAX_FRAME
      && mem.Length == MEM_SIZE && mem != splitter.frameBuf && InfoInv(info)
    }

    function Model(): State
      reads this, splitter, splitter.frameBuf, mem
    {
      State(splitter.Model(), Session(info, mem[..]))
    }

    constructor ()
      ensures Valid() && fresh(splitter) && fresh(splitter.frameBuf) && fresh(mem)
      ensures Initial(Model())
    {
      splitter := new Slip.Splitter(MAX_FRAME);
      info := Cleared;
      mem := new u8[MEM_SIZE];
    }

    /** split_byte_stream, with the frame it completes handed to handle_frame. */
    method SplitByteStream(b: u8)
      requires Valid()
      modifies splitter, splitter.frameBuf, this`info, mem
      ensures Valid() && splitter == old(splitter) && splitter.frameBuf == old(splitter.frameBuf) && mem == old(mem)
      ensures Model() == Receive(old(Model()), b)
    {
      var dispatched := splitter.SplitByte(b);
      if dispatched.Some? {
        HandleFrame(dispatched.value);
      }
    }

    method HandleFrame(f: Slip.Frame)
      requires Valid() && f.len <= |f.buf| == MAX_FRAME
      modifies this`info, mem
      ensures Valid() && Session(info, mem[..]) == OnFrame(old(Session(info, mem[..])), f)
    {
      var ty := f.buf[0];
      if f.len == 0 {
        return;
      }
      if ty == TYPE_META {
        HandleMeta(f);
      } else if ty == TYPE_DATA {
        HandleData(f);
      }
    }

    method HandleMeta(f: Slip.Frame)
      requires Valid() && f.len <= |f.buf|
      modifies this`info
      ensures Valid() && Session(info, mem[..]) == OnMeta(old(Session(info, mem[..])), f)
    {
      if f.len < MIN_META {
        return;
      }
      var fileId := Rd32(f.buf, 2);
      var total := Rd32(f.buf, 6);
      var chunk := Rd16(f.buf, 10);
      var fnameLen := f.buf[12];
      if MIN_META + fnameLen > f.len {
        return;
      }
      if total > MEM_SIZE {
        return;
      }
      info := Cleared;
      info := info.(fileId := fileId, total := total, chunk := chunk, received := 0, expectSeq := 0);
      info := info.(writeBase := MEM_BASE, writePtr := MEM_BASE);
      info := info.(fnameLen := fnameLen);
      if fnameLen != 0 {
        info := info.(fname := f.buf[13 .. 13 + fnameLen] + info.fname[fnameLen..]);
      }
      info := info.(fname := info.fname[fnameLen := 0]);
      info := info.(active := true);
    }

    method HandleData(f: Slip.Frame)
      requires Valid() && f.len <= |f.buf|
      modifies this`info, mem
      ensures Valid() && Session(info, mem[..]) == OnData(old(Session(info, mem[..])), f)
    {
      if !info.active {
        return;
      }
      if f.len < MIN_DATA {
        return;
      }
      var fileId := Rd32(f.buf, 1);
      var sq := Rd32(f.buf, 5);
      var len := Rd16(f.buf, 9);
      if MIN_DATA + len > f.len {
        return;
      }
      if fileId != info.fileId {
        return;
      }
      if sq != info.expectSeq {
        return;
      }
      if info.received + len > info.total {
        return;
      }
      var used := info.writePtr - info.writeBase;
      if used + len > MEM_SIZE {
        return;
      }
      var off := info.writePtr - MEM_BASE;
      Memcpy(mem, off, f.buf[MIN_DATA .. MIN_DATA + len]);
      info := info.(writePtr := info.writePtr + len);
      info := info.(received := info.received + len);
      info := info.(expectSeq := (sq as int + 1) % 0x1_0000_0000);
      if info.received == info.total {
        info := info.(active := false);
      }
    }
  }
}
