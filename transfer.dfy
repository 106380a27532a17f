/** The sender of SLIP/x07_sender.py talking to the hardened receiver of
    SLIP/x07_receiver.c over a lossless line, assuming each wait_ack call of
    the sender returns (the receiver never sends the "ACK" it waits for).
    First the transport: frames written one after the other by slip_encode
    reach handle_frame in order and intact. Then the session: the META frame
    and the DATA frames the send loop packs leave the file in the memory
    region at MEM_BASE, the session closed with received and total at the
    file's size, and expect_seq at the number of DATA frames. */
module Transfer {
  import opened Bytes
  import Slip
  import Sender
  import opened X07Receiver

  // ---------------------------------------------------------------------
  // Transport.

  /** Between frames: the decoder has just seen an END, so no frame is pending. */
  predicate Ready(st: State)
  {
    StateInv(st) && st.dec.state == Slip.In && st.dec.frameNum == 0
  }

  /** Frames the decoder takes whole: not empty, and within frame_buf. */
  predicate Fits(fs: seq<seq<u8>>)
  {
    forall i | 0 <= i < |fs| :: 0 < |fs[i]| <= MAX_FRAME
  }

  lemma FitsTail(fs: seq<seq<u8>>)
    requires Fits(fs) && fs != []
    ensures Fits(fs[1..])
  {
    forall i | 0 <= i < |fs[1..]| ensures 0 < |fs[1..][i]| <= MAX_FRAME {
      assert fs[1..][i] == fs[i + 1];
    }
  }

  /** A frame as handle_frame would see it if frame_buf held nothing else. */
  function Padded(p: seq<u8>): (f: Slip.Frame)
    requires |p| <= MAX_FRAME
    ensures f.len == |p| <= |f.buf| == MAX_FRAME && Slip.Content(f) == p
  {
    Slip.Frame(p + Zeros(MAX_FRAME - |p|), |p|)
  }

  /** handle_frame applied to each frame in turn. */
  function Deliver(s: Session, fs: seq<seq<u8>>): (r: Session)
    requires Inv(s) && Fits(fs)
    ensures Inv(r)
    decreases |fs|
  {
    if fs == [] then s
    else
      FitsTail(fs);
      Deliver(OnFrame(s, Padded(fs[0])), fs[1..])
  }

  /** Receiving frames written one after the other, from a decoder with no
      frame pending, hands each of them in order to handle_frame, and
      leaves the decoder with no frame pending (between frames, once a
      frame went by). */
  lemma {:induction false} ReceiveFrames(st: State, fs: seq<seq<u8>>)
    requires StateInv(st) && Slip.Pending(st.dec) == [] && Fits(fs)
    ensures var r := ReceiveAll(st, Sender.EncodeAll(fs));
      && Slip.Pending(r.dec) == [] && (fs != [] ==> Ready(r))
      && r.session == Deliver(st.session, fs)
    decreases |fs|
  {
    if fs == [] {
      assert Sender.EncodeAll(fs) == [];
    } else {
      var p := fs[0];
      var e := Slip.Encode(p);
      var buf := p + st.dec.buf[|p|..];
      assert Sender.EncodeAll(fs) == e + Sender.EncodeAll(fs[1..]);
      FitsTail(fs);
      ReceiveAllAppend(st, e, Sender.EncodeAll(fs[1..]));
      ReceiveEncoded(st, p);
      assert OnFrames(st.session, []) == st.session;
      OnFrameReadsOnlyFrame(st.session, Slip.Frame(buf, |p|), Padded(p));
      ReceiveFrames(ReceiveAll(st, e), fs[1..]);
    }
  }

  // ---------------------------------------------------------------------
  // Session.

  /** The session after the DATA frames before offset off: those bytes
      counted, the next sequence number sq, and the session open while
      bytes are missing. */
  predicate Midway(t: TransferInfo, fileId: u32, size: nat, off: nat, sq: nat)
  {
    t.fileId == fileId && t.total == size && t.received == off && t.expectSeq == sq
    && t.writeBase == MEM_BASE && t.writePtr == MEM_BASE + off
    && (off < size ==> t.active)
  }

  /** The receiver's META checks all pass on a frame the sender packed, and
      the session opens on the announced file. */
  lemma MetaOpensSession(s: Session, fileId: u32, size: nat, chunk: nat, name: seq<u8>)
    requires Inv(s) && size <= MEM_SIZE
    requires Sender.MIN_CHUNK <= chunk <= Sender.MAX_CHUNK && |name| <= Sender.MAX_NAME
    ensures |Sender.PackMeta(fileId, size, chunk, name)| <= MAX_FRAME
    ensures var r := OnFrame(s, Padded(Sender.PackMeta(fileId, size, chunk, name)));
      && r.mem == s.mem && Midway(r.info, fileId, size, 0, 0) && r.info.active
      && r.info.chunk == chunk && r.info.fnameLen == |name| && r.info.fname[..|name|] == name
  {
    var m := Sender.PackMeta(fileId, size, chunk, name);
    var f := Padded(m);
    Sender.MetaHeaderRoundTrip(fileId, size, chunk, name, Zeros(MAX_FRAME - |m|));
    assert MetaAcceptable(f);
    MetaEffect(s, f);
  }

  /** DATA frames as the loop packs them: frame i carries the file id, the
      sequence number sq + i, a payload length matching the payload, and
      at most chunk bytes of payload. */
  predicate DataOk(fs: seq<seq<u8>>, fileId: u32, sq: nat, chunk: nat)
  {
    forall i | 0 <= i < |fs| :: Sender.DataFrameOk(fs[i], fileId, sq + i, chunk)
  }

  lemma DataOkTail(fs: seq<seq<u8>>, fileId: u32, sq: nat, chunk: nat)
    requires DataOk(fs, fileId, sq, chunk) && fs != [] && chunk <= Sender.MAX_CHUNK
    ensures DataOk(fs[1..], fileId, sq + 1, chunk) && Fits(fs)
  {
    forall i | 0 <= i < |fs[1..]| ensures Sender.DataFrameOk(fs[1..][i], fileId, sq + 1 + i, chunk) {
      assert fs[1..][i] == fs[i + 1];
    }
  }

  /** The frame buffer's padding changes none of the header loads. */
  lemma PaddedHeader(fr: seq<u8>)
    requires Sender.DATA_HEADER < |fr| <= MAX_FRAME
    ensures var f := Padded(fr);
      f.buf[0] == fr[0] && Rd32(f.buf, 1) == Rd32(fr, 1) && Rd32(f.buf, 5) == Rd32(fr, 5)
      && Rd16(f.buf, 9) == Rd16(fr, 9) && f.buf[MIN_DATA .. |fr|] == fr[MIN_DATA..]
  {
    var f := Padded(fr);
    assert f.buf[..|fr|] == fr;
    assert f.buf[1] == fr[1] && f.buf[2] == fr[2] && f.buf[3] == fr[3] && f.buf[4] == fr[4];
    assert f.buf[5] == fr[5] && f.buf[6] == fr[6] && f.buf[7] == fr[7] && f.buf[8] == fr[8];
    assert f.buf[9] == fr[9] && f.buf[10] == fr[10];
  }

  /** The receiver's DATA checks all pass on the next frame of the transfer,
      and its payload lands at offset off. */
  lemma DataArrives(s: Session, fr: seq<u8>, fileId: u32, data: seq<u8>, chunk: nat, off: nat, sq: nat)
    requires Inv(s) && chunk <= Sender.MAX_CHUNK && Sender.DataFrameOk(fr, fileId, sq, chunk)
    requires off + |fr| - MIN_DATA <= |data| <= MEM_SIZE && sq <= off
    requires Midway(s.info, fileId, |data|, off, sq)
    ensures var pt := fr[MIN_DATA..]; var r := OnFrame(s, Padded(fr));
      && r.info == s.info.(received := off + |pt|, writePtr := MEM_BASE + off + |pt|,
           expectSeq := sq + 1, active := off + |pt| < |data|)
      && r.mem == s.mem[..off] + pt + s.mem[off + |pt|..]
  {
    var pt := fr[MIN_DATA..];
    var f := Padded(fr);
    PaddedHeader(fr);
    assert DataAcceptable(s.info, f);
    DataEffect(s, f);
    var r := OnData(s, f);
    assert r.mem == r.mem[..off] + r.mem[off .. off + |pt|] + r.mem[off + |pt|..];
  }

  /** The first off bytes already in place stay, and the piece at off joins them. */
  lemma Prefix(mem: seq<u8>, data: seq<u8>, off: nat, pt: seq<u8>)
    requires off + |pt| <= |data| <= |mem| && pt == data[off .. off + |pt|]
    requires mem[..off] == data[..off]
    ensures (mem[..off] + pt + mem[off + |pt|..])[..off + |pt|] == data[..off + |pt|]
    ensures (mem[..off] + pt + mem[off + |pt|..])[|data|..] == mem[|data|..]
  {
    var m := mem[..off] + pt + mem[off + |pt|..];
    assert m[..off + |pt|] == mem[..off] + pt;
    assert data[..off + |pt|] == data[..off] + data[off .. off + |pt|];
  }

  /** The payload of the first frame is the next piece of the file, and the
      other frames carry what follows it. */
  lemma NextPayload(fs: seq<seq<u8>>, data: seq<u8>, off: nat)
    requires fs != [] && Sender.DATA_HEADER <= |fs[0]| && off <= |data|
    requires Sender.Payloads(fs) == data[off..]
    ensures var pt := fs[0][MIN_DATA..];
      && off + |pt| <= |data| && pt == data[off .. off + |pt|]
      && Sender.Payloads(fs[1..]) == data[off + |pt|..]
  {
    var pt := fs[0][MIN_DATA..];
    assert data[off..] == pt + Sender.Payloads(fs[1..]);
    assert data[off..][..|pt|] == pt;
    assert data[off..][|pt|..] == data[off + |pt|..];
  }

  /** Handing over the frames is handing over the first one, which moves
      the session on by its payload, and then the others. */
  lemma DataStep(s: Session, fs: seq<seq<u8>>, fileId: u32, data: seq<u8>, chunk: nat, off: nat, sq: nat)
    returns (s1: Session, pt: seq<u8>)
    requires Inv(s) && chunk <= Sender.MAX_CHUNK && DataOk(fs, fileId, sq, chunk) && fs != []
    requires off <= |data| <= MEM_SIZE && sq <= off && Sender.Payloads(fs) == data[off..]
    requires Midway(s.info, fileId, |data|, off, sq) && s.mem[..off] == data[..off]
    ensures pt == fs[0][MIN_DATA..] && 0 < |pt| && off + |pt| <= |data|
    ensures Inv(s1) && Midway(s1.info, fileId, |data|, off + |pt|, sq + 1)
    ensures DataOk(fs[1..], fileId, sq + 1, chunk) && Fits(fs) && Fits(fs[1..])
    ensures Sender.Payloads(fs[1..]) == data[off + |pt|..]
    ensures Deliver(s, fs) == Deliver(s1, fs[1..])
    ensures s1.info == s.info.(received := off + |pt|, writePtr := MEM_BASE + off + |pt|,
              expectSeq := sq + 1, active := off + |pt| < |data|)
    ensures s1.mem[..off + |pt|] == data[..off + |pt|]
    ensures s1.mem[|data|..] == s.mem[|data|..]
  {
    assert Sender.DataFrameOk(fs[0], fileId, sq + 0, chunk);
    pt := fs[0][MIN_DATA..];
    DataOkTail(fs, fileId, sq, chunk);
    FitsTail(fs);
    NextPayload(fs, data, off);
    DataArrives(s, fs[0], fileId, data, chunk, off, sq);
    Prefix(s.mem, data, off, pt);
    s1 := OnFrame(s, Padded(fs[0]));
  }

  /** r holds the whole file, memory past it as in s, and the session of s
      completed: received and write_ptr at the file's end, the sequence
      number at next, and the given active flag. */
  predicate Finishes(r: Session, s: Session, data: seq<u8>, next: int, active: bool)
  {
    Inv(r) && |s.mem| == MEM_SIZE && |data| <= MEM_SIZE
    && r.mem[..|data|] == data && r.mem[|data|..] == s.mem[|data|..]
    && r.info.expectSeq == next
    && r.info == s.info.(received := |data|, writePtr := MEM_BASE + |data|,
         expectSeq := r.info.expectSeq, active := active)
  }

  /** A DATA frame followed by the rest of the transfer completes the
      session as it stood before that frame. */
  lemma Chain(s: Session, s1: Session, r: Session, data: seq<u8>, off: nat, pt: seq<u8>, sq: nat, later: nat)
    requires |s.mem| == |s1.mem| == MEM_SIZE && off + |pt| <= |data| <= MEM_SIZE && 0 < |pt| && sq <= off
    requires s1.mem[|data|..] == s.mem[|data|..]
    requires s1.info == s.info.(received := off + |pt|, writePtr := MEM_BASE + off + |pt|,
               expectSeq := sq + 1, active := off + |pt| < |data|)
    requires Finishes(r, s1, data, sq + 1 + later, if off + |pt| < |data| then false else s1.info.active)
    ensures Finishes(r, s, data, sq + 1 + later, false)
  {
  }

  /** DATA frames with the right headers whose payloads make up the rest of
      the file, handed over one after the other, complete the file: every
      byte lands at its offset, memory past the file keeps its contents, and
      the last frame closes the session. */
  lemma {:induction false} DataPhase(s: Session, fs: seq<seq<u8>>, fileId: u32, data: seq<u8>, chunk: nat, off: nat, sq: nat)
    returns (r: Session)
    requires Inv(s) && chunk <= Sender.MAX_CHUNK && DataOk(fs, fileId, sq, chunk)
    requires off <= |data| <= MEM_SIZE && sq <= off && Sender.Payloads(fs) == data[off..]
    requires Midway(s.info, fileId, |data|, off, sq) && s.mem[..off] == data[..off]
    ensures Fits(fs) && r == Deliver(s, fs)
    ensures Finishes(r, s, data, sq + |fs|, if off < |data| then false else s.info.active)
    decreases |fs|
  {
    if fs == [] {
      assert data[off..] == [];
      r := s;
    } else {
      var s1, pt := DataStep(s, fs, fileId, data, chunk, off, sq);
      r := DataPhase(s1, fs[1..], fileId, data, chunk, off + |pt|, sq + 1);
      Chain(s, s1, r, data, off, pt, sq, |fs[1..]|);
    }
  }

  // ---------------------------------------------------------------------
  // The whole transfer.

  /** Everything send_file writes, received from a decoder with no frame
      pending: the receiver ends between frames, with the file's bytes at
      the start of the region, the rest of the region untouched, and the
      session describing the file (closed unless the file is empty, which no
      DATA frame completes). The chunk size and name are clamped as the
      sender clamps them. */
  lemma FileArrives(st: State, name: seq<u8>, data: seq<u8>, fileId: u32, chunkIn: int)
    requires StateInv(st) && Slip.Pending(st.dec) == [] && |data| <= MEM_SIZE
    ensures var chunk := Sender.ClampChunk(chunkIn);
      var nm := Sender.ClampName(name);
      var r := ReceiveAll(st, Sender.Stream(fileId, data, chunk, nm));
      && Ready(r)
      && r.session.mem[..|data|] == data && r.session.mem[|data|..] == st.session.mem[|data|..]
      && r.session.info.fileId == fileId && r.session.info.total == |data| == r.session.info.received
      && r.session.info.active == (|data| == 0)
      && r.session.info.expectSeq == |Sender.DataFrames(fileId, data, chunk, 0, 0)|
      && r.session.info.chunk == chunk && r.session.info.fnameLen == |nm| && r.session.info.fname[..|nm|] == nm
  {
    var chunk := Sender.ClampChunk(chunkIn);
    var nm := Sender.ClampName(name);
    var m := Sender.PackMeta(fileId, |data|, chunk, nm);
    var dfs := Sender.DataFrames(fileId, data, chunk, 0, 0);
    var fs := [m] + dfs;
    MetaOpensSession(st.session, fileId, |data|, chunk, nm);
    Sender.FrameFields(fileId, data, chunk, 0, 0);
    Sender.PayloadsAreData(fileId, data, chunk, 0, 0);
    assert DataOk(dfs, fileId, 0, chunk);
    assert Fits(dfs) by {
      forall i | 0 <= i < |dfs| ensures 0 < |dfs[i]| <= MAX_FRAME {
        assert Sender.DataFrameOk(dfs[i], fileId, 0 + i, chunk);
      }
    }
    assert fs[1..] == dfs;
    assert Fits(fs) by {
      forall i | 0 <= i < |fs| ensures 0 < |fs[i]| <= MAX_FRAME {
        if i > 0 {
          assert fs[i] == dfs[i - 1];
        }
      }
    }
    assert Sender.EncodeAll(fs) == Sender.Stream(fileId, data, chunk, nm);
    ReceiveFrames(st, fs);
    var s1 := OnFrame(st.session, Padded(m));
    var r := DataPhase(s1, dfs, fileId, data, chunk, 0, 0);
  }

  /** From power-on: the receiver's zero-initialised statics take the whole
      file. */
  lemma FileArrivesAtStart(st: State, name: seq<u8>, data: seq<u8>, fileId: u32, chunkIn: int)
    requires Initial(st) && |data| <= MEM_SIZE
    ensures var r := ReceiveAll(st, Sender.Stream(fileId, data, Sender.ClampChunk(chunkIn), Sender.ClampName(name)));
      r.session.mem[..|data|] == data && r.session.info.received == |data|
  {
    assert StateInv(st);
    FileArrives(st, name, data, fileId, chunkIn);
  }
}
