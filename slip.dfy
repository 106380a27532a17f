/** SLIP framing (RFC 1055) as the receivers decode it byte by byte in
    split_byte_stream, and as the sender encodes a payload in slip_encode.
    The decoder code is the same in both receivers; only the capacity of
    the frame buffer differs, so here it is the length of the buffer. */
module Slip {
  import opened Bytes

  const END: u8 := 0xC0
  const ESC: u8 := 0xDB
  const ESC_END: u8 := 0xDC
  const ESC_ESC: u8 := 0xDD

  datatype Option<T> = None | Some(value: T)

  datatype SlipState = Idle | In | Esc

  /** The decoder's globals: the state, the whole frame buffer (bytes past
      frameNum are whatever an earlier frame left there) and frame_num. */
  datatype Decoder = Decoder(state: SlipState, buf: seq<u8>, frameNum: nat)

  predicate Valid(d: Decoder)
  {
    d.frameNum <= |d.buf|
  }

  /** Zero-initialised statics: ST_IDLE, an all-zero buffer, frame_num 0. */
  function Initial(capacity: nat): (d: Decoder)
    ensures Valid(d) && |d.buf| == capacity && d.frameNum == 0
  {
    Decoder(Idle, seq(capacity, _ => 0), 0)
  }

  /** What handle_frame is given: the frame buffer and the frame length. */
  datatype Frame = Frame(buf: seq<u8>, len: nat)

  function Content(f: Frame): seq<u8>
    requires f.len <= |f.buf|
  {
    f.buf[..f.len]
  }

  /** Two frames with the same content agree on every slice of it. */
  lemma SameContentSlice(f: Frame, g: Frame, i: nat, j: nat)
    requires f.len <= |f.buf| && g.len <= |g.buf| && f.len == g.len
    requires Content(f) == Content(g) && i <= j <= f.len
    ensures f.buf[i .. j] == g.buf[i .. j]
  {
    forall k | i <= k < j
      ensures f.buf[k] == g.buf[k]
    {
      assert f.buf[k] == Content(f)[k] && g.buf[k] == Content(g)[k];
    }
  }

  /** One call of split_byte_stream: the new globals, and the frame handed
      to handle_frame during the call, if any. */
  datatype Outcome = Outcome(next: Decoder, dispatched: Option<Frame>)

  /** The byte stored for a byte that follows ESC. */
  function Unescape(b: u8): u8
  {
    if b == ESC_END then END else if b == ESC_ESC then ESC else b
  }

  function Feed(d: Decoder, b: u8): (o: Outcome)
    requires Valid(d)
    ensures Valid(o.next) && |o.next.buf| == |d.buf|
    ensures o.dispatched.Some? ==> o.dispatched.value.len <= |o.dispatched.value.buf|
  {
    if b == END then
      Outcome(Decoder(In, d.buf, 0),
              if d.state == In && d.frameNum > 0 then Some(Frame(d.buf, d.frameNum)) else None)
    else if b == ESC then
      Outcome(if d.state == In then d.(state := Esc) else d, None)
    else
      var c := if d.state == Esc then Unescape(b) else b;
      if d.state == Idle then Outcome(d, None)
      else if d.frameNum < |d.buf| then Outcome(Decoder(In, d.buf[d.frameNum := c], d.frameNum + 1), None)
      else Outcome(Decoder(Idle, d.buf, 0), None)
  }

  /** The globals after feeding a whole byte stream. */
  function FeedAll(d: Decoder, bytes: seq<u8>): (r: Decoder)
    requires Valid(d)
    ensures Valid(r) && |r.buf| == |d.buf|
    decreases |bytes|
  {
    if bytes == [] then d else FeedAll(Feed(d, bytes[0]).next, bytes[1..])
  }

  /** Every frame handed to handle_frame while feeding the stream, in order. */
  function Dispatches(d: Decoder, bytes: seq<u8>): (fs: seq<Frame>)
    requires Valid(d)
    decreases |bytes|
  {
    if bytes == [] then []
    else
      var o := Feed(d, bytes[0]);
      (if o.dispatched.Some? then [o.dispatched.value] else []) + Dispatches(o.next, bytes[1..])
  }

  /** The frame an END byte would hand over in state d. */
  function Pending(d: Decoder): seq<Frame>
  {
    if d.state == In && d.frameNum > 0 then [Frame(d.buf, d.frameNum)] else []
  }

  // ---------------------------------------------------------------------
  // Single-byte rules of split_byte_stream.

  /** handle_frame is called exactly on an END in ST_IN with a non-empty frame,
      and is given the frame collected so far. */
  lemma DispatchOnlyOnEnd(d: Decoder, b: u8)
    requires Valid(d)
    ensures Feed(d, b).dispatched.Some? <==> (b == END && d.state == In && d.frameNum > 0)
    ensures Feed(d, b).dispatched.Some? ==> Feed(d, b).dispatched.value == Frame(d.buf, d.frameNum)
  {
  }

  /** After any END the decoder is in ST_IN with an empty frame and the buffer untouched. */
  lemma EndStartsFrame(d: Decoder)
    requires Valid(d)
    ensures Feed(d, END).next == Decoder(In, d.buf, 0)
  {
  }

  /** In ST_IDLE every byte but END is dropped without any change. */
  lemma IdleDrops(d: Decoder, b: u8)
    requires Valid(d) && d.state == Idle && b != END
    ensures Feed(d, b) == Outcome(d, None)
  {
  }

  /** ESC moves ST_IN to ST_ESC; a second ESC in ST_ESC is ignored. */
  lemma EscapeEntersEsc(d: Decoder)
    requires Valid(d) && d.state != Idle
    ensures Feed(d, ESC) == Outcome(d.(state := Esc), None)
  {
  }

  /** The byte after ESC is stored unescaped and the state returns to ST_IN. */
  lemma EscapedByteStored(d: Decoder, b: u8)
    requires Valid(d) && d.state == Esc && b != END && b != ESC && d.frameNum < |d.buf|
    ensures Feed(d, b).next == Decoder(In, d.buf[d.frameNum := Unescape(b)], d.frameNum + 1)
    ensures Unescape(b) == (if b == ESC_END then END else if b == ESC_ESC then ESC else b)
  {
  }

  /** END after ESC throws the partial frame away without handing it over. */
  lemma EndAfterEscDiscards(d: Decoder)
    requires Valid(d) && d.state == Esc
    ensures Feed(d, END) == Outcome(Decoder(In, d.buf, 0), None)
  {
  }

  /** A data byte arriving at a full buffer discards the frame and enters ST_IDLE. */
  lemma OverflowDiscards(d: Decoder, b: u8)
    requires Valid(d) && d.state != Idle && b != END && b != ESC && d.frameNum == |d.buf|
    ensures Feed(d, b) == Outcome(Decoder(Idle, d.buf, 0), None)
  {
  }

  // ---------------------------------------------------------------------
  // Streams.

  lemma {:induction false} FeedAllAppend(d: Decoder, a: seq<u8>, b: seq<u8>)
    requires Valid(d)
    ensures FeedAll(d, a + b) == FeedAll(FeedAll(d, a), b)
    ensures Dispatches(d, a + b) == Dispatches(d, a) + Dispatches(FeedAll(d, a), b)
    decreases |a|
  {
    if a != [] {
      assert (a + b)[0] == a[0] && (a + b)[1..] == a[1..] + b;
      FeedAllAppend(Feed(d, a[0]).next, a[1..], b);
    } else {
      assert a + b == b;
    }
  }

  /** A stream without END never hands a frame over. */
  lemma {:induction false} NoEndNoDispatch(d: Decoder, bytes: seq<u8>)
    requires Valid(d) && END !in bytes
    ensures Dispatches(d, bytes) == []
    decreases |bytes|
  {
    if bytes != [] {
      assert bytes[0] != END;
      NoEndNoDispatch(Feed(d, bytes[0]).next, bytes[1..]);
    }
  }

  /** Whatever came before, a stream ending in END leaves ST_IN with an empty frame. */
  lemma EndingInEndResets(d: Decoder, bytes: seq<u8>)
    requires Valid(d) && |bytes| > 0 && bytes[|bytes| - 1] == END
    ensures FeedAll(d, bytes).state == In && FeedAll(d, bytes).frameNum == 0
  {
    var front := bytes[..|bytes| - 1];
    assert bytes == front + [END];
    FeedAllAppend(d, front, [END]);
  }

  /** Every frame handed over is non-empty and fits the buffer, whatever the stream. */
  lemma {:induction false} DispatchesWithinBuffer(d: Decoder, bytes: seq<u8>)
    requires Valid(d)
    ensures forall f | f in Dispatches(d, bytes) :: 0 < f.len <= |f.buf| == |d.buf|
    decreases |bytes|
  {
    if bytes != [] {
      DispatchesWithinBuffer(Feed(d, bytes[0]).next, bytes[1..]);
    }
  }

  // ---------------------------------------------------------------------
  // Encoding, as slip_encode does it.

  function Escape(b: u8): seq<u8>
  {
    if b == END then [ESC, ESC_END] else if b == ESC then [ESC, ESC_ESC] else [b]
  }

  function EscapeAll(p: seq<u8>): seq<u8>
  {
    if p == [] then [] else Escape(p[0]) + EscapeAll(p[1..])
  }

  /** slip_encode(p): END, every byte escaped, END. */
  function Encode(p: seq<u8>): seq<u8>
  {
    [END] + EscapeAll(p) + [END]
  }

  /** The number of bytes of p that need a two-byte escape. */
  function SpecialCount(p: seq<u8>): nat
  {
    if p == [] then 0 else (if p[0] == END || p[0] == ESC then 1 else 0) + SpecialCount(p[1..])
  }

  lemma {:induction false} EscapeAllAppend(a: seq<u8>, b: seq<u8>)
    ensures EscapeAll(a + b) == EscapeAll(a) + EscapeAll(b)
    decreases |a|
  {
    if a == [] {
      assert a + b == b;
    } else {
      assert (a + b)[0] == a[0] && (a + b)[1..] == a[1..] + b;
      EscapeAllAppend(a[1..], b);
    }
  }

  /** No raw END byte appears between the two delimiters. */
  lemma {:induction false} NoEndInside(p: seq<u8>)
    ensures END !in EscapeAll(p)
    decreases |p|
  {
    if p != [] {
      NoEndInside(p[1..]);
    }
  }

  /** The encoding is framed by END and its length is |p| + 2 plus one per
      END or ESC byte of p. */
  lemma {:induction false} EncodeShape(p: seq<u8>)
    ensures var e := Encode(p); e[0] == END && e[|e| - 1] == END && END !in e[1..|e| - 1]
    ensures |Encode(p)| == |p| + 2 + SpecialCount(p)
  {
    NoEndInside(p);
    EscapeAllLength(p);
    assert Encode(p)[1..|Encode(p)| - 1] == EscapeAll(p);
  }

  lemma {:induction false} EscapeAllLength(p: seq<u8>)
    ensures |EscapeAll(p)| == |p| + SpecialCount(p)
    decreases |p|
  {
    if p != [] {
      EscapeAllLength(p[1..]);
    }
  }

  /** slip_encode's loop: append to the output byte by byte. */
  method SlipEncode(payload: seq<u8>) returns (out: seq<u8>)
    ensures out == Encode(payload)
  {
    out := [END];
    var i := 0;
    while i < |payload|
      invariant i <= |payload|
      invariant out == [END] + EscapeAll(payload[..i])
    {
      var b := payload[i];
      if b == END {
        out := out + [ESC, ESC_END];
      } else if b == ESC {
        out := out + [ESC, ESC_ESC];
      } else {
        out := out + [b];
      }
      assert payload[..i + 1] == payload[..i] + [b];
      EscapeAllAppend(payload[..i], [b]);
      i := i + 1;
    }
    assert payload[..i] == payload;
    out := out + [END];
  }

  // ---------------------------------------------------------------------
  // Round trip.

  /** An END hands over the pending frame and restarts ST_IN with an empty frame. */
  lemma EndByte(d: Decoder)
    requires Valid(d)
    ensures FeedAll(d, [END]) == Decoder(In, d.buf, 0)
    ensures Dispatches(d, [END]) == Pending(d)
  {
    assert Feed(d, END) == Outcome(Decoder(In, d.buf, 0), if d.state == In && d.frameNum > 0 then Some(Frame(d.buf, d.frameNum)) else None);
    assert [END][1..] == [];
  }

  /** The escaped form of one byte, fed in ST_IN, stores that byte. */
  lemma DecodeOne(d: Decoder, x: u8)
    requires Valid(d) && d.state == In && d.frameNum < |d.buf|
    ensures FeedAll(d, Escape(x)) == Decoder(In, d.buf[d.frameNum := x], d.frameNum + 1)
    ensures Dispatches(d, Escape(x)) == []
  {
    var d1 := Decoder(In, d.buf[d.frameNum := x], d.frameNum + 1);
    var e := Escape(x);
    if x == END || x == ESC {
      var dE := d.(state := Esc);
      assert Feed(d, ESC) == Outcome(dE, None);
      assert Feed(dE, e[1]) == Outcome(d1, None);
      assert e[1..] == [e[1]] && e[1..][1..] == [];
      assert FeedAll(dE, e[1..]) == d1 && Dispatches(dE, e[1..]) == [];
    } else {
      assert Feed(d, x) == Outcome(d1, None);
      assert e[1..] == [];
    }
  }

  lemma EscapedNothing(d: Decoder)
    requires Valid(d) && d.state == In
    ensures FeedAll(d, EscapeAll([])) == Decoder(In, d.buf[..d.frameNum] + [] + d.buf[d.frameNum..], d.frameNum)
  {
    assert d.buf[..d.frameNum] + [] + d.buf[d.frameNum..] == d.buf;
  }

  /** Feeding the escaped p in ST_IN is storing p[0], then feeding the
      escaped rest. */
  lemma EscapedHead(d: Decoder, p: seq<u8>)
    requires Valid(d) && d.state == In && d.frameNum < |d.buf| && 0 < |p|
    ensures FeedAll(d, EscapeAll(p)) == FeedAll(Decoder(In, d.buf[d.frameNum := p[0]], d.frameNum + 1), EscapeAll(p[1..]))
  {
    assert EscapeAll(p) == Escape(p[0]) + EscapeAll(p[1..]);
    DecodeOne(d, p[0]);
    FeedAllAppend(d, Escape(p[0]), EscapeAll(p[1..]));
  }

  /** Storing p[0] at n and then the rest of p after it stores p at n. */
  lemma Splice(buf: seq<u8>, n: nat, p: seq<u8>)
    requires 0 < |p| && n + |p| <= |buf|
    ensures buf[n := p[0]][..n + 1] + p[1..] + buf[n := p[0]][n + 1 + |p[1..]|..] == buf[..n] + p + buf[n + |p|..]
  {
    var b1 := buf[n := p[0]];
    assert b1[..n + 1] == buf[..n] + [p[0]];
    assert b1[n + 1 + |p[1..]|..] == buf[n + |p|..];
    assert [p[0]] + p[1..] == p;
  }

  /** Feeding the escaped bytes of p in ST_IN appends p to the frame ... */
  lemma {:induction false} DecodeEscaped(d: Decoder, p: seq<u8>)
    requires Valid(d) && d.state == In && d.frameNum + |p| <= |d.buf|
    ensures FeedAll(d, EscapeAll(p))
         == Decoder(In, d.buf[..d.frameNum] + p + d.buf[d.frameNum + |p|..], d.frameNum + |p|)
    decreases |p|
  {
    var n := d.frameNum;
    if p == [] {
      EscapedNothing(d);
    } else {
      EscapedHead(d, p);
      DecodeEscaped(Decoder(In, d.buf[n := p[0]], n + 1), p[1..]);
      Splice(d.buf, n, p);
    }
  }

  /** ... and hands nothing over. */
  lemma EscapedQuiet(d: Decoder, p: seq<u8>)
    requires Valid(d)
    ensures Dispatches(d, EscapeAll(p)) == []
  {
    NoEndInside(p);
    NoEndNoDispatch(d, EscapeAll(p));
  }

  /** Feeding slip_encode(p) hands over whatever frame was pending, then
      exactly p, and leaves ST_IN with an empty frame. */
  lemma RoundTrip(d: Decoder, p: seq<u8>)
    requires Valid(d) && 0 < |p| <= |d.buf|
    ensures FeedAll(d, Encode(p)) == Decoder(In, p + d.buf[|p|..], 0)
    ensures Dispatches(d, Encode(p)) == Pending(d) + [Frame(p + d.buf[|p|..], |p|)]
    ensures Content(Frame(p + d.buf[|p|..], |p|)) == p
  {
    var d1 := Decoder(In, d.buf, 0);
    EndByte(d);
    FeedAllAppend(d, [END], EscapeAll(p));
    DecodeEscaped(d1, p);
    EscapedQuiet(d1, p);
    assert d.buf[..0] + p + d.buf[|p|..] == p + d.buf[|p|..];
    var d2 := FeedAll(d1, EscapeAll(p));
    FeedAllAppend(d, [END] + EscapeAll(p), [END]);
    EndByte(d2);
  }

  /** slip_encode of an empty payload is END END, which hands over nothing new. */
  lemma EmptyPayload(d: Decoder)
    requires Valid(d)
    ensures Encode([]) == [END, END]
    ensures Dispatches(d, Encode([])) == Pending(d)
    ensures FeedAll(d, Encode([])) == Decoder(In, d.buf, 0)
  {
    assert Encode([]) == [END, END];
    assert Dispatches(d, [END, END]) == Pending(d) + Dispatches(Decoder(In, d.buf, 0), [END]);
  }

  // ---------------------------------------------------------------------
  // The decoder's globals, updated in place.

  class Splitter {
    var state: SlipState
    var frameBuf: array<u8>
    var frameNum: nat

    ghost predicate Valid()
      reads this
    {
      frameNum <= frameBuf.Length
    }

    function Model(): (d: Decoder)
      reads this, frameBuf
    {
      Decoder(state, frameBuf[..], frameNum)
    }

    constructor (capacity: nat)
      ensures Valid() && fresh(frameBuf) && Model() == Initial(capacity)
    {
      state := Idle;
      frameBuf := new u8[capacity](_ => 0);
      frameNum := 0;
    }

    /** split_byte_stream(byte), returning the frame it would hand to handle_frame. */
    method SplitByte(b: u8) returns (dispatched: Option<Frame>)
      requires Valid()
      modifies this`state, this`frameNum, frameBuf
      ensures Valid() && frameBuf == old(frameBuf)
      ensures Outcome(Model(), dispatched) == Feed(old(Model()), b)
    {
      dispatched := None;
      if b == END {
        if state == In && frameNum > 0 {
          dispatched := Some(Frame(frameBuf[..], frameNum));
        }
        frameNum := 0;
        state := In;
        return;
      }
      if b == ESC {
        if state == In {
          state := Esc;
        }
        return;
      }
      var c := b;
      if state == Esc {
        if c == ESC_END {
          c := END;
        } else if c == ESC_ESC {
          c := ESC;
        }
        state := In;
      }
      if state == In {
        if frameNum < frameBuf.Length {
          frameBuf[frameNum] := c;
          frameNum := frameNum + 1;
        } else {
          frameNum := 0;
          state := Idle;
        }
      }
    }
  }
}
