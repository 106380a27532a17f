/** The sender of SLIP/x07_sender.py: name and chunk clamping, the META and
    DATA header packing, and send_file's loop that writes one SLIP-encoded
    META frame and then one DATA frame per chunk of the file. The serial
    port is replaced by the byte stream the function would write. */
module Sender {
  import opened Bytes
  import Slip

  const TYPE_META: u8 := 0x01
  const TYPE_DATA: u8 := 0x02
  /** The second META byte, packed as the constant 1. */
  const META_VERSION: u8 := 1
  const META_HEADER: nat := 13
  const DATA_HEADER: nat := 11
  const MIN_CHUNK: nat := 64
  const MAX_CHUNK: nat := 4096
  const MAX_NAME: nat := 255

  function Min(a: int, b: int): int
  {
    if a < b then a else b
  }

  function Max(a: int, b: int): int
  {
    if a < b then b else a
  }

  /** chunk = max(64, min(chunk, 4096)). */
  function ClampChunk(chunk: int): (c: nat)
    ensures MIN_CHUNK <= c <= MAX_CHUNK
    ensures MIN_CHUNK <= chunk <= MAX_CHUNK ==> c == chunk
    ensures chunk < MIN_CHUNK ==> c == MIN_CHUNK
    ensures chunk > MAX_CHUNK ==> c == MAX_CHUNK
  {
    Max(MIN_CHUNK, Min(chunk, MAX_CHUNK))
  }

  /** name_bytes[:255]. */
  function ClampName(name: seq<u8>): (n: seq<u8>)
    ensures |n| == Min(|name|, MAX_NAME) && n == name[..|n|]
  {
    if |name| <= MAX_NAME then name else name[..MAX_NAME]
  }

  /** struct.pack("<BBIIHB", TYPE_META, 1, file_id, size, chunk, len(name)) + name. */
  function PackMeta(fileId: u32, size: u32, chunk: u16, name: seq<u8>): (m: seq<u8>)
    requires |name| <= MAX_NAME
    ensures |m| == META_HEADER + |name|
  {
    [TYPE_META, META_VERSION] + Le32(fileId) + Le32(size) + Le16(chunk) + [|name|] + name
  }

  /** struct.pack("<BIIH", TYPE_DATA, file_id, seq, len(pt)) + pt. */
  function PackData(fileId: u32, sq: u32, pt: seq<u8>): (d: seq<u8>)
    requires |pt| < 0x1_0000
    ensures |d| == DATA_HEADER + |pt|
  {
    [TYPE_DATA] + Le32(fileId) + Le32(sq) + Le16(|pt|) + pt
  }

  /** The receiver's loads at offsets 2, 6, 10 and 12 give back what was
      packed, whatever follows the frame. */
  lemma MetaHeaderRoundTrip(fileId: u32, size: u32, chunk: u16, name: seq<u8>, rest: seq<u8>)
    requires |name| <= MAX_NAME
    ensures var m := PackMeta(fileId, size, chunk, name) + rest;
      m[0] == TYPE_META && Rd32(m, 2) == fileId && Rd32(m, 6) == size && Rd16(m, 10) == chunk
      && m[12] == |name| && m[META_HEADER .. META_HEADER + |name|] == name
  {
    var m := PackMeta(fileId, size, chunk, name) + rest;
    var p0: seq<u8> := [TYPE_META, META_VERSION];
    Rd32OfLe32(p0, fileId, Le32(size) + Le16(chunk) + [|name|] + name + rest);
    assert m == p0 + Le32(fileId) + (Le32(size) + Le16(chunk) + [|name|] + name + rest);
    Rd32OfLe32(p0 + Le32(fileId), size, Le16(chunk) + [|name|] + name + rest);
    assert m == p0 + Le32(fileId) + Le32(size) + (Le16(chunk) + [|name|] + name + rest);
    Rd16OfLe16(p0 + Le32(fileId) + Le32(size), chunk, [|name|] + name + rest);
    assert m == p0 + Le32(fileId) + Le32(size) + Le16(chunk) + ([|name|] + name + rest);
  }

  /** The receiver's loads at offsets 1, 5 and 9 give back what was packed. */
  lemma DataHeaderRoundTrip(fileId: u32, sq: u32, pt: seq<u8>, rest: seq<u8>)
    requires |pt| < 0x1_0000
    ensures var d := PackData(fileId, sq, pt) + rest;
      d[0] == TYPE_DATA && Rd32(d, 1) == fileId && Rd32(d, 5) == sq && Rd16(d, 9) == |pt|
      && d[DATA_HEADER .. DATA_HEADER + |pt|] == pt
  {
    var d := PackData(fileId, sq, pt) + rest;
    var p0: seq<u8> := [TYPE_DATA];
    Rd32OfLe32(p0, fileId, Le32(sq) + Le16(|pt|) + pt + rest);
    assert d == p0 + Le32(fileId) + (Le32(sq) + Le16(|pt|) + pt + rest);
    Rd32OfLe32(p0 + Le32(fileId), sq, Le16(|pt|) + pt + rest);
    assert d == p0 + Le32(fileId) + Le32(sq) + (Le16(|pt|) + pt + rest);
    Rd16OfLe16(p0 + Le32(fileId) + Le32(sq), |pt|, pt + rest);
    assert d == p0 + Le32(fileId) + Le32(sq) + Le16(|pt|) + (pt + rest);
  }

  // ---------------------------------------------------------------------
  // The DATA loop.

  /** The chunk the loop sends at offset off: data[off : off + chunk]. */
  function Piece(data: seq<u8>, chunk: nat, off: nat): (pt: seq<u8>)
    requires off <= |data|
  {
    data[off .. Min(off + chunk, |data|)]
  }

  /** The DATA frames (before SLIP encoding) the loop sends from offset off
      on, numbering them from sq. */
  function DataFrames(fileId: u32, data: seq<u8>, chunk: nat, off: nat, sq: nat): (fs: seq<seq<u8>>)
    requires MIN_CHUNK <= chunk <= MAX_CHUNK && off <= |data| < 0x1_0000_0000 && sq <= off
    decreases |data| - off
  {
    if off >= |data| then []
    else
      var pt := Piece(data, chunk, off);
      [PackData(fileId, sq, pt)] + DataFrames(fileId, data, chunk, off + |pt|, sq + 1)
  }

  /** Frames written one after the other. */
  function EncodeAll(fs: seq<seq<u8>>): seq<u8>
  {
    if fs == [] then [] else Slip.Encode(fs[0]) + EncodeAll(fs[1..])
  }

  /** Everything send_file writes: the META frame, then the DATA frames. */
  function Stream(fileId: u32, data: seq<u8>, chunk: nat, name: seq<u8>): seq<u8>
    requires MIN_CHUNK <= chunk <= MAX_CHUNK && |data| < 0x1_0000_0000 && |name| <= MAX_NAME
  {
    Slip.Encode(PackMeta(fileId, |data|, chunk, name)) + EncodeAll(DataFrames(fileId, data, chunk, 0, 0))
  }

  /** The payloads of the DATA frames. */
  function Payloads(fs: seq<seq<u8>>): seq<u8>
  {
    if fs == [] then [] else fs[0][Min(DATA_HEADER, |fs[0]|)..] + Payloads(fs[1..])
  }

  /** The payload of a packed DATA frame is the piece it was packed from. */
  lemma PayloadOfData(fileId: u32, sq: u32, pt: seq<u8>, rest: seq<seq<u8>>)
    requires |pt| < 0x1_0000
    ensures Payloads([PackData(fileId, sq, pt)] + rest) == pt + Payloads(rest)
  {
    var f := PackData(fileId, sq, pt);
    assert ([f] + rest)[0] == f && ([f] + rest)[1..] == rest;
    assert f[DATA_HEADER..] == pt;
  }

  /** The payloads of the loop's frames put together are exactly the rest
      of the file. */
  lemma {:induction false} PayloadsAreData(fileId: u32, data: seq<u8>, chunk: nat, off: nat, sq: nat)
    requires MIN_CHUNK <= chunk <= MAX_CHUNK && off <= |data| < 0x1_0000_0000 && sq <= off
    ensures Payloads(DataFrames(fileId, data, chunk, off, sq)) == data[off..]
    decreases |data| - off
  {
    if off < |data| {
      var pt := Piece(data, chunk, off);
      var rest := DataFrames(fileId, data, chunk, off + |pt|, sq + 1);
      PayloadsAreData(fileId, data, chunk, off + |pt|, sq + 1);
      PayloadOfData(fileId, sq, pt, rest);
      assert data[off..] == pt + data[off + |pt|..];
    }
  }

  /** The loop sends ceil(remaining / chunk) frames: enough chunks to cover
      the rest of the file, and one fewer would not. */
  lemma {:induction false} FrameCount(fileId: u32, data: seq<u8>, chunk: nat, off: nat, sq: nat)
    requires MIN_CHUNK <= chunk <= MAX_CHUNK && off <= |data| < 0x1_0000_0000 && sq <= off
    ensures var n := |DataFrames(fileId, data, chunk, off, sq)|;
      (n == 0 <==> off == |data|) && |data| - off <= n * chunk && (n > 0 ==> (n - 1) * chunk < |data| - off)
    decreases |data| - off
  {
    if off < |data| {
      var pt := Piece(data, chunk, off);
      var n := |DataFrames(fileId, data, chunk, off + |pt|, sq + 1)|;
      FrameCount(fileId, data, chunk, off + |pt|, sq + 1);
      assert |DataFrames(fileId, data, chunk, off, sq)| == n + 1;
      assert (n + 1) * chunk == n * chunk + chunk;
      if n > 0 {
        assert n * chunk == (n - 1) * chunk + chunk;
        assert |pt| == chunk;
      }
    }
  }

  /** A DATA frame as the receiver reads it: type byte, file id, sequence
      number and a payload length matching the payload, at most
      11 + chunk bytes in all. */
  predicate DataFrameOk(fr: seq<u8>, fileId: u32, sq: nat, chunk: nat)
  {
    DATA_HEADER < |fr| <= DATA_HEADER + chunk
    && fr[0] == TYPE_DATA && Rd32(fr, 1) == fileId && Rd32(fr, 5) == sq
    && Rd16(fr, 9) == |fr| - DATA_HEADER
  }

  /** Frame i of the loop carries the file id and sequence number sq + i, and
      is at most 11 + chunk <= 4107 bytes long. */
  lemma {:induction false} FrameFields(fileId: u32, data: seq<u8>, chunk: nat, off: nat, sq: nat)
    requires MIN_CHUNK <= chunk <= MAX_CHUNK && off <= |data| < 0x1_0000_0000 && sq <= off
    ensures forall i | 0 <= i < |DataFrames(fileId, data, chunk, off, sq)| ::
      DataFrameOk(DataFrames(fileId, data, chunk, off, sq)[i], fileId, sq + i, chunk)
    decreases |data| - off
  {
    var fs := DataFrames(fileId, data, chunk, off, sq);
    if off < |data| {
      var pt := Piece(data, chunk, off);
      var f := PackData(fileId, sq, pt);
      var rest := DataFrames(fileId, data, chunk, off + |pt|, sq + 1);
      FrameFields(fileId, data, chunk, off + |pt|, sq + 1);
      DataHeaderRoundTrip(fileId, sq, pt, []);
      assert f + [] == f;
      assert DataFrameOk(f, fileId, sq, chunk);
      assert fs == [f] + rest;
      forall i | 0 <= i < |fs|
        ensures DataFrameOk(fs[i], fileId, sq + i, chunk)
      {
        if i > 0 {
          assert fs[i] == rest[i - 1];
          assert DataFrameOk(rest[i - 1], fileId, (sq + 1) + (i - 1), chunk);
        } else {
          assert fs[i] == f;
        }
      }
    }
  }

  /** One turn of the loop sends the frame for the piece at off. */
  lemma NextFrame(fileId: u32, data: seq<u8>, chunk: nat, off: nat, sq: nat)
    requires MIN_CHUNK <= chunk <= MAX_CHUNK && off < |data| < 0x1_0000_0000 && sq <= off
    ensures var pt := Piece(data, chunk, off);
      EncodeAll(DataFrames(fileId, data, chunk, off, sq))
      == Slip.Encode(PackData(fileId, sq, pt)) + EncodeAll(DataFrames(fileId, data, chunk, off + |pt|, sq + 1))
  {
    var pt := Piece(data, chunk, off);
    var rest := DataFrames(fileId, data, chunk, off + |pt|, sq + 1);
    assert DataFrames(fileId, data, chunk, off, sq) == [PackData(fileId, sq, pt)] + rest;
    assert ([PackData(fileId, sq, pt)] + rest)[1..] == rest;
  }

  /** Appending the frame for the piece at off keeps the loop's invariant:
      what has been sent followed by what is still to send is the whole
      DATA stream. */
  lemma SentOneMore(fileId: u32, data: seq<u8>, chunk: nat, off: nat, sq: nat, sent: seq<u8>, frame: seq<u8>)
    requires MIN_CHUNK <= chunk <= MAX_CHUNK && off < |data| < 0x1_0000_0000 && sq <= off
    requires sent + EncodeAll(DataFrames(fileId, data, chunk, off, sq)) == EncodeAll(DataFrames(fileId, data, chunk, 0, 0))
    requires frame == Slip.Encode(PackData(fileId, sq, Piece(data, chunk, off)))
    ensures (sent + frame) + EncodeAll(DataFrames(fileId, data, chunk, off + |Piece(data, chunk, off)|, sq + 1))
         == EncodeAll(DataFrames(fileId, data, chunk, 0, 0))
  {
    var later := EncodeAll(DataFrames(fileId, data, chunk, off + |Piece(data, chunk, off)|, sq + 1));
    NextFrame(fileId, data, chunk, off, sq);
    assert sent + (frame + later) == (sent + frame) + later;
  }

  /** What send_file ends in: the bytes written, or struct.error when the
      file size does not fit the META header's 32-bit field (nothing is
      written then). */
  datatype Sent = Written(stream: seq<u8>) | PackError

  /** send_file from the clamping on, with file_id given instead of drawn
      from os.urandom and the port replaced by the returned stream. */
  method SendFile(name: seq<u8>, data: seq<u8>, fileId: u32, chunkIn: int) returns (r: Sent)
    ensures |data| >= 0x1_0000_0000 ==> r == PackError
    ensures |data| < 0x1_0000_0000 ==>
      r == Written(Stream(fileId, data, ClampChunk(chunkIn), ClampName(name)))
  {
    var nameBytes := ClampName(name);
    var chunk := ClampChunk(chunkIn);
    if |data| >= 0x1_0000_0000 {
      return PackError;
    }
    var meta := PackMeta(fileId, |data|, chunk, nameBytes);
    var out := Slip.SlipEncode(meta);
    var rest := SendData(fileId, data, chunk);
    return Written(out + rest);
  }

  /** The DATA part of send_file: off and seq advance frame by frame. */
  method SendData(fileId: u32, data: seq<u8>, chunk: nat) returns (out: seq<u8>)
    requires MIN_CHUNK <= chunk <= MAX_CHUNK && |data| < 0x1_0000_0000
    ensures out == EncodeAll(DataFrames(fileId, data, chunk, 0, 0))
  {
    out := [];
    var off, sq, total := 0, 0, |data|;
    while off < total
      invariant off <= total && sq <= off
      invariant out + EncodeAll(DataFrames(fileId, data, chunk, off, sq))
             == EncodeAll(DataFrames(fileId, data, chunk, 0, 0))
      decreases total - off
    {
      var pt := data[off .. Min(off + chunk, total)];
      assert pt == Piece(data, chunk, off);
      var frame := Slip.SlipEncode(PackData(fileId, sq, pt));
      SentOneMore(fileId, data, chunk, off, sq, out, frame);
      out := out + frame;
      off := off + |pt|;
      sq := sq + 1;
    }
  }
}
