/** Fixed-width integers as the C and Python sources use them, and the
    little-endian loaders (rd16/rd32) and packers (struct.pack "<H"/"<I")
    shared by the receivers and the sender. */
module Bytes {

  type u8 = x: int | 0 <= x < 0x100
  type u16 = x: int | 0 <= x < 0x1_0000
  type u32 = x: int | 0 <= x < 0x1_0000_0000

  /** lo + 0x100 * hi, for a byte lo, has lo as its low byte and hi above it. */
  lemma Digit(lo: int, hi: int)
    requires 0 <= lo < 0x100
    ensures (lo + 0x100 * hi) % 0x100 == lo && (lo + 0x100 * hi) / 0x100 == hi
  {
  }

  /** rd16: the 16-bit little-endian value stored at p[off], p[off + 1].
      The C code ORs the bytes after shifting them into disjoint bit ranges,
      which is the same number as the weighted sum written here. */
  function Rd16(p: seq<u8>, off: nat): (r: u16)
    requires off + 2 <= |p|
    ensures r % 0x100 == p[off] && r / 0x100 == p[off + 1]
  {
    Digit(p[off], p[off + 1]);
    p[off] as int + 0x100 * (p[off + 1] as int)
  }

  /** rd32: the 32-bit little-endian value stored at p[off .. off + 4]:
      its bytes, least significant first, are p[off] .. p[off + 3]. */
  function Rd32(p: seq<u8>, off: nat): (r: u32)
    requires off + 4 <= |p|
    ensures r % 0x100 == p[off] && (r / 0x100) % 0x100 == p[off + 1]
    ensures (r / 0x100 / 0x100) % 0x100 == p[off + 2] && r / 0x100 / 0x100 / 0x100 == p[off + 3]
  {
    var high := p[off + 2] as int + 0x100 * (p[off + 3] as int);
    var mid := p[off + 1] as int + 0x100 * high;
    Digit(p[off + 2], p[off + 3]);
    Digit(p[off + 1], high);
    Digit(p[off], mid);
    p[off] as int + 0x100 * mid
  }

  /** struct.pack("<H", x): two bytes, least significant first. */
  function Le16(x: u16): (b: seq<u8>)
    ensures |b| == 2 && b[0] as int + 0x100 * (b[1] as int) == x
  {
    [x % 0x100, x / 0x100]
  }

  /** struct.pack("<I", x): four bytes, least significant first. */
  function Le32(x: u32): (b: seq<u8>)
    ensures |b| == 4
    ensures b[0] as int + 0x100 * (b[1] as int + 0x100 * (b[2] as int + 0x100 * (b[3] as int))) == x
  {
    [x % 0x100, (x / 0x100) % 0x100, (x / 0x100 / 0x100) % 0x100, x / 0x100 / 0x100 / 0x100]
  }

  /** Loading what was packed gives the packed value back, wherever it sits. */
  lemma Rd16OfLe16(p: seq<u8>, x: u16, q: seq<u8>)
    ensures Rd16(p + Le16(x) + q, |p|) == x
  {
    var s := p + Le16(x) + q;
    assert s[|p|] == Le16(x)[0] && s[|p| + 1] == Le16(x)[1];
  }

  lemma Rd32OfLe32(p: seq<u8>, x: u32, q: seq<u8>)
    ensures Rd32(p + Le32(x) + q, |p|) == x
  {
    var s := p + Le32(x) + q;
    assert s[|p|] == Le32(x)[0] && s[|p| + 1] == Le32(x)[1];
    assert s[|p| + 2] == Le32(x)[2] && s[|p| + 3] == Le32(x)[3];
  }

  /** Packing what was loaded gives the loaded bytes back. */
  lemma Le16OfRd16(p: seq<u8>, off: nat)
    requires off + 2 <= |p|
    ensures Le16(Rd16(p, off)) == p[off .. off + 2]
  {
  }

  lemma Le32OfRd32(p: seq<u8>, off: nat)
    requires off + 4 <= |p|
    ensures Le32(Rd32(p, off)) == p[off .. off + 4]
  {
  }

  /** n zero bytes, as memset with 0 leaves them. */
  function Zeros(n: nat): (z: seq<u8>)
    ensures |z| == n && forall i | 0 <= i < n :: z[i] == 0
  {
    seq(n, _ => 0)
  }

  /** memcpy(dst + off, src, |src|). */
  method Memcpy(dst: array<u8>, off: nat, src: seq<u8>)
    requires off + |src| <= dst.Length
    modifies dst
    ensures dst[..] == old(dst[..])[..off] + src + old(dst[..])[off + |src| ..]
  {
    forall i | off <= i < off + |src| {
      dst[i] := src[i - off];
    }
  }
}
