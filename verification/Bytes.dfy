/** Machine bytes, 16- and 32-bit little-endian words, and disk blocks of BSIZE bytes. */
module Bytes {
  const BSIZE := 512

  type byte = x: int | 0 <= x < 256
  type u32 = x: int | 0 <= x < 0x1_0000_0000
  type u16 = x: int | 0 <= x < 0x1_0000
  type s16 = x: int | -0x8000 <= x < 0x8000

  type Block = s: seq<byte> | |s| == BSIZE witness seq(BSIZE, _ => 0)

  function ZeroBlock(): (b: Block)
    ensures forall k :: 0 <= k < BSIZE ==> b[k] == 0
  {
    seq(BSIZE, _ => 0)
  }

  const ZERO: Block := ZeroBlock()

  /** The little-endian 32-bit word at byte offset `o`. */
  function U32(s: seq<byte>, o: nat): (r: u32)
    requires o + 4 <= |s|
  {
    var a: int, b: int, c: int, d: int := s[o], s[o + 1], s[o + 2], s[o + 3];
    a + 0x100 * b + 0x1_0000 * c + 0x100_0000 * d
  }

  function U16(s: seq<byte>, o: nat): (r: u16)
    requires o + 2 <= |s|
  {
    var a: int, b: int := s[o], s[o + 1];
    a + 0x100 * b
  }

  function S16(s: seq<byte>, o: nat): (r: s16)
    requires o + 2 <= |s|
  {
    var x := U16(s, o);
    if x < 0x8000 then x else x - 0x1_0000
  }

  function LE32(x: u32): (r: seq<byte>)
    ensures |r| == 4 && U32(r, 0) == x
  {
    [x % 0x100, x / 0x100 % 0x100, x / 0x1_0000 % 0x100, x / 0x100_0000]
  }

  function LE16(x: u16): (r: seq<byte>)
    ensures |r| == 2 && U16(r, 0) == x
  {
    [x % 0x100, x / 0x100]
  }

  /** Two's complement encoding of a C `short`. */
  function LES16(x: s16): (r: seq<byte>)
    ensures |r| == 2 && S16(r, 0) == x
  {
    LE16(if x < 0 then x + 0x1_0000 else x)
  }

  /** `s` with the bytes from offset `o` on overwritten by `t`: what memmove does to a buffer. */
  function Splice(s: seq<byte>, o: nat, t: seq<byte>): (r: seq<byte>)
    requires o + |t| <= |s|
    ensures |r| == |s|
    ensures forall k :: 0 <= k < |s| ==> r[k] == if o <= k < o + |t| then t[k - o] else s[k]
  {
    s[..o] + t + s[o + |t|..]
  }

  function PutU32(b: Block, o: nat, x: u32): (r: Block)
    requires o + 4 <= BSIZE
    ensures U32(r, o) == x
    ensures forall p {:trigger U32(r, p)} :: 0 <= p && p + 4 <= BSIZE && (p + 4 <= o || o + 4 <= p)
              ==> U32(r, p) == U32(b, p)
  {
    Splice(b, o, LE32(x))
  }
}
