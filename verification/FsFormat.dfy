/** fs.h: the on-disk format. Bitmap bits, inodes and indirect blocks as bytes of blocks. */
module FsFormat {
  import opened Bytes

  const NDIRECT := 12
  const NINDIRECT := 128          // BSIZE / sizeof(uint)
  const MAXFILE := 140            // NDIRECT + NINDIRECT
  const IPB := 8                  // BSIZE / sizeof(struct dinode)
  const BPB := 4096               // BSIZE * 8
  const DINODE := 64              // sizeof(struct dinode)

  const T_DIR: s16 := 1
  const T_FILE: s16 := 2
  const T_DEV: s16 := 3

  // Bits of a bitmap block.

  /** Bit `j` of `x`: x & (1 << j). */
  predicate Bit(x: nat, j: nat)
  {
    if j == 0 then x % 2 == 1 else Bit(x / 2, j - 1)
  }

  /** `x` with bit `j` set to `on`: x | (1 << j) or x & ~(1 << j). */
  function PutBit(x: nat, j: nat, on: bool): (r: nat)
  {
    if j == 0 then x / 2 * 2 + (if on then 1 else 0) else PutBit(x / 2, j - 1, on) * 2 + x % 2
  }

  lemma {:induction false} PutBitEffect(x: nat, j: nat, on: bool, k: nat)
    ensures Bit(PutBit(x, j, on), k) == if k == j then on else Bit(x, k)
    decreases j
  {
    if j == 0 {
      assert k > 0 ==> PutBit(x, j, on) / 2 == x / 2;
    } else if k > 0 {
      PutBitEffect(x / 2, j - 1, on, k - 1);
      assert PutBit(x, j, on) / 2 == PutBit(x / 2, j - 1, on);
    }
  }

  function Pow2(n: nat): (r: nat) { if n == 0 then 1 else 2 * Pow2(n - 1) }

  lemma {:induction false} PutBitBound(x: nat, j: nat, on: bool, n: nat)
    requires j < n && x < Pow2(n)
    ensures PutBit(x, j, on) < Pow2(n)
    decreases j
  {
    if j > 0 {
      PutBitBound(x / 2, j - 1, on, n - 1);
    }
  }

  lemma PutBitByte(x: byte, j: nat, on: bool)
    requires j < 8
    ensures PutBit(x, j, on) < 256
  {
    assert Pow2(8) == 256 by {
      assert Pow2(4) == 16;
    }
    PutBitBound(x, j, on, 8);
  }

  /** Bit `bi` of a bitmap block. */
  predicate BlockBit(b: Block, bi: nat)
    requires bi < BPB
  {
    Bit(b[bi / 8], bi % 8)
  }

  function PutBlockBit(b: Block, bi: nat, on: bool): (r: Block)
    requires bi < BPB
    ensures forall k :: 0 <= k < BPB ==> BlockBit(r, k) == if k == bi then on else BlockBit(b, k)
  {
    PutBitByte(b[bi / 8], bi % 8, on);
    var r := b[bi / 8 := PutBit(b[bi / 8], bi % 8, on)];
    assert forall k :: 0 <= k < BPB ==> BlockBit(r, k) == if k == bi then on else BlockBit(b, k) by {
      forall k | 0 <= k < BPB ensures BlockBit(r, k) == if k == bi then on else BlockBit(b, k) {
        if k / 8 == bi / 8 {
          PutBitEffect(b[bi / 8], bi % 8, on, k % 8);
          assert k % 8 == bi % 8 ==> k == bi;
        }
      }
    }
    r
  }

  // Block numbers in an indirect block.

  function Entry(b: Block, j: nat): (r: u32)
    requires j < NINDIRECT
  {
    U32(b, 4 * j)
  }

  function PutEntry(b: Block, j: nat, x: u32): (r: Block)
    requires j < NINDIRECT
    ensures forall k :: 0 <= k < NINDIRECT ==> Entry(r, k) == if k == j then x else Entry(b, k)
  {
    PutU32(b, 4 * j, x)
  }

  lemma ZeroEntries()
    ensures forall k :: 0 <= k < NINDIRECT ==> Entry(ZERO, k) == 0
  {
  }

  // struct dinode

  datatype Dinode = Dinode(typ: s16, major: s16, minor: s16, nlink: s16, size: u32, addrs: seq<u32>)
  {
    predicate Ok() { |addrs| == NDIRECT + 1 }
  }

  function ZeroDinode(): (d: Dinode)
    ensures d.Ok() && forall k :: 0 <= k <= NDIRECT ==> d.addrs[k] == 0
  {
    Dinode(0, 0, 0, 0, 0, seq(NDIRECT + 1, _ => 0))
  }

  /** An inode that is not in use. */
  const FREE: Dinode := ZeroDinode()

  function EncodeAddrs(a: seq<u32>): (r: seq<byte>)
    ensures |r| == 4 * |a|
    ensures forall j :: 0 <= j < |a| ==> U32(r, 4 * j) == a[j]
  {
    if a == [] then [] else
      var n := |a| - 1;
      var r := EncodeAddrs(a[..n]) + LE32(a[n]);
      assert forall j :: 0 <= j < n ==> U32(r, 4 * j) == U32(EncodeAddrs(a[..n]), 4 * j);
      r
  }

  function EncodeDinode(d: Dinode): (r: seq<byte>)
    requires d.Ok()
    ensures |r| == DINODE
  {
    LES16(d.typ) + LES16(d.major) + LES16(d.minor) + LES16(d.nlink) + LE32(d.size) + EncodeAddrs(d.addrs)
  }

  function DecodeDinode(s: seq<byte>): (d: Dinode)
    requires |s| == DINODE
    ensures d.Ok()
  {
    Dinode(S16(s, 0), S16(s, 2), S16(s, 4), S16(s, 6), U32(s, 8),
           seq(NDIRECT + 1, j requires 0 <= j <= NDIRECT => U32(s, 12 + 4 * j)))
  }

  lemma DinodeRoundTrip(d: Dinode)
    requires d.Ok()
    ensures DecodeDinode(EncodeDinode(d)) == d
  {
    var a := EncodeAddrs(d.addrs);
    var s := EncodeDinode(d);
    forall j | 0 <= j <= NDIRECT ensures U32(s, 12 + 4 * j) == d.addrs[j] {
      assert U32(s, 12 + 4 * j) == U32(a, 4 * j);
    }
  }

  /** The inode in slot `k` of an inode block. */
  function InodeIn(b: Block, k: nat): (d: Dinode)
    requires k < IPB
    ensures d.Ok()
  {
    DecodeDinode(b[DINODE * k..DINODE * (k + 1)])
  }

  function PutInode(b: Block, k: nat, d: Dinode): (r: Block)
    requires k < IPB && d.Ok()
    ensures forall j :: 0 <= j < IPB ==> InodeIn(r, j) == if j == k then d else InodeIn(b, j)
  {
    var r: Block := Splice(b, DINODE * k, EncodeDinode(d));
    assert forall j :: 0 <= j < IPB ==> InodeIn(r, j) == if j == k then d else InodeIn(b, j) by {
      DinodeRoundTrip(d);
      forall j | 0 <= j < IPB ensures InodeIn(r, j) == if j == k then d else InodeIn(b, j) {
        assert r[DINODE * j..DINODE * (j + 1)] == if j == k then EncodeDinode(d) else b[DINODE * j..DINODE * (j + 1)];
      }
    }
    r
  }
}
