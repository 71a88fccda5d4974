/** fs.c, block level: which blocks belong to which file, and what every step of the allocator and of
    the block map keeps true. */
module FsState {
  import opened Bytes
  import opened RedoLog
  import opened FsFormat

  /** struct superblock, as mkfs lays it out. */
  datatype Super = Super(size: nat, ninodes: nat, nlog: nat, logstart: nat, inodestart: nat, bmapstart: nat)
  {
    function IBlock(i: nat): (b: nat) { i / IPB + inodestart }

    function BBlock(b: nat): (r: nat) { b / BPB + bmapstart }

    /** The first block behind boot block, superblock, log, inodes and bitmap. */
    function DataStart(): (b: nat) { bmapstart + size / BPB + 1 }

    function LogArea(): (a: Area) { Area(logstart, nlog) }

    predicate Ok()
    {
      && 2 <= logstart && nlog == LOGSIZE && logstart + nlog <= inodestart
      && 2 <= ninodes < 0x8000 && inodestart + ninodes / IPB + 1 <= bmapstart
      && DataStart() <= size < 0x1_0000_0000
    }
  }

  /** The superblock as mkfs writes it: seven words, the second of which, the number of data blocks, is not used again. */
  function SuperBlock(sb: Super): (b: Block)
    requires sb.Ok()
  {
    var b := PutEntry(PutEntry(PutEntry(ZERO, 0, sb.size), 1, sb.size - sb.DataStart()), 2, sb.ninodes);
    PutEntry(PutEntry(PutEntry(PutEntry(b, 3, sb.nlog), 4, sb.logstart), 5, sb.inodestart), 6, sb.bmapstart)
  }

  /** readsb. */
  function ReadSuper(b: Block): (sb: Super)
  {
    Super(Entry(b, 0), Entry(b, 2), Entry(b, 3), Entry(b, 4), Entry(b, 5), Entry(b, 6))
  }

  lemma SuperRoundTrip(sb: Super)
    requires sb.Ok()
    ensures ReadSuper(SuperBlock(sb)) == sb && Entry(SuperBlock(sb), 1) == sb.size - sb.DataStart()
  {
    hide Entry, PutEntry;
  }

  /** A place that holds a block number: data block `s` of inode `i`, or its indirect block. */
  datatype Slot = Slot(i: nat, s: nat)

  const INDIRECT: nat := MAXFILE

  /** The file system as the kernel sees it, above the blocks. */
  datatype Abs = Abs(
    ino: seq<Dinode>,           // every inode; the one in memory where there is one
    file: seq<seq<Block>>,      // its data blocks, in order
    owner: map<nat, Slot>,      // block number -> the place that holds it
    limbo: set<nat>)            // blocks allocated but not (or no longer) held anywhere

  /** Bit of block `b` in the bitmap. */
  predicate BitAt(sb: Super, v: Disk, b: nat)
    requires sb.Ok() && |v| == sb.size && b < sb.size
  {
    BlockBit(v[sb.BBlock(b)], b % BPB)
  }

  /** The block number of data block `bn` of a file, 0 if there is none. */
  function Addr(v: Disk, d: Dinode, bn: nat): (x: nat)
    requires d.Ok() && bn < MAXFILE
  {
    if bn < NDIRECT then d.addrs[bn]
    else if d.addrs[NDIRECT] == 0 || d.addrs[NDIRECT] >= |v| then 0
    else Entry(v[d.addrs[NDIRECT]], bn - NDIRECT)
  }

  /** Inode `i` maps exactly the blocks of `f`, without holes, and owns every block it names. */
  ghost predicate Mapped(v: Disk, d: Dinode, f: seq<Block>, owner: map<nat, Slot>, i: nat)
    requires d.Ok()
  {
    && |f| <= MAXFILE
    && (forall bn :: 0 <= bn < |f| ==>
          var x := Addr(v, d, bn); x != 0 && x < |v| && x in owner && owner[x] == Slot(i, bn) && v[x] == f[bn])
    && (forall bn :: |f| <= bn < MAXFILE ==> Addr(v, d, bn) == 0)
    && (|f| > NDIRECT ==> d.addrs[NDIRECT] != 0)
    && (d.addrs[NDIRECT] != 0 ==>
          |f| >= NDIRECT && d.addrs[NDIRECT] < |v| && d.addrs[NDIRECT] in owner && owner[d.addrs[NDIRECT]] == Slot(i, INDIRECT))
  }

  ghost predicate Shape(sb: Super, v: Disk, a: Abs)
  {
    sb.Ok() && |v| == sb.size && |a.ino| == |a.file| == sb.ninodes && forall i :: 0 <= i < sb.ninodes ==> a.ino[i].Ok()
  }

  ghost predicate AllMapped(sb: Super, v: Disk, a: Abs)
    requires Shape(sb, v, a)
  {
    forall i :: 0 <= i < sb.ninodes ==> MappedAt(v, a, i)
  }

  ghost predicate MappedAt(v: Disk, a: Abs, i: nat)
    requires i < |a.ino| == |a.file| && a.ino[i].Ok()
  {
    Mapped(v, a.ino[i], a.file[i], a.owner, i)
  }

  /** Block `x` is a data block, and the place said to hold it does. */
  ghost predicate HeldAt(sb: Super, v: Disk, a: Abs, x: nat)
    requires Shape(sb, v, a) && x in a.owner
  {
    var Slot(i, s) := a.owner[x];
    && sb.DataStart() <= x < sb.size && i < sb.ninodes
    && if s == INDIRECT then a.ino[i].addrs[NDIRECT] == x
       else s < |a.file[i]| && s < MAXFILE && Addr(v, a.ino[i], s) == x
  }

  ghost predicate Owned(sb: Super, v: Disk, a: Abs)
    requires Shape(sb, v, a)
  {
    forall x :: x in a.owner ==> HeldAt(sb, v, a, x)
  }

  /** The set bits are the metadata, the owned blocks and the blocks in limbo. */
  ghost predicate Bits(sb: Super, v: Disk, a: Abs)
    requires Shape(sb, v, a)
  {
    forall b :: 0 <= b < sb.size ==> (BitAt(sb, v, b) <==> b < sb.DataStart() || b in a.owner || b in a.limbo)
  }

  ghost predicate Limbo(sb: Super, a: Abs)
  {
    a.limbo !! a.owner.Keys && forall x :: x in a.limbo ==> sb.DataStart() <= x < sb.size
  }

  ghost predicate BlocksOk(sb: Super, v: Disk, a: Abs)
  {
    Shape(sb, v, a) && AllMapped(sb, v, a) && Owned(sb, v, a) && Bits(sb, v, a) && Limbo(sb, a)
  }

  // Frames.

  lemma StillHeld(sb: Super, v: Disk, a: Abs, w: Disk, b: Abs, x: nat)
    requires Shape(sb, v, a) && Shape(sb, w, b) && x in a.owner && HeldAt(sb, v, a, x)
    requires x in b.owner && b.owner[x] == a.owner[x]
    requires var i := a.owner[x].i;
             && |b.file[i]| >= |a.file[i]| && b.ino[i].addrs[NDIRECT] == a.ino[i].addrs[NDIRECT]
             && forall bn :: 0 <= bn < MAXFILE && bn < |a.file[i]| ==> Addr(w, b.ino[i], bn) == Addr(v, a.ino[i], bn)
    ensures HeldAt(sb, w, b, x)
  {
  }

  /** Changing blocks nobody owns changes no file. */
  lemma FilesFrame(sb: Super, v: Disk, w: Disk, a: Abs)
    requires Shape(sb, v, a) && AllMapped(sb, v, a) && Owned(sb, v, a)
    requires |w| == |v| && forall x :: x in a.owner && x < |v| ==> w[x] == v[x]
    ensures Shape(sb, w, a) && AllMapped(sb, w, a) && Owned(sb, w, a)
  {
    forall i, bn | 0 <= i < sb.ninodes && 0 <= bn < MAXFILE ensures Addr(w, a.ino[i], bn) == Addr(v, a.ino[i], bn) {
      assert MappedAt(v, a, i);
    }
    forall i | 0 <= i < sb.ninodes ensures MappedAt(w, a, i) {
      assert MappedAt(v, a, i);
    }
    forall x | x in a.owner ensures HeldAt(sb, w, a, x) {
      assert HeldAt(sb, v, a, x);
      StillHeld(sb, v, a, w, a, x);
    }
  }

  /** Bitmap bits depend on the bitmap blocks only. */
  lemma BitsFrame(sb: Super, v: Disk, w: Disk)
    requires sb.Ok() && |v| == |w| == sb.size
    requires forall x :: sb.bmapstart <= x < sb.DataStart() ==> w[x] == v[x]
    ensures forall b :: 0 <= b < sb.size ==> BitAt(sb, w, b) == BitAt(sb, v, b)
  {
  }

  // Inodes on disk and in memory.

  const NINODE := 50

  /** An in-memory inode; there is one device only, so its number is left out. */
  datatype Inode = Inode(inum: nat, ref: nat, valid: bool, d: Dinode)

  /** Inode `i` as the inode blocks have it. */
  function InodeAt(sb: Super, v: Disk, i: nat): (d: Dinode)
    requires sb.Ok() && |v| == sb.size && i < sb.ninodes
    ensures d.Ok()
  {
    InodeIn(v[sb.IBlock(i)], i % IPB)
  }

  /** Write-through: the disk has every inode except those being changed. */
  ghost predicate Synced(sb: Super, v: Disk, a: Abs, stale: set<nat>)
    requires Shape(sb, v, a)
  {
    forall i :: 0 <= i < sb.ninodes && i !in stale ==> InodeAt(sb, v, i) == a.ino[i]
  }

  /** Each inode has at most one referenced slot, and valid slots hold the inode. */
  ghost predicate Cached(sb: Super, a: Abs, icache: seq<Inode>)
    requires |a.ino| == sb.ninodes
  {
    && |icache| == NINODE
    && (forall s :: 0 <= s < NINODE && icache[s].ref > 0 ==> 0 < icache[s].inum < sb.ninodes)
    && (forall s :: 0 <= s < NINODE && icache[s].ref > 0 && icache[s].valid ==> icache[s].d == a.ino[icache[s].inum])
    && (forall s, t :: 0 <= s < t < NINODE && icache[s].ref > 0 && icache[t].ref > 0 ==> icache[s].inum != icache[t].inum)
  }

  /** Blocks, inode blocks and inode cache all tell the same story. */
  ghost predicate Consistent(sb: Super, v: Disk, a: Abs, stale: set<nat>, icache: seq<Inode>)
  {
    BlocksOk(sb, v, a) && Synced(sb, v, a, stale) && Cached(sb, a, icache)
  }

  /** Inodes on disk depend on the inode blocks only. */
  lemma SyncedFrame(sb: Super, v: Disk, w: Disk, a: Abs, stale: set<nat>)
    requires Shape(sb, v, a) && Shape(sb, w, a) && Synced(sb, v, a, stale)
    requires forall x :: sb.inodestart <= x < sb.bmapstart ==> w[x] == v[x]
    ensures Synced(sb, w, a, stale)
  {
    forall i | 0 <= i < sb.ninodes && i !in stale ensures InodeAt(sb, w, i) == a.ino[i] {
      assert InodeAt(sb, v, i) == a.ino[i];
    }
  }

  /** `b` is `a` with one more block at the end of file `i`. */
  ghost predicate Extended(a: Abs, b: Abs, i: nat)
  {
    && i < |a.ino| == |a.file| && |b.ino| == |a.ino|
    && b.ino == a.ino[i := b.ino[i]] && b.ino[i] == a.ino[i].(addrs := b.ino[i].addrs)
    && b.file == a.file[i := a.file[i] + [ZERO]] && b.limbo == a.limbo
  }
}
