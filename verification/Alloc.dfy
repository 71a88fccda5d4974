/** fs.c: the state of the file system, and the block allocator. */
module FsAlloc {
  import opened Bytes
  import opened RedoLog
  import opened Kernel
  import opened CacheState
  import opened LogState
  import opened Log
  import opened FsFormat
  import opened FsState
  import opened FsSteps
  import opened FsSpec
  import opened FsIo

  class FileSys {
    const log: TxnLog
    const sb: Super
    var icache: seq<Inode>
    ghost var a: Abs
    ghost var stale: set<nat>      // inodes changed in memory but not yet written through

    constructor (log: TxnLog, sb: Super, icache: seq<Inode>, ghost a: Abs)
      ensures this.log == log && this.sb == sb && this.icache == icache && this.a == a && stale == {}
    {
      this.log, this.sb, this.icache, this.a, this.stale := log, sb, icache, a, {};
    }

    ghost function View(): Disk
      reads log.cache
    {
      log.cache.face.view
    }

    ghost function Now(): State
      reads this, log, log.cache
    {
      State(log.cache.face, log.lh, a, stale, icache)
    }

    ghost predicate Valid()
      reads this, log, log.cache
    {
      && log.Valid() && log.area == sb.LogArea() && log.cache.face.Ok()
      && Consistent(sb, View(), a, stale, icache)
    }

    /** The transaction can take `k` more blocks, and few buffers are held. */
    ghost predicate Room(k: int)
      reads this, log, log.cache
    {
      |log.lh| + k <= 24 && |log.cache.face.held| <= 3
    }
  }

  /** The inner loop of balloc: the first clear bit of a bitmap block that stands for a block below `size`. */
  method FirstClear(data: Block, b: nat, size: nat) returns (bi: nat)
    ensures bi <= BPB && (bi == 0 || b + bi <= size) && forall k :: 0 <= k < bi ==> BlockBit(data, k)
    ensures bi < BPB && b + bi < size ==> !BlockBit(data, bi)
  {
    bi := 0;
    while bi < BPB && b + bi < size
      invariant bi <= BPB && (bi == 0 || b + bi <= size) && forall k :: 0 <= k < bi ==> BlockBit(data, k)
    {
      if !BlockBit(data, bi) {
        return;
      }
      bi := bi + 1;
    }
  }

  /** Take the lowest free block, zero it, and leave it in limbo for the caller to name somewhere. */
  method Balloc(fs: FileSys) returns (r: Res<nat>)
    requires fs.Valid() && fs.Room(2)
    modifies fs`a, fs.log`lh, fs.log.cache
    ensures fs.log.Valid() && Quiet(old(fs.log.cache.face), fs.log.cache.face)
    ensures r.Panic? ==> r.why == OutOfBlocks && forall b :: 0 <= b < fs.sb.size ==> BitAt(fs.sb, old(fs.View()), b)
    ensures r.Panic? ==> Exhausted(fs.sb, fs.View(), fs.a, fs.icache, r.why)
    ensures r.Ok? ==>
              && fs.Valid() && r.value < fs.sb.size && !BitAt(fs.sb, old(fs.View()), r.value)
              && (forall b :: 0 <= b < r.value ==> BitAt(fs.sb, old(fs.View()), b))
              && fs.View() == Allocated(fs.sb, old(fs.View()), r.value)
              && fs.a == old(fs.a).(limbo := old(fs.a).limbo + {r.value})
              && fs.log.lh == Absorb(Absorb(old(fs.log.lh), fs.sb.BBlock(r.value)), r.value)
  {
    hide TxnLog.Valid, Consistent, BitAt;
    ghost var f := fs.log.cache.face;
    ConsistentFacts(fs.sb, f.view, fs.a, fs.stale, fs.icache);
    var found, x, h, data := Scan(fs.log, fs.sb);
    if !found {
      return Panic(OutOfBlocks);
    }
    AllocAll(fs.sb, f.view, fs.a, fs.stale, fs.icache, x);
    Take(fs.log, fs.sb, h, PutBlockBit(data, x % BPB, true), x, f);
    fs.a := fs.a.(limbo := fs.a.limbo + {x});
    return Ok(x);
  }

  /** The outer loop of balloc: read one bitmap block after the other until one has a clear bit, and
      return with its buffer held. */
  method Scan(log: TxnLog, sb: Super) returns (found: bool, x: nat, h: nat, data: Block)
    requires log.Valid() && sb.Ok() && log.cache.face.Ok() && |log.cache.face.view| == sb.size
    requires |log.lh| + |log.cache.face.held| < NBUF
    modifies log.cache
    ensures log.Valid()
    ensures !found ==> log.cache.face == old(log.cache.face) && forall k :: 0 <= k < sb.size ==> BitAt(sb, log.cache.face.view, k)
    ensures found ==>
              && x < sb.size && !BitAt(sb, old(log.cache.face).view, x)
              && (forall k :: 0 <= k < x ==> BitAt(sb, old(log.cache.face).view, k))
              && log.cache.face == old(log.cache.face).(held := log.cache.face.held)
              && Top(log.cache.face.held, old(log.cache.face).held, h, sb.BBlock(x))
              && data == old(log.cache.face).view[sb.BBlock(x)]
  {
    hide TxnLog.Valid, BitAt, Top;
    ghost var f := log.cache.face;
    var b := 0;
    while b < sb.size
      invariant b % BPB == 0 && log.Valid() && log.cache.face == f
      invariant forall k :: 0 <= k < b && k < sb.size ==> BitAt(sb, f.view, k)
    {
      BitmapLoggable(sb, b, 0);
      h, data := Fetch(log, sb.BBlock(b));
      var bi := FirstClear(data, b, sb.size);
      ScannedBits(sb, f.view, b, bi);
      if bi < BPB && b + bi < sb.size {
        BitmapLoggable(sb, b, bi);
        return true, b + bi, h, data;
      }
      Release(log, h, sb.BBlock(b), f.held);
      b := b + BPB;
    }
    return false, 0, 0, ZERO;
  }

  /** A free block has been found and buffer `h` holds its bitmap block: write the bit, zero the block. */
  method Take(log: TxnLog, sb: Super, h: nat, data: Block, x: nat, ghost f: Face)
    requires log.Valid() && log.area == sb.LogArea() && f.Ok() && log.cache.face == f.(held := log.cache.face.held)
    requires sb.Ok() && sb.DataStart() <= x < sb.size == |f.view|
    requires Top(log.cache.face.held, f.held, h, sb.BBlock(x)) && data == PutBlockBit(f.view[sb.BBlock(x)], x % BPB, true)
    requires |log.lh| + 2 <= 24 && |f.held| <= 3
    modifies log`lh, log.cache
    ensures log.Valid() && Quiet(f, log.cache.face) && log.cache.face.view == Allocated(sb, f.view, x)
    ensures log.lh == Absorb(Absorb(old(log.lh), sb.BBlock(x)), x)
  {
    hide TxnLog.Valid, Top;
    BBlockRange(sb, x);
    Finish(log, h, data, sb.BBlock(x), f.held);
    Bzero(log, x);
    log.Facts();
  }

  lemma ScannedBits(sb: Super, v: Disk, b: nat, bi: nat)
    requires sb.Ok() && |v| == sb.size && b % BPB == 0 && b < sb.size && bi <= BPB
    requires forall k :: 0 <= k < bi ==> BlockBit(v[sb.BBlock(b)], k)
    ensures forall k :: b <= k < b + bi && k < sb.size ==> BitAt(sb, v, k)
    ensures bi < BPB && b + bi < sb.size ==> BitAt(sb, v, b + bi) == BlockBit(v[sb.BBlock(b)], bi)
  {
    forall k | b <= k < b + bi && k < sb.size ensures BitAt(sb, v, k) {
      BitmapLoggable(sb, b, k - b);
      assert BlockBit(v[sb.BBlock(b)], k - b);
    }
    if bi < BPB && b + bi < sb.size {
      BitmapLoggable(sb, b, bi);
    }
  }

  method Bzero(log: TxnLog, b: nat)
    requires log.Valid() && b < |log.cache.face.disk| && |log.lh| + |log.cache.face.held| < NBUF
    requires !log.area.Has(b) && |log.lh| + 1 < log.area.size
    modifies log`lh, log.cache
    ensures log.Valid() && log.lh == Absorb(old(log.lh), b)
    ensures old(log.cache.face).Ok() && log.cache.face == old(log.cache.face).Pinned(b, ZERO)
  {
    hide TxnLog.Valid;
    var h, data := Fetch(log, b);
    Finish(log, h, ZERO, b, old(log.cache.face).held);
  }
}
