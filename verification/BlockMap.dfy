/** fs.c: the block map of a file. */
module FsMap {
  import opened Bytes
  import opened Kernel
  import opened LogState
  import opened Log
  import opened FsFormat
  import opened FsState
  import opened FsSteps
  import opened FsSpec
  import opened FsIo
  import opened FsAlloc

  method BmapDirect(fs: FileSys, s: nat, bn: nat) returns (r: Res<nat>)
    requires fs.Valid() && Loaded(fs.icache, s) && bn <= |fs.a.file[fs.icache[s].inum]| && bn < NDIRECT && fs.Room(4)
    modifies fs`icache, fs`a, fs`stale, fs.log`lh, fs.log.cache
    ensures fs.log.Valid() && Quiet(old(fs.log.cache.face), fs.log.cache.face)
    ensures r.Panic? ==> r.why == OutOfBlocks && bn == old(|fs.a.file[fs.icache[s].inum]|)
    ensures r.Panic? ==> Exhausted(fs.sb, fs.View(), fs.a, fs.icache, r.why)
    ensures r.Ok? ==> fs.Valid() && Bmapped(old(fs.Now()), fs.Now(), s, bn, r.value) && Grown(fs.sb, old(fs.Now()), fs.Now(), s, bn)
  {
    hide TxnLog.Valid, Consistent, Grown, Absorb, Allocated, BitAt, Exhausted;
    ghost var p := fs.Now();
    ConsistentFacts(fs.sb, fs.View(), fs.a, fs.stale, fs.icache);
    CacheSlot(fs.sb, fs.a, fs.icache, s);
    var d := fs.icache[s].d;
    DirectFacts(fs.sb, fs.View(), fs.a, fs.icache[s].inum, bn);
    var addr := d.addrs[bn];
    if addr == 0 {
      var x :- Balloc(fs);
      ghost var q := fs.Now();
      d := d.(addrs := d.addrs[bn := x]);
      fs.a, fs.stale := Attached(fs.a, fs.icache[s].inum, d, x), fs.stale + {fs.icache[s].inum};
      fs.icache := fs.icache[s := fs.icache[s].(d := d)];
      addr := x;
      DirectStep(p, q, fs.Now(), fs.sb, s, bn, x);
    } else {
      GrownNothing(fs.sb, p, s, bn);
    }
    return Ok(addr);
  }

  /** Load the indirect block, allocating it if necessary. */
  method EnsureIndirect(fs: FileSys, s: nat) returns (r: Res<()>)
    requires fs.Valid() && Loaded(fs.icache, s) && |fs.a.file[fs.icache[s].inum]| >= NDIRECT && fs.Room(4)
    modifies fs`icache, fs`a, fs`stale, fs.log`lh, fs.log.cache
    ensures fs.log.Valid() && Quiet(old(fs.log.cache.face), fs.log.cache.face)
    ensures r.Panic? ==> r.why == OutOfBlocks && old(fs.icache[s].d.Ok() && fs.icache[s].d.addrs[NDIRECT] == 0)
    ensures r.Panic? ==> Exhausted(fs.sb, fs.View(), fs.a, fs.icache, r.why)
    ensures r.Ok? ==> fs.Valid() && Indirected(old(fs.Now()), fs.Now(), s) && IndirectGrown(fs.sb, old(fs.Now()), fs.Now(), s)
  {
    hide TxnLog.Valid, Consistent, Absorb, Allocated, BitAt, Exhausted;
    ghost var p := fs.Now();
    ConsistentFacts(fs.sb, fs.View(), fs.a, fs.stale, fs.icache);
    CacheSlot(fs.sb, fs.a, fs.icache, s);
    var d := fs.icache[s].d;
    if d.addrs[NDIRECT] == 0 {
      NoIndirect(fs.sb, fs.View(), fs.a, fs.icache[s].inum);
      var x :- Balloc(fs);
      ghost var q := fs.Now();
      d := d.(addrs := d.addrs[NDIRECT := x]);
      fs.a, fs.stale := IndirectAttached(fs.a, fs.icache[s].inum, d, x), fs.stale + {fs.icache[s].inum};
      fs.icache := fs.icache[s := fs.icache[s].(d := d)];
      IndirectStep(p, q, fs.Now(), fs.sb, s, x);
    }
    return Ok(());
  }

  /** Look up an entry of the indirect block; fill it if it is empty. */
  method BmapEntry(fs: FileSys, s: nat, bn: nat) returns (r: Res<nat>)
    requires fs.Valid() && Loaded(fs.icache, s) && NDIRECT <= bn < MAXFILE && bn <= |fs.a.file[fs.icache[s].inum]|
    requires fs.icache[s].d.Ok() && fs.icache[s].d.addrs[NDIRECT] != 0 && fs.Room(2) && |fs.log.cache.face.held| <= 2
    modifies fs`a, fs.log`lh, fs.log.cache
    ensures fs.log.Valid() && Still(old(fs.log.cache.face), fs.log.cache.face)
    ensures r.Panic? ==> r.why == OutOfBlocks && bn == old(|fs.a.file[fs.icache[s].inum]|)
    ensures r.Panic? ==> Exhausted(fs.sb, fs.View(), fs.a, fs.icache, r.why)
    ensures r.Ok? ==> fs.Valid() && EntryMapped(old(fs.Now()), fs.Now(), s, bn, r.value) && EntryGrown(fs.sb, old(fs.Now()), fs.Now(), s, bn, r.value)
  {
    hide TxnLog.Valid, Consistent, Exhausted;
    ghost var p := fs.Now();
    ConsistentFacts(fs.sb, fs.View(), fs.a, fs.stale, fs.icache);
    CacheSlot(fs.sb, fs.a, fs.icache, s);
    var ind := fs.icache[s].d.addrs[NDIRECT];
    EntryFacts(fs.sb, fs.View(), fs.a, fs.icache[s].inum, bn);
    var h, data := Fetch(fs.log, ind);
    var addr := Entry(data, bn - NDIRECT);
    if addr == 0 {
      addr :- FillEntry(fs, s, bn, h, data, p);
    } else {
      Release(fs.log, h, ind, p.face.held);
    }
    return Ok(addr);
  }

  /** The indirect block is in buffer `h` and its entry is empty: allocate a block and name it there. */
  method FillEntry(fs: FileSys, s: nat, bn: nat, h: nat, data: Block, ghost p: State) returns (r: Res<nat>)
    requires fs.Valid() && Loaded(fs.icache, s) && NDIRECT <= bn < MAXFILE && bn == |fs.a.file[fs.icache[s].inum]|
    requires fs.icache[s].d.Ok() && fs.icache[s].d.addrs[NDIRECT] != 0 && fs.Room(2)
    requires p.face.Ok() && |p.face.held| <= 2 && fs.Now() == p.(face := p.face.(held := fs.log.cache.face.held))
    requires Top(fs.log.cache.face.held, p.face.held, h, fs.icache[s].d.addrs[NDIRECT])
    requires fs.icache[s].d.addrs[NDIRECT] < |fs.View()| && data == fs.View()[fs.icache[s].d.addrs[NDIRECT]]
    requires fs.sb.Ok() && fs.icache[s].inum < |p.a.file| == |p.a.ino| && !fs.log.area.Has(fs.icache[s].d.addrs[NDIRECT])
    modifies fs`a, fs.log`lh, fs.log.cache
    ensures fs.log.Valid() && Still(old(fs.log.cache.face), fs.log.cache.face)
    ensures r.Panic? ==> r.why == OutOfBlocks
    ensures r.Panic? ==> Exhausted(fs.sb, fs.View(), fs.a, fs.icache, r.why)
    ensures r.Ok? ==> fs.Valid() && EntryMapped(p, fs.Now(), s, bn, r.value) && EntryGrown(fs.sb, p, fs.Now(), s, bn, r.value)
  {
    hide TxnLog.Valid, Consistent, Allocated, Top, EntryMapped, EntryGrown, PutEntry, Exhausted;
    ghost var q := fs.Now();
    var i, ind := fs.icache[s].inum, fs.icache[s].d.addrs[NDIRECT];
    var x :- Balloc(fs);
    ghost var mid := fs.Now();
    Finish(fs.log, h, PutEntry(data, bn - NDIRECT, x), ind, p.face.held);
    IndirectSlot(fs.sb, q, s);
    fs.a := Attached(fs.a, i, fs.a.ino[i], x);
    fs.log.Facts();
    EntryFilled(q, p.face, mid, fs.Now(), fs.sb, s, bn, x);
    return Ok(x);
  }

  /** The indirect half of bmap. */
  method BmapIndirect(fs: FileSys, s: nat, bn: nat) returns (r: Res<nat>)
    requires fs.Valid() && Loaded(fs.icache, s) && NDIRECT <= bn < MAXFILE && bn <= |fs.a.file[fs.icache[s].inum]|
    requires fs.Room(4) && |fs.log.cache.face.held| <= 2
    modifies fs`icache, fs`a, fs`stale, fs.log`lh, fs.log.cache
    ensures fs.log.Valid() && Still(old(fs.log.cache.face), fs.log.cache.face)
    ensures r.Panic? ==> r.why == OutOfBlocks && bn == old(|fs.a.file[fs.icache[s].inum]|)
    ensures r.Panic? ==> Exhausted(fs.sb, fs.View(), fs.a, fs.icache, r.why)
    ensures r.Ok? ==> fs.Valid() && Bmapped(old(fs.Now()), fs.Now(), s, bn, r.value) && Grown(fs.sb, old(fs.Now()), fs.Now(), s, bn)
  {
    hide TxnLog.Valid, Consistent, Indirected, EntryMapped, Bmapped, Grown, IndirectGrown, EntryGrown, Exhausted;
    ghost var p := fs.Now();
    ghost var i := fs.icache[s].inum;
    SlotFile(fs.sb, p, s);
    var _ :- EnsureIndirect(fs, s);
    ghost var q := fs.Now();
    Halfway(fs.sb, p, q, s, bn);
    var x :- BmapEntry(fs, s, bn);
    ghost var z := fs.Now();
    EntryMappedFacts(q, z, s, bn, x);
    if bn == |p.a.file[i]| {
      fs.stale := p.stale + {i};
      StaleMore(fs.sb, fs.View(), fs.a, q.stale, fs.stale, fs.icache);
    }
    BmapDone(p, q, z, fs.Now(), fs.sb, s, bn, x);
    return Ok(x);
  }

  /** bmap: the block number of block `bn` of a file, which is at most one past its last block. */
  method Bmap(fs: FileSys, s: nat, bn: nat) returns (r: Res<nat>)
    requires fs.Valid() && Loaded(fs.icache, s) && bn <= |fs.a.file[fs.icache[s].inum]|
    requires fs.Room(4) && |fs.log.cache.face.held| <= 2
    modifies fs`icache, fs`a, fs`stale, fs.log`lh, fs.log.cache
    ensures fs.log.Valid() && Still(old(fs.log.cache.face), fs.log.cache.face)
    ensures r.Panic? ==> bn == old(|fs.a.file[fs.icache[s].inum]|) && r.why == if bn < MAXFILE then OutOfBlocks else BmapOutOfRange
    ensures r.Panic? ==> Exhausted(fs.sb, fs.View(), fs.a, fs.icache, r.why)
    ensures r.Ok? ==> fs.Valid() && Bmapped(old(fs.Now()), fs.Now(), s, bn, r.value) && Grown(fs.sb, old(fs.Now()), fs.Now(), s, bn)
  {
    hide TxnLog.Valid, Consistent, Bmapped, Grown;
    ConsistentFacts(fs.sb, fs.View(), fs.a, fs.stale, fs.icache);
    CacheSlot(fs.sb, fs.a, fs.icache, s);
    FileMax(fs.sb, fs.View(), fs.a, fs.icache[s].inum);
    if bn < NDIRECT {
      r := BmapDirect(fs, s, bn);
    } else if bn < MAXFILE {
      r := BmapIndirect(fs, s, bn);
    } else {
      r := Panic(BmapOutOfRange);
    }
  }
}
