/** fs.c: freeing blocks, truncating, and the inode cache. */
module FsInodes {
  import opened Collections
  import opened Bytes
  import opened RedoLog
  import opened Kernel
  import opened CacheState
  import opened LogState
  import opened Log
  import opened FsFormat
  import opened FsState
  import opened FsSteps
  import opened FsSpec
  import opened FsInodeSteps
  import opened FsIo
  import opened FsAlloc

  /** bfree: panics exactly when the block is already free or the transaction is full. */
  method Bfree(log: TxnLog, sb: Super, x: nat) returns (r: Res<()>)
    requires log.Valid() && log.area == sb.LogArea() && sb.Ok() && log.cache.face.Ok() && |log.cache.face.view| == sb.size
    requires x < sb.size && |log.cache.face.held| <= 1
    modifies log`lh, log.cache
    ensures log.Valid() && Still(old(log.cache.face), log.cache.face)
    ensures r.Panic? <==> !BitAt(sb, old(log.cache.face).view, x) || |old(log.lh)| >= LOGSIZE - 1
    ensures r.Panic? ==> if |old(log.lh)| < LOGSIZE - 1 then r.why == FreeingFreeBlock else TooMuch(r.why) || !BitAt(sb, old(log.cache.face).view, x)
    ensures r.Ok? ==>
              && Quiet(old(log.cache.face), log.cache.face) && log.lh == Absorb(old(log.lh), sb.BBlock(x))
              && log.cache.face.view == PutBitAt(sb, old(log.cache.face).view, x, false)
  {
    hide TxnLog.Valid;
    ghost var f := log.cache.face;
    log.Facts();
    BBlockRange(sb, x);
    var h :- log.Bread(sb.BBlock(x));
    var data := log.Data(h);
    var bi := x % BPB;
    if !BlockBit(data, bi) {
      return Panic(FreeingFreeBlock);
    }
    var _ :- log.LogWrite(h, PutBlockBit(data, bi, false));
    GrabDrop(f.held, h, sb.BBlock(x));
    log.Brelse(h);
    log.Facts();
    return Ok(());
  }

  /** One step of itrunc: give back a block of inode `i`, which "freeing free block" cannot stop. */
  method FreeBlock(log: TxnLog, sb: Super, x: nat, ghost f: Face, ghost a: Abs, ghost i: nat, ghost rest: set<nat>, ghost lh: seq<nat>) returns (r: Res<()>)
    requires log.Valid() && log.area == sb.LogArea() && |log.cache.face.held| <= 1
    requires Freeing(sb, f, log.cache.face, a, i, rest, lh, log.lh) && x in rest && x !in a.limbo
    modifies log`lh, log.cache
    ensures log.Valid() && Still(f, log.cache.face)
    ensures r.Panic? ==> TooMuch(r.why) && Overfull(lh, Spread(sb, a, i))
    ensures r.Ok? ==> Freeing(sb, f, log.cache.face, a, i, rest - {x}, lh, log.lh)
  {
    hide TxnLog.Valid, Freeing;
    ghost var g := log.cache.face;
    log.Facts();
    FreeingBit(sb, f, g, a, i, rest, lh, log.lh, x);
    FreeingFacts(sb, f, g, a, i, rest, lh, log.lh);
    if |log.lh| >= LOGSIZE - 1 {
      FullWithin(lh, log.lh, Spread(sb, a, i));
    }
    r := Bfree(log, sb, x);
    if r.Ok? {
      FreeingStep(sb, f, g, log.cache.face, a, i, rest, lh, old(log.lh), x);
    }
  }

  /** The first loop of itrunc. */
  method FreeDirect(log: TxnLog, sb: Super, ip: Dinode, ghost a: Abs, ghost i: nat) returns (r: Res<Dinode>)
    requires log.Valid() && log.area == sb.LogArea() && log.cache.face.Ok() && log.cache.face.held == map[]
    requires BlocksOk(sb, log.cache.face.view, a) && i < sb.ninodes && ip.Ok() && ip == a.ino[i]
    modifies log`lh, log.cache
    ensures log.Valid() && Still(old(log.cache.face), log.cache.face)
    ensures r.Panic? ==> TooMuch(r.why) && Overfull(old(log.lh), Spread(sb, a, i))
    ensures r.Ok? ==> Freeing(sb, old(log.cache.face), log.cache.face, a, i, Pending(a, i, NDIRECT), old(log.lh), log.lh)
    ensures r.Ok? ==> var d := r.value; d.Ok() && d == ip.(addrs := d.addrs) && d.addrs[NDIRECT] == ip.addrs[NDIRECT] && forall j :: 0 <= j < NDIRECT ==> d.addrs[j] == 0
  {
    hide TxnLog.Valid, Freeing, BlocksOk;
    ghost var f, lh := log.cache.face, log.lh;
    FreeingStart(sb, f, a, i, lh);
    var d := ip;
    for k := 0 to NDIRECT
      invariant log.Valid() && log.cache.face.held == map[] && Still(f, log.cache.face)
      invariant Freeing(sb, f, log.cache.face, a, i, Pending(a, i, k), lh, log.lh)
      invariant d.Ok() && d == ip.(addrs := d.addrs) && forall j :: 0 <= j <= NDIRECT ==> d.addrs[j] == if j < k then 0 else ip.addrs[j]
    {
      PendingStep(sb, f.view, a, i, k);
      if d.addrs[k] != 0 {
        var _ :- FreeBlock(log, sb, d.addrs[k], f, a, i, Pending(a, i, k), lh);
        FreeingFacts(sb, f, log.cache.face, a, i, Pending(a, i, k + 1), lh, log.lh);
        d := d.(addrs := d.addrs[k := 0]);
      }
    }
    return Ok(d);
  }

  /** The loop over the indirect block, whose buffer is held. */
  method FreeEntries(log: TxnLog, sb: Super, data: Block, ghost f: Face, ghost a: Abs, ghost i: nat, ghost lh: seq<nat>) returns (r: Res<()>)
    requires log.Valid() && log.area == sb.LogArea() && |f.held| <= 1
    requires BlocksOk(sb, f.view, a) && i < sb.ninodes
    requires 0 < a.ino[i].addrs[NDIRECT] < |f.view| && data == f.view[a.ino[i].addrs[NDIRECT]]
    requires Freeing(sb, f, log.cache.face, a, i, Pending(a, i, NDIRECT), lh, log.lh)
    modifies log`lh, log.cache
    ensures log.Valid() && Still(f, log.cache.face)
    ensures r.Panic? ==> TooMuch(r.why) && Overfull(lh, Spread(sb, a, i))
    ensures r.Ok? ==> Freeing(sb, f, log.cache.face, a, i, Pending(a, i, MAXFILE), lh, log.lh)
  {
    hide TxnLog.Valid, Freeing, BlocksOk, Pending, Spread, Overfull, Entry, Elems;
    FreeingFacts(sb, f, log.cache.face, a, i, Pending(a, i, NDIRECT), lh, log.lh);
    for j := 0 to NINDIRECT
      invariant log.Valid() && log.cache.face.held == f.held && Still(f, log.cache.face)
      invariant Freeing(sb, f, log.cache.face, a, i, Pending(a, i, NDIRECT + j), lh, log.lh)
    {
      PendingStep(sb, f.view, a, i, NDIRECT + j);
      if Entry(data, j) != 0 {
        var _ :- FreeBlock(log, sb, Entry(data, j), f, a, i, Pending(a, i, NDIRECT + j), lh);
        FreeingFacts(sb, f, log.cache.face, a, i, Pending(a, i, NDIRECT + j + 1), lh, log.lh);
      }
    }
    return Ok(());
  }

  /** The second half of itrunc: the blocks named in the indirect block, then the indirect block. */
  method FreeIndirect(log: TxnLog, sb: Super, ind: nat, ghost f: Face, ghost a: Abs, ghost i: nat, ghost lh: seq<nat>) returns (r: Res<()>)
    requires log.Valid() && log.area == sb.LogArea() && f.held == map[]
    requires BlocksOk(sb, f.view, a) && i < sb.ninodes && 0 != ind == a.ino[i].addrs[NDIRECT]
    requires Freeing(sb, f, log.cache.face, a, i, Pending(a, i, NDIRECT), lh, log.lh)
    modifies log`lh, log.cache
    ensures log.Valid() && Still(f, log.cache.face)
    ensures r.Panic? ==> TooMuch(r.why) && Overfull(lh, Spread(sb, a, i))
    ensures r.Ok? ==> Freeing(sb, f, log.cache.face, a, i, {}, lh, log.lh)
  {
    hide TxnLog.Valid, Freeing, BlocksOk, Top;
    log.Facts();
    PendingIndirect(sb, f.view, a, i);
    FreeingFacts(sb, f, log.cache.face, a, i, Pending(a, i, NDIRECT), lh, log.lh);
    ghost var g := log.cache.face;
    var h, data := Fetch(log, ind);
    ghost var f' := f.(held := log.cache.face.held);
    HeldOne(g.held, log.cache.face.held, h, ind);
    FreeingHeld(sb, f, g, f', log.cache.face, a, i, Pending(a, i, NDIRECT), lh, log.lh);
    var _ :- FreeEntries(log, sb, data, f', a, i, lh);
    FreeingFacts(sb, f', log.cache.face, a, i, Pending(a, i, MAXFILE), lh, log.lh);
    g := log.cache.face;
    Release(log, h, ind, f.held);
    log.Facts();
    FreeingHeld(sb, f', g, f, log.cache.face, a, i, Pending(a, i, MAXFILE), lh, log.lh);
    assert Pending(a, i, MAXFILE) - {ind} == {};
    r := FreeBlock(log, sb, ind, f, a, i, Pending(a, i, MAXFILE), lh);
  }

  lemma HeldOne(base: map<nat, Hold>, held: map<nat, Hold>, h: nat, b: nat)
    requires Top(held, base, h, b)
    ensures |held| <= |base| + 1
  {
    HeldGrows(base, h, b);
  }

  /** iupdate: write the in-memory inode through to its inode block; panics exactly when the transaction is full. */
  method Iupdate(fs: FileSys, s: nat) returns (r: Res<()>)
    requires fs.Valid() && Loaded(fs.icache, s) && |fs.log.lh| + |fs.log.cache.face.held| < NBUF
    modifies fs`stale, fs.log`lh, fs.log.cache
    ensures fs.log.Valid() && Still(old(fs.log.cache.face), fs.log.cache.face)
    ensures r.Panic? <==> |old(fs.log.lh)| >= LOGSIZE - 1
    ensures r.Panic? ==> r.why == TooBigTransaction
    ensures r.Ok? ==> fs.Valid() && Quiet(old(fs.log.cache.face), fs.log.cache.face) && fs.stale == old(fs.stale) - {fs.icache[s].inum}
    ensures r.Ok? ==> fs.icache[s].inum < fs.sb.ninodes && fs.log.lh == Absorb(old(fs.log.lh), fs.sb.IBlock(fs.icache[s].inum))
  {
    hide TxnLog.Valid, Consistent;
    ghost var f := fs.log.cache.face;
    fs.log.Facts();
    ConsistentFacts(fs.sb, fs.View(), fs.a, fs.stale, fs.icache);
    CacheSlot(fs.sb, fs.a, fs.icache, s);
    var i := fs.icache[s].inum;
    InodeBlock(fs.sb, i);
    IupdateAll(fs.sb, fs.View(), fs.a, fs.stale, fs.icache, i);
    var h, data := Fetch(fs.log, fs.sb.IBlock(i));
    var _ :- fs.log.LogWrite(h, PutInode(data, i % IPB, fs.icache[s].d));
    Release(fs.log, h, fs.sb.IBlock(i), f.held);
    fs.stale := fs.stale - {i};
    fs.log.Facts();
    return Ok(());
  }

  /** All of itrunc but the iupdate; the result is the inode afterwards. */
  method FreeAll(log: TxnLog, sb: Super, ip: Dinode, ghost a: Abs, ghost i: nat) returns (r: Res<Dinode>)
    requires log.Valid() && log.area == sb.LogArea() && log.cache.face.Ok() && log.cache.face.held == map[]
    requires BlocksOk(sb, log.cache.face.view, a) && i < sb.ninodes && ip.Ok() && ip == a.ino[i]
    modifies log`lh, log.cache
    ensures log.Valid() && Still(old(log.cache.face), log.cache.face)
    ensures r.Panic? ==> TooMuch(r.why) && Overfull(old(log.lh), Spread(sb, a, i))
    ensures r.Ok? ==> NoBlocks(r.value) && r.value == ip.(size := 0, addrs := r.value.addrs)
    ensures r.Ok? ==> Freeing(sb, old(log.cache.face), log.cache.face, a, i, {}, old(log.lh), log.lh)
  {
    hide TxnLog.Valid, Freeing, BlocksOk, Overfull;
    ghost var f, lh := log.cache.face, log.lh;
    var d :- FreeDirect(log, sb, ip, a, i);
    PendingIndirect(sb, f.view, a, i);
    if d.addrs[NDIRECT] != 0 {
      var _ :- FreeIndirect(log, sb, d.addrs[NDIRECT], f, a, i, lh);
      d := d.(addrs := d.addrs[NDIRECT := 0]);
    }
    return Ok(d.(size := 0));
  }

  /** itrunc: the inode loses all its blocks and exactly those become free. No bfree finds a free block; it panics
      exactly when the bitmap blocks of the file do not leave room for the inode in the transaction. */
  method Itrunc(fs: FileSys, s: nat) returns (r: Res<()>)
    requires fs.Valid() && Loaded(fs.icache, s) && fs.log.cache.face.held == map[]
    modifies fs`icache, fs`a, fs`stale, fs.log`lh, fs.log.cache
    ensures fs.log.Valid() && Still(old(fs.log.cache.face), fs.log.cache.face)
    ensures r.Panic? <==> Overfull(old(fs.log.lh), Spread(fs.sb, old(fs.a), old(fs.icache[s].inum)))
    ensures r.Panic? ==> TooMuch(r.why)
    ensures r.Ok? ==> fs.Valid() && Quiet(old(fs.log.cache.face), fs.log.cache.face)
    ensures r.Ok? ==> Truncated(old(fs.a), fs.a, old(fs.icache[s].inum))
    ensures r.Ok? ==> fs.icache == old(fs.icache)[s := old(fs.icache[s]).(d := fs.a.ino[old(fs.icache[s].inum)])]
    ensures r.Ok? ==> fs.stale == old(fs.stale) - {old(fs.icache[s].inum)} && old(fs.log.lh) <= fs.log.lh
    ensures r.Ok? ==> Elems(fs.log.lh) == Elems(old(fs.log.lh)) + Spread(fs.sb, old(fs.a), old(fs.icache[s].inum)) + {fs.sb.IBlock(old(fs.icache[s].inum))}
  {
    hide TxnLog.Valid, Consistent, Freeing, BlocksOk, Spread, Synced, Cached, Detached, Truncated;
    ghost var p := fs.Now();
    ghost var i := fs.icache[s].inum;
    ConsistentFacts(fs.sb, fs.View(), fs.a, fs.stale, fs.icache);
    CacheSlot(fs.sb, fs.a, fs.icache, s);
    var d :- FreeAll(fs.log, fs.sb, fs.icache[s].d, fs.a, i);
    FreeingFacts(fs.sb, p.face, fs.log.cache.face, fs.a, i, {}, p.lh, fs.log.lh);
    TruncAll(fs.sb, p.face.view, fs.View(), fs.a, fs.stale, fs.icache, s, d);
    fs.icache, fs.a, fs.stale := fs.icache[s := fs.icache[s].(d := d)], Detached(fs.a, i, d).(limbo := fs.a.limbo), fs.stale + {i};
    TruncatedInode(p.a, fs.a, i, d);
    fs.log.Facts();
    AbsorbElems(fs.log.lh, fs.sb.IBlock(i));
    r := Iupdate(fs, s);
  }

  /** The search in iget: the slot that holds inode `inum`, and the first empty slot in front of it. */
  method FindSlot(icache: seq<Inode>, inum: nat) returns (hit: int, empty: int)
    ensures -1 <= hit < |icache| && -1 <= empty < |icache|
    ensures hit >= 0 ==> icache[hit].ref > 0 && icache[hit].inum == inum
    ensures hit < 0 ==> RefOf(icache, inum) == 0
    ensures empty >= 0 ==> icache[empty].ref == 0 && forall s :: 0 <= s < empty ==> icache[s].ref > 0
    ensures hit < 0 && empty < 0 ==> forall s :: 0 <= s < |icache| ==> icache[s].ref > 0
  {
    hit, empty := -1, -1;
    for s := 0 to |icache|
      invariant hit == -1 && -1 <= empty < s && forall t :: 0 <= t < s && icache[t].ref > 0 ==> icache[t].inum != inum
      invariant if empty >= 0 then icache[empty].ref == 0 && forall t :: 0 <= t < empty ==> icache[t].ref > 0
                else forall t :: 0 <= t < s ==> icache[t].ref > 0
    {
      if icache[s].ref > 0 && icache[s].inum == inum {
        return s, empty;
      }
      if empty < 0 && icache[s].ref == 0 {
        empty := s;
      }
    }
    RefNone(icache, inum);
  }

  /** iget: one more reference to inode `inum`, in the slot that has it or else in the first empty one. */
  method Iget(fs: FileSys, inum: nat) returns (r: Res<nat>)
    requires fs.Valid() && 0 < inum < fs.sb.ninodes
    modifies fs`icache
    ensures fs.Valid()
    ensures r.Panic? ==> r.why == NoInodeSlots && fs.icache == old(fs.icache)
    ensures r.Panic? ==> Exhausted(fs.sb, fs.View(), fs.a, fs.icache, r.why)
    ensures r.Panic? <==> RefOf(old(fs.icache), inum) == 0 && forall s :: 0 <= s < NINODE ==> old(fs.icache)[s].ref > 0
    ensures r.Ok? ==> Got(old(fs.icache), fs.icache, inum, r.value)
  {
    hide TxnLog.Valid, Consistent;
    ConsistentFacts(fs.sb, fs.View(), fs.a, fs.stale, fs.icache);
    hide BlocksOk, Synced, Cached;
    var hit, empty := FindSlot(fs.icache, inum);
    ghost var icache := fs.icache;
    if hit >= 0 {
      RefSome(fs.icache, inum, hit);
      fs.icache := fs.icache[hit := fs.icache[hit].(ref := fs.icache[hit].ref + 1)];
      GotAll(fs.sb, fs.View(), fs.a, fs.stale, icache, fs.icache, inum, hit);
      return Ok(hit);
    }
    if empty < 0 {
      return Panic(NoInodeSlots);
    }
    fs.icache := fs.icache[empty := Inode(inum, 1, false, fs.icache[empty].d)];
    GotAll(fs.sb, fs.View(), fs.a, fs.stale, icache, fs.icache, inum, empty);
    return Ok(empty);
  }

  /** iread: the in-memory inode is what the kernel knows of inode `inum`. */
  method Iread(fs: FileSys, s: nat) returns (r: Res<()>)
    requires fs.Valid() && s < NINODE && fs.icache[s].inum !in fs.stale && |fs.log.lh| + |fs.log.cache.face.held| < NBUF
    modifies fs`icache, fs.log.cache
    ensures fs.Valid() && fs.log.cache.face == old(fs.log.cache.face)
    ensures r.Ok? ==> old(fs.icache[s].ref > 0 && fs.icache[s].inum < |fs.a.ino|)
    ensures r.Ok? ==> fs.icache == old(fs.icache)[s := old(fs.icache[s]).(valid := true, d := fs.a.ino[old(fs.icache[s].inum)])]
    ensures r.Panic? && r.why == IreadUnreferenced <==> old(fs.icache[s].ref) == 0
    ensures r.Panic? && r.why != IreadUnreferenced <==>
              old(fs.icache[s].ref > 0 && fs.icache[s].inum < |fs.a.ino| && !fs.icache[s].valid && fs.a.ino[fs.icache[s].inum].typ == 0)
    ensures r.Panic? ==> r.why == IreadUnreferenced || r.why == IreadNoType
  {
    hide TxnLog.Valid, Consistent, Top;
    ConsistentFacts(fs.sb, fs.View(), fs.a, fs.stale, fs.icache);
    hide BlocksOk, Synced, Cached;
    if fs.icache[s].ref < 1 {
      return Panic(IreadUnreferenced);
    }
    ReadAll(fs.sb, fs.View(), fs.a, fs.stale, fs.icache, s);
    if !fs.icache[s].valid {
      var i := fs.icache[s].inum;
      InodeBlock(fs.sb, i);
      var h, data := Fetch(fs.log, fs.sb.IBlock(i));
      var d := InodeIn(data, i % IPB);
      Release(fs.log, h, fs.sb.IBlock(i), old(fs.log.cache.face).held);
      fs.icache := fs.icache[s := fs.icache[s].(valid := true, d := d)];
      if d.typ == 0 {
        return Panic(IreadNoType);
      }
    }
    return Ok(());
  }

  /** The transaction has no room left for freeing inode `i`: its bitmap blocks, then its inode block twice. */
  ghost predicate TooWide(sb: Super, lh: seq<nat>, a: Abs, i: nat)
  {
    Overfull(lh, Spread(sb, a, i) + {sb.IBlock(i)})
  }

  /** iput: drop a reference; the last one to an unlinked inode frees it and all its blocks. It panics exactly
      when the blocks of such an inode are spread over too many bitmap blocks for the transaction. */
  method Iput(fs: FileSys, s: nat) returns (r: Res<()>)
    requires fs.Valid() && Settled(fs.a, fs.stale, fs.icache) && s < NINODE && fs.icache[s].ref > 0
    requires LastUnlinked(fs.icache[s]) ==> fs.log.cache.face.held == map[]
    modifies fs`icache, fs`a, fs`stale, fs.log`lh, fs.log.cache
    ensures fs.log.Valid() && Still(old(fs.log.cache.face), fs.log.cache.face)
    ensures r.Panic? <==> LastUnlinked(old(fs.icache[s])) && TooWide(fs.sb, old(fs.log.lh), old(fs.a), old(fs.icache[s].inum))
    ensures r.Panic? ==> TooMuch(r.why)
    ensures r.Ok? ==> fs.Valid() && Settled(fs.a, fs.stale, fs.icache) && Quiet(old(fs.log.cache.face), fs.log.cache.face)
    ensures r.Ok? ==> Dropped(old(fs.icache), fs.icache, s)
    ensures r.Ok? ==>
              if LastUnlinked(old(fs.icache[s])) then Freed(old(fs.a), fs.a, old(fs.icache[s].inum))
              else
                && fs.a == old(fs.a) && fs.log.lh == old(fs.log.lh) && fs.log.cache.face == old(fs.log.cache.face)
                && fs.icache[s] == old(fs.icache[s]).(ref := old(fs.icache[s].ref) - 1)
  {
    hide TxnLog.Valid, Consistent, TooWide;
    ConsistentFacts(fs.sb, fs.View(), fs.a, fs.stale, fs.icache);
    hide BlocksOk, Synced;
    ghost var p := fs.Now();
    if fs.icache[s].valid && fs.icache[s].d.nlink == 0 {
      if fs.icache[s].ref == 1 {
        var _ :- FreeInode(fs, s);
        ghost var icache := fs.icache;
        fs.icache := fs.icache[s := fs.icache[s].(valid := false, ref := 0)];
        DropAll(fs.sb, fs.View(), fs.a, fs.stale, icache, fs.icache, s);
        FreedSettled(fs.sb, p.a, fs.a, p.icache, fs.icache, s);
        return Ok(());
      }
    }
    fs.icache := fs.icache[s := fs.icache[s].(ref := fs.icache[s].ref - 1)];
    DropAll(fs.sb, fs.View(), fs.a, fs.stale, p.icache, fs.icache, s);
    return Ok(());
  }

  /** The middle of iput: truncate, clear the type, write through. */
  method FreeInode(fs: FileSys, s: nat) returns (r: Res<()>)
    requires fs.Valid() && Loaded(fs.icache, s) && fs.stale == {} && fs.log.cache.face.held == map[]
    modifies fs`icache, fs`a, fs`stale, fs.log`lh, fs.log.cache
    ensures fs.log.Valid() && Still(old(fs.log.cache.face), fs.log.cache.face)
    ensures r.Panic? <==> TooWide(fs.sb, old(fs.log.lh), old(fs.a), old(fs.icache[s].inum))
    ensures r.Panic? ==> TooMuch(r.why)
    ensures r.Ok? ==> fs.Valid() && Quiet(old(fs.log.cache.face), fs.log.cache.face) && fs.stale == {}
    ensures r.Ok? ==> Freed(old(fs.a), fs.a, old(fs.icache[s].inum))
    ensures r.Ok? ==> fs.icache == old(fs.icache)[s := old(fs.icache[s]).(d := fs.a.ino[old(fs.icache[s].inum)])]
  {
    hide TxnLog.Valid, Consistent, Spread, Elems, Truncated, Freed, TooWide, Overfull, NoBlocks;
    ghost var lh, a, i := fs.log.lh, fs.a, fs.icache[s].inum;
    WideWhole(fs.sb, lh, a, i);
    var _ :- Itrunc(fs, s);
    fs.log.Facts();
    WideLog(fs.sb, lh, fs.log.lh, a, i);
    TruncatedFacts(a, fs.a, i);
    var d := fs.icache[s].d.(typ := 0);
    MetaAll(fs.sb, fs.View(), fs.a, fs.stale, fs.icache, s, d);
    FreedAfter(a, fs.a, i, d);
    fs.a, fs.stale := WithInode(fs.a, fs.icache[s].inum, d), fs.stale + {fs.icache[s].inum};
    fs.icache := fs.icache[s := fs.icache[s].(d := d)];
    r := Iupdate(fs, s);
  }

  lemma WideWhole(sb: Super, lh: seq<nat>, a: Abs, i: nat)
    ensures Overfull(lh, Spread(sb, a, i)) ==> TooWide(sb, lh, a, i)
  {
    SubsetSize(Elems(lh) + Spread(sb, a, i), Elems(lh) + (Spread(sb, a, i) + {sb.IBlock(i)}));
  }

  lemma WideLog(sb: Super, lh: seq<nat>, lh': seq<nat>, a: Abs, i: nat)
    requires Elems(lh') == Elems(lh) + Spread(sb, a, i) + {sb.IBlock(i)} && |Elems(lh')| == |lh'|
    ensures |lh'| >= LOGSIZE - 1 <==> TooWide(sb, lh, a, i)
  {
    hide Spread, Elems;
    assert Elems(lh') == Elems(lh) + (Spread(sb, a, i) + {sb.IBlock(i)});
  }

  lemma TruncatedFacts(a: Abs, b: Abs, i: nat)
    requires Truncated(a, b, i)
    ensures i < |a.ino| == |b.ino|
  {
  }

  /** itrunc, then the type. */
  lemma FreedAfter(a: Abs, b: Abs, i: nat, d: Dinode)
    requires Truncated(a, b, i) && i < |b.ino| && d == b.ino[i].(typ := 0)
    ensures Freed(a, WithInode(b, i, d), i)
  {
  }

  /** The search in ialloc: the first free inode on disk, its inode block held in buffer `h`. */
  method ScanInodes(log: TxnLog, sb: Super) returns (inum: nat, h: nat, data: Block)
    requires log.Valid() && sb.Ok() && log.cache.face.Ok() && |log.cache.face.view| == sb.size
    requires |log.lh| + |log.cache.face.held| < NBUF
    modifies log.cache
    ensures log.Valid() && 0 < inum <= sb.ninodes
    ensures forall j :: 0 < j < inum ==> InodeAt(sb, old(log.cache.face).view, j).typ != 0
    ensures inum == sb.ninodes ==> log.cache.face == old(log.cache.face)
    ensures inum < sb.ninodes ==>
              && InodeAt(sb, old(log.cache.face).view, inum).typ == 0
              && log.cache.face == old(log.cache.face).(held := log.cache.face.held)
              && Top(log.cache.face.held, old(log.cache.face).held, h, sb.IBlock(inum))
              && sb.IBlock(inum) < sb.size && data == old(log.cache.face).view[sb.IBlock(inum)]
  {
    hide TxnLog.Valid, Top;
    ghost var f := log.cache.face;
    inum, h, data := 1, 0, ZERO;
    while inum < sb.ninodes
      invariant 0 < inum <= sb.ninodes && log.Valid() && log.cache.face == f
      invariant forall j :: 0 < j < inum ==> InodeAt(sb, f.view, j).typ != 0
    {
      InodeBlock(sb, inum);
      h, data := Fetch(log, sb.IBlock(inum));
      if InodeIn(data, inum % IPB).typ == 0 {
        return;
      }
      Release(log, h, sb.IBlock(inum), f.held);
      inum := inum + 1;
    }
  }

  /** ialloc: the lowest free inode becomes an empty inode of the given type. */
  method Ialloc(fs: FileSys, typ: s16) returns (r: Res<nat>)
    requires fs.Valid() && Settled(fs.a, fs.stale, fs.icache) && fs.Room(1) && typ != 0
    modifies fs`icache, fs`a, fs.log`lh, fs.log.cache
    ensures fs.log.Valid() && Still(old(fs.log.cache.face), fs.log.cache.face)
    ensures r.Panic? ==> r.why == NoInodes || r.why == NoInodeSlots
    ensures r.Panic? ==> Exhausted(fs.sb, fs.View(), fs.a, fs.icache, r.why)
    ensures r.Panic? && r.why == NoInodes ==> forall j :: 0 < j < fs.sb.ninodes && j < |old(fs.a).ino| ==> old(fs.a).ino[j].typ != 0
    ensures r.Ok? ==>
              && fs.Valid() && Settled(fs.a, fs.stale, fs.icache) && Quiet(old(fs.log.cache.face), fs.log.cache.face)
              && r.value < NINODE && var i := fs.icache[r.value].inum;
              && 0 < i < |old(fs.a).ino| && (forall j :: 0 < j < i ==> old(fs.a).ino[j].typ != 0) && old(fs.a).ino[i].typ == 0
              && fs.a == WithInode(old(fs.a), i, FREE.(typ := typ)) && Got(old(fs.icache), fs.icache, i, r.value)
              && fs.log.lh == Absorb(old(fs.log.lh), fs.sb.IBlock(i))
  {
    hide TxnLog.Valid, Consistent, Top, Settled, Got, InodeIn, InodeAt;
    ghost var p := fs.Now();
    ConsistentFacts(fs.sb, fs.View(), fs.a, fs.stale, fs.icache);
    SettledFacts(fs.sb, fs.View(), fs.a, fs.stale, fs.icache);
    hide BlocksOk, Synced, Cached;
    var inum, h, data := ScanInodes(fs.log, fs.sb);
    if inum == fs.sb.ninodes {
      return Panic(NoInodes);
    }
    InodeBlock(fs.sb, inum);
    IallocAll(fs.sb, p.face.view, fs.a, fs.icache, inum, typ);
    Finish(fs.log, h, PutInode(data, inum % IPB, FREE.(typ := typ)), fs.sb.IBlock(inum), p.face.held);
    fs.log.Facts();
    fs.a := WithInode(fs.a, inum, FREE.(typ := typ));
    var s :- Iget(fs, inum);
    GotSettled(fs.sb, fs.View(), fs.a, fs.stale, p.icache, fs.icache, inum, s);
    GotSlot(p.icache, fs.icache, inum, s);
    return Ok(s);
  }

  /** iput of an inode that has links touches nothing but the reference count. */
  method PutLinked(fs: FileSys, s: nat)
    requires fs.Valid() && Settled(fs.a, fs.stale, fs.icache) && s < NINODE && fs.icache[s].ref > 0 && |fs.log.cache.face.held| <= 3
    requires fs.icache[s].inum < |fs.a.ino| && fs.a.ino[fs.icache[s].inum].nlink > 0
    modifies fs`icache, fs`a, fs`stale, fs.log`lh, fs.log.cache
    ensures fs.Valid() && fs.Now() == old(fs.Now()).(icache := fs.icache) && Settled(fs.a, fs.stale, fs.icache)
    ensures fs.icache == old(fs.icache)[s := old(fs.icache[s]).(ref := old(fs.icache[s].ref) - 1)]
  {
    hide TxnLog.Valid, Consistent, Settled;
    ConsistentFacts(fs.sb, fs.View(), fs.a, fs.stale, fs.icache);
    CacheSlot(fs.sb, fs.a, fs.icache, s);
    hide BlocksOk, Synced, Cached;
    SettledFacts(fs.sb, fs.View(), fs.a, fs.stale, fs.icache);
    var r := Iput(fs, s);
    SettledFacts(fs.sb, fs.View(), fs.a, fs.stale, fs.icache);
  }

  /** Assignments to fields of an in-memory inode, followed by iupdate. */
  method Update(fs: FileSys, s: nat, d: Dinode)
    requires fs.Valid() && Loaded(fs.icache, s) && fs.icache[s].inum < |fs.a.ino| && fs.stale <= {fs.icache[s].inum} && fs.Room(0) && d.addrs == fs.icache[s].d.addrs
    modifies fs`icache, fs`a, fs`stale, fs.log`lh, fs.log.cache
    ensures fs.Valid() && Quiet(old(fs.log.cache.face), fs.log.cache.face) && Grew(old(fs.log.lh), fs.log.lh, 1)
    ensures fs.log.lh == Absorb(old(fs.log.lh), fs.sb.IBlock(old(fs.icache[s].inum)))
    ensures var i := old(fs.icache[s].inum);
            fs.Now() == State(fs.log.cache.face, fs.log.lh, WithInode(old(fs.a), i, d), {}, old(fs.icache)[s := old(fs.icache[s]).(d := d)])
  {
    hide TxnLog.Valid, Consistent;
    MetaAll(fs.sb, fs.View(), fs.a, fs.stale, fs.icache, s, d);
    fs.a, fs.stale := WithInode(fs.a, fs.icache[s].inum, d), fs.stale + {fs.icache[s].inum};
    fs.icache := fs.icache[s := fs.icache[s].(d := d)];
    var r := Iupdate(fs, s);
  }
}
