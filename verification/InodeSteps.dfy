/** fs.c, inode level: the steps of the inode cache, of write-through and of truncation. */
module FsInodeSteps {
  import opened Collections
  import opened Bytes
  import opened RedoLog
  import opened CacheState
  import opened LogState
  import opened FsFormat
  import opened FsState
  import opened FsSteps
  import opened FsSpec

  /** The inode block after iupdate. */
  function InodeWritten(sb: Super, v: Disk, i: nat, d: Dinode): (w: Disk)
    requires sb.Ok() && |v| == sb.size && i < sb.ninodes && d.Ok()
  {
    v[sb.IBlock(i) := PutInode(v[sb.IBlock(i)], i % IPB, d)]
  }

  lemma InodeBlock(sb: Super, i: nat)
    requires sb.Ok() && i < sb.ninodes
    ensures sb.inodestart <= sb.IBlock(i) < sb.bmapstart <= sb.size && !sb.LogArea().Has(sb.IBlock(i))
  {
  }

  lemma InodeWrittenEffect(sb: Super, v: Disk, i: nat, d: Dinode)
    requires sb.Ok() && |v| == sb.size && i < sb.ninodes && d.Ok()
    ensures forall j :: 0 <= j < sb.ninodes ==> InodeAt(sb, InodeWritten(sb, v, i, d), j) == if j == i then d else InodeAt(sb, v, j)
  {
    forall j | 0 <= j < sb.ninodes ensures InodeAt(sb, InodeWritten(sb, v, i, d), j) == if j == i then d else InodeAt(sb, v, j) {
      InodeBlock(sb, j);
      assert j / IPB == i / IPB && j % IPB == i % IPB ==> j == i;
    }
  }

  /** iupdate: the disk now has inode `i`. */
  lemma IupdateAll(sb: Super, v: Disk, a: Abs, stale: set<nat>, icache: seq<Inode>, i: nat)
    requires Consistent(sb, v, a, stale, icache) && i < sb.ninodes
    ensures Consistent(sb, InodeWritten(sb, v, i, a.ino[i]), a, stale - {i}, icache)
  {
    ConsistentFacts(sb, v, a, stale, icache);
    hide BlocksOk, Cached, InodeAt;
    InodeBlock(sb, i);
    var w := InodeWritten(sb, v, i, a.ino[i]);
    WriteInodeBlock(sb, v, a, sb.IBlock(i), w[sb.IBlock(i)]);
    InodeWrittenEffect(sb, v, i, a.ino[i]);
    BlocksShape(sb, w, a);
    assert Synced(sb, w, a, stale - {i});
  }

  /** An assignment to fields of an in-memory inode other than its block numbers. */
  lemma MetaAll(sb: Super, v: Disk, a: Abs, stale: set<nat>, icache: seq<Inode>, s: nat, d: Dinode)
    requires Consistent(sb, v, a, stale, icache) && s < NINODE && icache[s].ref > 0 && icache[s].valid
    requires d.addrs == icache[s].d.addrs
    ensures Consistent(sb, v, WithInode(a, icache[s].inum, d), stale + {icache[s].inum}, icache[s := icache[s].(d := d)])
  {
    ConsistentFacts(sb, v, a, stale, icache);
    CacheSlot(sb, a, icache, s);
    hide BlocksOk, Cached;
    var i := icache[s].inum;
    ChangeMeta(sb, v, a, i, d);
    BlocksShape(sb, v, WithInode(a, i, d));
    SyncedChange(sb, v, a, WithInode(a, i, d), stale, i);
    CachedChange(sb, a, WithInode(a, i, d), icache, s, d);
  }

  // Truncation.

  /** The blocks of inode `i` in slots from `k` on. */
  ghost function Pending(a: Abs, i: nat, k: nat): (r: set<nat>)
  {
    set x | x in a.owner && a.owner[x].i == i && a.owner[x].s >= k
  }

  /** An inode that maps nothing. */
  predicate NoBlocks(d: Dinode)
  {
    d.Ok() && forall k :: 0 <= k <= NDIRECT ==> d.addrs[k] == 0
  }

  /** All blocks of inode `i` in limbo. */
  lemma PendingAll(sb: Super, v: Disk, a: Abs, i: nat)
    requires BlocksOk(sb, v, a) && i < sb.ninodes
    ensures BlocksOk(sb, v, Detached(a, i, FREE)) && Detached(a, i, FREE).limbo == a.limbo + Pending(a, i, 0)
    ensures a.limbo !! Pending(a, i, 0)
  {
    Detach(sb, v, a, i, FREE);
  }

  /** Slot `k` is the only place that holds its block. */
  lemma PendingStep(sb: Super, v: Disk, a: Abs, i: nat, k: nat)
    requires BlocksOk(sb, v, a) && i < sb.ninodes && k < MAXFILE
    ensures var x := Addr(v, a.ino[i], k);
            if x == 0 then Pending(a, i, k + 1) == Pending(a, i, k)
            else x in Pending(a, i, k) && x !in a.limbo && sb.DataStart() <= x < sb.size && Pending(a, i, k + 1) == Pending(a, i, k) - {x}
  {
    assert MappedAt(v, a, i);
    var x := Addr(v, a.ino[i], k);
    if x != 0 {
      assert HeldAt(sb, v, a, x);
    }
    forall y | y in Pending(a, i, k) && y != x ensures y in Pending(a, i, k + 1) {
      assert HeldAt(sb, v, a, y);
    }
  }

  /** The indirect block comes last. */
  lemma PendingIndirect(sb: Super, v: Disk, a: Abs, i: nat)
    requires BlocksOk(sb, v, a) && i < sb.ninodes
    ensures var x := a.ino[i].addrs[NDIRECT];
            if x == 0 then Pending(a, i, NDIRECT) == {}
            else sb.DataStart() <= x < sb.size && x !in a.limbo && Pending(a, i, MAXFILE) == {x}
  {
    assert MappedAt(v, a, i);
    var x := a.ino[i].addrs[NDIRECT];
    if x != 0 {
      assert HeldAt(sb, v, a, x);
    }
    forall y | y in Pending(a, i, NDIRECT) && (x == 0 || a.owner[y].s >= MAXFILE) ensures x != 0 && y == x {
      assert HeldAt(sb, v, a, y);
    }
  }

  ghost function Bitmaps(sb: Super, s: set<nat>): (r: set<nat>)
  {
    set x | x in s :: sb.BBlock(x)
  }

  /** The bitmap blocks over which the blocks of inode `i` are spread. */
  ghost function Spread(sb: Super, a: Abs, i: nat): (r: set<nat>)
  {
    Bitmaps(sb, Pending(a, i, 0))
  }

  lemma BitmapsMore(sb: Super, s: set<nat>, x: nat)
    ensures Bitmaps(sb, s + {x}) == Bitmaps(sb, s) + {sb.BBlock(x)}
  {
    assert forall y :: y in s ==> y in s + {x};
    assert x in s + {x};
  }

  lemma {:induction false} RangeSize(s: set<nat>, lo: nat, hi: nat)
    requires lo <= hi && forall b :: b in s ==> lo <= b < hi
    ensures |s| <= hi - lo
    decreases hi
  {
    if lo < hi {
      RangeSize(s - {hi - 1}, lo, hi - 1);
    } else {
      assert s == {};
    }
  }

  /** No file is spread over more bitmap blocks than there are. */
  lemma SpreadFew(sb: Super, v: Disk, a: Abs, i: nat)
    requires BlocksOk(sb, v, a)
    ensures |Spread(sb, a, i)| <= sb.size / BPB + 1
    ensures forall b :: b in Spread(sb, a, i) ==> sb.bmapstart <= b < sb.DataStart()
  {
    forall b | b in Spread(sb, a, i) ensures sb.bmapstart <= b < sb.DataStart() {
      var x :| x in Pending(a, i, 0) && sb.BBlock(x) == b;
      assert HeldAt(sb, v, a, x);
      BBlockRange(sb, x);
    }
    RangeSize(Spread(sb, a, i), sb.bmapstart, sb.DataStart());
  }

  /** A file that keeps its inode and its blocks stays spread as it was. */
  lemma SpreadKept(sb: Super, v: Disk, a: Abs, w: Disk, b: Abs, i: nat)
    requires BlocksOk(sb, v, a) && BlocksOk(sb, w, b) && Extends(a, b) && i < sb.ninodes && b.ino[i] == a.ino[i] && |b.file[i]| == |a.file[i]|
    ensures Spread(sb, b, i) == Spread(sb, a, i)
  {
    assert MappedAt(v, a, i);
    forall x | x in Pending(b, i, 0) ensures x in Pending(a, i, 0) {
      assert HeldAt(sb, w, b, x);
      if b.owner[x].s != INDIRECT {
        AddrKept(sb, v, a, w, b, i, b.owner[x].s);
      }
    }
    assert Pending(b, i, 0) == Pending(a, i, 0);
  }

  /** With the blocks `more` the transaction would leave no room for another log_write. */
  ghost predicate Overfull(lh: seq<nat>, more: set<nat>)
  {
    |Elems(lh) + more| >= LOGSIZE - 1
  }

  lemma FullWithin(lh: seq<nat>, lh': seq<nat>, more: set<nat>)
    requires Elems(lh') <= Elems(lh) + more && |Elems(lh')| >= LOGSIZE - 1
    ensures Overfull(lh, more)
  {
    SubsetSize(Elems(lh'), Elems(lh) + more);
  }

  /** The abstract state after itrunc: inode `i` maps nothing and owns nothing. */
  ghost predicate Truncated(a: Abs, b: Abs, i: nat)
  {
    && i < |a.ino| == |a.file| == |b.ino| && b.limbo == a.limbo
    && b.ino == a.ino[i := b.ino[i]] && NoBlocks(b.ino[i]) && b.ino[i] == a.ino[i].(size := 0, addrs := b.ino[i].addrs)
    && b.file == a.file[i := []]
    && b.owner == map x | x in a.owner && a.owner[x].i != i :: a.owner[x]
  }

  /** Once all blocks of the inode are free, the in-memory inode may lose them. */
  lemma TruncAll(sb: Super, v: Disk, w: Disk, a: Abs, stale: set<nat>, icache: seq<Inode>, s: nat, d: Dinode)
    requires Consistent(sb, v, a, stale, icache) && s < NINODE && icache[s].ref > 0 && icache[s].valid
    requires NoBlocks(d) && d == icache[s].d.(size := 0, addrs := d.addrs) && BlocksOk(sb, w, Detached(a, icache[s].inum, FREE).(limbo := a.limbo))
    requires |w| == |v| && forall x :: sb.inodestart <= x < sb.bmapstart ==> w[x] == v[x]
    ensures var i := icache[s].inum;
            && Consistent(sb, w, Detached(a, i, d).(limbo := a.limbo), stale + {i}, icache[s := icache[s].(d := d)])
            && Truncated(a, Detached(a, i, d).(limbo := a.limbo), i)
  {
    ConsistentFacts(sb, v, a, stale, icache);
    CacheSlot(sb, a, icache, s);
    var i := icache[s].inum;
    var b := Detached(a, i, FREE).(limbo := a.limbo);
    var c := Detached(a, i, d).(limbo := a.limbo);
    hide BlocksOk, Cached;
    BlocksShape(sb, w, b);
    assert c == WithInode(b, i, d);
    assert d.addrs == b.ino[i].addrs;
    ChangeMeta(sb, w, b, i, d);
    BlocksShape(sb, w, c);
    SyncedFrame(sb, v, w, a, stale);
    SyncedChange(sb, w, a, c, stale, i);
    CachedChange(sb, a, c, icache, s, d);
  }

  /** Half way through itrunc: of the blocks of inode `i`, only those in `rest` are still to be freed. */
  ghost predicate Freeing(sb: Super, f: Face, g: Face, a: Abs, i: nat, rest: set<nat>, lh: seq<nat>, lh': seq<nat>)
  {
    && sb.Ok() && |f.view| == |g.view| == sb.size && Quiet(f, g) && i < |a.ino| == |a.file|
    && (forall x :: 0 <= x < sb.size && (x < sb.bmapstart || sb.DataStart() <= x) ==> g.view[x] == f.view[x])
    && BlocksOk(sb, g.view, Detached(a, i, FREE).(limbo := a.limbo + rest))
    && rest <= Pending(a, i, 0) && lh <= lh' && Elems(lh') == Elems(lh) + Bitmaps(sb, Pending(a, i, 0) - rest)
  }

  lemma FreeingStart(sb: Super, f: Face, a: Abs, i: nat, lh: seq<nat>)
    requires f.Ok() && BlocksOk(sb, f.view, a) && i < sb.ninodes
    ensures Freeing(sb, f, f, a, i, Pending(a, i, 0), lh, lh)
  {
    PendingAll(sb, f.view, a, i);
    assert Pending(a, i, 0) - Pending(a, i, 0) == {};
  }

  lemma FreeingBit(sb: Super, f: Face, g: Face, a: Abs, i: nat, rest: set<nat>, lh: seq<nat>, lh': seq<nat>, x: nat)
    requires Freeing(sb, f, g, a, i, rest, lh, lh') && x in rest
    ensures sb.Ok() && |g.view| == sb.size && x < sb.size && BitAt(sb, g.view, x) && g.Ok()
  {
    Free(sb, g.view, Detached(a, i, FREE).(limbo := a.limbo + rest), x);
  }

  lemma FreeingStep(sb: Super, f: Face, g: Face, g': Face, a: Abs, i: nat, rest: set<nat>, lh: seq<nat>, lh': seq<nat>, x: nat)
    requires Freeing(sb, f, g, a, i, rest, lh, lh') && x in rest && x !in a.limbo
    requires x < sb.size && g'.view == PutBitAt(sb, g.view, x, false) && Quiet(g, g')
    ensures Freeing(sb, f, g', a, i, rest - {x}, lh, Absorb(lh', sb.BBlock(x)))
  {
    hide BlocksOk;
    var b := Detached(a, i, FREE).(limbo := a.limbo + rest);
    Free(sb, g.view, b, x);
    assert a.limbo + rest - {x} == a.limbo + (rest - {x});
    BBlockRange(sb, x);
    AbsorbElems(lh', sb.BBlock(x));
    BitmapsMore(sb, Pending(a, i, 0) - rest, x);
    assert Pending(a, i, 0) - (rest - {x}) == Pending(a, i, 0) - rest + {x};
  }

  lemma FreeingFacts(sb: Super, f: Face, g: Face, a: Abs, i: nat, rest: set<nat>, lh: seq<nat>, lh': seq<nat>)
    requires Freeing(sb, f, g, a, i, rest, lh, lh')
    ensures sb.Ok() && |f.view| == |g.view| == sb.size && Quiet(f, g) && lh <= lh' && Elems(lh') <= Elems(lh) + Spread(sb, a, i)
    ensures forall x :: 0 <= x < sb.size && (x < sb.bmapstart || sb.DataStart() <= x) ==> g.view[x] == f.view[x]
    ensures rest == {} ==> BlocksOk(sb, g.view, Detached(a, i, FREE).(limbo := a.limbo)) && Elems(lh') == Elems(lh) + Spread(sb, a, i)
  {
    assert a.limbo + {} == a.limbo;
    assert Pending(a, i, 0) - {} == Pending(a, i, 0);
  }

  /** Nothing else depends on who holds buffers. */
  lemma FreeingHeld(sb: Super, f: Face, g: Face, f': Face, g': Face, a: Abs, i: nat, rest: set<nat>, lh: seq<nat>, lh': seq<nat>)
    requires Freeing(sb, f, g, a, i, rest, lh, lh') && f' == f.(held := g'.held) && g' == g.(held := g'.held) && g'.Ok()
    ensures Freeing(sb, f', g', a, i, rest, lh, lh')
  {
  }

  // The inode cache.

  /** The number of blocks that `n` bytes need. */
  function Blocks(n: nat): (k: nat)
  {
    (n + BSIZE - 1) / BSIZE
  }

  /** Hole-free: exactly the blocks below the size are mapped; a free inode has none. */
  ghost predicate Sized(a: Abs)
    requires |a.ino| == |a.file|
  {
    forall i :: 0 <= i < |a.ino| ==>
                  |a.file[i]| == Blocks(a.ino[i].size) && a.ino[i].size <= MAXFILE * BSIZE && (a.ino[i].typ == 0 ==> a.ino[i].size == 0)
  }

  /** Inodes in use by the kernel are allocated. */
  ghost predicate Alive(a: Abs, icache: seq<Inode>)
  {
    forall s :: 0 <= s < |icache| && icache[s].ref > 0 ==> icache[s].inum < |a.ino| && a.ino[icache[s].inum].typ != 0
  }

  /** Between two operations: nothing in flight. */
  ghost predicate Settled(a: Abs, stale: set<nat>, icache: seq<Inode>)
  {
    |a.ino| == |a.file| && Sized(a) && Alive(a, icache) && stale == {} && a.limbo == {}
  }

  /** How many references there are to inode `i`. */
  ghost function RefOf(icache: seq<Inode>, i: nat): (n: nat)
  {
    if icache == [] then 0
    else
      var k := |icache| - 1;
      RefOf(icache[..k], i) + if icache[k].inum == i then icache[k].ref else 0
  }

  /** Slot `s` has got one more reference, to inode `i`. */
  ghost predicate Got(icache: seq<Inode>, icache': seq<Inode>, i: nat, s: nat)
  {
    && s < |icache| == |icache'| && icache' == icache[s := icache'[s]]
    && if icache[s].ref > 0 then icache[s].inum == i && icache'[s] == icache[s].(ref := icache[s].ref + 1)
       else RefOf(icache, i) == 0 && icache'[s] == Inode(i, 1, false, icache[s].d)
  }

  /** Slot `s` has lost one reference, and is no longer valid if that was the last one to a freed inode. */
  ghost predicate Dropped(icache: seq<Inode>, icache': seq<Inode>, s: nat)
  {
    && s < |icache| == |icache'| && icache' == icache[s := icache'[s]] && icache[s].ref > 0
    && icache'[s].inum == icache[s].inum && icache'[s].ref == icache[s].ref - 1 && (icache'[s].ref > 0 ==> icache'[s].valid == icache[s].valid)
  }

  lemma {:induction false} RefSome(icache: seq<Inode>, i: nat, s: nat)
    requires s < |icache| && icache[s].inum == i
    ensures RefOf(icache, i) >= icache[s].ref
  {
    var k := |icache| - 1;
    if s < k {
      RefSome(icache[..k], i, s);
    }
  }

  lemma {:induction false} RefNone(icache: seq<Inode>, i: nat)
    requires forall s :: 0 <= s < |icache| && icache[s].ref > 0 ==> icache[s].inum != i
    ensures RefOf(icache, i) == 0
  {
    if icache != [] {
      RefNone(icache[..|icache| - 1], i);
    }
  }

  /** Changing one slot changes the counts by its old and new contents. */
  lemma {:induction false} RefUpdate(icache: seq<Inode>, s: nat, ip: Inode, j: nat)
    requires s < |icache|
    ensures RefOf(icache[s := ip], j) ==
            RefOf(icache, j) - (if icache[s].inum == j then icache[s].ref else 0) + if ip.inum == j then ip.ref else 0
  {
    var k := |icache| - 1;
    if s < k {
      RefUpdate(icache[..k], s, ip, j);
      assert icache[s := ip][..k] == icache[..k][s := ip];
    } else {
      assert icache[s := ip][..k] == icache[..k];
    }
  }

  /** With one slot per inode, that slot has all the references. */
  lemma RefAt(sb: Super, a: Abs, icache: seq<Inode>, s: nat)
    requires |a.ino| == sb.ninodes && Cached(sb, a, icache) && s < NINODE && icache[s].ref > 0
    ensures RefOf(icache, icache[s].inum) == icache[s].ref
  {
    var i, rest := icache[s].inum, icache[s := icache[s].(ref := 0)];
    RefUpdate(icache, s, rest[s], i);
    RefNone(rest, i);
  }

  /** iget keeps one slot per inode and counts one more reference. */
  lemma GotAll(sb: Super, v: Disk, a: Abs, stale: set<nat>, icache: seq<Inode>, icache': seq<Inode>, i: nat, s: nat)
    requires Consistent(sb, v, a, stale, icache) && Got(icache, icache', i, s) && 0 < i < sb.ninodes
    ensures Consistent(sb, v, a, stale, icache') && icache'[s].inum == i && icache'[s].ref > 0
    ensures forall j :: RefOf(icache', j) == RefOf(icache, j) + if j == i then 1 else 0
    ensures Alive(a, icache) && a.ino[i].typ != 0 ==> Alive(a, icache')
  {
    ConsistentFacts(sb, v, a, stale, icache);
    hide BlocksOk, Synced;
    if icache[s].ref == 0 {
      forall t | 0 <= t < NINODE && icache[t].inum == i ensures icache[t].ref == 0 {
        RefSome(icache, i, t);
      }
    }
    forall j ensures RefOf(icache', j) == RefOf(icache, j) + if j == i then 1 else 0 {
      RefUpdate(icache, s, icache'[s], j);
    }
  }

  /** iput of a reference that is not the last one to an unlinked inode. */
  lemma DropAll(sb: Super, v: Disk, a: Abs, stale: set<nat>, icache: seq<Inode>, icache': seq<Inode>, s: nat)
    requires Consistent(sb, v, a, stale, icache) && Dropped(icache, icache', s)
    requires icache'[s].ref > 0 ==> icache'[s].valid == icache[s].valid && icache'[s].d == icache[s].d
    ensures Consistent(sb, v, a, stale, icache')
    ensures forall j :: RefOf(icache', j) == RefOf(icache, j) - if j == icache[s].inum then 1 else 0
    ensures Alive(a, icache) ==> Alive(a, icache')
  {
    ConsistentFacts(sb, v, a, stale, icache);
    hide BlocksOk, Synced;
    forall j ensures RefOf(icache', j) == RefOf(icache, j) - if j == icache[s].inum then 1 else 0 {
      RefUpdate(icache, s, icache'[s], j);
    }
  }

  /** A free inode maps nothing. */
  lemma FreeMapsNothing(sb: Super, v: Disk, a: Abs, i: nat)
    requires BlocksOk(sb, v, a) && i < sb.ninodes && a.file[i] == []
    ensures NoBlocks(a.ino[i])
  {
    assert MappedAt(v, a, i);
    forall k | 0 <= k < NDIRECT ensures a.ino[i].addrs[k] == 0 {
      assert Addr(v, a.ino[i], k) == 0;
    }
  }

  /** ialloc: a free inode gets a type, on disk. */
  lemma IallocAll(sb: Super, v: Disk, a: Abs, icache: seq<Inode>, i: nat, typ: s16)
    requires Consistent(sb, v, a, {}, icache) && Settled(a, {}, icache) && 0 < i < sb.ninodes && a.ino[i].typ == 0 != typ
    ensures var d := FREE.(typ := typ);
            && Consistent(sb, InodeWritten(sb, v, i, d), WithInode(a, i, d), {}, icache)
            && Settled(WithInode(a, i, d), {}, icache)
  {
    var d := FREE.(typ := typ);
    var b := WithInode(a, i, d);
    ConsistentFacts(sb, v, a, {}, icache);
    FreeMapsNothing(sb, v, a, i);
    assert d.addrs == a.ino[i].addrs;
    hide BlocksOk, Synced, InodeWritten;
    ChangeMeta(sb, v, a, i, d);
    BlocksShape(sb, v, b);
    SyncedChange(sb, v, a, b, {}, i);
    assert Cached(sb, b, icache);
    assert {} + {i} == {i};
    assert Consistent(sb, v, b, {i}, icache);
    IupdateAll(sb, v, b, {i}, icache, i);
    assert {i} - {i} == {};
  }

  /** iput of the last reference to an unlinked inode: the inode is free. */
  ghost predicate Freed(a: Abs, b: Abs, i: nat)
  {
    && i < |a.ino| == |a.file| == |b.ino| && b.limbo == a.limbo && b.ino == a.ino[i := b.ino[i]] && b.file == a.file[i := []]
    && NoBlocks(b.ino[i]) && b.ino[i] == a.ino[i].(typ := 0, size := 0, addrs := b.ino[i].addrs)
    && b.owner == map x | x in a.owner && a.owner[x].i != i :: a.owner[x]
  }

  /** Dropping this reference frees the inode. */
  predicate LastUnlinked(ip: Inode)
  {
    ip.valid && ip.d.nlink == 0 && ip.ref == 1
  }

  lemma FreedSettled(sb: Super, a: Abs, b: Abs, icache: seq<Inode>, icache': seq<Inode>, s: nat)
    requires |a.ino| == sb.ninodes && Cached(sb, a, icache) && Settled(a, {}, icache)
    requires s < NINODE && icache[s].ref == 1 && Freed(a, b, icache[s].inum) && Dropped(icache, icache', s)
    ensures Settled(b, {}, icache')
  {
  }

  /** The in-memory inode has been read from disk. */
  lemma ReadAll(sb: Super, v: Disk, a: Abs, stale: set<nat>, icache: seq<Inode>, s: nat)
    requires Consistent(sb, v, a, stale, icache) && s < NINODE && icache[s].ref > 0 && icache[s].inum !in stale
    ensures 0 < icache[s].inum < sb.ninodes && InodeAt(sb, v, icache[s].inum) == a.ino[icache[s].inum]
    ensures Consistent(sb, v, a, stale, icache[s := icache[s].(valid := true, d := a.ino[icache[s].inum])])
    ensures icache[s].valid ==> icache[s := icache[s].(valid := true, d := a.ino[icache[s].inum])] == icache
  {
    hide BlocksOk;
  }

  lemma TruncatedInode(a: Abs, b: Abs, i: nat, d: Dinode)
    requires i < |a.ino| == |a.file| && b == Detached(a, i, d).(limbo := a.limbo)
    ensures |b.ino| == |a.ino| && b.ino[i] == d
  {
  }

  lemma SettledFacts(sb: Super, v: Disk, a: Abs, stale: set<nat>, icache: seq<Inode>)
    requires Consistent(sb, v, a, stale, icache) && Settled(a, stale, icache)
    ensures |icache| == NINODE && sb.ninodes == |a.ino| == |a.file| && stale == {} && a.limbo == {}
    ensures forall i :: 0 <= i < sb.ninodes ==> InodeAt(sb, v, i) == a.ino[i]
  {
    ConsistentFacts(sb, v, a, stale, icache);
    hide BlocksOk;
  }

  lemma GotSettled(sb: Super, v: Disk, a: Abs, stale: set<nat>, icache: seq<Inode>, icache': seq<Inode>, i: nat, s: nat)
    requires Consistent(sb, v, a, stale, icache) && Got(icache, icache', i, s) && 0 < i < sb.ninodes
    requires Settled(a, stale, icache) && a.ino[i].typ != 0
    ensures Settled(a, stale, icache')
  {
    hide Consistent;
    GotAll(sb, v, a, stale, icache, icache', i, s);
  }

  lemma GotSlot(icache: seq<Inode>, icache': seq<Inode>, i: nat, s: nat)
    requires Got(icache, icache', i, s)
    ensures s < |icache'| == |icache| && icache'[s].inum == i && icache'[s].ref > 0
  {
  }

  /** Slot by slot, the references are those of `c` and one more in slot `s` (none for -1), and slots in
      use have kept their inode and still hold it if they did. */
  ghost predicate Took(c: seq<Inode>, c': seq<Inode>, s: int)
  {
    && |c'| == |c| && s < |c|
    && forall t :: 0 <= t < |c| ==> c'[t].ref == c[t].ref + (if t == s then 1 else 0) && (c[t].ref > 0 ==> c'[t].inum == c[t].inum && (c[t].valid ==> c'[t].valid))
  }

  lemma TookNothing(c: seq<Inode>)
    ensures Took(c, c, -1)
  {
  }

  /** iget. */
  lemma TookGot(c: seq<Inode>, mid: seq<Inode>, c': seq<Inode>, i: nat, s: nat)
    requires Took(c, mid, -1) && Got(mid, c', i, s)
    ensures Took(c, c', s)
  {
  }

  /** iput. */
  lemma TookDropped(c: seq<Inode>, mid: seq<Inode>, c': seq<Inode>, s: nat)
    requires Took(c, mid, s) && Dropped(mid, c', s)
    ensures Took(c, c', -1)
  {
  }

  /** iread, or any change of a slot's inode data. */
  lemma TookRead(c: seq<Inode>, mid: seq<Inode>, c': seq<Inode>, s: int, t: nat)
    requires Took(c, mid, s) && t < |mid| == |c'| && c' == mid[t := c'[t]] && c'[t].inum == mid[t].inum && c'[t].ref == mid[t].ref
    requires mid[t].valid ==> c'[t].valid
    ensures Took(c, c', s)
  {
  }

  /** iget of the next inode, then iput of the one before. */
  lemma TookNext(c: seq<Inode>, mid: seq<Inode>, got: seq<Inode>, c': seq<Inode>, s: nat, j: nat, t: nat)
    requires Took(c, mid, s) && s < |mid| && mid[s].ref > 0 && Got(mid, got, j, t)
    requires c' == got[s := got[s].(ref := got[s].ref - 1)]
    ensures Took(c, c', t) && t < |c'| && c'[t].inum == j && c'[t].ref > 0
  {
  }

  /** So each inode has as many references as before, the one taken one more. */
  lemma {:induction false} TookRefs(c: seq<Inode>, c': seq<Inode>, s: int, i: nat)
    requires Took(c, c', s)
    ensures RefOf(c', i) == RefOf(c, i) + if 0 <= s && c'[s].inum == i then 1 else 0
  {
    if c != [] {
      var k := |c| - 1;
      TookRefs(c[..k], c'[..k], if s == k then -1 else s, i);
    }
  }

  /** A reference taken on top of another survives when that one is dropped. */
  lemma TookOnTop(c: seq<Inode>, mid: seq<Inode>, top: seq<Inode>, c': seq<Inode>, s: nat, t: nat)
    requires Took(c, mid, s) && Took(mid, top, t) && Dropped(top, c', s)
    ensures Took(c, c', t)
  {
  }

  /** A change of an inode that leaves its size alone and its type non-zero. */
  lemma MetaSettled(a: Abs, icache: seq<Inode>, s: nat, d: Dinode)
    requires Settled(a, {}, icache) && s < |icache| && icache[s].ref > 0 && icache[s].inum < |a.ino|
    requires d.size == a.ino[icache[s].inum].size && d.typ != 0
    ensures Settled(WithInode(a, icache[s].inum, d), {}, icache[s := icache[s].(d := d)])
  {
  }

  /** A free inode has no slot, so iget takes an empty one. */
  lemma GotFresh(icache: seq<Inode>, icache': seq<Inode>, a: Abs, stale: set<nat>, i: nat, s: nat)
    requires Got(icache, icache', i, s) && Settled(a, stale, icache) && i < |a.ino| && a.ino[i].typ == 0
    ensures icache[s].ref == 0 && icache' == icache[s := Inode(i, 1, false, icache[s].d)]
  {
  }

  lemma ReadSettled(a: Abs, stale: set<nat>, icache: seq<Inode>, icache': seq<Inode>, s: nat)
    requires Settled(a, stale, icache) && s < |icache| == |icache'| && icache' == icache[s := icache'[s]]
    requires icache'[s].inum == icache[s].inum && icache'[s].ref == icache[s].ref
    ensures Settled(a, stale, icache')
  {
  }

  /** Both references dropped again. */
  lemma TookBack(c: seq<Inode>, mid: seq<Inode>, c1: seq<Inode>, c': seq<Inode>, s: nat)
    requires Took(c, mid, s) && Took(mid, c1, -1) && Dropped(c1, c', s)
    ensures Took(c, c', -1)
  {
  }
}
