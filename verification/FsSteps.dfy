/** fs.c, block level: every step of the allocator and of the block map keeps files and bitmap in order. */
module FsSteps {
  import opened Bytes
  import opened RedoLog
  import opened FsFormat
  import opened FsState

  // The bitmap.

  /** The block contents after the bit of `x` has been set or cleared. */
  function PutBitAt(sb: Super, v: Disk, x: nat, on: bool): (w: Disk)
    requires sb.Ok() && |v| == sb.size && x < sb.size
  {
    v[sb.BBlock(x) := PutBlockBit(v[sb.BBlock(x)], x % BPB, on)]
  }

  lemma PutBitAtEffect(sb: Super, v: Disk, x: nat, on: bool)
    requires sb.Ok() && |v| == sb.size && x < sb.size
    ensures |PutBitAt(sb, v, x, on)| == sb.size && sb.bmapstart <= sb.BBlock(x) < sb.DataStart()
    ensures forall b :: 0 <= b < sb.size ==> BitAt(sb, PutBitAt(sb, v, x, on), b) == if b == x then on else BitAt(sb, v, b)
  {
    forall b | 0 <= b < sb.size ensures BitAt(sb, PutBitAt(sb, v, x, on), b) == if b == x then on else BitAt(sb, v, b) {
      assert b / BPB == x / BPB && b % BPB == x % BPB ==> b == x;
    }
  }

  /** balloc: set the bit of a free block and zero the block. */
  function Allocated(sb: Super, v: Disk, x: nat): (w: Disk)
    requires sb.Ok() && |v| == sb.size && x < sb.size
  {
    PutBitAt(sb, v, x, true)[x := ZERO]
  }

  lemma Alloc(sb: Super, v: Disk, a: Abs, x: nat)
    requires BlocksOk(sb, v, a) && x < sb.size && !BitAt(sb, v, x)
    ensures sb.DataStart() <= x && x !in a.owner && x !in a.limbo
    ensures BlocksOk(sb, Allocated(sb, v, x), a.(limbo := a.limbo + {x})) && Allocated(sb, v, x)[x] == ZERO
  {
    hide AllMapped, Owned, BitAt;
    var w, u, b := Allocated(sb, v, x), PutBitAt(sb, v, x, true), a.(limbo := a.limbo + {x});
    PutBitAtEffect(sb, v, x, true);
    OwnedRange(sb, v, a);
    FilesFrame(sb, v, w, a);
    BitsFrame(sb, u, w);
    SameFiles(sb, w, a, b);
  }

  lemma OwnedRange(sb: Super, v: Disk, a: Abs)
    requires Shape(sb, v, a) && Owned(sb, v, a)
    ensures forall x :: x in a.owner ==> sb.DataStart() <= x < sb.size
  {
    forall x | x in a.owner ensures sb.DataStart() <= x < sb.size {
      assert HeldAt(sb, v, a, x);
    }
  }

  /** Files do not depend on what is in limbo. */
  lemma SameFiles(sb: Super, v: Disk, a: Abs, b: Abs)
    requires Shape(sb, v, a) && AllMapped(sb, v, a) && Owned(sb, v, a)
    requires b.ino == a.ino && b.file == a.file && b.owner == a.owner
    ensures Shape(sb, v, b) && AllMapped(sb, v, b) && Owned(sb, v, b)
  {
    forall j | 0 <= j < sb.ninodes ensures MappedAt(v, b, j) {
      assert MappedAt(v, a, j);
    }
    forall y | y in b.owner ensures HeldAt(sb, v, b, y) {
      assert HeldAt(sb, v, a, y);
    }
  }

  /** bfree of a block nobody holds. */
  lemma Free(sb: Super, v: Disk, a: Abs, x: nat)
    requires BlocksOk(sb, v, a) && x in a.limbo
    ensures x < sb.size && BitAt(sb, v, x)
    ensures BlocksOk(sb, PutBitAt(sb, v, x, false), a.(limbo := a.limbo - {x}))
  {
    hide AllMapped, Owned;
    var w, b := PutBitAt(sb, v, x, false), a.(limbo := a.limbo - {x});
    PutBitAtEffect(sb, v, x, false);
    OwnedRange(sb, v, a);
    FilesFrame(sb, v, w, a);
    SameFiles(sb, w, a, b);
  }

  // The block map.

  /** A fresh block becomes data block `n` of inode `i`, `d` being the inode afterwards. */
  function Attached(a: Abs, i: nat, d: Dinode, x: nat): (b: Abs)
    requires i < |a.ino| == |a.file|
  {
    Abs(a.ino[i := d], a.file[i := a.file[i] + [ZERO]], a.owner[x := Slot(i, |a.file[i]|)], a.limbo - {x})
  }

  /** The bits after a block has moved from limbo to an owner. */
  lemma BitsAttach(sb: Super, v: Disk, a: Abs, b: Abs, x: nat)
    requires Shape(sb, v, a) && Shape(sb, v, b) && Bits(sb, v, a) && Limbo(sb, a) && x in a.limbo
    requires b.limbo == a.limbo - {x} && b.owner.Keys == a.owner.Keys + {x}
    ensures Bits(sb, v, b) && Limbo(sb, b)
  {
  }

  /** A block from limbo is named in a direct slot. */
  lemma AttachDirect(sb: Super, v: Disk, a: Abs, i: nat, x: nat)
    requires BlocksOk(sb, v, a) && i < sb.ninodes && |a.file[i]| < NDIRECT && x in a.limbo && v[x] == ZERO
    ensures BlocksOk(sb, v, Attached(a, i, a.ino[i].(addrs := a.ino[i].addrs[|a.file[i]| := x]), x))
  {
    var n := |a.file[i]|;
    var d := a.ino[i].(addrs := a.ino[i].addrs[n := x]);
    var b := Attached(a, i, d, x);
    assert MappedAt(v, a, i);
    forall bn | 0 <= bn < MAXFILE ensures Addr(v, d, bn) == if bn == n then x else Addr(v, a.ino[i], bn) {}
    AttachMapped(sb, v, v, a, i, d, x);
    BitsAttach(sb, v, a, b, x);
  }

  /** Common to both ways of naming a fresh data block: slot `n` of inode `i` now says `x`, all other
      slots say what they said. */
  lemma AttachMapped(sb: Super, v: Disk, w: Disk, a: Abs, i: nat, d: Dinode, x: nat)
    requires Shape(sb, v, a) && AllMapped(sb, v, a) && Owned(sb, v, a) && Limbo(sb, a) && |w| == |v| && i < sb.ninodes && d.Ok()
    requires |a.file[i]| < MAXFILE && x in a.limbo && w[x] == ZERO && d.addrs[NDIRECT] == a.ino[i].addrs[NDIRECT]
    requires |a.file[i]| >= NDIRECT ==> d.addrs[NDIRECT] != 0
    requires forall y :: y in a.owner && a.owner[y].s != INDIRECT ==> w[y] == v[y]
    requires forall bn :: 0 <= bn < MAXFILE ==> Addr(w, d, bn) == if bn == |a.file[i]| then x else Addr(v, a.ino[i], bn)
    requires forall j, bn :: 0 <= j < sb.ninodes && j != i && 0 <= bn < MAXFILE ==> Addr(w, a.ino[j], bn) == Addr(v, a.ino[j], bn)
    ensures var b := Attached(a, i, d, x); Shape(sb, w, b) && AllMapped(sb, w, b) && Owned(sb, w, b)
  {
    var b := Attached(a, i, d, x);
    forall j | 0 <= j < sb.ninodes ensures MappedAt(w, b, j) {
      assert MappedAt(v, a, j);
    }
    assert Owned(sb, w, b) by {
      hide AllMapped, Mapped;
      forall y | y in b.owner ensures HeldAt(sb, w, b, y) {
        if y != x {
          assert HeldAt(sb, v, a, y);
        }
      }
    }
  }

  /** A block from limbo becomes the indirect block. */
  function IndirectAttached(a: Abs, i: nat, d: Dinode, x: nat): (b: Abs)
    requires i < |a.ino| == |a.file|
  {
    Abs(a.ino[i := d], a.file, a.owner[x := Slot(i, INDIRECT)], a.limbo - {x})
  }

  lemma AttachIndirect(sb: Super, v: Disk, a: Abs, i: nat, x: nat)
    requires BlocksOk(sb, v, a) && i < sb.ninodes && |a.file[i]| == NDIRECT && a.ino[i].addrs[NDIRECT] == 0
    requires x in a.limbo && v[x] == ZERO
    ensures BlocksOk(sb, v, IndirectAttached(a, i, a.ino[i].(addrs := a.ino[i].addrs[NDIRECT := x]), x))
  {
    var d := a.ino[i].(addrs := a.ino[i].addrs[NDIRECT := x]);
    var b := IndirectAttached(a, i, d, x);
    hide AllMapped;
    AttachIndirectMapped(sb, v, a, i, d, x);
    assert Owned(sb, v, b) by {
      forall y | y in b.owner ensures HeldAt(sb, v, b, y) {
        if y != x {
          assert HeldAt(sb, v, a, y);
          assert a.owner[y].i == i ==> a.owner[y].s < NDIRECT;
        }
      }
    }
    BitsAttach(sb, v, a, b, x);
  }

  lemma AttachIndirectMapped(sb: Super, v: Disk, a: Abs, i: nat, d: Dinode, x: nat)
    requires Shape(sb, v, a) && AllMapped(sb, v, a) && Limbo(sb, a)
    requires i < sb.ninodes && |a.file[i]| == NDIRECT && a.ino[i].addrs[NDIRECT] == 0 && x in a.limbo && v[x] == ZERO
    requires d == a.ino[i].(addrs := a.ino[i].addrs[NDIRECT := x])
    ensures var b := IndirectAttached(a, i, d, x); Shape(sb, v, b) && AllMapped(sb, v, b)
  {
    var b := IndirectAttached(a, i, d, x);
    ZeroEntries();
    forall j | 0 <= j < sb.ninodes ensures MappedAt(v, b, j) {
      assert MappedAt(v, a, j);
      if j == i {
        assert forall bn :: 0 <= bn < MAXFILE ==> Addr(v, d, bn) == Addr(v, a.ino[i], bn);
      }
    }
  }

  /** Writing one entry of inode i's indirect block changes that one block number and no other. */
  lemma EntryAddrs(sb: Super, v: Disk, a: Abs, i: nat, x: nat)
    requires Shape(sb, v, a) && AllMapped(sb, v, a) && Owned(sb, v, a)
    requires i < sb.ninodes && NDIRECT <= |a.file[i]| < MAXFILE && a.ino[i].addrs[NDIRECT] != 0 && x < 0x1_0000_0000
    ensures var ind := a.ino[i].addrs[NDIRECT];
            && sb.DataStart() <= ind < |v| && ind in a.owner && a.owner[ind] == Slot(i, INDIRECT)
            && var w := v[ind := PutEntry(v[ind], |a.file[i]| - NDIRECT, x)];
            forall j, bn :: 0 <= j < sb.ninodes && 0 <= bn < MAXFILE ==>
              Addr(w, a.ino[j], bn) == if j == i && bn == |a.file[i]| then x else Addr(v, a.ino[j], bn)
  {
    assert MappedAt(v, a, i);
    var n, ind := |a.file[i]|, a.ino[i].addrs[NDIRECT];
    var w := v[ind := PutEntry(v[ind], n - NDIRECT, x)];
    forall j, bn | 0 <= j < sb.ninodes && 0 <= bn < MAXFILE
      ensures Addr(w, a.ino[j], bn) == if j == i && bn == n then x else Addr(v, a.ino[j], bn)
    {
      assert MappedAt(v, a, j);
    }
  }

  /** A block from limbo is named in the indirect block. */
  lemma AttachEntry(sb: Super, v: Disk, a: Abs, i: nat, x: nat)
    requires BlocksOk(sb, v, a) && i < sb.ninodes && NDIRECT <= |a.file[i]| < MAXFILE && a.ino[i].addrs[NDIRECT] != 0
    requires x in a.limbo && v[x] == ZERO
    ensures a.ino[i].addrs[NDIRECT] < |v|
    ensures var ind := a.ino[i].addrs[NDIRECT];
            BlocksOk(sb, v[ind := PutEntry(v[ind], |a.file[i]| - NDIRECT, x)], Attached(a, i, a.ino[i], x))
  {
    EntryAddrs(sb, v, a, i, x);
    hide AllMapped, Addr;
    var n, ind := |a.file[i]|, a.ino[i].addrs[NDIRECT];
    var w := v[ind := PutEntry(v[ind], n - NDIRECT, x)];
    var b := Attached(a, i, a.ino[i], x);
    AttachMapped(sb, v, w, a, i, a.ino[i], x);
    BitsFrame(sb, v, w);
    BitsAttach(sb, w, a, b, x);
  }

  function SetBlock(f: seq<Block>, bn: nat, blk: Block): (g: seq<Block>)
    requires bn < |f|
  {
    f[bn := blk]
  }

  function Rewritten(a: Abs, i: nat, bn: nat, blk: Block): (b: Abs)
    requires i < |a.file| && bn < |a.file[i]|
  {
    a.(file := a.file[i := SetBlock(a.file[i], bn, blk)])
  }

  /** New contents for a data block. */
  lemma WriteData(sb: Super, v: Disk, a: Abs, i: nat, bn: nat, blk: Block)
    requires BlocksOk(sb, v, a) && i < sb.ninodes && bn < |a.file[i]|
    ensures bn < MAXFILE && Addr(v, a.ino[i], bn) < |v|
    ensures BlocksOk(sb, v[Addr(v, a.ino[i], bn) := blk], Rewritten(a, i, bn, blk))
  {
    assert MappedAt(v, a, i);
    var x := Addr(v, a.ino[i], bn);
    var w, b := v[x := blk], Rewritten(a, i, bn, blk);
    forall j, m | 0 <= j < sb.ninodes && 0 <= m < MAXFILE ensures Addr(w, a.ino[j], m) == Addr(v, a.ino[j], m) {
      assert MappedAt(v, a, j);
    }
    forall j | 0 <= j < sb.ninodes ensures MappedAt(w, b, j) {
      assert MappedAt(v, a, j);
    }
    forall y | y in b.owner ensures HeldAt(sb, w, b, y) {
      assert HeldAt(sb, v, a, y);
      StillHeld(sb, v, a, w, b, y);
    }
    BitsFrame(sb, v, w);
  }

  function WithInode(a: Abs, i: nat, d: Dinode): (b: Abs)
    requires i < |a.ino|
  {
    a.(ino := a.ino[i := d])
  }

  /** A change of an inode that leaves its block numbers alone. */
  lemma ChangeMeta(sb: Super, v: Disk, a: Abs, i: nat, d: Dinode)
    requires BlocksOk(sb, v, a) && i < sb.ninodes && d.addrs == a.ino[i].addrs
    ensures BlocksOk(sb, v, WithInode(a, i, d))
  {
    var b := WithInode(a, i, d);
    forall j | 0 <= j < sb.ninodes ensures MappedAt(v, b, j) {
      assert MappedAt(v, a, j);
      assert forall m :: 0 <= m < MAXFILE ==> Addr(v, b.ino[j], m) == Addr(v, a.ino[j], m);
    }
    forall y | y in b.owner ensures HeldAt(sb, v, b, y) {
      assert HeldAt(sb, v, a, y);
      StillHeld(sb, v, a, v, b, y);
    }
  }

  /** Writing an inode block leaves bitmap and files alone. */
  lemma WriteInodeBlock(sb: Super, v: Disk, a: Abs, x: nat, blk: Block)
    requires BlocksOk(sb, v, a) && sb.inodestart <= x < sb.bmapstart
    ensures x < |v| && BlocksOk(sb, v[x := blk], a)
  {
    FilesFrame(sb, v, v[x := blk], a);
    BitsFrame(sb, v, v[x := blk]);
  }

  /** Every block inode `i` holds goes to limbo. */
  function Detached(a: Abs, i: nat, d: Dinode): (b: Abs)
    requires i < |a.ino| == |a.file|
  {
    Abs(a.ino[i := d], a.file[i := []],
        map x | x in a.owner && a.owner[x].i != i :: a.owner[x],
        a.limbo + (set x | x in a.owner && a.owner[x].i == i))
  }

  lemma Detach(sb: Super, v: Disk, a: Abs, i: nat, d: Dinode)
    requires BlocksOk(sb, v, a) && i < sb.ninodes && d.Ok() && (forall k :: 0 <= k <= NDIRECT ==> d.addrs[k] == 0)
    ensures BlocksOk(sb, v, Detached(a, i, d))
  {
    var b := Detached(a, i, d);
    forall j | 0 <= j < sb.ninodes ensures MappedAt(v, b, j) {
      assert MappedAt(v, a, j);
    }
    forall y | y in b.owner ensures HeldAt(sb, v, b, y) {
      assert HeldAt(sb, v, a, y);
      StillHeld(sb, v, a, v, b, y);
    }
  }

  lemma ConsistentFacts(sb: Super, v: Disk, a: Abs, stale: set<nat>, icache: seq<Inode>)
    requires Consistent(sb, v, a, stale, icache)
    ensures Shape(sb, v, a) && |icache| == NINODE && BlocksOk(sb, v, a) && Synced(sb, v, a, stale) && Cached(sb, a, icache)
  {
  }

  /** The allocator's step for the whole state. */
  lemma AllocAll(sb: Super, v: Disk, a: Abs, stale: set<nat>, icache: seq<Inode>, x: nat)
    requires Consistent(sb, v, a, stale, icache) && x < sb.size && !BitAt(sb, v, x)
    ensures sb.DataStart() <= x && x !in a.owner && x !in a.limbo && !sb.LogArea().Has(x)
    ensures Consistent(sb, Allocated(sb, v, x), a.(limbo := a.limbo + {x}), stale, icache) && Allocated(sb, v, x)[x] == ZERO
  {
    hide BlocksOk;
    Alloc(sb, v, a, x);
    BlocksShape(sb, v, a);
    BlocksShape(sb, Allocated(sb, v, x), a.(limbo := a.limbo + {x}));
    SyncedFrame(sb, v, Allocated(sb, v, x), a, stale);
  }

  lemma BlocksShape(sb: Super, v: Disk, a: Abs)
    requires BlocksOk(sb, v, a)
    ensures Shape(sb, v, a)
  {
  }

  /** The bitmap block of a block, and a free block, may be logged. */
  lemma BitmapLoggable(sb: Super, b: nat, bi: nat)
    requires sb.Ok() && b % BPB == 0 && bi < BPB && b + bi < sb.size
    ensures sb.BBlock(b + bi) == sb.BBlock(b) && (b + bi) % BPB == bi
    ensures sb.bmapstart <= sb.BBlock(b) < sb.DataStart() <= sb.size && !sb.LogArea().Has(sb.BBlock(b))
  {
  }

  /** In-memory inode `s` and the abstract inode take on value `d`. */
  lemma CachedChange(sb: Super, a: Abs, b: Abs, icache: seq<Inode>, s: nat, d: Dinode)
    requires |a.ino| == |b.ino| == sb.ninodes && Cached(sb, a, icache) && s < NINODE && icache[s].ref > 0
    requires b.ino == a.ino[icache[s].inum := d]
    ensures Cached(sb, b, icache[s := icache[s].(d := d)])
  {
  }

  lemma SyncedChange(sb: Super, v: Disk, a: Abs, b: Abs, stale: set<nat>, i: nat)
    requires Shape(sb, v, a) && Shape(sb, v, b) && Synced(sb, v, a, stale) && i < sb.ninodes && b.ino == a.ino[i := b.ino[i]]
    ensures Synced(sb, v, b, stale + {i})
  {
    forall j | 0 <= j < sb.ninodes && j !in stale + {i} ensures InodeAt(sb, v, j) == b.ino[j] {
      assert InodeAt(sb, v, j) == a.ino[j];
    }
  }

  /** A block just allocated becomes a direct block. */
  lemma DirectAll(sb: Super, v: Disk, a: Abs, stale: set<nat>, icache: seq<Inode>, s: nat, x: nat)
    requires Consistent(sb, v, a, stale, icache) && s < NINODE && icache[s].ref > 0 && icache[s].valid
    requires var i := icache[s].inum; |a.file[i]| < NDIRECT && x in a.limbo && v[x] == ZERO
    ensures x < 0x1_0000_0000
    ensures var i := icache[s].inum;
            var d := a.ino[i].(addrs := a.ino[i].addrs[|a.file[i]| := x]);
            && Consistent(sb, v, Attached(a, i, d, x), stale + {i}, icache[s := icache[s].(d := d)])
            && Addr(v, d, |a.file[i]|) == x
  {
    ConsistentFacts(sb, v, a, stale, icache);
    LimboRange(sb, v, a);
    hide BlocksOk, Cached;
    CacheSlot(sb, a, icache, s);
    var i := icache[s].inum;
    var d := a.ino[i].(addrs := a.ino[i].addrs[|a.file[i]| := x]);
    AttachDirect(sb, v, a, i, x);
    var b := Attached(a, i, d, x);
    BlocksShape(sb, v, b);
    SyncedChange(sb, v, a, b, stale, i);
    CachedChange(sb, a, b, icache, s, d);
  }

  lemma CacheSlot(sb: Super, a: Abs, icache: seq<Inode>, s: nat)
    requires |a.ino| == sb.ninodes && Cached(sb, a, icache) && s < NINODE && icache[s].ref > 0
    ensures 0 < icache[s].inum < sb.ninodes && (icache[s].valid ==> icache[s].d == a.ino[icache[s].inum])
  {
  }

  lemma LimboRange(sb: Super, v: Disk, a: Abs)
    requires BlocksOk(sb, v, a)
    ensures forall x :: x in a.limbo ==> sb.DataStart() <= x < sb.size < 0x1_0000_0000
  {
  }

  /** A block just allocated becomes the indirect block. */
  lemma IndirectAll(sb: Super, v: Disk, a: Abs, stale: set<nat>, icache: seq<Inode>, s: nat, x: nat)
    requires Consistent(sb, v, a, stale, icache) && s < NINODE && icache[s].ref > 0 && icache[s].valid
    requires var i := icache[s].inum; |a.file[i]| == NDIRECT && a.ino[i].addrs[NDIRECT] == 0 && x in a.limbo && v[x] == ZERO
    ensures x < 0x1_0000_0000
    ensures var i := icache[s].inum;
            var d := a.ino[i].(addrs := a.ino[i].addrs[NDIRECT := x]);
            Consistent(sb, v, IndirectAttached(a, i, d, x), stale + {i}, icache[s := icache[s].(d := d)])
  {
    ConsistentFacts(sb, v, a, stale, icache);
    LimboRange(sb, v, a);
    hide BlocksOk, Cached;
    CacheSlot(sb, a, icache, s);
    var i := icache[s].inum;
    var d := a.ino[i].(addrs := a.ino[i].addrs[NDIRECT := x]);
    AttachIndirect(sb, v, a, i, x);
    var b := IndirectAttached(a, i, d, x);
    BlocksShape(sb, v, b);
    SyncedChange(sb, v, a, b, stale, i);
    CachedChange(sb, a, b, icache, s, d);
  }

  /** A block just allocated is named in the indirect block. */
  lemma EntryAll(sb: Super, v: Disk, a: Abs, stale: set<nat>, icache: seq<Inode>, i: nat, x: nat)
    requires Consistent(sb, v, a, stale, icache) && i < sb.ninodes
    requires NDIRECT <= |a.file[i]| < MAXFILE && a.ino[i].addrs[NDIRECT] != 0 && x in a.limbo && v[x] == ZERO
    ensures var ind := a.ino[i].addrs[NDIRECT];
            && sb.DataStart() <= ind < |v| && x < 0x1_0000_0000
            && var w := v[ind := PutEntry(v[ind], |a.file[i]| - NDIRECT, x)];
            Consistent(sb, w, Attached(a, i, a.ino[i], x), stale, icache) && Addr(w, a.ino[i], |a.file[i]|) == x
  {
    ConsistentFacts(sb, v, a, stale, icache);
    LimboRange(sb, v, a);
    EntryAddrs(sb, v, a, i, x);
    hide BlocksOk, Cached, Addr, Synced;
    var ind := a.ino[i].addrs[NDIRECT];
    var w := v[ind := PutEntry(v[ind], |a.file[i]| - NDIRECT, x)];
    AttachEntry(sb, v, a, i, x);
    var b := Attached(a, i, a.ino[i], x);
    assert b.ino == a.ino;
    BlocksShape(sb, w, b);
    SyncedSame(sb, v, w, a, b, stale);
    CachedSame(sb, a, b, icache);
  }

  lemma SyncedSame(sb: Super, v: Disk, w: Disk, a: Abs, b: Abs, stale: set<nat>)
    requires Shape(sb, v, a) && Shape(sb, w, b) && Synced(sb, v, a, stale) && b.ino == a.ino
    requires forall x :: sb.inodestart <= x < sb.bmapstart ==> w[x] == v[x]
    ensures Synced(sb, w, b, stale)
  {
    forall i | 0 <= i < sb.ninodes && i !in stale ensures InodeAt(sb, w, i) == b.ino[i] {
      assert InodeAt(sb, v, i) == a.ino[i];
    }
  }

  lemma CachedSame(sb: Super, a: Abs, b: Abs, icache: seq<Inode>)
    requires |a.ino| == sb.ninodes && Cached(sb, a, icache) && b.ino == a.ino
    ensures Cached(sb, b, icache)
  {
  }

  /** The block number of an existing block, through a loaded inode. */
  lemma FileFacts(sb: Super, v: Disk, a: Abs, icache: seq<Inode>, s: nat, bn: nat)
    requires BlocksOk(sb, v, a) && Cached(sb, a, icache) && s < NINODE && icache[s].ref > 0 && icache[s].valid
    requires bn < |a.file[icache[s].inum]|
    ensures var d := icache[s].d;
            && d.Ok() && bn < MAXFILE && sb.DataStart() <= Addr(v, d, bn) < sb.size
            && v[Addr(v, d, bn)] == a.file[icache[s].inum][bn]
            && (bn >= NDIRECT ==> sb.DataStart() <= d.addrs[NDIRECT] < sb.size && Addr(v, d, bn) == Entry(v[d.addrs[NDIRECT]], bn - NDIRECT))
  {
    var i := icache[s].inum;
    assert MappedAt(v, a, i);
    assert HeldAt(sb, v, a, Addr(v, a.ino[i], bn));
    if bn >= NDIRECT {
      assert HeldAt(sb, v, a, a.ino[i].addrs[NDIRECT]);
    }
  }

  /** Direct slots are used in order: a slot is empty exactly from the length of the file on. */
  lemma DirectFacts(sb: Super, v: Disk, a: Abs, i: nat, bn: nat)
    requires BlocksOk(sb, v, a) && i < sb.ninodes && bn <= |a.file[i]| && bn < NDIRECT
    ensures a.ino[i].addrs[bn] == 0 <==> bn == |a.file[i]|
  {
    assert MappedAt(v, a, i);
    assert Addr(v, a.ino[i], bn) == a.ino[i].addrs[bn];
  }

  lemma IndirectOwned(sb: Super, v: Disk, a: Abs, i: nat)
    requires BlocksOk(sb, v, a) && i < sb.ninodes && a.ino[i].addrs[NDIRECT] != 0
    ensures a.ino[i].addrs[NDIRECT] in a.owner && sb.DataStart() <= a.ino[i].addrs[NDIRECT] < sb.size
  {
    assert MappedAt(v, a, i);
    assert HeldAt(sb, v, a, a.ino[i].addrs[NDIRECT]);
  }

  lemma BBlockRange(sb: Super, x: nat)
    requires sb.Ok() && x < sb.size
    ensures sb.bmapstart <= sb.BBlock(x) < sb.DataStart() <= sb.size && !sb.LogArea().Has(sb.BBlock(x))
  {
  }

  lemma NoIndirect(sb: Super, v: Disk, a: Abs, i: nat)
    requires BlocksOk(sb, v, a) && i < sb.ninodes && a.ino[i].addrs[NDIRECT] == 0
    ensures |a.file[i]| <= NDIRECT
  {
    assert MappedAt(v, a, i);
  }

  /** Entries of the indirect block are used in order too. */
  lemma EntryFacts(sb: Super, v: Disk, a: Abs, i: nat, bn: nat)
    requires BlocksOk(sb, v, a) && i < sb.ninodes && NDIRECT <= bn < MAXFILE && bn <= |a.file[i]| && a.ino[i].addrs[NDIRECT] != 0
    ensures sb.DataStart() <= a.ino[i].addrs[NDIRECT] < sb.size && !sb.LogArea().Has(a.ino[i].addrs[NDIRECT])
    ensures Entry(v[a.ino[i].addrs[NDIRECT]], bn - NDIRECT) == Addr(v, a.ino[i], bn)
    ensures Addr(v, a.ino[i], bn) == 0 <==> bn == |a.file[i]|
  {
    assert MappedAt(v, a, i);
    IndirectOwned(sb, v, a, i);
  }

  lemma MapsIndirect(sb: Super, v: Disk, a: Abs, i: nat)
    requires BlocksOk(sb, v, a) && i < sb.ninodes && |a.file[i]| > NDIRECT
    ensures a.ino[i].addrs[NDIRECT] != 0
  {
    assert MappedAt(v, a, i);
  }

  lemma StaleMore(sb: Super, v: Disk, a: Abs, stale: set<nat>, stale': set<nat>, icache: seq<Inode>)
    requires Consistent(sb, v, a, stale, icache) && stale <= stale'
    ensures Consistent(sb, v, a, stale', icache)
  {
  }

  lemma FileMax(sb: Super, v: Disk, a: Abs, i: nat)
    requires BlocksOk(sb, v, a) && i < sb.ninodes
    ensures |a.file[i]| <= MAXFILE
  {
    assert MappedAt(v, a, i);
  }
}
