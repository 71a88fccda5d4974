/** What the operations of fs.c do to the state as a whole. */
module FsSpec {
  import opened Bytes
  import opened RedoLog
  import opened Kernel
  import opened CacheState
  import opened LogState
  import opened FsFormat
  import opened FsState
  import opened FsSteps

  /** Everything there is to say about the file system at one moment. */
  datatype State = State(face: Face, lh: seq<nat>, a: Abs, stale: set<nat>, icache: seq<Inode>)

  /** The device has not been written and the buffers held are the same; only memory may have changed. */
  ghost predicate Quiet(f: Face, g: Face)
  {
    g.Ok() && g.disk == f.disk && g.trace == f.trace && g.held == f.held
  }

  /** The device has not been written. */
  ghost predicate Still(f: Face, g: Face)
  {
    g.disk == f.disk && g.trace == f.trace
  }

  /** What has run out when the kernel stops for this reason: no bit of the bitmap is clear, no inode is free, or no slot of
      the inode cache is empty. */
  ghost predicate Exhausted(sb: Super, v: Disk, a: Abs, icache: seq<Inode>, why: Why)
  {
    && (why == OutOfBlocks ==> sb.Ok() && |v| == sb.size && forall b :: 0 <= b < sb.size ==> BitAt(sb, v, b))
    && (why == NoInodes ==> forall j :: 0 < j < |a.ino| ==> a.ino[j].typ != 0)
    && (why == NoInodeSlots ==> forall s :: 0 <= s < |icache| ==> icache[s].ref > 0)
  }

  lemma OtherReason(sb: Super, v: Disk, a: Abs, icache: seq<Inode>, why: Why)
    requires why != OutOfBlocks && why != NoInodes && why != NoInodeSlots
    ensures Exhausted(sb, v, a, icache, why)
  {
  }

  /** At most `k` blocks have joined the transaction. */
  predicate Grew(lh: seq<nat>, lh': seq<nat>, k: int)
  {
    lh <= lh' && |lh'| <= |lh| + k
  }

  /** Slot `s` of the inode cache holds a referenced inode that has been read. */
  predicate Loaded(icache: seq<Inode>, s: nat)
  {
    s < NINODE == |icache| && icache[s].ref > 0 && icache[s].valid
  }

  /** What bmap(ip, bn) promises: an existing block is found and nothing changes; the block behind the
      last one is allocated. */
  ghost predicate Bmapped(p: State, q: State, s: nat, bn: nat, x: nat)
    requires Loaded(p.icache, s) && p.icache[s].inum < |p.a.file|
  {
    var i := p.icache[s].inum;
    && Loaded(q.icache, s) && bn < MAXFILE && q.icache[s].d.Ok() && x == Addr(q.face.view, q.icache[s].d, bn)
    && if bn < |p.a.file[i]| then q == p else Appended(p, q, s) && x in q.lh
  }

  /** A fresh zeroed block has become the last block of the file of inode cache slot `s`. */
  ghost predicate Appended(p: State, q: State, s: nat)
    requires Loaded(p.icache, s)
  {
    var i := p.icache[s].inum;
    && Extended(p.a, q.a, i) && q.icache == p.icache[s := p.icache[s].(d := q.a.ino[i])]
    && q.stale == p.stale + {i} && Quiet(p.face, q.face)
    && p.lh <= q.lh && |q.lh| + Credit(q.icache[s].d, q.lh) <= |p.lh| + Credit(p.icache[s].d, p.lh) + 2
  }

  /** What appending blocks to this file may still cost beyond a bitmap block and the block itself each:
      the indirect block, and a bitmap block for it if it does not exist. */
  function Credit(d: Dinode, lh: seq<nat>): (k: nat)
  {
    if |d.addrs| <= NDIRECT || d.addrs[NDIRECT] == 0 then 2 else if d.addrs[NDIRECT] in lh then 0 else 1
  }

  lemma AbsorbGrows(lh: seq<nat>, b: nat)
    ensures Grew(lh, Absorb(lh, b), if b in lh then 0 else 1) && b in Absorb(lh, b)
  {
  }

  lemma AbsorbThree(lh: seq<nat>, b: nat, x: nat, y: nat)
    ensures var lh' := Absorb(Absorb(Absorb(lh, b), x), y); Grew(lh, lh', if y in lh then 2 else 3) && x in lh' && y in lh'
  {
  }

  lemma AllocatedElsewhere(sb: Super, v: Disk, x: nat, y: nat)
    requires sb.Ok() && |v| == sb.size && x < sb.size && sb.DataStart() <= y < sb.size && y != x
    ensures Allocated(sb, v, x)[y] == v[y]
  {
    BBlockRange(sb, x);
  }

  /** bmap through a fresh direct block: `q` is the state after balloc, `z` the one after its number is in the inode. */
  lemma DirectStep(p: State, q: State, z: State, sb: Super, s: nat, bn: nat, x: nat)
    requires Loaded(p.icache, s) && Consistent(sb, p.face.view, p.a, p.stale, p.icache)
    requires p.icache[s].inum < |p.a.ino| == |p.a.file| && p.icache[s].d.Ok() && bn == |p.a.file[p.icache[s].inum]| < NDIRECT
    requires x < sb.size && x < 0x1_0000_0000 && !BitAt(sb, p.face.view, x)
    requires q == q.(a := p.a.(limbo := p.a.limbo + {x}), stale := p.stale, icache := p.icache)
    requires q.face.view == Allocated(sb, p.face.view, x) && Quiet(p.face, q.face)
    requires q.lh == Absorb(Absorb(p.lh, sb.BBlock(x)), x)
    requires Consistent(sb, q.face.view, q.a, q.stale, q.icache)
    requires var i, d := p.icache[s].inum, p.icache[s].d.(addrs := p.icache[s].d.addrs[bn := x]);
             z == q.(a := Attached(q.a, i, d, x), stale := q.stale + {i}, icache := q.icache[s := q.icache[s].(d := d)])
    ensures Consistent(sb, z.face.view, z.a, z.stale, z.icache) && Bmapped(p, z, s, bn, x) && Grown(sb, p, z, s, bn)
  {
    DirectAttach(p, q, z, sb, s, bn, x);
    hide Consistent, BitAt, Allocated, Addr, Extends;
    AbsorbGrows(p.lh, sb.BBlock(x));
    AbsorbGrows(Absorb(p.lh, sb.BBlock(x)), x);
    hide Absorb;
    assert Bmapped(p, z, s, bn, x);
    hide Bmapped;
    GrownDirect(sb, p, z, s, bn, x);
  }

  lemma DirectAttach(p: State, q: State, z: State, sb: Super, s: nat, bn: nat, x: nat)
    requires Loaded(p.icache, s) && Consistent(sb, p.face.view, p.a, p.stale, p.icache)
    requires p.icache[s].inum < |p.a.ino| == |p.a.file| && p.icache[s].d.Ok() && bn == |p.a.file[p.icache[s].inum]| < NDIRECT
    requires x < sb.size && x < 0x1_0000_0000 && !BitAt(sb, p.face.view, x)
    requires q == q.(a := p.a.(limbo := p.a.limbo + {x}), stale := p.stale, icache := p.icache)
    requires q.face.view == Allocated(sb, p.face.view, x) && Quiet(p.face, q.face)
    requires Consistent(sb, q.face.view, q.a, q.stale, q.icache)
    requires var i, d := p.icache[s].inum, p.icache[s].d.(addrs := p.icache[s].d.addrs[bn := x]);
             z == q.(a := Attached(q.a, i, d, x), stale := q.stale + {i}, icache := q.icache[s := q.icache[s].(d := d)])
    ensures Consistent(sb, z.face.view, z.a, z.stale, z.icache) && x == Addr(z.face.view, z.icache[s].d, bn) && Extends(p.a, z.a)
    ensures z.a.limbo == p.a.limbo && p.icache[s].d == p.a.ino[p.icache[s].inum]
  {
    ConsistentFacts(sb, p.face.view, p.a, p.stale, p.icache);
    AllocAll(sb, p.face.view, p.a, p.stale, p.icache, x);
    hide Consistent, BlocksOk, Synced, BitAt, Allocated;
    CacheSlot(sb, p.a, p.icache, s);
    DirectAll(sb, q.face.view, q.a, q.stale, q.icache, s, x);
    hide Cached, Addr;
    assert q.a.limbo - {x} == p.a.limbo;
    assert Extends(p.a, z.a);
  }

  /** The inode of slot `s` has an indirect block; a new one costs a bitmap block and the block itself. */
  ghost predicate Indirected(p: State, q: State, s: nat)
    requires Loaded(p.icache, s)
  {
    var i := p.icache[s].inum;
    && i < |p.a.ino| == |q.a.ino| && |p.a.ino[i].addrs| == |q.a.ino[i].addrs| == NDIRECT + 1 && q.a.ino[i].addrs[NDIRECT] != 0
    && if p.a.ino[i].addrs[NDIRECT] != 0 then q == p
       else
         && q.a.file == p.a.file && q.a.limbo == p.a.limbo
         && q.a.ino == p.a.ino[i := q.a.ino[i]] && q.a.ino[i] == p.a.ino[i].(addrs := q.a.ino[i].addrs)
         && q.icache == p.icache[s := p.icache[s].(d := q.a.ino[i])]
         && q.stale == p.stale + {i} && Quiet(p.face, q.face) && Grew(p.lh, q.lh, 2) && q.a.ino[i].addrs[NDIRECT] in q.lh
  }

  lemma IndirectedFacts(p: State, q: State, s: nat)
    requires Loaded(p.icache, s) && Indirected(p, q, s)
    ensures Loaded(q.icache, s) && q.icache[s].inum == p.icache[s].inum && q.a.file == p.a.file
    ensures p.icache[s].inum < |q.a.ino| && |q.a.ino[p.icache[s].inum].addrs| == NDIRECT + 1 && q.a.ino[p.icache[s].inum].addrs[NDIRECT] != 0
    ensures |q.lh| <= |p.lh| + 2 && q.face.held == p.face.held && q.face.disk == p.face.disk && q.face.trace == p.face.trace
    ensures q.stale <= p.stale + {p.icache[s].inum} && (p.a.ino[p.icache[s].inum].addrs[NDIRECT] != 0 ==> q == p)
    ensures p.a.ino[p.icache[s].inum].addrs[NDIRECT] == 0 ==> q.stale == p.stale + {p.icache[s].inum}
  {
  }

  lemma BmappedAddr(p: State, q: State, s: nat, bn: nat, x: nat)
    requires Loaded(p.icache, s) && p.icache[s].inum < |p.a.file| && Bmapped(p, q, s, bn, x)
    ensures Loaded(q.icache, s) && q.icache[s].d.Ok() && bn < MAXFILE && x == Addr(q.face.view, q.icache[s].d, bn)
  {
  }

  /** Between the two halves of bmap behind the direct blocks. */
  lemma Halfway(sb: Super, p: State, q: State, s: nat, bn: nat)
    requires Loaded(p.icache, s) && Consistent(sb, p.face.view, p.a, p.stale, p.icache) && Consistent(sb, q.face.view, q.a, q.stale, q.icache)
    requires Indirected(p, q, s) && p.icache[s].inum < |p.a.file| && NDIRECT <= bn <= |p.a.file[p.icache[s].inum]|
    ensures Loaded(q.icache, s) && q.icache[s].inum == p.icache[s].inum && q.a.file == p.a.file && p.icache[s].inum < sb.ninodes == |q.a.ino| == |q.a.file|
    ensures q.icache[s].d == q.a.ino[q.icache[s].inum] && q.icache[s].d.Ok() && q.icache[s].d.addrs[NDIRECT] != 0
    ensures p.icache[s].d == p.a.ino[p.icache[s].inum] && p.icache[s].d.Ok() && (bn < |p.a.file[p.icache[s].inum]| ==> p.icache[s].d.addrs[NDIRECT] != 0)
    ensures |q.lh| <= |p.lh| + 2 && q.face.held == p.face.held && q.face.disk == p.face.disk && q.face.trace == p.face.trace
    ensures q.stale <= p.stale + {p.icache[s].inum} && (p.a.ino[p.icache[s].inum].addrs[NDIRECT] != 0 || p.stale + {p.icache[s].inum} == q.stale)
    ensures bn < |p.a.file[p.icache[s].inum]| ==> q == p
  {
    ConsistentFacts(sb, p.face.view, p.a, p.stale, p.icache);
    CacheSlot(sb, p.a, p.icache, s);
    if bn < |p.a.file[p.icache[s].inum]| {
      MapsIndirect(sb, p.face.view, p.a, p.icache[s].inum);
    }
    ConsistentFacts(sb, q.face.view, q.a, q.stale, q.icache);
    hide Consistent, BlocksOk, Synced;
    IndirectedFacts(p, q, s);
    CacheSlot(sb, q.a, q.icache, s);
  }

  lemma EntryMappedFacts(p: State, q: State, s: nat, bn: nat, x: nat)
    requires Loaded(p.icache, s) && p.icache[s].inum < |p.a.file| == |p.a.ino| && p.icache[s].d.Ok() && EntryMapped(p, q, s, bn, x)
    ensures q.stale == p.stale && q.face.disk == p.face.disk && q.face.trace == p.face.trace
  {
  }

  lemma IndirectStep(p: State, q: State, z: State, sb: Super, s: nat, x: nat)
    requires Loaded(p.icache, s) && Consistent(sb, p.face.view, p.a, p.stale, p.icache)
    requires p.icache[s].inum < |p.a.ino| == |p.a.file| && |p.a.file[p.icache[s].inum]| == NDIRECT
    requires p.icache[s].d.Ok() && p.icache[s].d.addrs[NDIRECT] == 0 && x < sb.size && x < 0x1_0000_0000 && !BitAt(sb, p.face.view, x)
    requires q == q.(a := p.a.(limbo := p.a.limbo + {x}), stale := p.stale, icache := p.icache)
    requires q.face.view == Allocated(sb, p.face.view, x) && Quiet(p.face, q.face)
    requires q.lh == Absorb(Absorb(p.lh, sb.BBlock(x)), x)
    requires Consistent(sb, q.face.view, q.a, q.stale, q.icache)
    requires var i, d := p.icache[s].inum, p.icache[s].d.(addrs := p.icache[s].d.addrs[NDIRECT := x]);
             z == q.(a := IndirectAttached(q.a, i, d, x), stale := q.stale + {i}, icache := q.icache[s := q.icache[s].(d := d)])
    ensures Consistent(sb, z.face.view, z.a, z.stale, z.icache) && Indirected(p, z, s) && IndirectGrown(sb, p, z, s)
  {
    ConsistentFacts(sb, p.face.view, p.a, p.stale, p.icache);
    AllocAll(sb, p.face.view, p.a, p.stale, p.icache, x);
    hide Consistent, BlocksOk, Synced, BitAt, Allocated;
    CacheSlot(sb, p.a, p.icache, s);
    IndirectAll(sb, q.face.view, q.a, q.stale, q.icache, s, x);
    AbsorbGrows(p.lh, sb.BBlock(x));
    AbsorbGrows(Absorb(p.lh, sb.BBlock(x)), x);
    hide Absorb, Cached;
    assert q.a.limbo - {x} == p.a.limbo;
    assert Extends(p.a, z.a);
  }

  /** bmap through the indirect block: balloc, then the assignment to its entry. */
  lemma EntryStep(p: State, q: State, sb: Super, s: nat, bn: nat, x: nat)
    requires Loaded(p.icache, s) && Consistent(sb, p.face.view, p.a, p.stale, p.icache)
    requires var i := p.icache[s].inum; bn == |p.a.file[i]| && NDIRECT <= bn < MAXFILE && p.icache[s].d.addrs[NDIRECT] != 0
    requires x < sb.size && !BitAt(sb, p.face.view, x)
    requires q == q.(a := p.a.(limbo := p.a.limbo + {x}), stale := p.stale, icache := p.icache)
    requires q.face.view == Allocated(sb, p.face.view, x) && Quiet(p.face, q.face)
    requires q.lh == Absorb(Absorb(p.lh, sb.BBlock(x)), x)
    requires Consistent(sb, q.face.view, q.a, q.stale, q.icache)
    ensures x !in p.a.owner
    ensures var i, ind := p.icache[s].inum, p.icache[s].d.addrs[NDIRECT];
            && sb.DataStart() <= ind < |q.face.view| && q.face.view[ind] == p.face.view[ind] && x < 0x1_0000_0000
            && var z := q.(face := q.face.Pinned(ind, PutEntry(p.face.view[ind], bn - NDIRECT, x)),
                           lh := Absorb(q.lh, ind), a := Attached(q.a, i, q.a.ino[i], x));
            && Consistent(sb, z.face.view, z.a, z.stale, z.icache)
            && x == Addr(z.face.view, z.icache[s].d, bn) && x in z.lh && z.a.limbo == p.a.limbo
            && Grew(p.lh, z.lh, if ind in p.lh then 2 else 3) && ind in z.lh
  {
    ConsistentFacts(sb, p.face.view, p.a, p.stale, p.icache);
    AllocAll(sb, p.face.view, p.a, p.stale, p.icache, x);
    CacheSlot(sb, p.a, p.icache, s);
    var i, ind := p.icache[s].inum, p.icache[s].d.addrs[NDIRECT];
    IndirectOwned(sb, p.face.view, p.a, i);
    AllocatedElsewhere(sb, p.face.view, x, ind);
    hide Consistent, BlocksOk, Synced, Cached, Allocated, Grew;
    EntryAll(sb, q.face.view, q.a, q.stale, q.icache, i, x);
    AbsorbThree(p.lh, sb.BBlock(x), x, ind);
    assert q.a.limbo - {x} == p.a.limbo;
  }

  /** What the part of bmap behind the indirect block promises. */
  ghost predicate EntryMapped(p: State, q: State, s: nat, bn: nat, x: nat)
    requires Loaded(p.icache, s) && p.icache[s].inum < |p.a.file| == |p.a.ino| && p.icache[s].d.Ok()
  {
    var i, ind := p.icache[s].inum, p.icache[s].d.addrs[NDIRECT];
    && NDIRECT <= bn < MAXFILE && x == Addr(q.face.view, p.icache[s].d, bn)
    && if bn < |p.a.file[i]| then q == p
       else
         && q.a.ino == p.a.ino && q.a.file == p.a.file[i := p.a.file[i] + [ZERO]] && q.a.limbo == p.a.limbo
         && q.icache == p.icache && q.stale == p.stale && Quiet(p.face, q.face)
         && Grew(p.lh, q.lh, if ind in p.lh then 2 else 3) && x in q.lh && ind in q.lh
  }

  lemma SlotFile(sb: Super, p: State, s: nat)
    requires Loaded(p.icache, s) && Consistent(sb, p.face.view, p.a, p.stale, p.icache)
    ensures p.icache[s].inum < |p.a.ino| == |p.a.file| == sb.ninodes && p.icache[s].d.Ok()
    ensures |p.a.file[p.icache[s].inum]| <= NDIRECT || p.icache[s].d.addrs[NDIRECT] != 0
  {
    ConsistentFacts(sb, p.face.view, p.a, p.stale, p.icache);
    CacheSlot(sb, p.a, p.icache, s);
    if p.icache[s].d.addrs[NDIRECT] == 0 {
      NoIndirect(sb, p.face.view, p.a, p.icache[s].inum);
    }
  }

  /** Where the block number of a file block behind the direct ones is. */
  lemma IndirectSlot(sb: Super, p: State, s: nat)
    requires Loaded(p.icache, s) && Consistent(sb, p.face.view, p.a, p.stale, p.icache) && p.icache[s].d.addrs[NDIRECT] != 0
    ensures p.icache[s].inum < |p.a.ino| == |p.a.file| && p.icache[s].d == p.a.ino[p.icache[s].inum] && p.icache[s].d.Ok()
    ensures sb.DataStart() <= p.icache[s].d.addrs[NDIRECT] < |p.face.view|
  {
    ConsistentFacts(sb, p.face.view, p.a, p.stale, p.icache);
    CacheSlot(sb, p.a, p.icache, s);
    IndirectOwned(sb, p.face.view, p.a, p.icache[s].inum);
  }

  /** The whole of bmap behind the indirect block, for an entry that was empty: `q` is the state after balloc, `y`
      the one after the entry has been logged. */
  lemma EntryFilled(p: State, f: Face, q: State, y: State, sb: Super, s: nat, bn: nat, x: nat)
    requires Loaded(p.icache, s) && Consistent(sb, p.face.view, p.a, p.stale, p.icache) && f == p.face.(held := f.held) && f.Ok()
    requires var i := p.icache[s].inum; bn == |p.a.file[i]| && NDIRECT <= bn < MAXFILE && p.icache[s].d.addrs[NDIRECT] != 0
    requires x < sb.size && !BitAt(sb, p.face.view, x)
    requires q == q.(a := p.a.(limbo := p.a.limbo + {x}), stale := p.stale, icache := p.icache)
    requires q.face.view == Allocated(sb, p.face.view, x) && Quiet(p.face, q.face)
    requires q.lh == Absorb(Absorb(p.lh, sb.BBlock(x)), x)
    requires Consistent(sb, q.face.view, q.a, q.stale, q.icache)
    requires p.icache[s].inum < |p.a.ino| == |p.a.file| && p.icache[s].d.Ok() && x < 0x1_0000_0000
    requires var i, ind := p.icache[s].inum, p.icache[s].d.addrs[NDIRECT];
             && ind < |p.face.view| == |q.face.view| && y.face.Ok()
             && y == q.(face := q.face.Pinned(ind, PutEntry(p.face.view[ind], bn - NDIRECT, x)).(held := f.held), lh := Absorb(q.lh, ind),
                        a := Attached(q.a, i, q.a.ino[i], x))
    ensures Consistent(sb, y.face.view, y.a, y.stale, y.icache)
    ensures EntryMapped(p.(face := f), y, s, bn, x) && EntryGrown(sb, p.(face := f), y, s, bn, x)
  {
    EntryStep(p, q, sb, s, bn, x);
    hide Consistent, Absorb, Grew, Allocated, PutEntry, Addr, BitAt;
    assert Extends(p.a, y.a);
  }

  lemma HeldGrows(held: map<nat, Hold>, h: nat, b: nat)
    ensures |Grab(held, h, b)| <= |held| + 1
  {
    assert Grab(held, h, b).Keys == held.Keys + {h};
  }

  // Exactly which blocks join the transaction.

  /** Every block that has an owner keeps it. */
  ghost predicate Extends(a: Abs, b: Abs)
  {
    forall x :: x in a.owner ==> x in b.owner && b.owner[x] == a.owner[x]
  }

  /** What appending block `bn` logs: the block and its bitmap block and, behind the direct blocks, the indirect
      block, with its bitmap block if it is new. `d` is the inode before, `e` afterwards. */
  function GrowLog(sb: Super, v: Disk, d: Dinode, e: Dinode, bn: nat): (r: set<nat>)
    requires d.Ok() && e.Ok() && bn < MAXFILE
  {
    {sb.BBlock(Addr(v, e, bn)), Addr(v, e, bn)} + if bn < NDIRECT then {} else IndirectLog(sb, d, e)
  }

  function IndirectLog(sb: Super, d: Dinode, e: Dinode): (r: set<nat>)
    requires d.Ok() && e.Ok()
  {
    {e.addrs[NDIRECT]} + if d.addrs[NDIRECT] == 0 then {sb.BBlock(e.addrs[NDIRECT])} else {}
  }

  /** What bmap(ip, bn) adds to the transaction. */
  ghost predicate Grown(sb: Super, p: State, q: State, s: nat, bn: nat)
  {
    && Loaded(p.icache, s) && Loaded(q.icache, s) && p.icache[s].d.Ok() && q.icache[s].d.Ok() && bn < MAXFILE && Extends(p.a, q.a)
    && p.icache[s].inum < |p.a.file| && var d, e, n := p.icache[s].d, q.icache[s].d, |p.a.file[p.icache[s].inum]|;
    && (e.addrs[NDIRECT] != d.addrs[NDIRECT] ==> d.addrs[NDIRECT] == 0 && bn >= NDIRECT && bn >= n)
    && Elems(q.lh) == Elems(p.lh) + if bn < n then {} else GrowLog(sb, q.face.view, d, e, bn)
  }

  lemma GrownNothing(sb: Super, p: State, s: nat, bn: nat)
    requires Loaded(p.icache, s) && p.icache[s].d.Ok() && p.icache[s].inum < |p.a.file| && bn < |p.a.file[p.icache[s].inum]| && bn < MAXFILE
    ensures Grown(sb, p, p, s, bn)
  {
  }

  lemma GrownDirect(sb: Super, p: State, q: State, s: nat, bn: nat, x: nat)
    requires Loaded(p.icache, s) && p.icache[s].d.Ok() && p.icache[s].inum < |p.a.file| && bn < NDIRECT && Bmapped(p, q, s, bn, x)
    requires bn >= |p.a.file[p.icache[s].inum]| && q.lh == Absorb(Absorb(p.lh, sb.BBlock(x)), x) && Extends(p.a, q.a)
    requires q.icache[s].d.addrs[NDIRECT] == p.icache[s].d.addrs[NDIRECT]
    ensures Grown(sb, p, q, s, bn)
  {
    AbsorbTwo(p.lh, sb.BBlock(x), x);
  }

  /** What allocating the indirect block adds. */
  ghost predicate IndirectGrown(sb: Super, p: State, q: State, s: nat)
  {
    && Loaded(p.icache, s) && Loaded(q.icache, s) && p.icache[s].d.Ok() && q.icache[s].d.Ok() && Extends(p.a, q.a)
    && var ind := q.icache[s].d.addrs[NDIRECT];
    if p.icache[s].d.addrs[NDIRECT] != 0 then q == p else q.lh == Absorb(Absorb(p.lh, sb.BBlock(ind)), ind)
  }

  /** What looking up an entry of the indirect block adds. */
  ghost predicate EntryGrown(sb: Super, p: State, q: State, s: nat, bn: nat, x: nat)
  {
    && Loaded(p.icache, s) && p.icache[s].d.Ok() && p.icache[s].inum < |p.a.file| && q.icache == p.icache && Extends(p.a, q.a)
    && q.lh == if bn < |p.a.file[p.icache[s].inum]| then p.lh
               else Absorb(Absorb(Absorb(p.lh, sb.BBlock(x)), x), p.icache[s].d.addrs[NDIRECT])
  }

  lemma GrownIndirect(sb: Super, p: State, q: State, z: State, y: State, s: nat, bn: nat, x: nat)
    requires IndirectGrown(sb, p, q, s) && EntryGrown(sb, q, z, s, bn, x) && q.a.file == p.a.file && NDIRECT <= bn < MAXFILE
    requires p.icache[s].inum < |p.a.file| && q.icache[s].inum == p.icache[s].inum && q.icache[s].d.addrs[NDIRECT] != 0
    requires y == z.(stale := y.stale) && x == Addr(y.face.view, y.icache[s].d, bn)
    requires bn < |p.a.file[p.icache[s].inum]| ==> p.icache[s].d.addrs[NDIRECT] != 0
    ensures Grown(sb, p, y, s, bn)
  {
    var d, e := p.icache[s].d, q.icache[s].d;
    var ind := e.addrs[NDIRECT];
    assert Extends(p.a, y.a);
    hide Extends, Elems, Absorb, Addr;
    AbsorbTwo(p.lh, sb.BBlock(ind), ind);
    AbsorbTwo(q.lh, sb.BBlock(x), x);
    AbsorbElems(Absorb(Absorb(q.lh, sb.BBlock(x)), x), ind);
    if bn >= |p.a.file[p.icache[s].inum]| {
      assert GrowLog(sb, y.face.view, d, e, bn) == {sb.BBlock(x), x} + IndirectLog(sb, d, e);
      assert Elems(y.lh) == Elems(q.lh) + {sb.BBlock(x), x} + {ind};
      if d.addrs[NDIRECT] == 0 {
        assert Elems(q.lh) == Elems(p.lh) + {sb.BBlock(ind), ind};
      }
    }
  }

  lemma AbsorbTwo(lh: seq<nat>, b: nat, x: nat)
    ensures Elems(Absorb(Absorb(lh, b), x)) == Elems(lh) + {b, x}
  {
    AbsorbElems(lh, b);
    AbsorbElems(Absorb(lh, b), x);
  }

  /** The two halves of bmap behind the direct blocks. */
  lemma BmapDone(p: State, q: State, z: State, y: State, sb: Super, s: nat, bn: nat, x: nat)
    requires Loaded(p.icache, s) && Consistent(sb, p.face.view, p.a, p.stale, p.icache)
    requires p.icache[s].inum < sb.ninodes && NDIRECT <= bn <= |p.a.file[p.icache[s].inum]| && p.icache[s].d.Ok()
    requires p.icache[s].d == p.a.ino[p.icache[s].inum] && Indirected(p, q, s) && IndirectGrown(sb, p, q, s)
    requires Loaded(q.icache, s) && q.icache[s].inum < |q.a.file| == |q.a.ino| && q.icache[s].d == q.a.ino[q.icache[s].inum] && q.icache[s].d.Ok()
    requires EntryMapped(q, z, s, bn, x) && EntryGrown(sb, q, z, s, bn, x)
    requires bn < |p.a.file[p.icache[s].inum]| ==> p.icache[s].d.addrs[NDIRECT] != 0
    requires p.a.ino[p.icache[s].inum].addrs[NDIRECT] != 0 || p.stale + {p.icache[s].inum} == q.stale
    requires y == if bn < |p.a.file[p.icache[s].inum]| then z else z.(stale := p.stale + {p.icache[s].inum})
    ensures Bmapped(p, y, s, bn, x) && Grown(sb, p, y, s, bn)
  {
    BmapSteps(p, q, z, sb, s, bn, x);
    BmappedAddr(p, y, s, bn, x);
    IndirectedFacts(p, q, s);
    hide Bmapped, EntryMapped, Indirected, Consistent, EntryGrown, IndirectGrown, Grown, Addr;
    GrownIndirect(sb, p, q, z, y, s, bn, x);
  }

  /** Blocks that keep their owner keep their place. */
  lemma AddrKept(sb: Super, v: Disk, a: Abs, w: Disk, b: Abs, i: nat, bn: nat)
    requires BlocksOk(sb, v, a) && BlocksOk(sb, w, b) && Extends(a, b) && i < sb.ninodes && bn < |a.file[i]|
    ensures bn < MAXFILE && Addr(w, b.ino[i], bn) == Addr(v, a.ino[i], bn)
  {
    assert MappedAt(v, a, i);
    assert HeldAt(sb, w, b, Addr(v, a.ino[i], bn));
  }

  /** The parts of bmap put together. */
  lemma BmapSteps(p: State, q: State, z: State, sb: Super, s: nat, bn: nat, x: nat)
    requires Loaded(p.icache, s) && Consistent(sb, p.face.view, p.a, p.stale, p.icache)
    requires p.icache[s].inum < sb.ninodes && NDIRECT <= bn <= |p.a.file[p.icache[s].inum]| && p.icache[s].d.Ok()
    requires p.icache[s].d == p.a.ino[p.icache[s].inum]
    requires Indirected(p, q, s)
    requires Loaded(q.icache, s) && q.icache[s].inum < |q.a.file| == |q.a.ino| && q.icache[s].d == q.a.ino[q.icache[s].inum] && q.icache[s].d.Ok()
    requires EntryMapped(q, z, s, bn, x)
    requires bn < |p.a.file[p.icache[s].inum]| ==> p.icache[s].d.addrs[NDIRECT] != 0
    requires p.a.ino[p.icache[s].inum].addrs[NDIRECT] != 0 || p.stale + {p.icache[s].inum} == q.stale
    ensures var i := p.icache[s].inum;
            var y := if bn < |p.a.file[i]| then z else z.(stale := p.stale + {i});
            Bmapped(p, y, s, bn, x)
  {
    var i := p.icache[s].inum;
    if bn == |p.a.file[i]| {
      assert p.icache[s := p.icache[s].(d := p.a.ino[i])] == p.icache;
    }
  }
}
