/** How many blocks a write really logs: the bound of writei is reached on a disk whose free blocks are scattered. */
module FsLogCount {
  import opened Bytes
  import opened RedoLog
  import opened LogState
  import opened FsFormat
  import opened FsState
  import opened FsSteps
  import opened FsSpec
  import opened FsInodeSteps
  import opened FsContent
  import opened FileSteps

  predicate IsFree(sb: Super, v: Disk, x: nat)
  {
    sb.Ok() && |v| == sb.size && x < sb.size && !BitAt(sb, v, x)
  }

  /** No bitmap block has two free blocks, so every allocation uses another one. */
  ghost predicate Scattered(sb: Super, v: Disk)
  {
    forall x, y :: x != y && IsFree(sb, v, x) && IsFree(sb, v, y) ==> sb.BBlock(x) != sb.BBlock(y)
  }

  /** The blocks gained lie in different bitmap blocks. */
  ghost predicate Apart(sb: Super, a: Abs, b: Abs)
  {
    forall x, y :: x in b.owner && x !in a.owner && y in b.owner && y !in a.owner && x != y ==> sb.BBlock(x) != sb.BBlock(y)
  }

  /** They do if the free blocks are scattered. */
  lemma ScatteredApart(sb: Super, v: Disk, a: Abs, b: Abs)
    requires BlocksOk(sb, v, a) && a.limbo == {} && Scattered(sb, v) && forall x :: x in b.owner ==> sb.DataStart() <= x < sb.size
    ensures Apart(sb, a, b)
  {
    assert forall x :: x in b.owner && x !in a.owner ==> IsFree(sb, v, x);
  }

  /** Different blocks of a file have different block numbers. */
  lemma AddrsDiffer(sb: Super, v: Disk, a: Abs, i: nat, j: nat, k: nat)
    requires BlocksOk(sb, v, a) && i < sb.ninodes && j < k < |a.file[i]|
    ensures k < MAXFILE && Addr(v, a.ino[i], j) != Addr(v, a.ino[i], k) && Addr(v, a.ino[i], k) != a.ino[i].addrs[NDIRECT]
    ensures Addr(v, a.ino[i], j) != a.ino[i].addrs[NDIRECT]
  {
    assert MappedAt(v, a, i);
  }

  /** A block that a file has gained was nobody's before. */
  lemma GainedFree(sb: Super, v: Disk, a: Abs, w: Disk, b: Abs, i: nat, x: nat)
    requires BlocksOk(sb, v, a) && BlocksOk(sb, w, b) && Extends(a, b) && i < sb.ninodes && x in b.owner && b.owner[x].i == i
    requires if b.owner[x].s == INDIRECT then a.ino[i].addrs[NDIRECT] == 0 else b.owner[x].s >= |a.file[i]|
    ensures x !in a.owner && sb.DataStart() <= x < sb.size
  {
    OwnerSlot(sb, w, b, x);
    if x in a.owner {
      OwnerSlot(sb, v, a, x);
    }
  }

  lemma OwnerSlot(sb: Super, v: Disk, a: Abs, x: nat)
    requires BlocksOk(sb, v, a) && x in a.owner
    ensures sb.DataStart() <= x < sb.size && a.owner[x].i < sb.ninodes
    ensures if a.owner[x].s == INDIRECT then a.ino[a.owner[x].i].addrs[NDIRECT] == x else a.owner[x].s < |a.file[a.owner[x].i]|
  {
    assert HeldAt(sb, v, a, x);
  }

  /** The blocks that writei logs, counted as if no two coincided. */
  function FullCost(d: Dinode, n0: nat, n1: nat, off: nat, n: nat): (k: nat)
    requires d.Ok() && n0 <= n1
  {
    Touched(off, n) + (n1 - n0) + (if n0 < n1 && NDIRECT < n1 then if d.addrs[NDIRECT] == 0 then 2 else 1 else 0) + (if off + n > d.size then 1 else 0)
  }

  function Addrs(v: Disk, d: Dinode, lo: nat, hi: nat): (r: set<nat>)
    requires d.Ok()
  {
    set k | lo <= k < hi && k < MAXFILE :: Addr(v, d, k)
  }

  lemma {:induction false} AddrsSize(sb: Super, v: Disk, a: Abs, i: nat, lo: nat, hi: nat)
    requires BlocksOk(sb, v, a) && i < sb.ninodes && a.ino[i].Ok() && lo <= hi <= |a.file[i]| <= MAXFILE
    ensures |Addrs(v, a.ino[i], lo, hi)| == hi - lo
    decreases hi
  {
    BlocksShape(sb, v, a);
    hide BlocksOk, Addr;
    var d := a.ino[i];
    if lo < hi {
      AddrsSize(sb, v, a, i, lo, hi - 1);
      forall k | lo <= k < hi - 1 ensures Addr(v, d, k) != Addr(v, d, hi - 1) {
        AddrsDiffer(sb, v, a, i, k, hi - 1);
      }
      assert Addrs(v, d, lo, hi) == Addrs(v, d, lo, hi - 1) + {Addr(v, d, hi - 1)};
    } else {
      assert Addrs(v, d, lo, hi) == {};
    }
  }

  lemma DataCount(sb: Super, v: Disk, a: Abs, i: nat, off: nat, n: nat)
    requires BlocksOk(sb, v, a) && i < sb.ninodes && a.ino[i].Ok() && Blocks(off + n) <= |a.file[i]| <= MAXFILE
    ensures |DataLog(v, a.ino[i], off, n)| == Touched(off, n)
    ensures forall x :: x in DataLog(v, a.ino[i], off, n) ==> sb.DataStart() <= x < sb.size && x != a.ino[i].addrs[NDIRECT]
  {
    var d := a.ino[i];
    BlocksShape(sb, v, a);
    hide BlocksOk, Addr;
    var lo, hi := off / BSIZE, if n == 0 then off / BSIZE else Blocks(off + n);
    if n > 0 {
      AddrsSize(sb, v, a, i, lo, hi);
    }
    forall k | lo <= k < hi ensures k < MAXFILE && sb.DataStart() <= Addr(v, d, k) < sb.size && Addr(v, d, k) != d.addrs[NDIRECT] {
      DataAddr(sb, v, a, i, k);
    }
    assert forall k :: 0 <= k < MAXFILE ==> (Touches(off, n, k) <==> lo <= k < hi);
    hide Touches, Blocks;
    assert DataLog(v, d, off, n) == Addrs(v, d, lo, hi);
  }

  lemma DataAddr(sb: Super, v: Disk, a: Abs, i: nat, k: nat)
    requires BlocksOk(sb, v, a) && i < sb.ninodes && k < |a.file[i]|
    ensures k < MAXFILE && sb.DataStart() <= Addr(v, a.ino[i], k) < sb.size && Addr(v, a.ino[i], k) != a.ino[i].addrs[NDIRECT]
    ensures Addr(v, a.ino[i], k) in a.owner && a.owner[Addr(v, a.ino[i], k)] == Slot(i, k)
  {
    assert MappedAt(v, a, i);
    assert HeldAt(sb, v, a, Addr(v, a.ino[i], k));
  }

  /** A block behind the end of the file as it was before. */
  lemma GainedBlock(sb: Super, v: Disk, a: Abs, w: Disk, b: Abs, i: nat, k: nat)
    requires BlocksOk(sb, v, a) && BlocksOk(sb, w, b) && Extends(a, b) && i < sb.ninodes && |a.file[i]| <= k < |b.file[i]|
    ensures k < MAXFILE && Addr(w, b.ino[i], k) in b.owner && Addr(w, b.ino[i], k) !in a.owner && Addr(w, b.ino[i], k) != b.ino[i].addrs[NDIRECT]
    ensures sb.bmapstart <= sb.BBlock(Addr(w, b.ino[i], k)) < sb.DataStart()
  {
    DataAddr(sb, w, b, i, k);
    GainedFree(sb, v, a, w, b, i, Addr(w, b.ino[i], k));
    BBlockRange(sb, Addr(w, b.ino[i], k));
  }

  lemma GainedApart(sb: Super, v: Disk, a: Abs, w: Disk, b: Abs, i: nat, j: nat, k: nat)
    requires BlocksOk(sb, v, a) && BlocksOk(sb, w, b) && Extends(a, b) && Apart(sb, a, b) && i < sb.ninodes && |a.file[i]| <= j < k < |b.file[i]|
    ensures k < MAXFILE && sb.BBlock(Addr(w, b.ino[i], j)) != sb.BBlock(Addr(w, b.ino[i], k))
  {
    hide BlocksOk, Addr, Extends;
    GainedBlock(sb, v, a, w, b, i, j);
    GainedBlock(sb, v, a, w, b, i, k);
    AddrsDiffer(sb, w, b, i, j, k);
  }

  lemma {:induction false} BitsSize(sb: Super, v: Disk, a: Abs, w: Disk, b: Abs, i: nat, hi: nat)
    requires BlocksOk(sb, v, a) && BlocksOk(sb, w, b) && Extends(a, b) && Apart(sb, a, b) && i < sb.ninodes
    requires b.ino[i].Ok() && |a.file[i]| <= hi <= |b.file[i]| <= MAXFILE
    ensures |BitLog(sb, w, b.ino[i], |a.file[i]|, hi)| == hi - |a.file[i]|
    decreases hi
  {
    hide BlocksOk, Addr, Extends, Apart, Super.BBlock, Dinode.Ok;
    BlocksShape(sb, v, a);
    BlocksShape(sb, w, b);
    var d, lo := b.ino[i], |a.file[i]|;
    if lo < hi {
      BitsSize(sb, v, a, w, b, i, hi - 1);
      forall k | lo <= k < hi - 1 ensures sb.BBlock(Addr(w, d, k)) != sb.BBlock(Addr(w, d, hi - 1)) {
        GainedApart(sb, v, a, w, b, i, k, hi - 1);
      }
      assert BitLog(sb, w, d, lo, hi) == BitLog(sb, w, d, lo, hi - 1) + {sb.BBlock(Addr(w, d, hi - 1))};
    } else {
      assert BitLog(sb, w, d, lo, hi) == {};
    }
  }

  lemma BitCount(sb: Super, v: Disk, a: Abs, w: Disk, b: Abs, i: nat)
    requires BlocksOk(sb, v, a) && BlocksOk(sb, w, b) && Extends(a, b) && Apart(sb, a, b) && i < sb.ninodes
    requires b.ino[i].Ok() && |a.file[i]| <= |b.file[i]| <= MAXFILE
    ensures |BitLog(sb, w, b.ino[i], |a.file[i]|, |b.file[i]|)| == |b.file[i]| - |a.file[i]|
    ensures forall x :: x in BitLog(sb, w, b.ino[i], |a.file[i]|, |b.file[i]|) ==> sb.bmapstart <= x < sb.DataStart()
    ensures a.ino[i].addrs[NDIRECT] == 0 != b.ino[i].addrs[NDIRECT] ==>
              sb.BBlock(b.ino[i].addrs[NDIRECT]) !in BitLog(sb, w, b.ino[i], |a.file[i]|, |b.file[i]|)
  {
    BitsSize(sb, v, a, w, b, i, |b.file[i]|);
    if a.ino[i].addrs[NDIRECT] == 0 != b.ino[i].addrs[NDIRECT] {
      assert MappedAt(w, b, i);
      GainedFree(sb, v, a, w, b, i, b.ino[i].addrs[NDIRECT]);
    }
    BlocksShape(sb, v, a);
    hide BlocksOk, Addr;
    forall k | |a.file[i]| <= k < |b.file[i]|
      ensures k < MAXFILE && sb.bmapstart <= sb.BBlock(Addr(w, b.ino[i], k)) < sb.DataStart()
      ensures a.ino[i].addrs[NDIRECT] == 0 != b.ino[i].addrs[NDIRECT] ==> sb.BBlock(Addr(w, b.ino[i], k)) != sb.BBlock(b.ino[i].addrs[NDIRECT])
    {
      GainedBlock(sb, v, a, w, b, i, k);
    }
  }

  /** The parts of the log lie in different regions of the disk: `b0` is the first bitmap block, `d0` the first data block. */
  lemma LogParts(b0: nat, d0: nat, data: set<nat>, bits: set<nat>, x: set<nat>, y: set<nat>, z: set<nat>)
    requires b0 <= d0 && data !! x && bits !! y && (forall k :: k in data || k in x ==> d0 <= k)
    requires (forall k :: k in bits || k in y ==> b0 <= k < d0) && forall k :: k in z ==> k < b0
    ensures |data + (bits + (x + y)) + z| == |data| + |bits| + |x| + |y| + |z|
  {
    var high, low := data + x, bits + y;
    assert high !! low && (high + low) !! z;
    assert data + (bits + (x + y)) + z == high + low + z;
    SumSizes(high, low, z);
  }

  lemma SumSizes(a: set<nat>, b: set<nat>, c: set<nat>)
    requires a !! b && (a + b) !! c
    ensures |a + b + c| == |a| + |b| + |c|
  {
  }

  /** The blocks that a growing file logs, counted. */
  lemma ExactSize(sb: Super, v: Disk, a: Abs, w: Disk, b: Abs, i: nat, off: nat, n: nat)
    requires BlocksOk(sb, v, a) && BlocksOk(sb, w, b) && Extends(a, b) && Apart(sb, a, b) && i < sb.ninodes
    requires |a.file[i]| <= |b.file[i]| && Blocks(off + n) <= |b.file[i]| && a.ino[i].Ok() && b.ino[i].Ok()
    requires b.ino[i].addrs[NDIRECT] != a.ino[i].addrs[NDIRECT] ==> a.ino[i].addrs[NDIRECT] == 0
    ensures |DataLog(w, b.ino[i], off, n) + NewLog(sb, w, a.ino[i], b.ino[i], |a.file[i]|, |b.file[i]|) + if off + n > a.ino[i].size then {sb.IBlock(i)} else {}|
            == FullCost(a.ino[i], |a.file[i]|, |b.file[i]|, off, n)
  {
    BlocksShape(sb, v, a);
    BlocksShape(sb, w, b);
    hide BlocksOk, DataLog, BitLog, Apart, Addr, Touched, Blocks, Extends;
    FileMax(sb, w, b, i);
    DataCount(sb, w, b, i, off, n);
    BitCount(sb, v, a, w, b, i);
    InodeBlock(sb, i);
    var d, e, n0, n1 := a.ino[i], b.ino[i], |a.file[i]|, |b.file[i]|;
    if n0 < n1 && NDIRECT < n1 {
      MapsIndirect(sb, w, b, i);
      IndirectOwned(sb, w, b, i);
      BBlockRange(sb, e.addrs[NDIRECT]);
    }
    CountLog(sb, DataLog(w, e, off, n), BitLog(sb, w, e, n0, n1), NewLog(sb, w, d, e, n0, n1), d, e, n0 < n1 && NDIRECT < n1, sb.IBlock(i), off + n > d.size);
  }

  lemma CountLog(sb: Super, data: set<nat>, bits: set<nat>, log: set<nat>, d: Dinode, e: Dinode, more: bool, iblock: nat, grows: bool)
    requires d.Ok() && e.Ok() && log == bits + (if more then IndirectLog(sb, d, e) else {}) && iblock < sb.bmapstart <= sb.DataStart()
    requires (forall k :: k in data ==> sb.DataStart() <= k && k != e.addrs[NDIRECT]) && forall k :: k in bits ==> sb.bmapstart <= k < sb.DataStart()
    requires more ==> sb.DataStart() <= e.addrs[NDIRECT] && sb.bmapstart <= sb.BBlock(e.addrs[NDIRECT]) < sb.DataStart()
    requires more && d.addrs[NDIRECT] == 0 ==> sb.BBlock(e.addrs[NDIRECT]) !in bits
    ensures |data + log + if grows then {iblock} else {}| ==
            |data| + |bits| + (if more then if d.addrs[NDIRECT] == 0 then 2 else 1 else 0) + if grows then 1 else 0
  {
    var bit, b0, d0 := sb.BBlock(e.addrs[NDIRECT]), sb.bmapstart, sb.DataStart();
    hide Super.BBlock, Super.DataStart;
    var x := if more then {e.addrs[NDIRECT]} else {};
    var y := if more && d.addrs[NDIRECT] == 0 then {bit} else {};
    var z := if grows then {iblock} else {};
    assert log == bits + (x + y);
    LogParts(b0, d0, data, bits, x, y, z);
  }

  /** If the blocks gained lie in different bitmap blocks, the first write of a transaction logs exactly the blocks it is
      charged for. */
  lemma ExactWrite(sb: Super, p: State, q: State, s: nat, off: nat, n: nat)
    requires Loaded(p.icache, s) && Loaded(q.icache, s) && WriteLogged(sb, p, q, s, off, n) && p.lh == [] && |Elems(q.lh)| == |q.lh|
    requires Consistent(sb, p.face.view, p.a, p.stale, p.icache) && Consistent(sb, q.face.view, q.a, q.stale, q.icache)
    requires Apart(sb, p.a, q.a)
    requires var i := p.icache[s].inum; |p.a.file[i]| <= |q.a.file[i]| && Blocks(off + n) <= |q.a.file[i]|
    ensures p.icache[s].d.Ok() && |p.a.file[p.icache[s].inum]| <= |q.a.file[p.icache[s].inum]|
    ensures |q.lh| == FullCost(p.icache[s].d, |p.a.file[p.icache[s].inum]|, |q.a.file[p.icache[s].inum]|, off, n)
  {
    hide Consistent, BlocksOk, DataLog, NewLog, Apart, Addr, FullCost, Blocks;
    SlotHasFile(sb, p, s);
    SlotHasFile(sb, q, s);
    ExactSize(sb, p.face.view, p.a, q.face.view, q.a, p.icache[s].inum, off, n);
    var l := DataLog(q.face.view, q.icache[s].d, off, n);
    assert Elems([]) + l == l;
  }

  /** File `i` ends just behind its tenth block: the next chunk crosses into a new indirect block and needs all its blocks. */
  ghost predicate Edge(a: Abs, i: nat)
  {
    && i < |a.ino| == |a.file| && a.ino[i].typ == T_FILE && a.ino[i].size == 10 * BSIZE + 1 && |a.file[i]| == 11
    && |a.ino[i].addrs| == NDIRECT + 1 && a.ino[i].addrs[NDIRECT] == 0
  }

  /** So the bound on a chunk of filewrite is reached: four allocations in different bitmap blocks make it ten. */
  lemma ChunkReachesBound(sb: Super, p: State, q: State, s: nat)
    requires Loaded(p.icache, s) && Loaded(q.icache, s) && p.lh == [] && |Elems(q.lh)| == |q.lh| && Apart(sb, p.a, q.a)
    requires Consistent(sb, p.face.view, p.a, p.stale, p.icache) && Consistent(sb, q.face.view, q.a, q.stale, q.icache)
    requires Edge(p.a, p.icache[s].inum) && p.icache[s].d == p.a.ino[p.icache[s].inum]
    requires p.icache[s].inum < |q.a.file| && |q.a.file[p.icache[s].inum]| == 14
    requires WriteLogged(sb, p, q, s, 10 * BSIZE + 1, CHUNK)
    ensures |q.lh| == MAXOPBLOCKS
  {
    hide Consistent, WriteLogged, Apart;
    assert Blocks(10 * BSIZE + 1 + CHUNK) == 14;
    ExactWrite(sb, p, q, s, 10 * BSIZE + 1, CHUNK);
  }

  /** This chunk of a write to file `i` starts at the edge, on a disk with scattered free blocks. */
  ghost predicate FullChunk(sb: Super, v: Disk, a: Abs, i: nat, off: nat, n: nat)
  {
    Edge(a, i) && Scattered(sb, v) && off == 10 * BSIZE + 1 && n == CHUNK
  }

  lemma FullChunkFacts(sb: Super, v: Disk, a: Abs, i: nat, off: u32, n: u32)
    requires FullChunk(sb, v, a, i, off, n)
    ensures i < |a.ino| && a.ino[i].typ == T_FILE && !WriteRefused(a.ino[i], off, n) && off == 10 * BSIZE + 1
  {
  }

  lemma FullChunkLog(sb: Super, p: State, q: State, s: nat, src: seq<byte>)
    requires Loaded(p.icache, s) && Loaded(q.icache, s) && p.lh == [] && |Elems(q.lh)| == |q.lh|
    requires Consistent(sb, p.face.view, p.a, p.stale, p.icache) && Consistent(sb, q.face.view, q.a, q.stale, q.icache)
    requires Settled(p.a, p.stale, p.icache) && Settled(q.a, q.stale, q.icache) && FullChunk(sb, p.face.view, p.a, p.icache[s].inum, 10 * BSIZE + 1, |src|)
    requires p.icache[s].d == p.a.ino[p.icache[s].inum] && Overwritten(p.a, q.a, p.icache[s].inum, 10 * BSIZE + 1, src)
    requires WriteLogged(sb, p, q, s, 10 * BSIZE + 1, |src|)
    ensures |q.lh| == MAXOPBLOCKS
  {
    hide Consistent, WriteLogged, Scattered, Alive;
    var i := p.icache[s].inum;
    assert |Overwrite(Content(p.a.file[i], p.a.ino[i].size), 10 * BSIZE + 1, src)| == 10 * BSIZE + 1 + CHUNK;
    assert |q.a.file[i]| == Blocks(q.a.ino[i].size) == 14;
    ConsistentFacts(sb, p.face.view, p.a, p.stale, p.icache);
    ConsistentFacts(sb, q.face.view, q.a, q.stale, q.icache);
    OwnedRange(sb, q.face.view, q.a);
    hide BlocksOk;
    ScatteredApart(sb, p.face.view, p.a, q.a);
    ChunkReachesBound(sb, p, q, s);
  }
}
