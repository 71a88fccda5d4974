/** Files as flat byte sequences, and how block-wise reading and writing looks at that level. */
module FsContent {
  import opened Bytes
  import opened RedoLog
  import opened LogState
  import opened FsFormat
  import opened FsState
  import opened FsSteps
  import opened FsSpec
  import opened FsInodeSteps

  function ByteAt(f: seq<Block>, p: nat): (x: byte)
    requires p < |f| * BSIZE
  {
    f[p / BSIZE][p % BSIZE]
  }

  /** The first `size` bytes of a file. */
  function Content(f: seq<Block>, size: nat): (c: seq<byte>)
    requires size <= |f| * BSIZE
    ensures |c| == size
  {
    seq(size, p requires 0 <= p < size => ByteAt(f, p))
  }

  /** Bytes that lie within one block are a slice of that block. */
  lemma ContentSlice(f: seq<Block>, size: nat, off: nat, m: nat)
    requires size <= |f| * BSIZE && off % BSIZE + m <= BSIZE && off + m <= size && off < size
    ensures off / BSIZE < |f| && Content(f, size)[off..off + m] == f[off / BSIZE][off % BSIZE..off % BSIZE + m]
  {
    var bn, o := off / BSIZE, off % BSIZE;
    assert off == bn * BSIZE + o;
    var c, b := Content(f, size)[off..off + m], f[bn][o..o + m];
    forall k | 0 <= k < m ensures c[k] == b[k] {
      assert (off + k) / BSIZE == bn && (off + k) % BSIZE == o + k;
      assert c[k] == ByteAt(f, off + k);
    }
  }

  /** One more step of the loop in readi. */
  lemma ReadMore(f: seq<Block>, size: nat, off: nat, tot: nat, m: nat)
    requires size <= |f| * BSIZE && off + tot + m <= size && off + tot < size && (off + tot) % BSIZE + m <= BSIZE
    ensures (off + tot) / BSIZE < |f|
    ensures Content(f, size)[off..off + tot + m] ==
            Content(f, size)[off..off + tot] + f[(off + tot) / BSIZE][(off + tot) % BSIZE..(off + tot) % BSIZE + m]
  {
    ContentSlice(f, size, off + tot, m);
  }

  /** `g` is `f` after writing `src` from byte `off` on; a byte neither written nor there before is zero. */
  ghost predicate Wrote(f: seq<Block>, g: seq<Block>, off: nat, src: seq<byte>)
  {
    && |g| == (if src != [] && Blocks(off + |src|) > |f| then Blocks(off + |src|) else |f|)
    && forall p :: 0 <= p < |g| * BSIZE ==> WroteAt(f, g, off, src, p)
  }

  ghost predicate WroteAt(f: seq<Block>, g: seq<Block>, off: nat, src: seq<byte>, p: nat)
    requires p < |g| * BSIZE
  {
    ByteAt(g, p) == if off <= p < off + |src| then src[p - off] else if p < |f| * BSIZE then ByteAt(f, p) else 0
  }

  /** File `f` with `t` written at `o` of block `bn`, which may be the one behind the last. */
  function Patched(f: seq<Block>, bn: nat, o: nat, t: seq<byte>): (g: seq<Block>)
    requires bn <= |f| && o + |t| <= BSIZE
  {
    if bn < |f| then SetBlock(f, bn, Splice(f[bn], o, t)) else f + [Splice(ZERO, o, t)]
  }

  /** One more step of the loop in writei. */
  lemma WroteMore(f: seq<Block>, g: seq<Block>, off: nat, src: seq<byte>, tot: nat, m: nat)
    requires tot + m <= |src| && 0 < m && (off + tot) % BSIZE + m <= BSIZE && off <= |f| * BSIZE && Wrote(f, g, off, src[..tot])
    ensures (off + tot) / BSIZE <= |g|
    ensures Wrote(f, Patched(g, (off + tot) / BSIZE, (off + tot) % BSIZE, src[tot..tot + m]), off, src[..tot + m])
  {
    var bn, o := (off + tot) / BSIZE, (off + tot) % BSIZE;
    assert off + tot == bn * BSIZE + o;
    PatchedSize(f, g, off, src, tot, m);
    var h, t := Patched(g, bn, o, src[tot..tot + m]), src[..tot + m];
    forall p | 0 <= p < |h| * BSIZE ensures WroteAt(f, h, off, t, p) {
      PatchedAt(g, bn, o, src[tot..tot + m], p);
      if p < |g| * BSIZE {
        assert WroteAt(f, g, off, src[..tot], p);
      }
    }
  }

  lemma PatchedSize(f: seq<Block>, g: seq<Block>, off: nat, src: seq<byte>, tot: nat, m: nat)
    requires tot + m <= |src| && 0 < m && (off + tot) % BSIZE + m <= BSIZE && off <= |f| * BSIZE && Wrote(f, g, off, src[..tot])
    ensures (off + tot) / BSIZE <= |g| && |f| <= |g|
    ensures |Patched(g, (off + tot) / BSIZE, (off + tot) % BSIZE, src[tot..tot + m])| ==
            if Blocks(off + tot + m) > |f| then Blocks(off + tot + m) else |f|
  {
    hide WroteAt;
    assert src[..tot] == [] <==> tot == 0;
  }

  lemma PatchedAt(g: seq<Block>, bn: nat, o: nat, t: seq<byte>, p: nat)
    requires bn <= |g| && o + |t| <= BSIZE && p < |Patched(g, bn, o, t)| * BSIZE
    ensures ByteAt(Patched(g, bn, o, t), p) ==
            if bn * BSIZE + o <= p < bn * BSIZE + o + |t| then t[p - bn * BSIZE - o] else if p < |g| * BSIZE then ByteAt(g, p) else 0
  {
    assert p == p / BSIZE * BSIZE + p % BSIZE;
  }

  /** How many of the `left` bytes from `at` on lie in the same block. */
  function Piece(at: nat, left: nat): (m: nat)
    requires left > 0
    ensures 0 < m <= left && at % BSIZE + m <= BSIZE && (m == left || (at + m) % BSIZE == 0)
  {
    if left < BSIZE - at % BSIZE then left else BSIZE - at % BSIZE
  }

  /** What writing does to a flat byte sequence. */
  function Overwrite(c: seq<byte>, off: nat, src: seq<byte>): (r: seq<byte>)
    requires off <= |c|
  {
    c[..off] + src + if off + |src| < |c| then c[off + |src|..] else []
  }

  /** Block-wise writing refines overwriting the flat contents. */
  lemma WroteContent(f: seq<Block>, g: seq<Block>, size: nat, off: nat, src: seq<byte>)
    requires |f| == Blocks(size) && off <= size && Wrote(f, g, off, src)
    ensures var size' := if off + |src| > size then off + |src| else size;
            |g| == Blocks(size') && Content(g, size') == Overwrite(Content(f, size), off, src)
  {
    var size' := if off + |src| > size then off + |src| else size;
    assert |g| == Blocks(size');
    var c, r := Content(g, size'), Overwrite(Content(f, size), off, src);
    assert |c| == |r|;
    forall p | 0 <= p < size' ensures c[p] == r[p] {
      assert WroteAt(f, g, off, src, p);
    }
  }

  lemma WroteNothing(f: seq<Block>, off: nat)
    ensures Wrote(f, f, off, [])
  {
  }

  const NDEV := 10

  /** An entry of devsw: no handler, or one and what it would return. */
  datatype Handler = NoHandler | Returns(r: int)

  type Devsw = s: seq<Handler> | |s| == NDEV witness seq(NDEV, _ => NoHandler)

  /** What the drivers would answer if they were called now. */
  datatype Dev = Dev(devsw: Devsw)
  {
    predicate Handles(major: int)
    {
      0 <= major < NDEV && devsw[major].Returns?
    }

    /** The answer of the driver with that number, -1 if there is none. */
    function Answer(major: int): (r: int)
    {
      if Handles(major) then devsw[major].r else -1
    }
  }

  /** `off + n` does not fit into 32 bits. */
  predicate Wraps(off: u32, n: u32)
  {
    (off + n) % 0x1_0000_0000 < off
  }

  lemma WrapsExactly(off: u32, n: u32)
    ensures Wraps(off, n) <==> off + n >= 0x1_0000_0000
  {
  }

  /** What readi promises about its result `r` and the bytes `dst` it delivers. */
  ghost predicate ReadOf(d: Dinode, f: seq<Block>, off: u32, n: u32, dev: Dev, r: int, dst: seq<byte>)
  {
    if d.typ == T_DEV then r == dev.Answer(d.major) && dst == []
    else if off > d.size || off + n >= 0x1_0000_0000 || d.nlink < 1 then r == -1 && dst == []
    else
      && d.size <= |f| * BSIZE && r == |dst|
      && dst == Content(f, d.size)[off..if off + n > d.size then d.size else off + n]
  }

  /** writei refuses. */
  predicate WriteRefused(d: Dinode, off: u32, n: u32)
  {
    off > d.size || off + n >= 0x1_0000_0000 || off + n > MAXFILE * BSIZE
  }

  /** How many blocks the bytes from `off` to `off + n` touch. */
  function Touched(off: nat, n: nat): (k: nat)
  {
    if n == 0 then 0 else Blocks(off + n) - off / BSIZE
  }

  /** Most blocks that writei adds to a transaction: each touched block, a bitmap block for each new one,
      the indirect block with its bitmap block, and the inode block. */
  function WriteCost(size: nat, off: nat, n: nat): (k: nat)
  {
    if n == 0 then 0 else
      Touched(off, n) + (if Blocks(off + n) > Blocks(size) then Blocks(off + n) - Blocks(size) else 0) + 3
  }

  /** What writei promises when it writes: one file changes, and it changes by overwriting. */
  ghost predicate Written(p: State, q: State, s: nat, off: nat, src: seq<byte>)
    requires Loaded(p.icache, s) && p.icache[s].inum < |p.a.ino| == |p.a.file|
  {
    var i, d := p.icache[s].inum, p.a.ino[p.icache[s].inum];
    && |q.a.ino| == |q.a.file| == |p.a.ino| && q.a.file == p.a.file[i := q.a.file[i]] && Wrote(p.a.file[i], q.a.file[i], off, src)
    && q.a.ino == p.a.ino[i := q.a.ino[i]] && q.a.limbo == p.a.limbo && q.stale == p.stale
    && q.a.ino[i] == d.(size := q.a.ino[i].size, addrs := q.a.ino[i].addrs) && q.a.ino[i].size == (if off + |src| > d.size then off + |src| else d.size)
    && q.icache == p.icache[s := p.icache[s].(d := q.a.ino[i])] && Quiet(p.face, q.face)
    && Grew(p.lh, q.lh, WriteCost(d.size, off, |src|))
  }

  lemma SizedFacts(sb: Super, v: Disk, a: Abs, stale: set<nat>, icache: seq<Inode>, s: nat)
    requires Consistent(sb, v, a, stale, icache) && Settled(a, stale, icache) && Loaded(icache, s)
    ensures sb.Ok() && |v| == sb.size && icache[s].inum < sb.ninodes == |a.ino| == |a.file| && icache[s].d == a.ino[icache[s].inum]
    ensures var i := icache[s].inum; |a.file[i]| == Blocks(a.ino[i].size) && a.ino[i].size <= MAXFILE * BSIZE && a.ino[i].Ok()
    ensures icache[s].d.typ != 0 && stale == {} && a.limbo == {}
  {
    ConsistentFacts(sb, v, a, stale, icache);
    CacheSlot(sb, a, icache, s);
  }

  // writei, block by block.

  /** One block of the file of slot `s` has been overwritten in part, or a new one appended. */
  ghost predicate BlockPut(p: State, q: State, s: nat, bn: nat, o: nat, t: seq<byte>)
    requires Loaded(p.icache, s) && p.icache[s].inum < |p.a.ino| == |p.a.file| && bn <= |p.a.file[p.icache[s].inum]| && o + |t| <= BSIZE
  {
    var i := p.icache[s].inum;
    && |q.a.ino| == |p.a.ino| && q.a.file == p.a.file[i := Patched(p.a.file[i], bn, o, t)]
    && q.a.ino == p.a.ino[i := q.a.ino[i]] && q.a.ino[i] == p.a.ino[i].(addrs := q.a.ino[i].addrs) && q.a.limbo == p.a.limbo
    && q.icache == p.icache[s := p.icache[s].(d := q.a.ino[i])] && Quiet(p.face, q.face)
    && q.stale == p.stale + (if bn < |p.a.file[i]| then {} else {i})
    && p.lh <= q.lh
    && |q.lh| + Credit(q.icache[s].d, q.lh) <= |p.lh| + Credit(p.icache[s].d, p.lh) + if bn < |p.a.file[i]| then 1 else 2
  }

  /** New contents for an existing data block, for the whole state. */
  lemma WriteAll(q: State, sb: Super, s: nat, bn: nat, blk: Block)
    requires Loaded(q.icache, s) && Consistent(sb, q.face.view, q.a, q.stale, q.icache)
    requires q.icache[s].inum < |q.a.file| && bn < |q.a.file[q.icache[s].inum]| && bn < MAXFILE
    ensures q.icache[s].d.Ok() && q.icache[s].inum < |q.a.ino| && q.icache[s].d == q.a.ino[q.icache[s].inum]
    ensures var x := Addr(q.face.view, q.icache[s].d, bn);
            && sb.DataStart() <= x < |q.face.view| && !sb.LogArea().Has(x)
            && q.face.view[x] == q.a.file[q.icache[s].inum][bn]
            && Consistent(sb, q.face.view[x := blk], Rewritten(q.a, q.icache[s].inum, bn, blk), q.stale, q.icache)
  {
    var v, a, i := q.face.view, q.a, q.icache[s].inum;
    ConsistentFacts(sb, v, a, q.stale, q.icache);
    CacheSlot(sb, a, q.icache, s);
    FileFacts(sb, v, a, q.icache, s, bn);
    hide BlocksOk, Synced, Cached, Addr;
    var x := Addr(v, q.icache[s].d, bn);
    WriteData(sb, v, a, i, bn, blk);
    BlocksShape(sb, v[x := blk], Rewritten(a, i, bn, blk));
    SyncedSame(sb, v, v[x := blk], a, Rewritten(a, i, bn, blk), q.stale);
    CachedSame(sb, a, Rewritten(a, i, bn, blk), q.icache);
  }

  /** bmap followed by the write. */
  lemma PutStep(p: State, q: State, z: State, s: nat, bn: nat, o: nat, t: seq<byte>, x: nat)
    requires Loaded(p.icache, s) && p.icache[s].inum < |p.a.ino| == |p.a.file| && bn <= |p.a.file[p.icache[s].inum]| && o + |t| <= BSIZE
    requires p.a.ino[p.icache[s].inum] == p.icache[s].d
    requires p.face.Ok() && Bmapped(p, q, s, bn, x) && Loaded(q.icache, s)
    requires q.icache[s].inum < |q.a.file| && bn < |q.a.file[q.icache[s].inum]|
    requires z == q.(face := z.face, lh := Absorb(q.lh, x), a := Rewritten(q.a, q.icache[s].inum, bn, Splice(q.a.file[q.icache[s].inum][bn], o, t)))
    requires Quiet(q.face, z.face)
    ensures BlockPut(p, z, s, bn, o, t)
  {
    var i := p.icache[s].inum;
    if bn < |p.a.file[i]| {
      assert p.icache == p.icache[s := p.icache[s].(d := z.a.ino[i])];
    } else {
      assert q.a.file[i] == p.a.file[i] + [ZERO];
      assert z.a.file[i] == Patched(p.a.file[i], bn, o, t);
    }
  }

  /** writei after `tot` bytes. */
  ghost predicate Writing(p: State, q: State, s: nat, off: nat, src: seq<byte>, tot: nat)
    requires Loaded(p.icache, s) && p.icache[s].inum < |p.a.ino| == |p.a.file| && tot <= |src|
  {
    var i := p.icache[s].inum;
    && |q.a.ino| == |q.a.file| == |p.a.ino| && q.a.file == p.a.file[i := q.a.file[i]] && Wrote(p.a.file[i], q.a.file[i], off, src[..tot])
    && q.a.ino == p.a.ino[i := q.a.ino[i]] && q.a.ino[i] == p.a.ino[i].(addrs := q.a.ino[i].addrs) && q.a.limbo == p.a.limbo
    && q.icache == p.icache[s := p.icache[s].(d := q.a.ino[i])] && Quiet(p.face, q.face)
    && q.stale == p.stale + (if |q.a.file[i]| == |p.a.file[i]| then {} else {i})
    && p.lh <= q.lh && |q.lh| + Credit(q.icache[s].d, q.lh) <= |p.lh| + 2 + Touched(off, tot) + |q.a.file[i]| - |p.a.file[i]|
  }

  lemma WritingStart(p: State, s: nat, off: nat, src: seq<byte>)
    requires Loaded(p.icache, s) && p.icache[s].inum < |p.a.ino| == |p.a.file| && p.icache[s].d == p.a.ino[p.icache[s].inum] && p.face.Ok()
    ensures Writing(p, p, s, off, src, 0) && Between(off, 0, |src|)
  {
    WroteNothing(p.a.file[p.icache[s].inum], off);
    assert p.icache == p.icache[s := p.icache[s].(d := p.a.ino[p.icache[s].inum])];
    assert src[..0] == [];
  }

  /** Blocks touched so far, one more after each step. */
  lemma TouchedMore(off: nat, tot: nat, m: nat)
    requires 0 < m && (off + tot) % BSIZE + m <= BSIZE && (tot == 0 || (off + tot) % BSIZE == 0)
    ensures Touched(off, tot + m) == Touched(off, tot) + 1
  {
  }

  /** Where the loop of writei can be after `tot` of `n` bytes: at the start, at the end or between two blocks. */
  predicate Between(off: nat, tot: nat, n: nat)
  {
    tot == 0 || tot == n || (off + tot) % BSIZE == 0
  }

  /** The next step stays within one block, and ends where a step can start. */
  lemma NextPiece(off: nat, tot: nat, n: nat)
    requires tot < n && Between(off, tot, n) && off + n <= MAXFILE * BSIZE
    ensures var m := Piece(off + tot, n - tot);
            && 0 < m <= n - tot && (off + tot) % BSIZE + m <= BSIZE && (off + tot) / BSIZE < MAXFILE && Between(off, tot + m, n)
  {
  }

  lemma WritingMore(p: State, q: State, z: State, s: nat, off: nat, src: seq<byte>, tot: nat, m: nat)
    requires Loaded(p.icache, s) && p.icache[s].inum < |p.a.ino| == |p.a.file| && off <= |p.a.file[p.icache[s].inum]| * BSIZE
    requires tot + m <= |src| && 0 < m && (off + tot) % BSIZE + m <= BSIZE && Between(off, tot, |src|)
    requires Writing(p, q, s, off, src, tot)
    requires (off + tot) / BSIZE <= |q.a.file[p.icache[s].inum]|
    requires BlockPut(q, z, s, (off + tot) / BSIZE, (off + tot) % BSIZE, src[tot..tot + m])
    ensures Writing(p, z, s, off, src, tot + m)
  {
    hide Wrote;
    var i, bn := p.icache[s].inum, (off + tot) / BSIZE;
    WroteMore(p.a.file[i], q.a.file[i], off, src, tot, m);
    TouchedMore(off, tot, m);
    WroteLonger(p.a.file[i], q.a.file[i], off, src[..tot]);
    assert |z.a.file[i]| == if bn < |q.a.file[i]| then |q.a.file[i]| else |q.a.file[i]| + 1;
  }

  lemma WroteLonger(f: seq<Block>, g: seq<Block>, off: nat, src: seq<byte>)
    requires Wrote(f, g, off, src)
    ensures |f| <= |g|
  {
  }

  /** The loop never needs more room than the whole write costs. */
  lemma WritingRoom(p: State, q: State, s: nat, off: nat, src: seq<byte>, tot: nat)
    requires Loaded(p.icache, s) && p.icache[s].inum < |p.a.ino| == |p.a.file| && tot <= |src| && src != []
    requires Writing(p, q, s, off, src, tot) && |p.a.file[p.icache[s].inum]| == Blocks(p.icache[s].d.size)
    requires Between(off, tot, |src|)
    ensures |q.lh| + (if tot < |src| then 2 else 1) <= |p.lh| + WriteCost(p.icache[s].d.size, off, |src|)
    ensures off <= p.icache[s].d.size && tot < |src| ==> (off + tot) / BSIZE <= |q.a.file[p.icache[s].inum]|
    ensures off + tot < p.icache[s].d.size ==> (off + tot) / BSIZE < |q.a.file[p.icache[s].inum]|
  {
    hide WroteAt;
  }

  lemma WritingFacts(p: State, q: State, s: nat, off: nat, src: seq<byte>, tot: nat)
    requires Loaded(p.icache, s) && p.icache[s].inum < |p.a.ino| == |p.a.file| && tot <= |src| && Writing(p, q, s, off, src, tot)
    ensures Loaded(q.icache, s) && q.icache[s].inum == p.icache[s].inum && q.face.held == p.face.held
    ensures q.face.disk == p.face.disk && q.face.trace == p.face.trace
    ensures p.icache[s].inum < |q.a.file| == |q.a.ino| && q.stale <= p.stale + {p.icache[s].inum}
    ensures p.icache[s].d == p.a.ino[p.icache[s].inum] ==> q.icache[s].d.size == p.icache[s].d.size
    ensures p.icache[s].d == p.a.ino[p.icache[s].inum] ==> q.icache[s].d == q.a.ino[p.icache[s].inum]
  {
  }

  /** The size goes up if the write went past the end, and then the inode is written through. */
  lemma WritingDone(p: State, q: State, s: nat, off: nat, src: seq<byte>, sb: Super, z: State)
    requires Loaded(p.icache, s) && p.icache[s].inum < |p.a.ino| == |p.a.file| && Writing(p, q, s, off, src, |src|) && src != []
    requires Settled(p.a, p.stale, p.icache) && off <= p.icache[s].d.size && p.icache[s].d == p.a.ino[p.icache[s].inum]
    requires off + |src| <= MAXFILE * BSIZE
    requires var i, d := p.icache[s].inum, q.a.ino[p.icache[s].inum].(size := off + |src|);
             if off + |src| <= p.icache[s].d.size then z == q
             else
               && z == q.(face := z.face, lh := z.lh, a := WithInode(q.a, i, d), stale := {}, icache := q.icache[s := q.icache[s].(d := d)])
               && Quiet(q.face, z.face) && Grew(q.lh, z.lh, 1)
    ensures Written(p, z, s, off, src) && Settled(z.a, z.stale, z.icache)
  {
    var i := p.icache[s].inum;
    hide WroteAt;
    assert src[..|src|] == src;
    assert Wrote(p.a.file[i], z.a.file[i], off, src);
    WroteLonger(p.a.file[i], z.a.file[i], off, src);
    assert |z.a.file[i]| == Blocks(z.a.ino[i].size);
    WritingRoom(p, q, s, off, src, |src|);
    assert Alive(z.a, z.icache);
  }

  // Exactly which blocks a write adds to the transaction.

  /** Block `bn` of a file holds one of the `n` bytes from `off` on. */
  predicate Touches(off: nat, n: nat, bn: nat)
  {
    0 < n && off / BSIZE <= bn < Blocks(off + n) && bn < MAXFILE
  }

  /** The data blocks that hold these bytes. */
  function DataLog(v: Disk, d: Dinode, off: nat, n: nat): (r: set<nat>)
    requires d.Ok()
  {
    set bn | 0 <= bn < MAXFILE && Touches(off, n, bn) :: Addr(v, d, bn)
  }

  /** The bitmap blocks of file blocks `n0` to `n1`. */
  function BitLog(sb: Super, v: Disk, d: Dinode, n0: nat, n1: nat): (r: set<nat>)
    requires d.Ok()
  {
    set bn | n0 <= bn < n1 && bn < MAXFILE :: sb.BBlock(Addr(v, d, bn))
  }

  /** What growing a file from `n0` to `n1` blocks logs beside the data blocks; `d` is the inode before, `e` afterwards. */
  function NewLog(sb: Super, v: Disk, d: Dinode, e: Dinode, n0: nat, n1: nat): (r: set<nat>)
    requires d.Ok() && e.Ok()
  {
    BitLog(sb, v, e, n0, n1) + if n0 < n1 && NDIRECT < n1 then IndirectLog(sb, d, e) else {}
  }

  /** The inode and the number of blocks in slot `s`. */
  ghost predicate HasFile(p: State, s: nat)
  {
    Loaded(p.icache, s) && p.icache[s].inum < |p.a.file| == |p.a.ino| && p.icache[s].d.Ok() && p.icache[s].d == p.a.ino[p.icache[s].inum]
  }

  /** What one pass of the loop in writei adds. */
  ghost predicate PutLogged(sb: Super, p: State, q: State, s: nat, bn: nat)
  {
    && HasFile(p, s) && HasFile(q, s) && q.icache[s].inum == p.icache[s].inum && bn < MAXFILE && Extends(p.a, q.a)
    && var d, e, n := p.icache[s].d, q.icache[s].d, |p.a.file[p.icache[s].inum]|;
    && (e.addrs[NDIRECT] != d.addrs[NDIRECT] ==> d.addrs[NDIRECT] == 0 && bn >= NDIRECT && bn >= n)
    && Elems(q.lh) == Elems(p.lh) + {Addr(q.face.view, e, bn)} + if bn < n then {} else GrowLog(sb, q.face.view, d, e, bn)
  }

  /** What writing `n` bytes from `off` on has added. */
  ghost predicate WroteLogged(sb: Super, p: State, q: State, s: nat, off: nat, n: nat)
  {
    && HasFile(p, s) && HasFile(q, s) && q.icache[s].inum == p.icache[s].inum && Extends(p.a, q.a)
    && var i, d, e := p.icache[s].inum, p.icache[s].d, q.icache[s].d;
    && (e.addrs[NDIRECT] != d.addrs[NDIRECT] ==> d.addrs[NDIRECT] == 0 && NDIRECT < |q.a.file[i]| && |p.a.file[i]| < |q.a.file[i]|)
    && Elems(q.lh) == Elems(p.lh) + DataLog(q.face.view, e, off, n) + NewLog(sb, q.face.view, d, e, |p.a.file[i]|, |q.a.file[i]|)
  }

  lemma LoggedStart(sb: Super, p: State, s: nat, off: nat)
    requires HasFile(p, s)
    ensures WroteLogged(sb, p, p, s, off, 0)
  {
  }

  /** bmap followed by the write. */
  lemma LoggedPut(sb: Super, p: State, q: State, z: State, s: nat, bn: nat, x: nat)
    requires HasFile(p, s) && HasFile(q, s) && q.icache[s].inum == p.icache[s].inum && Grown(sb, p, q, s, bn) && x == Addr(q.face.view, q.icache[s].d, bn)
    requires bn < |q.a.file[q.icache[s].inum]| && q.icache[s].inum < sb.ninodes
    requires BlocksOk(sb, q.face.view, q.a) && BlocksOk(sb, z.face.view, z.a)
    requires z.icache == q.icache && z.a.ino == q.a.ino && |z.a.file| == |q.a.file| && z.a.owner == q.a.owner && z.lh == Absorb(q.lh, x)
    ensures PutLogged(sb, p, z, s, bn)
  {
    AddrKept(sb, q.face.view, q.a, z.face.view, z.a, q.icache[s].inum, bn);
    AbsorbElems(q.lh, x);
    hide BlocksOk, Addr, Absorb;
  }

  /** One more pass. */
  lemma LoggedMore(sb: Super, p: State, q: State, z: State, s: nat, off: nat, tot: nat, m: nat)
    requires WroteLogged(sb, p, q, s, off, tot) && PutLogged(sb, q, z, s, (off + tot) / BSIZE)
    requires 0 < m && (off + tot) % BSIZE + m <= BSIZE && (tot == 0 || (off + tot) % BSIZE == 0)
    requires BlocksOk(sb, q.face.view, q.a) && BlocksOk(sb, z.face.view, z.a) && p.icache[s].inum < sb.ninodes
    requires var i, bn := p.icache[s].inum, (off + tot) / BSIZE;
             && |p.a.file[i]| <= |q.a.file[i]| && bn <= |q.a.file[i]| && |z.a.file[i]| == (if bn < |q.a.file[i]| then |q.a.file[i]| else bn + 1)
             && (tot > 0 ==> Blocks(off + tot) <= |q.a.file[i]|)
    ensures WroteLogged(sb, p, z, s, off, tot + m)
  {
    var i, bn, d, e, g := p.icache[s].inum, (off + tot) / BSIZE, p.icache[s].d, q.icache[s].d, z.icache[s].d;
    var n, n', n'' := |p.a.file[i]|, |q.a.file[i]|, |z.a.file[i]|;
    var v, w := q.face.view, z.face.view;
    hide BlocksOk, Addr, Elems, DataLog, NewLog, GrowLog, Touches;
    AddrsKept(sb, v, q.a, w, z.a, i);
    assert Extends(p.a, z.a);
    hide Extends;
    UnionMore(sb, Elems(p.lh), Elems(q.lh), Elems(z.lh), v, w, d, e, g, n, n', bn, off, tot, m);
  }

  lemma AddrsKept(sb: Super, v: Disk, a: Abs, w: Disk, b: Abs, i: nat)
    requires BlocksOk(sb, v, a) && BlocksOk(sb, w, b) && Extends(a, b) && i < sb.ninodes
    ensures i < |a.ino| == |a.file| && i < |b.ino| && a.ino[i].Ok() && b.ino[i].Ok() && |a.file[i]| <= MAXFILE
    ensures forall k :: 0 <= k < |a.file[i]| ==> Addr(w, b.ino[i], k) == Addr(v, a.ino[i], k)
    ensures |a.file[i]| > NDIRECT ==> a.ino[i].addrs[NDIRECT] != 0
  {
    FileMax(sb, v, a, i);
    if |a.file[i]| > NDIRECT {
      MapsIndirect(sb, v, a, i);
    }
    BlocksShape(sb, v, a);
    BlocksShape(sb, w, b);
    hide BlocksOk;
    forall k | 0 <= k < |a.file[i]| ensures Addr(w, b.ino[i], k) == Addr(v, a.ino[i], k) {
      AddrKept(sb, v, a, w, b, i, k);
    }
  }

  /** The same in terms of sets of blocks: `x` before the write, `y` before and `z` after this pass. */
  lemma UnionMore(sb: Super, x: set<nat>, y: set<nat>, z: set<nat>, v: Disk, w: Disk, d: Dinode, e: Dinode, g: Dinode, n: nat, n': nat, bn: nat, off: nat, tot: nat, m: nat)
    requires d.Ok() && e.Ok() && g.Ok() && n <= n' && bn == (off + tot) / BSIZE <= n' <= MAXFILE && bn < MAXFILE
    requires 0 < m && (off + tot) % BSIZE + m <= BSIZE && (tot == 0 || (off + tot) % BSIZE == 0) && (tot > 0 ==> Blocks(off + tot) <= n')
    requires forall k :: 0 <= k < n' ==> Addr(w, g, k) == Addr(v, e, k)
    requires g.addrs[NDIRECT] != e.addrs[NDIRECT] ==> e.addrs[NDIRECT] == 0 && bn >= NDIRECT && bn >= n'
    requires e.addrs[NDIRECT] != d.addrs[NDIRECT] ==> d.addrs[NDIRECT] == 0 && NDIRECT < n' && n < n'
    requires n' > NDIRECT ==> e.addrs[NDIRECT] != 0
    requires y == x + DataLog(v, e, off, tot) + NewLog(sb, v, d, e, n, n')
    requires z == y + {Addr(w, g, bn)} + if bn < n' then {} else GrowLog(sb, w, e, g, bn)
    ensures z == x + DataLog(w, g, off, tot + m) + NewLog(sb, w, d, g, n, if bn < n' then n' else bn + 1)
  {
    hide Addr;
    DataMore(v, e, w, g, off, tot, m);
    NewMore(sb, v, w, d, e, g, n, n', bn);
    hide DataLog, NewLog, GrowLog, Blocks, Touches;
    if bn < n' {
      SameUnion(x, DataLog(v, e, off, tot), NewLog(sb, v, d, e, n, n'), Addr(w, g, bn));
    } else {
      MoreUnion(x, DataLog(v, e, off, tot), NewLog(sb, v, d, e, n, n'), Addr(w, g, bn), GrowLog(sb, w, e, g, bn), NewLog(sb, w, d, g, n, n' + 1));
    }
  }

  lemma SameUnion(a: set<nat>, b: set<nat>, c: set<nat>, x: nat)
    ensures a + b + c + {x} + {} == a + (b + {x}) + c
  {
  }

  lemma MoreUnion(a: set<nat>, b: set<nat>, c: set<nat>, x: nat, grow: set<nat>, more: set<nat>)
    requires more + {x} == c + grow
    ensures a + b + c + {x} + grow == a + (b + {x}) + more
  {
    assert a + b + c + {x} + grow == a + b + {x} + (c + grow);
  }

  lemma DataMore(v: Disk, e: Dinode, w: Disk, g: Dinode, off: nat, tot: nat, m: nat)
    requires e.Ok() && g.Ok() && 0 < m && (off + tot) % BSIZE + m <= BSIZE && (tot == 0 || (off + tot) % BSIZE == 0) && (off + tot) / BSIZE < MAXFILE
    requires forall k :: 0 <= k < MAXFILE && Touches(off, tot, k) ==> Addr(w, g, k) == Addr(v, e, k)
    ensures DataLog(w, g, off, tot + m) == DataLog(v, e, off, tot) + {Addr(w, g, (off + tot) / BSIZE)}
  {
    var bn := (off + tot) / BSIZE;
    assert forall k :: 0 <= k < MAXFILE ==> (Touches(off, tot + m, k) <==> Touches(off, tot, k) || k == bn);
    hide Touches, Addr;
  }

  lemma NewMore(sb: Super, v: Disk, w: Disk, d: Dinode, e: Dinode, g: Dinode, n: nat, n': nat, bn: nat)
    requires d.Ok() && e.Ok() && g.Ok() && n <= n' && bn <= n' <= MAXFILE && bn < MAXFILE
    requires forall k :: 0 <= k < n' ==> Addr(w, g, k) == Addr(v, e, k)
    requires g.addrs[NDIRECT] != e.addrs[NDIRECT] ==> e.addrs[NDIRECT] == 0 && bn >= NDIRECT && bn >= n'
    requires e.addrs[NDIRECT] != d.addrs[NDIRECT] ==> d.addrs[NDIRECT] == 0 && NDIRECT < n' && n < n'
    requires n' > NDIRECT ==> e.addrs[NDIRECT] != 0
    ensures bn < n' ==> NewLog(sb, w, d, g, n, n') == NewLog(sb, v, d, e, n, n')
    ensures bn == n' ==> NewLog(sb, w, d, g, n, n' + 1) + {Addr(w, g, bn)} == NewLog(sb, v, d, e, n, n') + GrowLog(sb, w, e, g, bn)
  {
    assert BitLog(sb, w, g, n, n') == BitLog(sb, v, e, n, n');
    if bn == n' {
      assert BitLog(sb, w, g, n, n' + 1) == BitLog(sb, w, g, n, n') + {sb.BBlock(Addr(w, g, bn))};
    }
    hide Addr, BitLog;
  }

  /** What writei adds to the transaction: the data blocks touched, what growing the file takes, and the inode block
      if the size changes. */
  ghost predicate WriteLogged(sb: Super, p: State, q: State, s: nat, off: nat, n: nat)
  {
    && HasFile(p, s) && HasFile(q, s) && q.icache[s].inum == p.icache[s].inum && Extends(p.a, q.a)
    && var i, d, e := p.icache[s].inum, p.icache[s].d, q.icache[s].d;
    && (e.addrs[NDIRECT] != d.addrs[NDIRECT] ==> d.addrs[NDIRECT] == 0)
    && Elems(q.lh) == Elems(p.lh) + DataLog(q.face.view, e, off, n) + NewLog(sb, q.face.view, d, e, |p.a.file[i]|, |q.a.file[i]|)
                      + if off + n > d.size then {sb.IBlock(i)} else {}
  }

  lemma SlotHasFile(sb: Super, p: State, s: nat)
    requires Loaded(p.icache, s) && Consistent(sb, p.face.view, p.a, p.stale, p.icache)
    ensures HasFile(p, s) && p.icache[s].inum < sb.ninodes && BlocksOk(sb, p.face.view, p.a)
  {
    ConsistentFacts(sb, p.face.view, p.a, p.stale, p.icache);
    CacheSlot(sb, p.a, p.icache, s);
    BlocksShape(sb, p.face.view, p.a);
  }

  /** bmap, then the new contents of the block. */
  lemma PutIsLogged(sb: Super, p: State, q: State, z: State, s: nat, bn: nat, x: nat)
    requires Loaded(p.icache, s) && Consistent(sb, p.face.view, p.a, p.stale, p.icache)
    requires p.icache[s].inum < |p.a.file| && Bmapped(p, q, s, bn, x) && Grown(sb, p, q, s, bn)
    requires Loaded(q.icache, s) && Consistent(sb, q.face.view, q.a, q.stale, q.icache) && q.icache[s].inum == p.icache[s].inum < |q.a.file|
    requires bn < |q.a.file[q.icache[s].inum]| && Consistent(sb, z.face.view, z.a, z.stale, z.icache)
    requires z.icache == q.icache && z.a.ino == q.a.ino && |z.a.file| == |q.a.file| && z.a.owner == q.a.owner && z.lh == Absorb(q.lh, x)
    ensures PutLogged(sb, p, z, s, bn)
  {
    SlotHasFile(sb, p, s);
    SlotHasFile(sb, q, s);
    SlotHasFile(sb, z, s);
    BmappedAddr(p, q, s, bn, x);
    hide Consistent, BlocksOk, Bmapped, Grown, Addr, Absorb;
    LoggedPut(sb, p, q, z, s, bn, x);
  }

  /** One more pass of the loop in writei. */
  lemma WritingLogged(sb: Super, p: State, q: State, z: State, s: nat, off: nat, src: seq<byte>, tot: nat, m: nat)
    requires Loaded(p.icache, s) && p.icache[s].inum < |p.a.ino| == |p.a.file| && p.icache[s].inum < sb.ninodes && off <= |p.a.file[p.icache[s].inum]| * BSIZE
    requires tot + m <= |src| && 0 < m && (off + tot) % BSIZE + m <= BSIZE && Between(off, tot, |src|) && tot < |src|
    requires Writing(p, q, s, off, src, tot) && WroteLogged(sb, p, q, s, off, tot) && (off + tot) / BSIZE <= |q.a.file[p.icache[s].inum]|
    requires BlockPut(q, z, s, (off + tot) / BSIZE, (off + tot) % BSIZE, src[tot..tot + m]) && PutLogged(sb, q, z, s, (off + tot) / BSIZE)
    requires BlocksOk(sb, q.face.view, q.a) && BlocksOk(sb, z.face.view, z.a)
    ensures WroteLogged(sb, p, z, s, off, tot + m)
  {
    var i, bn := p.icache[s].inum, (off + tot) / BSIZE;
    WroteLonger(p.a.file[i], q.a.file[i], off, src[..tot]);
    assert |z.a.file[i]| == if bn < |q.a.file[i]| then |q.a.file[i]| else |q.a.file[i]| + 1;
    assert tot > 0 ==> src[..tot] != [] && Blocks(off + tot) <= |q.a.file[i]|;
    hide BlocksOk, BlockPut, Writing, WroteLogged, PutLogged;
    LoggedMore(sb, p, q, z, s, off, tot, m);
  }

  /** The end of writei. */
  lemma LoggedDone(sb: Super, p: State, q: State, z: State, s: nat, off: nat, n: nat)
    requires WroteLogged(sb, p, q, s, off, n) && p.icache[s].inum < sb.ninodes && HasFile(z, s) && z.icache[s].inum == q.icache[s].inum
    requires BlocksOk(sb, q.face.view, q.a) && BlocksOk(sb, z.face.view, z.a)
    requires z.a.file == q.a.file && z.a.owner == q.a.owner && z.icache[s].d.addrs == q.icache[s].d.addrs && n > 0
    requires Blocks(off + n) <= |q.a.file[q.icache[s].inum]|
    requires z.lh == if off + n > p.icache[s].d.size then Absorb(q.lh, sb.IBlock(p.icache[s].inum)) else q.lh
    ensures WriteLogged(sb, p, z, s, off, n)
  {
    var i, d, e, g := p.icache[s].inum, p.icache[s].d, q.icache[s].d, z.icache[s].d;
    AbsorbElems(q.lh, sb.IBlock(i));
    assert Extends(q.a, z.a) && Extends(p.a, z.a);
    AddrsKept(sb, q.face.view, q.a, z.face.view, z.a, i);
    hide BlocksOk, Extends, Absorb, Addr, Elems;
    assert DataLog(z.face.view, g, off, n) == DataLog(q.face.view, e, off, n);
    assert BitLog(sb, z.face.view, g, |p.a.file[i]|, |q.a.file[i]|) == BitLog(sb, q.face.view, e, |p.a.file[i]|, |q.a.file[i]|);
    hide DataLog, BitLog;
  }

  /** The whole end of writei: the size goes up if the write went past the end, and then the inode is written through. */
  lemma WriteDone(sb: Super, p: State, q: State, z: State, s: nat, off: nat, src: seq<byte>)
    requires Loaded(p.icache, s) && p.icache[s].inum < |p.a.ino| == |p.a.file| && Writing(p, q, s, off, src, |src|) && src != []
    requires Consistent(sb, p.face.view, p.a, p.stale, p.icache) && Consistent(sb, q.face.view, q.a, q.stale, q.icache) && Consistent(sb, z.face.view, z.a, z.stale, z.icache)
    requires Settled(p.a, p.stale, p.icache) && off <= p.icache[s].d.size && off + |src| <= MAXFILE * BSIZE && WroteLogged(sb, p, q, s, off, |src|)
    requires p.icache[s].d == p.a.ino[p.icache[s].inum] && p.icache[s].inum < |q.a.ino| && s < |q.icache|
    requires var i, d := p.icache[s].inum, q.a.ino[p.icache[s].inum].(size := off + |src|);
             if off + |src| <= p.icache[s].d.size then z == q
             else
               && z == q.(face := z.face, lh := z.lh, a := WithInode(q.a, i, d), stale := {}, icache := q.icache[s := q.icache[s].(d := d)])
               && Quiet(q.face, z.face) && z.lh == Absorb(q.lh, sb.IBlock(i))
    ensures Written(p, z, s, off, src) && Settled(z.a, z.stale, z.icache) && WriteLogged(sb, p, z, s, off, |src|)
  {
    hide Consistent, WroteLogged, WriteLogged;
    AbsorbGrows(q.lh, sb.IBlock(p.icache[s].inum));
    WritingDone(p, q, s, off, src, sb, z);
    WritingFacts(p, q, s, off, src, |src|);
    WritingLength(p, q, s, off, src);
    hide Writing, Written, Settled;
    SlotHasFile(sb, p, s);
    SlotHasFile(sb, q, s);
    SlotHasFile(sb, z, s);
    hide BlocksOk;
    LoggedDone(sb, p, q, z, s, off, |src|);
  }

  lemma WritingLength(p: State, q: State, s: nat, off: nat, src: seq<byte>)
    requires Loaded(p.icache, s) && p.icache[s].inum < |p.a.ino| == |p.a.file| && Writing(p, q, s, off, src, |src|) && src != []
    ensures p.icache[s].inum < |q.a.file| && Blocks(off + |src|) <= |q.a.file[p.icache[s].inum]|
  {
    hide WroteAt;
  }

  /** The whole of one pass: bmap, then the new contents. */
  lemma PutDone(sb: Super, p: State, q: State, z: State, s: nat, bn: nat, o: nat, t: seq<byte>, x: nat)
    requires Loaded(p.icache, s) && Consistent(sb, p.face.view, p.a, p.stale, p.icache)
    requires p.icache[s].inum < |p.a.ino| == |p.a.file| && bn <= |p.a.file[p.icache[s].inum]| && o + |t| <= BSIZE
    requires p.face.Ok() && Bmapped(p, q, s, bn, x) && Grown(sb, p, q, s, bn)
    requires Loaded(q.icache, s) && Consistent(sb, q.face.view, q.a, q.stale, q.icache) && q.icache[s].inum == p.icache[s].inum < |q.a.file|
    requires bn < |q.a.file[q.icache[s].inum]| && Consistent(sb, z.face.view, z.a, z.stale, z.icache)
    requires z == q.(face := z.face, lh := Absorb(q.lh, x), a := Rewritten(q.a, q.icache[s].inum, bn, Splice(q.a.file[q.icache[s].inum][bn], o, t)))
    requires Quiet(q.face, z.face)
    ensures BlockPut(p, z, s, bn, o, t) && PutLogged(sb, p, z, s, bn)
  {
    SlotHasFile(sb, p, s);
    hide Consistent, BlocksOk, Grown, PutLogged, Absorb;
    PutStep(p, q, z, s, bn, o, t, x);
    hide Bmapped, BlockPut;
    PutIsLogged(sb, p, q, z, s, bn, x);
  }

  lemma LoggedNothing(sb: Super, p: State, s: nat, off: nat)
    requires HasFile(p, s) && off <= p.icache[s].d.size
    ensures WriteLogged(sb, p, p, s, off, 0)
  {
  }

  lemma WrittenNothing(p: State, s: nat, off: nat)
    requires Loaded(p.icache, s) && p.icache[s].inum < |p.a.ino| == |p.a.file| && p.icache[s].d == p.a.ino[p.icache[s].inum] && p.face.Ok()
    requires off <= p.icache[s].d.size
    ensures Written(p, p, s, off, [])
  {
    WroteNothing(p.a.file[p.icache[s].inum], off);
    assert p.icache == p.icache[s := p.icache[s].(d := p.a.ino[p.icache[s].inum])];
  }

  lemma MappedFacts(p: State, q: State, s: nat, bn: nat, x: nat)
    requires Loaded(p.icache, s) && p.icache[s].inum < |p.a.file| && bn <= |p.a.file[p.icache[s].inum]| && Bmapped(p, q, s, bn, x)
    ensures Loaded(q.icache, s) && q.icache[s].inum == p.icache[s].inum < |q.a.file| && bn < |q.a.file[p.icache[s].inum]|
    ensures q.icache[s].d.Ok() && bn < MAXFILE && x == Addr(q.face.view, q.icache[s].d, bn)
    ensures q.face.disk == p.face.disk && q.face.trace == p.face.trace && q.face.held == p.face.held && |q.lh| <= |p.lh| + 4
  {
  }
}
