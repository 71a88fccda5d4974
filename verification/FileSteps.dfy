/** file.c: what the operations mean for open files and for the tree. */
module FileSteps {
  import opened Bytes
  import opened RedoLog
  import opened FsFormat
  import opened FsState
  import opened FsSteps
  import opened FsSpec
  import opened FsInodeSteps
  import opened FsContent
  import opened DirFormat
  import opened Tree
  import opened FsTree
  import opened PathFormat
  import opened FileState

  /** mkdir and mknod: refused without parent directory or if the name exists; otherwise the lowest free
      inode is created under that name. */
  ghost predicate NodeMade(a: Abs, m: Map, b: Abs, m': Map, names: seq<Name>, typ: s16, major: s16, minor: s16, r: int)
  {
    && |a.ino| == |a.file| && Sized(a)
    && var t, d := TreeOf(a), Goal(TreeOf(a), ROOTINO, names, true);
    if d == 0 || d >= |t| || names == [] || Find(t[d].ents, names[|names| - 1]) != 0 then r == -1 && b == a && m' == m
    else
      && r == 0 && d in m.depth
      && exists i :: 0 < i < |t| && t[i].typ == 0 && (forall x :: 0 < x < i ==> t[x].typ != 0) && m' == Placed(m, i, d, FirstFree(t[d].ents))
                     && CreatedIn(a, b, d, FirstFree(t[d].ents), i, names[|names| - 1], typ, major, minor)
  }

  lemma MadeBy(a: Abs, c: seq<Inode>, m: Map, b: Abs, c': seq<Inode>, m': Map, names: seq<Name>, typ: s16, major: s16, minor: s16, r: int)
    requires |a.ino| == |a.file| && Sized(a) && CreateResult(a, c, m, b, c', m', names, typ, major, minor, r) && typ != T_FILE
    ensures NodeMade(a, m, b, m', names, typ, major, minor, if r < 0 then -1 else 0)
  {
    hide CreatedIn, Goal, Find, FirstFree, InOrder, Took;
  }

  lemma ResultFacts(a: Abs, c: seq<Inode>, m: Map, b: Abs, c': seq<Inode>, m': Map, names: seq<Name>, typ: s16, major: s16, minor: s16, r: int)
    requires |a.ino| == |a.file| && Sized(a) && CreateResult(a, c, m, b, c', m', names, typ, major, minor, r) && InOrder(a, m) && typ != 0
    ensures Took(c, c', r) && InOrder(b, m') && -1 <= r < |c'|
    ensures r >= 0 ==> Loaded(c', r) && c'[r].inum < |b.ino| && b.ino[c'[r].inum].nlink > 0 && b.ino[c'[r].inum].typ == typ
  {
    hide Find, FirstFree, EntsOf;
    var t, d := TreeOf(a), Goal(TreeOf(a), ROOTINO, names, true);
    if d != 0 && d < |t| && names != [] && Find(t[d].ents, names[|names| - 1]) != 0 && r >= 0 {
      GoalLinked(t, m, names);
      GoalDir(t, ROOTINO, names);
      FoundLinked(a, m, d, names[|names| - 1]);
    }
  }

  lemma FoundLinked(a: Abs, m: Map, d: nat, name: Name)
    requires InOrder(a, m) && LinkedDir(TreeOf(a), d) && Find(TreeOf(a)[d].ents, name) != 0
    ensures var j := Find(TreeOf(a)[d].ents, name); j < |a.ino| && a.ino[j].nlink > 0 && a.ino[j].typ == TreeOf(a)[j].typ
  {
    EntryLinked(TreeOf(a), m, d, Where(TreeOf(a)[d].ents, name));
  }

  /** Walking a path only meets linked inodes. */
  lemma GoalLinked(t: Nodes, m: Map, names: seq<Name>)
    requires TreeOk(t, m)
    ensures var g := Goal(t, ROOTINO, names, true); g != 0 && names != [] ==> g < |t| && t[g].nlink > 0
  {
    GoalIsWalk(t, ROOTINO, names);
    if names != [] {
      WalkLinked(t, m, ROOTINO, names[..|names| - 1]);
    }
  }

  /** create gives a type only to an inode that nobody references. */
  lemma CreateTypes(a: Abs, stale: set<nat>, c: seq<Inode>, m: Map, b: Abs, c': seq<Inode>, m': Map, names: seq<Name>, typ: s16, major: s16, minor: s16, r: int)
    requires |a.ino| == |a.file| && Sized(a) && CreateResult(a, c, m, b, c', m', names, typ, major, minor, r) && Settled(a, stale, c)
    ensures TypesKept(c, a, b)
  {
    hide Find, FirstFree, EntsOf, Goal, InOrder;
  }

  /** The file table after an operation that leaves the references as they were. */
  lemma TableAfter(ft: seq<File>, c: seq<Inode>, c': seq<Inode>, a: Abs, b: Abs)
    requires Table(ft, c) && NoDirWritable(ft, c, a) && Took(c, c', -1) && TypesKept(c, a, b)
    ensures Table(ft, c') && NoDirWritable(ft, c', b)
  {
    TableSame(ft, c, c');
    NoDirSame(ft, c, c', a, b, -1);
  }

  const O_RDONLY := 0x000
  const O_WRONLY := 0x001
  const O_RDWR := 0x002
  const O_CREATE := 0x200

  /** omode & flag, for flags that are powers of two. */
  predicate Has(omode: nat, flag: nat)
    requires flag > 0
  {
    omode / flag % 2 == 1
  }

  /** It tests just that bit, whatever the bits above and below it are. */
  lemma HasBit(flag: nat, hi: nat, lo: nat)
    requires 0 < flag && lo < flag
    ensures Has(2 * flag * hi + flag + lo, flag) && !Has(2 * flag * hi + lo, flag)
  {
    Quotient(flag, 2 * hi + 1, lo);
    Quotient(flag, 2 * hi, lo);
    assert 2 * flag * hi == flag * (2 * hi);
    assert flag * (2 * hi + 1) == flag * (2 * hi) + flag;
  }

  lemma Quotient(d: nat, q: nat, r: nat)
    requires r < d
    ensures (d * q + r) / d == q
  {
    var x := d * q + r;
    OneQuotient(d, x / d, q, x % d, r);
  }

  lemma OneQuotient(d: nat, q: int, p: int, r: nat, s: nat)
    requires r < d && s < d && d * q + r == d * p + s
    ensures q == p
  {
    if q > p {
      assert d * (q - p) == s - r;
      Multiple(d, q - p);
    } else if q < p {
      assert d * (p - q) == r - s;
      Multiple(d, p - q);
    }
  }

  lemma Multiple(d: nat, k: nat)
    requires d > 0 && k > 0
    ensures d * k >= d
  {
    var j := k - 1;
    assert d * k == d * j + d;
    assert d * j >= 0;
  }

  /** So the access modes do not depend on O_CREATE, and O_CREATE does not depend on them: RDONLY reads, WRONLY writes,
      RDWR does both. */
  lemma OpenModes(mode: nat, create: bool)
    requires mode == O_RDONLY || mode == O_WRONLY || mode == O_RDWR
    ensures var omode := mode + if create then O_CREATE else 0;
            && (Has(omode, O_CREATE) <==> create) && (!Has(omode, O_WRONLY) <==> mode != O_WRONLY)
            && (Has(omode, O_WRONLY) || Has(omode, O_RDWR) <==> mode != O_RDONLY)
  {
  }

  /** The inode that open finds or creates; `s` is its slot, -1 if there is none to open. */
  ghost predicate OpenedInode(a: Abs, c: seq<Inode>, m: Map, b: Abs, c': seq<Inode>, m': Map, names: seq<Name>, omode: nat, s: int)
  {
    && |a.ino| == |a.file| && Sized(a) && Took(c, c', s) && -1 <= s < |c'|
    && (s >= 0 ==> Loaded(c', s) && c'[s].inum < |b.ino| && b.ino[c'[s].inum].nlink > 0 && (b.ino[c'[s].inum].typ != T_DIR || omode == 0))
    && if Has(omode, O_CREATE) then CreateResult(a, c, m, b, c', m', names, T_FILE, 0, 0, s)
       else
         && b == a && m' == m && var t, g := TreeOf(a), Goal(TreeOf(a), ROOTINO, names, false);
         if g == 0 || g >= |t| || (t[g].typ == T_DIR && omode != 0) then s == -1 else s >= 0 && c'[s].inum == g
  }

  /** What open promises: the first free entry of the file table refers to that inode, from offset 0; with the
      table full, the reference is dropped again. */
  ghost predicate OpenResult(a: Abs, c: seq<Inode>, m: Map, ft: seq<File>, b: Abs, c': seq<Inode>, m': Map, ft': seq<File>, names: seq<Name>, omode: nat, r: int)
  {
    exists mid: seq<Inode>, s: int ::
      && OpenedInode(a, c, m, b, mid, m', names, omode, s)
      && if s < 0 || (forall f :: 0 <= f < |ft| ==> ft[f].ref > 0) then r == -1 && ft' == ft && Took(c, c', -1)
         else
           && 0 <= r < |ft| && ft[r].ref == 0 && (forall f :: 0 <= f < r ==> ft[f].ref > 0) && c' == mid
           && ft' == ft[r := File(1, true, !Has(omode, O_WRONLY), Has(omode, O_WRONLY) || Has(omode, O_RDWR), s, 0)]
  }

  lemma OpenedFacts(a: Abs, c: seq<Inode>, m: Map, b: Abs, c': seq<Inode>, m': Map, names: seq<Name>, omode: nat, s: int)
    requires OpenedInode(a, c, m, b, c', m', names, omode, s)
    ensures Took(c, c', s) && -1 <= s < |c'|
    ensures s >= 0 ==> Loaded(c', s) && c'[s].inum < |b.ino| && b.ino[c'[s].inum].nlink > 0 && (b.ino[c'[s].inum].typ != T_DIR || omode == 0)
  {
  }

  lemma SameTypes(c: seq<Inode>, a: Abs)
    ensures TypesKept(c, a, a)
  {
  }

  lemma TableLength(ft: seq<File>, c: seq<Inode>)
    requires Table(ft, c)
    ensures |ft| == NFILE
  {
  }

  lemma NoDirOpen(ft: seq<File>, c: seq<Inode>, c': seq<Inode>, a: Abs, b: Abs, f: nat, x: File, omode: nat)
    requires Table(ft, c) && NoDirWritable(ft, c, a) && Took(c, c', x.ip) && TypesKept(c, a, b) && f < NFILE && x.ip < |c'|
    requires x.writable == (Has(omode, O_WRONLY) || Has(omode, O_RDWR)) && c'[x.ip].inum < |b.ino|
    requires b.ino[c'[x.ip].inum].typ != T_DIR || omode == 0
    ensures NoDirWritable(ft[f := x], c', b)
  {
    NoDirSame(ft, c, c', a, b, x.ip);
  }

  /** What unlink promises. */
  ghost predicate UnlinkResult(a: Abs, b: Abs, c: seq<Inode>, names: seq<Name>, r: int)
  {
    && |a.ino| == |a.file| && Sized(a)
    && var d := Goal(TreeOf(a), ROOTINO, names, true);
    if d == 0 || d >= |a.ino| || names == [] then r == -1 && b == a
    else UnlinkedUnder(a, b, c, d, names[|names| - 1], r)
  }

  /** unlink would free an inode that is spread over too many bitmap blocks for one transaction. */
  ghost predicate UnlinkTooBig(sb: Super, a: Abs, c: seq<Inode>, names: seq<Name>)
  {
    && |a.ino| == |a.file| && Sized(a) && names != []
    && var d := Goal(TreeOf(a), ROOTINO, names, true);
    0 < d < |a.ino| && UnlinkStuck(sb, a, c, d, names[|names| - 1])
  }

  /** unlink frees only an inode that nobody references. */
  lemma UnlinkTypes(a: Abs, b: Abs, c: seq<Inode>, names: seq<Name>, r: int)
    requires UnlinkResult(a, b, c, names, r)
    ensures TypesKept(c, a, b)
  {
    if b != a {
      var d := Goal(TreeOf(a), ROOTINO, names, true);
      var e, name := TreeOf(a)[d].ents, names[|names| - 1];
      RemovedTypes(a, b, c, d, Where(e, name), Find(e, name));
    }
  }

  lemma RemovedTypes(a: Abs, b: Abs, c: seq<Inode>, d: nat, k: nat, i: nat)
    requires Removed(a, b, d, k, i, RefOf(c, i) > 0)
    ensures TypesKept(c, a, b)
  {
    hide EntsOf;
    var mid: Abs :| UnlinkedIn(a, mid, d, k, i) && if RefOf(c, i) > 0 then b == mid else Freed(mid, b, i);
    forall s | 0 <= s < |c| && c[s].ref > 0 && c[s].inum < |a.ino| ensures b.ino[c[s].inum].typ == a.ino[c[s].inum].typ {
      RefSome(c, c[s].inum, s);
    }
  }

  /** What fileclose promises. */
  ghost predicate CloseResult(a: Abs, c: seq<Inode>, ft: seq<File>, b: Abs, c': seq<Inode>, ft': seq<File>, f: nat)
  {
    && f < |ft| && ft[f].ref > 0
    && if ft[f].ref > 1 then b == a && c' == c && ft' == ft[f := ft[f].(ref := ft[f].ref - 1)]
       else
         && ft' == ft[f := ft[f].(ref := 0, inode := false)] && Dropped(c, c', ft[f].ip)
         && if LastUnlinked(c[ft[f].ip]) then Freed(a, b, c[ft[f].ip].inum) else b == a
  }

  /** fileclose would free an inode that is spread over too many bitmap blocks for one transaction. */
  ghost predicate CloseTooBig(sb: Super, a: Abs, c: seq<Inode>, ft: seq<File>, f: nat)
  {
    && f < |ft| && ft[f].ref == 1 && ft[f].ip < |c| && c[ft[f].ip].ref == 1
    && var i := c[ft[f].ip].inum;
    i < |a.ino| && a.ino[i].nlink == 0 && |Spread(sb, a, i)| + 1 >= LOGSIZE - 1
  }

  lemma NoDirKeep(ft: seq<File>, c: seq<Inode>, a: Abs, f: nat, x: File)
    requires NoDirWritable(ft, c, a) && f < |ft| && ft[f].ref > 0 && x.ip == ft[f].ip && x.writable == ft[f].writable
    ensures NoDirWritable(ft[f := x], c, a)
  {
  }

  /** Closing keeps the tree in order. */
  lemma CloseOrder(sb: Super, a: Abs, b: Abs, c: seq<Inode>, stale: set<nat>, c': seq<Inode>, m: Map, s: nat)
    requires |a.ino| == sb.ninodes && Cached(sb, a, c) && InOrder(a, m) && s < NINODE && c[s].ref > 0 && Settled(b, stale, c')
    requires if LastUnlinked(c[s]) then Freed(a, b, c[s].inum) else b == a
    ensures InOrder(b, m)
  {
    if LastUnlinked(c[s]) {
      CacheSlot(sb, a, c, s);
      FreedInOrder(a, b, m, c[s].inum);
    }
  }

  /** The C conversion of an int to unsigned. */
  function Unsigned(n: int): (u: u32)
  {
    n % 0x1_0000_0000
  }

  /** What fileread promises. */
  ghost predicate FileRead(a: Abs, c: seq<Inode>, ft: seq<File>, ft': seq<File>, f: nat, n: u32, dev: Dev, r: int, dst: seq<byte>)
  {
    && f < |ft|
    && if !ft[f].readable then r == -1 && dst == [] && ft' == ft
       else
         && ft[f].ip < |c| && c[ft[f].ip].inum < |a.ino| == |a.file|
         && ReadOf(a.ino[c[ft[f].ip].inum], a.file[c[ft[f].ip].inum], ft[f].off, n, dev, r, dst)
         && ft' == if r > 0 then ft[f := ft[f].(off := (ft[f].off + r) % 0x1_0000_0000)] else ft
  }

  lemma TableInode(ft: seq<File>, c: seq<Inode>, f: nat)
    requires Table(ft, c) && f < NFILE
    ensures ft[f].inode <==> ft[f].ref > 0
  {
  }

  const MAXOPBLOCKS := 10

  /** The most bytes that filewrite puts into one transaction. */
  const CHUNK := (MAXOPBLOCKS - 1 - 1 - 2) / 2 * BSIZE

  /** However a chunk lies, it logs at most MAXOPBLOCKS blocks: if it does not start on a block boundary, its
      first block is there already, because files have no holes. */
  lemma ChunkCost(size: nat, off: nat, n: nat)
    requires off <= size && n <= CHUNK
    ensures WriteCost(size, off, n) <= MAXOPBLOCKS
  {
    assert Blocks(size) >= Blocks(off);
  }

  /** The bound is reached by a chunk that crosses from the direct blocks into a new indirect block; and it
      would be exceeded if the block in which that chunk starts were not there. */
  lemma ChunkCostReached()
    ensures WriteCost(10 * BSIZE + 1, 10 * BSIZE + 1, CHUNK) == MAXOPBLOCKS
    ensures WriteCost(10 * BSIZE, 10 * BSIZE + 1, CHUNK) == MAXOPBLOCKS + 1
  {
  }

  /** File `i` has been overwritten from `off` on; nothing else has changed. */
  ghost predicate Overwritten(a: Abs, b: Abs, i: nat, off: nat, src: seq<byte>)
  {
    && i < |a.ino| == |a.file| == |b.ino| == |b.file| && b.ino == a.ino[i := b.ino[i]] && b.file == a.file[i := b.file[i]]
    && b.ino[i] == a.ino[i].(size := b.ino[i].size, addrs := b.ino[i].addrs)
    && a.ino[i].size <= |a.file[i]| * BSIZE && b.ino[i].size <= |b.file[i]| * BSIZE && off <= a.ino[i].size
    && Content(b.file[i], b.ino[i].size) == Overwrite(Content(a.file[i], a.ino[i].size), off, src)
  }

  /** What one chunk does: devices answer, writes past the largest file are refused, others overwrite. */
  ghost predicate ChunkDone(a: Abs, b: Abs, i: nat, off: u32, src: seq<byte>, dev: Dev, r: int)
  {
    && i < |a.ino| && |src| < 0x1_0000_0000
    && if a.ino[i].typ == T_DEV then r == dev.Answer(a.ino[i].major) && b == a
       else if WriteRefused(a.ino[i], off, |src|) then r == -1 && b == a
       else r == |src| && Overwritten(a, b, i, off, src)
  }

  lemma WrittenOver(p: State, q: State, s: nat, off: nat, src: seq<byte>)
    requires Loaded(p.icache, s) && p.icache[s].inum < |p.a.ino| == |p.a.file| && Sized(p.a) && off <= p.a.ino[p.icache[s].inum].size
    requires Written(p, q, s, off, src)
    ensures Overwritten(p.a, q.a, p.icache[s].inum, off, src) && Grew(p.lh, q.lh, WriteCost(p.a.ino[p.icache[s].inum].size, off, |src|))
    ensures q.icache == p.icache[s := p.icache[s].(d := q.a.ino[p.icache[s].inum])] && Quiet(p.face, q.face)
  {
    var i := p.icache[s].inum;
    WroteContent(p.a.file[i], q.a.file[i], p.a.ino[i].size, off, src);
  }

  /** Writing a file that is not a directory leaves the tree alone. */
  lemma OverwrittenOrder(a: Abs, b: Abs, m: Map, i: nat, off: nat, src: seq<byte>)
    requires InOrder(a, m) && Overwritten(a, b, i, off, src) && a.ino[i].typ != T_DIR && |b.ino| == |b.file| && Sized(b)
    ensures InOrder(b, m) && TreeOf(b) == TreeOf(a)
  {
    var t, u := TreeOf(a), TreeOf(b);
    assert forall x :: 0 <= x < |t| ==> u[x] == t[x];
    assert u == t;
  }

  lemma OverwrittenTypes(a: Abs, b: Abs, c: seq<Inode>, i: nat, off: nat, src: seq<byte>)
    requires Overwritten(a, b, i, off, src)
    ensures TypesKept(c, a, b)
  {
  }

  /** Two writes, one behind the other, are one write. */
  lemma OverwriteTwice(c: seq<byte>, off: nat, s: seq<byte>, t: seq<byte>)
    requires off <= |c|
    ensures off + |s| <= |Overwrite(c, off, s)| && Overwrite(Overwrite(c, off, s), off + |s|, t) == Overwrite(c, off, s + t)
  {
  }

  lemma OverwrittenTwice(a: Abs, b: Abs, c: Abs, i: nat, off: nat, s: seq<byte>, t: seq<byte>)
    requires Overwritten(a, b, i, off, s) && Overwritten(b, c, i, off + |s|, t)
    ensures Overwritten(a, c, i, off, s + t)
  {
    hide Content, Overwrite;
    OverwriteTwice(Content(a.file[i], a.ino[i].size), off, s, t);
  }

  lemma WritableFile(ft: seq<File>, c: seq<Inode>, a: Abs, f: nat)
    requires Table(ft, c) && NoDirWritable(ft, c, a) && f < NFILE && ft[f].ref > 0 && ft[f].writable && ft[f].ip < NINODE
    ensures c[ft[f].ip].inum < |a.ino| ==> a.ino[c[ft[f].ip].inum].typ != T_DIR
  {
  }

  /** One pass of filewrite, with the file's offset moved on. */
  ghost predicate StepDone(a: Abs, c: seq<Inode>, ft: seq<File>, b: Abs, ft': seq<File>, f: nat, src: seq<byte>, dev: Dev, r: int)
  {
    && f < |ft| && ft[f].ip < |c| && ChunkDone(a, b, c[ft[f].ip].inum, ft[f].off, src, dev, r)
    && ft' == if r > 0 then ft[f := ft[f].(off := (ft[f].off + r) % 0x1_0000_0000)] else ft
  }

  /** filewrite after `done` bytes. */
  ghost predicate Progress(a: Abs, c: seq<Inode>, ft: seq<File>, b: Abs, c': seq<Inode>, ft': seq<File>, f: nat, src: seq<byte>, done: nat)
  {
    && f < |ft| && ft[f].ip < |c| && c[ft[f].ip].ref > 0 && done <= |src| && Took(c, c', -1)
    && ft' == ft[f := ft[f].(off := (ft[f].off + done) % 0x1_0000_0000)]
    && var i := c[ft[f].ip].inum;
    && i < |a.ino|
    && if done == 0 || a.ino[i].typ == T_DEV then b == a
       else Overwritten(a, b, i, ft[f].off, src[..done]) && ft[f].off + done <= MAXFILE * BSIZE
  }

  lemma ProgressStart(a: Abs, c: seq<Inode>, ft: seq<File>, f: nat, src: seq<byte>)
    requires f < |ft| && ft[f].ip < |c| && c[ft[f].ip].ref > 0 && c[ft[f].ip].inum < |a.ino|
    ensures Progress(a, c, ft, a, c, ft, f, src, 0)
  {
    assert ft[f := ft[f].(off := (ft[f].off + 0) % 0x1_0000_0000)] == ft;
  }

  lemma ProgressMore(a: Abs, c: seq<Inode>, ft: seq<File>, b: Abs, c': seq<Inode>, ft': seq<File>, e: Abs, c'': seq<Inode>, ft'': seq<File>,
                     f: nat, src: seq<byte>, done: nat, n: nat, dev: Dev)
    requires Progress(a, c, ft, b, c', ft', f, src, done) && done + n <= |src| && 0 < n
    requires StepDone(b, c', ft', e, ft'', f, src[done..done + n], dev, n) && Took(c', c'', -1)
    ensures Progress(a, c, ft, e, c'', ft'', f, src, done + n)
  {
    hide Overwritten;
    var i := c[ft[f].ip].inum;
    assert c'[ft'[f].ip].inum == i;
    assert Took(c, c'', -1);
    OverwrittenType(a, b, i, ft[f].off, src[..done]);
    if a.ino[i].typ != T_DEV {
      assert src[..done] + src[done..done + n] == src[..done + n];
      if done > 0 {
        OverwrittenTwice(a, b, e, i, ft[f].off, src[..done], src[done..done + n]);
      } else {
        assert src[..done + n] == src[done..done + n];
      }
    }
  }

  lemma OverwrittenType(a: Abs, b: Abs, i: nat, off: nat, src: seq<byte>)
    ensures Overwritten(a, b, i, off, src) ==> i < |a.ino| == |b.ino| && b.ino[i].typ == a.ino[i].typ && b.ino[i].major == a.ino[i].major
  {
  }

  /** How many bytes of `left` go into the next chunk. */
  function NextChunk(left: nat): (n: nat)
    ensures n <= left && n <= CHUNK && (left > 0 ==> n > 0)
  {
    if left > CHUNK then CHUNK else left
  }

  /** What filewrite promises: it writes some prefix of the bytes at the file's offset and nothing else; all of
      them exactly when it returns their number. It stops only where a device refuses or the largest file ends. */
  ghost predicate FileWritten(a: Abs, c: seq<Inode>, ft: seq<File>, b: Abs, c': seq<Inode>, ft': seq<File>, f: nat, src: seq<byte>, done: nat, r: int)
  {
    && Progress(a, c, ft, b, c', ft', f, src, done) && r == (if done == |src| then |src| else -1)
    && var i, off := c[ft[f].ip].inum, (ft[f].off + done) % 0x1_0000_0000;
    (done < |src| < 0x8000_0000 && a.ino[i].typ != T_DEV ==> i < |b.ino| && WriteRefused(b.ino[i], off, NextChunk(|src| - done)))
  }

  lemma ProgressFile(a: Abs, c: seq<Inode>, ft: seq<File>, b: Abs, c': seq<Inode>, ft': seq<File>, f: nat, src: seq<byte>, done: nat)
    requires Progress(a, c, ft, b, c', ft', f, src, done)
    ensures |ft'| == |ft| && f < |ft| && ft'[f] == ft[f].(off := ft'[f].off)
  {
  }

  /** A negative answer ends filewrite. */
  lemma Stopped(a: Abs, c: seq<Inode>, ft: seq<File>, b: Abs, c': seq<Inode>, ft': seq<File>, e: Abs, c'': seq<Inode>, ft'': seq<File>,
                f: nat, src: seq<byte>, done: nat, n: nat, dev: Dev, r: int)
    requires Progress(a, c, ft, b, c', ft', f, src, done) && done < |src| < 0x8000_0000 && n == NextChunk(|src| - done)
    requires StepDone(b, c', ft', e, ft'', f, src[done..done + n], dev, r) && Took(c', c'', -1) && r < 0
    ensures FileWritten(a, c, ft, e, c'', ft'', f, src, done, -1) && Progress(a, c, ft, e, c'', ft'', f, src, done)
  {
    hide Overwritten;
    var i := c[ft[f].ip].inum;
    assert c'[ft'[f].ip].inum == i;
    OverwrittenType(a, b, i, ft[f].off, src[..done]);
    assert e == b && ft'' == ft';
  }

  ghost predicate IsDevice(a: Abs, c: seq<Inode>, ft: seq<File>, f: nat)
  {
    f < |ft| && ft[f].ip < |c| && c[ft[f].ip].inum < |a.ino| && a.ino[c[ft[f].ip].inum].typ == T_DEV
  }

  /** Only a device can take fewer bytes than it is given. */
  lemma ShortIsDevice(a: Abs, c: seq<Inode>, ft: seq<File>, b: Abs, c': seq<Inode>, ft': seq<File>, e: Abs, ft'': seq<File>,
                      f: nat, src: seq<byte>, done: nat, n: nat, dev: Dev, r: int)
    requires Progress(a, c, ft, b, c', ft', f, src, done) && done + n <= |src|
    requires StepDone(b, c', ft', e, ft'', f, src[done..done + n], dev, r) && r >= 0 && r != n
    ensures IsDevice(a, c, ft, f) && e == b
  {
    hide Overwritten;
    var i := c[ft[f].ip].inum;
    assert c'[ft'[f].ip].inum == i;
    OverwrittenType(a, b, i, ft[f].off, src[..done]);
  }

  // Devices.

  /** In how many chunks filewrite cuts `n` bytes, how many bytes come before chunk `k`, and how many are in it. */
  function Chunks(n: nat): (k: nat) { (n + CHUNK - 1) / CHUNK }

  function Before(n: nat, k: nat): (m: nat) { if k * CHUNK < n then k * CHUNK else n }

  function ChunkSize(n: nat, k: nat): (m: nat) { NextChunk(n - Before(n, k)) }

  /** The sizes add up. */
  lemma ChunksAdd(n: nat, k: nat)
    ensures Before(n, 0) == 0 && Before(n, k + 1) == Before(n, k) + ChunkSize(n, k) && Before(n, Chunks(n)) == n
    ensures k < Chunks(n) <==> Before(n, k) < n
    ensures k + 1 < Chunks(n) ==> ChunkSize(n, k) == CHUNK
  {
    ChunksAll(n);
    ChunkWithin(n, k);
  }

  lemma ChunksAll(n: nat)
    ensures Before(n, Chunks(n)) == n
  {
  }

  lemma ChunkWithin(n: nat, k: nat)
    ensures k < Chunks(n) <==> k * CHUNK < n
  {
  }

  /** The driver takes each of the first `k` chunks whole; `dev(j)` is what it would answer to call `j`. */
  ghost predicate TakesAll(n: nat, dev: nat -> Dev, major: int, k: nat)
  {
    forall j :: 0 <= j < k ==> dev(j).Answer(major) == ChunkSize(n, j)
  }

  /** What writing `n` bytes to a device comes to: all chunks are taken, or the first answer that differs is negative. */
  ghost predicate DeviceWritten(n: nat, dev: nat -> Dev, major: int, done: nat, r: int)
  {
    exists k :: 0 <= k <= Chunks(n) && TakesAll(n, dev, major, k) && done == Before(n, k)
                && if k == Chunks(n) then r == n else r == -1 && dev(k).Answer(major) < 0
  }

  /** The first answer that differs is not negative. */
  ghost predicate DeviceShort(n: nat, dev: nat -> Dev, major: int)
  {
    exists k :: 0 <= k < Chunks(n) && TakesAll(n, dev, major, k) && dev(k).Answer(major) >= 0 && dev(k).Answer(major) != ChunkSize(n, k)
  }

  /** The first chunk from `k` on that the driver does not take whole. */
  ghost function FirstOdd(n: nat, dev: nat -> Dev, major: int, k: nat): (r: nat)
    requires k <= Chunks(n) && TakesAll(n, dev, major, k)
    ensures k <= r <= Chunks(n) && TakesAll(n, dev, major, r) && (r < Chunks(n) ==> dev(r).Answer(major) != ChunkSize(n, r))
    decreases Chunks(n) - k
  {
    if k == Chunks(n) || dev(k).Answer(major) != ChunkSize(n, k) then k else FirstOdd(n, dev, major, k + 1)
  }

  lemma OneOdd(n: nat, dev: nat -> Dev, major: int, j: nat, k: nat)
    requires j <= Chunks(n) && TakesAll(n, dev, major, j) && (j < Chunks(n) ==> dev(j).Answer(major) != ChunkSize(n, j))
    requires k <= Chunks(n) && TakesAll(n, dev, major, k) && (k < Chunks(n) ==> dev(k).Answer(major) != ChunkSize(n, k))
    ensures j == k
  {
    hide ChunkSize, Chunks;
  }

  /** These are all the cases, and they exclude each other: with `k` the first chunk not taken whole, the result is `n` if
      there is none, -1 if its answer is negative, and otherwise there is none. */
  lemma DeviceCases(n: nat, dev: nat -> Dev, major: int, done: nat, r: int)
    ensures var k := FirstOdd(n, dev, major, 0);
            && (DeviceWritten(n, dev, major, done, r) <==>
                done == Before(n, k) && if k == Chunks(n) then r == n else r == -1 && dev(k).Answer(major) < 0)
            && (DeviceShort(n, dev, major) <==> k < Chunks(n) && dev(k).Answer(major) >= 0)
  {
    var k := FirstOdd(n, dev, major, 0);
    hide ChunkSize, Chunks, Before, TakesAll, FirstOdd;
    if DeviceWritten(n, dev, major, done, r) {
      var j :| 0 <= j <= Chunks(n) && TakesAll(n, dev, major, j) && done == Before(n, j)
               && if j == Chunks(n) then r == n else r == -1 && dev(j).Answer(major) < 0;
      OneOdd(n, dev, major, j, k);
    }
    if DeviceShort(n, dev, major) {
      var j :| 0 <= j < Chunks(n) && TakesAll(n, dev, major, j) && dev(j).Answer(major) >= 0 && dev(j).Answer(major) != ChunkSize(n, j);
      OneOdd(n, dev, major, j, k);
    }
  }

  /** So it returns `n` exactly if the driver takes every chunk whole. */
  lemma DeviceTakesAll(n: nat, dev: nat -> Dev, major: int, done: nat, r: int)
    requires DeviceWritten(n, dev, major, done, r)
    ensures r == n <==> TakesAll(n, dev, major, Chunks(n))
    ensures !DeviceShort(n, dev, major) && (r == n || r == -1)
  {
    var k := FirstOdd(n, dev, major, 0);
    DeviceCases(n, dev, major, done, r);
    hide ChunkSize, Chunks, Before, FirstOdd, DeviceWritten, DeviceShort;
  }

  function MajorOf(a: Abs, c: seq<Inode>, ft: seq<File>, f: nat): (major: int)
    requires IsDevice(a, c, ft, f)
  {
    a.ino[c[ft[f].ip].inum].major
  }

  /** filewrite to an open device with `k` chunks taken. */
  ghost predicate DeviceTaking(a: Abs, c: seq<Inode>, ft: seq<File>, f: nat, n: nat, dev: nat -> Dev, k: nat)
  {
    IsDevice(a, c, ft, f) ==> TakesAll(n, dev, MajorOf(a, c, ft, f), k)
  }

  /** What filewrite promises for a device. */
  ghost predicate DeviceResult(a: Abs, c: seq<Inode>, ft: seq<File>, f: nat, n: nat, dev: nat -> Dev, done: nat, r: int)
  {
    IsDevice(a, c, ft, f) ==> DeviceWritten(n, dev, MajorOf(a, c, ft, f), done, r)
  }

  /** filewrite panics because the driver took part of a chunk, or more than it. */
  ghost predicate ShortWrite(a: Abs, c: seq<Inode>, ft: seq<File>, f: nat, n: nat, dev: nat -> Dev)
  {
    IsDevice(a, c, ft, f) && DeviceShort(n, dev, MajorOf(a, c, ft, f))
  }

  /** A device stays the same device, and each pass asks its driver. */
  lemma DeviceStep(a: Abs, c: seq<Inode>, ft: seq<File>, b: Abs, c': seq<Inode>, ft': seq<File>, e: Abs, ft'': seq<File>,
                   f: nat, src: seq<byte>, done: nat, n: nat, dev: Dev, r: int)
    requires Progress(a, c, ft, b, c', ft', f, src, done) && done + n <= |src|
    requires StepDone(b, c', ft', e, ft'', f, src[done..done + n], dev, r)
    ensures IsDevice(a, c, ft, f) ==> r == dev.Answer(MajorOf(a, c, ft, f))
  {
    hide Overwritten;
    assert c'[ft'[f].ip].inum == c[ft[f].ip].inum;
  }

  lemma DeviceKept(a: Abs, c: seq<Inode>, ft: seq<File>, b: Abs, c': seq<Inode>, ft': seq<File>, f: nat, src: seq<byte>, done: nat)
    requires Progress(a, c, ft, b, c', ft', f, src, done)
    ensures IsDevice(a, c, ft, f) ==> IsDevice(b, c', ft', f)
  {
    hide Overwritten;
    assert c'[ft'[f].ip].inum == c[ft[f].ip].inum;
  }

  lemma TakingStart(a: Abs, c: seq<Inode>, ft: seq<File>, f: nat, n: nat, dev: nat -> Dev)
    ensures DeviceTaking(a, c, ft, f, n, dev, 0) && Before(n, 0) == 0 <= Chunks(n)
  {
  }

  lemma TakingMore(a: Abs, c: seq<Inode>, ft: seq<File>, f: nat, n: nat, dev: nat -> Dev, k: nat)
    requires DeviceTaking(a, c, ft, f, n, dev, k) && (IsDevice(a, c, ft, f) ==> dev(k).Answer(MajorOf(a, c, ft, f)) == ChunkSize(n, k))
    ensures DeviceTaking(a, c, ft, f, n, dev, k + 1)
  {
  }

  /** The next chunk of the loop. */
  lemma ChunkNext(n: nat, k: nat)
    requires Before(n, k) < n
    ensures k < Chunks(n) && ChunkSize(n, k) == NextChunk(n - Before(n, k)) && Before(n, k + 1) == Before(n, k) + ChunkSize(n, k)
    ensures (Before(n, k) % CHUNK == 0 || Before(n, k) == n) && (Before(n, k + 1) % CHUNK == 0 || Before(n, k + 1) == n)
  {
    ChunksAdd(n, k);
    WholeChunks(n, k);
    WholeChunks(n, k + 1);
    hide Before, Chunks;
  }

  lemma WholeChunks(n: nat, k: nat)
    ensures Before(n, k) % CHUNK == 0 || Before(n, k) == n
  {
  }

  /** The loop of filewrite has come to its end. */
  lemma WriteEnds(a: Abs, c: seq<Inode>, ft: seq<File>, b: Abs, c': seq<Inode>, ft': seq<File>, f: nat, src: seq<byte>, dev: nat -> Dev, done: nat, k: nat)
    requires Progress(a, c, ft, b, c', ft', f, src, done) && done == |src| == Before(|src|, k) && k <= Chunks(|src|)
    requires DeviceTaking(a, c, ft, f, |src|, dev, k)
    ensures FileWritten(a, c, ft, b, c', ft', f, src, done, |src|) && DeviceResult(a, c, ft, f, |src|, dev, done, |src|)
  {
    ChunksAdd(|src|, k);
    DeviceEnds(a, c, ft, f, |src|, dev, k);
    hide Overwritten, Took, Chunks, Before, ChunkSize;
  }

  /** How the loop ends for a device: all taken, or the answer to call `k` is negative, or neither. */
  lemma DeviceEnds(a: Abs, c: seq<Inode>, ft: seq<File>, f: nat, n: nat, dev: nat -> Dev, k: nat)
    requires DeviceTaking(a, c, ft, f, n, dev, k) && k <= Chunks(n)
    ensures k == Chunks(n) ==> DeviceResult(a, c, ft, f, n, dev, n, n)
    ensures k < Chunks(n) && (IsDevice(a, c, ft, f) ==> dev(k).Answer(MajorOf(a, c, ft, f)) < 0) ==> DeviceResult(a, c, ft, f, n, dev, Before(n, k), -1)
    ensures k < Chunks(n) && IsDevice(a, c, ft, f) && dev(k).Answer(MajorOf(a, c, ft, f)) >= 0 ==>
              dev(k).Answer(MajorOf(a, c, ft, f)) == ChunkSize(n, k) || ShortWrite(a, c, ft, f, n, dev)
  {
    ChunksAdd(n, k);
    hide Chunks, ChunkSize, TakesAll;
    assert k == Chunks(n) ==> Before(n, k) == n;
  }
}
