/** file.c: open files, and every operation as one transaction. */
module Files {
  import opened Bytes
  import opened RedoLog
  import opened Kernel
  import opened CacheState
  import opened LogState
  import opened Log
  import opened FsFormat
  import opened FsState
  import opened FsSteps
  import opened FsSpec
  import opened FsInodeSteps
  import opened FsContent
  import opened DirFormat
  import opened Tree
  import opened FsTree
  import opened FsDisk
  import opened FileState
  import opened FileSteps
  import opened FsOrphans
  import opened FsLogCount
  import opened Calls
  import opened PathFormat
  import opened FsAlloc
  import opened SysState
  import opened FsInodes
  import opened FsFile
  import opened FsPaths
  import opened FsCreate
  import opened FsUnlink

  /** end_op: commit, after which the boundary just reached is on record and in order. */
  method EndOp(fs: FileSys, ghost m: Map)
    requires fs.Valid() && Settled(fs.a, fs.stale, fs.icache) && InOrder(fs.a, m) && fs.log.cache.face.held == map[]
    requires HistOk(fs.sb, fs.log.hist)
    modifies fs.log`lh, fs.log`hist, fs.log`marks, fs.log.cache
    ensures fs.Valid() && fs.log.lh == [] && fs.log.cache.face.held == map[] && HistOk(fs.sb, fs.log.hist)
    ensures fs.log.hist == if old(fs.log.lh) == [] then old(fs.log.hist) else old(fs.log.hist) + [old(fs.View())]
    ensures LastShows(fs.sb, fs.log.hist, fs.a)
  {
    hide TxnLog.Valid, Consistent, Settled, InOrder, HistOk, Shows, HomeEq;
    ghost var v := fs.View();
    BoundaryWhole(fs.sb, v, fs.a, fs.stale, fs.icache, m);
    HistMore(fs.sb, fs.log.hist, v, fs.a);
    fs.log.Facts();
    if fs.log.lh == [] {
      ShowsHome(fs.sb, v, fs.log.hist[|fs.log.hist| - 1], fs.a);
    }
    fs.log.Commit();
    fs.log.Facts();
    HomeSym(fs.log.area, fs.View(), v);
    ConsistentHome(fs.sb, v, fs.View(), fs.a, fs.stale, fs.icache);
  }

  lemma HomeSym(a: Area, d: Disk, e: Disk)
    requires HomeEq(a, d, e)
    ensures HomeEq(a, e, d)
  {
  }

  /** At most one boundary more. */
  ghost predicate OneMore(h: seq<Disk>, h': seq<Disk>)
  {
    h <= h' && |h'| <= |h| + 1
  }

  /** create followed by iput, as mkdir and mknod do it. */
  method CreateNode(fs: FileSys, path: Path, typ: s16, major: s16, minor: s16, ghost m: Map) returns (r: Res<int>, ghost m': Map)
    requires fs.Valid() && Settled(fs.a, fs.stale, fs.icache) && InOrder(fs.a, m) && typ != 0 && typ != T_FILE
    requires fs.Room(20) && |fs.log.cache.face.held| <= 2
    modifies fs`icache, fs`a, fs`stale, fs.log`lh, fs.log.cache
    ensures fs.log.Valid() && Still(old(fs.log.cache.face), fs.log.cache.face)
    ensures r.Panic? ==> CreateStops(old(fs.a), Elements(path), r.why)
    ensures r.Panic? ==> Exhausted(fs.sb, fs.View(), fs.a, fs.icache, r.why)
    ensures r.Ok? ==> fs.Valid() && Settled(fs.a, fs.stale, fs.icache) && Quiet(old(fs.log.cache.face), fs.log.cache.face) && InOrder(fs.a, m')
    ensures r.Ok? ==> Took(old(fs.icache), fs.icache, -1) && TypesKept(old(fs.icache), old(fs.a), fs.a)
    ensures r.Ok? ==> NodeMade(old(fs.a), m, fs.a, m', Elements(path), typ, major, minor, r.value)
  {
    hide TxnLog.Valid, Consistent, Settled, InOrder, Took, CreateResult, NodeMade, TypesKept, Exhausted, CreateStops;
    ghost var p, c := fs.Now(), fs.icache;
    SettledSized(fs.a, fs.stale, fs.icache);
    r, m' := Create(fs, path, typ, major, minor, m);
    if r.Ok? {
      ghost var c' := fs.icache;
      ResultFacts(p.a, c, m, fs.a, c', m', Elements(path), typ, major, minor, r.value);
      CreateTypes(p.a, p.stale, c, m, fs.a, c', m', Elements(path), typ, major, minor, r.value);
      MadeBy(p.a, c, m, fs.a, c', m', Elements(path), typ, major, minor, r.value);
      if r.value >= 0 {
        PutLinked(fs, r.value);
        TookDropped(c, c', fs.icache, r.value);
        r := Ok(0);
      }
    }
  }

  /** mkdir and mknod: create an inode that nobody has open. */
  method MakeNode(sys: Sys, path: Path, typ: s16, major: s16, minor: s16) returns (r: Res<int>)
    requires sys.Valid() && typ != 0 && typ != T_FILE
    modifies sys`m, sys.fs`icache, sys.fs`a, sys.fs`stale, sys.fs.log`lh, sys.fs.log`hist, sys.fs.log`marks, sys.fs.log.cache
    ensures r.Panic? ==> sys.Halted() && sys.fs.log.hist == old(sys.fs.log.hist)
    ensures r.Panic? ==> Exhausted(sys.fs.sb, sys.fs.View(), sys.fs.a, sys.fs.icache, r.why)
    ensures r.Panic? ==> CreateStops(old(sys.fs.a), Elements(path), r.why)
    ensures r.Ok? ==> sys.Valid() && OneMore(old(sys.fs.log.hist), sys.fs.log.hist) && Took(old(sys.fs.icache), sys.fs.icache, -1)
    ensures r.Ok? ==> NodeMade(old(sys.fs.a), old(sys.m), sys.fs.a, sys.m, Elements(path), typ, major, minor, r.value)
  {
    hide TxnLog.Valid, Consistent, Settled, InOrder, HistOk, Took, Table, NoDirWritable, NodeMade, TypesKept, Shows, NoneLost, Orphans, Exhausted, CreateStops;
    ghost var a, c := sys.fs.a, sys.fs.icache;
    ghost var m';
    r, m' := CreateNode(sys.fs, path, typ, major, minor, sys.m);
    if r.Ok? {
      NodeOrphans(a, sys.m, sys.fs.a, m', Elements(path), typ, major, minor, r.value);
      NoneLostKept(a, sys.fs.a, c, sys.fs.icache, -1, sys.left);
      sys.m := m';
      TableAfter(sys.ftable, c, sys.fs.icache, a, sys.fs.a);
      EndOp(sys.fs, sys.m);
    }
  }

  /** open up to filealloc: the inode for the path, created if asked for; directories only for reading. */
  method OpenInode(fs: FileSys, path: Path, omode: nat, ghost m: Map) returns (r: Res<int>, ghost m': Map)
    requires fs.Valid() && Settled(fs.a, fs.stale, fs.icache) && InOrder(fs.a, m)
    requires fs.Room(20) && |fs.log.cache.face.held| <= 2
    modifies fs`icache, fs`a, fs`stale, fs.log`lh, fs.log.cache
    ensures fs.log.Valid() && Still(old(fs.log.cache.face), fs.log.cache.face)
    ensures r.Panic? ==> CreateStops(old(fs.a), Elements(path), r.why) && (!Has(omode, O_CREATE) ==> r.why == NoInodeSlots)
    ensures r.Panic? ==> Exhausted(fs.sb, fs.View(), fs.a, fs.icache, r.why)
    ensures r.Ok? ==> fs.Valid() && Settled(fs.a, fs.stale, fs.icache) && Quiet(old(fs.log.cache.face), fs.log.cache.face) && InOrder(fs.a, m')
    ensures r.Ok? ==> TypesKept(old(fs.icache), old(fs.a), fs.a) && OpenedInode(old(fs.a), old(fs.icache), m, fs.a, fs.icache, m', Elements(path), omode, r.value)
  {
    hide TxnLog.Valid, Consistent, Settled, InOrder, Took, CreateResult, TypesKept, Goal, Exhausted;
    ghost var p, c := fs.Now(), fs.icache;
    SettledSized(fs.a, fs.stale, fs.icache);
    m' := m;
    if Has(omode, O_CREATE) {
      r, m' := Create(fs, path, T_FILE, 0, 0, m);
      if r.Ok? {
        ResultFacts(p.a, c, m, fs.a, fs.icache, m', Elements(path), T_FILE, 0, 0, r.value);
        CreateTypes(p.a, p.stale, c, m, fs.a, fs.icache, m', Elements(path), T_FILE, 0, 0, r.value);
      }
    } else {
      r := OpenExisting(fs, path, omode, m);
      SameTypes(c, p.a);
    }
  }

  /** open without O_CREATE. */
  method OpenExisting(fs: FileSys, path: Path, omode: nat, ghost m: Map) returns (r: Res<int>)
    requires fs.Valid() && Settled(fs.a, fs.stale, fs.icache) && InOrder(fs.a, m)
    requires fs.Room(20) && |fs.log.cache.face.held| <= 2
    modifies fs`icache, fs`a, fs`stale, fs.log`lh, fs.log.cache
    ensures fs.Valid() && fs.Now() == old(fs.Now()).(icache := fs.icache) && Settled(fs.a, fs.stale, fs.icache)
    ensures r.Panic? ==> r.why == NoInodeSlots
    ensures r.Panic? ==> Exhausted(fs.sb, fs.View(), fs.a, fs.icache, r.why)
    ensures r.Ok? ==> Took(old(fs.icache), fs.icache, r.value)
    ensures r.Ok? ==>
              var t, g := TreeOf(fs.a), Goal(TreeOf(fs.a), ROOTINO, Elements(path), false);
              if g == 0 || g >= |t| || (t[g].typ == T_DIR && omode != 0) then r.value == -1
              else r.value >= 0 && Holds(fs.a, fs.icache, r.value, g) && Loaded(fs.icache, r.value)
  {
    hide TxnLog.Valid, Consistent, Settled, InOrder, Took, Goal, Elements, Exhausted;
    SettledSized(fs.a, fs.stale, fs.icache);
    ghost var c, g := fs.icache, Goal(TreeOf(fs.a), ROOTINO, Elements(path), false);
    fs.log.Facts();
    var name := new byte[DIRSIZ];
    var s :- Namex(fs, path, false, name, m);
    if s < 0 {
      return Ok(-1);
    }
    NodeFacts(fs.a, m, g);
    ghost var mid := fs.icache;
    ReadLinked(fs, s, g);
    TookRead(c, mid, fs.icache, s, s);
    if fs.icache[s].d.typ == T_DIR && omode != 0 {
      mid := fs.icache;
      PutLinked(fs, s);
      TookDropped(c, mid, fs.icache, s);
      return Ok(-1);
    }
    return Ok(s);
  }

  /** filealloc: the first free entry of the table. */
  method Filealloc(ft: seq<File>) returns (f: int)
    ensures -1 <= f < |ft|
    ensures f >= 0 ==> ft[f].ref == 0 && forall g :: 0 <= g < f ==> ft[g].ref > 0
    ensures f < 0 ==> forall g :: 0 <= g < |ft| ==> ft[g].ref > 0
  {
    for k := 0 to |ft|
      invariant forall g :: 0 <= g < k ==> ft[g].ref > 0
    {
      if ft[k].ref == 0 {
        return k;
      }
    }
    return -1;
  }

  /** open. */
  method Open(sys: Sys, path: Path, omode: nat) returns (r: Res<int>)
    requires sys.Valid()
    modifies sys`ftable, sys`m, sys.fs`icache, sys.fs`a, sys.fs`stale, sys.fs.log`lh, sys.fs.log`hist, sys.fs.log`marks, sys.fs.log.cache
    ensures r.Panic? ==> sys.Halted() && sys.fs.log.hist == old(sys.fs.log.hist)
    ensures r.Panic? ==> Exhausted(sys.fs.sb, sys.fs.View(), sys.fs.a, sys.fs.icache, r.why)
    ensures r.Panic? ==> CreateStops(old(sys.fs.a), Elements(path), r.why) && (!Has(omode, O_CREATE) ==> r.why == NoInodeSlots)
    ensures r.Ok? ==> sys.Valid() && OneMore(old(sys.fs.log.hist), sys.fs.log.hist)
    ensures r.Ok? ==> OpenResult(old(sys.fs.a), old(sys.fs.icache), old(sys.m), old(sys.ftable), sys.fs.a, sys.fs.icache, sys.m, sys.ftable, Elements(path), omode, r.value)
  {
    hide TxnLog.Valid, Consistent, Settled, InOrder, HistOk, Took, Table, NoDirWritable, TypesKept, OpenedInode, Has, Shows, NoneLost, Orphans, Exhausted, CreateStops;
    ghost var a, c, ft := sys.fs.a, sys.fs.icache, sys.ftable;
    SettledSized(sys.fs.a, sys.fs.stale, sys.fs.icache);
    ghost var m';
    r, m' := OpenInode(sys.fs, path, omode, sys.m);
    if r.Ok? {
      var s := r.value;
      ghost var mid := sys.fs.icache;
      sys.m := m';
      OpenedFacts(a, c, old(sys.m), sys.fs.a, mid, m', Elements(path), omode, s);
      OpenOrphans(a, c, old(sys.m), sys.fs.a, mid, m', Elements(path), omode, s);
      NoneLostKept(a, sys.fs.a, c, mid, s, sys.left);
      if s < 0 {
        TableAfter(ft, c, mid, a, sys.fs.a);
        EndOp(sys.fs, sys.m);
        return;
      }
      TableLength(ft, c);
      var f := Filealloc(sys.ftable);
      if f < 0 {
        PutLinked(sys.fs, s);
        TookDropped(c, mid, sys.fs.icache, s);
        NoneLostKept(a, sys.fs.a, c, sys.fs.icache, -1, sys.left);
        TableAfter(ft, c, sys.fs.icache, a, sys.fs.a);
        EndOp(sys.fs, sys.m);
        return Ok(-1);
      }
      var x := File(1, true, !Has(omode, O_WRONLY), Has(omode, O_WRONLY) || Has(omode, O_RDWR), s, 0);
      TableOpen(ft, c, mid, s, f, x);
      NoDirOpen(ft, c, mid, a, sys.fs.a, f, x, omode);
      sys.ftable := sys.ftable[f := x];
      EndOp(sys.fs, sys.m);
      return Ok(f);
    }
  }

  /** unlink before its end_op. */
  method UnlinkPath(fs: FileSys, path: Path, ghost m: Map) returns (r: Res<int>)
    requires fs.Valid() && Settled(fs.a, fs.stale, fs.icache) && InOrder(fs.a, m)
    requires fs.log.lh == [] && fs.log.cache.face.held == map[]
    modifies fs`icache, fs`a, fs`stale, fs.log`lh, fs.log.cache
    ensures fs.log.Valid() && Still(old(fs.log.cache.face), fs.log.cache.face)
    ensures r.Panic? ==> r.why == NoInodeSlots || (TooMuch(r.why) && UnlinkTooBig(fs.sb, old(fs.a), old(fs.icache), Elements(path)))
    ensures r.Panic? ==> Exhausted(fs.sb, fs.View(), fs.a, fs.icache, r.why)
    ensures r.Ok? ==> !UnlinkTooBig(fs.sb, old(fs.a), old(fs.icache), Elements(path))
    ensures r.Ok? ==> fs.Valid() && Settled(fs.a, fs.stale, fs.icache) && Quiet(old(fs.log.cache.face), fs.log.cache.face) && InOrder(fs.a, m)
    ensures r.Ok? ==> Took(old(fs.icache), fs.icache, -1) && UnlinkResult(old(fs.a), fs.a, old(fs.icache), Elements(path), r.value)
  {
    hide TxnLog.Valid, Consistent, Settled, InOrder, Took, Goal, Elements, UnlinkedUnder, UnlinkStuck, NameOf, TreeOf;
    SettledSized(fs.a, fs.stale, fs.icache);
    ghost var c, g := fs.icache, Goal(TreeOf(fs.a), ROOTINO, Elements(path), true);
    fs.log.Facts();
    GoalDir(TreeOf(fs.a), ROOTINO, Elements(path));
    var name := new byte[DIRSIZ];
    var s :- Namex(fs, path, true, name, m);
    if s < 0 {
      return Ok(-1);
    }
    NodeFacts(fs.a, m, g);
    hide Still, Quiet;
    ghost var mid := fs.icache;
    ReadLinked(fs, s, g);
    TookRead(c, mid, fs.icache, s, s);
    r := UnlinkIn(fs, s, name[..], m, c, g);
  }

  /** unlink: it panics if the transaction gets too big, that is if the inode to be freed is spread over too many bitmap
      blocks, or if there is no slot for an inode on the way. */
  method Unlink(sys: Sys, path: Path) returns (r: Res<int>)
    requires sys.Valid()
    modifies sys.fs`icache, sys.fs`a, sys.fs`stale, sys.fs.log`lh, sys.fs.log`hist, sys.fs.log`marks, sys.fs.log.cache
    ensures r.Panic? ==> sys.Halted() && sys.fs.log.hist == old(sys.fs.log.hist)
    ensures r.Panic? ==> Exhausted(sys.fs.sb, sys.fs.View(), sys.fs.a, sys.fs.icache, r.why)
    ensures r.Panic? ==> r.why == NoInodeSlots || (TooMuch(r.why) && UnlinkTooBig(sys.fs.sb, old(sys.fs.a), old(sys.fs.icache), Elements(path)))
    ensures r.Ok? ==> !UnlinkTooBig(sys.fs.sb, old(sys.fs.a), old(sys.fs.icache), Elements(path))
    ensures r.Ok? ==> sys.Valid() && OneMore(old(sys.fs.log.hist), sys.fs.log.hist) && Took(old(sys.fs.icache), sys.fs.icache, -1)
    ensures r.Ok? ==> UnlinkResult(old(sys.fs.a), sys.fs.a, old(sys.fs.icache), Elements(path), r.value)
  {
    hide TxnLog.Valid, Consistent, Settled, InOrder, HistOk, Took, Table, NoDirWritable, TypesKept, UnlinkResult, UnlinkTooBig, Shows, NoneLost, Orphans, Exhausted;
    ghost var a, c := sys.fs.a, sys.fs.icache;
    r := UnlinkPath(sys.fs, path, sys.m);
    if r.Ok? {
      UnlinkTypes(a, sys.fs.a, c, Elements(path), r.value);
      UnlinkOrphans(a, sys.m, sys.fs.a, c, Elements(path), r.value);
      NoneLostKept(a, sys.fs.a, c, sys.fs.icache, -1, sys.left);
      TableAfter(sys.ftable, c, sys.fs.icache, a, sys.fs.a);
      EndOp(sys.fs, sys.m);
    }
  }

  /** filedup. */
  method Filedup(sys: Sys, f: nat) returns (r: Res<nat>)
    requires sys.Valid() && f < NFILE == |sys.ftable|
    modifies sys`ftable
    ensures sys.Valid() && (r.Panic? <==> old(sys.ftable)[f].ref < 1)
    ensures r.Panic? ==> r.why == FiledupRef && sys.ftable == old(sys.ftable)
    ensures r.Ok? ==> r.value == f && sys.ftable == old(sys.ftable)[f := old(sys.ftable)[f].(ref := old(sys.ftable)[f].ref + 1)]
  {
    hide FileSys.Valid, Settled, InOrder, HistOk;
    if sys.ftable[f].ref < 1 {
      return Panic(FiledupRef);
    }
    var x := sys.ftable[f].(ref := sys.ftable[f].ref + 1);
    TableKeep(sys.ftable, sys.fs.icache, f, x);
    sys.ftable := sys.ftable[f := x];
    return Ok(f);
  }

  /** fileclose: the last close of an unlinked file frees its inode. It panics exactly when the file is not open or the
      blocks of that inode are spread over too many bitmap blocks. */
  method Fileclose(sys: Sys, f: nat) returns (r: Res<()>)
    requires sys.Valid() && f < NFILE == |sys.ftable|
    modifies sys`ftable, sys.fs`icache, sys.fs`a, sys.fs`stale, sys.fs.log`lh, sys.fs.log`hist, sys.fs.log`marks, sys.fs.log.cache
    ensures r.Panic? <==> old(sys.ftable)[f].ref < 1 || CloseTooBig(sys.fs.sb, old(sys.fs.a), old(sys.fs.icache), old(sys.ftable), f)
    ensures r.Panic? ==> sys.Halted() && sys.fs.log.hist == old(sys.fs.log.hist)
    ensures r.Panic? ==> if old(sys.ftable)[f].ref < 1 then r.why == FilecloseRef else TooMuch(r.why)
    ensures r.Ok? ==> sys.Valid() && OneMore(old(sys.fs.log.hist), sys.fs.log.hist)
    ensures r.Ok? ==> CloseResult(old(sys.fs.a), old(sys.fs.icache), old(sys.ftable), sys.fs.a, sys.fs.icache, sys.ftable, f)
  {
    hide TxnLog.Valid, Consistent, Settled, InOrder, HistOk, Table, NoDirWritable, Shows, NoneLost, Spread;
    if sys.ftable[f].ref < 1 {
      return Panic(FilecloseRef);
    }
    OpenReferenced(sys.ftable, sys.fs.icache, f);
    var x := sys.ftable[f].(ref := sys.ftable[f].ref - 1);
    if x.ref > 0 {
      TableKeep(sys.ftable, sys.fs.icache, f, x);
      NoDirKeep(sys.ftable, sys.fs.icache, sys.fs.a, f, x);
      sys.ftable := sys.ftable[f := x];
      return Ok(());
    }
    r := CloseLast(sys, f);
  }

  /** The end of fileclose. */
  method CloseLast(sys: Sys, f: nat) returns (r: Res<()>)
    requires sys.Valid() && f < NFILE == |sys.ftable| && sys.ftable[f].ref == 1
    modifies sys`ftable, sys.fs`icache, sys.fs`a, sys.fs`stale, sys.fs.log`lh, sys.fs.log`hist, sys.fs.log`marks, sys.fs.log.cache
    ensures r.Panic? <==> CloseTooBig(sys.fs.sb, old(sys.fs.a), old(sys.fs.icache), old(sys.ftable), f)
    ensures r.Panic? ==> TooMuch(r.why) && sys.Halted() && sys.fs.log.hist == old(sys.fs.log.hist)
    ensures r.Ok? ==> sys.Valid() && OneMore(old(sys.fs.log.hist), sys.fs.log.hist)
    ensures r.Ok? ==> CloseResult(old(sys.fs.a), old(sys.fs.icache), old(sys.ftable), sys.fs.a, sys.fs.icache, sys.ftable, f)
  {
    hide TxnLog.Valid, Consistent, Settled, InOrder, HistOk, Table, NoDirWritable, Dropped, Shows, NoneLost, CloseTooBig, TooWide, Spread;
    ghost var a, c, ft := sys.fs.a, sys.fs.icache, sys.ftable;
    OpenReferenced(sys.ftable, sys.fs.icache, f);
    ConsistentFacts(sys.fs.sb, sys.fs.View(), a, sys.fs.stale, c);
    CloseWide(sys.fs.sb, sys.fs.View(), a, c, ft, f);
    hide BlocksOk, Synced, Cached;
    var ff := sys.ftable[f];
    var x := ff.(ref := 0, inode := false);
    sys.ftable := sys.ftable[f := x];
    r := Iput(sys.fs, ff.ip);
    if r.Ok? {
      CloseOrder(sys.fs.sb, a, sys.fs.a, c, sys.fs.stale, sys.fs.icache, sys.m, ff.ip);
      TableClose(ft, c, sys.fs.icache, f, x);
      NoDirClose(sys.fs.sb, ft, c, sys.fs.icache, a, sys.fs.a, f, x);
      CloseNoneLost(sys.fs.sb, a, c, ft, sys.fs.a, sys.fs.icache, sys.ftable, f, sys.left);
      EndOp(sys.fs, sys.m);
    }
  }

  /** When the last close of a file is too much for one transaction. */
  lemma CloseWide(sb: Super, v: Disk, a: Abs, c: seq<Inode>, ft: seq<File>, f: nat)
    requires BlocksOk(sb, v, a) && |a.ino| == sb.ninodes && Cached(sb, a, c) && Table(ft, c) && f < NFILE && ft[f].ref == 1 && ft[f].ip < NINODE
    ensures CloseTooBig(sb, a, c, ft, f) <==> LastUnlinked(c[ft[f].ip]) && TooWide(sb, [], a, c[ft[f].ip].inum)
  {
    OpenReferenced(ft, c, f);
    var i := c[ft[f].ip].inum;
    SpreadFew(sb, v, a, i);
    InodeBlock(sb, i);
    hide BlocksOk, Spread;
    assert Elems([]) + (Spread(sb, a, i) + {sb.IBlock(i)}) == Spread(sb, a, i) + {sb.IBlock(i)};
  }

  /** iread of the inode of an open file cannot panic; it changes no reference. */
  method ReadOpen(fs: FileSys, s: nat)
    requires fs.Valid() && Settled(fs.a, fs.stale, fs.icache) && s < NINODE && fs.icache[s].ref > 0 && |fs.log.lh| + |fs.log.cache.face.held| < NBUF
    modifies fs`icache, fs.log.cache
    ensures fs.Valid() && fs.Now() == old(fs.Now()).(icache := fs.icache) && Settled(fs.a, fs.stale, fs.icache)
    ensures Loaded(fs.icache, s) && fs.icache[s].inum == old(fs.icache[s].inum) && Took(old(fs.icache), fs.icache, -1)
    ensures 0 < fs.icache[s].inum < |fs.a.ino| == |fs.a.file| && fs.icache[s].d == fs.a.ino[fs.icache[s].inum]
  {
    hide TxnLog.Valid, Consistent, Settled;
    ghost var c := fs.icache;
    SettledFacts(fs.sb, fs.View(), fs.a, fs.stale, fs.icache);
    LiveSlot(fs.sb, fs.View(), fs.a, fs.stale, fs.icache, s);
    var r := Iread(fs, s);
    TookNothing(c);
    TookRead(c, c, fs.icache, -1, s);
    ReadSettled(fs.a, fs.stale, c, fs.icache, s);
  }

  lemma LiveSlot(sb: Super, v: Disk, a: Abs, stale: set<nat>, icache: seq<Inode>, s: nat)
    requires Consistent(sb, v, a, stale, icache) && Settled(a, stale, icache) && s < NINODE && icache[s].ref > 0
    ensures 0 < icache[s].inum < |a.ino| && a.ino[icache[s].inum].typ != 0
  {
    ConsistentFacts(sb, v, a, stale, icache);
    CacheSlot(sb, a, icache, s);
  }

  /** fileread: the bytes from the file's offset on, which moves past them; the disk is not touched. */
  method Fileread(sys: Sys, f: nat, n: int, dev: Dev) returns (r: Res<int>, dst: seq<byte>)
    requires sys.Valid() && f < NFILE == |sys.ftable|
    modifies sys`ftable, sys.fs`icache, sys.fs`a, sys.fs`stale, sys.fs.log`lh, sys.fs.log.cache
    ensures sys.Valid() && sys.fs.a == old(sys.fs.a) && sys.fs.log.hist == old(sys.fs.log.hist) && Took(old(sys.fs.icache), sys.fs.icache, -1)
    ensures r.Panic? <==> old(sys.ftable[f].readable && !sys.ftable[f].inode)
    ensures r.Panic? ==> r.why == FilereadType && sys.ftable == old(sys.ftable)
    ensures r.Ok? ==> FileRead(sys.fs.a, sys.fs.icache, old(sys.ftable), sys.ftable, f, Unsigned(n), dev, r.value, dst)
  {
    hide TxnLog.Valid, Consistent, Settled, InOrder, HistOk, Table, NoDirWritable, Took, ReadOf, Shows, NoneLost, Orphans, TypesKept;
    ghost var c, ft := sys.fs.icache, sys.ftable;
    var x := sys.ftable[f];
    dst := [];
    TookNothing(c);
    if !x.readable {
      return Ok(-1), [];
    }
    TableInode(sys.ftable, sys.fs.icache, f);
    if !x.inode {
      return Panic(FilereadType), [];
    }
    OpenReferenced(sys.ftable, sys.fs.icache, f);
    ReadOpen(sys.fs, x.ip);
    SameTypes(c, sys.fs.a);
    TableAfter(sys.ftable, c, sys.fs.icache, sys.fs.a, sys.fs.a);
    NoneLostKept(sys.fs.a, sys.fs.a, c, sys.fs.icache, -1, sys.left);
    var k;
    k, dst := Readi(sys.fs, x.ip, x.off, Unsigned(n), dev);
    if k > 0 {
      var y := x.(off := Unsigned(x.off + k));
      TableKeep(sys.ftable, sys.fs.icache, f, y);
      NoDirKeep(sys.ftable, sys.fs.icache, sys.fs.a, f, y);
      sys.ftable := sys.ftable[f := y];
    }
    return Ok(k), dst;
  }

  /** The transaction of one chunk, before its end_op: at most MAXOPBLOCKS blocks. */
  method WriteChunk(fs: FileSys, s: nat, src: seq<byte>, off: u32, dev: Dev, ghost m: Map) returns (r: Res<int>)
    requires fs.Valid() && Settled(fs.a, fs.stale, fs.icache) && InOrder(fs.a, m) && fs.log.lh == [] && |fs.log.cache.face.held| <= 2
    requires s < NINODE && fs.icache[s].ref > 0 && |src| <= CHUNK
    requires fs.icache[s].inum < |fs.a.ino| ==> fs.a.ino[fs.icache[s].inum].typ != T_DIR
    modifies fs`icache, fs`a, fs`stale, fs.log`lh, fs.log.cache
    ensures fs.log.Valid() && Still(old(fs.log.cache.face), fs.log.cache.face)
    ensures r.Panic? ==> r.why == OutOfBlocks && old(fs.icache[s].inum < |fs.a.ino| && fs.a.ino[fs.icache[s].inum].typ != T_DEV)
    ensures r.Panic? ==> Exhausted(fs.sb, fs.View(), fs.a, fs.icache, r.why)
    ensures r.Ok? ==> fs.Valid() && Settled(fs.a, fs.stale, fs.icache) && Quiet(old(fs.log.cache.face), fs.log.cache.face) && InOrder(fs.a, m)
    ensures r.Ok? ==> |fs.log.lh| <= MAXOPBLOCKS && Took(old(fs.icache), fs.icache, -1) && TypesKept(old(fs.icache), old(fs.a), fs.a)
    ensures r.Ok? ==> ChunkDone(old(fs.a), fs.a, old(fs.icache[s].inum), off, src, dev, r.value)
    ensures r.Ok? && FullChunk(fs.sb, old(fs.View()), old(fs.a), old(fs.icache[s].inum), off, |src|) ==> |fs.log.lh| == MAXOPBLOCKS
  {
    hide TxnLog.Valid, Consistent, Settled, InOrder, Took, TypesKept, Written, Overwritten, WriteCost, WriteLogged, FullChunk, Exhausted;
    ghost var c, a := fs.icache, fs.a;
    fs.log.Facts();
    ReadOpen(fs, s);
    ghost var p := fs.Now();
    SizedFacts(fs.sb, fs.View(), fs.a, fs.stale, fs.icache, s);
    SettledSized(fs.a, fs.stale, fs.icache);
    if off <= fs.icache[s].d.size {
      ChunkCost(fs.icache[s].d.size, off, |src|);
    }
    SameTypes(c, a);
    var d := fs.icache[s].d;
    var k :- Writei(fs, s, src, off, dev);
    if d.typ != T_DEV && !WriteRefused(d, off, |src|) {
      WrittenOver(p, fs.Now(), s, off, src);
      SettledSized(fs.a, fs.stale, fs.icache);
      OverwrittenOrder(p.a, fs.a, m, p.icache[s].inum, off, src);
      OverwrittenTypes(p.a, fs.a, c, p.icache[s].inum, off, src);
      TookRead(c, p.icache, fs.icache, -1, s);
    }
    if FullChunk(fs.sb, p.face.view, p.a, p.icache[s].inum, off, |src|) {
      FullChunkFacts(fs.sb, p.face.view, p.a, p.icache[s].inum, off, |src|);
      fs.log.Facts();
      FullChunkLog(fs.sb, p, fs.Now(), s, src);
    }
    return Ok(k);
  }

  /** One pass of the loop in filewrite: a transaction of its own. */
  method WriteStep(sys: Sys, f: nat, src: seq<byte>, dev: Dev) returns (r: Res<int>)
    requires sys.Valid() && f < NFILE == |sys.ftable| && sys.ftable[f].ref > 0 && sys.ftable[f].writable && |src| <= CHUNK
    modifies sys`ftable, sys.fs`icache, sys.fs`a, sys.fs`stale, sys.fs.log`lh, sys.fs.log`hist, sys.fs.log`marks, sys.fs.log.cache
    ensures r.Panic? ==> r.why == OutOfBlocks && sys.Halted() && sys.fs.log.hist == old(sys.fs.log.hist)
    ensures r.Panic? ==> !IsDevice(old(sys.fs.a), old(sys.fs.icache), old(sys.ftable), f)
    ensures r.Panic? ==> Exhausted(sys.fs.sb, sys.fs.View(), sys.fs.a, sys.fs.icache, r.why)
    ensures r.Ok? ==> sys.Valid() && OneMore(old(sys.fs.log.hist), sys.fs.log.hist) && Took(old(sys.fs.icache), sys.fs.icache, -1)
    ensures r.Ok? ==> StepDone(old(sys.fs.a), old(sys.fs.icache), old(sys.ftable), sys.fs.a, sys.ftable, f, src, dev, r.value)
  {
    hide TxnLog.Valid, Consistent, Settled, InOrder, HistOk, Table, NoDirWritable, Took, TypesKept, ChunkDone, Shows, NoneLost, Orphans, FullChunk, Exhausted;
    ghost var a, c := sys.fs.a, sys.fs.icache;
    var x := sys.ftable[f];
    OpenReferenced(sys.ftable, sys.fs.icache, f);
    WritableFile(sys.ftable, sys.fs.icache, sys.fs.a, f);
    LiveSlot(sys.fs.sb, sys.fs.View(), sys.fs.a, sys.fs.stale, sys.fs.icache, x.ip);
    var k :- WriteChunk(sys.fs, x.ip, src, x.off, dev, sys.m);
    TableAfter(sys.ftable, c, sys.fs.icache, a, sys.fs.a);
    ChunkOrphans(a, sys.fs.a, c[x.ip].inum, x.off, src, dev, k);
    NoneLostKept(a, sys.fs.a, c, sys.fs.icache, -1, sys.left);
    if k > 0 {
      var y := x.(off := Unsigned(x.off + k));
      TableKeep(sys.ftable, sys.fs.icache, f, y);
      NoDirKeep(sys.ftable, sys.fs.icache, sys.fs.a, f, y);
      sys.ftable := sys.ftable[f := y];
    }
    EndOp(sys.fs, sys.m);
    return Ok(k);
  }

  /** filewrite: chunk after chunk, each in a transaction of its own, so every boundary it adds holds the file with some
      chunks written; `dev` is what the device driver would answer to each call. */
  method Filewrite(sys: Sys, f: nat, n: int, src: seq<byte>, dev: nat -> Dev) returns (r: Res<int>, ghost done: nat)
    requires sys.Valid() && f < NFILE == |sys.ftable| && n < 0x8000_0000 && |src| == Offered(n)
    modifies sys`ftable, sys.fs`icache, sys.fs`a, sys.fs`stale, sys.fs.log`lh, sys.fs.log`hist, sys.fs.log`marks, sys.fs.log.cache
    ensures r.Panic? ==> r.why == OutOfBlocks || r.why == ShortFilewrite || r.why == FilewriteType
    ensures r.Panic? ==> Exhausted(sys.fs.sb, sys.fs.View(), sys.fs.a, sys.fs.icache, r.why)
    ensures r.Panic? ==> sys.Halted()
    ensures r.Panic? && r.why == ShortFilewrite ==> ShortWrite(old(sys.fs.a), old(sys.fs.icache), old(sys.ftable), f, |src|, dev)
    ensures r.Panic? && r.why == OutOfBlocks ==> !IsDevice(old(sys.fs.a), old(sys.fs.icache), old(sys.ftable), f)
    ensures r.Panic? && r.why == FilewriteType <==> old(sys.ftable[f].writable && !sys.ftable[f].inode)
    ensures r.Ok? ==> sys.Valid()
    ensures WriteBoundaries(sys.fs.sb, Snap(old(sys.fs.a), old(sys.m), old(sys.fs.icache), old(sys.ftable)), f, src, old(sys.fs.log.hist), sys.fs.log.hist)
    ensures r.Ok? && (!old(sys.ftable)[f].writable || n < 0) ==>
              r.value == -1 && sys.fs.a == old(sys.fs.a) && sys.ftable == old(sys.ftable) && sys.fs.icache == old(sys.fs.icache)
    ensures r.Ok? && old(sys.ftable)[f].writable && n >= 0 ==>
              FileWritten(old(sys.fs.a), old(sys.fs.icache), old(sys.ftable), sys.fs.a, sys.fs.icache, sys.ftable, f, src, done, r.value)
    ensures r.Ok? && old(sys.ftable)[f].writable && n >= 0 ==>
              DeviceResult(old(sys.fs.a), old(sys.fs.icache), old(sys.ftable), f, |src|, dev, done, r.value)
  {
    hide TxnLog.Valid, Consistent, Settled, InOrder, HistOk, Table, NoDirWritable, Took, Overwritten, Progress, ChunkDone, Shows, NoneLost, Partway, Exhausted, StepDone,
      FileWritten, IsDevice, DeviceTaking, DeviceResult, ShortWrite, Chunks, Before, ChunkSize;
    ghost var s := Snap(sys.fs.a, sys.m, sys.fs.icache, sys.ftable);
    done := 0;
    var x := sys.ftable[f];
    if !x.writable {
      return Ok(-1), 0;
    }
    TableInode(sys.ftable, sys.fs.icache, f);
    if !x.inode {
      OtherReason(sys.fs.sb, sys.fs.View(), sys.fs.a, sys.fs.icache, FilewriteType);
      return Panic(FilewriteType), 0;
    }
    OpenReferenced(sys.ftable, sys.fs.icache, f);
    LiveSlot(sys.fs.sb, sys.fs.View(), sys.fs.a, sys.fs.stale, sys.fs.icache, x.ip);
    ProgressStart(s.a, s.icache, s.ft, f, src);
    TakingStart(s.a, s.icache, s.ft, f, |src|, dev);
    var i, calls := 0, 0;
    while i < n
      invariant sys.Valid() && 0 <= i <= |src| && 0 <= calls <= Chunks(|src|) && i == Before(|src|, calls)
      invariant WriteBoundaries(sys.fs.sb, s, f, src, old(sys.fs.log.hist), sys.fs.log.hist)
      invariant Progress(s.a, s.icache, s.ft, sys.fs.a, sys.fs.icache, sys.ftable, f, src, i)
      invariant DeviceTaking(s.a, s.icache, s.ft, f, |src|, dev, calls)
      invariant n < 0 ==> sys.fs.a == s.a && sys.ftable == s.ft && sys.fs.icache == s.icache
    {
      ghost var a', c', ft', h' := sys.fs.a, sys.fs.icache, sys.ftable, sys.fs.log.hist;
      ProgressFile(s.a, s.icache, s.ft, a', c', ft', f, src, i);
      DeviceKept(s.a, s.icache, s.ft, a', c', ft', f, src, i);
      ChunkNext(|src|, calls);
      var n1 := NextChunk(n - i);
      var k :- WriteStep(sys, f, src[i..i + n1], dev(calls));
      DeviceStep(s.a, s.icache, s.ft, a', c', ft', sys.fs.a, sys.ftable, f, src, i, n1, dev(calls), k);
      DeviceEnds(s.a, s.icache, s.ft, f, |src|, dev, calls);
      if k < 0 {
        Stopped(s.a, s.icache, s.ft, a', c', ft', sys.fs.a, sys.fs.icache, sys.ftable, f, src, i, n1, dev(calls), k);
        OneBoundary(sys.fs.sb, s, sys.fs.a, sys.fs.icache, sys.ftable, f, src, i, old(sys.fs.log.hist), h', sys.fs.log.hist);
        return Ok(-1), i;
      }
      if k != n1 {
        ShortIsDevice(s.a, s.icache, s.ft, a', c', ft', sys.fs.a, sys.ftable, f, src, i, n1, dev(calls), k);
        OneBoundary(sys.fs.sb, s, sys.fs.a, c', ft', f, src, i, old(sys.fs.log.hist), h', sys.fs.log.hist);
        OtherReason(sys.fs.sb, sys.fs.View(), sys.fs.a, sys.fs.icache, ShortFilewrite);
        return Panic(ShortFilewrite), i;
      }
      ProgressMore(s.a, s.icache, s.ft, a', c', ft', sys.fs.a, sys.fs.icache, sys.ftable, f, src, i, n1, dev(calls));
      OneBoundary(sys.fs.sb, s, sys.fs.a, sys.fs.icache, sys.ftable, f, src, i + n1, old(sys.fs.log.hist), h', sys.fs.log.hist);
      TakingMore(s.a, s.icache, s.ft, f, |src|, dev, calls);
      i, calls := i + n1, calls + 1;
    }
    WriteEnds(s.a, s.icache, s.ft, sys.fs.a, sys.fs.icache, sys.ftable, f, src, dev, i, calls);
    return Ok(if i == n then n else -1), i;
  }
}
