/** What every disk at a transaction boundary satisfies. */
module FsDisk {
  import opened RedoLog
  import opened FsFormat
  import opened FsState
  import opened FsSteps
  import opened FsInodeSteps
  import opened Tree
  import opened FsTree

  /** The disk alone tells the whole story: files are mapped without holes, every block belongs to at most
      one of them, the bitmap has exactly the blocks in use, and directories and link counts form a tree. */
  ghost predicate WholeDisk(sb: Super, v: Disk, a: Abs, m: Map)
  {
    BlocksOk(sb, v, a) && a.limbo == {} && Synced(sb, v, a, {}) && InOrder(a, m)
  }

  /** Disk `v` holds the file system `a`. */
  ghost predicate Shows(sb: Super, v: Disk, a: Abs)
  {
    exists m: Map :: WholeDisk(sb, v, a, m)
  }

  ghost predicate DiskOk(sb: Super, v: Disk)
  {
    exists a: Abs :: Shows(sb, v, a)
  }

  /** And no other: inodes, contents and owners can all be read off it. */
  lemma ShowsOne(sb: Super, v: Disk, a: Abs, b: Abs)
    requires Shows(sb, v, a) && Shows(sb, v, b)
    ensures a == b
  {
    hide WholeDisk;
    var m: Map :| WholeDisk(sb, v, a, m);
    var n: Map :| WholeDisk(sb, v, b, n);
    WholeOne(sb, v, a, m, b, n);
  }

  lemma WholeOne(sb: Super, v: Disk, a: Abs, m: Map, b: Abs, n: Map)
    requires WholeDisk(sb, v, a, m) && WholeDisk(sb, v, b, n)
    ensures a == b
  {
    hide WholeDisk, BlocksOk, Synced, Shape, Sized;
    WholeFacts(sb, v, a, m);
    WholeFacts(sb, v, b, n);
    SameInodes(sb, v, a, b);
    SameFiles(sb, v, a, b);
    SameOwners(sb, v, a, b);
  }

  lemma SameOwners(sb: Super, v: Disk, a: Abs, b: Abs)
    requires BlocksOk(sb, v, a) && BlocksOk(sb, v, b) && a.ino == b.ino && a.file == b.file
    ensures a.owner == b.owner
  {
    hide BlocksOk;
    OwnersIn(sb, v, a, b);
    OwnersIn(sb, v, b, a);
  }

  lemma WholeFacts(sb: Super, v: Disk, a: Abs, m: Map)
    requires WholeDisk(sb, v, a, m)
    ensures BlocksOk(sb, v, a) && Shape(sb, v, a) && Synced(sb, v, a, {}) && a.limbo == {} && |a.ino| == |a.file| && Sized(a)
  {
    InOrderSized(a, m);
  }

  lemma SameInodes(sb: Super, v: Disk, a: Abs, b: Abs)
    requires Shape(sb, v, a) && Shape(sb, v, b) && Synced(sb, v, a, {}) && Synced(sb, v, b, {})
    ensures a.ino == b.ino
  {
    forall i | 0 <= i < sb.ninodes ensures a.ino[i] == b.ino[i] {
      assert InodeAt(sb, v, i) == a.ino[i] && InodeAt(sb, v, i) == b.ino[i];
    }
  }

  lemma SameFiles(sb: Super, v: Disk, a: Abs, b: Abs)
    requires BlocksOk(sb, v, a) && BlocksOk(sb, v, b) && |a.ino| == |a.file| && |b.ino| == |b.file| && Sized(a) && Sized(b) && a.ino == b.ino
    ensures a.file == b.file
  {
    forall i | 0 <= i < sb.ninodes ensures a.file[i] == b.file[i] {
      assert MappedAt(v, a, i) && MappedAt(v, b, i);
    }
  }

  lemma OwnersIn(sb: Super, v: Disk, a: Abs, b: Abs)
    requires BlocksOk(sb, v, a) && BlocksOk(sb, v, b) && a.ino == b.ino && a.file == b.file
    ensures forall x :: x in a.owner ==> x in b.owner && b.owner[x] == a.owner[x]
  {
    forall x | x in a.owner ensures x in b.owner && b.owner[x] == a.owner[x] {
      assert HeldAt(sb, v, a, x);
      assert MappedAt(v, a, a.owner[x].i) && MappedAt(v, b, a.owner[x].i);
    }
  }

  /** At the last boundary the disk held `a`. */
  ghost predicate LastShows(sb: Super, hist: seq<Disk>, a: Abs)
  {
    hist != [] && Shows(sb, hist[|hist| - 1], a)
  }

  ghost predicate HistOk(sb: Super, hist: seq<Disk>)
  {
    forall k :: 0 <= k < |hist| ==> DiskOk(sb, hist[k])
  }

  /** At an operation boundary the disk is whole. */
  lemma BoundaryWhole(sb: Super, v: Disk, a: Abs, stale: set<nat>, icache: seq<Inode>, m: Map)
    requires Consistent(sb, v, a, stale, icache) && Settled(a, stale, icache) && InOrder(a, m)
    ensures WholeDisk(sb, v, a, m) && Shows(sb, v, a)
  {
    hide BlocksOk, InOrder;
  }

  /** Nothing in the file system depends on the log area. */
  lemma BlocksHome(sb: Super, v: Disk, w: Disk, a: Abs)
    requires BlocksOk(sb, v, a) && HomeEq(sb.LogArea(), v, w)
    ensures BlocksOk(sb, w, a)
  {
    OwnedRange(sb, v, a);
    FilesFrame(sb, v, w, a);
    BitsFrame(sb, v, w);
  }

  lemma ConsistentHome(sb: Super, v: Disk, w: Disk, a: Abs, stale: set<nat>, icache: seq<Inode>)
    requires Consistent(sb, v, a, stale, icache) && HomeEq(sb.LogArea(), v, w)
    ensures Consistent(sb, w, a, stale, icache)
  {
    ConsistentFacts(sb, v, a, stale, icache);
    BlocksHome(sb, v, w, a);
    BlocksShape(sb, w, a);
    hide BlocksOk, Cached;
    SyncedFrame(sb, v, w, a, stale);
  }

  lemma ShowsHome(sb: Super, v: Disk, w: Disk, a: Abs)
    requires Shows(sb, v, a) && HomeEq(sb.LogArea(), v, w)
    ensures Shows(sb, w, a)
  {
    var m: Map :| WholeDisk(sb, v, a, m);
    BlocksHome(sb, v, w, a);
    BlocksShape(sb, w, a);
    BlocksShape(sb, v, a);
    hide BlocksOk, InOrder;
    SyncedFrame(sb, v, w, a, {});
    assert WholeDisk(sb, w, a, m);
  }

  lemma HistMore(sb: Super, hist: seq<Disk>, v: Disk, a: Abs)
    requires HistOk(sb, hist) && Shows(sb, v, a)
    ensures HistOk(sb, hist + [v])
  {
  }

  /** The inode cache at boot. */
  function EmptyCache(): (c: seq<Inode>)
    ensures |c| == NINODE && forall s :: 0 <= s < NINODE ==> c[s].ref == 0
  {
    seq(NINODE, _ => Inode(0, 0, false, FREE))
  }

  /** A whole disk is all that is needed to start from. */
  lemma Booted(sb: Super, h: Disk, v: Disk) returns (a: Abs, m: Map)
    requires DiskOk(sb, h) && HomeEq(sb.LogArea(), v, h)
    ensures Consistent(sb, v, a, {}, EmptyCache()) && Settled(a, {}, EmptyCache()) && InOrder(a, m) && Shows(sb, h, a)
  {
    a :| Shows(sb, h, a);
    assert HomeEq(sb.LogArea(), h, v);
    ShowsHome(sb, h, v, a);
    m :| WholeDisk(sb, v, a, m);
    BlocksShape(sb, v, a);
    hide BlocksOk, InOrder;
    InOrderSized(a, m);
  }

  lemma InOrderSized(a: Abs, m: Map)
    requires InOrder(a, m)
    ensures |a.ino| == |a.file| && Sized(a)
  {
  }

  lemma HistOne(sb: Super, h: Disk)
    requires DiskOk(sb, h)
    ensures HistOk(sb, [h])
  {
  }
}
