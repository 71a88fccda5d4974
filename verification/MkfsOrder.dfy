/** mkfs.c: when the image is in order. */
module MkfsOrder {
  import opened Bytes
  import opened RedoLog
  import opened FsFormat
  import opened FsState
  import opened FsSteps
  import opened FsInodeSteps
  import opened FsContent
  import opened DirFormat
  import opened Tree
  import opened FsTree
  import opened FsDisk
  import opened MkfsState
  import opened MkfsTree

  /** To mkfs every slot of the inode blocks is an inode, whatever the superblock says; we leave out the very last. */
  function Wide(sb: Super): (r: Super)
    ensures sb.Ok() ==> r.Ok() && sb.ninodes <= r.ninodes && r == sb.(ninodes := r.ninodes)
  {
    sb.(ninodes := IPB * (sb.ninodes / IPB + 1) - 1)
  }

  /** The files fit into the image. */
  predicate Fits(sb: Super, files: seq<Source>)
  {
    && DIRENT * (|files| + 2) <= MAXFILE * BSIZE && (forall k :: 0 <= k < |files| ==> |files[k].content| <= MAXFILE * BSIZE)
    && sb.DataStart() + Used(files, |files|) <= sb.size && sb.DataStart() + Used(files, |files|) < BPB
  }

  /** Nothing speaks against the image: the names can be told apart, there are enough inodes, and the root directory
      does not end with a full block, which rounding its size would take for one more. */
  predicate Orderly(sb: Super, files: seq<Source>)
  {
    DistinctFiles(files) && |files| + 2 <= sb.ninodes && (|files| + 2) % 32 != 0
  }

  /** What mkfs puts on the disk before it rounds the size of the root directory: the files, in the inodes from 2 on, with
      their names in the root directory. */
  ghost predicate Stocked(a: Abs, files: seq<Source>)
  {
    && |files| + 2 <= |a.ino| == |a.file| < 0x8000 && Sized(a) && DirIs(a, ROOTINO, RootEnts(files, |files|)) && a.ino[ROOTINO].nlink == 1
    && ZeroTail(a.ino[ROOTINO].size, a.file[ROOTINO]) && (forall k :: 0 <= k < |files| ==> FileIs(a, k + 2, files[k].content))
    && forall j :: 0 <= j < |a.ino| && (j == 0 || |files| + 2 <= j) ==> a.ino[j] == FREE
  }

  /** And after. */
  function RoundedRoot(a: Abs): (b: Abs)
    requires ROOTINO < |a.ino| && a.ino[ROOTINO].size <= MAXFILE * BSIZE
  {
    WithInode(a, ROOTINO, a.ino[ROOTINO].(size := Rounded(a.ino[ROOTINO].size)))
  }

  // If nothing speaks against it.

  /** Every file has its name at the place of the same number. */
  ghost function FlatMap(n: nat): (m: Map)
  {
    Map(map j | 2 <= j < n + 2 :: Place(ROOTINO, j), map j | 1 <= j < n + 2 :: FlatDepth(j))
  }

  function FlatDepth(j: nat): (k: nat)
  {
    if j == ROOTINO then 0 else 1
  }

  /** The shape of the tree. */
  ghost predicate Flat(t: Nodes, files: seq<Source>)
  {
    && |files| + 2 <= |t| < 0x8000 && t[ROOTINO] == Node(T_DIR, 1, RootEnts(files, |files|))
    && (forall j :: 2 <= j < |files| + 2 ==> t[j] == Node(T_FILE, 1, []))
    && forall j :: 0 <= j < |t| && (j == 0 || |files| + 2 <= j) ==> t[j] == Node(0, 0, [])
  }

  lemma StockedFlat(a: Abs, files: seq<Source>)
    requires Stocked(a, files)
    ensures Flat(TreeOf(a), files) && DirSizes(a)
  {
    hide EntsOf, ZeroTail, RootEnts, Content, Sized;
    var t := TreeOf(a);
    forall j | 2 <= j < |files| + 2 ensures t[j] == Node(T_FILE, 1, []) && a.ino[j].typ == T_FILE {
      var k := j - 2;
      assert FileIs(a, k + 2, files[k].content);
    }
  }

  lemma FlatOk(t: Nodes, files: seq<Source>)
    requires Flat(t, files) && DistinctFiles(files)
    ensures TreeOk(t, FlatMap(|files|))
  {
    hide RootEnts, NameOf, DistinctFiles;
    var n, m := |files|, FlatMap(|files|);
    FlatDir(t, files);
    forall i | 0 <= i < |t| && i != ROOTINO && t[i].nlink > 0 ensures Hangs(t, m, i) {
      RootEntsAt(files, n, i - 2);
    }
    forall i | 0 <= i < |t| ensures LinksAt(t, i) {
      FlatLinks(t, files, i);
    }
  }

  lemma FlatDir(t: Nodes, files: seq<Source>)
    requires Flat(t, files) && DistinctFiles(files)
    ensures DirOk(t, FlatMap(|files|), ROOTINO)
  {
    hide RootEnts, NameOf;
    var n, e := |files|, RootEnts(files, |files|);
    RootDots(files, n);
    forall j | 2 <= j < |e| ensures e[j] == Ent(j, NameOf(files[j - 2].name)) {
      RootEntsAt(files, n, j - 2);
    }
  }

  lemma RootDots(files: seq<Source>, n: nat)
    requires n <= |files| < 0x8000
    ensures RootEnts(files, n)[0] == Ent(ROOTINO, DOT) && RootEnts(files, n)[1] == Ent(ROOTINO, DOTDOT)
  {
    if n > 0 {
      RootEntsAt(files, n, 0);
    }
  }

  lemma FlatLinks(t: Nodes, files: seq<Source>, i: nat)
    requires Flat(t, files) && DistinctFiles(files) && i < |t|
    ensures LinksAt(t, i)
  {
    hide RootEnts, NameOf;
    var n, e := |files|, RootEnts(files, |files|);
    RootDots(files, n);
    forall j | 2 <= j < |e| ensures e[j] == Ent(j, NameOf(files[j - 2].name)) {
      RootEntsAt(files, n, j - 2);
    }
    LinksIff(t, i);
    assert forall d :: 0 <= d < |t| && d != ROOTINO ==> !LinkedDir(t, d);
    if i == ROOTINO {
      assert IsLink(t, Place(ROOTINO, 1), i);
      assert Links(t, i) == {Place(ROOTINO, 1)};
    } else if 2 <= i < n + 2 {
      assert IsLink(t, Place(ROOTINO, i), i);
      assert Links(t, i) == {Place(ROOTINO, i)};
    } else {
      assert Links(t, i) == {};
    }
  }

  lemma StockedOrder(a: Abs, files: seq<Source>)
    requires Stocked(a, files) && DistinctFiles(files)
    ensures InOrder(a, FlatMap(|files|))
  {
    StockedFlat(a, files);
    hide Flat, DistinctFiles, TreeOf, TreeOk, DirSizes, DirIs, ZeroTail, Sized;
    FlatOk(TreeOf(a), files);
  }

  /** The inodes that the superblock tells of. */
  function Cut(a: Abs, n: nat): (b: Abs)
    requires n <= |a.ino| == |a.file|
  {
    a.(ino := a.ino[..n], file := a.file[..n])
  }

  lemma CutLaid(sb: Super, v: Disk, a: Abs)
    requires sb.Ok() && Laid(Wide(sb), v, a) && sb.ninodes <= |a.ino| == |a.file|
    requires forall j :: sb.ninodes <= j < |a.ino| ==> a.ino[j] == FREE && a.file[j] == []
    ensures Laid(sb, v, Cut(a, sb.ninodes))
  {
    var b := Cut(a, sb.ninodes);
    assert Shape(sb, v, b);
    CutFiles(sb, v, a, b);
    forall x | x in b.owner ensures HeldAt(sb, v, b, x) {
      CutOwner(sb, v, a, b, x);
    }
    hide AllMapped, Bits, Synced, HeldAt;
    CutBits(sb, v, a, b);
  }

  lemma CutFiles(sb: Super, v: Disk, a: Abs, b: Abs)
    requires sb.Ok() && Shape(Wide(sb), v, a) && Shape(sb, v, b) && AllMapped(Wide(sb), v, a) && Synced(Wide(sb), v, a, {}) && b == Cut(a, sb.ninodes)
    ensures AllMapped(sb, v, b) && Synced(sb, v, b, {})
  {
    hide Mapped;
    forall i | 0 <= i < sb.ninodes ensures MappedAt(v, b, i) && InodeAt(sb, v, i) == b.ino[i] {
      assert MappedAt(v, a, i) && InodeAt(Wide(sb), v, i) == a.ino[i];
    }
  }

  lemma CutOwner(sb: Super, v: Disk, a: Abs, b: Abs, x: nat)
    requires sb.Ok() && Shape(Wide(sb), v, a) && Shape(sb, v, b) && b == Cut(a, sb.ninodes) && x in a.owner && HeldAt(Wide(sb), v, a, x)
    requires forall j :: sb.ninodes <= j < |a.ino| ==> a.ino[j] == FREE && a.file[j] == []
    ensures HeldAt(sb, v, b, x)
  {
    hide Addr;
    assert a.owner[x].i < sb.ninodes;
  }

  lemma CutBits(sb: Super, v: Disk, a: Abs, b: Abs)
    requires sb.Ok() && Shape(Wide(sb), v, a) && Shape(sb, v, b) && Bits(Wide(sb), v, a) && b.owner == a.owner && b.limbo == a.limbo
    ensures Bits(sb, v, b)
  {
    forall x | 0 <= x < sb.size ensures BitAt(sb, v, x) <==> BitAt(Wide(sb), v, x) {
    }
    hide BitAt;
  }

  lemma CutStocked(a: Abs, files: seq<Source>, n: nat)
    requires Stocked(a, files) && |files| + 2 <= n <= |a.ino|
    ensures Stocked(Cut(a, n), files)
  {
    hide RootEnts, EntsOf, Content;
    var b := Cut(a, n);
    forall k | 0 <= k < |files| ensures FileIs(b, k + 2, files[k].content) {
      assert FileIs(a, k + 2, files[k].content);
    }
  }

  /** The image has everything it should: it is in order, and every file is there under its name. */
  ghost predicate Made(sb: Super, disk: Disk, a: Abs, m: Map, files: seq<Source>)
    requires |files| < 0x8000
  {
    && WholeDisk(sb, disk, a, m) && Recovers(sb.LogArea(), disk, disk) && |a.ino| == |a.file| == sb.ninodes && a.ino[ROOTINO].nlink == 1
    && (exists z: seq<Ent> :: DirIs(a, ROOTINO, RootEnts(files, |files|) + z) && forall k :: 0 <= k < |z| ==> z[k].inum == 0)
    && (forall k :: 0 <= k < |files| ==> FileIs(a, k + 2, files[k].content))
    && forall j :: 0 <= j < |a.ino| && (j == 0 || |files| + 2 <= j) ==> a.ino[j] == FREE
  }

  lemma RoundedFits(n: nat)
    requires n % 32 != 0 && DIRENT * n <= MAXFILE * BSIZE
    ensures Rounded(DIRENT * n) <= MAXFILE * BSIZE
  {
    assert DIRENT * n == BSIZE * (n / 32) + DIRENT * (n % 32);
  }

  lemma OrderlyMade(sb: Super, v: Disk, a: Abs, files: seq<Source>) returns (b: Abs, m: Map)
    requires sb.Ok() && Orderly(sb, files) && Stocked(a, files) && |a.ino| == Wide(sb).ninodes && a.ino[ROOTINO].size <= MAXFILE * BSIZE
    requires Laid(Wide(sb), v, RoundedRoot(a)) && Recovers(sb.LogArea(), v, v)
    ensures Made(sb, v, b, m, files)
  {
    hide Laid, InOrder, DirIs, ZeroTail, RootEnts, FileIs, DistinctFiles, Recovers, Sized, Rounded;
    var c, e := Cut(a, sb.ninodes), RootEnts(files, |files|);
    CutStocked(a, files, sb.ninodes);
    StockedOrder(c, files);
    DirLength(c, ROOTINO, e);
    RoundedFits(|e|);
    m, b := FlatMap(|files|), RoundedRoot(c);
    var z := DirRounded(c, b, m, ROOTINO, e);
    assert Cut(RoundedRoot(a), sb.ninodes) == b;
    FreeFiles(a);
    CutLaid(sb, v, RoundedRoot(a));
    LaidWhole(sb, v, b, m);
    forall k | 0 <= k < |files| ensures FileIs(b, k + 2, files[k].content) {
      FileFrame(c, b, k + 2, files[k].content);
    }
  }

  lemma FreeFiles(a: Abs)
    requires |a.ino| == |a.file| && Sized(a)
    ensures forall j :: 0 <= j < |a.ino| && a.ino[j] == FREE ==> a.file[j] == []
  {
  }

  lemma LaidWhole(sb: Super, v: Disk, a: Abs, m: Map)
    requires Laid(sb, v, a) && InOrder(a, m)
    ensures WholeDisk(sb, v, a, m)
  {
  }

  // If something does.

  /** On a whole disk a root directory of that size has a block there. */
  lemma RootBlock(sb: Super, v: Disk, b: Abs, m: Map, n: nat)
    requires WholeDisk(sb, v, b, m) && sb.Ok() && |v| == sb.size && n % 32 == 0 && InodeAt(sb, v, ROOTINO).size == Rounded(DIRENT * n)
    ensures n / 32 < MAXFILE && Addr(v, InodeAt(sb, v, ROOTINO), n / 32) != 0
  {
    WholeFacts(sb, v, b, m);
    assert InodeAt(sb, v, ROOTINO) == b.ino[ROOTINO] && MappedAt(v, b, ROOTINO);
    RoundedHole(n);
  }

  /** So a root directory whose size takes in one block more than it has is not in order. */
  lemma RootHole(sb: Super, v: Disk, n: nat)
    requires sb.Ok() && |v| == sb.size && n % 32 == 0 && InodeAt(sb, v, ROOTINO).size == Rounded(DIRENT * n)
    requires n / 32 < MAXFILE ==> Addr(v, InodeAt(sb, v, ROOTINO), n / 32) == 0
    ensures !DiskOk(sb, v)
  {
    hide WholeDisk, InodeAt, Addr, Rounded;
    forall b: Abs, m: Map | WholeDisk(sb, v, b, m) ensures false {
      RootBlock(sb, v, b, m, n);
    }
  }

  lemma SameInos(sb: Super, v: Disk, a: Abs, b: Abs)
    requires sb.Ok() && Shape(Wide(sb), v, a) && Shape(sb, v, b) && Synced(Wide(sb), v, a, {}) && Synced(sb, v, b, {})
    ensures b.ino == a.ino[..sb.ninodes]
  {
    forall i | 0 <= i < sb.ninodes ensures b.ino[i] == a.ino[i] {
      assert InodeAt(sb, v, i) == b.ino[i] && InodeAt(Wide(sb), v, i) == a.ino[i];
    }
  }

  lemma HoleAddr(sb: Super, v: Disk, a: Abs, n: nat)
    requires sb.Ok() && Laid(Wide(sb), v, a) && |a.file[ROOTINO]| == Blocks(DIRENT * n) && n % 32 == 0
    ensures InodeAt(sb, v, ROOTINO) == a.ino[ROOTINO] && a.ino[ROOTINO].Ok() && (n / 32 < MAXFILE ==> Addr(v, a.ino[ROOTINO], n / 32) == 0)
  {
    assert InodeAt(Wide(sb), v, ROOTINO) == a.ino[ROOTINO] && MappedAt(v, a, ROOTINO);
    RoundedHole(n);
  }

  lemma SameBlocks(sb: Super, v: Disk, a: Abs, b: Abs, i: nat)
    requires sb.Ok() && BlocksOk(Wide(sb), v, a) && BlocksOk(sb, v, b) && i < sb.ninodes && b.ino[i] == a.ino[i] && |b.file[i]| == |a.file[i]|
    ensures b.file[i] == a.file[i]
  {
    assert MappedAt(v, a, i) && MappedAt(v, b, i);
  }

  /** The inodes and the root directory that the kernel would find are those that mkfs wrote. */
  lemma SameRoot(sb: Super, v: Disk, a: Abs, b: Abs, m: Map, n: nat)
    requires sb.Ok() && Laid(Wide(sb), v, a) && WholeDisk(sb, v, b, m) && a.ino[ROOTINO].size == Rounded(DIRENT * n) && |a.file[ROOTINO]| == Blocks(DIRENT * n)
    ensures n % 32 != 0 && b.ino == a.ino[..sb.ninodes] && |b.ino| == |b.file| && b.file[ROOTINO] == a.file[ROOTINO]
  {
    WholeFacts(sb, v, b, m);
    assert Shows(sb, v, b);
    if n % 32 == 0 {
      HoleAddr(sb, v, a, n);
      RootHole(sb, v, n);
    }
    hide WholeDisk, BlocksOk, Synced;
    BlocksShape(Wide(sb), v, a);
    SameInos(sb, v, a, b);
    RoundedHole(n);
    SameBlocks(sb, v, a, b, ROOTINO);
  }

  /** So if the kernel finds the disk in order, nothing spoke against it. */
  lemma ShownOrderly(sb: Super, v: Disk, a: Abs, files: seq<Source>)
    requires sb.Ok() && Stocked(a, files) && |a.ino| == Wide(sb).ninodes && a.ino[ROOTINO].size <= MAXFILE * BSIZE
    requires Laid(Wide(sb), v, RoundedRoot(a)) && DiskOk(sb, v)
    ensures Orderly(sb, files)
  {
    hide WholeDisk, Laid, ZeroTail, RootEnts, FileIs, DistinctFiles, Rounded, Blocks;
    var b: Abs :| Shows(sb, v, b);
    var m: Map :| WholeDisk(sb, v, b, m);
    var e, c := RootEnts(files, |files|), RoundedRoot(a);
    DirLength(a, ROOTINO, e);
    SizedAt(a, ROOTINO);
    SameRoot(sb, v, c, b, m, |e|);
    RoundedFits(|e|);
    hide Sized, DirIs;
    var z := RoundedEnts(a, c, ROOTINO, e);
    RootNames(sb, v, b, m, c, e + z);
    NamesOrderly(sb, files, z);
  }

  lemma RootNames(sb: Super, v: Disk, b: Abs, m: Map, c: Abs, e: seq<Ent>)
    requires WholeDisk(sb, v, b, m) && DirIs(c, ROOTINO, e) && sb.Ok() && sb.ninodes <= |c.ino| && b.ino == c.ino[..sb.ninodes]
    requires |b.ino| == |b.file| && b.file[ROOTINO] == c.file[ROOTINO] && c.ino[ROOTINO].nlink > 0
    ensures DistinctNames(e) && forall k :: 2 <= k < |e| && e[k].inum != 0 ==> e[k].inum < sb.ninodes
  {
    WholeTree(sb, v, b, m);
    hide WholeDisk, EntsOf, LinksOk, AllHang;
    var t := TreeOf(b);
    assert t[ROOTINO].ents == e && LinkedDir(t, ROOTINO);
    assert DirOk(t, m, ROOTINO);
    forall k | 2 <= k < |e| && e[k].inum != 0 ensures e[k].inum < sb.ninodes {
      assert NamedAt(t, m, e[k].inum, Place(ROOTINO, k));
    }
  }

  lemma WholeTree(sb: Super, v: Disk, b: Abs, m: Map)
    requires WholeDisk(sb, v, b, m)
    ensures |b.ino| == |b.file| == sb.ninodes && Sized(b) && TreeOk(TreeOf(b), m)
  {
    WholeFacts(sb, v, b, m);
    hide BlocksOk, Synced, TreeOk;
  }

  lemma NamesOrderly(sb: Super, files: seq<Source>, z: seq<Ent>)
    requires |files| < 0x8000 && sb.Ok() && DistinctNames(RootEnts(files, |files|) + z)
    requires var e := RootEnts(files, |files|) + z; forall k :: 2 <= k < |e| && e[k].inum != 0 ==> e[k].inum < sb.ninodes
    ensures DistinctFiles(files) && |files| + 2 <= sb.ninodes
  {
    hide RootEnts, NameOf, DistinctFiles, DistinctNames;
    var n, r, e := |files|, RootEnts(files, |files|), RootEnts(files, |files|) + z;
    RootDots(files, n);
    forall k | 2 <= k < n + 2 ensures e[k] == Ent(k, NameOf(files[k - 2].name)) {
      RootEntsAt(files, n, k - 2);
      assert e[k] == r[k];
    }
    assert e[0] == r[0] && e[1] == r[1];
    NamesApart(e, files);
    if n > 0 {
      assert e[n + 1].inum == n + 1;
    }
  }

  lemma NamesApart(e: seq<Ent>, files: seq<Source>)
    requires DistinctNames(e) && |files| + 2 <= |e| && e[0] == Ent(ROOTINO, DOT) && e[1] == Ent(ROOTINO, DOTDOT)
    requires forall k :: 2 <= k < |files| + 2 ==> e[k].inum == k && e[k].name == NameOf(files[k - 2].name)
    ensures DistinctFiles(files)
  {
    hide NameOf;
    forall j | 0 <= j < |files| ensures NameOf(files[j].name) != DOT && NameOf(files[j].name) != DOTDOT {
      var k := j + 2;
      assert e[0].name != e[k].name && e[1].name != e[k].name;
    }
    forall i, j | 0 <= i < j < |files| ensures NameOf(files[i].name) != NameOf(files[j].name) {
      assert e[i + 2].name != e[j + 2].name;
    }
  }
}
