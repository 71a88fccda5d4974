/** mkfs.c: the directory tree of the image. */
module MkfsTree {
  import opened Bytes
  import opened RedoLog
  import opened FsFormat
  import opened FsState
  import opened FsSteps
  import opened FsInodeSteps
  import opened FsContent
  import opened DirFormat
  import opened Tree
  import opened FsTree
  import opened FsDisk
  import opened FileSteps
  import opened MkfsState

  // The start.

  /** The zeroed disk with a bitmap for its first `n` blocks. */
  lemma {:induction false} FirstBits(sb: Super, v: Disk, n: nat) returns (w: Disk)
    requires sb.Ok() && |v| == sb.size && n <= sb.size && Filled(sb, v, 0)
    ensures |w| == sb.size && Filled(sb, w, n)
    ensures forall x :: 0 <= x < sb.size && (x < sb.bmapstart || sb.DataStart() <= x) ==> w[x] == v[x]
  {
    if n == 0 {
      w := v;
    } else {
      w := FirstBits(sb, v, n - 1);
      PutBitAtEffect(sb, w, n - 1, true);
      w := PutBitAt(sb, w, n - 1, true);
    }
  }

  lemma ZeroBits(k: nat)
    requires k < BPB
    ensures !BlockBit(ZERO, k)
  {
    NoBit(k % 8);
  }

  lemma {:induction false} NoBit(j: nat)
    ensures !Bit(0, j)
  {
    if j > 0 {
      NoBit(j - 1);
    }
  }

  lemma ZeroInode(k: nat)
    requires k < IPB
    ensures InodeIn(ZERO, k) == FREE
  {
    var s := ZERO[DINODE * k..DINODE * (k + 1)];
    assert forall j :: 0 <= j < DINODE ==> s[j] == 0;
  }

  /** No inode is in use. */
  ghost function Nothing(n: nat): (a: Abs)
  {
    Abs(seq(n, _ => FREE), seq(n, _ => []), map[], {})
  }

  /** An image of zeros but for block 1, the superblock. */
  predicate Blank(sb: Super, disk: Disk)
  {
    |disk| == sb.size && forall x :: 0 <= x < sb.size && x != 1 ==> disk[x] == ZERO
  }

  lemma BlankImage(sb: Super, disk: Disk) returns (w: Disk)
    requires sb.Ok() && Blank(sb, disk)
    ensures ImageOk(sb, disk, sb.DataStart(), w, Nothing(sb.ninodes), {})
  {
    forall b | 0 <= b < sb.size ensures !BitAt(sb, disk, b) {
      BBlockRange(sb, b);
      ZeroBits(b % BPB);
    }
    w := FirstBits(sb, disk, sb.DataStart());
    var a := Nothing(sb.ninodes);
    assert Shape(sb, w, a);
    forall i | 0 <= i < sb.ninodes ensures MappedAt(w, a, i) && InodeAt(sb, w, i) == a.ino[i] {
      InodeBlock(sb, i);
      ZeroInode(i % IPB);
    }
    hide BitAt, InodeAt, MappedAt;
  }

  /** The root directory alone is a tree. */
  lemma RootTree(a: Abs)
    requires 2 <= |a.ino| == |a.file| < 0x8000 && Sized(a) && a.ino[ROOTINO].nlink == 1 && DirIs(a, ROOTINO, [Ent(ROOTINO, DOT), Ent(ROOTINO, DOTDOT)])
    requires forall i :: 0 <= i < |a.ino| && i != ROOTINO ==> a.ino[i] == FREE
    ensures InOrder(a, Map(map[], map[ROOTINO := 0]))
  {
    var t, m := TreeOf(a), Map(map[], map[ROOTINO := 0]);
    assert t[ROOTINO].ents == [Ent(ROOTINO, DOT), Ent(ROOTINO, DOTDOT)];
    assert LinkedDir(t, ROOTINO) && forall d :: 0 <= d < |t| && d != ROOTINO ==> !LinkedDir(t, d);
    assert DirOk(t, m, ROOTINO);
    forall i | 0 <= i < |t| ensures LinksAt(t, i) {
      RootLinks(t, i);
    }
  }

  lemma RootLinks(t: Nodes, i: nat)
    requires 2 <= |t| && i < |t| && LinkedDir(t, ROOTINO) && (forall d :: 0 <= d < |t| && d != ROOTINO ==> !LinkedDir(t, d) && t[d].nlink == 0)
    requires t[ROOTINO].ents == [Ent(ROOTINO, DOT), Ent(ROOTINO, DOTDOT)] && t[ROOTINO].nlink == 1
    ensures LinksAt(t, i)
  {
    LinksIff(t, i);
    if i == ROOTINO {
      assert IsLink(t, Place(ROOTINO, 1), ROOTINO);
      assert Links(t, i) == {Place(ROOTINO, 1)};
    } else {
      assert Links(t, i) == {};
    }
  }

  // Entries.

  /** An entry appended to a directory. */
  lemma AppendedEnt(a: Abs, b: Abs, i: nat, e: seq<Ent>, inum: u16, name: seq<byte>)
    requires DirIs(a, i, e) && Overwritten(a, b, i, a.ino[i].size, EncodeEnt(inum, name))
    ensures DirIs(b, i, e + [Ent(inum, NameOf(name))]) && b.ino[i].size == a.ino[i].size + DIRENT
  {
    var c, s := Content(a.file[i], a.ino[i].size), EncodeEnt(inum, name);
    EntRoundTrip(inum, name);
    assert DIRENT * (|c| / DIRENT) == |c|;
    EntsOverwrite(c, |c| / DIRENT, s);
  }

  lemma DirLength(a: Abs, i: nat, e: seq<Ent>)
    requires DirIs(a, i, e)
    ensures a.ino[i].size == DIRENT * |e|
  {
  }

  // The end.

  /** The size that mkfs gives the root directory. */
  function Rounded(size: nat): (r: nat)
  {
    (size / BSIZE + 1) * BSIZE
  }

  /** Rounding leaves no hole exactly if the entries do not fill their last block; with a multiple of 32 entries
      the directory would claim a block it does not have. */
  lemma RoundedHole(n: nat)
    ensures Blocks(Rounded(DIRENT * n)) == Blocks(DIRENT * n) <==> n % 32 != 0
    ensures n % 32 == 0 ==> Blocks(Rounded(DIRENT * n)) == Blocks(DIRENT * n) + 1
  {
    assert DIRENT * n == BSIZE * (n / 32) + DIRENT * (n % 32);
  }

  /** Free entries at the end of a directory do not matter. */
  lemma PadTree(t: Nodes, m: Map, d: nat, z: seq<Ent>)
    requires TreeOk(t, m) && LinkedDir(t, d) && forall k :: 0 <= k < |z| ==> z[k].inum == 0
    ensures TreeOk(t[d := t[d].(ents := t[d].ents + z)], m)
  {
    var u := t[d := t[d].(ents := t[d].ents + z)];
    assert forall p, x :: IsLink(u, p, x) <==> IsLink(t, p, x);
    forall x | 0 <= x < |u| ensures LinksAt(u, x) {
      assert LinksAt(t, x);
      LinksSame(t, u, x);
    }
    forall x | 0 <= x < |u| && LinkedDir(u, x) ensures DirOk(u, m, x) {
      assert DirOk(t, m, x);
      PadDir(t, m, u, d, z, x);
    }
    forall x | 0 <= x < |u| && x != ROOTINO && u[x].nlink > 0 ensures Hangs(u, m, x) {
      assert Hangs(t, m, x);
    }
  }

  lemma PadDir(t: Nodes, m: Map, u: Nodes, d: nat, z: seq<Ent>, x: nat)
    requires d < |t| && u == t[d := t[d].(ents := t[d].ents + z)] && (forall k :: 0 <= k < |z| ==> z[k].inum == 0) && x < |t| && DirOk(t, m, x)
    ensures DirOk(u, m, x)
  {
    var e, f := t[x].ents, u[x].ents;
    assert forall j :: 0 <= j < |e| ==> f[j] == e[j];
    assert forall j :: |e| <= j < |f| ==> f[j].inum == 0;
    forall j | 2 <= j < |f| && f[j].inum != 0 ensures NamedAt(u, m, f[j].inum, Place(x, j)) {
      assert NamedAt(t, m, e[j].inum, Place(x, j));
    }
  }

  /** Zero bytes read as free entries. */
  lemma PaddedEnts(f: seq<Block>, size: nat, size': nat)
    requires size <= size' <= |f| * BSIZE && size % DIRENT == 0 && size' % DIRENT == 0 && ZeroTail(size, f)
    ensures var e, e' := Ents(Content(f, size)), Ents(Content(f, size'));
            |e| <= |e'| && e' == e + e'[|e|..] && forall k :: |e| <= k < |e'| ==> e'[k].inum == 0
  {
    var e, e' := Ents(Content(f, size)), Ents(Content(f, size'));
    forall k | 0 <= k < |e| ensures e'[k] == e[k] {
      assert Content(f, size')[DIRENT * k..DIRENT * (k + 1)] == Content(f, size)[DIRENT * k..DIRENT * (k + 1)];
    }
    forall k | |e| <= k < |e'| ensures e'[k].inum == 0 {
      var s := Content(f, size')[DIRENT * k..DIRENT * (k + 1)];
      assert s[0] == ByteAt(f, DIRENT * k) && s[1] == ByteAt(f, DIRENT * k + 1);
    }
  }

  /** A directory with its size rounded up: the rest of its last block reads as free entries. */
  lemma RoundedEnts(a: Abs, b: Abs, d: nat, e: seq<Ent>) returns (z: seq<Ent>)
    requires |a.ino| == |a.file| && Sized(a) && DirIs(a, d, e) && |e| % 32 != 0 && ZeroTail(a.ino[d].size, a.file[d])
    requires Rounded(a.ino[d].size) <= MAXFILE * BSIZE && b == WithInode(a, d, a.ino[d].(size := Rounded(a.ino[d].size)))
    ensures DirIs(b, d, e + z) && |b.ino| == |b.file| && Sized(b) && forall k :: 0 <= k < |z| ==> z[k].inum == 0
  {
    var f, size := a.file[d], Rounded(a.ino[d].size);
    DirLength(a, d, e);
    RoundedHole(|e|);
    assert |f| == Blocks(size) && a.ino[d].size <= size <= |f| * BSIZE;
    PaddedEnts(f, a.ino[d].size, size);
    hide Content, Ents;
    z := Ents(Content(f, size))[|e|..];
  }

  /** The tree does not mind. */
  lemma DirRounded(a: Abs, b: Abs, m: Map, d: nat, e: seq<Ent>) returns (z: seq<Ent>)
    requires InOrder(a, m) && DirIs(a, d, e) && a.ino[d].nlink > 0 && |e| % 32 != 0 && ZeroTail(a.ino[d].size, a.file[d])
    requires Rounded(a.ino[d].size) <= MAXFILE * BSIZE && b == WithInode(a, d, a.ino[d].(size := Rounded(a.ino[d].size)))
    ensures |b.ino| == |b.file| && Sized(b) && InOrder(b, m) && DirIs(b, d, e + z) && forall k :: 0 <= k < |z| ==> z[k].inum == 0
  {
    InOrderSized(a, m);
    hide InOrder, Sized, DirIs, ZeroTail;
    z := RoundedEnts(a, b, d, e);
    DirPadded(a, b, m, d, e, z);
  }

  lemma DirPadded(a: Abs, b: Abs, m: Map, d: nat, e: seq<Ent>, z: seq<Ent>)
    requires InOrder(a, m) && DirIs(a, d, e) && DirIs(b, d, e + z) && a.ino[d].nlink > 0 && (forall k :: 0 <= k < |z| ==> z[k].inum == 0)
    requires |b.ino| == |b.file| && b == WithInode(a, d, a.ino[d].(size := b.ino[d].size)) && Sized(b)
    ensures InOrder(b, m)
  {
    hide EntsOf, TreeOk;
    var t, u := TreeOf(a), TreeOf(b);
    assert t[d].ents == e && u[d] == t[d].(ents := e + z);
    assert forall x :: 0 <= x < |t| && x != d ==> u[x] == t[x];
    assert u == t[d := t[d].(ents := t[d].ents + z)];
    PadTree(t, m, d, z);
  }

  /** The disk holds these inodes and files, in order or not. */
  ghost predicate Laid(sb: Super, v: Disk, a: Abs)
  {
    BlocksOk(sb, v, a) && a.limbo == {} && Synced(sb, v, a, {})
  }

  /** The finished image. */
  lemma Finished(sb: Super, disk: Disk, n: nat, w: Disk, a: Abs, v: Disk)
    requires ImageOk(sb, disk, n, w, a, {}) && |v| == sb.size && Filled(sb, v, n)
    requires forall x :: 0 <= x < sb.size && (x < sb.bmapstart || sb.DataStart() <= x) ==> v[x] == disk[x]
    ensures Laid(sb, v, a) && Recovers(sb.LogArea(), v, v)
  {
    ImageFacts(sb, disk, n, w, a, {});
    OwnedRange(sb, w, a);
    FilesFrame(sb, w, v, a);
    hide AllMapped, Owned, BitAt;
    assert Bits(sb, v, a);
    SyncedFrame(sb, w, v, a, {});
    ZeroCount();
    EmptyLogRecovers(sb.LogArea(), v, v);
  }

  lemma ZeroCount()
    ensures Count(ZERO) == 0
  {
  }

  // Contents.

  /** The file has `k` bytes, those of `c` in order. */
  ghost predicate Filling(a: Abs, b: Abs, i: nat, c: seq<byte>, k: nat)
  {
    k <= |c| && Overwritten(a, b, i, 0, c[..k]) && b.ino[i].size == k
  }

  lemma FillingStart(a: Abs, i: nat, c: seq<byte>)
    requires i < |a.ino| == |a.file| && a.ino[i].size == 0
    ensures Filling(a, a, i, c, 0)
  {
    assert a.ino[i := a.ino[i]] == a.ino && a.file[i := a.file[i]] == a.file && c[..0] == [];
  }

  lemma FillingMore(a: Abs, b: Abs, d: Abs, i: nat, c: seq<byte>, k: nat, m: nat)
    requires Filling(a, b, i, c, k) && k + m <= |c| && Overwritten(b, d, i, k, c[k..k + m])
    ensures Filling(a, d, i, c, k + m)
  {
    assert c[..k] + c[k..k + m] == c[..k + m];
    OverwrittenTwice(a, b, d, i, 0, c[..k], c[k..k + m]);
    var x := Content(b.file[i], b.ino[i].size);
    assert |Overwrite(x, k, c[k..k + m])| == k + m;
  }

  // The files.

  /** One file given on the command line. */
  datatype Source = Source(name: seq<byte>, content: seq<byte>)

  /** File `i` consists of these bytes. */
  ghost predicate FileIs(a: Abs, i: nat, c: seq<byte>)
  {
    i < |a.ino| == |a.file| && a.ino[i].typ == T_FILE && a.ino[i].nlink == 1 && a.ino[i].size == |c| && |c| <= |a.file[i]| * BSIZE && Content(a.file[i], |c|) == c
  }

  lemma ContentsIs(a: Abs, b: Abs, i: nat, c: seq<byte>)
    requires Overwritten(a, b, i, 0, c) && a.ino[i].size == 0 && a.ino[i].typ == T_FILE && a.ino[i].nlink == 1
    ensures FileIs(b, i, c)
  {
  }

  /** The entries of the root directory after `k` files. */
  ghost function RootEnts(files: seq<Source>, k: nat): (e: seq<Ent>)
    requires k <= |files| < 0x8000
    ensures |e| == k + 2
  {
    if k == 0 then [Ent(ROOTINO, DOT), Ent(ROOTINO, DOTDOT)] else RootEnts(files, k - 1) + [Ent(k + 1, NameOf(files[k - 1].name))]
  }

  /** The names can all be told apart, and none of them is "." or "..". */
  predicate DistinctFiles(files: seq<Source>)
  {
    && (forall j :: 0 <= j < |files| ==> NameOf(files[j].name) != DOT && NameOf(files[j].name) != DOTDOT)
    && forall i, j :: 0 <= i < j < |files| ==> NameOf(files[i].name) != NameOf(files[j].name)
  }

  lemma {:induction false} RootEntsAt(files: seq<Source>, k: nat, j: nat)
    requires j < k <= |files| < 0x8000
    ensures RootEnts(files, k)[0] == Ent(ROOTINO, DOT) && RootEnts(files, k)[1] == Ent(ROOTINO, DOTDOT)
    ensures RootEnts(files, k)[j + 2] == Ent(j + 2, NameOf(files[j].name))
  {
    if j < k - 1 {
      RootEntsAt(files, k - 1, j);
    } else if k > 1 {
      RootEntsAt(files, k - 1, 0);
    }
  }

  /** The blocks that the contents of the first `k` files take. */
  function ContentBlocks(files: seq<Source>, k: nat): (n: nat)
    requires k <= |files|
  {
    if k == 0 then 0 else ContentBlocks(files, k - 1) + UsedBy(Blocks(|files[k - 1].content|))
  }

  /** The blocks that the image has in use after `k` files, behind the bitmap. */
  function Used(files: seq<Source>, k: nat): (n: nat)
    requires k <= |files|
  {
    UsedBy(Blocks(DIRENT * (k + 2))) + ContentBlocks(files, k)
  }

  lemma UsedNext(files: seq<Source>, k: nat)
    requires k < |files|
    ensures Used(files, k + 1) == Used(files, k) + More(DIRENT * (k + 2), DIRENT) + UsedBy(Blocks(|files[k].content|))
  {
    assert DIRENT * (k + 2) + DIRENT == DIRENT * (k + 3);
  }

  lemma {:induction false} UsedGrows(files: seq<Source>, k: nat, n: nat)
    requires k <= n <= |files|
    ensures Used(files, k) <= Used(files, n)
  {
    if k < n {
      UsedGrows(files, k, n - 1);
      UsedNext(files, n - 1);
    }
  }

  lemma FilledByOne(sb: Super, v: Disk, n: nat)
    requires sb.Ok() && |v| == sb.size && n < BPB && forall k :: 0 <= k < BPB ==> (BlockBit(v[sb.bmapstart], k) <==> k < n)
    requires forall x :: sb.bmapstart < x < sb.DataStart() ==> v[x] == ZERO
    ensures Filled(sb, v, n)
  {
    forall b | 0 <= b < sb.size ensures BitAt(sb, v, b) <==> b < n {
      BBlockRange(sb, b);
      ZeroBits(b % BPB);
    }
  }

  lemma RootEntsStart(files: seq<Source>)
    requires |files| < 0x8000
    ensures RootEnts(files, 0) == [Ent(ROOTINO, DOT), Ent(ROOTINO, DOTDOT)]
  {
  }

  lemma RootEntsNext(files: seq<Source>, k: nat)
    requires k < |files| < 0x8000
    ensures RootEnts(files, k + 1) == RootEnts(files, k) + [Ent(k + 2, NameOf(files[k].name))]
  {
  }

  lemma FileFrame(a: Abs, b: Abs, i: nat, c: seq<byte>)
    requires FileIs(a, i, c) && |b.ino| == |b.file| == |a.ino| && b.ino[i] == a.ino[i] && b.file[i] == a.file[i]
    ensures FileIs(b, i, c)
  {
  }

  lemma NothingSized(n: nat)
    ensures |Nothing(n).ino| == |Nothing(n).file| == n && Sized(Nothing(n)) && forall j :: 0 <= j < n ==> Nothing(n).ino[j] == FREE
  {
  }
}
