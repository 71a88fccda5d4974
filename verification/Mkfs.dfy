/** mkfs.c: building a file system image. */
module Mkfs {
  import opened Bytes
  import opened RedoLog
  import opened FsFormat
  import opened FsState
  import opened FsSteps
  import opened FsInodeSteps
  import opened FsContent
  import opened DirFormat
  import opened Tree
  import opened FsTree
  import opened FsDisk
  import opened FileSteps
  import opened MkfsState
  import opened MkfsTree
  import opened MkfsOrder

  /** The layout that mkfs computes from FSSIZE, NINODES and LOGSIZE. */
  const LAYOUT: Super := Super(1000, 200, LOGSIZE, 2, 2 + LOGSIZE, 2 + LOGSIZE + 200 / IPB + 1)

  lemma LayoutOk()
    ensures LAYOUT.Ok() && LAYOUT.DataStart() == 59
  {
  }

  class Image {
    const sb: Super
    const super: Block
    var disk: Disk
    var freeinode: nat
    var freeblock: nat
    ghost var w: Disk
    ghost var a: Abs

    constructor (sb: Super, super: Block, disk: Disk, freeblock: nat, ghost w: Disk, ghost a: Abs)
      ensures this.sb == sb && this.super == super && this.disk == disk && this.freeblock == freeblock && freeinode == 1 && this.w == w && this.a == a
    {
      this.sb, this.super, this.disk, this.freeinode, this.freeblock, this.w, this.a := sb, super, disk, 1, freeblock, w, a;
    }

    ghost predicate Ok(stale: set<nat>)
      reads this
    {
      ImageOk(sb, disk, freeblock, w, a, stale) && 1 < |disk| && disk[1] == super
    }
  }

  /** The first half of the loop in iappend: the block number of block `fbn` of the file, which is at most one past its
      last; a block that is not there is the next free one. The blocks behind the end of the image cannot be read. */
  method FileBlock(im: Image, i: nat, din: Dinode, fbn: nat) returns (ok: bool, x: nat, d: Dinode)
    requires im.Ok({i}) && i < im.sb.ninodes && Tight(im.a, i) && din == im.a.ino[i] && fbn <= |im.a.file[i]| && fbn < MAXFILE
    modifies im`disk, im`freeblock, im`w, im`a
    ensures ok <==> fbn < old(|im.a.file[i]|) || old(im.freeblock) + UsedBy(fbn + 1) - UsedBy(fbn) <= im.sb.size
    ensures ok ==> im.Ok({i}) && |im.a.ino| == old(|im.a.ino|) && Tight(im.a, i) && im.a.ino == old(im.a.ino)[i := d] && d == din.(addrs := d.addrs)
    ensures ok ==> im.a.file == old(im.a.file)[i := Longer(old(im.a.file)[i], fbn)] && fbn < |im.a.file[i]| && x == Addr(im.w, d, fbn)
    ensures ok ==> im.freeblock + UsedBy(old(|im.a.file[i]|)) == old(im.freeblock) + UsedBy(|im.a.file[i]|)
  {
    hide ImageOk;
    ImageFacts(im.sb, im.disk, im.freeblock, im.w, im.a, {i});
    assert im.a.file[i := im.a.file[i]] == im.a.file && im.a.ino[i := din] == im.a.ino;
    d := din;
    if fbn < NDIRECT {
      DirectFacts(im.sb, im.w, im.a, i, fbn);
      if d.addrs[fbn] == 0 {
        if im.freeblock >= im.sb.size {
          return false, 0, d;
        }
        TakenDirect(im.sb, im.disk, im.freeblock, im.w, im.a, i);
        d := d.(addrs := d.addrs[fbn := im.freeblock]);
        im.w, im.a := Allocated(im.sb, im.w, im.freeblock), Attached(im.a.(limbo := {im.freeblock}), i, d, im.freeblock);
        im.freeblock := im.freeblock + 1;
      }
      return true, d.addrs[fbn], d;
    }
    ok, x, d := FileIndirect(im, i, din, fbn);
  }

  /** The same behind the direct blocks. */
  method FileIndirect(im: Image, i: nat, din: Dinode, fbn: nat) returns (ok: bool, x: nat, d: Dinode)
    requires im.Ok({i}) && i < im.sb.ninodes && Tight(im.a, i) && din == im.a.ino[i] && NDIRECT <= fbn <= |im.a.file[i]| && fbn < MAXFILE
    modifies im`disk, im`freeblock, im`w, im`a
    ensures ok <==> fbn < old(|im.a.file[i]|) || old(im.freeblock) + UsedBy(fbn + 1) - UsedBy(fbn) <= im.sb.size
    ensures ok ==> im.Ok({i}) && |im.a.ino| == old(|im.a.ino|) && Tight(im.a, i) && im.a.ino == old(im.a.ino)[i := d] && d == din.(addrs := d.addrs)
    ensures ok ==> im.a.file == old(im.a.file)[i := Longer(old(im.a.file)[i], fbn)] && fbn < |im.a.file[i]| && x == Addr(im.w, d, fbn)
    ensures ok ==> im.freeblock + UsedBy(old(|im.a.file[i]|)) == old(im.freeblock) + UsedBy(|im.a.file[i]|)
  {
    hide ImageOk, Allocated;
    ImageFacts(im.sb, im.disk, im.freeblock, im.w, im.a, {i});
    HasIndirect(im.sb, im.w, im.a, i);
    d := din;
    if d.addrs[NDIRECT] == 0 {
      NoIndirect(im.sb, im.w, im.a, i);
      if im.freeblock >= im.sb.size {
        return false, 0, d;
      }
      TakenIndirect(im.sb, im.disk, im.freeblock, im.w, im.a, i);
      d := d.(addrs := d.addrs[NDIRECT := im.freeblock]);
      im.w, im.a := Allocated(im.sb, im.w, im.freeblock), IndirectAttached(im.a.(limbo := {im.freeblock}), i, d, im.freeblock);
      im.freeblock := im.freeblock + 1;
      ImageFacts(im.sb, im.disk, im.freeblock, im.w, im.a, {i});
    }
    ok, x := FileEntry(im, i, d, fbn);
  }

  lemma HasIndirect(sb: Super, w: Disk, a: Abs, i: nat)
    requires BlocksOk(sb, w, a) && i < sb.ninodes
    ensures i < |a.ino| == |a.file| && a.ino[i].Ok() && (|a.file[i]| > NDIRECT ==> a.ino[i].addrs[NDIRECT] != 0)
  {
    if |a.file[i]| > NDIRECT {
      MapsIndirect(sb, w, a, i);
    }
  }

  /** The entry of the indirect block, filled if it is empty. */
  method FileEntry(im: Image, i: nat, d: Dinode, fbn: nat) returns (ok: bool, x: nat)
    requires im.Ok({i}) && i < im.sb.ninodes && i < |im.a.ino| == |im.a.file| && d == im.a.ino[i] && d.Ok() && d.addrs[NDIRECT] != 0
    requires NDIRECT <= fbn <= |im.a.file[i]| && fbn < MAXFILE
    modifies im`disk, im`freeblock, im`w, im`a
    ensures ok <==> fbn < old(|im.a.file[i]|) || old(im.freeblock) < im.sb.size
    ensures ok ==> im.Ok({i}) && im.a.ino == old(im.a.ino)
    ensures ok ==> im.a.file == old(im.a.file)[i := Longer(old(im.a.file)[i], fbn)] && fbn < |im.a.file[i]| && x == Addr(im.w, d, fbn)
    ensures ok ==> im.freeblock == old(im.freeblock) + if fbn < old(|im.a.file[i]|) then 0 else 1
  {
    hide ImageOk, Allocated;
    ImageFacts(im.sb, im.disk, im.freeblock, im.w, im.a, {i});
    IndirectTaken(im.sb, im.disk, im.freeblock, im.w, im.a, i);
    EntryFacts(im.sb, im.w, im.a, i, fbn);
    hide BlocksOk, Addr;
    var ind := d.addrs[NDIRECT];
    var indirect := im.disk[ind];
    assert im.a.file[i := im.a.file[i]] == im.a.file;
    x := Entry(indirect, fbn - NDIRECT);
    if x == 0 {
      if im.freeblock >= im.sb.size {
        return false, 0;
      }
      x := im.freeblock;
      indirect := PutEntry(indirect, fbn - NDIRECT, x);
      AllocatedFrame(im.sb, im.w, x);
      ghost var w, a := Allocated(im.sb, im.w, x)[ind := indirect], Attached(im.a.(limbo := {x}), i, d, x);
      TakenEntry(im.sb, im.disk, x, im.w, im.a, i, im.disk[ind := indirect], w, a);
      im.disk := im.disk[ind := indirect];
      im.w, im.a := w, a;
      im.freeblock := x + 1;
    }
    return true, x;
  }

  /** One pass of the loop in iappend. */
  method AppendPiece(im: Image, i: nat, din: Dinode, off: nat, t: seq<byte>) returns (ok: bool, d: Dinode)
    requires im.Ok({i}) && i < im.sb.ninodes && Tight(im.a, i) && din == im.a.ino[i]
    requires off / BSIZE <= |im.a.file[i]| && off / BSIZE < MAXFILE && off % BSIZE + |t| <= BSIZE
    modifies im`disk, im`freeblock, im`w, im`a
    ensures ok <==> off / BSIZE < old(|im.a.file[i]|) || old(im.freeblock) + UsedBy(off / BSIZE + 1) - UsedBy(off / BSIZE) <= im.sb.size
    ensures ok ==> im.Ok({i}) && |im.a.ino| == old(|im.a.ino|) && Tight(im.a, i) && im.a.ino == old(im.a.ino)[i := d] && d == din.(addrs := d.addrs)
    ensures ok ==> im.a.file == old(im.a.file)[i := Patched(old(im.a.file)[i], off / BSIZE, off % BSIZE, t)]
    ensures ok ==> im.freeblock + UsedBy(old(|im.a.file[i]|)) == old(im.freeblock) + UsedBy(|im.a.file[i]|)
  {
    hide ImageOk, Addr;
    var fbn := off / BSIZE;
    var x;
    ok, x, d := FileBlock(im, i, din, fbn);
    if !ok {
      return;
    }
    ghost var f := im.a.file[i];
    ghost var blk := Splice(f[fbn], off % BSIZE, t);
    BehindSuper(im.sb, im.disk, im.freeblock, im.w, im.a, {i});
    DataImage(im.sb, im.disk, im.freeblock, im.w, im.a, i, fbn, blk);
    im.disk := im.disk[x := Splice(im.disk[x], off % BSIZE, t)];
    im.w, im.a := im.w[x := blk], Rewritten(im.a, i, fbn, blk);
    PatchedIs(old(im.a.file)[i], f, fbn, off % BSIZE, t);
  }

  /** The data blocks lie behind the superblock. */
  lemma BehindSuper(sb: Super, disk: Disk, n: nat, w: Disk, a: Abs, stale: set<nat>)
    requires ImageOk(sb, disk, n, w, a, stale)
    ensures sb.DataStart() > 1
  {
    ImageFacts(sb, disk, n, w, a, stale);
  }

  lemma PatchedIs(f: seq<Block>, g: seq<Block>, bn: nat, o: nat, t: seq<byte>)
    requires bn <= |f| && o + |t| <= BSIZE && g == Longer(f, bn)
    ensures SetBlock(g, bn, Splice(g[bn], o, t)) == Patched(f, bn, o, t)
  {
  }

  method Winode(im: Image, i: nat, d: Dinode)
    requires im.Ok({i}) && i < im.sb.ninodes && i < |im.a.ino| && d == im.a.ino[i]
    modifies im`disk, im`w
    ensures im.Ok({})
  {
    hide ImageOk, InodeWritten;
    ImageFacts(im.sb, im.disk, im.freeblock, im.w, im.a, {i});
    WinodeImage(im.sb, im.disk, im.freeblock, im.w, im.a, i);
    InodeBlock(im.sb, i);
    WinodeIs(im.sb, im.disk, i, d);
    im.disk := im.disk[im.sb.IBlock(i) := PutInode(im.disk[im.sb.IBlock(i)], i % IPB, d)];
    im.w := InodeWritten(im.sb, im.w, i, d);
  }

  lemma WinodeIs(sb: Super, v: Disk, i: nat, d: Dinode)
    requires sb.Ok() && |v| == sb.size && i < sb.ninodes && d.Ok()
    ensures InodeWritten(sb, v, i, d) == v[sb.IBlock(i) := PutInode(v[sb.IBlock(i)], i % IPB, d)]
  {
  }

  method Rinode(im: Image, i: nat) returns (d: Dinode)
    requires im.Ok({}) && i < im.sb.ninodes
    ensures i < |im.a.ino| == |im.a.file| && d == im.a.ino[i] && d.Ok()
  {
    hide ImageOk;
    ImageFacts(im.sb, im.disk, im.freeblock, im.w, im.a, {});
    RinodeImage(im.sb, im.disk, im.freeblock, im.w, im.a, i);
    d := InodeIn(im.disk[im.sb.IBlock(i)], i % IPB);
  }

  /** iappend: the bytes come at the end of the file and nothing else changes; it gives up past the largest file and at
      the end of the image. */
  method Iappend(im: Image, i: nat, p: seq<byte>) returns (ok: bool)
    requires im.Ok({}) && i < im.sb.ninodes && Tight(im.a, i) && Sized(im.a) && im.a.ino[i].typ != 0
    modifies im`disk, im`freeblock, im`w, im`a
    ensures ok <==> p == [] || (old(im.a.ino[i].size) + |p| <= MAXFILE * BSIZE && old(im.freeblock) + More(old(im.a.ino[i].size), |p|) <= im.sb.size)
    ensures ok ==> im.Ok({}) && Overwritten(old(im.a), im.a, i, old(im.a.ino[i].size), p) && |im.a.ino| == |im.a.file| && Sized(im.a) && Tight(im.a, i)
    ensures ok ==> im.freeblock == old(im.freeblock) + More(old(im.a.ino[i].size), |p|)
    ensures ok && old(ZeroTail(im.a.ino[i].size, im.a.file[i])) ==> ZeroTail(im.a.ino[i].size, im.a.file[i])
  {
    hide ImageOk, Appending, Between, Overwritten, ZeroTail, Tight, UsedBy, Blocks, More, Piece;
    ghost var a, n := im.a, im.freeblock;
    var din := Rinode(im, i);
    var off := din.size;
    ImageStale(im.sb, im.disk, im.freeblock, im.w, im.a, i);
    AppendingStart(a, i, p, n);
    SizedAt(a, i);
    hide Sized;
    var tot := 0;
    while tot < |p|
      invariant im.Ok({i}) && 0 <= tot <= |p| && Appending(a, im.a, i, p, tot, n, im.freeblock) && Between(off, tot, |p|)
      invariant i < |im.a.ino| == |im.a.file| && Tight(im.a, i) && din == im.a.ino[i] && din == a.ino[i].(addrs := din.addrs)
      invariant tot == 0 || off + tot <= MAXFILE * BSIZE
    {
      if (off + tot) / BSIZE >= MAXFILE {
        return false;
      }
      ghost var b, n' := im.a, im.freeblock;
      AppendingNext(a, b, i, p, tot, n, n');
      var m := Piece(off + tot, |p| - tot);
      var more;
      more, din := AppendPiece(im, i, din, off + tot, p[tot..tot + m]);
      if !more {
        NoMore(a, b, i, p, tot, n, n', im.sb.size);
        return false;
      }
      AppendingMore(a, b, im.a, i, p, tot, m, n, n', im.freeblock);
      tot := tot + m;
    }
    AppendingDone(a, im.a, i, p, n, im.freeblock);
    ImageFacts(im.sb, im.disk, im.freeblock, im.w, im.a, {i});
    TightFacts(im.a, i);
    din := din.(size := off + |p|);
    MetaImage(im.sb, im.disk, im.freeblock, im.w, im.a, {i}, i, din);
    im.a := WithInode(im.a, i, din);
    Winode(im, i, din);
    return true;
  }

  /** Between two calls: no inode from `freeinode` on is in use, and nor is the first. */
  ghost predicate Building(im: Image)
    reads im
  {
    && im.Ok({}) && |im.a.ino| == |im.a.file| == im.sb.ninodes && Sized(im.a) && 0 < im.freeinode
    && (forall j :: 0 <= j < im.sb.ninodes && (j == 0 || im.freeinode <= j) ==> im.a.ino[j] == FREE)
    && forall j :: 0 <= j < im.sb.ninodes ==> Tight(im.a, j)
  }

  /** ialloc: the next inode, with one link. */
  method Ialloc(im: Image, typ: s16) returns (inum: nat)
    requires Building(im) && im.freeinode < im.sb.ninodes && typ != 0
    modifies im`disk, im`freeinode, im`w, im`a
    ensures Building(im) && inum == old(im.freeinode) && im.freeinode == inum + 1
    ensures im.a == WithInode(old(im.a), inum, NewInode(typ, 0, 0)) && old(im.a).ino[inum] == FREE && old(im.a).file[inum] == []
  {
    hide ImageOk;
    inum := im.freeinode;
    im.freeinode := inum + 1;
    var din := NewInode(typ, 0, 0);
    assert im.a.file[inum] == [] by {
      SizedAt(im.a, inum);
    }
    MetaImage(im.sb, im.disk, im.freeblock, im.w, im.a, {}, inum, din);
    StillTight(im.a, inum, din);
    im.a := WithInode(im.a, inum, din);
    Winode(im, inum, din);
  }

  lemma StillTight(a: Abs, i: nat, d: Dinode)
    requires i < |a.ino| && d.addrs == a.ino[i].addrs && forall j :: 0 <= j < |a.ino| ==> Tight(a, j)
    ensures forall j :: 0 <= j < |a.ino| ==> Tight(WithInode(a, i, d), j)
  {
    forall j | 0 <= j < |a.ino| ensures Tight(WithInode(a, i, d), j) {
      assert Tight(a, j);
    }
  }

  /** iappend leaves everything but its file alone. */
  method Append(im: Image, i: nat, p: seq<byte>) returns (ok: bool)
    requires Building(im) && 0 < i < im.freeinode && i < im.sb.ninodes && im.a.ino[i].typ != 0
    modifies im`disk, im`freeblock, im`w, im`a
    ensures ok <==> p == [] || (old(im.a.ino[i].size) + |p| <= MAXFILE * BSIZE && old(im.freeblock) + More(old(im.a.ino[i].size), |p|) <= im.sb.size)
    ensures ok ==> Building(im) && Overwritten(old(im.a), im.a, i, old(im.a.ino[i].size), p) && im.freeblock == old(im.freeblock) + More(old(im.a.ino[i].size), |p|)
    ensures ok && old(ZeroTail(im.a.ino[i].size, im.a.file[i])) ==> ZeroTail(im.a.ino[i].size, im.a.file[i])
  {
    hide ImageOk, Overwritten, ZeroTail, More, Sized;
    ghost var a := im.a;
    ok := Iappend(im, i, p);
    if ok {
      OverwrittenFrame(a, im.a, i, a.ino[i].size, p);
    }
  }

  /** One directory entry at the end of the root directory. */
  method AppendEntry(im: Image, inum: u16, name: seq<byte>, ghost e: seq<Ent>) returns (ok: bool)
    requires Building(im) && ROOTINO < im.freeinode && DirIs(im.a, ROOTINO, e)
    modifies im`disk, im`freeblock, im`w, im`a
    ensures ok <==> DIRENT * |e| + DIRENT <= MAXFILE * BSIZE && old(im.freeblock) + More(DIRENT * |e|, DIRENT) <= im.sb.size
    ensures ok ==> Building(im) && DirIs(im.a, ROOTINO, e + [Ent(inum, NameOf(name))]) && im.freeblock == old(im.freeblock) + More(DIRENT * |e|, DIRENT)
    ensures ok ==> Overwritten(old(im.a), im.a, ROOTINO, old(im.a).ino[ROOTINO].size, EncodeEnt(inum, name))
    ensures ok && old(ZeroTail(im.a.ino[ROOTINO].size, im.a.file[ROOTINO])) ==> ZeroTail(im.a.ino[ROOTINO].size, im.a.file[ROOTINO])
  {
    hide ImageOk, NameOf, EncodeEnt, ZeroTail, More, Overwritten;
    ghost var a := im.a;
    DirLength(a, ROOTINO, e);
    RootInUse(im.sb, a, e);
    hide DirIs, Sized;
    ok := Append(im, ROOTINO, EncodeEnt(inum, name));
    if ok {
      AppendedEnt(a, im.a, ROOTINO, e, inum, name);
    }
  }

  lemma RootInUse(sb: Super, a: Abs, e: seq<Ent>)
    requires DirIs(a, ROOTINO, e)
    ensures ROOTINO < |a.ino| && a.ino[ROOTINO].typ != 0
  {
  }

  lemma OverwrittenFrame(a: Abs, b: Abs, i: nat, off: nat, src: seq<byte>)
    requires Overwritten(a, b, i, off, src)
    ensures i < |a.ino| == |b.ino| == |a.file| == |b.file| && b.ino[i].nlink == a.ino[i].nlink && b.ino[i].typ == a.ino[i].typ
    ensures forall j :: 0 <= j < |a.ino| && j != i ==> b.ino[j] == a.ino[j] && b.file[j] == a.file[j]
    ensures forall j :: Tight(a, j) && j != i ==> Tight(b, j)
  {
  }

  /** The bytes of one file, read in pieces of a block. */
  method AppendContents(im: Image, i: nat, c: seq<byte>) returns (ok: bool)
    requires Building(im) && 0 < i < im.freeinode && i < im.sb.ninodes && im.a.ino[i].typ != 0 && im.a.ino[i].size == 0
    modifies im`disk, im`freeblock, im`w, im`a
    ensures ok <==> |c| <= MAXFILE * BSIZE && old(im.freeblock) + UsedBy(Blocks(|c|)) <= im.sb.size
    ensures ok ==> Building(im) && Overwritten(old(im.a), im.a, i, 0, c) && im.freeblock == old(im.freeblock) + UsedBy(Blocks(|c|))
  {
    hide ImageOk, Filling, Overwritten, Sized, UsedBy, ZeroTail, Blocks, Tight;
    ghost var a, n := im.a, im.freeblock;
    FillingStart(a, i, c);
    ImageFacts(im.sb, im.disk, im.freeblock, im.w, im.a, {});
    NoneUsed();
    var k := 0;
    while k < |c|
      invariant Building(im) && 0 <= k <= |c| && Filling(a, im.a, i, c, k) && k <= MAXFILE * BSIZE
      invariant im.freeblock == n + UsedBy(Blocks(k)) <= im.sb.size && i < |im.a.ino| && im.a.ino[i].size == k && im.a.ino[i].typ != 0
    {
      var m := if |c| - k < BSIZE then |c| - k else BSIZE;
      ghost var b := im.a;
      LastBlocks(k + m, |c|);
      var more := Append(im, i, c[k..k + m]);
      if !more {
        return false;
      }
      FillingMore(a, b, im.a, i, c, k, m);
      FillingSize(a, im.a, i, c, k + m);
      FillingSize(a, b, i, c, k);
      ImageFacts(im.sb, im.disk, im.freeblock, im.w, im.a, {});
      k := k + m;
    }
    FillingSize(a, im.a, i, c, |c|);
    assert c[..|c|] == c;
    return true;
  }

  lemma LastBlocks(m: nat, n: nat)
    requires m <= n
    ensures UsedBy(Blocks(m)) <= UsedBy(Blocks(n))
  {
    UsedMore(Blocks(m), Blocks(n));
  }

  lemma NoneUsed()
    ensures UsedBy(Blocks(0)) == 0
  {
  }

  lemma FillingSize(a: Abs, b: Abs, i: nat, c: seq<byte>, k: nat)
    requires Filling(a, b, i, c, k)
    ensures i < |a.ino| == |b.ino| && b.ino[i].size == k && b.ino[i].typ == a.ino[i].typ && k <= |c| && Overwritten(a, b, i, 0, c[..k])
  {
  }

  /** The body of the loop over the files: an inode, its name in the root directory, its contents. */
  method AddFile(im: Image, f: Source, ghost e: seq<Ent>) returns (ok: bool)
    requires Building(im) && DirIs(im.a, ROOTINO, e) && ROOTINO < im.freeinode < im.sb.ninodes && ZeroTail(im.a.ino[ROOTINO].size, im.a.file[ROOTINO])
    modifies im`disk, im`freeinode, im`freeblock, im`w, im`a
    ensures ok <==> |f.content| <= MAXFILE * BSIZE && DIRENT * |e| + DIRENT <= MAXFILE * BSIZE
                    && old(im.freeblock) + More(DIRENT * |e|, DIRENT) + UsedBy(Blocks(|f.content|)) <= im.sb.size
    ensures ok ==> Building(im) && im.freeinode == old(im.freeinode) + 1 && im.freeblock == old(im.freeblock) + More(DIRENT * |e|, DIRENT) + UsedBy(Blocks(|f.content|))
    ensures ok ==> im.sb.Ok() && DirIs(im.a, ROOTINO, e + [Ent(old(im.freeinode), NameOf(f.name))]) && im.a.ino[ROOTINO].nlink == old(im.a).ino[ROOTINO].nlink
    ensures ok ==> ZeroTail(im.a.ino[ROOTINO].size, im.a.file[ROOTINO]) && FileIs(im.a, old(im.freeinode), f.content)
    ensures ok ==> forall j :: ROOTINO < j < old(im.freeinode) ==> im.a.ino[j] == old(im.a).ino[j] && im.a.file[j] == old(im.a).file[j]
  {
    hide ImageOk, NameOf, EncodeEnt, ZeroTail, DirIs, Overwritten, More, UsedBy, Sized;
    ghost var a := im.a;
    NinodesBound(im.sb, im.disk, im.freeblock, im.w, im.a);
    var i := Ialloc(im, T_FILE);
    ghost var c := im.a;
    WithInodeFrame(a, c, i, NewInode(T_FILE, 0, 0), e);
    ok := AppendEntry(im, i, f.name, e);
    if !ok {
      return;
    }
    ghost var b := im.a;
    OverwrittenFrame(c, b, ROOTINO, a.ino[ROOTINO].size, EncodeEnt(i, f.name));
    ok := AppendContents(im, i, f.content);
    if ok {
      OverwrittenFrame(b, im.a, i, 0, f.content);
      ContentsIs(b, im.a, i, f.content);
      DirFrame(b, im.a, ROOTINO, e + [Ent(i, NameOf(f.name))]);
    }
  }

  lemma WithInodeFrame(a: Abs, b: Abs, i: nat, d: Dinode, e: seq<Ent>)
    requires i < |a.ino| && b == WithInode(a, i, d) && i != ROOTINO && DirIs(a, ROOTINO, e)
    ensures DirIs(b, ROOTINO, e) && b.ino[ROOTINO] == a.ino[ROOTINO] && b.file == a.file
    ensures forall j :: 0 <= j < |a.ino| && j != i ==> b.ino[j] == a.ino[j]
  {
    DirFrame(a, b, ROOTINO, e);
  }

  lemma NinodesBound(sb: Super, disk: Disk, n: nat, w: Disk, a: Abs)
    requires ImageOk(sb, disk, n, w, a, {})
    ensures sb.Ok() && sb.ninodes < 0x8000
  {
    ImageFacts(sb, disk, n, w, a, {});
  }

  /** balloc: the bitmap block of an image whose first `used` blocks are taken; one block must do. */
  method Balloc(used: nat) returns (ok: bool, buf: Block)
    ensures ok <==> used < BPB
    ensures ok ==> forall k :: 0 <= k < BPB ==> (BlockBit(buf, k) <==> k < used)
  {
    buf := ZERO;
    if used >= BPB {
      return false, buf;
    }
    forall k | 0 <= k < BPB ensures !BlockBit(ZERO, k) {
      ZeroBits(k);
    }
    hide BlockBit;
    for i := 0 to used
      invariant forall k :: 0 <= k < BPB ==> (BlockBit(buf, k) <==> k < i)
    {
      buf := PutBlockBit(buf, i, true);
    }
    return true, buf;
  }

  /** The root directory, with its two entries. */
  method MakeRoot(im: Image) returns (ok: bool)
    requires Building(im) && im.freeinode == ROOTINO && im.a == Nothing(im.sb.ninodes) && im.sb.Ok()
    modifies im`disk, im`freeinode, im`freeblock, im`w, im`a
    ensures ok <==> old(im.freeblock) + 1 <= im.sb.size
    ensures ok ==> Building(im) && DirIs(im.a, ROOTINO, [Ent(ROOTINO, DOT), Ent(ROOTINO, DOTDOT)]) && im.freeinode == 2
    ensures ok ==> im.a.ino[ROOTINO].nlink == 1 && ZeroTail(im.a.ino[ROOTINO].size, im.a.file[ROOTINO]) && im.freeblock == old(im.freeblock) + 1
  {
    hide ImageOk, NameOf, EncodeEnt, Sized;
    var root := Ialloc(im, T_DIR);
    ghost var a := im.a;
    EmptyDir(a, ROOTINO);
    DotNames();
    EmptyTail(a.file[ROOTINO]);
    assert More(0, DIRENT) == 1 && More(DIRENT, DIRENT) == 0;
    hide DirIs, ZeroTail, More;
    assert [] + [Ent(ROOTINO, DOT)] == [Ent(ROOTINO, DOT)];
    ok := AppendEntry(im, ROOTINO, DOT_NAME, []);
    if !ok {
      return;
    }
    OverwrittenFrame(a, im.a, ROOTINO, a.ino[ROOTINO].size, EncodeEnt(ROOTINO, DOT_NAME));
    ghost var b := im.a;
    assert [Ent(ROOTINO, DOT)] + [Ent(ROOTINO, DOTDOT)] == [Ent(ROOTINO, DOT), Ent(ROOTINO, DOTDOT)];
    ok := AppendEntry(im, ROOTINO, DOTDOT_NAME, [Ent(ROOTINO, DOT)]);
    if ok {
      OverwrittenFrame(b, im.a, ROOTINO, b.ino[ROOTINO].size, EncodeEnt(ROOTINO, DOTDOT_NAME));
    }
  }

  lemma EmptyTail(f: seq<Block>)
    ensures f == [] ==> ZeroTail(0, f)
  {
  }

  /** The size of the root directory, rounded up to whole blocks, and one block more if it is whole already. */
  method FixRoot(im: Image)
    requires Building(im) && ROOTINO < im.freeinode && im.a.ino[ROOTINO].size <= MAXFILE * BSIZE
    modifies im`disk, im`w, im`a
    ensures im.Ok({}) && old(im.a.ino[ROOTINO].size <= MAXFILE * BSIZE) && im.a == RoundedRoot(old(im.a))
  {
    hide ImageOk, Sized;
    NinodesBound(im.sb, im.disk, im.freeblock, im.w, im.a);
    var din := Rinode(im, ROOTINO);
    din := din.(size := Rounded(din.size));
    MetaImage(im.sb, im.disk, im.freeblock, im.w, im.a, {}, ROOTINO, din);
    im.a := WithInode(im.a, ROOTINO, din);
    Winode(im, ROOTINO, din);
  }

  /** The image to start from: zeros but for the superblock. */
  method Blanked(sb: Super) returns (im: Image)
    requires sb.Ok()
    ensures fresh(im) && im.sb == Wide(sb) && Wide(sb).Ok() && Building(im) && im.super == SuperBlock(sb)
    ensures im.freeinode == ROOTINO && im.freeblock == sb.DataStart() && im.a == Nothing(Wide(sb).ninodes)
  {
    hide ImageOk, Sized, SuperBlock;
    var super := SuperBlock(sb);
    var blank: Disk := seq(sb.size, x => if x == 1 then super else ZERO);
    ghost var w := BlankImage(Wide(sb), blank);
    NothingSized(Wide(sb).ninodes);
    im := new Image(Wide(sb), super, blank, sb.DataStart(), w, Nothing(Wide(sb).ninodes));
  }

  /** mkfs: it makes an image exactly if the files fit, and the kernel can start from the image exactly if nothing speaks
      against it; then every file is there. */
  method Build(sb: Super, files: seq<Source>) returns (ok: bool, disk: Disk, ghost a: Abs, ghost m: Map)
    requires sb.Ok() && |files| + 2 <= Wide(sb).ninodes
    ensures ok <==> Fits(sb, files)
    ensures ok ==> Recovers(sb.LogArea(), disk, disk) && (DiskOk(sb, disk) <==> Orderly(sb, files))
    ensures ok && Orderly(sb, files) ==> Made(sb, disk, a, m, files)
    ensures ok ==> 1 < |disk| && ReadSuper(disk[1]) == sb
  {
    hide ImageOk, ZeroTail, DirIs, Sized, SuperBlock, ReadSuper, NameOf, RootEnts, FileIs, Made, Used, More, UsedBy, Orderly, Recovers;
    SuperRoundTrip(sb);
    var im := Blanked(sb);
    a, m, disk := im.a, Map(map[], map[]), im.disk;
    ok := MakeRoot(im);
    UsedStart(files);
    RootEntsStart(files);
    UsedGrows(files, 0, |files|);
    if !ok {
      return;
    }
    for k := 0 to |files|
      invariant Building(im) && im.sb == Wide(sb) && im.super == SuperBlock(sb) && DirIs(im.a, ROOTINO, RootEnts(files, k)) && im.freeinode == k + 2
      invariant DIRENT * (k + 2) <= MAXFILE * BSIZE && im.freeblock == sb.DataStart() + Used(files, k) <= sb.size
      invariant im.a.ino[ROOTINO].nlink == 1 && ZeroTail(im.a.ino[ROOTINO].size, im.a.file[ROOTINO])
      invariant forall j :: 0 <= j < k ==> FileIs(im.a, j + 2, files[j].content) && |files[j].content| <= MAXFILE * BSIZE
    {
      UsedNext(files, k);
      UsedGrows(files, k + 1, |files|);
      ghost var was := im.a;
      ok := AddFile(im, files[k], RootEnts(files, k));
      if !ok {
        return;
      }
      RootEntsNext(files, k);
      forall j | 0 <= j < k ensures FileIs(im.a, j + 2, files[j].content) {
        FileFrame(was, im.a, j + 2, files[j].content);
      }
    }
    StockedNow(im, files);
    ok, disk, a, m := Close(im, sb, files);
  }

  lemma UsedStart(files: seq<Source>)
    ensures Used(files, 0) == 1
  {
  }

  lemma StockedNow(im: Image, files: seq<Source>)
    requires Building(im) && im.freeinode == |files| + 2 <= im.sb.ninodes && im.sb.ninodes < 0x8000 && DirIs(im.a, ROOTINO, RootEnts(files, |files|))
    requires im.a.ino[ROOTINO].nlink == 1 && ZeroTail(im.a.ino[ROOTINO].size, im.a.file[ROOTINO])
    requires forall j :: 0 <= j < |files| ==> FileIs(im.a, j + 2, files[j].content)
    ensures Stocked(im.a, files) && im.a.ino[ROOTINO].size <= MAXFILE * BSIZE
  {
    hide ImageOk, ZeroTail, DirIs, FileIs, RootEnts;
  }

  /** The end of main. */
  method Close(im: Image, ghost sb: Super, ghost files: seq<Source>) returns (ok: bool, disk: Disk, ghost a: Abs, ghost m: Map)
    requires sb.Ok() && im.sb == Wide(sb) && Building(im) && |files| < 0x8000 && Stocked(im.a, files)
    requires im.a.ino[ROOTINO].size <= MAXFILE * BSIZE && im.freeinode == |files| + 2
    modifies im`disk, im`w, im`a
    ensures ok <==> im.freeblock < BPB
    ensures ok ==> Recovers(sb.LogArea(), disk, disk) && (DiskOk(sb, disk) <==> Orderly(sb, files))
    ensures ok && Orderly(sb, files) ==> Made(sb, disk, a, m, files)
    ensures ok ==> 1 < |disk| && disk[1] == im.super
  {
    hide ImageOk, Stocked, Sized, Orderly, Made, Recovers, Laid;
    ghost var b := im.a;
    FixRoot(im);
    ImageFacts(im.sb, im.disk, im.freeblock, im.w, im.a, {});
    hide BlocksOk, BlockBit, Filled;
    var buf;
    ok, buf := Balloc(im.freeblock);
    disk, a, m := im.disk[im.sb.bmapstart := buf], im.a, Map(map[], map[]);
    if ok {
      FilledByOne(im.sb, disk, im.freeblock);
      Finished(im.sb, im.disk, im.freeblock, im.w, im.a, disk);
      if Orderly(sb, files) {
        a, m := OrderlyMade(sb, disk, b, files);
        MadeOk(sb, disk, a, m, files);
      } else if DiskOk(sb, disk) {
        ShownOrderly(sb, disk, b, files);
      }
    }
  }

  lemma MadeOk(sb: Super, disk: Disk, a: Abs, m: Map, files: seq<Source>)
    requires |files| < 0x8000 && Made(sb, disk, a, m, files)
    ensures Shows(sb, disk, a) && DiskOk(sb, disk)
  {
    hide WholeDisk;
    assert WholeDisk(sb, disk, a, m);
  }
}
