/** Whole disks on which the bounds of the transactions are reached. */
module Witness {
  import opened Bytes
  import opened RedoLog
  import opened FsFormat
  import opened FsState
  import opened FsSteps
  import opened FsSpec
  import opened FsInodeSteps
  import opened FsContent
  import opened DirFormat
  import opened Tree
  import opened FsTree
  import opened FsDisk
  import opened PathFormat
  import opened FileState
  import opened FileSteps
  import opened MkfsState
  import opened FsLogCount
  import opened MkfsTree

  lemma BitsBoth(sb: Super, v: Disk, u: Disk, w: Disk, s: set<nat>, t: set<nat>)
    requires NewBits(sb, v, u, s) && NewBits(sb, u, w, t)
    ensures NewBits(sb, v, w, s + t)
  {
  }

  // Files that grow by a block of zeros.

  /** Inode `i` is in use, its blocks are full, and if it is a directory it has links. */
  ghost predicate Growing(a: Abs, i: nat)
  {
    && i < |a.ino| == |a.file| && a.ino[i].typ != 0 && a.ino[i].size == BSIZE * |a.file[i]| && |a.ino[i].addrs| == NDIRECT + 1
    && (a.ino[i].typ == T_DIR ==> a.ino[i].nlink > 0)
  }

  /** Inode `i` has no entries but the dots. */
  ghost predicate Empty(a: Abs, i: nat)
  {
    |a.ino| == |a.file| && Sized(a) && i < |a.ino| && !NotEmpty(TreeOf(a), i)
  }

  /** How many blocks inode `i` has. */
  function Held(a: Abs, i: nat): (n: nat)
    requires i < |a.ino| == |a.file| && |a.ino[i].addrs| == NDIRECT + 1
  {
    |a.file[i]| + if a.ino[i].addrs[NDIRECT] == 0 then 0 else 1
  }

  /** Inode `i` has one more block, `x`; nothing else has changed. */
  ghost predicate Grew1(a: Abs, b: Abs, i: nat, x: nat)
  {
    && Growing(a, i) && Growing(b, i) && |b.ino| == |a.ino| && Held(b, i) == Held(a, i) + 1
    && b.ino == a.ino[i := b.ino[i]] && b.file == a.file[i := b.file[i]] && Extends(a, b) && x in b.owner && b.owner[x].i == i
    && b.ino[i] == a.ino[i].(size := b.ino[i].size, addrs := b.ino[i].addrs) && (Empty(a, i) ==> Empty(b, i))
  }

  /** A directory is longer by free entries. */
  lemma GrowNodes(a: Abs, b: Abs, i: nat) returns (z: seq<Ent>)
    requires |a.ino| == |a.file| && Sized(a) && Growing(a, i) && |b.ino| == |b.file| == |a.ino| && Sized(b)
    requires b.ino == a.ino[i := a.ino[i].(size := b.ino[i].size, addrs := b.ino[i].addrs)] && b.ino[i].size == a.ino[i].size + BSIZE
    requires b.file == a.file[i := a.file[i] + [ZERO]]
    ensures TreeOf(b) == TreeOf(a)[i := TreeOf(a)[i].(ents := TreeOf(a)[i].ents + z)] && (forall k :: 0 <= k < |z| ==> z[k].inum == 0)
    ensures if a.ino[i].typ == T_DIR then LinkedDir(TreeOf(a), i) else TreeOf(b) == TreeOf(a)
  {
    OneNode(a, b, i);
    z := [];
    if a.ino[i].typ == T_DIR {
      z := LongerDir(a.file[i], a.ino[i].size);
      EntsNode(a, i);
      EntsNode(b, i);
      hide TreeOf, Ents, Content, Sized;
      assert TreeOf(b)[i] == TreeOf(a)[i].(ents := TreeOf(a)[i].ents + z);
    } else {
      hide TreeOf, Sized;
      assert TreeOf(b)[i] == TreeOf(a)[i] == TreeOf(a)[i].(ents := TreeOf(a)[i].ents + z);
      assert TreeOf(a)[i := TreeOf(a)[i]] == TreeOf(a);
    }
  }

  /** The tree does not mind, nor do other files that are longer. */
  lemma GrowTree(a: Abs, b: Abs, m: Map, i: nat)
    requires InOrder(a, m) && Growing(a, i) && |b.ino| == |b.file| == |a.ino| && Sized(b)
    requires b.ino == a.ino[i := a.ino[i].(size := b.ino[i].size, addrs := b.ino[i].addrs)] && b.ino[i].size == a.ino[i].size + BSIZE
    requires b.file == a.file[i := a.file[i] + [ZERO]]
    ensures InOrder(b, m) && (Empty(a, i) ==> Empty(b, i))
  {
    OrderTree(a, m);
    GrownSizes(a, b, m, i);
    hide TreeOk, TreeOf, Sized, Empty, DirSizes;
    var z := GrowNodes(a, b, i);
    EmptyKept(a, b, i, z);
    if a.ino[i].typ == T_DIR {
      PadTree(TreeOf(a), m, i, z);
    }
  }

  lemma EmptyKept(a: Abs, b: Abs, i: nat, z: seq<Ent>)
    requires i < |a.ino| == |a.file| == |b.ino| == |b.file| && Sized(a) && Sized(b) && TreeOf(b)[i] == TreeOf(a)[i].(ents := TreeOf(a)[i].ents + z)
    requires forall k :: 0 <= k < |z| ==> z[k].inum == 0
    ensures Empty(a, i) ==> Empty(b, i)
  {
    hide TreeOf, Sized;
  }

  lemma OrderTree(a: Abs, m: Map)
    requires InOrder(a, m)
    ensures |a.ino| == |a.file| && Sized(a) && TreeOk(TreeOf(a), m)
  {
  }

  lemma OneNode(a: Abs, b: Abs, i: nat)
    requires i < |a.ino| == |a.file| == |b.ino| == |b.file| && Sized(a) && Sized(b) && b.ino == a.ino[i := b.ino[i]] && b.file == a.file[i := b.file[i]]
    ensures TreeOf(b) == TreeOf(a)[i := TreeOf(b)[i]] && TreeOf(b)[i].typ == b.ino[i].typ && TreeOf(b)[i].nlink == b.ino[i].nlink
    ensures TreeOf(a)[i].typ == a.ino[i].typ && TreeOf(a)[i].nlink == a.ino[i].nlink
    ensures a.ino[i].typ != T_DIR && b.ino[i].typ != T_DIR ==> TreeOf(a)[i].ents == TreeOf(b)[i].ents == []
  {
    hide EntsOf;
    assert forall x :: 0 <= x < |a.ino| && x != i ==> TreeOf(b)[x] == TreeOf(a)[x];
  }

  lemma GrownSizes(a: Abs, b: Abs, m: Map, i: nat)
    requires InOrder(a, m) && i < |a.ino| == |b.ino| && b.ino == a.ino[i := a.ino[i].(size := b.ino[i].size, addrs := b.ino[i].addrs)]
    requires b.ino[i].size == a.ino[i].size + BSIZE
    ensures DirSizes(b)
  {
    hide TreeOk;
  }

  lemma EntsNode(a: Abs, i: nat)
    requires |a.ino| == |a.file| && Sized(a) && i < |a.ino| && a.ino[i].typ == T_DIR
    ensures TreeOf(a)[i].ents == Ents(Content(a.file[i], a.ino[i].size))
  {
  }

  lemma LongerDir(f: seq<Block>, size: nat) returns (z: seq<Ent>)
    requires size == |f| * BSIZE
    ensures Ents(Content(f + [ZERO], size + BSIZE)) == Ents(Content(f, size)) + z && forall k :: 0 <= k < |z| ==> z[k].inum == 0
  {
    var g := f + [ZERO];
    forall p | size <= p < |g| * BSIZE ensures ByteAt(g, p) == 0 {
      assert p / BSIZE == |f|;
    }
    PaddedEnts(g, size, size + BSIZE);
    forall p | 0 <= p < size ensures ByteAt(g, p) == ByteAt(f, p) {
      assert p / BSIZE < |f|;
    }
    assert Content(g, size) == Content(f, size);
    z := Ents(Content(g, size + BSIZE))[|Ents(Content(f, size))|..];
  }

  lemma GrowSized(a: Abs, b: Abs, i: nat)
    requires |a.ino| == |a.file| && Sized(a) && Growing(a, i) && |b.ino| == |b.file| == |a.ino| && |a.file[i]| < MAXFILE
    requires b.ino == a.ino[i := a.ino[i].(size := b.ino[i].size, addrs := b.ino[i].addrs)] && b.ino[i].size == a.ino[i].size + BSIZE
    requires b.file == a.file[i := a.file[i] + [ZERO]]
    ensures Sized(b)
  {
  }

  lemma WholeDraft(sb: Super, v: Disk, a: Abs, m: Map, i: nat)
    requires WholeDisk(sb, v, a, m) && i < sb.ninodes
    ensures Draft(sb, v, a, i) && InOrder(a, m) && Shape(sb, v, a)
  {
    hide InOrder;
    DraftNext(sb, v, a, i);
    DraftFacts(sb, v, a, i);
  }

  /** Block `x` at the end of file `i`, whose inode is still to be written. */
  lemma DraftBlock(sb: Super, v: Disk, a: Abs, i: nat, x: nat) returns (u: Disk, c: Abs)
    requires Draft(sb, v, a, i) && |v| == sb.size && x < sb.size && sb.Ok() && !BitAt(sb, v, x) && i < |a.ino| == |a.file| && a.ino[i].Ok()
    requires |a.file[i]| < MAXFILE && (|a.file[i]| >= NDIRECT ==> a.ino[i].addrs[NDIRECT] != 0)
    ensures Draft(sb, u, c, i) && NewBits(sb, v, u, {x}) && |c.ino| == |a.ino| && c.ino[i].Ok() && c.ino[i].addrs[NDIRECT] == a.ino[i].addrs[NDIRECT]
    ensures c.ino == a.ino[i := a.ino[i].(addrs := c.ino[i].addrs)] && c.file == a.file[i := a.file[i] + [ZERO]]
    ensures x !in a.owner && c.owner == a.owner[x := Slot(i, |a.file[i]|)]
  {
    TakenFree(sb, v, a, i, x);
    hide BitAt;
    if |a.file[i]| < NDIRECT {
      DraftDirect(sb, v, a, i, x);
      hide Draft, NewBits, Allocated;
      u, c := Allocated(sb, v, x), Attached(a.(limbo := {x}), i, a.ino[i].(addrs := a.ino[i].addrs[|a.file[i]| := x]), x);
    } else {
      IndirectInUse(sb, v, a, i, x);
      hide Draft, NewBits, Allocated, PutEntry;
      var ind := a.ino[i].addrs[NDIRECT];
      u, c := Allocated(sb, v, x)[ind := PutEntry(v[ind], |a.file[i]| - NDIRECT, x)], Attached(a.(limbo := {x}), i, a.ino[i], x);
      DraftEntry(sb, v, a, i, x, u, c);
      assert a.ino[i := a.ino[i]] == a.ino;
    }
  }

  lemma TakenFree(sb: Super, v: Disk, a: Abs, i: nat, x: nat)
    requires Draft(sb, v, a, i) && |v| == sb.size && sb.Ok() && x < sb.size && !BitAt(sb, v, x)
    ensures x !in a.owner && sb.DataStart() <= x < 0x1_0000_0000
  {
    Alloc(sb, v, a, x);
  }

  /** A data block of zeros. */
  lemma GrowData(sb: Super, v: Disk, a: Abs, m: Map, i: nat, x: nat) returns (w: Disk, b: Abs)
    requires WholeDisk(sb, v, a, m) && Growing(a, i) && i < sb.ninodes && |v| == sb.size && x < sb.size && sb.Ok() && !BitAt(sb, v, x)
    requires |a.file[i]| < MAXFILE && (|a.file[i]| >= NDIRECT ==> a.ino[i].addrs[NDIRECT] != 0)
    ensures WholeDisk(sb, w, b, m) && NewBits(sb, v, w, {x}) && Grew1(a, b, i, x) && |b.file[i]| == |a.file[i]| + 1
  {
    hide WholeDisk, BitAt, Draft, InOrder, NewBits;
    WholeDraft(sb, v, a, m, i);
    var u, c := DraftBlock(sb, v, a, i, x);
    w, b := GrowDone(sb, u, c, a, m, i);
    BitsBoth(sb, v, u, w, {x}, {});
    assert {x} + {} == {x};
  }

  lemma GrowDone(sb: Super, u: Disk, c: Abs, a: Abs, m: Map, i: nat) returns (w: Disk, b: Abs)
    requires Draft(sb, u, c, i) && InOrder(a, m) && Growing(a, i) && |a.file[i]| < MAXFILE && i < |c.ino| == |c.file| == |a.ino|
    requires c.ino == a.ino[i := a.ino[i].(addrs := c.ino[i].addrs)] && c.file == a.file[i := a.file[i] + [ZERO]]
    ensures WholeDisk(sb, w, b, m) && NewBits(sb, u, w, {}) && b == WithInode(c, i, c.ino[i].(size := a.ino[i].size + BSIZE)) && |b.ino[i].addrs| == NDIRECT + 1
    ensures Empty(a, i) ==> Empty(b, i)
  {
    InOrderSized(a, m);
    DraftFacts(sb, u, c, i);
    var d := c.ino[i].(size := a.ino[i].size + BSIZE);
    DraftMeta(sb, u, c, i, d);
    b := WithInode(c, i, d);
    hide InOrder, BlocksOk, Draft;
    GrowSized(a, b, i);
    GrowTree(a, b, m, i);
    w := WrittenWhole(sb, u, b, m, i);
  }

  lemma DraftLimbo(sb: Super, v: Disk, a: Abs, i: nat)
    requires Draft(sb, v, a, i)
    ensures a.limbo == {} && i < |a.ino| && a.ino[i].Ok() && sb.Ok() && |v| == sb.size && i < sb.ninodes
  {
    DraftFacts(sb, v, a, i);
  }

  /** The inode is written, and the disk is whole again. */
  lemma WrittenWhole(sb: Super, u: Disk, b: Abs, m: Map, i: nat) returns (w: Disk)
    requires Draft(sb, u, b, i) && InOrder(b, m)
    ensures WholeDisk(sb, w, b, m) && NewBits(sb, u, w, {})
  {
    hide InOrder;
    DraftLimbo(sb, u, b, i);
    DraftWritten(sb, u, b, i);
    w := InodeWritten(sb, u, i, b.ino[i]);
  }

  lemma DraftFirst(sb: Super, v: Disk, a: Abs, i: nat, x: nat) returns (u: Disk, c: Abs)
    requires Draft(sb, v, a, i) && |v| == sb.size && x < sb.size && sb.Ok() && !BitAt(sb, v, x) && i < |a.ino| == |a.file| && a.ino[i].Ok()
    requires |a.file[i]| == NDIRECT && a.ino[i].addrs[NDIRECT] == 0
    ensures Draft(sb, u, c, i) && NewBits(sb, v, u, {x}) && |c.ino| == |a.ino| && c.ino[i].Ok() && c.ino[i].addrs[NDIRECT] != 0
    ensures c.ino == a.ino[i := a.ino[i].(addrs := c.ino[i].addrs)] && c.file == a.file
    ensures x !in a.owner && c.owner == a.owner[x := Slot(i, INDIRECT)]
  {
    TakenFree(sb, v, a, i, x);
    hide BitAt;
    DraftIndirect(sb, v, a, i, x);
    hide Draft, NewBits, Allocated;
    u, c := Allocated(sb, v, x), IndirectAttached(a.(limbo := {x}), i, a.ino[i].(addrs := a.ino[i].addrs[NDIRECT := x]), x);
  }

  /** The indirect block. */
  lemma GrowIndirect(sb: Super, v: Disk, a: Abs, m: Map, i: nat, x: nat) returns (w: Disk, b: Abs)
    requires WholeDisk(sb, v, a, m) && Growing(a, i) && i < sb.ninodes && |v| == sb.size && x < sb.size && sb.Ok() && !BitAt(sb, v, x)
    requires |a.file[i]| == NDIRECT && a.ino[i].addrs[NDIRECT] == 0
    ensures WholeDisk(sb, w, b, m) && NewBits(sb, v, w, {x}) && Grew1(a, b, i, x)
  {
    hide WholeDisk, BitAt, Draft, InOrder, NewBits;
    WholeDraft(sb, v, a, m, i);
    var u;
    u, b := DraftFirst(sb, v, a, i, x);
    SameTree(a, b, m, i);
    w := WrittenWhole(sb, u, b, m, i);
    BitsBoth(sb, v, u, w, {x}, {});
    assert {x} + {} == {x};
  }

  lemma SameTree(a: Abs, b: Abs, m: Map, i: nat)
    requires InOrder(a, m) && i < |a.ino| == |a.file| && |b.ino| == |b.file| == |a.ino| && b.file == a.file && b.ino == a.ino[i := a.ino[i].(addrs := b.ino[i].addrs)]
    ensures InOrder(b, m) && (Empty(a, i) ==> Empty(b, i))
  {
    assert TreeOf(b) == TreeOf(a);
  }

  lemma WholeIndirect(sb: Super, v: Disk, a: Abs, m: Map, i: nat)
    requires WholeDisk(sb, v, a, m) && i < sb.ninodes && i < |a.ino| == |a.file| && |a.file[i]| > NDIRECT
    ensures |a.ino[i].addrs| == NDIRECT + 1 && a.ino[i].addrs[NDIRECT] != 0
  {
    MapsIndirect(sb, v, a, i);
  }

  /** One more block, whichever it is. */
  lemma Grow(sb: Super, v: Disk, a: Abs, m: Map, i: nat, x: nat) returns (w: Disk, b: Abs)
    requires WholeDisk(sb, v, a, m) && Growing(a, i) && i < sb.ninodes && |v| == sb.size && x < sb.size && sb.Ok() && !BitAt(sb, v, x)
    requires |a.file[i]| < MAXFILE
    ensures WholeDisk(sb, w, b, m) && NewBits(sb, v, w, {x}) && Grew1(a, b, i, x)
    ensures |a.file[i]| < NDIRECT ==> |b.file[i]| == |a.file[i]| + 1
  {
    hide WholeDisk, BitAt, NewBits, Empty, Extends;
    if |a.file[i]| == NDIRECT && a.ino[i].addrs[NDIRECT] == 0 {
      w, b := GrowIndirect(sb, v, a, m, i, x);
    } else {
      if |a.file[i]| > NDIRECT {
        WholeIndirect(sb, v, a, m, i);
      }
      w, b := GrowData(sb, v, a, m, i, x);
    }
  }

  // Directories of one block.

  /** Inode `i` is a directory with these entries, all in one block, and zeros behind them. */
  ghost predicate ShortDir(a: Abs, i: nat, e: seq<Ent>)
  {
    DirIs(a, i, e) && |a.file[i]| == Blocks(a.ino[i].size) && ZeroTail(a.ino[i].size, a.file[i])
  }

  /** Only inode `i` and its file differ. */
  ghost predicate OnlyFile(a: Abs, b: Abs, i: nat)
  {
    i < |a.ino| == |a.file| == |b.ino| == |b.file| && b.ino == a.ino[i := b.ino[i]] && b.file == a.file[i := b.file[i]]
  }

  /** One more entry; the first one takes block `x`. */
  lemma AppendEnt(sb: Super, v: Disk, a: Abs, i: nat, x: nat, e: seq<Ent>, inum: u16, name: seq<byte>) returns (u: Disk, c: Abs)
    requires Draft(sb, v, a, i) && ShortDir(a, i, e) && |e| < 32 && sb.Ok() && |v| == sb.size && i < sb.ninodes && (e == [] ==> x < sb.size && !BitAt(sb, v, x))
    ensures Draft(sb, u, c, i) && ShortDir(c, i, e + [Ent(inum, NameOf(name))]) && NewBits(sb, v, u, if e == [] then {x} else {})
    ensures OnlyFile(a, c, i) && c.ino[i] == a.ino[i].(size := c.ino[i].size, addrs := c.ino[i].addrs)
  {
    var ent, f := EncodeEnt(inum, name), a.file[i];
    var size := a.ino[i].size;
    DirLength(a, i, e);
    DraftFacts(sb, v, a, i);
    hide BitAt;
    u, c := v, a;
    if e == [] {
      u, c := DraftBlock(sb, v, a, i, x);
      assert f == [] && f + [ZERO] == [ZERO];
    } else {
      SameBits(sb, v);
      assert a.ino[i := a.ino[i]] == a.ino && a.file[i := f] == a.file && f != [];
    }
    hide Draft, DirIs, ZeroTail;
    assert |c.file[i]| == 1;
    u, c := PutEnt(sb, v, u, a, c, i, if e == [] then {x} else {}, size, ent);
    EntWritten(a, c, i, size, ent);
    AppendedEnt(a, c, i, e, inum, name);
    WroteEnt(f, size, ent);
    WroteTail(f, c.file[i], size, ent);
  }

  lemma SameBits(sb: Super, v: Disk)
    requires sb.Ok() && |v| == sb.size
    ensures NewBits(sb, v, v, {})
  {
  }

  lemma PutEnt(sb: Super, v: Disk, u: Disk, a: Abs, c: Abs, i: nat, s: set<nat>, size: nat, ent: seq<byte>) returns (w: Disk, b: Abs)
    requires Draft(sb, u, c, i) && i < |a.ino| == |a.file| == |c.ino| == |c.file| && |c.file[i]| == 1 && size + DIRENT <= BSIZE && |ent| == DIRENT
    requires c.ino == a.ino[i := a.ino[i].(addrs := c.ino[i].addrs)] && NewBits(sb, v, u, s)
    requires c.file == a.file[i := if a.file[i] == [] then [ZERO] else a.file[i]]
    ensures Draft(sb, w, b, i) && NewBits(sb, v, w, s) && OnlyFile(a, b, i)
    ensures b.ino[i] == a.ino[i].(size := size + DIRENT, addrs := b.ino[i].addrs) && b.file[i] == Patched(a.file[i], 0, size, ent)
  {
    var blk: Block := Splice(c.file[i][0], size, ent);
    DraftFacts(sb, u, c, i);
    DraftData(sb, u, c, i, 0, blk);
    w, b := u[Addr(u, c.ino[i], 0) := blk], Rewritten(c, i, 0, blk);
    hide Draft, Addr;
    BitsBoth(sb, v, u, w, s, {});
    assert s + {} == s;
    hide NewBits;
    DraftMeta(sb, w, b, i, b.ino[i].(size := size + DIRENT));
    b := WithInode(b, i, b.ino[i].(size := size + DIRENT));
    assert b.file[i] == Patched(a.file[i], 0, size, ent);
  }

  lemma WroteEnt(f: seq<Block>, size: nat, ent: seq<byte>)
    requires |f| == Blocks(size) && size + DIRENT <= BSIZE && |ent| == DIRENT
    ensures Wrote(f, Patched(f, 0, size, ent), size, ent)
  {
    WroteNothing(f, size);
    assert ent[..0] == [] && ent[0..0 + DIRENT] == ent == ent[..0 + DIRENT];
    WroteMore(f, f, size, ent, 0, DIRENT);
  }

  lemma EntWritten(a: Abs, b: Abs, i: nat, size: nat, ent: seq<byte>)
    requires OnlyFile(a, b, i) && a.ino[i].size == size && |a.file[i]| == Blocks(size) && size + DIRENT <= BSIZE && |ent| == DIRENT
    requires b.ino[i] == a.ino[i].(size := size + DIRENT, addrs := b.ino[i].addrs) && b.file[i] == Patched(a.file[i], 0, size, ent)
    ensures Overwritten(a, b, i, size, ent)
  {
    WroteEnt(a.file[i], size, ent);
    WroteContent(a.file[i], b.file[i], size, size, ent);
  }

  function Dots(i: u16, parent: u16): (e: seq<Ent>)
  {
    [Ent(i, DOT), Ent(parent, DOTDOT)]
  }

  /** A new directory: "." and "..", in block `x`. */
  lemma NewDir(sb: Super, v: Disk, a: Abs, i: nat, x: nat, parent: u16) returns (u: Disk, c: Abs)
    requires Draft(sb, v, a, i) && sb.Ok() && |v| == sb.size && i < sb.ninodes < 0x8000 && x < sb.size && !BitAt(sb, v, x)
    requires i < |a.ino| == |a.file| && a.file[i] == [] && a.ino[i] == FREE
    ensures Draft(sb, u, c, i) && ShortDir(c, i, Dots(i, parent)) && NewBits(sb, v, u, {x})
    ensures OnlyFile(a, c, i) && c.ino[i] == NewInode(T_DIR, 0, 0).(size := c.ino[i].size, addrs := c.ino[i].addrs)
  {
    hide BitAt, ZeroTail;
    DotNames();
    var d := NewInode(T_DIR, 0, 0);
    DraftMeta(sb, v, a, i, d);
    c := WithInode(a, i, d);
    EmptyDir(c, i);
    EmptyTail(c.file[i]);
    assert ShortDir(c, i, []);
    hide Draft, ShortDir, NewBits, NameOf;
    var w, b := AppendEnt(sb, v, c, i, x, [], i, DOT_NAME);
    u, c := AppendEnt(sb, w, b, i, x, [Ent(i, DOT)], parent, DOTDOT_NAME);
    BitsBoth(sb, v, w, u, {x}, {});
    assert {x} + {} == {x} && [Ent(i, DOT)] + [Ent(parent, DOTDOT)] == [Ent(i, DOT), Ent(parent, DOTDOT)] && [] + [Ent(i, DOT)] == [Ent(i, DOT)];
  }

  lemma EmptyTail(f: seq<Block>)
    requires f == []
    ensures ZeroTail(0, f)
  {
  }

  /** A disk with nothing but the root directory, in the first data block. */
  lemma RootDisk(sb: Super) returns (v: Disk, a: Abs, m: Map)
    requires sb.Ok() && sb.DataStart() < sb.size
    ensures WholeDisk(sb, v, a, m) && |v| == sb.size && Filled(sb, v, sb.DataStart() + 1) && |a.ino| == |a.file| == sb.ninodes
    ensures ShortDir(a, ROOTINO, Dots(ROOTINO, ROOTINO)) && a.ino[ROOTINO].nlink == 1
    ensures m == Map(map[], map[ROOTINO := 0]) && forall i :: 0 <= i < sb.ninodes && i != ROOTINO ==> a.ino[i] == FREE && a.file[i] == []
  {
    var zero: Disk := seq(sb.size, _ => ZERO);
    var w := BlankImage(sb, zero);
    a, m := Nothing(sb.ninodes), Map(map[], map[ROOTINO := 0]);
    ImageFacts(sb, zero, sb.DataStart(), w, a, {});
    NothingSized(sb.ninodes);
    DraftNext(sb, w, a, ROOTINO);
    assert !BitAt(sb, w, sb.DataStart());
    hide BitAt, Draft, ShortDir, NewBits, BlocksOk, Synced, ZeroTail;
    var u, c := NewDir(sb, w, a, ROOTINO, sb.DataStart(), ROOTINO);
    RootOnly(c, sb.ninodes);
    v := WrittenWhole(sb, u, c, m, ROOTINO);
    BitsBoth(sb, w, u, v, {sb.DataStart()}, {});
    assert {sb.DataStart()} + {} == {sb.DataStart()};
    FilledMore(sb, w, v, sb.DataStart());
    a := c;
  }

  lemma RootOnly(c: Abs, n: nat)
    requires 2 <= n == |c.ino| == |c.file| < 0x8000 && ShortDir(c, ROOTINO, [Ent(ROOTINO, DOT), Ent(ROOTINO, DOTDOT)]) && c.ino[ROOTINO].nlink == 1
    requires forall i :: 0 <= i < n && i != ROOTINO ==> c.ino[i] == FREE && c.file[i] == []
    ensures InOrder(c, Map(map[], map[ROOTINO := 0]))
  {
    DirLength(c, ROOTINO, [Ent(ROOTINO, DOT), Ent(ROOTINO, DOTDOT)]);
    hide DirIs, ZeroTail;
    RootTree(c);
  }

  lemma FilledMore(sb: Super, v: Disk, w: Disk, n: nat)
    requires NewBits(sb, v, w, {n}) && Filled(sb, v, n)
    ensures Filled(sb, w, n + 1)
  {
  }

  // Files spread over many bitmap blocks.

  /** Block `c` of the blocks that the j-th bitmap block stands for. */
  function Far(j: nat, c: nat): (x: nat) { j * BPB + c }

  /** File `i` gets one block from each of the bitmap blocks `lo` to `hi`. */
  lemma {:induction false} SpreadOut(sb: Super, v: Disk, a: Abs, m: Map, i: nat, c: nat, lo: nat, hi: nat) returns (w: Disk, b: Abs)
    requires WholeDisk(sb, v, a, m) && Growing(a, i) && i < sb.ninodes && |v| == sb.size && sb.Ok() && lo <= hi && Held(a, i) + (hi - lo) <= MAXFILE
    requires forall j :: lo <= j < hi ==> Far(j, c) < sb.size && !BitAt(sb, v, Far(j, c))
    ensures WholeDisk(sb, w, b, m) && Growing(b, i) && |b.ino| == |a.ino| && Extends(a, b) && (Empty(a, i) ==> Empty(b, i))
    ensures b.ino == a.ino[i := a.ino[i].(size := b.ino[i].size, addrs := b.ino[i].addrs)] && b.file == a.file[i := b.file[i]]
    ensures forall j :: lo <= j < hi ==> Far(j, c) in b.owner && b.owner[Far(j, c)].i == i
    decreases hi - lo
  {
    hide WholeDisk, BitAt, Empty;
    if lo == hi {
      w, b := v, a;
      assert a.ino[i := a.ino[i]] == a.ino && a.file[i := a.file[i]] == a.file;
    } else {
      var u, d := Grow(sb, v, a, m, i, Far(lo, c));
      BitsFar(sb, v, u, c, lo, hi);
      w, b := SpreadOut(sb, u, d, m, i, c, lo + 1, hi);
    }
  }

  lemma BitsFar(sb: Super, v: Disk, u: Disk, c: nat, lo: nat, hi: nat)
    requires NewBits(sb, v, u, {Far(lo, c)}) && forall j :: lo <= j < hi ==> Far(j, c) < sb.size && !BitAt(sb, v, Far(j, c))
    ensures |u| == sb.size && forall j :: lo + 1 <= j < hi ==> Far(j, c) < sb.size && !BitAt(sb, u, Far(j, c))
  {
    hide BitAt;
    forall j | lo + 1 <= j < hi ensures !BitAt(sb, u, Far(j, c)) {
      assert Far(j, c) != Far(lo, c);
    }
  }

  lemma {:induction false} ShiftedSize(s: set<nat>, n: nat, base: nat)
    requires forall y :: base <= y < base + n ==> y in s
    ensures |s| >= n
    decreases n
  {
    if n > 0 {
      var y := base + n - 1;
      ShiftedSize(s - {y}, n - 1, base);
    }
  }

  lemma SpreadWide(sb: Super, a: Abs, i: nat, c: nat, n: nat)
    requires c < BPB && forall j :: 0 <= j < n ==> Far(j, c) in a.owner && a.owner[Far(j, c)].i == i
    ensures |Spread(sb, a, i)| >= n
  {
    forall y | sb.bmapstart <= y < sb.bmapstart + n ensures y in Spread(sb, a, i) {
      var x := Far(y - sb.bmapstart, c);
      assert x in Pending(a, i, 0);
      assert sb.BBlock(x) == y;
    }
    ShiftedSize(Spread(sb, a, i), n, sb.bmapstart);
  }

  /** An inode in use without a name. */
  lemma Orphan(sb: Super, v: Disk, a: Abs, m: Map, i: nat) returns (w: Disk, b: Abs)
    requires WholeDisk(sb, v, a, m) && i < sb.ninodes && i < |a.ino| == |a.file| && a.ino[i] == FREE && a.file[i] == []
    ensures WholeDisk(sb, w, b, m) && NewBits(sb, v, w, {}) && b == WithInode(a, i, FREE.(typ := T_FILE)) && Growing(b, i)
  {
    WholeDraft(sb, v, a, m, i);
    hide BlocksOk;
    b := WithInode(a, i, FREE.(typ := T_FILE));
    DraftMeta(sb, v, a, i, b.ino[i]);
    OrphanTree(a, b, m, i);
    hide InOrder, Draft;
    w := WrittenWhole(sb, v, b, m, i);
  }

  lemma OrphanTree(a: Abs, b: Abs, m: Map, i: nat)
    requires InOrder(a, m) && i < |a.ino| && a.ino[i] == FREE && b == WithInode(a, i, FREE.(typ := T_FILE))
    ensures InOrder(b, m)
  {
    InOrderSized(a, m);
    OneNode(a, b, i);
    OrderTree(a, m);
    hide TreeOk, TreeOf;
    FreeTree(TreeOf(a), m, TreeOf(b), i);
  }

  /** With few bitmap blocks, neither unlink nor fileclose is ever too much for one transaction. */
  lemma FewBitmapBlocks(sb: Super, v: Disk, a: Abs, c: seq<Inode>, ft: seq<File>, names: seq<Name>, f: nat)
    requires BlocksOk(sb, v, a)
    ensures sb.size / BPB + 1 <= LOGSIZE - 5 ==> !UnlinkTooBig(sb, a, c, names)
    ensures sb.size / BPB + 1 <= LOGSIZE - 3 ==> !CloseTooBig(sb, a, c, ft, f)
  {
    hide Spread, BlocksOk, RefOf;
    BlocksShape(sb, v, a);
    forall i | 0 <= i < |a.ino| ensures |Spread(sb, a, i)| <= sb.size / BPB + 1 {
      SpreadFew(sb, v, a, i);
    }
  }

  /** All that the system asks for between two calls, with file `i` open in the first entry of the file table and no
      other. */
  ghost predicate OpenOnly(sb: Super, v: Disk, a: Abs, m: Map, c: seq<Inode>, ft: seq<File>, i: nat)
  {
    && Consistent(sb, v, a, {}, c) && Settled(a, {}, c) && InOrder(a, m) && Table(ft, c) && NoDirWritable(ft, c, a)
    && |ft| > 0 && ft[0].ref == 1 && ft[0].ip < |c| && c[ft[0].ip].inum == i && c[ft[0].ip].ref == 1
  }

  lemma OpenFirst(sb: Super, v: Disk, a: Abs, m: Map, i: nat, off: u32) returns (c: seq<Inode>, ft: seq<File>)
    requires WholeDisk(sb, v, a, m) && 0 < i < |a.ino| && a.ino[i].typ == T_FILE
    ensures OpenOnly(sb, v, a, m, c, ft, i) && |ft| > 0 && ft[0].writable && ft[0].off == off
  {
    WholeFacts(sb, v, a, m);
    hide BlocksOk, Synced, InOrder, Sized;
    var none := EmptyCache();
    c, ft := none[0 := Inode(i, 1, true, a.ino[i])], NoFiles()[0 := File(1, true, true, true, 0, off)];
    TableEmpty(NoFiles(), none, a);
    TableOpen(NoFiles(), none, c, 0, 0, ft[0]);
    assert Cached(sb, a, c) && Alive(a, c);
  }

  /** Closing a file may be too much for one transaction: on every disk with at least LOGSIZE - 2 bitmap blocks there
      can be an unlinked file whose last close panics. */
  lemma CloseOverflows(sb: Super) returns (v: Disk, a: Abs, m: Map, c: seq<Inode>, ft: seq<File>)
    requires sb.Ok() && 3 <= sb.ninodes && sb.DataStart() + 2 <= BPB && (LOGSIZE - 3) * BPB + sb.DataStart() + 2 <= sb.size
    ensures WholeDisk(sb, v, a, m) && OpenOnly(sb, v, a, m, c, ft, 2) && CloseTooBig(sb, a, c, ft, 0)
  {
    hide WholeDisk, Empty, ShortDir, Consistent, Settled, InOrder, Table, NoDirWritable, Spread, Filled;
    v, a, m := RootDisk(sb);
    var x, n := sb.DataStart() + 1, LOGSIZE - 2;
    var u;
    u, a := Orphan(sb, v, a, m, 2);
    FarFree(sb, v, u, x, n);
    hide NewBits, BitAt;
    v, a := SpreadOut(sb, u, a, m, 2, x, 0, n);
    SpreadWide(sb, a, 2, x, n);
    c, ft := OpenFirst(sb, v, a, m, 2, 0);
  }

  lemma FarFree(sb: Super, v: Disk, u: Disk, c: nat, n: nat)
    requires sb.Ok() && |v| == sb.size && Filled(sb, v, c) && NewBits(sb, v, u, {}) && n * BPB + c < sb.size + BPB && c < BPB
    ensures |u| == sb.size && forall j :: 0 <= j < n ==> Far(j, c) < sb.size && !BitAt(sb, u, Far(j, c))
  {
    hide BitAt;
  }

  /** A directory with nothing in it, in one block, named in the root directory. */
  lemma NamedDir(sb: Super, v: Disk, a: Abs, m: Map, i: nat, x: nat, name: seq<byte>) returns (w: Disk, b: Abs, m': Map)
    requires WholeDisk(sb, v, a, m) && sb.Ok() && |v| == sb.size && ROOTINO < i < sb.ninodes == |a.ino| == |a.file| && x < sb.size && !BitAt(sb, v, x)
    requires ShortDir(a, ROOTINO, Dots(ROOTINO, ROOTINO)) && a.ino[ROOTINO].nlink == 1 && a.ino[i] == FREE && a.file[i] == []
    requires NameOf(name) != DOT && NameOf(name) != DOTDOT
    ensures WholeDisk(sb, w, b, m') && NewBits(sb, v, w, {x}) && |b.ino| == |b.file| == |a.ino|
    ensures ShortDir(b, i, Dots(i, ROOTINO)) && b.ino[i].nlink == 1 && b.ino[i].typ == T_DIR
    ensures DirIs(b, ROOTINO, Dots(ROOTINO, ROOTINO) + [Ent(i, NameOf(name))])
  {
    hide WholeDisk, BitAt, Draft, ShortDir, NewBits, InOrder, NameOf, Shape, DirIs, CreatedIn, Sized, TreeOf, EntsOf, Created, Find, Dots;
    WholeDraft(sb, v, a, m, i);
    InOrderSized(a, m);
    var u;
    u, b := DirEntered(sb, v, a, i, x, name);
    CreateDone(a, b, m, ROOTINO, 2, i, NameOf(name), T_DIR, 0, 0);
    m' := Placed(m, i, ROOTINO, 2);
    w := WrittenWhole(sb, u, b, m', ROOTINO);
    BitsBoth(sb, v, u, w, {x}, {});
    assert {x} + {} == {x};
  }

  lemma DirEntered(sb: Super, v: Disk, a: Abs, i: nat, x: nat, name: seq<byte>) returns (u: Disk, b: Abs)
    requires Draft(sb, v, a, i) && sb.Ok() && |v| == sb.size && ROOTINO < i < sb.ninodes == |a.ino| == |a.file| && x < sb.size && !BitAt(sb, v, x) && Sized(a)
    requires ShortDir(a, ROOTINO, Dots(ROOTINO, ROOTINO)) && a.ino[ROOTINO].nlink == 1 && a.ino[i] == FREE && a.file[i] == []
    requires NameOf(name) != DOT && NameOf(name) != DOTDOT
    ensures Draft(sb, u, b, ROOTINO) && NewBits(sb, v, u, {x}) && |b.ino| == |b.file| == |a.ino| && Sized(b)
    ensures CreatedIn(a, b, ROOTINO, 2, i, NameOf(name), T_DIR, 0, 0) && ShortDir(b, i, Dots(i, ROOTINO)) && b.ino[i].nlink == 1 && b.ino[i].typ == T_DIR
    ensures DirIs(b, ROOTINO, Dots(ROOTINO, ROOTINO) + [Ent(i, NameOf(name))])
    ensures a.ino[ROOTINO].size <= |a.file[ROOTINO]| * BSIZE && |EntsOf(a.ino[ROOTINO], a.file[ROOTINO])| == 2
    ensures Find(EntsOf(a.ino[ROOTINO], a.file[ROOTINO]), NameOf(name)) == 0
  {
    hide BitAt, Draft, ShortDir, NewBits, NameOf, DirIs, CreatedIn, Sized, EntsOf, Find;
    var dots := Dots(ROOTINO, ROOTINO);
    var w, c := NewDir(sb, v, a, i, x, ROOTINO);
    ShortFrame(a, c, i, ROOTINO, dots);
    BitsSize(sb, v, w, {x});
    var d;
    u, d := EntryFor(sb, w, c, i, dots, name);
    b := MoreLinks(sb, u, d, ROOTINO, dots + [Ent(i, NameOf(name))]);
    BitsBoth(sb, v, w, u, {x}, {});
    assert {x} + {} == {x};
    ShortFrame(c, b, ROOTINO, i, Dots(i, ROOTINO));
    NamedIn(a, c, b, i, NameOf(name), T_DIR);
  }

  lemma ShortFrame(a: Abs, c: Abs, i: nat, d: nat, e: seq<Ent>)
    requires ShortDir(a, d, e) && OnlyFile(a, c, i) && i != d
    ensures ShortDir(c, d, e)
  {
  }

  lemma NamedIn(a: Abs, c: Abs, b: Abs, i: nat, name: Name, typ: s16)
    requires OnlyFile(a, c, i) && OnlyFile(c, b, ROOTINO) && ROOTINO < i < |a.ino| <= 0x8000 && Sized(a) && name != DOT && name != DOTDOT
    requires ShortDir(a, ROOTINO, Dots(ROOTINO, ROOTINO)) && a.ino[ROOTINO].nlink == 1 && b.ino[ROOTINO].nlink == if typ == T_DIR then 2 else 1
    requires if typ == T_DIR then ShortDir(b, i, Dots(i, ROOTINO)) else b.file[i] == [] && b.ino[i].size == 0
    requires c.ino[i] == NewInode(typ, 0, 0).(size := c.ino[i].size, addrs := c.ino[i].addrs)
    requires ShortDir(b, ROOTINO, Dots(ROOTINO, ROOTINO) + [Ent(i, name)])
    ensures CreatedIn(a, b, ROOTINO, 2, i, name, typ, 0, 0) && Sized(b) && Find(EntsOf(a.ino[ROOTINO], a.file[ROOTINO]), name) == 0
    ensures a.ino[ROOTINO].size <= |a.file[ROOTINO]| * BSIZE && |EntsOf(a.ino[ROOTINO], a.file[ROOTINO])| == 2
    ensures DirIs(b, ROOTINO, Dots(ROOTINO, ROOTINO) + [Ent(i, name)]) && b.ino[i].nlink == 1 && b.ino[i].typ == typ && |b.ino| == |a.ino| == |b.file|
  {
    var e := Dots(ROOTINO, ROOTINO);
    if typ == T_DIR {
      DirLength(b, i, Dots(i, ROOTINO));
    }
    DirLength(b, ROOTINO, e + [Ent(i, name)]);
    hide EntsOf, ZeroTail;
    assert Where(e, name) == 2;
    assert SetEnt(e, 2, Ent(i, name)) == e + [Ent(i, name)];
  }

  lemma BitsSize(sb: Super, v: Disk, w: Disk, s: set<nat>)
    requires NewBits(sb, v, w, s)
    ensures |w| == sb.size
  {
  }

  /** The root directory gets a name for inode `i`. */
  lemma EntryFor(sb: Super, v: Disk, a: Abs, i: nat, e: seq<Ent>, name: seq<byte>) returns (w: Disk, b: Abs)
    requires Draft(sb, v, a, i) && sb.Ok() && |v| == sb.size && ROOTINO < i < sb.ninodes && ShortDir(a, ROOTINO, e) && 0 < |e| < 32
    ensures Draft(sb, w, b, ROOTINO) && NewBits(sb, v, w, {}) && OnlyFile(a, b, ROOTINO) && ShortDir(b, ROOTINO, e + [Ent(i, NameOf(name))])
    ensures b.ino[ROOTINO].nlink == a.ino[ROOTINO].nlink
  {
    hide Draft, NewBits, NameOf, ShortDir, BlocksOk, Synced, InodeWritten;
    DraftFacts(sb, v, a, i);
    DraftLimbo(sb, v, a, i);
    DraftWritten(sb, v, a, i);
    var u := InodeWritten(sb, v, i, a.ino[i]);
    DraftNext(sb, u, a, ROOTINO);
    BitsSize(sb, v, u, {});
    w, b := AppendEnt(sb, u, a, ROOTINO, 0, e, i, name);
    BitsBoth(sb, v, u, w, {}, {});
    var none: set<nat> := {};
    assert none + none == none;
  }

  lemma MoreLinks(sb: Super, v: Disk, a: Abs, i: nat, e: seq<Ent>) returns (b: Abs)
    requires Draft(sb, v, a, i) && ShortDir(a, i, e) && a.ino[i].nlink == 1
    ensures Draft(sb, v, b, i) && ShortDir(b, i, e) && OnlyFile(a, b, i) && b.ino[i] == a.ino[i].(nlink := 2) && b.file == a.file
  {
    var d := a.ino[i].(nlink := 2);
    DraftMeta(sb, v, a, i, d);
    DirMeta(a, i, d, e);
    b := WithInode(a, i, d);
    assert a.file[i := a.file[i]] == a.file;
  }

  /** Its block counts as full. */
  lemma RoundDir(sb: Super, v: Disk, a: Abs, m: Map, i: nat, e: seq<Ent>) returns (w: Disk, b: Abs)
    requires WholeDisk(sb, v, a, m) && i < sb.ninodes && ShortDir(a, i, e) && a.ino[i].nlink > 0 && |e| == 2
    ensures WholeDisk(sb, w, b, m) && NewBits(sb, v, w, {}) && Growing(b, i) && b == WithInode(a, i, a.ino[i].(size := BSIZE)) && Empty(b, i)
  {
    hide WholeDisk, InOrder, BlocksOk, Shape, Draft, NewBits, ZeroTail, Sized, Empty, EntsOf;
    DirLength(a, i, e);
    WholeDraft(sb, v, a, m, i);
    DraftFacts(sb, v, a, i);
    b := WithInode(a, i, a.ino[i].(size := BSIZE));
    DraftMeta(sb, v, a, i, b.ino[i]);
    assert Rounded(a.ino[i].size) == BSIZE;
    var z := DirRounded(a, b, m, i, e);
    StillEmpty(b, i, e, z);
    w := WrittenWhole(sb, v, b, m, i);
  }

  lemma StillEmpty(b: Abs, i: nat, e: seq<Ent>, z: seq<Ent>)
    requires |b.ino| == |b.file| && Sized(b) && DirIs(b, i, e + z) && |e| == 2 && forall k :: 0 <= k < |z| ==> z[k].inum == 0
    ensures Empty(b, i)
  {
    hide EntsOf, Sized;
    assert TreeOf(b)[i].ents == e + z;
  }

  /** So may unlink: on every disk with at least LOGSIZE - 4 bitmap blocks there can be an empty directory that is too
      spread for it. */
  lemma UnlinkOverflows(sb: Super, name: seq<byte>) returns (v: Disk, a: Abs, m: Map)
    requires sb.Ok() && IPB < sb.ninodes && sb.DataStart() + 3 <= BPB && (LOGSIZE - 5) * BPB + sb.DataStart() + 3 <= sb.size
    requires NameOf(name) != DOT && NameOf(name) != DOTDOT
    ensures WholeDisk(sb, v, a, m) && UnlinkTooBig(sb, a, EmptyCache(), [NameOf(name)])
  {
    hide WholeDisk, Empty, ShortDir, NameOf, Dots, BitAt, NewBits, DirIs, Filled, Spread, UnlinkTooBig;
    v, a, m := RootDisk(sb);
    var x, n := sb.DataStart() + 1, LOGSIZE - 4;
    FreeAbove(sb, v, x);
    var u, w;
    u, a, m := NamedDir(sb, v, a, m, IPB, x, name);
    DotsLength(IPB, ROOTINO);
    var b := a;
    w, a := RoundDir(sb, u, a, m, IPB, Dots(IPB, ROOTINO));
    BitsBoth(sb, v, u, w, {x}, {});
    FarLeft(sb, v, w, x, x + 1, n);
    DirFrame(b, a, ROOTINO, Dots(ROOTINO, ROOTINO) + [Ent(IPB, NameOf(name))]);
    b := a;
    v, a := SpreadOut(sb, w, a, m, IPB, x + 1, 0, n);
    DirFrame(b, a, ROOTINO, Dots(ROOTINO, ROOTINO) + [Ent(IPB, NameOf(name))]);
    SpreadWide(sb, a, IPB, x + 1, n);
    Stuck(sb, a, NameOf(name));
  }

  lemma DotsLength(i: u16, parent: u16)
    ensures |Dots(i, parent)| == 2
  {
  }

  lemma FreeAbove(sb: Super, v: Disk, x: nat)
    requires sb.Ok() && |v| == sb.size && Filled(sb, v, x) && x < sb.size
    ensures !BitAt(sb, v, x)
  {
  }

  lemma FarLeft(sb: Super, v: Disk, u: Disk, x: nat, c: nat, n: nat)
    requires sb.Ok() && |v| == sb.size && Filled(sb, v, x) && NewBits(sb, v, u, {x} + {}) && n * BPB + c < sb.size + BPB && x < c < BPB
    ensures |u| == sb.size && forall j :: 0 <= j < n ==> Far(j, c) < sb.size && !BitAt(sb, u, Far(j, c))
  {
    hide BitAt;
  }

  lemma Stuck(sb: Super, a: Abs, name: Name)
    requires Empty(a, IPB) && a.ino[IPB].typ == T_DIR && DirIs(a, ROOTINO, Dots(ROOTINO, ROOTINO) + [Ent(IPB, name)]) && name != DOT && name != DOTDOT
    requires |Spread(sb, a, IPB)| >= LOGSIZE - 4
    ensures UnlinkTooBig(sb, a, EmptyCache(), [name])
  {
    NoRefs(EmptyCache(), IPB);
    hide EntsOf, Spread, Sized, RefOf, EmptyCache;
    var e := Dots(ROOTINO, ROOTINO) + [Ent(IPB, name)];
    assert TreeOf(a)[ROOTINO].ents == e && TreeOf(a)[ROOTINO].typ == T_DIR;
    assert Named(e[2], name) && !Named(e[0], name) && !Named(e[1], name) && Where(e, name) == 2;
    assert Goal(TreeOf(a), ROOTINO, [name], true) == ROOTINO;
  }

  lemma {:induction false} NoRefs(c: seq<Inode>, i: nat)
    requires forall s :: 0 <= s < |c| ==> c[s].ref == 0
    ensures RefOf(c, i) == 0
  {
    if c != [] {
      NoRefs(c[..|c| - 1], i);
    }
  }

  // A disk on which a chunk of filewrite uses every block it may.

  /** A file without contents, named in the root directory. */
  lemma NamedFile(sb: Super, v: Disk, a: Abs, m: Map, i: nat, name: seq<byte>) returns (w: Disk, b: Abs, m': Map)
    requires WholeDisk(sb, v, a, m) && sb.Ok() && |v| == sb.size && ROOTINO < i < sb.ninodes == |a.ino| == |a.file|
    requires ShortDir(a, ROOTINO, Dots(ROOTINO, ROOTINO)) && a.ino[ROOTINO].nlink == 1 && a.ino[i] == FREE && a.file[i] == []
    requires NameOf(name) != DOT && NameOf(name) != DOTDOT
    ensures WholeDisk(sb, w, b, m') && NewBits(sb, v, w, {}) && |b.ino| == |b.file| == |a.ino| && Growing(b, i) && b.ino[i].typ == T_FILE
    ensures b.file[i] == [] && forall k :: 0 <= k < |a.ino| && k != i && k != ROOTINO ==> b.ino[k] == a.ino[k] && b.file[k] == a.file[k]
    ensures DirIs(b, ROOTINO, Dots(ROOTINO, ROOTINO) + [Ent(i, NameOf(name))]) && Held(b, i) == 0
  {
    hide WholeDisk, BitAt, Draft, ShortDir, NewBits, InOrder, NameOf, Shape, DirIs, CreatedIn, Sized, TreeOf, EntsOf, Created, Find, Dots;
    WholeDraft(sb, v, a, m, i);
    InOrderSized(a, m);
    DotsLength(ROOTINO, ROOTINO);
    var c := WithInode(a, i, NewInode(T_FILE, 0, 0));
    DraftMeta(sb, v, a, i, c.ino[i]);
    assert a.file[i := a.file[i]] == a.file;
    ShortFrame(a, c, i, ROOTINO, Dots(ROOTINO, ROOTINO));
    var u;
    u, b := EntryFor(sb, v, c, i, Dots(ROOTINO, ROOTINO), name);
    NamedIn(a, c, b, i, NameOf(name), T_FILE);
    CreateDone(a, b, m, ROOTINO, 2, i, NameOf(name), T_FILE, 0, 0);
    m' := Placed(m, i, ROOTINO, 2);
    w := WrittenWhole(sb, u, b, m', ROOTINO);
    BitsBoth(sb, v, u, w, {}, {});
    var none: set<nat> := {};
    assert none + none == none;
  }

  /** Nothing but file `i` has changed, which has grown. */
  ghost predicate OnlyGrown(a: Abs, b: Abs, i: nat)
  {
    && Growing(a, i) && Growing(b, i) && OnlyFile(a, b, i) && b.ino[i] == a.ino[i].(size := b.ino[i].size, addrs := b.ino[i].addrs)
  }

  /** File `i` gets direct blocks from `x` on. */
  lemma {:induction false} GrowTo(sb: Super, v: Disk, a: Abs, m: Map, i: nat, x: nat, n: nat) returns (w: Disk, b: Abs)
    requires WholeDisk(sb, v, a, m) && sb.Ok() && |v| == sb.size && i < sb.ninodes && Growing(a, i) && Held(a, i) == |a.file[i]| <= n <= NDIRECT
    requires Filled(sb, v, x) && x + n - |a.file[i]| <= sb.size
    ensures WholeDisk(sb, w, b, m) && |w| == sb.size && OnlyGrown(a, b, i) && Held(b, i) == |b.file[i]| == n
    ensures Filled(sb, w, x + n - |a.file[i]|)
    decreases n - |a.file[i]|
  {
    hide WholeDisk, BitAt, Filled, NewBits, Empty, Extends;
    if |a.file[i]| == n {
      w, b := v, a;
      assert a.ino[i := a.ino[i]] == a.ino && a.file[i := a.file[i]] == a.file;
    } else {
      FreeAbove(sb, v, x);
      var u, c := Grow(sb, v, a, m, i, x);
      BitsSize(sb, v, u, {x});
      FilledMore(sb, v, u, x);
      w, b := GrowTo(sb, u, c, m, i, x + 1, n);
    }
  }

  /** The last block of file `i` counts only in part. */
  lemma Shortened(sb: Super, v: Disk, a: Abs, m: Map, i: nat, size: u32) returns (w: Disk, b: Abs)
    requires WholeDisk(sb, v, a, m) && i < sb.ninodes && i < |a.ino| == |a.file| && a.ino[i].typ == T_FILE && Blocks(size) == |a.file[i]|
    ensures WholeDisk(sb, w, b, m) && NewBits(sb, v, w, {}) && b == WithInode(a, i, a.ino[i].(size := size))
  {
    hide WholeDisk, InOrder, Draft, NewBits, Blocks;
    WholeDraft(sb, v, a, m, i);
    b := WithInode(a, i, a.ino[i].(size := size));
    DraftMeta(sb, v, a, i, b.ino[i]);
    DraftFacts(sb, v, a, i);
    ShortTree(a, b, m, i, size);
    w := WrittenWhole(sb, v, b, m, i);
  }

  lemma ShortTree(a: Abs, b: Abs, m: Map, i: nat, size: u32)
    requires InOrder(a, m) && i < |a.ino| && a.ino[i].typ == T_FILE && Blocks(size) == |a.file[i]| <= MAXFILE && b == WithInode(a, i, a.ino[i].(size := size))
    ensures InOrder(b, m)
  {
    assert |b.ino| == |b.file| && Sized(b);
    assert TreeOf(b) == TreeOf(a);
  }

  /** Blocks from `x` to `n`, but one from each bitmap block. */
  function Others(x: nat, n: nat, c: nat): (r: set<nat>)
  {
    set y | x <= y < n && y % BPB != c
  }

  /** Files `i` and up take these blocks. */
  lemma {:induction false} FillUp(sb: Super, v: Disk, a: Abs, m: Map, i: nat, x: nat, c: nat) returns (w: Disk, b: Abs)
    requires WholeDisk(sb, v, a, m) && sb.Ok() && |v| == sb.size && i < sb.ninodes == |a.ino| == |a.file| && Growing(a, i) && x <= sb.size
    requires forall k :: i < k < sb.ninodes ==> a.ino[k] == FREE && a.file[k] == []
    requires forall y :: x <= y < sb.size ==> !BitAt(sb, v, y)
    requires sb.size - x <= (MAXFILE + 1) * (sb.ninodes - i) - Held(a, i)
    ensures WholeDisk(sb, w, b, m) && NewBits(sb, v, w, Others(x, sb.size, c)) && |b.ino| == |b.file| == |a.ino|
    ensures forall k :: 0 <= k < i ==> b.ino[k] == a.ino[k] && b.file[k] == a.file[k]
    decreases sb.size - x, sb.ninodes - i
  {
    hide WholeDisk, BitAt, NewBits, Empty, Extends;
    var n := sb.size;
    if x == n {
      w, b := v, a;
      SameBits(sb, v);
      assert Others(x, n, c) == {};
    } else if x % BPB == c {
      w, b := FillUp(sb, v, a, m, i, x + 1, c);
      assert Others(x, n, c) == Others(x + 1, n, c);
    } else if |a.file[i]| < MAXFILE {
      var u, d := Grow(sb, v, a, m, i, x);
      BitsSize(sb, v, u, {x});
      StillFree(sb, v, u, x);
      w, b := FillUp(sb, u, d, m, i, x + 1, c);
      BitsBoth(sb, v, u, w, {x}, Others(x + 1, n, c));
      assert Others(x, n, c) == {x} + Others(x + 1, n, c);
    } else {
      WholeIndirect(sb, v, a, m, i);
      WholeLength(sb, v, a, m, i);
      var u, d := Orphan(sb, v, a, m, i + 1);
      BitsSize(sb, v, u, {});
      StillFreeToo(sb, v, u, x);
      w, b := FillUp(sb, u, d, m, i + 1, x, c);
      BitsBoth(sb, v, u, w, {}, Others(x, n, c));
      assert Others(x, n, c) == {} + Others(x, n, c);
    }
  }

  lemma WholeLength(sb: Super, v: Disk, a: Abs, m: Map, i: nat)
    requires WholeDisk(sb, v, a, m) && i < sb.ninodes && i < |a.ino| == |a.file|
    ensures |a.file[i]| <= MAXFILE
  {
    FileMax(sb, v, a, i);
  }

  lemma StillFree(sb: Super, v: Disk, u: Disk, x: nat)
    requires NewBits(sb, v, u, {x}) && forall y :: x <= y < sb.size ==> !BitAt(sb, v, y)
    ensures |u| == sb.size && sb.Ok() && forall y :: x + 1 <= y < sb.size ==> !BitAt(sb, u, y)
  {
    hide BitAt;
  }

  lemma StillFreeToo(sb: Super, v: Disk, u: Disk, x: nat)
    requires NewBits(sb, v, u, {}) && forall y :: x <= y < sb.size ==> !BitAt(sb, v, y)
    ensures |u| == sb.size && sb.Ok() && forall y :: x <= y < sb.size ==> !BitAt(sb, u, y)
  {
    hide BitAt;
  }

  /** A named file of ten blocks and a byte. */
  lemma LongFile(sb: Super, name: seq<byte>) returns (v: Disk, a: Abs, m: Map)
    requires sb.Ok() && 3 <= sb.ninodes && sb.DataStart() + 12 <= sb.size && NameOf(name) != DOT && NameOf(name) != DOTDOT
    ensures WholeDisk(sb, v, a, m) && |v| == sb.size && Filled(sb, v, sb.DataStart() + 12) && |a.ino| == |a.file| == sb.ninodes
    ensures DirIs(a, ROOTINO, Dots(ROOTINO, ROOTINO) + [Ent(2, NameOf(name))]) && Edge(a, 2)
    ensures forall k :: 2 < k < sb.ninodes ==> a.ino[k] == FREE && a.file[k] == []
  {
    hide WholeDisk, Empty, ShortDir, NameOf, Dots, BitAt, NewBits, DirIs, Filled;
    v, a, m := RootDisk(sb);
    var u, w, b, c;
    u, b, m := NamedFile(sb, v, a, m, 2, name);
    FilledSame(sb, v, u, sb.DataStart() + 1);
    w, c := GrowTo(sb, u, b, m, 2, sb.DataStart() + 1, 11);
    DirFrame(b, c, ROOTINO, Dots(ROOTINO, ROOTINO) + [Ent(2, NameOf(name))]);
    v, a := Shortened(sb, w, c, m, 2, 10 * BSIZE + 1);
    FilledSame(sb, w, v, sb.DataStart() + 12);
    DirFrame(c, a, ROOTINO, Dots(ROOTINO, ROOTINO) + [Ent(2, NameOf(name))]);
  }

  lemma FilledSame(sb: Super, v: Disk, w: Disk, n: nat)
    requires NewBits(sb, v, w, {}) && Filled(sb, v, n)
    ensures Filled(sb, w, n) && |w| == sb.size
  {
  }

  /** On every disk with at least four bitmap blocks and inodes enough to fill it, there can be an open file, with a
      name, that a full chunk is about to be written to, and four free blocks in different bitmap blocks for it. */
  lemma ScatteredDisk(sb: Super, name: seq<byte>) returns (v: Disk, a: Abs, m: Map, c: seq<Inode>, ft: seq<File>)
    requires sb.Ok() && 4 <= sb.ninodes && sb.DataStart() + 12 < BPB && 3 * BPB + sb.DataStart() + 12 < sb.size <= MAXFILE * (sb.ninodes - 3)
    requires NameOf(name) != DOT && NameOf(name) != DOTDOT
    ensures WholeDisk(sb, v, a, m) && DirIs(a, ROOTINO, Dots(ROOTINO, ROOTINO) + [Ent(2, NameOf(name))])
    ensures OpenOnly(sb, v, a, m, c, ft, 2) && |ft| > 0 && ft[0].writable && FullChunk(sb, v, a, 2, ft[0].off, CHUNK) && FourFree(sb, v, sb.DataStart() + 12)
  {
    hide WholeDisk, NameOf, Dots, BitAt, NewBits, DirIs, Filled, Scattered, IsFree, OpenOnly;
    var u, b, w, d;
    u, b, m := LongFile(sb, name);
    w, d := Orphan(sb, u, b, m, 3);
    FilledSame(sb, u, w, sb.DataStart() + 12);
    FilledFree(sb, w, sb.DataStart() + 12);
    v, a := FillUp(sb, w, d, m, 3, sb.DataStart() + 12, sb.DataStart() + 12);
    FewLeft(sb, w, v, sb.DataStart() + 12);
    DirFrame(b, a, ROOTINO, Dots(ROOTINO, ROOTINO) + [Ent(2, NameOf(name))]);
    c, ft := OpenFirst(sb, v, a, m, 2, 10 * BSIZE + 1);
  }

  ghost predicate FourFree(sb: Super, v: Disk, c: nat)
  {
    forall j :: 0 <= j < 4 ==> IsFree(sb, v, Far(j, c))
  }

  lemma FilledFree(sb: Super, v: Disk, n: nat)
    requires sb.Ok() && |v| == sb.size && Filled(sb, v, n)
    ensures forall y :: n <= y < sb.size ==> !BitAt(sb, v, y)
  {
  }

  lemma FewLeft(sb: Super, v: Disk, w: Disk, c: nat)
    requires sb.Ok() && |v| == sb.size && Filled(sb, v, c) && NewBits(sb, v, w, Others(c, sb.size, c)) && c < BPB && 3 * BPB + c < sb.size
    ensures Scattered(sb, w) && FourFree(sb, w, c)
  {
    hide BitAt;
    forall x: nat | IsFree(sb, w, x) ensures x % BPB == c {
      assert BitAt(sb, w, x) <==> BitAt(sb, v, x) || x in Others(c, sb.size, c);
    }
    forall j | 0 <= j < 4 ensures IsFree(sb, w, Far(j, c)) {
      assert Far(j, c) % BPB == c;
    }
  }
}
