/** mkfs.c: the image under construction, and what each step of building it keeps. */
module MkfsState {
  import opened Bytes
  import opened RedoLog
  import opened FsFormat
  import opened FsState
  import opened FsSteps
  import opened FsSpec
  import opened FsInodeSteps
  import opened FsContent
  import opened FileSteps

  /** A disk whose bitmap says that the first `n` blocks are in use. */
  ghost predicate Filled(sb: Super, w: Disk, n: nat)
    requires sb.Ok() && |w| == sb.size
  {
    forall b :: 0 <= b < sb.size ==> (BitAt(sb, w, b) <==> b < n)
  }

  /** `w` is the image with the bitmap that it will have when it is finished: all blocks below `freeblock`. In the image
      itself the bitmap is still empty. */
  ghost predicate ImageOk(sb: Super, disk: Disk, freeblock: nat, w: Disk, a: Abs, stale: set<nat>)
  {
    && BlocksOk(sb, w, a) && a.limbo == {} && Synced(sb, w, a, stale) && Filled(sb, w, freeblock)
    && |disk| == sb.size && sb.DataStart() <= freeblock <= sb.size
    && (forall x :: 0 <= x < sb.size && (x < sb.bmapstart || sb.DataStart() <= x) ==> disk[x] == w[x])
    && disk[sb.logstart] == ZERO && forall x :: sb.bmapstart <= x < sb.DataStart() || freeblock <= x < sb.size ==> disk[x] == ZERO
  }

  lemma ImageFacts(sb: Super, disk: Disk, freeblock: nat, w: Disk, a: Abs, stale: set<nat>)
    requires ImageOk(sb, disk, freeblock, w, a, stale)
    ensures Shape(sb, w, a) && BlocksOk(sb, w, a) && |disk| == |w| == sb.size && sb.DataStart() <= freeblock <= sb.size
    ensures forall x :: 0 <= x < sb.size && (x < sb.bmapstart || sb.DataStart() <= x) ==> disk[x] == w[x]
    ensures disk[sb.logstart] == ZERO && forall x :: sb.bmapstart <= x < sb.DataStart() || freeblock <= x < sb.size ==> disk[x] == ZERO
  {
  }

  // Building a file system block by block, with the inode of one file still to be written.

  ghost predicate Draft(sb: Super, v: Disk, a: Abs, i: nat)
  {
    BlocksOk(sb, v, a) && a.limbo == {} && i < sb.ninodes && Synced(sb, v, a, {i})
  }

  /** The bitmap of `w` has just the blocks of `s` more than that of `v`. */
  ghost predicate NewBits(sb: Super, v: Disk, w: Disk, s: set<nat>)
  {
    sb.Ok() && |v| == |w| == sb.size && forall b :: 0 <= b < sb.size ==> (BitAt(sb, w, b) <==> BitAt(sb, v, b) || b in s)
  }

  lemma DraftFacts(sb: Super, v: Disk, a: Abs, i: nat)
    requires Draft(sb, v, a, i)
    ensures Shape(sb, v, a) && BlocksOk(sb, v, a) && i < |a.ino| == |a.file| && a.ino[i].Ok() && |a.file[i]| <= MAXFILE
  {
    FileMax(sb, v, a, i);
  }

  lemma SyncedStale(sb: Super, v: Disk, a: Abs, b: Abs, i: nat)
    requires Shape(sb, v, a) && Shape(sb, v, b) && Synced(sb, v, a, {i}) && i < sb.ninodes && b.ino == a.ino[i := b.ino[i]]
    ensures Synced(sb, v, b, {i})
  {
    forall j | 0 <= j < sb.ninodes && j !in {i} ensures InodeAt(sb, v, j) == b.ino[j] {
      assert InodeAt(sb, v, j) == a.ino[j];
    }
  }

  /** A free block is taken. */
  lemma DraftTaken(sb: Super, v: Disk, a: Abs, i: nat, x: nat)
    requires Draft(sb, v, a, i) && x < sb.size && !BitAt(sb, v, x)
    ensures BlocksOk(sb, Allocated(sb, v, x), a.(limbo := {x})) && Allocated(sb, v, x)[x] == ZERO && sb.DataStart() <= x
    ensures Synced(sb, Allocated(sb, v, x), a, {i}) && NewBits(sb, v, Allocated(sb, v, x), {x})
  {
    Alloc(sb, v, a, x);
    assert a.limbo + {x} == {x};
    var w := Allocated(sb, v, x);
    BlocksShape(sb, w, a.(limbo := {x}));
    BBlockRange(sb, x);
    PutBitAtEffect(sb, v, x, true);
    hide BlocksOk, BitAt, PutBitAt;
    SyncedFrame(sb, v, w, a, {i});
    BitsFrame(sb, PutBitAt(sb, v, x, true), w);
  }

  /** It becomes a direct block of file `i`. */
  lemma DraftDirect(sb: Super, v: Disk, a: Abs, i: nat, x: nat)
    requires Draft(sb, v, a, i) && x < sb.size && !BitAt(sb, v, x) && |a.file[i]| < NDIRECT
    ensures x < 0x1_0000_0000 && NewBits(sb, v, Allocated(sb, v, x), {x})
    ensures var b := Attached(a.(limbo := {x}), i, a.ino[i].(addrs := a.ino[i].addrs[|a.file[i]| := x]), x);
            Draft(sb, Allocated(sb, v, x), b, i) && Addr(Allocated(sb, v, x), b.ino[i], |a.file[i]|) == x
  {
    DraftTaken(sb, v, a, i, x);
    DraftFacts(sb, v, a, i);
    var w, c := Allocated(sb, v, x), a.(limbo := {x});
    var b := Attached(c, i, a.ino[i].(addrs := a.ino[i].addrs[|a.file[i]| := x]), x);
    AttachDirect(sb, w, c, i, x);
    BlocksShape(sb, w, b);
    hide BlocksOk, Allocated, NewBits, BitAt;
    assert b.limbo == {};
    SyncedStale(sb, w, a, b, i);
  }

  /** Or its indirect block. */
  lemma DraftIndirect(sb: Super, v: Disk, a: Abs, i: nat, x: nat)
    requires Draft(sb, v, a, i) && x < sb.size && !BitAt(sb, v, x) && |a.file[i]| == NDIRECT && a.ino[i].addrs[NDIRECT] == 0
    ensures 0 < x < 0x1_0000_0000 && NewBits(sb, v, Allocated(sb, v, x), {x})
    ensures Draft(sb, Allocated(sb, v, x), IndirectAttached(a.(limbo := {x}), i, a.ino[i].(addrs := a.ino[i].addrs[NDIRECT := x]), x), i)
  {
    DraftTaken(sb, v, a, i, x);
    DraftFacts(sb, v, a, i);
    var w, c := Allocated(sb, v, x), a.(limbo := {x});
    var b := IndirectAttached(c, i, a.ino[i].(addrs := a.ino[i].addrs[NDIRECT := x]), x);
    AttachIndirect(sb, w, c, i, x);
    BlocksShape(sb, w, b);
    hide BlocksOk, Allocated, NewBits, BitAt;
    assert b.limbo == {};
    SyncedStale(sb, w, a, b, i);
  }

  /** Or a block named in the indirect block. */
  lemma DraftEntry(sb: Super, v: Disk, a: Abs, i: nat, x: nat, w: Disk, b: Abs)
    requires Draft(sb, v, a, i) && x < sb.size && x < 0x1_0000_0000 && sb.Ok() && |v| == sb.size && !BitAt(sb, v, x) && i < |a.ino| == |a.file| && a.ino[i].Ok()
    requires NDIRECT <= |a.file[i]| < MAXFILE && 0 < a.ino[i].addrs[NDIRECT] < |v| && b == Attached(a.(limbo := {x}), i, a.ino[i], x)
    requires w == Allocated(sb, v, x)[a.ino[i].addrs[NDIRECT] := PutEntry(v[a.ino[i].addrs[NDIRECT]], |a.file[i]| - NDIRECT, x)]
    ensures Draft(sb, w, b, i) && NewBits(sb, v, w, {x}) && Addr(w, a.ino[i], |a.file[i]|) == x
  {
    IndirectInUse(sb, v, a, i, x);
    DraftTaken(sb, v, a, i, x);
    hide Draft, BlocksOk, Allocated, BitAt, PutEntry, Addr;
    var ind, c, u := a.ino[i].addrs[NDIRECT], a.(limbo := {x}), Allocated(sb, v, x);
    AttachEntry(sb, u, c, i, x);
    EntryTaken(u, a.ino[i], |a.file[i]|, x, v[ind]);
    EntryDrafted(sb, v, u, a, i, x, w[ind]);
  }

  lemma IndirectInUse(sb: Super, v: Disk, a: Abs, i: nat, x: nat)
    requires Draft(sb, v, a, i) && a.ino[i].addrs[NDIRECT] != 0 && x < sb.size && !BitAt(sb, v, x)
    ensures var ind := a.ino[i].addrs[NDIRECT];
            && sb.DataStart() <= ind < |v| == |Allocated(sb, v, x)| && ind != x && 0 < x < 0x1_0000_0000 && BitAt(sb, v, ind)
            && Allocated(sb, v, x)[ind] == v[ind]
  {
    DraftFacts(sb, v, a, i);
    IndirectOwned(sb, v, a, i);
    assert BitAt(sb, v, a.ino[i].addrs[NDIRECT]);
    AllocatedElsewhere(sb, v, x, a.ino[i].addrs[NDIRECT]);
    assert BitAt(sb, v, 0);
  }

  lemma EntryDrafted(sb: Super, v: Disk, u: Disk, a: Abs, i: nat, x: nat, e: Block)
    requires Draft(sb, v, a, i) && |u| == sb.size && i < |a.ino| == |a.file| && a.ino[i].Ok()
    requires Synced(sb, u, a, {i}) && NewBits(sb, v, u, {x}) && sb.DataStart() <= a.ino[i].addrs[NDIRECT] < |u|
    requires BlocksOk(sb, u[a.ino[i].addrs[NDIRECT] := e], Attached(a.(limbo := {x}), i, a.ino[i], x))
    ensures Draft(sb, u[a.ino[i].addrs[NDIRECT] := e], Attached(a.(limbo := {x}), i, a.ino[i], x), i)
    ensures NewBits(sb, v, u[a.ino[i].addrs[NDIRECT] := e], {x})
  {
    DraftFacts(sb, v, a, i);
    var w, b := u[a.ino[i].addrs[NDIRECT] := e], Attached(a.(limbo := {x}), i, a.ino[i], x);
    BlocksShape(sb, w, b);
    hide BlocksOk, BitAt;
    BitsFrame(sb, u, w);
    assert b.limbo == {} && b.ino == a.ino;
    SyncedSame(sb, u, w, a, b, {i});
  }

  /** The indirect entry just written is the block number. */
  lemma EntryTaken(w: Disk, d: Dinode, bn: nat, n: nat, e: Block)
    requires d.Ok() && NDIRECT <= bn < MAXFILE && 0 < d.addrs[NDIRECT] < |w| && 0 < n < 0x1_0000_0000
    ensures Addr(w[d.addrs[NDIRECT] := PutEntry(e, bn - NDIRECT, n)], d, bn) == n
  {
  }

  /** New contents for a data block. */
  lemma DraftData(sb: Super, v: Disk, a: Abs, i: nat, bn: nat, blk: Block)
    requires Draft(sb, v, a, i) && bn < |a.file[i]|
    ensures bn < MAXFILE && sb.DataStart() <= Addr(v, a.ino[i], bn) < |v|
    ensures v[Addr(v, a.ino[i], bn)] == a.file[i][bn] && BitAt(sb, v, Addr(v, a.ino[i], bn))
    ensures var w := v[Addr(v, a.ino[i], bn) := blk]; Draft(sb, w, Rewritten(a, i, bn, blk), i) && NewBits(sb, v, w, {})
  {
    DraftFacts(sb, v, a, i);
    WriteData(sb, v, a, i, bn, blk);
    assert MappedAt(v, a, i);
    var x, b := Addr(v, a.ino[i], bn), Rewritten(a, i, bn, blk);
    assert HeldAt(sb, v, a, x);
    assert BitAt(sb, v, x);
    BlocksShape(sb, v[x := blk], b);
    hide BlocksOk, BitAt, Addr;
    BitsFrame(sb, v, v[x := blk]);
    SyncedSame(sb, v, v[x := blk], a, b, {i});
  }

  /** Fields of the inode other than its block numbers. */
  lemma DraftMeta(sb: Super, v: Disk, a: Abs, i: nat, d: Dinode)
    requires Draft(sb, v, a, i) && d.addrs == a.ino[i].addrs
    ensures Draft(sb, v, WithInode(a, i, d), i)
  {
    DraftFacts(sb, v, a, i);
    ChangeMeta(sb, v, a, i, d);
    BlocksShape(sb, v, WithInode(a, i, d));
    hide BlocksOk;
    SyncedStale(sb, v, a, WithInode(a, i, d), i);
  }

  /** The inode is written. */
  lemma DraftWritten(sb: Super, v: Disk, a: Abs, i: nat)
    requires Draft(sb, v, a, i)
    ensures BlocksOk(sb, InodeWritten(sb, v, i, a.ino[i]), a) && Synced(sb, InodeWritten(sb, v, i, a.ino[i]), a, {})
    ensures NewBits(sb, v, InodeWritten(sb, v, i, a.ino[i]), {})
  {
    DraftFacts(sb, v, a, i);
    InodeBlock(sb, i);
    var b := sb.IBlock(i);
    var e := PutInode(v[b], i % IPB, a.ino[i]);
    WriteInodeBlock(sb, v, a, b, e);
    BlocksShape(sb, v[b := e], a);
    InodeWrittenEffect(sb, v, i, a.ino[i]);
    hide BlocksOk, BitAt, InodeAt, PutInode;
    BitsFrame(sb, v, v[b := e]);
    assert Synced(sb, v[b := e], a, {});
  }

  /** Any inode may be changed next. */
  lemma DraftNext(sb: Super, v: Disk, a: Abs, i: nat)
    requires BlocksOk(sb, v, a) && a.limbo == {} && Synced(sb, v, a, {}) && i < sb.ninodes
    ensures Draft(sb, v, a, i)
  {
    BlocksShape(sb, v, a);
    hide BlocksOk;
  }

  // The same for the image that mkfs builds, whose bitmap is written last.

  lemma ImageDraft(sb: Super, disk: Disk, n: nat, w: Disk, a: Abs, i: nat)
    requires ImageOk(sb, disk, n, w, a, {i}) && i < sb.ninodes
    ensures Draft(sb, w, a, i) && Shape(sb, w, a) && (n < sb.size ==> !BitAt(sb, w, n))
  {
    ImageFacts(sb, disk, n, w, a, {i});
    hide BlocksOk;
  }

  /** From a draft back to the image. */
  lemma DraftImage(sb: Super, disk: Disk, disk': Disk, n: nat, n': nat, w: Disk, w': Disk, a: Abs, b: Abs, i: nat)
    requires ImageOk(sb, disk, n, w, a, {i}) && Draft(sb, w', b, i) && (n' == n || n' == n + 1) && n' <= sb.size
    requires NewBits(sb, w, w', if n' == n then {} else {n}) && |disk'| == sb.size && disk'[sb.logstart] == ZERO
    requires forall x :: 0 <= x < sb.size && (x < sb.bmapstart || sb.DataStart() <= x) ==> disk'[x] == w'[x]
    requires forall x :: sb.bmapstart <= x < sb.DataStart() || n' <= x < sb.size ==> disk'[x] == ZERO
    ensures ImageOk(sb, disk', n', w', b, {i})
  {
    hide BlocksOk, BitAt;
    BlocksShape(sb, w', b);
  }

  /** The next block becomes a direct block of the file. */
  lemma TakenDirect(sb: Super, disk: Disk, n: nat, w: Disk, a: Abs, i: nat)
    requires ImageOk(sb, disk, n, w, a, {i}) && n < sb.size && i < sb.ninodes && |a.file[i]| < NDIRECT
    ensures n < 0x1_0000_0000
    ensures var b := Attached(a.(limbo := {n}), i, a.ino[i].(addrs := a.ino[i].addrs[|a.file[i]| := n]), n);
            ImageOk(sb, disk, n + 1, Allocated(sb, w, n), b, {i})
  {
    ImageFacts(sb, disk, n, w, a, {i});
    ImageDraft(sb, disk, n, w, a, i);
    DraftDirect(sb, w, a, i, n);
    BBlockRange(sb, n);
    hide BlocksOk, Draft, NewBits, BitAt;
    var b := Attached(a.(limbo := {n}), i, a.ino[i].(addrs := a.ino[i].addrs[|a.file[i]| := n]), n);
    DraftImage(sb, disk, disk, n, n + 1, w, Allocated(sb, w, n), a, b, i);
  }

  /** The next block becomes the indirect block of the file. */
  lemma TakenIndirect(sb: Super, disk: Disk, n: nat, w: Disk, a: Abs, i: nat)
    requires ImageOk(sb, disk, n, w, a, {i}) && n < sb.size && i < sb.ninodes && |a.file[i]| == NDIRECT && a.ino[i].addrs[NDIRECT] == 0
    ensures n < 0x1_0000_0000
    ensures var b := IndirectAttached(a.(limbo := {n}), i, a.ino[i].(addrs := a.ino[i].addrs[NDIRECT := n]), n);
            ImageOk(sb, disk, n + 1, Allocated(sb, w, n), b, {i})
  {
    ImageFacts(sb, disk, n, w, a, {i});
    ImageDraft(sb, disk, n, w, a, i);
    DraftIndirect(sb, w, a, i, n);
    BBlockRange(sb, n);
    hide BlocksOk, Draft, NewBits, BitAt;
    var b := IndirectAttached(a.(limbo := {n}), i, a.ino[i].(addrs := a.ino[i].addrs[NDIRECT := n]), n);
    DraftImage(sb, disk, disk, n, n + 1, w, Allocated(sb, w, n), a, b, i);
  }

  lemma AllocatedFrame(sb: Super, v: Disk, n: nat)
    requires sb.Ok() && |v| == sb.size && n < sb.size
    ensures |Allocated(sb, v, n)| == |v| && Allocated(sb, v, n)[n] == ZERO
    ensures forall x :: 0 <= x < sb.size && x != n && (x < sb.bmapstart || sb.DataStart() <= x) ==> Allocated(sb, v, n)[x] == v[x]
  {
    BBlockRange(sb, n);
  }

  /** The indirect block is one of the blocks taken so far. */
  lemma IndirectTaken(sb: Super, disk: Disk, n: nat, w: Disk, a: Abs, i: nat)
    requires ImageOk(sb, disk, n, w, a, {i}) && i < sb.ninodes && a.ino[i].addrs[NDIRECT] != 0
    ensures sb.DataStart() <= a.ino[i].addrs[NDIRECT] < n && a.ino[i].addrs[NDIRECT] < |disk| && disk[a.ino[i].addrs[NDIRECT]] == w[a.ino[i].addrs[NDIRECT]]
  {
    ImageFacts(sb, disk, n, w, a, {i});
    IndirectOwned(sb, w, a, i);
    assert BitAt(sb, w, a.ino[i].addrs[NDIRECT]);
  }

  /** The next block is named in the indirect block. */
  lemma TakenEntry(sb: Super, disk: Disk, n: nat, w: Disk, a: Abs, i: nat, disk': Disk, w': Disk, b: Abs)
    requires ImageOk(sb, disk, n, w, a, {i}) && n < sb.size && n < 0x1_0000_0000 && i < sb.ninodes && i < |a.ino| == |a.file| && a.ino[i].Ok()
    requires NDIRECT <= |a.file[i]| < MAXFILE && 0 < a.ino[i].addrs[NDIRECT] < |disk| == |w|
    requires sb.Ok() && |w| == sb.size && b == Attached(a.(limbo := {n}), i, a.ino[i], n)
    requires var ind := a.ino[i].addrs[NDIRECT];
             var e := PutEntry(disk[ind], |a.file[i]| - NDIRECT, n);
             disk' == disk[ind := e] && w' == Allocated(sb, w, n)[ind := e]
    ensures ImageOk(sb, disk', n + 1, w', b, {i}) && 0 < n && Addr(w', a.ino[i], |a.file[i]|) == n
  {
    ImageFacts(sb, disk, n, w, a, {i});
    ImageDraft(sb, disk, n, w, a, i);
    hide ImageOk, BlocksOk, Draft, NewBits, BitAt, PutEntry, Addr;
    IndirectTaken(sb, disk, n, w, a, i);
    DraftEntry(sb, w, a, i, n, w', b);
    AllocatedFrame(sb, w, n);
    hide Allocated, Attached;
    DraftImage(sb, disk, disk', n, n + 1, w, w', a, b, i);
  }

  /** A data block is written. */
  lemma DataImage(sb: Super, disk: Disk, n: nat, w: Disk, a: Abs, i: nat, bn: nat, blk: Block)
    requires ImageOk(sb, disk, n, w, a, {i}) && i < sb.ninodes && bn < |a.file[i]| && bn < MAXFILE
    ensures var x := Addr(w, a.ino[i], bn);
            && sb.DataStart() <= x < n && x < |disk| == |w| && disk[x] == w[x] == a.file[i][bn]
            && ImageOk(sb, disk[x := blk], n, w[x := blk], Rewritten(a, i, bn, blk), {i})
  {
    ImageFacts(sb, disk, n, w, a, {i});
    ImageDraft(sb, disk, n, w, a, i);
    DraftData(sb, w, a, i, bn, blk);
    var x := Addr(w, a.ino[i], bn);
    assert x < n;
    hide BlocksOk, Draft, NewBits, BitAt, Addr;
    DraftImage(sb, disk, disk[x := blk], n, n, w, w[x := blk], a, Rewritten(a, i, bn, blk), i);
  }

  /** Fields of an inode other than its block numbers. */
  lemma MetaImage(sb: Super, disk: Disk, n: nat, w: Disk, a: Abs, stale: set<nat>, i: nat, d: Dinode)
    requires ImageOk(sb, disk, n, w, a, stale) && stale <= {i} && i < sb.ninodes && d.addrs == a.ino[i].addrs
    ensures ImageOk(sb, disk, n, w, WithInode(a, i, d), {i})
  {
    ImageFacts(sb, disk, n, w, a, stale);
    ChangeMeta(sb, w, a, i, d);
    BlocksShape(sb, w, WithInode(a, i, d));
    hide BlocksOk, Filled;
    SyncedChange(sb, w, a, WithInode(a, i, d), stale, i);
    assert stale + {i} == {i};
  }

  /** The inode is written. */
  lemma WinodeImage(sb: Super, disk: Disk, n: nat, w: Disk, a: Abs, i: nat)
    requires ImageOk(sb, disk, n, w, a, {i}) && i < sb.ninodes
    ensures ImageOk(sb, InodeWritten(sb, disk, i, a.ino[i]), n, InodeWritten(sb, w, i, a.ino[i]), a, {})
  {
    ImageFacts(sb, disk, n, w, a, {i});
    ImageDraft(sb, disk, n, w, a, i);
    DraftWritten(sb, w, a, i);
    InodeBlock(sb, i);
    hide BlocksOk, Draft, BitAt, PutInode, Synced;
  }

  /** The inode that rinode reads. */
  lemma RinodeImage(sb: Super, disk: Disk, n: nat, w: Disk, a: Abs, i: nat)
    requires ImageOk(sb, disk, n, w, a, {}) && i < sb.ninodes
    ensures sb.IBlock(i) < |disk| && InodeIn(disk[sb.IBlock(i)], i % IPB) == a.ino[i]
  {
    ImageFacts(sb, disk, n, w, a, {});
    InodeBlock(sb, i);
    assert InodeAt(sb, w, i) == a.ino[i];
  }

  /** A file with block `bn`, which may have to be added. */
  function Longer(f: seq<Block>, bn: nat): (g: seq<Block>)
  {
    if bn < |f| then f else f + [ZERO]
  }

  /** How many blocks a file with `n` data blocks takes. */
  function UsedBy(n: nat): (k: nat)
    ensures n <= k <= n + 1
  {
    if n > NDIRECT then n + 1 else n
  }

  lemma UsedMore(m: nat, n: nat)
    requires m <= n
    ensures UsedBy(m) <= UsedBy(n)
  {
  }

  /** File `i` has an indirect block only if it needs one. */
  ghost predicate Tight(a: Abs, i: nat)
  {
    i < |a.ino| == |a.file| && a.ino[i].Ok() && (a.ino[i].addrs[NDIRECT] != 0 ==> |a.file[i]| > NDIRECT)
  }

  /** iappend after `tot` bytes: as writei at the end of the file; the blocks taken are those that the file has more. */
  ghost predicate Appending(a: Abs, b: Abs, i: nat, p: seq<byte>, tot: nat, n: nat, n': nat)
  {
    && i < |a.ino| == |a.file| == |b.ino| == |b.file| && tot <= |p| && b.ino == a.ino[i := b.ino[i]] && b.file == a.file[i := b.file[i]]
    && b.ino[i] == a.ino[i].(addrs := b.ino[i].addrs) && Wrote(a.file[i], b.file[i], a.ino[i].size, p[..tot])
    && n' + UsedBy(|a.file[i]|) == n + UsedBy(|b.file[i]|)
  }

  lemma AppendingStart(a: Abs, i: nat, p: seq<byte>, n: nat)
    requires i < |a.ino| == |a.file|
    ensures Appending(a, a, i, p, 0, n, n) && Between(a.ino[i].size, 0, |p|)
  {
    assert p[..0] == [];
    WroteNothing(a.file[i], a.ino[i].size);
    assert a.ino[i := a.ino[i]] == a.ino && a.file[i := a.file[i]] == a.file;
  }

  lemma AppendingMore(a: Abs, b: Abs, c: Abs, i: nat, p: seq<byte>, tot: nat, m: nat, n: nat, n': nat, n'': nat)
    requires Appending(a, b, i, p, tot, n, n') && Between(a.ino[i].size, tot, |p|) && tot < |p| && m == Piece(a.ino[i].size + tot, |p| - tot)
    requires |a.file[i]| == Blocks(a.ino[i].size) && |c.ino| == |c.file| == |b.ino| && n'' + UsedBy(|b.file[i]|) == n' + UsedBy(|c.file[i]|)
    requires c.ino == b.ino[i := c.ino[i]] && c.ino[i] == b.ino[i].(addrs := c.ino[i].addrs)
    requires var off := a.ino[i].size + tot;
             off / BSIZE <= |b.file[i]| && c.file == b.file[i := Patched(b.file[i], off / BSIZE, off % BSIZE, p[tot..tot + m])]
    ensures Appending(a, c, i, p, tot + m, n, n'') && Between(a.ino[i].size, tot + m, |p|)
  {
    var off := a.ino[i].size;
    hide Wrote;
    WroteMore(a.file[i], b.file[i], off, p, tot, m);
    hide Piece;
  }

  /** The block that comes next is there or is the next one. */
  lemma AppendingNext(a: Abs, b: Abs, i: nat, p: seq<byte>, tot: nat, n: nat, n': nat)
    requires Appending(a, b, i, p, tot, n, n') && Between(a.ino[i].size, tot, |p|) && tot < |p| && |a.file[i]| == Blocks(a.ino[i].size)
    ensures (a.ino[i].size + tot) / BSIZE <= |b.file[i]| == Blocks(a.ino[i].size + tot) && (a.ino[i].size + tot) / BSIZE < Blocks(a.ino[i].size + |p|)
  {
    hide WroteAt;
  }

  /** What the last block has behind the end of the file is zero. */
  ghost predicate ZeroTail(size: nat, f: seq<Block>)
  {
    forall p :: size <= p < |f| * BSIZE ==> ByteAt(f, p) == 0
  }

  lemma WroteTail(f: seq<Block>, g: seq<Block>, size: nat, src: seq<byte>)
    requires Wrote(f, g, size, src) && ZeroTail(size, f)
    ensures ZeroTail(size + |src|, g)
  {
    forall p | size + |src| <= p < |g| * BSIZE ensures ByteAt(g, p) == 0 {
      assert WroteAt(f, g, size, src, p);
    }
  }

  lemma AppendingDone(a: Abs, b: Abs, i: nat, p: seq<byte>, n: nat, n': nat)
    requires Appending(a, b, i, p, |p|, n, n') && Sized(a) && a.ino[i].typ != 0 && a.ino[i].size + |p| <= MAXFILE * BSIZE
    ensures var c := WithInode(b, i, b.ino[i].(size := a.ino[i].size + |p|)); Overwritten(a, c, i, a.ino[i].size, p) && |c.ino| == |c.file| && Sized(c)
    ensures n' == n + More(a.ino[i].size, |p|)
    ensures ZeroTail(a.ino[i].size, a.file[i]) ==> ZeroTail(a.ino[i].size + |p|, b.file[i])
  {
    assert p[..|p|] == p;
    WroteContent(a.file[i], b.file[i], a.ino[i].size, a.ino[i].size, p);
    if ZeroTail(a.ino[i].size, a.file[i]) {
      WroteTail(a.file[i], b.file[i], a.ino[i].size, p);
    }
  }

  /** How many blocks a file of `size` bytes takes for `n` more. */
  function More(size: nat, n: nat): (k: nat)
  {
    UsedMore(Blocks(size), Blocks(size + n));
    UsedBy(Blocks(size + n)) - UsedBy(Blocks(size))
  }

  /** The image is full. */
  lemma NoMore(a: Abs, b: Abs, i: nat, p: seq<byte>, tot: nat, n: nat, n': nat, size: nat)
    requires Appending(a, b, i, p, tot, n, n') && Between(a.ino[i].size, tot, |p|) && tot < |p| && |a.file[i]| == Blocks(a.ino[i].size)
    requires var fbn := (a.ino[i].size + tot) / BSIZE; fbn >= |b.file[i]| && n' + UsedBy(fbn + 1) - UsedBy(fbn) > size
    ensures n + More(a.ino[i].size, |p|) > size
  {
    AppendingNext(a, b, i, p, tot, n, n');
    UsedMore((a.ino[i].size + tot) / BSIZE + 1, Blocks(a.ino[i].size + |p|));
  }

  lemma TightFacts(a: Abs, i: nat)
    requires Tight(a, i)
    ensures i < |a.ino| == |a.file| && a.ino[i].Ok() && forall d: Dinode :: d.addrs == a.ino[i].addrs ==> Tight(WithInode(a, i, d), i)
  {
  }

  lemma ImageStale(sb: Super, disk: Disk, n: nat, w: Disk, a: Abs, i: nat)
    requires ImageOk(sb, disk, n, w, a, {})
    ensures ImageOk(sb, disk, n, w, a, {i})
  {
    hide BlocksOk, Filled;
  }

  lemma SizedAt(a: Abs, i: nat)
    requires i < |a.ino| == |a.file| && Sized(a)
    ensures |a.file[i]| == Blocks(a.ino[i].size) && a.ino[i].size <= MAXFILE * BSIZE
  {
  }
}
