/** file.c: unlink. */
module FsUnlink {
  import opened Bytes
  import opened RedoLog
  import opened Kernel
  import opened LogState
  import opened Log
  import opened Strings
  import opened FsFormat
  import opened FsState
  import opened FsSteps
  import opened FsSpec
  import opened FsInodeSteps
  import opened FsContent
  import opened DirFormat
  import opened Tree
  import opened FsTree
  import opened FsAlloc
  import opened FsInodes
  import opened FsFile
  import opened FsDirs
  import opened FsPaths

  /** Sixteen zero bytes over entry `k`; the write stays within the directory, so it cannot fail. */
  method ClearEntry(fs: FileSys, s: nat, k: nat)
    requires fs.Valid() && Settled(fs.a, fs.stale, fs.icache) && Searchable(fs.a, fs.icache, s) && Loaded(fs.icache, s)
    requires k < |DirEnts(fs.a, fs.icache, s)| && fs.log.lh == [] && |fs.log.cache.face.held| <= 2
    modifies fs`icache, fs`a, fs`stale, fs.log`lh, fs.log.cache
    ensures fs.Valid() && Settled(fs.a, fs.stale, fs.icache) && Entered(old(fs.Now()), fs.Now(), s, k, CLEARED)
    ensures Cleared(fs.sb, old(fs.Now()), fs.Now(), old(fs.icache[s].inum), k)
  {
    hide TxnLog.Valid, Consistent, Settled, Entered, EntsOf, LiveEnts, Written, WriteLogged, Cleared;
    ghost var p := fs.Now();
    SizedFacts(fs.sb, fs.View(), fs.a, fs.stale, fs.icache, s);
    SettledSized(fs.a, fs.stale, fs.icache);
    EntCost(fs.icache[s].d.size, k);
    var zeros: seq<byte> := seq(DIRENT, _ => 0);
    ZeroEnt();
    var n := Writei(fs, s, zeros, DIRENT * k, NODEV);
    WrittenEntered(p, fs.Now(), s, k, zeros);
    ClearedLog(fs.sb, p, fs.Now(), s, k, zeros);
  }

  /** Only the block of the entry has been logged, and every other file is where it was. */
  ghost predicate Cleared(sb: Super, p: State, q: State, d: nat, k: nat)
  {
    && d < |p.a.ino| == |p.a.file| == |q.a.ino| == |q.a.file| && p.a.ino[d].Ok() && k / 32 < MAXFILE && k / 32 < |p.a.file[d]| && Extends(p.a, q.a)
    && BlocksOk(sb, p.face.view, p.a) && BlocksOk(sb, q.face.view, q.a) && Elems(q.lh) == {EntryBlock(p.face.view, p.a, d, k)}
  }

  lemma ClearedLog(sb: Super, p: State, q: State, s: nat, k: nat, src: seq<byte>)
    requires Loaded(p.icache, s) && p.icache[s].inum < |p.a.ino| == |p.a.file| && |src| == DIRENT && p.lh == [] && Written(p, q, s, DIRENT * k, src)
    requires WriteLogged(sb, p, q, s, DIRENT * k, DIRENT) && DIRENT * k + DIRENT <= p.icache[s].d.size && |p.a.file[p.icache[s].inum]| == Blocks(p.icache[s].d.size)
    requires Consistent(sb, p.face.view, p.a, p.stale, p.icache) && Consistent(sb, q.face.view, q.a, q.stale, q.icache)
    requires |p.a.file[p.icache[s].inum]| <= MAXFILE
    ensures Cleared(sb, p, q, p.icache[s].inum, k)
  {
    var i, v, e := p.icache[s].inum, q.face.view, q.icache[s].d;
    EntBlock(k);
    assert Loaded(q.icache, s);
    SlotHasFile(sb, p, s);
    SlotHasFile(sb, q, s);
    AddrKept(sb, p.face.view, p.a, v, q.a, i, k / 32);
    hide Consistent, BlocksOk, Addr, WroteAt;
    assert |q.a.file[i]| == |p.a.file[i]|;
    assert forall bn :: 0 <= bn < MAXFILE ==> (Touches(DIRENT * k, DIRENT, bn) <==> bn == k / 32);
    hide Touches, Written;
    assert DataLog(v, e, DIRENT * k, DIRENT) == {Addr(v, e, k / 32)};
    hide DataLog;
    assert BitLog(sb, v, e, |p.a.file[i]|, |p.a.file[i]|) == {};
    assert Elems([]) == {};
  }

  /** The entry is cleared; nothing else has changed but the directory's blocks. */
  method ClearName(fs: FileSys, s: nat, k: nat, ghost m: Map, ghost d: nat, ghost i: nat)
    requires fs.Valid() && Settled(fs.a, fs.stale, fs.icache) && InOrder(fs.a, m) && CanUnlink(TreeOf(fs.a), m, d, k, i)
    requires Loaded(fs.icache, s) && fs.icache[s].inum == d && fs.log.lh == [] && |fs.log.cache.face.held| <= 2
    modifies fs`icache, fs`a, fs`stale, fs.log`lh, fs.log.cache
    ensures fs.Valid() && Settled(fs.a, fs.stale, fs.icache) && Quiet(old(fs.log.cache.face), fs.log.cache.face) && |fs.log.lh| == 1
    ensures Cleared(fs.sb, old(fs.Now()), fs.Now(), d, k) && EntryGone(old(fs.a), fs.a, d, k, i) && d < |fs.a.ino| == fs.sb.ninodes
    ensures fs.icache == old(fs.icache)[s := old(fs.icache[s]).(d := fs.a.ino[d])]
  {
    hide TxnLog.Valid, Consistent, Settled, InOrder, Entered, EntsOf, Searchable, CanUnlink, SetEnt, DirIs, Cleared, TreeOf;
    ghost var p := fs.Now();
    UnlinkCounts(fs.a, m, d, k, i);
    LoadedFacts(fs.sb, fs.View(), fs.a, fs.stale, fs.icache, s);
    LinkedSearchable(fs.a, m, fs.icache, s);
    ghost var e := DirEnts(fs.a, fs.icache, s);
    ClearEntry(fs, s, k);
    EnteredFacts(p, fs.Now(), s, k, CLEARED, d, e);
    fs.log.Facts();
    ClearedFew(fs.sb, p, fs.Now(), d, k);
    SettledFacts(fs.sb, fs.View(), fs.a, fs.stale, fs.icache);
  }

  /** Entry `k` of directory `d` is cleared, and inode `i`, which it named, can go. */
  ghost predicate EntryGone(a: Abs, b: Abs, d: nat, k: nat, i: nat)
  {
    && SameBut(a, b, d) && 0 < i < |a.ino| && i != d && a.ino[i].nlink == 1 && a.ino[d].typ == T_DIR && a.ino[d].nlink > (if a.ino[i].typ == T_DIR then 1 else 0)
    && a.ino[d].size <= |a.file[d]| * BSIZE && k < |EntsOf(a.ino[d], a.file[d])| && DirIs(b, d, SetEnt(EntsOf(a.ino[d], a.file[d]), k, CLEARED))
  }

  /** The first writes of unlink: clear the entry and take the link of ".." off the parent. */
  method RemoveName(fs: FileSys, s: nat, ip: nat, k: nat, ghost m: Map, ghost d: nat, ghost i: nat)
    requires fs.Valid() && Settled(fs.a, fs.stale, fs.icache) && InOrder(fs.a, m) && CanUnlink(TreeOf(fs.a), m, d, k, i)
    requires Loaded(fs.icache, s) && Loaded(fs.icache, ip) && fs.icache[s].inum == d && fs.icache[ip].inum == i
    requires fs.log.lh == [] && |fs.log.cache.face.held| <= 2
    modifies fs`icache, fs`a, fs`stale, fs.log`lh, fs.log.cache
    ensures fs.Valid() && Settled(fs.a, fs.stale, fs.icache) && Quiet(old(fs.log.cache.face), fs.log.cache.face)
    ensures NameGone(fs.sb, old(fs.Now()), fs.a, fs.log.lh, d, k, i) && |fs.log.lh| <= 2
    ensures s != ip && d < |fs.a.ino| && fs.a.ino[d].nlink > 0
    ensures fs.icache == old(fs.icache)[s := old(fs.icache[s]).(d := fs.a.ino[d])]
    ensures i < |fs.a.ino| && fs.a.ino[i].nlink == 1 && UnlinkedIn(old(fs.a), WithInode(fs.a, i, fs.a.ino[i].(nlink := fs.a.ino[i].nlink - 1)), d, k, i)
  {
    hide TxnLog.Valid, Consistent, Settled, InOrder, EntsOf, UnlinkedIn, CanUnlink, SetEnt, DirIs, Cleared, NameGone, EntryGone, TreeOf;
    ghost var p := fs.Now();
    LoadedFacts(fs.sb, fs.View(), fs.a, fs.stale, fs.icache, ip);
    UnlinkCounts(fs.a, m, d, k, i);
    ClearName(fs, s, k, m, d, i);
    ghost var q := fs.Now();
    GoneFacts(p.a, q.a, d, k, i);
    DropLink(fs, s, fs.icache[ip].d.typ == T_DIR);
    NameGoneFrom(fs.sb, p, q, fs.Now(), d, k, i);
    GoneSteps(p.a, q.a, fs.a, d, k, i);
  }

  lemma GoneFacts(a: Abs, b: Abs, d: nat, k: nat, i: nat)
    requires EntryGone(a, b, d, k, i)
    ensures d < |a.ino| == |b.ino| == |a.file| == |b.file| && i < |a.ino| && i != d && b.ino[i] == a.ino[i] && b.file[i] == a.file[i]
    ensures b.ino[d].nlink == a.ino[d].nlink && b.ino[d].typ == T_DIR
    ensures a.ino[i].nlink == 1 && a.ino[d].nlink > if a.ino[i].typ == T_DIR then 1 else 0
  {
  }

  lemma GoneSteps(a: Abs, b: Abs, c: Abs, d: nat, k: nat, i: nat)
    requires EntryGone(a, b, d, k, i) && b.ino[d].nlink > -0x8000
    requires c == if a.ino[i].typ == T_DIR then WithInode(b, d, b.ino[d].(nlink := b.ino[d].nlink - 1)) else b
    ensures i < |c.ino| && c.ino[i].nlink == 1 && UnlinkedIn(a, WithInode(c, i, c.ino[i].(nlink := c.ino[i].nlink - 1)), d, k, i)
  {
    hide UnlinkedIn, EntsOf, SetEnt;
    UnlinkSteps(a, b, c, WithInode(c, i, c.ino[i].(nlink := c.ino[i].nlink - 1)), d, k, i);
  }

  /** A subdirectory gone, the parent has one link less. */
  method DropLink(fs: FileSys, s: nat, dir: bool)
    requires fs.Valid() && Settled(fs.a, fs.stale, fs.icache) && Loaded(fs.icache, s) && fs.icache[s].inum < |fs.a.ino|
    requires fs.icache[s].d == fs.a.ino[fs.icache[s].inum] && fs.icache[s].d.nlink > 0 && fs.icache[s].d.typ != 0
    requires |fs.log.lh| <= 1 && |fs.log.cache.face.held| <= 2
    modifies fs`icache, fs`a, fs`stale, fs.log`lh, fs.log.cache
    ensures fs.Valid() && Settled(fs.a, fs.stale, fs.icache) && Quiet(old(fs.log.cache.face), fs.log.cache.face)
    ensures var d := old(fs.icache[s].inum);
            && d < |old(fs.a).ino| && d < |fs.a.ino| && old(fs.a).ino[d].nlink > -0x8000
            && fs.a == (if dir then WithInode(old(fs.a), d, old(fs.a).ino[d].(nlink := old(fs.a).ino[d].nlink - 1)) else old(fs.a))
            && fs.icache == old(fs.icache)[s := old(fs.icache[s]).(d := fs.a.ino[d])]
            && fs.log.lh == if dir then Absorb(old(fs.log.lh), fs.sb.IBlock(d)) else old(fs.log.lh)
  {
    hide TxnLog.Valid, Consistent, Settled;
    SettledFacts(fs.sb, fs.View(), fs.a, fs.stale, fs.icache);
    if dir {
      var dd := fs.icache[s].d.(nlink := fs.icache[s].d.nlink - 1);
      MetaSettled(fs.a, fs.icache, s, dd);
      Update(fs, s, dd);
    }
  }

  lemma ClearedFew(sb: Super, p: State, q: State, d: nat, k: nat)
    requires Cleared(sb, p, q, d, k) && |Elems(q.lh)| == |q.lh|
    ensures |q.lh| == 1
  {
  }

  /** What has been logged once the name is gone, and that inode `i` is still spread as it was. */
  ghost predicate NameGone(sb: Super, p: State, b: Abs, lh: seq<nat>, d: nat, k: nat, i: nat)
  {
    && d < |p.a.ino| == |p.a.file| == |b.ino| && i < |p.a.ino| && p.a.ino[d].Ok() && k / 32 < MAXFILE && k / 32 < |p.a.file[d]|
    && BlocksOk(sb, p.face.view, p.a) && Elems(lh) == NameLog(sb, p.face.view, p.a, d, k, i) && Spread(sb, b, i) == Spread(sb, p.a, i)
  }

  lemma NameGoneFrom(sb: Super, p: State, q: State, z: State, d: nat, k: nat, i: nat)
    requires Cleared(sb, p, q, d, k) && i < |p.a.ino| == sb.ninodes && q.a.ino[i] == p.a.ino[i] && |q.a.file[i]| == |p.a.file[i]|
    requires z.a.owner == q.a.owner && |z.a.ino| == |q.a.ino|
    requires z.lh == if p.a.ino[i].typ == T_DIR then Absorb(q.lh, sb.IBlock(d)) else q.lh
    ensures NameGone(sb, p, z.a, z.lh, d, k, i)
  {
    SpreadKept(sb, p.face.view, p.a, q.face.view, q.a, i);
    AbsorbElems(q.lh, sb.IBlock(d));
    hide BlocksOk, Absorb, EntryBlock;
    assert Pending(z.a, i, 0) == Pending(q.a, i, 0);
  }

  /** unlink, once the entry is known to be removable. `c` is the inode cache before the two look-ups, `mid`
      the one between them. */
  method Remove(fs: FileSys, s: nat, ip: nat, k: nat, ghost m: Map, ghost d: nat, ghost i: nat, ghost c: seq<Inode>, ghost mid: seq<Inode>)
    returns (r: Res<()>)
    requires fs.Valid() && Settled(fs.a, fs.stale, fs.icache) && InOrder(fs.a, m) && CanUnlink(TreeOf(fs.a), m, d, k, i)
    requires Loaded(fs.icache, s) && Loaded(fs.icache, ip) && fs.icache[s].inum == d && fs.icache[ip].inum == i
    requires Took(c, mid, s) && Took(mid, fs.icache, ip)
    requires fs.log.lh == [] && fs.log.cache.face.held == map[]
    modifies fs`icache, fs`a, fs`stale, fs.log`lh, fs.log.cache
    ensures fs.log.Valid() && Still(old(fs.log.cache.face), fs.log.cache.face)
    ensures r.Panic? <==> RefOf(c, i) == 0 && TooSpread(fs.sb, old(fs.a), d, i)
    ensures r.Panic? ==> TooMuch(r.why)
    ensures r.Ok? ==> fs.Valid() && Settled(fs.a, fs.stale, fs.icache) && Quiet(old(fs.log.cache.face), fs.log.cache.face)
    ensures r.Ok? ==> Took(c, fs.icache, -1) && InOrder(fs.a, m) && Removed(old(fs.a), fs.a, d, k, i, RefOf(c, i) > 0)
  {
    hide TxnLog.Valid, Consistent, Settled, InOrder, UnlinkedIn, CanUnlink, Took, Removed, Freed, NameGone, TooSpread, TooWide;
    ghost var p, c1 := fs.Now(), fs.icache;
    SettledSized(fs.a, fs.stale, fs.icache);
    RemoveName(fs, s, ip, k, m, d, i);
    ghost var c2 := fs.icache;
    TookRead(mid, c1, c2, ip, s);
    SettledFacts(fs.sb, fs.View(), fs.a, fs.stale, fs.icache);
    PutLinked(fs, s);
    TookOnTop(c, mid, c2, fs.icache, s, ip);
    r := RemoveLast(fs, ip, k, m, d, i, c, p);
  }

  /** The end of unlink: one link less, and the reference dropped. `p` is the state before the entry was cleared. */
  method RemoveLast(fs: FileSys, ip: nat, k: nat, ghost m: Map, ghost d: nat, ghost i: nat, ghost c: seq<Inode>, ghost p: State) returns (r: Res<()>)
    requires fs.Valid() && Settled(fs.a, fs.stale, fs.icache) && |p.a.ino| == |p.a.file| && Sized(p.a) && InOrder(p.a, m) && CanUnlink(TreeOf(p.a), m, d, k, i)
    requires Loaded(fs.icache, ip) && fs.icache[ip].inum == i && Took(c, fs.icache, ip) && NameGone(fs.sb, p, fs.a, fs.log.lh, d, k, i) && |fs.log.lh| <= 2
    requires i < |fs.a.ino| && fs.a.ino[i].nlink == 1 && UnlinkedIn(p.a, WithInode(fs.a, i, fs.a.ino[i].(nlink := fs.a.ino[i].nlink - 1)), d, k, i)
    requires fs.log.cache.face.held == map[] && Quiet(p.face, fs.log.cache.face)
    modifies fs`icache, fs`a, fs`stale, fs.log`lh, fs.log.cache
    ensures fs.log.Valid() && Still(p.face, fs.log.cache.face)
    ensures r.Panic? <==> RefOf(c, i) == 0 && TooSpread(fs.sb, p.a, d, i)
    ensures r.Panic? ==> TooMuch(r.why)
    ensures r.Ok? ==> fs.Valid() && Settled(fs.a, fs.stale, fs.icache) && Quiet(p.face, fs.log.cache.face)
    ensures r.Ok? ==> Took(c, fs.icache, -1) && InOrder(fs.a, m) && Removed(p.a, fs.a, d, k, i, RefOf(c, i) > 0)
  {
    hide TxnLog.Valid, Consistent, Settled, InOrder, UnlinkedIn, CanUnlink, Took, Removed, Freed, NameGone, TooSpread, TooWide;
    SizedFacts(fs.sb, fs.View(), fs.a, fs.stale, fs.icache, ip);
    ghost var q, c3 := fs.Now(), fs.icache;
    var dd := fs.icache[ip].d.(nlink := fs.icache[ip].d.nlink - 1);
    MetaSettled(fs.a, fs.icache, ip, dd);
    Update(fs, ip, dd);
    ghost var b, c4 := fs.a, fs.icache;
    WideIsSpread(fs.sb, p, q, b, fs.log.lh, d, k, i);
    TookRead(c, c3, c4, ip, ip);
    SettledSized(fs.a, fs.stale, fs.icache);
    OpenElsewhere(fs.sb, fs.View(), fs.a, fs.stale, c, c4, ip);
    r := Iput(fs, ip);
    if r.Ok? {
      TookDropped(c, c4, fs.icache, ip);
      SettledSized(fs.a, fs.stale, fs.icache);
      RemovedInOrder(p.a, b, fs.a, m, d, k, i, RefOf(c, i) > 0);
    }
  }

  /** When iput runs out of room. */
  lemma WideIsSpread(sb: Super, p: State, q: State, b: Abs, lh: seq<nat>, d: nat, k: nat, i: nat)
    requires NameGone(sb, p, q.a, q.lh, d, k, i) && b.owner == q.a.owner && lh == Absorb(q.lh, sb.IBlock(i))
    ensures TooWide(sb, lh, b, i) <==> TooSpread(sb, p.a, d, i)
  {
    AbsorbElems(q.lh, sb.IBlock(i));
    assert Pending(b, i, 0) == Pending(q.a, i, 0);
    SpreadCount(sb, p.face.view, p.a, d, k, i);
  }

  lemma OpenElsewhere(sb: Super, v: Disk, a: Abs, stale: set<nat>, c: seq<Inode>, c': seq<Inode>, s: nat)
    requires Consistent(sb, v, a, stale, c') && Took(c, c', s) && s < |c'| == NINODE
    ensures c'[s].ref == RefOf(c, c'[s].inum) + 1
  {
    ConsistentFacts(sb, v, a, stale, c');
    RefAt(sb, a, c', s);
    TookRefs(c, c', s, c'[s].inum);
  }

  /** unlink once the parent directory `d` is in slot `s`. */
  method UnlinkIn(fs: FileSys, s: nat, name: seq<byte>, ghost m: Map, ghost c: seq<Inode>, ghost d: nat) returns (r: Res<int>)
    requires fs.Valid() && Settled(fs.a, fs.stale, fs.icache) && InOrder(fs.a, m) && Holds(fs.a, fs.icache, s, d) && Took(c, fs.icache, s)
    requires Loaded(fs.icache, s) && fs.a.ino[d].typ == T_DIR && Terminated(name, DIRSIZ)
    requires fs.log.lh == [] && fs.log.cache.face.held == map[]
    modifies fs`icache, fs`a, fs`stale, fs.log`lh, fs.log.cache
    ensures fs.log.Valid() && Still(old(fs.log.cache.face), fs.log.cache.face)
    ensures r.Panic? ==> r.why == NoInodeSlots || (TooMuch(r.why) && old(|fs.a.ino| == |fs.a.file| && Sized(fs.a)) && UnlinkStuck(fs.sb, old(fs.a), c, d, NameOf(name)))
    ensures r.Panic? ==> Exhausted(fs.sb, fs.View(), fs.a, fs.icache, r.why)
    ensures r.Ok? ==> old(|fs.a.ino| == |fs.a.file| && Sized(fs.a)) && !UnlinkStuck(fs.sb, old(fs.a), c, d, NameOf(name))
    ensures r.Ok? ==> fs.Valid() && Settled(fs.a, fs.stale, fs.icache) && Quiet(old(fs.log.cache.face), fs.log.cache.face)
    ensures r.Ok? ==> Took(c, fs.icache, -1) && InOrder(fs.a, m) && UnlinkedUnder(old(fs.a), fs.a, c, d, NameOf(name), r.value)
  {
    hide TxnLog.Valid, Consistent, Settled, InOrder, Took, Find, NameOf, EntsOf, Searchable, Got, CanUnlink, Removed, NotEmpty, TooSpread;
    ghost var p := fs.Now();
    fs.log.Facts();
    SettledSized(fs.a, fs.stale, fs.icache);
    LoadedFacts(fs.sb, fs.View(), fs.a, fs.stale, fs.icache, s);
    LinkedSearchable(fs.a, m, fs.icache, s);
    var dots := IsDots(name);
    if dots {
      PutLinked(fs, s);
      TookDropped(c, p.icache, fs.icache, s);
      return Ok(-1);
    }
    ghost var i := Find(DirEnts(fs.a, fs.icache, s), NameOf(name));
    var hit :- Dirlookup(fs, s, name);
    if hit == Missing {
      PutLinked(fs, s);
      TookDropped(c, p.icache, fs.icache, s);
      return Ok(-1);
    }
    FoundUnlinkable(p.a, m, d, NameOf(name));
    assert hit.off / DIRENT == Where(DirEnts(p.a, p.icache, s), NameOf(name));
    r := UnlinkFound(fs, s, hit.slot, hit.off / DIRENT, m, c, p.icache, d, i);
  }

  /** namecmp with "." and "..". */
  method IsDots(name: seq<byte>) returns (dots: bool)
    requires Terminated(name, DIRSIZ)
    ensures dots <==> NameOf(name) == DOT || NameOf(name) == DOTDOT
  {
    DotNames();
    var dot := Strncmp(name, DOT_NAME, DIRSIZ);
    var dotdot := Strncmp(name, DOTDOT_NAME, DIRSIZ);
    return dot == 0 || dotdot == 0;
  }

  /** unlink once both inodes are referenced: "nlink < 1" cannot happen; a directory must be empty. */
  method UnlinkFound(fs: FileSys, s: nat, ip: nat, k: nat, ghost m: Map, ghost c: seq<Inode>, ghost mid: seq<Inode>, ghost d: nat, ghost i: nat) returns (r: Res<int>)
    requires fs.Valid() && Settled(fs.a, fs.stale, fs.icache) && InOrder(fs.a, m) && Holds(fs.a, mid, s, d) && Took(c, mid, s)
    requires Loaded(mid, s) && Got(mid, fs.icache, i, ip) && 0 < i < |fs.a.ino| && fs.a.ino[i].nlink > 0
    requires !NotEmpty(TreeOf(fs.a), i) ==> CanUnlink(TreeOf(fs.a), m, d, k, i)
    requires fs.log.lh == [] && fs.log.cache.face.held == map[]
    modifies fs`icache, fs`a, fs`stale, fs.log`lh, fs.log.cache
    ensures fs.log.Valid() && Still(old(fs.log.cache.face), fs.log.cache.face)
    ensures r.Panic? <==> !NotEmpty(old(TreeOf(fs.a)), i) && RefOf(c, i) == 0 && TooSpread(fs.sb, old(fs.a), d, i)
    ensures r.Panic? ==> TooMuch(r.why)
    ensures r.Ok? ==> fs.Valid() && Settled(fs.a, fs.stale, fs.icache) && Quiet(old(fs.log.cache.face), fs.log.cache.face)
    ensures r.Ok? ==> Took(c, fs.icache, -1) && InOrder(fs.a, m)
    ensures r.Ok? ==>
              if NotEmpty(old(TreeOf(fs.a)), i) then r.value == -1 && fs.a == old(fs.a)
              else r.value == 0 && Removed(old(fs.a), fs.a, d, k, i, RefOf(c, i) > 0)
  {
    hide TxnLog.Valid, Consistent, Settled, InOrder, Took, EntsOf, Searchable, CanUnlink, Removed, TooSpread;
    fs.log.Facts();
    NodeFacts(fs.a, m, i);
    ghost var c1 := fs.icache;
    TookNothing(mid);
    TookGot(mid, mid, c1, i, ip);
    ReadLinked(fs, ip, i);
    ghost var c2 := fs.icache;
    TookRead(mid, c1, c2, ip, ip);
    if fs.icache[ip].d.typ == T_DIR {
      LinkedSearchable(fs.a, m, fs.icache, ip);
      var empty := Isdirempty(fs, ip);
      if !empty {
        PutLinked(fs, ip);
        ghost var c3 := fs.icache;
        TookDropped(mid, c2, c3, ip);
        PutLinked(fs, s);
        TookBack(c, mid, c3, fs.icache, s);
        return Ok(-1);
      }
    }
    var _ :- Remove(fs, s, ip, k, m, d, i, c, mid);
    return Ok(0);
  }
}
