/** file.c: create. */
module FsCreate {
  import opened Bytes
  import opened Kernel
  import opened Log
  import opened Strings
  import opened FsFormat
  import opened FsState
  import opened FsSteps
  import opened FsSpec
  import opened FsInodeSteps
  import opened FsContent
  import opened DirFormat
  import opened Tree
  import opened FsTree
  import opened PathFormat
  import opened FsAlloc
  import opened FsInodes
  import opened FsDirs
  import opened FsPaths

  /** dirlink of a name that is not there. */
  method EnterName(fs: FileSys, s: nat, name: seq<byte>, inum: u16) returns (r: Res<()>)
    requires fs.Valid() && Settled(fs.a, fs.stale, fs.icache) && Searchable(fs.a, fs.icache, s) && Terminated(name, DIRSIZ)
    requires fs.Room(7) && |fs.log.cache.face.held| <= 2 && s < |fs.icache| && Loaded(fs.icache, s)
    requires Find(DirEnts(fs.a, fs.icache, s), NameOf(name)) == 0
    modifies fs`icache, fs`a, fs`stale, fs.log`lh, fs.log.cache
    ensures fs.log.Valid() && Still(old(fs.log.cache.face), fs.log.cache.face)
    ensures r.Panic? ==> r.why == OutOfBlocks || (r.why == DirlinkWrite && NoRoom(old(DirEnts(fs.a, fs.icache, s))))
    ensures r.Panic? ==> Exhausted(fs.sb, fs.View(), fs.a, fs.icache, r.why)
    ensures r.Ok? ==> fs.Valid() && Settled(fs.a, fs.stale, fs.icache) && Grew(old(fs.log.lh), fs.log.lh, 5)
    ensures r.Ok? ==> Entered(old(fs.Now()), fs.Now(), s, old(FirstFree(DirEnts(fs.a, fs.icache, s))), Ent(inum, NameOf(name)))
  {
    hide TxnLog.Valid, Consistent, Entered, Searchable, Written, NameOf;
    ghost var p := fs.Now();
    ghost var k := FirstFree(DirEnts(fs.a, fs.icache, s));
    var n :- Dirlink(fs, s, name, inum);
    EntRoundTrip(inum, name);
    WrittenEntered(p, fs.Now(), s, k, EncodeEnt(inum, name));
    return Ok(());
  }

  /** The entries "." and ".." of the new directory `i`, whose parent is `dp`; "create dots" cannot happen. */
  method MakeDots(fs: FileSys, s: nat, i: u16, dp: u16) returns (r: Res<()>)
    requires fs.Valid() && Settled(fs.a, fs.stale, fs.icache) && Loaded(fs.icache, s) && fs.icache[s].inum == i
    requires i < |fs.a.ino| == |fs.a.file| && fs.icache[s].d == fs.a.ino[i] && DirIs(fs.a, i, []) && fs.a.ino[i].nlink > 0
    requires 0 < dp < |fs.a.ino| && fs.a.ino[dp].typ != 0 && fs.a.ino[dp].nlink > 0 && i != 0
    requires fs.Room(12) && |fs.log.cache.face.held| <= 2
    modifies fs`icache, fs`a, fs`stale, fs.log`lh, fs.log.cache
    ensures fs.log.Valid() && Still(old(fs.log.cache.face), fs.log.cache.face)
    ensures r.Panic? ==> r.why == OutOfBlocks
    ensures r.Panic? ==> Exhausted(fs.sb, fs.View(), fs.a, fs.icache, r.why)
    ensures r.Ok? ==> fs.Valid() && Settled(fs.a, fs.stale, fs.icache) && Grew(old(fs.log.lh), fs.log.lh, 10) && Quiet(old(fs.log.cache.face), fs.log.cache.face)
    ensures r.Ok? ==> SameBut(old(fs.a), fs.a, i) && DirIs(fs.a, i, [Ent(i, DOT), Ent(dp, DOTDOT)])
    ensures r.Ok? ==> fs.icache == old(fs.icache)[s := old(fs.icache[s]).(d := fs.a.ino[i])]
  {
    hide TxnLog.Valid, Consistent, Settled, Entered, Searchable, NameOf, DirIs, EntsOf, Find, FirstFree, Where, Exhausted;
    ghost var p := fs.Now();
    DotNames();
    DotEnts(i, dp);
    KnownSearchable(fs.a, fs.icache, s, i, []);
    var _ :- EnterName(fs, s, DOT_NAME, i);
    ghost var q := fs.Now();
    EnteredFacts(p, q, s, 0, Ent(i, DOT), i, []);
    KnownSearchable(fs.a, fs.icache, s, i, [Ent(i, DOT)]);
    var _ :- EnterName(fs, s, DOTDOT_NAME, dp);
    EnteredFacts(q, fs.Now(), s, 1, Ent(dp, DOTDOT), i, [Ent(i, DOT)]);
    SameButTwice(p.a, q.a, fs.a, i);
    return Ok(());
  }

  /** ialloc, iread, and the fields that create sets. */
  method AllocInode(fs: FileSys, typ: s16, major: s16, minor: s16) returns (r: Res<nat>)
    requires fs.Valid() && Settled(fs.a, fs.stale, fs.icache) && fs.Room(2) && |fs.log.cache.face.held| <= 2 && typ != 0
    modifies fs`icache, fs`a, fs`stale, fs.log`lh, fs.log.cache
    ensures fs.log.Valid() && Still(old(fs.log.cache.face), fs.log.cache.face)
    ensures r.Panic? ==> r.why == NoInodes || r.why == NoInodeSlots
    ensures r.Panic? ==> Exhausted(fs.sb, fs.View(), fs.a, fs.icache, r.why)
    ensures r.Ok? ==> fs.Valid() && Settled(fs.a, fs.stale, fs.icache) && Quiet(old(fs.log.cache.face), fs.log.cache.face) && Grew(old(fs.log.lh), fs.log.lh, 2)
    ensures r.Ok? ==>
              && Loaded(fs.icache, r.value) && Took(old(fs.icache), fs.icache, r.value)
              && fs.icache == old(fs.icache)[r.value := fs.icache[r.value]]
              && old(fs.icache)[r.value].ref == 0
              && var i := fs.icache[r.value].inum;
              && 0 < i < |old(fs.a).ino| && old(fs.a).ino[i].typ == 0 && (forall j :: 0 < j < i ==> old(fs.a).ino[j].typ != 0)
              && fs.a == WithInode(old(fs.a), i, NewInode(typ, major, minor)) && fs.icache[r.value].d == fs.a.ino[i]
  {
    hide TxnLog.Valid, Consistent, Settled, Took, Exhausted;
    ghost var p := fs.Now();
    SettledFacts(fs.sb, fs.View(), fs.a, fs.stale, fs.icache);
    var s :- Ialloc(fs, typ);
    ghost var i, mid := fs.icache[s].inum, fs.icache;
    SettledFacts(fs.sb, fs.View(), fs.a, fs.stale, fs.icache);
    GotFresh(p.icache, mid, p.a, p.stale, i, s);
    TookNothing(p.icache);
    TookGot(p.icache, p.icache, mid, i, s);
    var q := Iread(fs, s);
    TookRead(p.icache, mid, fs.icache, s, s);
    ReadSettled(fs.a, fs.stale, mid, fs.icache, s);
    var d := fs.icache[s].d.(major := major, minor := minor, nlink := 1);
    MetaSettled(fs.a, fs.icache, s, d);
    Update(fs, s, d);
    TookRead(p.icache, mid, fs.icache, s, s);
    return Ok(s);
  }

  /** The branch of create for directories: one more link to the parent, then the dots. */
  method PrepareDir(fs: FileSys, s: nat, sip: nat, ghost a: Abs, major: s16, minor: s16) returns (r: Res<()>)
    requires fs.Valid() && Settled(fs.a, fs.stale, fs.icache) && Loaded(fs.icache, s) && Loaded(fs.icache, sip) && s != sip
    requires var d, i := fs.icache[s].inum, fs.icache[sip].inum;
             && d != i && 0 < d < |a.ino| == |a.file| <= 0x8000 && 0 < i < |a.ino| && fs.a == WithInode(a, i, NewInode(T_DIR, major, minor))
             && fs.icache[s].d == a.ino[d] && fs.icache[sip].d == fs.a.ino[i] && a.ino[d].typ == T_DIR && 0 < a.ino[d].nlink < 0x7FFF
    requires fs.Room(13) && |fs.log.cache.face.held| <= 2
    modifies fs`icache, fs`a, fs`stale, fs.log`lh, fs.log.cache
    ensures fs.log.Valid() && Still(old(fs.log.cache.face), fs.log.cache.face)
    ensures r.Panic? ==> r.why == OutOfBlocks
    ensures r.Panic? ==> Exhausted(fs.sb, fs.View(), fs.a, fs.icache, r.why)
    ensures r.Ok? ==> fs.Valid() && Settled(fs.a, fs.stale, fs.icache) && Quiet(old(fs.log.cache.face), fs.log.cache.face) && Grew(old(fs.log.lh), fs.log.lh, 11)
    ensures r.Ok? ==>
              var d, i := old(fs.icache[s].inum), old(fs.icache[sip].inum);
              && Prepared(a, fs.a, d, i, T_DIR, major, minor)
              && fs.icache == old(fs.icache)[s := old(fs.icache[s]).(d := fs.a.ino[d])][sip := old(fs.icache[sip]).(d := fs.a.ino[i])]
  {
    hide TxnLog.Valid, Consistent, Settled, DirIs, Prepared, SameBut, Exhausted;
    SettledFacts(fs.sb, fs.View(), fs.a, fs.stale, fs.icache);
    var d, i := fs.icache[s].inum, fs.icache[sip].inum;
    var dd := fs.icache[s].d.(nlink := fs.icache[s].d.nlink + 1);
    MetaSettled(fs.a, fs.icache, s, dd);
    Update(fs, s, dd);
    EmptyDir(fs.a, i);
    ghost var b := fs.a;
    var _ :- MakeDots(fs, sip, i, d);
    PreparedDots(a, b, fs.a, d, i, major, minor);
    return Ok(());
  }

  lemma PreparedDots(a: Abs, b: Abs, c: Abs, d: nat, i: nat, major: s16, minor: s16)
    requires d != i && 0 < d < |a.ino| == |a.file| <= 0x8000 && 0 < i < |a.ino| && a.ino[d].typ == T_DIR && 0 < a.ino[d].nlink < 0x7FFF
    requires b == WithInode(WithInode(a, i, NewInode(T_DIR, major, minor)), d, a.ino[d].(nlink := a.ino[d].nlink + 1))
    requires SameBut(b, c, i) && DirIs(c, i, [Ent(i, DOT), Ent(d, DOTDOT)])
    ensures Prepared(a, c, d, i, T_DIR, major, minor) && |c.ino| == |a.ino| && c.ino[d] == b.ino[d]
  {
    hide DirIs;
  }

  /** Everything create does before the name is entered. */
  method Prepare(fs: FileSys, s: nat, typ: s16, major: s16, minor: s16, ghost m: Map) returns (r: Res<nat>)
    requires fs.Valid() && Settled(fs.a, fs.stale, fs.icache) && InOrder(fs.a, m) && Loaded(fs.icache, s) && typ != 0
    requires fs.icache[s].inum < |fs.a.ino| && fs.icache[s].d == fs.a.ino[fs.icache[s].inum]
    requires fs.icache[s].d.typ == T_DIR && fs.icache[s].d.nlink > 0
    requires fs.Room(20) && |fs.log.cache.face.held| <= 2
    modifies fs`icache, fs`a, fs`stale, fs.log`lh, fs.log.cache
    ensures fs.log.Valid() && Still(old(fs.log.cache.face), fs.log.cache.face)
    ensures r.Panic? ==> r.why == NoInodes || r.why == NoInodeSlots || r.why == OutOfBlocks
    ensures r.Panic? ==> Exhausted(fs.sb, fs.View(), fs.a, fs.icache, r.why)
    ensures r.Ok? ==> fs.Valid() && Settled(fs.a, fs.stale, fs.icache) && Quiet(old(fs.log.cache.face), fs.log.cache.face) && Grew(old(fs.log.lh), fs.log.lh, 13)
    ensures r.Ok? ==>
              && Took(old(fs.icache), fs.icache, r.value) && Loaded(fs.icache, r.value) && Loaded(fs.icache, s) && r.value != s
              && var d, i := old(fs.icache[s].inum), fs.icache[r.value].inum;
              && 0 < i < |old(fs.a).ino| && old(fs.a).ino[i].typ == 0 && (forall j :: 0 < j < i ==> old(fs.a).ino[j].typ != 0)
              && Prepared(old(fs.a), fs.a, d, i, typ, major, minor) && d < |fs.a.ino|
              && fs.icache[s].inum == d && fs.icache[s].d == fs.a.ino[d]
  {
    hide TxnLog.Valid, Consistent, Settled, InOrder, Took, Prepared, Exhausted;
    ghost var p, d := fs.Now(), fs.icache[s].inum;
    SettledFacts(fs.sb, fs.View(), fs.a, fs.stale, fs.icache);
    DirFacts(fs.a, m, d);
    var sip :- AllocInode(fs, typ, major, minor);
    var i := fs.icache[sip].inum;
    FreeUnlinked(p.a, m, i);
    ghost var mid := fs.icache;
    if typ == T_DIR {
      var _ :- PrepareDir(fs, s, sip, p.a, major, minor);
      TookRead(p.icache, mid, mid[s := fs.icache[s]], sip, s);
      TookRead(p.icache, mid[s := fs.icache[s]], fs.icache, sip, sip);
    } else {
      PreparedFile(p.a, fs.a, d, i, typ, major, minor);
    }
    PreparedFacts(p.a, fs.a, d, i, typ, major, minor);
    return Ok(sip);
  }

  /** create, once the parent directory is in slot `s` and the name is known to be new. */
  method CreateNew(fs: FileSys, s: nat, name: seq<byte>, typ: s16, major: s16, minor: s16, ghost m: Map) returns (r: Res<nat>)
    requires fs.Valid() && Settled(fs.a, fs.stale, fs.icache) && InOrder(fs.a, m) && Loaded(fs.icache, s) && Terminated(name, DIRSIZ) && typ != 0
    requires fs.icache[s].inum < |fs.a.ino| && fs.icache[s].d == fs.a.ino[fs.icache[s].inum]
    requires fs.icache[s].d.typ == T_DIR && fs.icache[s].d.nlink > 0
    requires Find(TreeOf(fs.a)[fs.icache[s].inum].ents, NameOf(name)) == 0
    requires fs.Room(20) && |fs.log.cache.face.held| <= 2
    modifies fs`icache, fs`a, fs`stale, fs.log`lh, fs.log.cache
    ensures fs.log.Valid() && Still(old(fs.log.cache.face), fs.log.cache.face)
    ensures r.Panic? ==> r.why == NoInodes || r.why == NoInodeSlots || r.why == OutOfBlocks || r.why == DirlinkWrite
    ensures r.Panic? ==> Exhausted(fs.sb, fs.View(), fs.a, fs.icache, r.why)
    ensures r.Panic? && r.why == DirlinkWrite ==> NoRoom(old(TreeOf(fs.a))[old(fs.icache[s].inum)].ents)
    ensures r.Ok? ==> fs.Valid() && Settled(fs.a, fs.stale, fs.icache) && Quiet(old(fs.log.cache.face), fs.log.cache.face)
    ensures r.Ok? ==>
              && Took(old(fs.icache), fs.icache, r.value) && Loaded(fs.icache, r.value) && Loaded(fs.icache, s) && r.value != s
              && var d, i, t := old(fs.icache[s].inum), fs.icache[r.value].inum, old(TreeOf(fs.a));
              && 0 < i < |old(fs.a).ino| && old(fs.a).ino[i].typ == 0 && (forall j :: 0 < j < i ==> old(fs.a).ino[j].typ != 0)
              && CreatedIn(old(fs.a), fs.a, d, FirstFree(t[d].ents), i, NameOf(name), typ, major, minor)
              && d in m.depth && InOrder(fs.a, Placed(m, i, d, FirstFree(t[d].ents))) && fs.icache[s].inum == d
  {
    hide TxnLog.Valid, Consistent, Settled, InOrder, Took, Find, FirstFree, NameOf, EntsOf, CreatedIn, Prepared, Searchable, Entered;
    ghost var p, d := fs.Now(), fs.icache[s].inum;
    DirFacts(fs.a, m, d);
    var sip :- Prepare(fs, s, typ, major, minor, m);
    var i := fs.icache[sip].inum;
    FreeUnlinked(p.a, m, i);
    ghost var q := fs.Now();
    PreparedSearchable(p.a, fs.a, m, fs.icache, s, d, i, typ, major, minor);
    ghost var e := DirEnts(fs.a, fs.icache, s);
    var _ :- EnterName(fs, s, name, i);
    EnteredFacts(q, fs.Now(), s, FirstFree(e), Ent(i, NameOf(name)), d, e);
    PreparedEntered(p.a, q.a, fs.a, d, FirstFree(e), i, NameOf(name), typ, major, minor);
    SettledSized(fs.a, fs.stale, fs.icache);
    CreateDone(p.a, fs.a, m, d, FirstFree(e), i, NameOf(name), typ, major, minor);
    TookRead(p.icache, q.icache, fs.icache, sip, s);
    return Ok(sip);
  }

  /** create, once the parent directory is in slot `s`. `c` is the inode cache before it was looked up. */
  method CreateIn(fs: FileSys, s: nat, name: seq<byte>, typ: s16, major: s16, minor: s16, ghost m: Map, ghost c: seq<Inode>, ghost d: nat)
    returns (r: Res<int>, ghost m': Map)
    requires fs.Valid() && Settled(fs.a, fs.stale, fs.icache) && InOrder(fs.a, m) && Holds(fs.a, fs.icache, s, d) && Took(c, fs.icache, s)
    requires Loaded(fs.icache, s) && fs.a.ino[d].typ == T_DIR && Terminated(name, DIRSIZ) && typ != 0
    requires fs.Room(20) && |fs.log.cache.face.held| <= 2
    modifies fs`icache, fs`a, fs`stale, fs.log`lh, fs.log.cache
    ensures fs.log.Valid() && Still(old(fs.log.cache.face), fs.log.cache.face)
    ensures r.Panic? ==> r.why == NoInodes || r.why == NoInodeSlots || r.why == OutOfBlocks || r.why == DirlinkWrite
    ensures r.Panic? ==> Exhausted(fs.sb, fs.View(), fs.a, fs.icache, r.why)
    ensures r.Panic? && r.why == DirlinkWrite ==> NoRoom(old(TreeOf(fs.a))[d].ents)
    ensures r.Ok? ==> fs.Valid() && Settled(fs.a, fs.stale, fs.icache) && Quiet(old(fs.log.cache.face), fs.log.cache.face)
    ensures r.Ok? ==> Took(c, fs.icache, r.value) && InOrder(fs.a, m') && r.value < |fs.icache| && (r.value >= 0 ==> Loaded(fs.icache, r.value))
    ensures r.Ok? ==> CreatedUnder(old(fs.a), m, fs.a, fs.icache, m', d, NameOf(name), typ, major, minor, r.value)
  {
    hide TxnLog.Valid, Consistent, Settled, InOrder, Took, Find, FirstFree, NameOf, EntsOf, CreatedIn, Searchable, Got;
    m' := m;
    ghost var p := fs.Now();
    SettledFacts(fs.sb, fs.View(), fs.a, fs.stale, fs.icache);
    LoadedFacts(fs.sb, fs.View(), fs.a, fs.stale, fs.icache, s);
    LinkedSearchable(fs.a, m, fs.icache, s);
    ghost var j := Find(DirEnts(fs.a, fs.icache, s), NameOf(name));
    FoundFacts(fs.sb, fs.View(), fs.a, fs.stale, fs.icache, s, NameOf(name));
    var hit :- Dirlookup(fs, s, name);
    if hit.Hit? {
      NamexNext(fs, s, d, j, c, p.icache, hit.slot);
      r := ExistingFile(fs, hit.slot, typ, j, c);
      NodeFacts(fs.a, m, j);
      return r, m;
    }
    r, m' := CreateUnder(fs, s, name, typ, major, minor, m, c, d);
  }

  /** The end of create when the name is new. */
  method CreateUnder(fs: FileSys, s: nat, name: seq<byte>, typ: s16, major: s16, minor: s16, ghost m: Map, ghost c: seq<Inode>, ghost d: nat)
    returns (r: Res<int>, ghost m': Map)
    requires fs.Valid() && Settled(fs.a, fs.stale, fs.icache) && InOrder(fs.a, m) && Holds(fs.a, fs.icache, s, d) && Took(c, fs.icache, s)
    requires Loaded(fs.icache, s) && fs.icache[s].d == fs.a.ino[d] && fs.a.ino[d].typ == T_DIR && Terminated(name, DIRSIZ) && typ != 0
    requires Find(TreeOf(fs.a)[d].ents, NameOf(name)) == 0
    requires fs.Room(20) && |fs.log.cache.face.held| <= 2
    modifies fs`icache, fs`a, fs`stale, fs.log`lh, fs.log.cache
    ensures fs.log.Valid() && Still(old(fs.log.cache.face), fs.log.cache.face)
    ensures r.Panic? ==> r.why == NoInodes || r.why == NoInodeSlots || r.why == OutOfBlocks || r.why == DirlinkWrite
    ensures r.Panic? ==> Exhausted(fs.sb, fs.View(), fs.a, fs.icache, r.why)
    ensures r.Panic? && r.why == DirlinkWrite ==> NoRoom(old(TreeOf(fs.a))[d].ents)
    ensures r.Ok? ==> fs.Valid() && Settled(fs.a, fs.stale, fs.icache) && Quiet(old(fs.log.cache.face), fs.log.cache.face)
    ensures r.Ok? ==> Took(c, fs.icache, r.value) && InOrder(fs.a, m') && r.value < |fs.icache| && (r.value >= 0 ==> Loaded(fs.icache, r.value))
    ensures r.Ok? ==> CreatedUnder(old(fs.a), m, fs.a, fs.icache, m', d, NameOf(name), typ, major, minor, r.value)
  {
    hide TxnLog.Valid, Consistent, Settled, InOrder, Took, Find, FirstFree, NameOf, CreatedIn, Exhausted;
    m' := m;
    ghost var p := fs.Now();
    SettledSized(fs.a, fs.stale, fs.icache);
    ghost var k := FirstFree(TreeOf(fs.a)[d].ents);
    var ip :- CreateNew(fs, s, name, typ, major, minor, m);
    ghost var i, top := fs.icache[ip].inum, fs.icache;
    m' := Placed(m, i, d, k);
    CreatedFacts(p.a, fs.a, d, i, typ, major, minor, NameOf(name), k);
    PutLinked(fs, s);
    TookOnTop(c, p.icache, top, fs.icache, s, ip);
    return Ok(ip), m';
  }

  /** The end of create when the name exists: only a file asked for as a file is returned. */
  method ExistingFile(fs: FileSys, ip: nat, typ: s16, ghost j: nat, ghost c: seq<Inode>) returns (r: Res<int>)
    requires fs.Valid() && Settled(fs.a, fs.stale, fs.icache) && Holds(fs.a, fs.icache, ip, j) && Took(c, fs.icache, ip)
    requires fs.Room(0) && |fs.log.cache.face.held| <= 2
    modifies fs`icache, fs`a, fs`stale, fs.log`lh, fs.log.cache
    ensures r.Ok? && fs.Valid() && fs.Now() == old(fs.Now()).(icache := fs.icache) && Settled(fs.a, fs.stale, fs.icache)
    ensures Took(c, fs.icache, r.value) && r.value < |fs.icache|
    ensures if typ == T_FILE && fs.a.ino[j].typ == T_FILE then r.value == ip && Loaded(fs.icache, ip) && fs.icache[ip].inum == j else r.value == -1
  {
    hide TxnLog.Valid, Consistent, Settled, Took;
    ghost var mid := fs.icache;
    ReadLinked(fs, ip, j);
    TookRead(c, mid, fs.icache, ip, ip);
    if typ == T_FILE && fs.icache[ip].d.typ == T_FILE {
      return Ok(ip);
    }
    mid := fs.icache;
    PutLinked(fs, ip);
    TookDropped(c, mid, fs.icache, ip);
    return Ok(-1);
  }

  /** create. */
  method Create(fs: FileSys, path: Path, typ: s16, major: s16, minor: s16, ghost m: Map) returns (r: Res<int>, ghost m': Map)
    requires fs.Valid() && Settled(fs.a, fs.stale, fs.icache) && InOrder(fs.a, m) && typ != 0
    requires fs.Room(20) && |fs.log.cache.face.held| <= 2
    modifies fs`icache, fs`a, fs`stale, fs.log`lh, fs.log.cache
    ensures fs.log.Valid() && Still(old(fs.log.cache.face), fs.log.cache.face)
    ensures r.Panic? ==> CreateStops(old(fs.a), Elements(path), r.why)
    ensures r.Panic? ==> Exhausted(fs.sb, fs.View(), fs.a, fs.icache, r.why)
    ensures r.Ok? ==> fs.Valid() && Settled(fs.a, fs.stale, fs.icache) && Quiet(old(fs.log.cache.face), fs.log.cache.face)
    ensures r.Ok? ==> CreateResult(old(fs.a), old(fs.icache), m, fs.a, fs.icache, m', Elements(path), typ, major, minor, r.value)
  {
    hide TxnLog.Valid, Consistent, Settled, InOrder, Took, NameOf, CreatedUnder, Goal, Elements, Exhausted;
    m' := m;
    fs.log.Facts();
    SettledSized(fs.a, fs.stale, fs.icache);
    ghost var p, t, g := fs.Now(), TreeOf(fs.a), Goal(TreeOf(fs.a), ROOTINO, Elements(path), true);
    GoalDir(t, ROOTINO, Elements(path));
    var name := new byte[DIRSIZ];
    var s :- Namex(fs, path, true, name, m);
    SettledFacts(fs.sb, fs.View(), fs.a, fs.stale, fs.icache);
    if s < 0 {
      return Ok(-1), m;
    }
    NodeFacts(fs.a, m, g);
    ghost var mid := fs.icache;
    ReadLinked(fs, s, g);
    TookRead(p.icache, mid, fs.icache, s, s);
    r, m' := CreateIn(fs, s, name[..], typ, major, minor, m, p.icache, g);
  }
}
