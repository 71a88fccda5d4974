/** The directory tree that the inodes and blocks stand for. */
module FsTree {
  import opened Bytes
  import opened RedoLog
  import opened Kernel
  import opened FsFormat
  import opened Strings
  import opened FsState
  import opened FsSteps
  import opened FsSpec
  import opened FsInodeSteps
  import opened FsContent
  import opened DirFormat
  import opened Tree
  import opened PathFormat

  /** The entries of a directory. */
  function EntsOf(d: Dinode, f: seq<Block>): (e: seq<Ent>)
    requires d.size <= |f| * BSIZE
  {
    Ents(Content(f, d.size))
  }

  function NodeOf(d: Dinode, f: seq<Block>): (n: Node)
    requires d.size <= |f| * BSIZE
  {
    Node(d.typ, d.nlink, if d.typ == T_DIR then EntsOf(d, f) else [])
  }

  ghost function TreeOf(a: Abs): (t: Nodes)
    requires |a.ino| == |a.file| && Sized(a)
    ensures |t| == |a.ino|
  {
    seq(|a.ino|, i requires 0 <= i < |a.ino| => NodeOf(a.ino[i], a.file[i]))
  }

  /** Directories consist of whole entries. */
  ghost predicate DirSizes(a: Abs)
  {
    forall i :: 0 <= i < |a.ino| && a.ino[i].typ == T_DIR ==> a.ino[i].size % DIRENT == 0
  }

  /** The whole tree is in order. */
  ghost predicate InOrder(a: Abs, m: Map)
  {
    |a.ino| == |a.file| && Sized(a) && DirSizes(a) && TreeOk(TreeOf(a), m)
  }

  /** The entries name inodes that are in use and linked. */
  ghost predicate LiveEnts(a: Abs, e: seq<Ent>)
  {
    forall k :: 0 <= k < |e| && e[k].inum != 0 ==> e[k].inum < |a.ino| && a.ino[e[k].inum].typ != 0 && a.ino[e[k].inum].nlink > 0
  }

  /** Slot `s` holds a directory that can be searched. */
  ghost predicate Searchable(a: Abs, icache: seq<Inode>, s: nat)
  {
    && Loaded(icache, s) && icache[s].inum < |a.ino| == |a.file| && icache[s].d == a.ino[icache[s].inum]
    && icache[s].d.typ == T_DIR && icache[s].d.nlink > 0 && icache[s].d.size % DIRENT == 0
    && icache[s].d.size <= |a.file[icache[s].inum]| * BSIZE && LiveEnts(a, EntsOf(icache[s].d, a.file[icache[s].inum]))
  }

  /** The entries of the directory in slot `s`. */
  ghost function DirEnts(a: Abs, icache: seq<Inode>, s: nat): (e: seq<Ent>)
    requires Searchable(a, icache, s)
    ensures |e| == icache[s].d.size / DIRENT && LiveEnts(a, e)
  {
    EntsOf(icache[s].d, a.file[icache[s].inum])
  }

  /** A linked directory can be searched. */
  lemma LinkedSearchable(a: Abs, m: Map, icache: seq<Inode>, s: nat)
    requires InOrder(a, m) && Loaded(icache, s) && icache[s].inum < |a.ino| && icache[s].d == a.ino[icache[s].inum]
    requires icache[s].d.typ == T_DIR && icache[s].d.nlink > 0
    ensures Searchable(a, icache, s) && LinkedDir(TreeOf(a), icache[s].inum)
    ensures DirEnts(a, icache, s) == TreeOf(a)[icache[s].inum].ents
  {
    var t, i := TreeOf(a), icache[s].inum;
    var e := EntsOf(a.ino[i], a.file[i]);
    assert t[i] == NodeOf(a.ino[i], a.file[i]);
    forall k | 0 <= k < |e| && e[k].inum != 0 ensures e[k].inum < |a.ino| && a.ino[e[k].inum].typ != 0 && a.ino[e[k].inum].nlink > 0 {
      EntryLinked(t, m, i, k);
      assert t[e[k].inum] == NodeOf(a.ino[e[k].inum], a.file[e[k].inum]);
    }
  }

  /** Sixteen bytes at an entry's offset: what readi of one entry delivers. */
  lemma ReadEnt(d: Dinode, f: seq<Block>, k: nat, dev: Dev, r: int, dst: seq<byte>)
    requires d.typ == T_DIR && d.nlink > 0 && d.size <= |f| * BSIZE && d.size % DIRENT == 0 && DIRENT * k < d.size
    requires ReadOf(d, f, DIRENT * k, DIRENT, dev, r, dst) && d.size <= MAXFILE * BSIZE
    ensures r == DIRENT == |dst| && k < |EntsOf(d, f)| && DecodeEnt(dst) == EntsOf(d, f)[k]
  {
  }

  /** One entry never straddles blocks. */
  lemma EntBlock(k: nat)
    ensures Blocks(DIRENT * k + DIRENT) == DIRENT * k / BSIZE + 1 && DIRENT * k / BSIZE == k / 32
  {
    var bn, r := k / 32, k % 32;
    assert DIRENT * k == BSIZE * bn + DIRENT * r;
  }

  /** So writing one is cheap. */
  lemma EntCost(size: nat, k: nat)
    requires size % DIRENT == 0 && DIRENT * k <= size
    ensures WriteCost(size, DIRENT * k, DIRENT) <= if DIRENT * k < size then 4 else 5
  {
    EntBlock(k);
    assert DIRENT * k < size ==> DIRENT * k + DIRENT <= size && Blocks(size) >= k / 32 + 1;
    assert Blocks(size) >= k / 32;
  }

  /** What writing one entry does to the directory. */
  lemma WrittenEnt(p: State, q: State, s: nat, k: nat, src: seq<byte>)
    requires Loaded(p.icache, s) && p.icache[s].inum < |p.a.ino| == |p.a.file| && Sized(p.a) && |src| == DIRENT
    requires p.a.ino[p.icache[s].inum].typ == T_DIR && p.a.ino[p.icache[s].inum].size % DIRENT == 0
    requires k <= |EntsOf(p.a.ino[p.icache[s].inum], p.a.file[p.icache[s].inum])|
    requires Written(p, q, s, DIRENT * k, src)
    ensures var i, d, f := p.icache[s].inum, q.a.ino[p.icache[s].inum], q.a.file[p.icache[s].inum];
            && d.size <= |f| * BSIZE && d.size % DIRENT == 0
            && EntsOf(d, f) == SetEnt(EntsOf(p.a.ino[i], p.a.file[i]), k, DecodeEnt(src))
            && NodeOf(d, f) == Node(T_DIR, p.a.ino[i].nlink, SetEnt(EntsOf(p.a.ino[i], p.a.file[i]), k, DecodeEnt(src)))
  {
    hide Content, Overwrite, Wrote, Ents, DecodeEnt, SetEnt, WriteCost;
    var i := p.icache[s].inum;
    WroteContent(p.a.file[i], q.a.file[i], p.a.ino[i].size, DIRENT * k, src);
    EntsOverwrite(Content(p.a.file[i], p.a.ino[i].size), k, src);
  }

  lemma NodeFacts(a: Abs, m: Map, i: nat)
    requires InOrder(a, m) && i < |a.ino|
    ensures TreeOf(a)[i].typ == a.ino[i].typ && TreeOf(a)[i].nlink == a.ino[i].nlink
  {
  }

  lemma RootFacts(sb: Super, v: Disk, a: Abs, stale: set<nat>, icache: seq<Inode>, m: Map)
    requires Consistent(sb, v, a, stale, icache) && InOrder(a, m)
    ensures |icache| == NINODE && ROOTINO < sb.ninodes == |a.ino| && a.ino[ROOTINO].typ == T_DIR && a.ino[ROOTINO].nlink > 0
  {
    NodeFacts(a, m, ROOTINO);
  }

  // Steps of create and unlink.

  /** Inode `i` is a directory with exactly these entries. */
  ghost predicate DirIs(a: Abs, i: nat, e: seq<Ent>)
  {
    && i < |a.ino| == |a.file| && a.ino[i].typ == T_DIR && a.ino[i].size % DIRENT == 0
    && a.ino[i].size <= |a.file[i]| * BSIZE && EntsOf(a.ino[i], a.file[i]) == e
  }

  /** Only inode `i` differs, and its type and link count do not. */
  ghost predicate SameBut(a: Abs, b: Abs, i: nat)
  {
    && i < |a.ino| == |a.file| == |b.ino| == |b.file| && b.limbo == a.limbo
    && b.ino == a.ino[i := b.ino[i]] && b.file == a.file[i := b.file[i]]
    && b.ino[i] == a.ino[i].(size := b.ino[i].size, addrs := b.ino[i].addrs)
  }

  /** Entry `k` of the directory in slot `s` has become `e`. */
  ghost predicate Entered(p: State, q: State, s: nat, k: nat, e: Ent)
  {
    && Searchable(p.a, p.icache, s) && k <= |DirEnts(p.a, p.icache, s)|
    && var i := p.icache[s].inum;
    && SameBut(p.a, q.a, i) && DirIs(q.a, i, SetEnt(DirEnts(p.a, p.icache, s), k, e))
    && q.icache == p.icache[s := p.icache[s].(d := q.a.ino[i])] && Quiet(p.face, q.face)
  }

  lemma WrittenEntered(p: State, q: State, s: nat, k: nat, src: seq<byte>)
    requires Searchable(p.a, p.icache, s) && k <= |DirEnts(p.a, p.icache, s)| && Sized(p.a) && |src| == DIRENT
    requires Written(p, q, s, DIRENT * k, src)
    ensures Entered(p, q, s, k, DecodeEnt(src))
  {
    hide Wrote, EntsOf, LiveEnts, DecodeEnt;
    WrittenEnt(p, q, s, k, src);
  }

  /** A directory known by its entries, in a loaded slot, can be searched if they are live. */
  lemma KnownSearchable(a: Abs, icache: seq<Inode>, s: nat, i: nat, e: seq<Ent>)
    requires Loaded(icache, s) && icache[s].inum == i && DirIs(a, i, e) && icache[s].d == a.ino[i] && a.ino[i].nlink > 0 && LiveEnts(a, e)
    ensures Searchable(a, icache, s) && DirEnts(a, icache, s) == e
  {
  }

  lemma EmptyDir(a: Abs, i: nat)
    requires i < |a.ino| == |a.file| && a.ino[i].typ == T_DIR && a.ino[i].size == 0
    ensures DirIs(a, i, [])
  {
  }

  lemma EnteredFacts(p: State, q: State, s: nat, k: nat, e: Ent, i: nat, ents: seq<Ent>)
    requires Entered(p, q, s, k, e) && p.icache[s].inum == i && DirEnts(p.a, p.icache, s) == ents
    ensures k <= |ents| && SameBut(p.a, q.a, i) && DirIs(q.a, i, SetEnt(ents, k, e))
    ensures q.icache == p.icache[s := p.icache[s].(d := q.a.ino[i])] && Quiet(p.face, q.face)
  {
  }

  lemma SameButTwice(a: Abs, b: Abs, c: Abs, i: nat)
    requires SameBut(a, b, i) && SameBut(b, c, i)
    ensures SameBut(a, c, i)
  {
  }

  const DOT_NAME: seq<byte> := [46, 0]
  const DOTDOT_NAME: seq<byte> := [46, 46, 0]

  lemma DotNames()
    ensures NameOf(DOT_NAME) == DOT && NameOf(DOTDOT_NAME) == DOTDOT && Terminated(DOT_NAME, DIRSIZ) && Terminated(DOTDOT_NAME, DIRSIZ)
  {
    StrLenIs(DOT_NAME, DIRSIZ, 1);
    StrLenIs(DOTDOT_NAME, DIRSIZ, 2);
  }

  /** The first entries of a new directory. */
  lemma DotEnts(i: u16, d: u16)
    requires i != 0 && d != 0
    ensures FirstFree([]) == 0 && Find([], DOT) == 0 && SetEnt([], 0, Ent(i, DOT)) == [Ent(i, DOT)]
    ensures FirstFree([Ent(i, DOT)]) == 1 && Find([Ent(i, DOT)], DOTDOT) == 0
    ensures SetEnt([Ent(i, DOT)], 1, Ent(d, DOTDOT)) == [Ent(i, DOT), Ent(d, DOTDOT)]
  {
  }

  /** The inode that create makes, before it has contents. */
  function NewInode(typ: s16, major: s16, minor: s16): (d: Dinode)
  {
    FREE.(typ := typ, major := major, minor := minor, nlink := 1)
  }

  /** What create has done to the inodes once the name is entered. */
  ghost predicate CreatedIn(a: Abs, b: Abs, d: nat, k: nat, i: nat, name: Name, typ: s16, major: s16, minor: s16)
  {
    && d < |a.ino| == |a.file| == |b.ino| == |b.file| && i < |a.ino| <= 0x8000 && i != d && d != 0 && i != 0
    && (forall x :: 0 <= x < |a.ino| && x != i && x != d ==> b.ino[x] == a.ino[x] && b.file[x] == a.file[x])
    && b.ino[i].typ == typ && b.ino[i].major == major && b.ino[i].minor == minor && b.ino[i].nlink == 1
    && (if typ == T_DIR then DirIs(b, i, [Ent(i, DOT), Ent(d, DOTDOT)]) else b.file[i] == [] && b.ino[i].size == 0)
    && b.ino[d].nlink == a.ino[d].nlink + (if typ == T_DIR then 1 else 0)
    && a.ino[d].typ == T_DIR && a.ino[d].size <= |a.file[d]| * BSIZE && k <= |EntsOf(a.ino[d], a.file[d])|
    && DirIs(b, d, SetEnt(EntsOf(a.ino[d], a.file[d]), k, Ent(i, name)))
  }

  /** So the tree has the new inode in it. */
  lemma CreateDone(a: Abs, b: Abs, m: Map, d: nat, k: nat, i: nat, name: Name, typ: s16, major: s16, minor: s16)
    requires InOrder(a, m) && CreatedIn(a, b, d, k, i, name, typ, major, minor) && |b.ino| == |b.file| && Sized(b) && typ != 0
    requires a.ino[d].nlink > 0 && a.ino[i].typ == 0 && Find(EntsOf(a.ino[d], a.file[d]), name) == 0
    requires k < |EntsOf(a.ino[d], a.file[d])| ==> EntsOf(a.ino[d], a.file[d])[k].inum == 0
    ensures Created(TreeOf(a), TreeOf(b), d, k, i, name)
    ensures d in m.depth && InOrder(b, Placed(m, i, d, k))
  {
    hide EntsOf, Find, TreeOk, FirstFree;
    var t, u := TreeOf(a), TreeOf(b);
    assert u[i].typ == typ && u[i].nlink == 1;
    assert t[d].ents == EntsOf(a.ino[d], a.file[d]) && u[d].ents == EntsOf(b.ino[d], b.file[d]);
    assert Created(t, u, d, k, i, name);
    hide Created, CreatedIn;
    CreateTree(t, m, u, d, k, i, name);
    assert DirSizes(b) by {
      CreatedSizes(a, b, d, k, i, name, typ, major, minor);
    }
  }

  lemma CreatedSizes(a: Abs, b: Abs, d: nat, k: nat, i: nat, name: Name, typ: s16, major: s16, minor: s16)
    requires DirSizes(a) && CreatedIn(a, b, d, k, i, name, typ, major, minor)
    ensures DirSizes(b)
  {
    forall x | 0 <= x < |b.ino| && b.ino[x].typ == T_DIR ensures b.ino[x].size % DIRENT == 0 {
    }
  }

  /** Inodes `i` and `d` aside, nothing has changed; `i` is new and `d` may have one more link. */
  ghost predicate Prepared(a: Abs, b: Abs, d: nat, i: nat, typ: s16, major: s16, minor: s16)
  {
    && d < |a.ino| == |a.file| == |b.ino| == |b.file| && i < |a.ino| <= 0x8000 && i != d && d != 0 && i != 0
    && (forall x :: 0 <= x < |a.ino| && x != i && x != d ==> b.ino[x] == a.ino[x] && b.file[x] == a.file[x])
    && b.ino[i].typ == typ && b.ino[i].major == major && b.ino[i].minor == minor && b.ino[i].nlink == 1
    && (if typ == T_DIR then DirIs(b, i, [Ent(i, DOT), Ent(d, DOTDOT)]) else b.file[i] == [] && b.ino[i].size == 0)
    && b.file[d] == a.file[d] && -0x8000 <= a.ino[d].nlink + (if typ == T_DIR then 1 else 0) < 0x8000
    && b.ino[d] == a.ino[d].(nlink := a.ino[d].nlink + if typ == T_DIR then 1 else 0)
  }

  /** Directory `d` still has its entries and can take the new name. */
  lemma PreparedSearchable(a: Abs, b: Abs, m: Map, icache: seq<Inode>, s: nat, d: nat, i: nat, typ: s16, major: s16, minor: s16)
    requires Prepared(a, b, d, i, typ, major, minor) && InOrder(a, m) && LinkedDir(TreeOf(a), d)
    requires Loaded(icache, s) && icache[s].inum == d && icache[s].d == b.ino[d]
    requires a.ino[i].typ == 0 && a.ino[i].nlink == 0 && typ != 0
    ensures Searchable(b, icache, s) && a.ino[d].size <= |a.file[d]| * BSIZE
    ensures DirEnts(b, icache, s) == TreeOf(a)[d].ents == EntsOf(a.ino[d], a.file[d])
  {
    var t := TreeOf(a);
    var e := EntsOf(a.ino[d], a.file[d]);
    assert t[d] == NodeOf(a.ino[d], a.file[d]);
    hide EntsOf, TreeOk, DirIs;
    forall k | 0 <= k < |e| && e[k].inum != 0 ensures e[k].inum < |b.ino| && b.ino[e[k].inum].typ != 0 && b.ino[e[k].inum].nlink > 0 {
      EntryLinked(t, m, d, k);
      assert t[e[k].inum] == NodeOf(a.ino[e[k].inum], a.file[e[k].inum]);
    }
  }

  lemma PreparedEntered(a: Abs, b: Abs, c: Abs, d: nat, k: nat, i: nat, name: Name, typ: s16, major: s16, minor: s16)
    requires Prepared(a, b, d, i, typ, major, minor) && SameBut(b, c, d) && a.ino[d].typ == T_DIR
    requires a.ino[d].size <= |a.file[d]| * BSIZE && k <= |EntsOf(a.ino[d], a.file[d])|
    requires DirIs(c, d, SetEnt(EntsOf(a.ino[d], a.file[d]), k, Ent(i, name)))
    ensures CreatedIn(a, c, d, k, i, name, typ, major, minor)
  {
    hide EntsOf;
  }

  /** A free inode has no links. */
  lemma FreeUnlinked(a: Abs, m: Map, i: nat)
    requires InOrder(a, m) && i < |a.ino| && a.ino[i].typ == 0
    ensures a.ino[i].nlink == 0 && a.file[i] == []
  {
    NodeFacts(a, m, i);
    assert LinksAt(TreeOf(a), i);
  }

  lemma DirFacts(a: Abs, m: Map, d: nat)
    requires InOrder(a, m) && d < |a.ino| && a.ino[d].typ == T_DIR && a.ino[d].nlink > 0
    ensures LinkedDir(TreeOf(a), d) && a.ino[d].nlink + 1 < 0x8000 && d != 0 && |a.ino| <= 0x8000
    ensures a.ino[d].size <= |a.file[d]| * BSIZE && TreeOf(a)[d].ents == EntsOf(a.ino[d], a.file[d])
  {
    NodeFacts(a, m, d);
    LinkBound(TreeOf(a), m, d);
    ZeroUnlinked(TreeOf(a), m);
    NodeFacts(a, m, 0);
  }

  lemma PreparedFile(a: Abs, b: Abs, d: nat, i: nat, typ: s16, major: s16, minor: s16)
    requires d < |a.ino| == |a.file| <= 0x8000 && i < |a.ino| && i != d && d != 0 && i != 0 && typ != T_DIR && a.file[i] == []
    requires b == WithInode(a, i, NewInode(typ, major, minor))
    ensures Prepared(a, b, d, i, typ, major, minor)
  {
  }

  lemma PreparedFacts(a: Abs, b: Abs, d: nat, i: nat, typ: s16, major: s16, minor: s16)
    requires Prepared(a, b, d, i, typ, major, minor)
    ensures d < |b.ino| == |b.file| == |a.ino| && b.ino[d] == a.ino[d].(nlink := b.ino[d].nlink)
  {
  }

  lemma SettledSized(a: Abs, stale: set<nat>, icache: seq<Inode>)
    requires Settled(a, stale, icache)
    ensures |a.ino| == |a.file| && Sized(a)
  {
  }

  /** A directory with these entries is as long as a file can be and has none free. */
  predicate NoRoom(e: seq<Ent>)
  {
    DIRENT * FirstFree(e) + DIRENT > MAXFILE * BSIZE
  }

  /** What create promises in directory `d`: an existing file is returned as it is, anything else that has
      the name is refused; otherwise the lowest free inode gets the first free entry. */
  ghost predicate CreatedUnder(a: Abs, m: Map, b: Abs, c': seq<Inode>, m': Map, d: nat, name: Name, typ: s16, major: s16, minor: s16, r: int)
    requires |a.ino| == |a.file| && Sized(a) && d < |a.ino| && r < |c'|
  {
    var t := TreeOf(a);
    var e := t[d].ents;
    var j := Find(e, name);
    if j != 0 then
      && b == a && m' == m
      && if typ == T_FILE && j < |t| && t[j].typ == T_FILE then r >= 0 && c'[r].inum == j else r == -1
    else
      && r >= 0 && d in m.depth && var i := c'[r].inum;
      && 0 < i < |t| && t[i].typ == 0 && (forall x :: 0 < x < i ==> t[x].typ != 0)
      && CreatedIn(a, b, d, FirstFree(e), i, name, typ, major, minor) && m' == Placed(m, i, d, FirstFree(e))
  }

  /** The directory in which the last of the path elements would be created has no room for it. */
  ghost predicate ParentFull(a: Abs, names: seq<Name>)
  {
    && |a.ino| == |a.file| && Sized(a)
    && var d := Goal(TreeOf(a), ROOTINO, names, true);
    d < |a.ino| && NoRoom(TreeOf(a)[d].ents)
  }

  /** Why create may stop. */
  ghost predicate CreateStops(a: Abs, names: seq<Name>, why: Why)
  {
    why == NoInodes || why == NoInodeSlots || why == OutOfBlocks || (why == DirlinkWrite && ParentFull(a, names))
  }

  /** What create promises for the path elements `names`: nothing without a parent directory. */
  ghost predicate CreateResult(a: Abs, c: seq<Inode>, m: Map, b: Abs, c': seq<Inode>, m': Map, names: seq<Name>, typ: s16, major: s16, minor: s16, r: int)
    requires |a.ino| == |a.file| && Sized(a)
  {
    var d := Goal(TreeOf(a), ROOTINO, names, true);
    && Took(c, c', r) && InOrder(b, m') && r < |c'| && (r >= 0 ==> Loaded(c', r))
    && if d == 0 || d >= |a.ino| || names == [] then r == -1 && b == a && m' == m
       else CreatedUnder(a, m, b, c', m', d, names[|names| - 1], typ, major, minor, r)
  }

  lemma LoadedFacts(sb: Super, v: Disk, a: Abs, stale: set<nat>, icache: seq<Inode>, s: nat)
    requires Consistent(sb, v, a, stale, icache) && Loaded(icache, s)
    ensures 0 < icache[s].inum < |a.ino| && icache[s].d == a.ino[icache[s].inum]
  {
    ConsistentFacts(sb, v, a, stale, icache);
    CacheSlot(sb, a, icache, s);
  }

  lemma FoundFacts(sb: Super, v: Disk, a: Abs, stale: set<nat>, icache: seq<Inode>, s: nat, name: Name)
    requires Consistent(sb, v, a, stale, icache) && Searchable(a, icache, s)
    ensures var i := Find(DirEnts(a, icache, s), name); i != 0 ==> i < |a.ino| && a.ino[i].typ != 0 && a.ino[i].nlink > 0
  {
  }

  /** After create the parent is still linked. */
  lemma CreatedFacts(a: Abs, b: Abs, d: nat, i: nat, typ: s16, major: s16, minor: s16, name: Name, k: nat)
    requires CreatedIn(a, b, d, k, i, name, typ, major, minor) && d < |a.ino| && a.ino[d].nlink > 0
    ensures d < |b.ino| && b.ino[d].nlink > 0
  {
  }

  // unlink

  /** Entry `k` of directory `d`, which named inode `i`, is cleared and the link counts are adjusted. */
  ghost predicate UnlinkedIn(a: Abs, b: Abs, d: nat, k: nat, i: nat)
  {
    && d < |a.ino| == |a.file| == |b.ino| == |b.file| && i < |a.ino| && i != d
    && (forall x :: 0 <= x < |a.ino| && x != i && x != d ==> b.ino[x] == a.ino[x] && b.file[x] == a.file[x])
    && b.file[i] == a.file[i] && b.ino[i] == a.ino[i].(nlink := b.ino[i].nlink) && b.ino[i].nlink == a.ino[i].nlink - 1
    && b.ino[d].nlink == a.ino[d].nlink - (if a.ino[i].typ == T_DIR then 1 else 0)
    && a.ino[d].typ == T_DIR && a.ino[d].size <= |a.file[d]| * BSIZE && k < |EntsOf(a.ino[d], a.file[d])|
    && DirIs(b, d, SetEnt(EntsOf(a.ino[d], a.file[d]), k, CLEARED))
  }

  lemma UnlinkDone(a: Abs, b: Abs, m: Map, d: nat, k: nat, i: nat)
    requires InOrder(a, m) && CanUnlink(TreeOf(a), m, d, k, i) && UnlinkedIn(a, b, d, k, i) && |b.ino| == |b.file| && Sized(b)
    ensures Unlinked(TreeOf(a), TreeOf(b), d, k, i) && InOrder(b, m) && b.ino[i].nlink == 0
  {
    hide EntsOf, TreeOk;
    var t, u := TreeOf(a), TreeOf(b);
    assert t[d].ents == EntsOf(a.ino[d], a.file[d]) && u[d].ents == EntsOf(b.ino[d], b.file[d]);
    assert Unlinked(t, u, d, k, i);
    UnlinkTree(t, m, u, d, k, i);
    assert u[i].nlink == b.ino[i].nlink;
  }

  /** Freeing an inode without links leaves the tree in order. */
  lemma FreedInOrder(a: Abs, b: Abs, m: Map, i: nat)
    requires InOrder(a, m) && Freed(a, b, i) && |b.ino| == |b.file| && Sized(b) && a.ino[i].nlink == 0
    ensures InOrder(b, m)
  {
    hide EntsOf, TreeOk;
    var t, u := TreeOf(a), TreeOf(b);
    assert forall x :: 0 <= x < |t| && x != i ==> u[x] == t[x];
    assert u == t[i := u[i]];
    assert u[i].nlink == 0 && t[i].nlink == 0;
    FreeTree(t, m, u, i);
  }

  /** A name found in a linked directory, other than the dots, can be unlinked unless it is a directory
      with entries of its own. */
  lemma FoundUnlinkable(a: Abs, m: Map, d: nat, name: Name)
    requires InOrder(a, m) && d < |a.ino| && LinkedDir(TreeOf(a), d) && name != DOT && name != DOTDOT && Find(TreeOf(a)[d].ents, name) != 0
    ensures var t, k, i := TreeOf(a), Where(TreeOf(a)[d].ents, name), Find(TreeOf(a)[d].ents, name);
            && i < |t| && t[i].typ != 0 && t[i].nlink > 0 && k < |t[d].ents|
            && (!NotEmpty(t, i) ==> CanUnlink(t, m, d, k, i))
  {
    var t, k := TreeOf(a), Where(TreeOf(a)[d].ents, name);
    EntryLinked(t, m, d, k);
    DotsFirst(t, m, d, k);
  }

  /** A change of link count leaves the entries alone. */
  lemma DirMeta(a: Abs, i: nat, d: Dinode, e: seq<Ent>)
    requires DirIs(a, i, e) && d == a.ino[i].(nlink := d.nlink)
    ensures DirIs(WithInode(a, i, d), i, e)
  {
  }

  /** unlink, step by step: the entry cleared, then the two link counts. */
  lemma UnlinkSteps(a: Abs, b: Abs, c: Abs, e: Abs, d: nat, k: nat, i: nat)
    requires SameBut(a, b, d) && i < |a.ino| && i != d && a.ino[d].typ == T_DIR && a.ino[d].size <= |a.file[d]| * BSIZE
    requires k < |EntsOf(a.ino[d], a.file[d])| && DirIs(b, d, SetEnt(EntsOf(a.ino[d], a.file[d]), k, CLEARED))
    requires a.ino[d].nlink > -0x8000 && a.ino[i].nlink > -0x8000
    requires c == if a.ino[i].typ == T_DIR then WithInode(b, d, b.ino[d].(nlink := b.ino[d].nlink - 1)) else b
    requires e == WithInode(c, i, c.ino[i].(nlink := c.ino[i].nlink - 1))
    ensures UnlinkedIn(a, e, d, k, i)
  {
    hide EntsOf;
    var ents := SetEnt(EntsOf(a.ino[d], a.file[d]), k, CLEARED);
    if a.ino[i].typ == T_DIR {
      DirMeta(b, d, b.ino[d].(nlink := b.ino[d].nlink - 1), ents);
    }
    assert DirIs(c, d, ents);
    DirFrame(c, e, d, ents);
  }

  lemma DirFrame(a: Abs, b: Abs, i: nat, e: seq<Ent>)
    requires DirIs(a, i, e) && |b.ino| == |b.file| == |a.ino| && b.ino[i] == a.ino[i] && b.file[i] == a.file[i]
    ensures DirIs(b, i, e)
  {
  }

  /** What unlink leaves: the inode unlinked, and free if nobody had it open. */
  ghost predicate Removed(a: Abs, b: Abs, d: nat, k: nat, i: nat, open: bool)
  {
    exists mid: Abs :: UnlinkedIn(a, mid, d, k, i) && if open then b == mid else Freed(mid, b, i)
  }

  lemma RemovedInOrder(a: Abs, mid: Abs, b: Abs, m: Map, d: nat, k: nat, i: nat, open: bool)
    requires InOrder(a, m) && CanUnlink(TreeOf(a), m, d, k, i) && UnlinkedIn(a, mid, d, k, i) && |mid.ino| == |mid.file| && Sized(mid)
    requires if open then b == mid else Freed(mid, b, i) && |b.ino| == |b.file| && Sized(b)
    ensures InOrder(b, m) && Removed(a, b, d, k, i, open)
  {
    UnlinkDone(a, mid, m, d, k, i);
    hide UnlinkedIn, InOrder, CanUnlink;
    if !open {
      FreedInOrder(mid, b, m, i);
    }
  }

  /** An unlinkable inode and its directory have the link counts that unlink relies on. */
  lemma UnlinkCounts(a: Abs, m: Map, d: nat, k: nat, i: nat)
    requires InOrder(a, m) && CanUnlink(TreeOf(a), m, d, k, i)
    ensures i != d && 0 < i < |a.ino| && d < |a.ino| && a.ino[i].nlink == 1 && a.ino[d].typ == T_DIR && a.ino[d].nlink > (if a.ino[i].typ == T_DIR then 1 else 0)
    ensures a.ino[d].size <= |a.file[d]| * BSIZE && TreeOf(a)[d].ents == EntsOf(a.ino[d], a.file[d]) && k < |EntsOf(a.ino[d], a.file[d])|
  {
    UnlinkFacts(TreeOf(a), m, d, k, i);
    NodeFacts(a, m, d);
    NodeFacts(a, m, i);
  }

  /** Unlinking and freeing inode `i` logs its bitmap blocks, its inode block, the block of the entry and, for a
      directory, the inode block of its parent `d`; that is too much for the transaction. */
  ghost predicate TooSpread(sb: Super, a: Abs, d: nat, i: nat)
  {
    i < |a.ino| && |Spread(sb, a, i)| + 2 + (if a.ino[i].typ == T_DIR && sb.IBlock(d) != sb.IBlock(i) then 1 else 0) >= LOGSIZE - 1
  }

  /** The block that holds entry `k` of directory `d`, and the blocks that unlink logs for the name alone. */
  function EntryBlock(v: Disk, a: Abs, d: nat, k: nat): (x: nat)
    requires d < |a.ino| && a.ino[d].Ok() && k / 32 < MAXFILE
  {
    Addr(v, a.ino[d], k / 32)
  }

  function NameLog(sb: Super, v: Disk, a: Abs, d: nat, k: nat, i: nat): (r: set<nat>)
    requires d < |a.ino| && a.ino[d].Ok() && k / 32 < MAXFILE && i < |a.ino|
  {
    {EntryBlock(v, a, d, k)} + if a.ino[i].typ == T_DIR then {sb.IBlock(d)} else {}
  }

  /** The regions are disjoint, so the blocks add up. */
  lemma SpreadCount(sb: Super, v: Disk, a: Abs, d: nat, k: nat, i: nat)
    requires BlocksOk(sb, v, a) && d < sb.ninodes == |a.ino| && i < sb.ninodes && k / 32 < |a.file[d]| && k / 32 < MAXFILE && a.ino[d].Ok()
    ensures TooSpread(sb, a, d, i) <==> |NameLog(sb, v, a, d, k, i) + {sb.IBlock(i)} + (Spread(sb, a, i) + {sb.IBlock(i)})| >= LOGSIZE - 1
  {
    assert MappedAt(v, a, d);
    var x := EntryBlock(v, a, d, k);
    assert HeldAt(sb, v, a, x);
    SpreadFew(sb, v, a, i);
    InodeBlock(sb, i);
    InodeBlock(sb, d);
    hide BlocksOk, Addr, Spread, EntryBlock;
    PartsSize(x, sb.IBlock(i), sb.IBlock(d), a.ino[i].typ == T_DIR, Spread(sb, a, i));
  }

  lemma PartsSize(x: nat, y: nat, z: nat, dir: bool, s: set<nat>)
    requires x !in s && y !in s && z !in s && x != y && x != z
    ensures |{x} + (if dir then {z} else {}) + {y} + (s + {y})| == |s| + 2 + if dir && z != y then 1 else 0
  {
    var parts := {x} + (if dir then {z} else {}) + {y} + (s + {y});
    if dir && z != y {
      assert parts == s + {x} + {y} + {z};
    } else {
      assert parts == s + {x} + {y};
    }
  }

  /** unlink of this name would free an inode that is spread over too many bitmap blocks. */
  ghost predicate UnlinkStuck(sb: Super, a: Abs, c: seq<Inode>, d: nat, name: Name)
    requires |a.ino| == |a.file| && Sized(a) && d < |a.ino|
  {
    var t := TreeOf(a);
    var i := Find(t[d].ents, name);
    name != DOT && name != DOTDOT && 0 < i < |t| && !NotEmpty(t, i) && RefOf(c, i) == 0 && TooSpread(sb, a, d, i)
  }

  /** What unlink promises in directory `d`: it refuses the dots, missing names and directories that are not
      empty; otherwise the entry goes. */
  ghost predicate UnlinkedUnder(a: Abs, b: Abs, c: seq<Inode>, d: nat, name: Name, r: int)
    requires |a.ino| == |a.file| && Sized(a) && d < |a.ino|
  {
    var t := TreeOf(a);
    var e := t[d].ents;
    var i := Find(e, name);
    if name == DOT || name == DOTDOT || i == 0 || i >= |t| || NotEmpty(t, i) then r == -1 && b == a
    else r == 0 && Removed(a, b, d, Where(e, name), i, RefOf(c, i) > 0)
  }
}
