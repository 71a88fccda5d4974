/** The directory tree: every inode has the links its link count says, every linked inode but the root
    has exactly one name, and all of them hang together. */
module Tree {
  import opened Collections
  import opened FsFormat
  import opened DirFormat

  const ROOTINO := 1

  /** What the tree has to know of an inode; `ents` only counts for directories. */
  datatype Node = Node(typ: int, nlink: int, ents: seq<Ent>)

  /** Entry `k` of directory `d`. */
  datatype Place = Place(d: nat, k: nat)

  /** Where each linked inode has its name, and how far it is from the root. */
  datatype Map = Map(place: map<nat, Place>, depth: map<nat, nat>)

  type Nodes = seq<Node>

  /** A directory that can still be reached. */
  predicate LinkedDir(t: Nodes, d: nat)
  {
    d < |t| && t[d].typ == T_DIR && t[d].nlink > 0
  }

  predicate LiveAt(t: Nodes, p: Place)
  {
    LinkedDir(t, p.d) && p.k < |t[p.d].ents| && t[p.d].ents[p.k].inum != 0
  }

  /** The entries other than "." for inode `i` in linked directories. */
  ghost function Links(t: Nodes, i: nat): (r: set<Place>)
  {
    set d, k | 0 <= d < |t| && 0 <= k < |t[d].ents| && IsLink(t, Place(d, k), i) :: Place(d, k)
  }

  predicate IsLink(t: Nodes, p: Place, i: nat)
  {
    LiveAt(t, p) && t[p.d].ents[p.k].inum == i && t[p.d].ents[p.k].name != DOT
  }

  /** The directory that ".." of `d` stands for. */
  function Parent(m: Map, d: nat): (r: nat)
  {
    if d != ROOTINO && d in m.place then m.place[d].d else ROOTINO
  }

  /** A linked directory: "." and ".." first, names distinct. */
  ghost predicate DirOk(t: Nodes, m: Map, d: nat)
    requires d < |t|
  {
    var e := t[d].ents;
    && |e| >= 2 && e[0].inum == d && e[0].name == DOT && e[1].name == DOTDOT && e[1].inum == Parent(m, d) && DistinctNames(e)
    && forall k :: 2 <= k < |e| && e[k].inum != 0 ==> NamedAt(t, m, e[k].inum, Place(d, k))
  }

  /** Inode `i` is in use and has its name at `p`. */
  predicate NamedAt(t: Nodes, m: Map, i: nat, p: Place)
  {
    i < |t| && i != ROOTINO && t[i].typ != 0 && i in m.place && m.place[i] == p
  }

  /** A linked inode has a place in a linked directory one step closer to the root. */
  ghost predicate Hangs(t: Nodes, m: Map, i: nat)
    requires i < |t|
  {
    && i in m.place && i in m.depth && i != m.place[i].d
    && var p := m.place[i];
    LiveAt(t, p) && p.k >= 2 && t[p.d].ents[p.k].inum == i && p.d in m.depth && m.depth[i] == m.depth[p.d] + 1
  }

  ghost predicate TreeOk(t: Nodes, m: Map)
  {
    && 2 <= |t| < 0x8000 && LinkedDir(t, ROOTINO) && ROOTINO in m.depth && m.depth[ROOTINO] == 0
    && DirsOk(t, m) && AllHang(t, m) && LinksOk(t)
  }

  ghost predicate DirsOk(t: Nodes, m: Map)
  {
    forall d :: 0 <= d < |t| && LinkedDir(t, d) ==> DirOk(t, m, d)
  }

  ghost predicate AllHang(t: Nodes, m: Map)
  {
    forall i :: 0 <= i < |t| && i != ROOTINO && t[i].nlink > 0 ==> Hangs(t, m, i)
  }

  ghost predicate LinksOk(t: Nodes)
  {
    forall i :: 0 <= i < |t| ==> LinksAt(t, i)
  }

  /** The link count is the number of links; a free inode has none. */
  ghost predicate LinksAt(t: Nodes, i: nat)
    requires i < |t|
  {
    t[i].nlink == |Links(t, i)| && (t[i].typ == 0 ==> t[i].nlink == 0)
  }

  lemma LinksIff(t: Nodes, i: nat)
    ensures forall p :: p in Links(t, i) <==> IsLink(t, p, i)
  {
    forall p ensures p in Links(t, i) <==> IsLink(t, p, i) {
      assert p == Place(p.d, p.k);
    }
  }

  lemma LinkIn(t: Nodes, i: nat, p: Place)
    requires IsLink(t, p, i)
    ensures p in Links(t, i) && |Links(t, i)| > 0
  {
    LinksIff(t, i);
  }

  /** Every live entry of a linked directory names an inode in use that has a link. */
  lemma EntryLinked(t: Nodes, m: Map, d: nat, k: nat)
    requires TreeOk(t, m) && LinkedDir(t, d) && k < |t[d].ents| && t[d].ents[k].inum != 0
    ensures var i := t[d].ents[k].inum; i < |t| && t[i].typ != 0 && t[i].nlink > 0
  {
    var i := t[d].ents[k].inum;
    assert DirOk(t, m, d);
    if k >= 2 {
      assert NamedAt(t, m, i, Place(d, k));
      LinkIn(t, i, Place(d, k));
      assert LinksAt(t, i);
    } else if k == 1 && d != ROOTINO {
      assert Hangs(t, m, d);
      assert LinksAt(t, i);
    }
  }

  /** In a linked directory only the first two entries are called "." and "..". */
  lemma DotsFirst(t: Nodes, m: Map, d: nat, k: nat)
    requires TreeOk(t, m) && LinkedDir(t, d) && k < |t[d].ents| && t[d].ents[k].inum != 0
    ensures t[d].ents[k].name == DOT <==> k == 0
    ensures t[d].ents[k].name == DOTDOT <==> k == 1
    ensures Find(t[d].ents, DOT) != 0 && Find(t[d].ents, DOTDOT) != 0
  {
    assert DirOk(t, m, d);
    EntryLinked(t, m, d, 0);
    ParentLinked(t, m, d);
    FindIs(t[d].ents, 0);
    FindIs(t[d].ents, 1);
  }

  lemma ParentLinked(t: Nodes, m: Map, d: nat)
    requires TreeOk(t, m) && LinkedDir(t, d)
    ensures LinkedDir(t, Parent(m, d)) && Parent(m, d) != 0 && d in m.depth
  {
    if d != ROOTINO {
      assert Hangs(t, m, d);
      ZeroUnlinked(t, m);
    }
  }

  /** Inode 0 is never linked: an entry with number 0 is no entry. */
  lemma ZeroUnlinked(t: Nodes, m: Map)
    requires TreeOk(t, m)
    ensures t[0].nlink == 0
  {
    assert LinksAt(t, 0);
  }

  /** Each link to a directory belongs to a different inode: ".." to its subdirectory, the name to itself. */
  function Bearer(d: nat, p: Place): (x: nat)
  {
    if p.k == 1 then p.d else d
  }

  lemma {:induction false} BearersSize(links: set<Place>, d: nat, r: set<nat>)
    requires forall p :: p in links ==> Bearer(d, p) in r
    requires forall p, q :: p in links && q in links && Bearer(d, p) == Bearer(d, q) ==> p == q
    ensures |links| <= |r|
  {
    if links != {} {
      var p :| p in links;
      BearersSize(links - {p}, d, r - {Bearer(d, p)});
    }
  }

  lemma {:induction false} UpTo(n: nat) returns (r: set<nat>)
    ensures |r| == n && forall x :: x in r <==> 0 < x <= n
  {
    if n == 0 {
      r := {};
    } else {
      r := UpTo(n - 1);
      r := r + {n};
    }
  }

  /** So link counts stay below the number of inodes, and nlink++ never overflows. */
  lemma LinkBound(t: Nodes, m: Map, d: nat)
    requires TreeOk(t, m) && LinkedDir(t, d)
    ensures t[d].nlink < |t|
  {
    LinksIff(t, d);
    ZeroUnlinked(t, m);
    forall p | p in Links(t, d) ensures 0 < Bearer(d, p) < |t| && (p.k == 1 || (p.k >= 2 && d in m.place && m.place[d] == p && d != ROOTINO)) {
      DotDotLink(t, m, d, p);
      assert DirOk(t, m, p.d);
      assert p.k >= 2 ==> NamedAt(t, m, d, Place(p.d, p.k));
    }
    forall p, q | p in Links(t, d) && q in Links(t, d) && Bearer(d, p) == Bearer(d, q) ensures p == q {
      SameBearer(t, m, d, p, q);
    }
    var r := UpTo(|t| - 1);
    BearersSize(Links(t, d), d, r);
    assert LinksAt(t, d);
  }

  lemma SameBearer(t: Nodes, m: Map, d: nat, p: Place, q: Place)
    requires TreeOk(t, m) && IsLink(t, p, d) && IsLink(t, q, d) && LinkedDir(t, d) && Bearer(d, p) == Bearer(d, q)
    requires p.k == 1 || (p.k >= 2 && d in m.place && m.place[d] == p && d != ROOTINO)
    requires q.k == 1 || (q.k >= 2 && d in m.place && m.place[d] == q && d != ROOTINO)
    ensures p == q
  {
    DotDotLink(t, m, d, p);
    DotDotLink(t, m, d, q);
    assert d != ROOTINO ==> Hangs(t, m, d);
  }

  // What the operations do to the tree.

  /** Inode `i`, free before, has been created and named in entry `k` of directory `d`. */
  ghost predicate Created(t: Nodes, u: Nodes, d: nat, k: nat, i: nat, name: Name)
  {
    && d < |t| && i < |t| && |u| == |t| <= 0x8000 && k <= |t[d].ents|
    && (forall x :: 0 <= x < |t| && x != i && x != d ==> u[x] == t[x])
    && u[i].typ != 0 && u[i].nlink == 1 && (u[i].typ == T_DIR ==> u[i].ents == [Ent(i, DOT), Ent(d, DOTDOT)])
    && u[d] == Node(T_DIR, t[d].nlink + (if u[i].typ == T_DIR then 1 else 0), SetEnt(t[d].ents, k, Ent(i, name)))
  }

  function Placed(m: Map, i: nat, d: nat, k: nat): (r: Map)
    requires d in m.depth
  {
    Map(m.place[i := Place(d, k)], m.depth[i := m.depth[d] + 1])
  }

  /** Inode `i` can be created in entry `k` of directory `d` under that name. */
  ghost predicate CanCreate(t: Nodes, m: Map, d: nat, k: nat, i: nat, name: Name)
  {
    && TreeOk(t, m) && LinkedDir(t, d) && i < |t| && i != 0 && t[i].typ == 0 && Find(t[d].ents, name) == 0
    && k <= |t[d].ents| && (k < |t[d].ents| ==> t[d].ents[k].inum == 0)
  }

  lemma CreateFacts(t: Nodes, m: Map, d: nat, k: nat, i: nat, name: Name)
    requires CanCreate(t, m, d, k, i, name)
    ensures i != d && i != ROOTINO && k >= 2 && name != DOT && name != DOTDOT && d in m.depth && t[i].nlink == 0 && d != 0
    ensures DistinctNames(t[d].ents) && !LinkedDir(t, i)
    ensures forall p :: !IsLink(t, p, i)
  {
    assert DirOk(t, m, d);
    DotsFirst(t, m, d, 0);
    ParentLinked(t, m, d);
    EntryLinked(t, m, d, 1);
    assert LinksAt(t, i);
    ZeroUnlinked(t, m);
    LinksIff(t, i);
  }

  /** One link more, at `p`. */
  lemma LinksPlus(t: Nodes, u: Nodes, x: nat, p: Place)
    requires !IsLink(t, p, x) && forall q :: IsLink(u, q, x) <==> IsLink(t, q, x) || q == p
    ensures |Links(u, x)| == |Links(t, x)| + 1
  {
    LinksIff(t, x);
    LinksIff(u, x);
    assert Links(u, x) == Links(t, x) + {p};
  }

  lemma LinksSame(t: Nodes, u: Nodes, x: nat)
    requires forall q :: IsLink(u, q, x) <==> IsLink(t, q, x)
    ensures |Links(u, x)| == |Links(t, x)|
  {
    LinksIff(t, x);
    LinksIff(u, x);
    assert Links(u, x) == Links(t, x);
  }

  /** The live links after create: those before, the new name, and ".." of a new directory. */
  lemma CreatedLinks(t: Nodes, u: Nodes, d: nat, k: nat, i: nat, name: Name, x: nat, q: Place)
    requires Created(t, u, d, k, i, name) && LinkedDir(t, d) && !LinkedDir(t, i) && i != d && d != 0 && i != 0 && name != DOT
    requires k < |t[d].ents| ==> t[d].ents[k].inum == 0
    ensures IsLink(u, q, x) <==> IsLink(t, q, x) || (q == Place(d, k) && x == i) || (q == Place(i, 1) && x == d && u[i].typ == T_DIR)
  {
    if q.d == d {
      assert LinkedDir(u, d);
    } else if q.d == i {
      assert q == Place(i, q.k);
    }
  }

  lemma CreatedDir(t: Nodes, m: Map, u: Nodes, d: nat, k: nat, i: nat, name: Name)
    requires Created(t, u, d, k, i, name) && d in m.depth && DirOk(t, m, d) && i != d && i != ROOTINO && t[i].typ == 0 != i
    requires k >= 2 && Find(t[d].ents, name) == 0 && (k < |t[d].ents| ==> t[d].ents[k].inum == 0)
    ensures DirOk(u, Placed(m, i, d, k), d)
  {
    FindInsert(t[d].ents, k, i, name);
    var e, f, w := t[d].ents, u[d].ents, Placed(m, i, d, k);
    forall j | 2 <= j < |f| && f[j].inum != 0 ensures NamedAt(u, w, f[j].inum, Place(d, j)) {
      if j != k {
        assert NamedAt(t, m, e[j].inum, Place(d, j));
      }
    }
  }

  lemma CreatedOther(t: Nodes, m: Map, u: Nodes, d: nat, k: nat, i: nat, name: Name, x: nat)
    requires Created(t, u, d, k, i, name) && d in m.depth && x < |t| && DirOk(t, m, x) && x != d && x != i && t[i].typ == 0 && t[d].typ != 0
    ensures DirOk(u, Placed(m, i, d, k), x)
  {
    var e, w := t[x].ents, Placed(m, i, d, k);
    forall j | 2 <= j < |e| && e[j].inum != 0 ensures NamedAt(u, w, e[j].inum, Place(x, j)) {
      assert NamedAt(t, m, e[j].inum, Place(x, j));
    }
  }

  lemma CreateDirs(t: Nodes, m: Map, u: Nodes, d: nat, k: nat, i: nat, name: Name, x: nat)
    requires CanCreate(t, m, d, k, i, name) && Created(t, u, d, k, i, name) && d in m.depth && LinkedDir(u, x)
    ensures DirOk(u, Placed(m, i, d, k), x)
  {
    CreateFacts(t, m, d, k, i, name);
    if x != i {
      assert LinkedDir(t, x);
      assert DirOk(t, m, x);
    }
    hide TreeOk, DirOk;
    if x == d {
      CreatedDir(t, m, u, d, k, i, name);
    } else if x != i {
      CreatedOther(t, m, u, d, k, i, name, x);
    } else {
      CreatedSelf(t, m, u, d, k, i, name);
    }
  }

  lemma CreatedSelf(t: Nodes, m: Map, u: Nodes, d: nat, k: nat, i: nat, name: Name)
    requires Created(t, u, d, k, i, name) && d in m.depth && i != d && i != ROOTINO && u[i].typ == T_DIR
    ensures DirOk(u, Placed(m, i, d, k), i)
  {
  }

  lemma CreatedHangs(t: Nodes, m: Map, u: Nodes, d: nat, k: nat, i: nat, name: Name, x: nat)
    requires Created(t, u, d, k, i, name) && d in m.depth && i != d && LinkedDir(t, d) && !LinkedDir(t, i) && i != 0 && k >= 2
    requires k < |t[d].ents| ==> t[d].ents[k].inum == 0
    requires x < |t| && (x != i ==> Hangs(t, m, x) && t[x].nlink > 0)
    ensures Hangs(u, Placed(m, i, d, k), x)
  {
  }

  /** The new inode has one link, and a new directory is one for its parent. */
  lemma CreateLinks(t: Nodes, m: Map, u: Nodes, d: nat, k: nat, i: nat, name: Name, x: nat)
    requires CanCreate(t, m, d, k, i, name) && Created(t, u, d, k, i, name) && x < |u|
    ensures LinksAt(u, x)
  {
    CreateFacts(t, m, d, k, i, name);
    assert LinksAt(t, x);
    hide TreeOk;
    forall q ensures IsLink(u, q, x) <==> IsLink(t, q, x) || (q == Place(d, k) && x == i) || (q == Place(i, 1) && x == d && u[i].typ == T_DIR) {
      CreatedLinks(t, u, d, k, i, name, x, q);
    }
    hide IsLink;
    if x == i {
      LinksPlus(t, u, x, Place(d, k));
    } else if x == d && u[i].typ == T_DIR {
      LinksPlus(t, u, x, Place(i, 1));
    } else {
      LinksSame(t, u, x);
    }
  }

  /** create keeps the tree in order. */
  lemma CreateTree(t: Nodes, m: Map, u: Nodes, d: nat, k: nat, i: nat, name: Name)
    requires CanCreate(t, m, d, k, i, name) && Created(t, u, d, k, i, name)
    ensures d in m.depth && TreeOk(u, Placed(m, i, d, k))
  {
    CreateFacts(t, m, d, k, i, name);
    hide CanCreate, Created;
    CreateShape(t, m, u, d, k, i, name);
    forall x | 0 <= x < |u| && LinkedDir(u, x) ensures DirOk(u, Placed(m, i, d, k), x) {
      CreateDirs(t, m, u, d, k, i, name, x);
    }
    forall x | 0 <= x < |u| && x != ROOTINO && u[x].nlink > 0 ensures Hangs(u, Placed(m, i, d, k), x) {
      CreateHangs(t, m, u, d, k, i, name, x);
    }
    forall x | 0 <= x < |u| ensures LinksAt(u, x) {
      CreateLinks(t, m, u, d, k, i, name, x);
    }
  }

  lemma CreateShape(t: Nodes, m: Map, u: Nodes, d: nat, k: nat, i: nat, name: Name)
    requires CanCreate(t, m, d, k, i, name) && Created(t, u, d, k, i, name)
    ensures 2 <= |u| < 0x8000 && LinkedDir(u, ROOTINO) && ROOTINO in m.depth && m.depth[ROOTINO] == 0
  {
    CreateFacts(t, m, d, k, i, name);
  }

  lemma CreateHangs(t: Nodes, m: Map, u: Nodes, d: nat, k: nat, i: nat, name: Name, x: nat)
    requires CanCreate(t, m, d, k, i, name) && Created(t, u, d, k, i, name) && d in m.depth && x < |u| && x != ROOTINO && u[x].nlink > 0
    ensures Hangs(u, Placed(m, i, d, k), x)
  {
    CreateFacts(t, m, d, k, i, name);
    assert x != i ==> Hangs(t, m, x);
    hide TreeOk;
    CreatedHangs(t, m, u, d, k, i, name, x);
  }

  /** Entry `k` of directory `d`, which named inode `i`, has been cleared. */
  ghost predicate Unlinked(t: Nodes, u: Nodes, d: nat, k: nat, i: nat)
  {
    && d < |t| && i < |t| && |u| == |t| && k < |t[d].ents| && i != d
    && (forall x :: 0 <= x < |t| && x != i && x != d ==> u[x] == t[x])
    && u[d] == t[d].(nlink := t[d].nlink - (if t[i].typ == T_DIR then 1 else 0), ents := t[d].ents[k := CLEARED])
    && u[i] == t[i].(nlink := t[i].nlink - 1, ents := u[i].ents)
  }

  /** A directory with more entries than the dots. */
  ghost predicate NotEmpty(t: Nodes, i: nat)
    requires i < |t|
  {
    t[i].typ == T_DIR && exists j :: 2 <= j < |t[i].ents| && t[i].ents[j].inum != 0
  }

  /** Entry `k` of directory `d` names inode `i` and may be removed. */
  ghost predicate CanUnlink(t: Nodes, m: Map, d: nat, k: nat, i: nat)
  {
    && TreeOk(t, m) && LinkedDir(t, d) && 2 <= k < |t[d].ents| && t[d].ents[k].inum == i != 0 && i < |t|
    && !NotEmpty(t, i)
  }

  /** A link that is not among the names of a directory is ".." of the root or of a subdirectory. */
  lemma DotDotLink(t: Nodes, m: Map, i: nat, q: Place)
    requires TreeOk(t, m) && IsLink(t, q, i)
    ensures q.k >= 2 || (q.k == 1 && i == Parent(m, q.d))
    ensures q.k == 1 && i != ROOTINO ==> i < |t| && t[i].typ == T_DIR && exists j :: 2 <= j < |t[i].ents| && t[i].ents[j].inum != 0
  {
    assert DirOk(t, m, q.d);
    DotsFirst(t, m, q.d, q.k);
    if q.k == 1 && i != ROOTINO {
      assert Hangs(t, m, q.d);
    }
  }

  /** The only link to such an inode is the one to be removed. */
  lemma OnlyLink(t: Nodes, m: Map, d: nat, k: nat, i: nat, q: Place)
    requires CanUnlink(t, m, d, k, i) && IsLink(t, q, i)
    ensures q == Place(d, k) && i != ROOTINO
  {
    assert DirOk(t, m, d) && DirOk(t, m, q.d);
    assert NamedAt(t, m, i, Place(d, k));
    DotDotLink(t, m, i, q);
    assert q.k >= 2 ==> NamedAt(t, m, i, Place(q.d, q.k));
  }

  lemma UnlinkFacts(t: Nodes, m: Map, d: nat, k: nat, i: nat)
    requires CanUnlink(t, m, d, k, i)
    ensures i != ROOTINO && i != d && IsLink(t, Place(d, k), i) && t[i].nlink == 1 && d != 0
    ensures forall q :: IsLink(t, q, i) ==> q == Place(d, k)
    ensures DistinctNames(t[d].ents) && t[d].ents[k].name != DOT && t[d].ents[k].name != DOTDOT
    ensures t[i].typ == T_DIR ==> |t[i].ents| >= 2 && t[i].ents[0].name == DOT && t[i].ents[1] == Ent(d, DOTDOT) && t[d].nlink >= 2 && IsLink(t, Place(i, 1), d)
  {
    assert DirOk(t, m, d);
    assert NamedAt(t, m, i, Place(d, k));
    DotsFirst(t, m, d, k);
    ZeroUnlinked(t, m);
    LinksIff(t, i);
    forall q | IsLink(t, q, i) ensures q == Place(d, k) {
      OnlyLink(t, m, d, k, i, q);
    }
    assert Links(t, i) == {Place(d, k)};
    assert LinksAt(t, i);
    assert Hangs(t, m, i);
    if t[i].typ == T_DIR {
      assert DirOk(t, m, i);
      TwoLinks(t, m, d, i);
    }
  }

  /** A directory with a subdirectory has at least two links. */
  lemma TwoLinks(t: Nodes, m: Map, d: nat, i: nat)
    requires TreeOk(t, m) && LinkedDir(t, d) && LinkedDir(t, i) && i != ROOTINO && i != d && Parent(m, i) == d != 0
    ensures t[d].nlink >= 2
  {
    assert DirOk(t, m, i) && DirOk(t, m, d);
    var p := if d == ROOTINO then Place(ROOTINO, 1) else m.place[d];
    if d != ROOTINO {
      assert Hangs(t, m, d);
      assert DirOk(t, m, p.d);
      DotsFirst(t, m, p.d, p.k);
    }
    assert IsLink(t, p, d) && IsLink(t, Place(i, 1), d) && p != Place(i, 1);
    assert LinksAt(t, d);
    hide TreeOk, IsLink;
    LinksIff(t, d);
    TwoIn(Links(t, d), p, Place(i, 1));
  }

  lemma TwoIn(s: set<Place>, p: Place, q: Place)
    requires p in s && q in s && p != q
    ensures |s| >= 2
  {
    SubsetSize({p, q}, s);
  }

  /** One link less. */
  lemma LinksMinus(t: Nodes, u: Nodes, x: nat, p: Place)
    requires IsLink(t, p, x) && forall q :: IsLink(u, q, x) <==> IsLink(t, q, x) && q != p
    ensures |Links(u, x)| == |Links(t, x)| - 1
  {
    LinksPlus(u, t, x, p);
  }

  /** The live links after unlink. */
  lemma UnlinkedLinks(t: Nodes, u: Nodes, d: nat, k: nat, i: nat, x: nat, q: Place)
    requires Unlinked(t, u, d, k, i) && |t| <= 0x8000 && LinkedDir(t, d) && t[d].ents[k].inum == i != 0 && t[i].nlink == 1
    requires t[i].typ == T_DIR ==> |t[i].ents| >= 2 && t[i].ents[0].name == DOT && t[i].ents[1] == Ent(d, DOTDOT) && t[d].nlink >= 2
    requires t[i].typ == T_DIR ==> forall j :: 2 <= j < |t[i].ents| ==> t[i].ents[j].inum == 0
    ensures IsLink(u, q, x) <==> IsLink(t, q, x) && q != Place(d, k) && !(t[i].typ == T_DIR && q == Place(i, 1))
  {
  }

  lemma UnlinkLinks(t: Nodes, m: Map, u: Nodes, d: nat, k: nat, i: nat, x: nat)
    requires CanUnlink(t, m, d, k, i) && Unlinked(t, u, d, k, i) && x < |u|
    ensures LinksAt(u, x)
  {
    UnlinkFacts(t, m, d, k, i);
    assert LinksAt(t, x);
    hide TreeOk;
    forall q ensures IsLink(u, q, x) <==> IsLink(t, q, x) && q != Place(d, k) && !(t[i].typ == T_DIR && q == Place(i, 1)) {
      UnlinkedLinks(t, u, d, k, i, x, q);
    }
    if x == i {
      LinksMinus(t, u, x, Place(d, k));
    } else if x == d && t[i].typ == T_DIR {
      LinksMinus(t, u, x, Place(i, 1));
    } else {
      LinksSame(t, u, x);
    }
  }

  lemma UnlinkDirs(t: Nodes, m: Map, u: Nodes, d: nat, k: nat, i: nat, x: nat)
    requires CanUnlink(t, m, d, k, i) && Unlinked(t, u, d, k, i) && LinkedDir(u, x)
    ensures DirOk(u, m, x)
  {
    UnlinkFacts(t, m, d, k, i);
    assert DirOk(t, m, x);
    hide TreeOk;
    if x == d {
      FindRemove(t[d].ents, k);
    }
    var e, f := t[x].ents, u[x].ents;
    forall j | 2 <= j < |f| && f[j].inum != 0 ensures NamedAt(u, m, f[j].inum, Place(x, j)) {
      assert NamedAt(t, m, e[j].inum, Place(x, j));
    }
  }

  lemma UnlinkHangs(t: Nodes, m: Map, u: Nodes, d: nat, k: nat, i: nat, x: nat)
    requires CanUnlink(t, m, d, k, i) && Unlinked(t, u, d, k, i) && x < |u| && x != ROOTINO && u[x].nlink > 0
    ensures Hangs(u, m, x)
  {
    UnlinkFacts(t, m, d, k, i);
    assert Hangs(t, m, x);
    var p := m.place[x];
    assert t[i].typ == T_DIR ==> p.d != i;
    hide TreeOk;
  }

  /** unlink keeps the tree in order. */
  lemma UnlinkTree(t: Nodes, m: Map, u: Nodes, d: nat, k: nat, i: nat)
    requires CanUnlink(t, m, d, k, i) && Unlinked(t, u, d, k, i)
    ensures TreeOk(u, m) && u[i].nlink == 0
  {
    UnlinkFacts(t, m, d, k, i);
    forall x | 0 <= x < |u| && LinkedDir(u, x) ensures DirOk(u, m, x) {
      UnlinkDirs(t, m, u, d, k, i, x);
    }
    forall x | 0 <= x < |u| && x != ROOTINO && u[x].nlink > 0 ensures Hangs(u, m, x) {
      UnlinkHangs(t, m, u, d, k, i, x);
    }
    forall x | 0 <= x < |u| ensures LinksAt(u, x) {
      UnlinkLinks(t, m, u, d, k, i, x);
    }
  }

  /** An inode without links may be freed, and a directory without links may change at will. */
  lemma FreeTree(t: Nodes, m: Map, u: Nodes, i: nat)
    requires TreeOk(t, m) && i < |t| == |u| && t[i].nlink == 0 && u == t[i := u[i]] && u[i].nlink == 0
    ensures TreeOk(u, m)
  {
    assert forall q, x :: IsLink(u, q, x) <==> IsLink(t, q, x);
    forall x | 0 <= x < |u| ensures LinksAt(u, x) {
      assert LinksAt(t, x);
      LinksSame(t, u, x);
    }
    LinksIff(t, i);
    assert LinksAt(t, i);
    forall x | 0 <= x < |u| && LinkedDir(u, x) ensures DirOk(u, m, x) {
      assert DirOk(t, m, x);
      forall j | 2 <= j < |t[x].ents| && t[x].ents[j].inum != 0 ensures NamedAt(u, m, t[x].ents[j].inum, Place(x, j)) {
        assert NamedAt(t, m, t[x].ents[j].inum, Place(x, j));
        EntryLinked(t, m, x, j);
      }
    }
    forall x | 0 <= x < |u| && x != ROOTINO && u[x].nlink > 0 ensures Hangs(u, m, x) {
      assert Hangs(t, m, x);
    }
  }

  // Paths.

  /** Looking up one name after the other, from directory `i`; 0 if that fails. */
  function Walk(t: Nodes, i: nat, names: seq<Name>): (r: nat)
    decreases |names|
  {
    if names == [] then i
    else if i < |t| && t[i].typ == T_DIR && Find(t[i].ents, names[0]) != 0 then Walk(t, Find(t[i].ents, names[0]), names[1..])
    else 0
  }

  /** Walking from a linked inode only reaches linked inodes. */
  lemma {:induction false} WalkLinked(t: Nodes, m: Map, i: nat, names: seq<Name>)
    requires TreeOk(t, m) && i < |t| && t[i].nlink > 0
    ensures var r := Walk(t, i, names); r == 0 || (r < |t| && t[r].nlink > 0 && t[r].typ != 0)
    decreases |names|
  {
    assert LinksAt(t, i);
    if names != [] && t[i].typ == T_DIR && Find(t[i].ents, names[0]) != 0 {
      EntryLinked(t, m, i, Where(t[i].ents, names[0]));
      WalkLinked(t, m, Find(t[i].ents, names[0]), names[1..]);
    }
  }

  lemma {:induction false} WalkOn(t: Nodes, i: nat, names: seq<Name>, name: Name)
    ensures Walk(t, i, names + [name]) == (if Walk(t, i, names) != 0 || names == [] then Walk(t, Walk(t, i, names), [name]) else 0)
    decreases |names|
  {
    if names != [] {
      assert (names + [name])[1..] == names[1..] + [name];
      if i < |t| && t[i].typ == T_DIR && Find(t[i].ents, names[0]) != 0 {
        WalkOn(t, Find(t[i].ents, names[0]), names[1..], name);
      }
    } else {
      assert names + [name] == [name];
    }
  }

  /** Every linked inode has a path from the root, as long as it is deep: the links form one tree. */
  lemma {:induction false} Reachable(t: Nodes, m: Map, i: nat) returns (names: seq<Name>)
    requires TreeOk(t, m) && i < |t| && t[i].nlink > 0
    ensures i in m.depth && |names| == m.depth[i] && Walk(t, ROOTINO, names) == i
    decreases if i in m.depth then m.depth[i] else 0
  {
    if i == ROOTINO {
      names := [];
    } else {
      assert Hangs(t, m, i);
      var p := m.place[i];
      names := Reachable(t, m, p.d);
      assert DirOk(t, m, p.d);
      ZeroUnlinked(t, m);
      FindIs(t[p.d].ents, p.k);
      var name := t[p.d].ents[p.k].name;
      WalkOn(t, ROOTINO, names, name);
      names := names + [name];
    }
  }
}
