/** Inodes in use that no directory names any more. They wait for the last open file on them to be closed; a crash
    before that leaves them behind. */
module FsOrphans {
  import opened Bytes
  import opened FsFormat
  import opened FsState
  import opened FsSpec
  import opened FsInodeSteps
  import opened FsContent
  import opened DirFormat
  import opened PathFormat
  import opened Tree
  import opened FsTree
  import opened FileState
  import opened FileSteps

  ghost function Orphans(a: Abs): (r: set<nat>)
  {
    set i | 0 <= i < |a.ino| && a.ino[i].typ != 0 && a.ino[i].nlink == 0
  }

  /** No inode is lost: the orphans are referenced, but for those in `left`. */
  ghost predicate NoneLost(a: Abs, icache: seq<Inode>, left: set<nat>)
  {
    forall i :: i in Orphans(a) ==> i in left || RefOf(icache, i) > 0
  }

  /** Some open file is on inode `i`. */
  ghost predicate IsOpen(ft: seq<File>, icache: seq<Inode>, i: nat)
  {
    exists f :: 0 <= f < |ft| && ft[f].ref > 0 && ft[f].ip < |icache| && icache[ft[f].ip].inum == i
  }

  /** The orphans are open, but for those in `left`. */
  ghost predicate OrphansOpen(a: Abs, ft: seq<File>, icache: seq<Inode>, left: set<nat>)
  {
    forall i :: i in Orphans(a) ==> i in left || IsOpen(ft, icache, i)
  }

  /** Whatever is referenced between two calls is open. */
  lemma NoneLostOpen(a: Abs, ft: seq<File>, icache: seq<Inode>, left: set<nat>)
    requires NoneLost(a, icache, left) && Table(ft, icache)
    ensures OrphansOpen(a, ft, icache, left)
  {
    hide Orphans, IsOpen;
    forall i | i in Orphans(a) && i !in left ensures IsOpen(ft, icache, i) {
      var s := Referenced(icache, i);
      var f := OpenedBy(ft, s);
      OpenHere(ft, icache, i, f);
    }
  }

  lemma OpenHere(ft: seq<File>, icache: seq<Inode>, i: nat, f: nat)
    requires f < |ft| && ft[f].ref > 0 && ft[f].ip < |icache| && icache[ft[f].ip].inum == i
    ensures IsOpen(ft, icache, i)
  {
  }

  lemma {:induction false} Referenced(icache: seq<Inode>, i: nat) returns (s: nat)
    requires RefOf(icache, i) > 0
    ensures s < |icache| && icache[s].ref > 0 && icache[s].inum == i
  {
    var k := |icache| - 1;
    if icache[k].inum == i && icache[k].ref > 0 {
      s := k;
    } else {
      s := Referenced(icache[..k], i);
    }
  }

  lemma {:induction false} OpenedBy(ft: seq<File>, s: nat) returns (f: nat)
    requires Opens(ft, s) > 0
    ensures f < |ft| && ft[f].ref > 0 && ft[f].inode && ft[f].ip == s
  {
    var k := |ft| - 1;
    if ft[k].ref > 0 && ft[k].inode && ft[k].ip == s {
      f := k;
    } else {
      f := OpenedBy(ft[..k], s);
    }
  }

  lemma NoneLostKept(a: Abs, b: Abs, c: seq<Inode>, c': seq<Inode>, s: int, left: set<nat>)
    requires NoneLost(a, c, left) && Took(c, c', s) && forall i :: i in Orphans(b) ==> i in Orphans(a) || RefOf(c, i) > 0
    ensures NoneLost(b, c', left)
  {
    hide Orphans, Took;
    forall i | i in Orphans(b) ensures i in left || RefOf(c', i) > 0 {
      TookRefs(c, c', s, i);
    }
  }

  /** create makes none: the new inode has its link, and the parent directory had some. */
  lemma CreatedOrphans(a: Abs, b: Abs, d: nat, k: nat, i: nat, name: Name, typ: s16, major: s16, minor: s16)
    requires CreatedIn(a, b, d, k, i, name, typ, major, minor) && a.ino[d].nlink > 0
    ensures Orphans(b) <= Orphans(a)
  {
    hide EntsOf;
  }

  lemma ParentLinked(a: Abs, m: Map, names: seq<Name>)
    requires InOrder(a, m) && names != []
    ensures var d := Goal(TreeOf(a), ROOTINO, names, true); d != 0 ==> d < |a.ino| && a.ino[d].nlink > 0 && LinkedDir(TreeOf(a), d)
  {
    hide TreeOk;
    GoalLinked(TreeOf(a), m, names);
    GoalDir(TreeOf(a), ROOTINO, names);
  }

  lemma NodeOrphans(a: Abs, m: Map, b: Abs, m': Map, names: seq<Name>, typ: s16, major: s16, minor: s16, r: int)
    requires InOrder(a, m) && NodeMade(a, m, b, m', names, typ, major, minor, r)
    ensures Orphans(b) <= Orphans(a)
  {
    hide InOrder, Orphans, CreatedIn, Goal, Find, FirstFree;
    var t, d := TreeOf(a), Goal(TreeOf(a), ROOTINO, names, true);
    if d == 0 || d >= |t| || names == [] || Find(t[d].ents, names[|names| - 1]) != 0 {
    } else {
      ParentLinked(a, m, names);
      var k := FirstFree(t[d].ents);
      var i :| 0 < i < |t| && t[i].typ == 0 && CreatedIn(a, b, d, k, i, names[|names| - 1], typ, major, minor);
      CreatedOrphans(a, b, d, k, i, names[|names| - 1], typ, major, minor);
    }
  }

  lemma OpenOrphans(a: Abs, c: seq<Inode>, m: Map, b: Abs, c': seq<Inode>, m': Map, names: seq<Name>, omode: nat, s: int)
    requires InOrder(a, m) && OpenedInode(a, c, m, b, c', m', names, omode, s)
    ensures Orphans(b) <= Orphans(a)
  {
    hide InOrder, Orphans, CreatedIn, Goal, Find, FirstFree, Took, Loaded, TreeOf;
    if names != [] {
      ParentLinked(a, m, names);
      var d := Goal(TreeOf(a), ROOTINO, names, true);
      if d != 0 && d < |a.ino| && b != a {
        CreatedOrphans(a, b, d, FirstFree(TreeOf(a)[d].ents), c'[s].inum, names[|names| - 1], T_FILE, 0, 0);
      }
    }
  }

  /** unlink makes one only of an inode that is open. */
  lemma UnlinkOrphans(a: Abs, m: Map, b: Abs, c: seq<Inode>, names: seq<Name>, r: int)
    requires InOrder(a, m) && UnlinkResult(a, b, c, names, r)
    ensures forall i :: i in Orphans(b) ==> i in Orphans(a) || RefOf(c, i) > 0
  {
    hide InOrder, Orphans, Goal, Find, Where, Removed, TreeOf;
    if b != a {
      ParentLinked(a, m, names);
      var d, name := Goal(TreeOf(a), ROOTINO, names, true), names[|names| - 1];
      FoundUnlinkable(a, m, d, name);
      RemovedOrphans(a, m, b, c, d, Where(TreeOf(a)[d].ents, name), Find(TreeOf(a)[d].ents, name));
    }
  }

  lemma RemovedOrphans(a: Abs, m: Map, b: Abs, c: seq<Inode>, d: nat, k: nat, i: nat)
    requires InOrder(a, m) && CanUnlink(TreeOf(a), m, d, k, i) && Removed(a, b, d, k, i, RefOf(c, i) > 0)
    ensures forall x :: x in Orphans(b) ==> x in Orphans(a) || RefOf(c, x) > 0
  {
    hide EntsOf, TreeOk, RefOf;
    UnlinkFacts(TreeOf(a), m, d, k, i);
    hide CanUnlink, IsLink;
    var mid: Abs :| UnlinkedIn(a, mid, d, k, i) && if RefOf(c, i) > 0 then b == mid else Freed(mid, b, i);
    assert mid.ino[d].nlink > 0;
  }

  /** fileclose loses none: if it drops the last reference to an orphan, the inode is freed. */
  lemma CloseNoneLost(sb: Super, a: Abs, c: seq<Inode>, ft: seq<File>, b: Abs, c': seq<Inode>, ft': seq<File>, f: nat, left: set<nat>)
    requires |a.ino| == sb.ninodes && Cached(sb, a, c) && Table(ft, c) && CloseResult(a, c, ft, b, c', ft', f) && NoneLost(a, c, left)
    ensures NoneLost(b, c', left)
  {
    hide Orphans, RefOf;
    OpenReferenced(ft, c, f);
    if ft[f].ref == 1 {
      var s := ft[f].ip;
      forall i | i in Orphans(b) ensures i in left || RefOf(c', i) > 0 {
        FreedOrphan(a, b, c[s].inum, i, LastUnlinked(c[s]));
        DroppedRefs(c, c', s, i);
        if i == c[s].inum && c[s].ref > 1 {
          RefSome(c', i, s);
        }
      }
    }
  }

  lemma FreedOrphan(a: Abs, b: Abs, i: nat, x: nat, free: bool)
    requires x in Orphans(b) && if free then Freed(a, b, i) else b == a
    ensures x in Orphans(a) && (x == i ==> !free && i < |a.ino| && a.ino[i].nlink == 0)
  {
  }

  lemma {:induction false} DroppedRefs(c: seq<Inode>, c': seq<Inode>, s: nat, i: nat)
    requires Dropped(c, c', s)
    ensures RefOf(c', i) == RefOf(c, i) - if c[s].inum == i then 1 else 0
  {
    var k := |c| - 1;
    if s < k {
      DroppedRefs(c[..k], c'[..k], s, i);
    } else {
      assert c'[..k] == c[..k];
    }
  }

  /** Writing leaves types and link counts alone. */
  lemma ChunkOrphans(a: Abs, b: Abs, i: nat, off: u32, src: seq<byte>, dev: Dev, r: int)
    requires ChunkDone(a, b, i, off, src, dev, r)
    ensures Orphans(b) == Orphans(a)
  {
    hide Content, Overwrite;
  }
}
