/** What paths mean before and after names are entered and removed. */
module PathLaws {
  import opened FsFormat
  import opened DirFormat
  import opened Tree
  import opened PathFormat

  /** Every name that a directory of `t` has, it still has in `u`, for the same inode. */
  ghost predicate NamesKept(t: Nodes, u: Nodes)
  {
    && |u| == |t|
    && forall x :: 0 <= x < |t| && t[x].typ == T_DIR ==> u[x].typ == T_DIR && EntsKept(t[x].ents, u[x].ents)
  }

  ghost predicate EntsKept(e: seq<Ent>, f: seq<Ent>)
  {
    forall n: Name :: Find(e, n) != 0 ==> Find(f, n) == Find(e, n)
  }

  /** Then every path that leads somewhere still leads there. */
  lemma {:induction false} GoalKept(t: Nodes, u: Nodes, i: nat, names: seq<Name>, parent: bool)
    requires NamesKept(t, u) && Goal(t, i, names, parent) != 0
    ensures Goal(u, i, names, parent) == Goal(t, i, names, parent)
    decreases |names|
  {
    hide Find;
    if names != [] && !(parent && |names| == 1) {
      GoalKept(t, u, Find(t[i].ents, names[0]), names[1..], parent);
    }
  }

  /** A path leads to what its last element names in the directory that the rest leads to. */
  lemma {:induction false} GoalLast(t: Nodes, i: nat, names: seq<Name>)
    requires names != [] && Goal(t, i, names, true) != 0
    ensures var d := Goal(t, i, names, true);
            d < |t| && t[d].typ == T_DIR && Goal(t, i, names, false) == Find(t[d].ents, names[|names| - 1])
    decreases |names|
  {
    hide Find;
    if |names| > 1 {
      GoalLast(t, Find(t[i].ents, names[0]), names[1..]);
    } else {
      assert names[1..] == [];
    }
  }

  /** create enters one name and keeps all others. */
  lemma CreatedKeeps(t: Nodes, m: Map, u: Nodes, d: nat, k: nat, i: nat, name: Name)
    requires CanCreate(t, m, d, k, i, name) && Created(t, u, d, k, i, name)
    ensures NamesKept(t, u) && u[d].typ == T_DIR && Find(u[d].ents, name) == i
  {
    CreateFacts(t, m, d, k, i, name);
    FindInsert(t[d].ents, k, i, name);
    hide Find;
  }

  /** So the path of the new inode leads to it, and every other one leads where it did, if anywhere. */
  lemma CreatedMeans(t: Nodes, m: Map, u: Nodes, names: seq<Name>, k: nat, i: nat)
    requires names != [] && var d := Goal(t, ROOTINO, names, true);
             d != 0 && CanCreate(t, m, d, k, i, names[|names| - 1]) && Created(t, u, d, k, i, names[|names| - 1])
    ensures Goal(t, ROOTINO, names, false) == 0 && Goal(u, ROOTINO, names, false) == i
    ensures forall p: seq<Name> :: Goal(t, ROOTINO, p, false) != 0 ==> Goal(u, ROOTINO, p, false) == Goal(t, ROOTINO, p, false)
  {
    var d := Goal(t, ROOTINO, names, true);
    CreatedKeeps(t, m, u, d, k, i, names[|names| - 1]);
    hide Find, CanCreate, Created, NamesKept;
    GoalLast(t, ROOTINO, names);
    GoalKept(t, u, ROOTINO, names, true);
    GoalLast(u, ROOTINO, names);
    forall p: seq<Name> | Goal(t, ROOTINO, p, false) != 0 ensures Goal(u, ROOTINO, p, false) == Goal(t, ROOTINO, p, false) {
      GoalKept(t, u, ROOTINO, p, false);
    }
  }

  /** On the way along the path from directory `i`, `name` is looked up in directory `d`. */
  predicate Through(t: Nodes, i: nat, names: seq<Name>, d: nat, name: Name)
    decreases |names|
  {
    && names != [] && i < |t| && t[i].typ == T_DIR
    && ((i == d && names[0] == name) || (Find(t[i].ents, names[0]) != 0 && Through(t, Find(t[i].ents, names[0]), names[1..], d, name)))
  }

  /** Entry `k` of directory `d`, which named inode `i`, is gone; what has become of the inode itself does not matter. */
  ghost predicate NameGone(t: Nodes, u: Nodes, d: nat, k: nat, i: nat)
  {
    && |u| == |t| && d < |t| && k < |t[d].ents| && u[d].typ == T_DIR && u[d].ents == t[d].ents[k := CLEARED]
    && forall x :: 0 <= x < |t| && x != i && x != d ==> u[x] == t[x]
  }

  /** No other entry on the way to anything names it. */
  lemma NotThere(t: Nodes, m: Map, d: nat, k: nat, i: nat, j: nat, name: Name)
    requires CanUnlink(t, m, d, k, i) && LinkedDir(t, j) && j != i && Find(t[j].ents, name) != 0 && !(j == d && name == t[d].ents[k].name)
    ensures var x := Find(t[j].ents, name); x != i && x < |t| && t[x].nlink > 0
  {
    var p := Place(j, Where(t[j].ents, name));
    EntryLinked(t, m, j, p.k);
    DotsFirst(t, m, j, p.k);
    assert DirOk(t, m, j);
    if IsLink(t, p, i) {
      OnlyLink(t, m, d, k, i, p);
    }
  }

  /** unlink: a path that leads through the removed name leads nowhere, every other one leads where it did. */
  lemma {:induction false} GoneMeans(t: Nodes, m: Map, u: Nodes, d: nat, k: nat, i: nat, j: nat, names: seq<Name>)
    requires CanUnlink(t, m, d, k, i) && NameGone(t, u, d, k, i) && j != i && j < |t| && t[j].nlink > 0
    ensures Goal(u, j, names, false) == if Through(t, j, names, d, t[d].ents[k].name) then 0 else Goal(t, j, names, false)
    decreases |names|
  {
    if names != [] && t[j].typ == T_DIR {
      UnlinkFacts(t, m, d, k, i);
      FindRemove(t[d].ents, k);
      var x := Find(t[j].ents, names[0]);
      hide Find;
      if x != 0 && !(j == d && names[0] == t[d].ents[k].name) {
        NotThere(t, m, d, k, i, j, names[0]);
        GoneMeans(t, m, u, d, k, i, x, names[1..]);
      }
    }
  }

  lemma GoneFromRoot(t: Nodes, m: Map, u: Nodes, d: nat, k: nat, i: nat)
    requires CanUnlink(t, m, d, k, i) && NameGone(t, u, d, k, i)
    ensures forall p: seq<Name> :: Goal(u, ROOTINO, p, false) == if Through(t, ROOTINO, p, d, t[d].ents[k].name) then 0 else Goal(t, ROOTINO, p, false)
  {
    UnlinkFacts(t, m, d, k, i);
    forall p: seq<Name> ensures Goal(u, ROOTINO, p, false) == if Through(t, ROOTINO, p, d, t[d].ents[k].name) then 0 else Goal(t, ROOTINO, p, false) {
      GoneMeans(t, m, u, d, k, i, ROOTINO, p);
    }
  }

  /** A path leads through the name of its own last element. */
  lemma {:induction false} ThroughLast(t: Nodes, i: nat, names: seq<Name>)
    requires names != [] && Goal(t, i, names, true) != 0
    ensures Through(t, i, names, Goal(t, i, names, true), names[|names| - 1])
    decreases |names|
  {
    hide Find;
    if |names| > 1 {
      ThroughLast(t, Find(t[i].ents, names[0]), names[1..]);
    }
  }
}
