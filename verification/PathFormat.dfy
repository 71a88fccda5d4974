/** Path names: the elements that repeated skipelem delivers are the non-empty parts between slashes. */
module PathFormat {
  import opened Bytes
  import opened DirFormat
  import opened Tree
  import opened FsFormat

  const SLASH: byte := 47

  /** A path as a character string, without its terminating NUL. */
  type Path = s: seq<byte> | forall k :: 0 <= k < |s| ==> s[k] != 0

  /** A part of a path is a path. */
  function Part(p: Path, i: nat, j: nat): (q: Path)
    requires i <= j <= |p|
    ensures q == p[i..j]
  {
    assert forall k :: 0 <= k < j - i ==> p[i..j][k] == p[i + k];
    p[i..j]
  }

  function From(p: Path, i: nat): (q: Path)
    requires i <= |p|
    ensures q == p[i..]
  {
    assert forall k :: 0 <= k < |p| - i ==> p[i..][k] == p[i + k];
    p[i..]
  }

  /** The number of slashes at the front. */
  function Slashes(p: Path): (n: nat)
    ensures n <= |p| && (n < |p| ==> p[n] != SLASH)
  {
    if p == [] || p[0] != SLASH then 0 else 1 + Slashes(From(p, 1))
  }

  /** The length of the element at the front. */
  function ElemLen(p: Path): (n: nat)
    ensures n <= |p| && (n < |p| ==> p[n] == SLASH)
  {
    if p == [] || p[0] == SLASH then 0 else 1 + ElemLen(From(p, 1))
  }

  lemma {:induction false} SlashesIs(p: Path, n: nat)
    requires n <= |p| && (forall k :: 0 <= k < n ==> p[k] == SLASH) && (n < |p| ==> p[n] != SLASH)
    ensures Slashes(p) == n
  {
    if n > 0 {
      SlashesIs(From(p, 1), n - 1);
    }
  }

  lemma {:induction false} ElemLenIs(p: Path, n: nat)
    requires n <= |p| && (forall k :: 0 <= k < n ==> p[k] != SLASH) && (n < |p| ==> p[n] == SLASH)
    ensures ElemLen(p) == n
  {
    if n > 0 {
      ElemLenIs(From(p, 1), n - 1);
    }
  }

  /** An element as a name: all of it, or as much as a directory entry holds. */
  function ShortName(p: Path): (n: Name)
    ensures n <= p && |n| == if |p| < DIRSIZ then |p| else DIRSIZ
  {
    if |p| > DIRSIZ then Part(p, 0, DIRSIZ) else p
  }

  /** The path from its first element on. */
  function Skip(p: Path): (q: Path)
    ensures |q| <= |p| && (q == [] || q[0] != SLASH)
  {
    From(p, Slashes(p))
  }

  /** The path behind its first element. */
  function Behind(q: Path): (r: Path)
    requires q != [] && q[0] != SLASH
    ensures |r| < |q|
  {
    From(q, ElemLen(q))
  }

  function FirstElem(q: Path): (n: Name)
  {
    ShortName(Part(q, 0, ElemLen(q)))
  }

  /** The elements of a path in the order in which skipelem delivers them. */
  function Elements(p: Path): (e: seq<Name>)
    decreases |p|
  {
    var q := Skip(p);
    if q == [] then [] else [FirstElem(q)] + Elements(Behind(q))
  }

  /** All parts between slashes, empty ones included. */
  function Parts(p: Path): (r: seq<Path>)
    ensures |r| > 0
  {
    if p == [] then [[]]
    else if p[0] == SLASH then [[]] + Parts(From(p, 1))
    else
      var r := Parts(From(p, 1));
      [[p[0]] + r[0]] + r[1..]
  }

  function Joined(r: seq<Path>): (p: seq<byte>)
    requires r != []
  {
    if |r| == 1 then r[0] else r[0] + [SLASH] + Joined(r[1..])
  }

  /** They are the parts: none of them has a slash in it, and with slashes between them they are the path. */
  lemma {:induction false} PartsJoined(p: Path)
    ensures Joined(Parts(p)) == p && forall k :: 0 <= k < |Parts(p)| ==> SLASH !in Parts(p)[k]
  {
    if p != [] {
      var q := From(p, 1);
      PartsJoined(q);
      var r := Parts(q);
      assert p == [p[0]] + q;
      if p[0] == SLASH {
        assert Parts(p) == [[]] + r && Parts(p)[1..] == r;
      } else {
        assert Parts(p) == [[p[0]] + r[0]] + r[1..] && Parts(p)[1..] == r[1..];
      }
    }
  }

  function NonEmpty(r: seq<Path>): (e: seq<Name>)
  {
    if r == [] then [] else if r[0] == [] then NonEmpty(r[1..]) else [ShortName(r[0])] + NonEmpty(r[1..])
  }

  lemma {:induction false} PartsSlashes(p: Path)
    ensures NonEmpty(Parts(p)) == NonEmpty(Parts(Skip(p)))
  {
    if p != [] && p[0] == SLASH {
      PartsSlashes(From(p, 1));
      assert Parts(p)[1..] == Parts(From(p, 1));
      assert Skip(From(p, 1)) == Skip(p);
    } else {
      assert Skip(p) == p;
    }
  }

  lemma {:induction false} PartsElem(p: Path)
    ensures var n := ElemLen(p); Parts(p)[0] == Part(p, 0, n) && Parts(p)[1..] == if n < |p| then Parts(From(p, n + 1)) else []
  {
    if p != [] && p[0] != SLASH {
      PartsElem(From(p, 1));
      var n := ElemLen(From(p, 1));
      assert Part(p, 0, 1 + n) == [p[0]] + Part(From(p, 1), 0, n);
      if n < |p| - 1 {
        assert From(From(p, 1), n + 1) == From(p, n + 2);
      }
    }
  }

  /** The parts of a path that starts with a slash. */
  lemma PartsBehind(p: Path, n: nat)
    requires n < |p| && p[n] == SLASH
    ensures NonEmpty(Parts(From(p, n))) == NonEmpty(Parts(From(p, n + 1)))
  {
    var q := From(p, n);
    assert From(q, 1) == From(p, n + 1);
    assert Parts(q)[1..] == Parts(From(q, 1));
  }

  lemma PartsStep(q: Path)
    requires q != [] && q[0] != SLASH
    ensures NonEmpty(Parts(q)) == [FirstElem(q)] + NonEmpty(Parts(Behind(q)))
  {
    PartsElem(q);
    var n, r := ElemLen(q), Parts(q);
    assert n > 0;
    hide Parts, ElemLen;
    assert r[0] == Part(q, 0, n) != [];
    if n < |q| {
      PartsBehind(q, n);
    } else {
      NoParts(Behind(q));
    }
  }

  lemma NoParts(p: Path)
    requires p == []
    ensures NonEmpty(Parts(p)) == []
  {
  }

  /** Repeated skipelem yields exactly the non-empty slash-separated components. */
  lemma {:induction false} ElementsAreParts(p: Path)
    ensures Elements(p) == NonEmpty(Parts(p))
    decreases |p|
  {
    hide Slashes, ElemLen, Skip, Behind, FirstElem;
    PartsSlashes(p);
    var q := Skip(p);
    if q != [] {
      PartsStep(q);
      ElementsAreParts(Behind(q));
    }
  }

  /** Leading slashes do not matter. */
  lemma ElementsSkip(p: Path)
    ensures Elements(Skip(p)) == Elements(p) && Skip(Skip(p)) == Skip(p)
  {
    var q := Skip(p);
    SlashesIs(q, 0);
    assert From(q, 0) == q;
  }

  /** What namex looks for: the inode of the path, or of its parent. */
  function Goal(t: Nodes, i: nat, names: seq<Name>, parent: bool): (r: nat)
    decreases |names|
  {
    if names == [] then (if parent then 0 else i)
    else if i >= |t| || t[i].typ != T_DIR then 0
    else if parent && |names| == 1 then i
    else if Find(t[i].ents, names[0]) == 0 then 0
    else Goal(t, Find(t[i].ents, names[0]), names[1..], parent)
  }

  /** It is the fold of directory lookup over the path elements, all but the last in parent mode. */
  lemma {:induction false} GoalIsWalk(t: Nodes, i: nat, names: seq<Name>)
    ensures Goal(t, i, names, false) == Walk(t, i, names)
    ensures names != [] ==>
              var r := Walk(t, i, names[..|names| - 1]);
              Goal(t, i, names, true) == if r < |t| && t[r].typ == T_DIR && (r != 0 || |names| == 1) then r else 0
    decreases |names|
  {
    if names != [] && i < |t| && t[i].typ == T_DIR && Find(t[i].ents, names[0]) != 0 {
      GoalIsWalk(t, Find(t[i].ents, names[0]), names[1..]);
      assert |names| > 1 ==> names[..|names| - 1][1..] == names[1..][..|names[1..]| - 1];
    }
  }

  /** One call of skipelem takes off one element. */
  lemma ElementsStep(p: Path)
    requires Skip(p) != []
    ensures Elements(p) == [FirstElem(Skip(p))] + Elements(Skip(Behind(Skip(p))))
    ensures Elements(Skip(Behind(Skip(p)))) == [] <==> Skip(Behind(Skip(p))) == []
  {
    hide Slashes, ElemLen;
    ElementsSkip(Behind(Skip(p)));
  }

  /** And one directory lookup. */
  lemma GoalStep(t: Nodes, i: nat, p: Path, parent: bool)
    requires Skip(p) != []
    ensures var n, next := FirstElem(Skip(p)), Skip(Behind(Skip(p)));
            Goal(t, i, Elements(p), parent) ==
            if i >= |t| || t[i].typ != T_DIR then 0
            else if parent && next == [] then i
            else if Find(t[i].ents, n) == 0 then 0
            else Goal(t, Find(t[i].ents, n), Elements(next), parent)
  {
    ElementsStep(p);
    hide Elements, Skip, Behind, FirstElem;
    assert Elements(p)[1..] == Elements(Skip(Behind(Skip(p))));
  }

  lemma NoElements(p: Path)
    ensures Skip(p) == [] <==> Elements(p) == []
  {
  }

  lemma NoGoal(t: Nodes, i: nat)
    ensures Goal(t, i, [], true) == 0 && Goal(t, i, [], false) == i
  {
  }

  /** `r` is what is left of the elements `e`: it ends in the same element. */
  ghost predicate Tail(e: seq<Name>, r: seq<Name>)
  {
    r != [] ==> e != [] && e[|e| - 1] == r[|r| - 1]
  }

  lemma TailStep(e: seq<Name>, n: Name, r: seq<Name>)
    requires Tail(e, [n] + r)
    ensures Tail(e, r) && (r == [] ==> e != [] && e[|e| - 1] == n)
  {
  }

  lemma TailStart(e: seq<Name>)
    ensures Tail(e, e)
  {
  }

  /** The parent of a path is a directory. */
  lemma {:induction false} GoalDir(t: Nodes, i: nat, names: seq<Name>)
    ensures var g := Goal(t, i, names, true); g != 0 ==> g < |t| && t[g].typ == T_DIR && names != []
    decreases |names|
  {
    if names != [] && i < |t| && t[i].typ == T_DIR && |names| != 1 && Find(t[i].ents, names[0]) != 0 {
      GoalDir(t, Find(t[i].ents, names[0]), names[1..]);
    }
  }

  /** The three positions that skipelem finds: the element from `i` to `j`, the next one from `k` on. */
  lemma SkipPositions(p: Path, i: nat, j: nat, k: nat)
    requires i == Slashes(p) < |p| && i <= j <= k <= |p| && j - i == ElemLen(From(p, i)) && k - j == Slashes(From(p, j))
    ensures Skip(p) != [] && FirstElem(Skip(p)) == ShortName(Part(p, i, j)) && From(p, k) == Skip(Behind(Skip(p))) && k > 0
  {
    hide Slashes, ElemLen, ShortName, From, Part;
    PartFrom(p, i, j);
    FromFrom(p, i, j);
    FromFrom(p, j, k);
  }

  lemma PartFrom(p: Path, i: nat, j: nat)
    requires i <= j <= |p|
    ensures Part(From(p, i), 0, j - i) == Part(p, i, j)
  {
  }

  lemma FromFrom(p: Path, i: nat, j: nat)
    requires i <= j <= |p|
    ensures From(From(p, i), j - i) == From(p, j)
  {
  }
}
