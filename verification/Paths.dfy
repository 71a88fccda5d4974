/** fs.c: walking paths. */
module FsPaths {
  import opened Bytes
  import opened Kernel
  import opened CacheState
  import opened Log
  import opened Strings
  import opened FsFormat
  import opened FsState
  import opened FsSpec
  import opened FsInodeSteps
  import opened DirFormat
  import opened Tree
  import opened FsTree
  import opened PathFormat
  import opened FsAlloc
  import opened FsInodes
  import opened FsDirs

  /** skipelem: the next path element goes into `name`, whose bytes behind the terminating NUL stay as
      they were; `rest` has no leading slashes. */
  method Skipelem(path: Path, name: array<byte>) returns (more: bool, rest: Path)
    requires name.Length == DIRSIZ
    modifies name
    ensures more <==> Skip(path) != []
    ensures more ==> rest == Skip(Behind(Skip(path))) && NameOf(name[..]) == FirstElem(Skip(path)) && |rest| < |path|
    ensures !more ==> rest == [] && name[..] == old(name[..])
  {
    hide Slashes, ElemLen, NameOf, ShortName, Behind, FirstElem;
    var i := SkipFrom(path, 0);
    assert From(path, 0) == path;
    if i == |path| {
      return false, [];
    }
    var j := ElemEnd(path, i);
    CopyElem(path, i, j, name);
    var k := SkipFrom(path, j);
    SkipPositions(path, i, j, k);
    return true, From(path, k);
  }

  /** The loop over the characters of an element. */
  method ElemEnd(path: Path, i: nat) returns (j: nat)
    requires i <= |path|
    ensures i <= j <= |path| && j - i == ElemLen(From(path, i))
  {
    j := i;
    while j < |path| && path[j] != SLASH
      invariant i <= j <= |path| && forall k :: i <= k < j ==> path[k] != SLASH
    {
      j := j + 1;
    }
    ElemLenIs(From(path, i), j - i);
  }

  /** The two memmoves of skipelem. */
  method CopyElem(path: Path, i: nat, j: nat, name: array<byte>)
    requires i <= j <= |path| && name.Length == DIRSIZ
    modifies name
    ensures NameOf(name[..]) == ShortName(Part(path, i, j))
    ensures forall k :: j - i < k < DIRSIZ ==> name[k] == old(name[k])
  {
    var len := j - i;
    forall k | 0 <= k < DIRSIZ && k <= len {
      name[k] := if k < len then path[i + k] else 0;
    }
    NameIs(name[..], Part(path, i, j));
  }

  /** The loops over slashes. */
  method SkipFrom(path: Path, i: nat) returns (j: nat)
    requires i <= |path|
    ensures i <= j <= |path| && j - i == Slashes(From(path, i))
  {
    j := i;
    while j < |path| && path[j] == SLASH
      invariant i <= j <= |path| && forall k :: i <= k < j ==> path[k] == SLASH
    {
      j := j + 1;
    }
    SlashesIs(From(path, i), j - i);
  }

  /** The name buffer after the copy. */
  lemma NameIs(b: seq<byte>, e: Path)
    requires |b| == DIRSIZ && forall k :: 0 <= k < DIRSIZ && k <= |e| ==> b[k] == if k < |e| then e[k] else 0
    ensures NameOf(b) == ShortName(e)
  {
    StrLenIs(b, DIRSIZ, |ShortName(e)|);
  }

  /** Slot `s` holds a reference to the linked inode `i`. */
  ghost predicate Holds(a: Abs, icache: seq<Inode>, s: nat, i: nat)
  {
    s < NINODE == |icache| && icache[s].ref > 0 && icache[s].inum == i && 0 < i < |a.ino| && a.ino[i].nlink > 0
  }

  /** iread of a linked inode cannot panic. */
  method ReadLinked(fs: FileSys, s: nat, ghost i: nat)
    requires fs.Valid() && Settled(fs.a, fs.stale, fs.icache) && Holds(fs.a, fs.icache, s, i) && |fs.log.lh| + |fs.log.cache.face.held| < NBUF
    modifies fs`icache, fs.log.cache
    ensures fs.Valid() && fs.Now() == old(fs.Now()).(icache := fs.icache) && Settled(fs.a, fs.stale, fs.icache)
    ensures fs.icache == old(fs.icache)[s := old(fs.icache[s]).(valid := true, d := fs.a.ino[i])]
    ensures Holds(fs.a, fs.icache, s, i) && Loaded(fs.icache, s)
  {
    hide TxnLog.Valid, Consistent, Sized;
    var r := Iread(fs, s);
  }

  /** One pass of the loop in namex; -1 stands for a null pointer. `c` is the inode cache at the start of
      the walk, `i` the inode that slot `s` holds. */
  method NamexStep(fs: FileSys, s: nat, stop: bool, name: seq<byte>, ghost m: Map, ghost i: nat, ghost c: seq<Inode>) returns (r: Res<int>)
    requires fs.Valid() && Settled(fs.a, fs.stale, fs.icache) && InOrder(fs.a, m) && Holds(fs.a, fs.icache, s, i) && Took(c, fs.icache, s)
    requires fs.Room(4) && |fs.log.cache.face.held| <= 2 && Terminated(name, DIRSIZ)
    modifies fs`icache, fs`a, fs`stale, fs.log`lh, fs.log.cache
    ensures fs.Valid() && fs.Now() == old(fs.Now()).(icache := fs.icache) && Settled(fs.a, fs.stale, fs.icache)
    ensures r.Panic? ==> r.why == NoInodeSlots
    ensures r.Panic? ==> Exhausted(fs.sb, fs.View(), fs.a, fs.icache, r.why)
    ensures r.Ok? ==> Took(c, fs.icache, r.value)
    ensures r.Ok? ==>
              var n := TreeOf(fs.a)[i];
              if n.typ != T_DIR || (!stop && Find(n.ents, NameOf(name)) == 0) then r.value == -1
              else if stop then r.value == s && Holds(fs.a, fs.icache, s, i) && Loaded(fs.icache, s)
              else r.value >= 0 && Holds(fs.a, fs.icache, r.value, Find(n.ents, NameOf(name)))
  {
    hide TxnLog.Valid, Consistent, Settled, Took, Got, Searchable, Exhausted;
    NodeFacts(fs.a, m, i);
    ghost var mid := fs.icache;
    ReadLinked(fs, s, i);
    TookRead(c, mid, fs.icache, s, s);
    mid := fs.icache;
    if fs.icache[s].d.typ != T_DIR {
      PutLinked(fs, s);
      TookDropped(c, mid, fs.icache, s);
      return Ok(-1);
    }
    if stop {
      return Ok(s);
    }
    LinkedSearchable(fs.a, m, fs.icache, s);
    hide InOrder;
    ghost var j := Find(DirEnts(fs.a, fs.icache, s), NameOf(name));
    if j != 0 {
      LiveFacts(fs.sb, fs.View(), fs.a, fs.stale, fs.icache, s, Where(DirEnts(fs.a, fs.icache, s), NameOf(name)));
    }
    var hit :- Dirlookup(fs, s, name);
    if hit == Missing {
      PutLinked(fs, s);
      TookDropped(c, mid, fs.icache, s);
      return Ok(-1);
    }
    NamexNext(fs, s, i, j, c, mid, hit.slot);
    return Ok(hit.slot);
  }

  /** The last steps of the pass: the walk goes on from the next inode, and the one before is dropped. */
  method NamexNext(fs: FileSys, s: nat, ghost i: nat, ghost j: nat, ghost c: seq<Inode>, ghost mid: seq<Inode>, next: nat)
    requires fs.Valid() && Settled(fs.a, fs.stale, fs.icache) && Holds(fs.a, mid, s, i) && Took(c, mid, s)
    requires |fs.log.cache.face.held| <= 2 && 0 < j < |fs.a.ino| && fs.a.ino[j].nlink > 0 && Got(mid, fs.icache, j, next)
    modifies fs`icache, fs`a, fs`stale, fs.log`lh, fs.log.cache
    ensures fs.Valid() && fs.Now() == old(fs.Now()).(icache := fs.icache) && Settled(fs.a, fs.stale, fs.icache)
    ensures Holds(fs.a, fs.icache, next, j) && Took(c, fs.icache, next)
  {
    hide TxnLog.Valid, Consistent, Settled, Took;
    ghost var got := fs.icache;
    PutLinked(fs, s);
    TookNext(c, mid, got, fs.icache, s, j, next);
  }

  /** What namex promises: the inode that folding lookups over the path elements leads to, or its parent;
      exactly one more reference to it, or none if there is no such inode. */
  ghost predicate Resolved(a: Abs, c: seq<Inode>, c': seq<Inode>, g: nat, r: int)
  {
    Took(c, c', r) && if g == 0 then r == -1 else r >= 0 && Holds(a, c', r, g)
  }

  lemma OrderSized(a: Abs, m: Map)
    requires InOrder(a, m)
    ensures |a.ino| == |a.file| && Sized(a)
  {
  }

  /** namex behind the first iget: `root` holds the root directory, `c` is the inode cache before. */
  method WalkPath(fs: FileSys, root: nat, path: Path, parent: bool, name: array<byte>, ghost m: Map, ghost c: seq<Inode>) returns (r: Res<int>)
    requires fs.Valid() && Settled(fs.a, fs.stale, fs.icache) && InOrder(fs.a, m) && name.Length == DIRSIZ
    requires Holds(fs.a, fs.icache, root, ROOTINO) && Took(c, fs.icache, root)
    requires fs.Room(4) && |fs.log.cache.face.held| <= 2
    modifies fs`icache, fs`a, fs`stale, fs.log`lh, fs.log.cache, name
    ensures fs.Valid() && fs.Now() == old(fs.Now()).(icache := fs.icache) && Settled(fs.a, fs.stale, fs.icache)
    ensures r.Panic? ==> r.why == NoInodeSlots
    ensures r.Panic? ==> Exhausted(fs.sb, fs.View(), fs.a, fs.icache, r.why)
    ensures r.Ok? ==> Resolved(fs.a, c, fs.icache, Goal(TreeOf(fs.a), ROOTINO, Elements(path), parent), r.value)
    ensures r.Ok? && r.value >= 0 && parent ==>
              Loaded(fs.icache, r.value) && Elements(path) != [] && NameOf(name[..]) == Elements(path)[|Elements(path)| - 1]
  {
    hide TxnLog.Valid, Consistent, Settled, Took, Elements, Goal, Skip, Behind, FirstElem, Tail, NameOf, Exhausted, TreeOf, Find, Loaded, Sized;
    OrderSized(fs.a, m);
    ghost var p, t, e := fs.Now(), TreeOf(fs.a), Elements(path);
    hide InOrder;
    TailStart(e);
    var s: nat, rest: Path := root, path;
    ghost var i: nat := ROOTINO;
    var more := true;
    while more
      invariant fs.Valid() && fs.Now() == p.(icache := fs.icache) && Settled(fs.a, fs.stale, fs.icache)
      invariant Holds(fs.a, fs.icache, s, i) && Took(c, fs.icache, s)
      invariant Goal(t, i, Elements(rest), parent) == Goal(t, ROOTINO, e, parent) && Tail(e, Elements(rest))
      invariant !more ==> Elements(rest) == []
      decreases |rest|, more
    {
      var next;
      more, next := Skipelem(rest, name);
      NoElements(rest);
      if more {
        GoalStep(t, i, rest, parent);
        ElementsStep(rest);
        TailStep(e, NameOf(name[..]), Elements(next));
        var n :- NamexStep(fs, s, parent && next == [], name[..], m, i, c);
        if n < 0 || (parent && next == []) {
          return Ok(n);
        }
        i, s, rest := Find(t[i].ents, NameOf(name[..])), n, next;
      }
    }
    NoGoal(t, i);
    if parent {
      ghost var mid := fs.icache;
      PutLinked(fs, s);
      TookDropped(c, mid, fs.icache, s);
      return Ok(-1);
    }
    return Ok(s);
  }

  /** namex. */
  method Namex(fs: FileSys, path: Path, parent: bool, name: array<byte>, ghost m: Map) returns (r: Res<int>)
    requires fs.Valid() && Settled(fs.a, fs.stale, fs.icache) && InOrder(fs.a, m) && name.Length == DIRSIZ
    requires fs.Room(4) && |fs.log.cache.face.held| <= 2
    modifies fs`icache, fs`a, fs`stale, fs.log`lh, fs.log.cache, name
    ensures fs.Valid() && fs.Now() == old(fs.Now()).(icache := fs.icache) && Settled(fs.a, fs.stale, fs.icache)
    ensures r.Panic? ==> r.why == NoInodeSlots
    ensures r.Panic? ==> Exhausted(fs.sb, fs.View(), fs.a, fs.icache, r.why)
    ensures r.Ok? ==> Resolved(fs.a, old(fs.icache), fs.icache, Goal(TreeOf(fs.a), ROOTINO, Elements(path), parent), r.value)
    ensures r.Ok? && r.value >= 0 && parent ==>
              Loaded(fs.icache, r.value) && Elements(path) != [] && NameOf(name[..]) == Elements(path)[|Elements(path)| - 1]
  {
    hide TxnLog.Valid, Consistent, Settled, Took, Got, Elements, Goal, NameOf, Resolved, Exhausted;
    ghost var c := fs.icache;
    RootFacts(fs.sb, fs.View(), fs.a, fs.stale, fs.icache, m);
    hide InOrder;
    var root :- Iget(fs, ROOTINO);
    GotSettled(fs.sb, fs.View(), fs.a, fs.stale, c, fs.icache, ROOTINO, root);
    GotSlot(c, fs.icache, ROOTINO, root);
    TookNothing(c);
    TookGot(c, c, fs.icache, ROOTINO, root);
    r := WalkPath(fs, root, path, parent, name, m, c);
  }
}
