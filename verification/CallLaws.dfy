/** Laws over several calls: what one call has done, the next ones see. */
module CallLaws {
  import opened Bytes
  import opened RedoLog
  import opened FsFormat
  import opened DirFormat
  import opened FsState
  import opened FsInodeSteps
  import opened FsContent
  import opened PathFormat
  import opened PathLaws
  import opened Tree
  import opened FsTree
  import opened FsDisk
  import opened FileState
  import opened FileSteps
  import opened FsOrphans
  import opened Calls

  /** The inode that a path leads to, 0 if to none. */
  ghost function Meant(a: Abs, path: Path): (i: nat)
    requires |a.ino| == |a.file| && Sized(a)
  {
    Goal(TreeOf(a), ROOTINO, Elements(path), false)
  }

  /** Every path that leads somewhere in `a` leads there in `b`. */
  ghost predicate PathsKept(a: Abs, b: Abs)
    requires |a.ino| == |a.file| && Sized(a) && |b.ino| == |b.file| && Sized(b)
  {
    forall p: Path :: Meant(a, p) != 0 ==> Meant(b, p) == Meant(a, p)
  }

  lemma SteadySized(s: Snap, left: set<nat>)
    requires Steady(s, left)
    ensures |s.a.ino| == |s.a.file| && Sized(s.a) && InOrder(s.a, s.m) && |s.ft| == NFILE && |s.icache| == NINODE
  {
    hide Sized, DirSizes, TreeOk, OrphansOpen, NoDirWritable;
  }

  // Making nodes.

  /** Creating enters the name. */
  lemma CreatedPath(a: Abs, m: Map, b: Abs, names: seq<Name>, i: nat, typ: s16, major: s16, minor: s16)
    requires InOrder(a, m) && |b.ino| == |b.file| && Sized(b) && typ != 0 && names != []
    requires var t, d := TreeOf(a), Goal(TreeOf(a), ROOTINO, names, true);
             && 0 < d < |t| && 0 < i < |t| && t[i].typ == 0 && Find(t[d].ents, names[|names| - 1]) == 0
             && CreatedIn(a, b, d, FirstFree(t[d].ents), i, names[|names| - 1], typ, major, minor)
    ensures Goal(TreeOf(b), ROOTINO, names, false) == i && Goal(TreeOf(a), ROOTINO, names, false) == 0
    ensures forall p: seq<Name> :: Goal(TreeOf(a), ROOTINO, p, false) != 0 ==> Goal(TreeOf(b), ROOTINO, p, false) == Goal(TreeOf(a), ROOTINO, p, false)
  {
    var t, d := TreeOf(a), Goal(TreeOf(a), ROOTINO, names, true);
    var k := FirstFree(t[d].ents);
    GoalLinked(t, m, names);
    GoalDir(t, ROOTINO, names);
    NodeFacts(a, m, i);
    DirFacts(a, m, d);
    CreateDone(a, b, m, d, k, i, names[|names| - 1], typ, major, minor);
    assert CanCreate(t, m, d, k, i, names[|names| - 1]);
    CreatedMeans(t, m, TreeOf(b), names, k, i);
  }

  /** The inode that a successful mkdir or mknod has made. */
  lemma MadeInode(a: Abs, m: Map, b: Abs, m': Map, names: seq<Name>, typ: s16, major: s16, minor: s16, r: int) returns (i: nat)
    requires NodeMade(a, m, b, m', names, typ, major, minor, r) && r == 0
    ensures |a.ino| == |a.file| && Sized(a) && names != []
    ensures var t, d := TreeOf(a), Goal(TreeOf(a), ROOTINO, names, true);
            && 0 < d < |t| && 0 < i < |t| && t[i].typ == 0 && Find(t[d].ents, names[|names| - 1]) == 0
            && CreatedIn(a, b, d, FirstFree(t[d].ents), i, names[|names| - 1], typ, major, minor)
  {
    hide Goal, Find, FirstFree, CreatedIn, Sized, TreeOf;
    var t, d := TreeOf(a), Goal(TreeOf(a), ROOTINO, names, true);
    i :| 0 < i < |t| && t[i].typ == 0 && CreatedIn(a, b, d, FirstFree(t[d].ents), i, names[|names| - 1], typ, major, minor);
  }

  lemma CreatedFields(a: Abs, b: Abs, d: nat, k: nat, i: nat, name: Name, typ: s16, major: s16, minor: s16)
    requires CreatedIn(a, b, d, k, i, name, typ, major, minor)
    ensures i < |a.ino| == |b.ino| && b.ino[i].typ == typ && b.ino[i].major == major && b.ino[i].minor == minor && b.ino[i].nlink == 1
  {
  }

  /** mkdir and mknod: on success the path, which led nowhere, leads to a new inode of that type with those device numbers
      and one link, and all other paths lead where they did. */
  lemma MadeMeans(s: Snap, t: Snap, left: set<nat>, path: Path, typ: s16, major: s16, minor: s16, r: int) returns (i: nat)
    requires Steady(s, left) && Steady(t, left) && NodeMade(s.a, s.m, t.a, t.m, Elements(path), typ, major, minor, r) && r == 0 && typ != 0
    ensures 0 < i < |s.a.ino| == |t.a.ino| && s.a.ino[i].typ == 0 && t.a.ino[i].typ == typ
    ensures t.a.ino[i].major == major && t.a.ino[i].minor == minor && t.a.ino[i].nlink == 1
    ensures |s.a.ino| == |s.a.file| && Sized(s.a) && |t.a.ino| == |t.a.file| && Sized(t.a)
    ensures Meant(s.a, path) == 0 && Meant(t.a, path) == i && PathsKept(s.a, t.a)
  {
    hide Steady, InOrder, Goal, Find, FirstFree, Sized, NodeOf, NodeMade, CreatedIn;
    SteadySized(s, left);
    SteadySized(t, left);
    var names := Elements(path);
    i := MadeInode(s.a, s.m, t.a, t.m, names, typ, major, minor, r);
    var d := Goal(TreeOf(s.a), ROOTINO, names, true);
    CreatedFields(s.a, t.a, d, FirstFree(TreeOf(s.a)[d].ents), i, names[|names| - 1], typ, major, minor);
    CreatedPath(s.a, s.m, t.a, names, i, typ, major, minor);
    NodeFacts(s.a, s.m, i);
  }

  // Opening.

  /** Open file `f` refers to inode `i` from offset `off`. */
  ghost predicate Refers(s: Snap, f: nat, i: nat, off: nat)
  {
    f < |s.ft| && s.ft[f].ref > 0 && s.ft[f].ip < |s.icache| && s.icache[s.ft[f].ip].ref > 0 && s.icache[s.ft[f].ip].inum == i && s.ft[f].off == off
  }

  predicate HasRoom(ft: seq<File>)
  {
    exists f :: 0 <= f < |ft| && ft[f].ref == 0
  }

  /** What open has found, and the file that it has made of it. */
  ghost predicate OpenedAs(s: Snap, t: Snap, mid: seq<Inode>, slot: int, names: seq<Name>, omode: nat, r: int)
  {
    && OpenedInode(s.a, s.icache, s.m, t.a, mid, t.m, names, omode, slot)
    && if slot < 0 || !HasRoom(s.ft) then r == -1 && t.ft == s.ft && Took(s.icache, t.icache, -1)
       else
         && 0 <= r < |s.ft| && s.ft[r].ref == 0 && t.icache == mid
         && t.ft == s.ft[r := File(1, true, !Has(omode, O_WRONLY), Has(omode, O_WRONLY) || Has(omode, O_RDWR), slot, 0)]
  }

  lemma OpenSplit(s: Snap, t: Snap, path: Path, omode: nat, x: Answer) returns (mid: seq<Inode>, slot: int)
    requires Effect(OpOpen(path, omode), s, t, x)
    ensures OpenedAs(s, t, mid, slot, Elements(path), omode, x.r)
  {
    hide OpenedInode, Elements, Took, Has;
    mid, slot :| OpenedInode(s.a, s.icache, s.m, t.a, mid, t.m, Elements(path), omode, slot)
      && if slot < 0 || (forall f :: 0 <= f < |s.ft| ==> s.ft[f].ref > 0) then x.r == -1 && t.ft == s.ft && Took(s.icache, t.icache, -1)
         else
           && 0 <= x.r < |s.ft| && s.ft[x.r].ref == 0 && (forall f :: 0 <= f < x.r ==> s.ft[f].ref > 0) && t.icache == mid
           && t.ft == s.ft[x.r := File(1, true, !Has(omode, O_WRONLY), Has(omode, O_WRONLY) || Has(omode, O_RDWR), slot, 0)];
  }

  /** The file that open makes refers to the inode that it found. */
  lemma OpenRefers(s: Snap, t: Snap, mid: seq<Inode>, slot: int, names: seq<Name>, omode: nat, r: int)
    requires OpenedAs(s, t, mid, slot, names, omode, r)
    ensures (r >= 0 <==> slot >= 0 && HasRoom(s.ft)) && -1 <= slot < |mid|
    ensures r >= 0 ==> Refers(t, r, mid[slot].inum, 0) && t.ft[r].readable == !Has(omode, O_WRONLY)
    ensures r >= 0 ==> t.ft[r].writable == (Has(omode, O_WRONLY) || Has(omode, O_RDWR))
  {
    OpenedFacts(s.a, s.icache, s.m, t.a, mid, t.m, names, omode, slot);
    hide OpenedInode, Took, Has, HasRoom;
  }

  /** open without O_CREATE: it succeeds exactly if the path leads to something that may be opened that way and the table
      has room; the file is that inode from its beginning, and nothing on the disk changes. */
  lemma OpenFinds(s: Snap, t: Snap, left: set<nat>, path: Path, omode: nat, x: Answer)
    requires Steady(s, left) && Effect(OpOpen(path, omode), s, t, x) && !Has(omode, O_CREATE)
    ensures t.a == s.a && |s.a.ino| == |s.a.file| && Sized(s.a)
    ensures var i := Meant(s.a, path);
            && (x.r >= 0 <==> 0 < i < |s.a.ino| && !(s.a.ino[i].typ == T_DIR && omode != 0) && HasRoom(s.ft))
            && (x.r >= 0 ==> Refers(t, x.r, i, 0) && t.ft[x.r].readable == !Has(omode, O_WRONLY))
            && (x.r >= 0 ==> t.ft[x.r].writable == (Has(omode, O_WRONLY) || Has(omode, O_RDWR)))
  {
    hide Steady, Goal, Elements, InOrder, Sized, Has, Effect, OpenedAs, HasRoom, Took, Refers;
    SteadySized(s, left);
    var mid, slot := OpenSplit(s, t, path, omode, x);
    OpenRefers(s, t, mid, slot, Elements(path), omode, x.r);
    OpenGoal(s, t, mid, slot, Elements(path), omode, x.r);
    var i := Meant(s.a, path);
    if i < |s.a.ino| {
      NodeFacts(s.a, s.m, i);
    }
  }

  lemma OpenGoal(s: Snap, t: Snap, mid: seq<Inode>, slot: int, names: seq<Name>, omode: nat, r: int)
    requires OpenedAs(s, t, mid, slot, names, omode, r) && !Has(omode, O_CREATE)
    ensures t.a == s.a && t.m == s.m && |s.a.ino| == |s.a.file| && Sized(s.a) && slot < |mid|
    ensures var u, i := TreeOf(s.a), Goal(TreeOf(s.a), ROOTINO, names, false);
            if i == 0 || i >= |u| || (u[i].typ == T_DIR && omode != 0) then slot == -1 else slot >= 0 && mid[slot].inum == i
  {
    hide Goal, Has, HasRoom, Took, Sized;
  }

  /** With O_CREATE or without: the file is the inode that the path now leads to, a linked one; and every other path leads
      where it did. */
  lemma OpenMeans(s: Snap, t: Snap, left: set<nat>, path: Path, omode: nat, x: Answer)
    requires Steady(s, left) && Steady(t, left) && Effect(OpOpen(path, omode), s, t, x)
    ensures |s.a.ino| == |s.a.file| && Sized(s.a) && |t.a.ino| == |t.a.file| && Sized(t.a) && PathsKept(s.a, t.a)
    ensures x.r >= 0 ==> 0 < Meant(t.a, path) < |t.a.ino| && Refers(t, x.r, Meant(t.a, path), 0) && t.a.ino[Meant(t.a, path)].nlink > 0
    ensures x.r >= 0 ==> t.ft[x.r].readable == !Has(omode, O_WRONLY) && t.ft[x.r].writable == (Has(omode, O_WRONLY) || Has(omode, O_RDWR))
  {
    hide Steady, Goal, Elements, InOrder, Sized, Has, Effect, OpenedAs, HasRoom, Took, Refers;
    SteadySized(s, left);
    SteadySized(t, left);
    var mid, slot := OpenSplit(s, t, path, omode, x);
    OpenRefers(s, t, mid, slot, Elements(path), omode, x.r);
    if slot >= 0 {
      OpenLinked(s, t, mid, slot, Elements(path), omode, x.r);
    }
    if Has(omode, O_CREATE) {
      CreateGoal(s, t, mid, slot, Elements(path), omode, x.r);
    } else {
      OpenGoal(s, t, mid, slot, Elements(path), omode, x.r);
    }
  }

  lemma OpenLinked(s: Snap, t: Snap, mid: seq<Inode>, slot: int, names: seq<Name>, omode: nat, r: int)
    requires OpenedAs(s, t, mid, slot, names, omode, r) && slot >= 0
    ensures slot < |mid| && mid[slot].inum < |t.a.ino| && t.a.ino[mid[slot].inum].nlink > 0
  {
    OpenedFacts(s.a, s.icache, s.m, t.a, mid, t.m, names, omode, slot);
  }

  /** create, as open uses it. */
  lemma CreateGoal(s: Snap, t: Snap, mid: seq<Inode>, slot: int, names: seq<Name>, omode: nat, r: int)
    requires OpenedAs(s, t, mid, slot, names, omode, r) && Has(omode, O_CREATE)
    requires InOrder(s.a, s.m) && |t.a.ino| == |t.a.file| && Sized(t.a)
    ensures slot < |mid| && (slot >= 0 ==> mid[slot].inum == Goal(TreeOf(t.a), ROOTINO, names, false) != 0)
    ensures forall p: seq<Name> :: Goal(TreeOf(s.a), ROOTINO, p, false) != 0 ==> Goal(TreeOf(t.a), ROOTINO, p, false) == Goal(TreeOf(s.a), ROOTINO, p, false)
  {
    hide InOrder, Goal, Find, FirstFree, Sized, NodeOf, CreatedIn, Took, HasRoom, Has;
    var u, d := TreeOf(s.a), Goal(TreeOf(s.a), ROOTINO, names, true);
    if 0 < d < |u| && names != [] {
      GoalLast(u, ROOTINO, names);
      if Find(u[d].ents, names[|names| - 1]) == 0 {
        CreatedPath(s.a, s.m, t.a, names, mid[slot].inum, T_FILE, 0, 0);
      }
    }
  }

  // Devices.

  /** Open file `f` is a device of that major number. */
  ghost predicate DeviceAt(s: Snap, f: nat, major: int)
  {
    IsDevice(s.a, s.icache, s.ft, f) && MajorOf(s.a, s.icache, s.ft, f) == major && s.icache[s.ft[f].ip].ref > 0
  }

  lemma MknodMakes(s: Snap, t: Snap, path: Path, major: s16, minor: s16, x: Answer)
    requires Effect(OpMknod(path, major, minor), s, t, x)
    ensures NodeMade(s.a, s.m, t.a, t.m, Elements(path), T_DEV, major, minor, x.r)
  {
    hide NodeMade, Elements, Took;
  }

  /** open of a device that mknod has just made: it is refused with O_CREATE, which is for files; otherwise it succeeds as
      long as the table has room, and opens that device. */
  lemma MknodThenOpen(s: Snap, t: Snap, u: Snap, left: set<nat>, path: Path, major: s16, minor: s16, omode: nat, x: Answer, y: Answer)
    requires Steady(s, left) && Steady(t, left) && Steady(u, left)
    requires Effect(OpMknod(path, major, minor), s, t, x) && x.r == 0 && Effect(OpOpen(path, omode), t, u, y)
    ensures y.r >= 0 <==> !Has(omode, O_CREATE) && HasRoom(t.ft)
    ensures y.r >= 0 ==> DeviceAt(u, y.r, major) && u.ft[y.r].readable == !Has(omode, O_WRONLY)
    ensures y.r >= 0 ==> u.ft[y.r].writable == (Has(omode, O_WRONLY) || Has(omode, O_RDWR))
  {
    hide Steady, Goal, Elements, InOrder, Sized, Has, Effect, HasRoom, PathsKept, NodeMade, TreeOf;
    MknodMakes(s, t, path, major, minor, x);
    var i := MadeMeans(s, t, left, path, T_DEV, major, minor, x.r);
    if Has(omode, O_CREATE) {
      SteadySized(t, left);
      CreateRefuses(t, u, path, omode, y, i);
    } else {
      OpenFinds(t, u, left, path, omode, y);
    }
  }

  /** open with O_CREATE refuses what exists and is not a file. */
  lemma CreateRefuses(s: Snap, t: Snap, path: Path, omode: nat, x: Answer, i: nat)
    requires Effect(OpOpen(path, omode), s, t, x) && Has(omode, O_CREATE) && InOrder(s.a, s.m)
    requires i == Goal(TreeOf(s.a), ROOTINO, Elements(path), false) && 0 < i < |s.a.ino| && s.a.ino[i].typ != T_FILE
    ensures x.r == -1
  {
    hide Elements, Effect, OpenedAs, Has;
    var mid, slot := OpenSplit(s, t, path, omode, x);
    CreateFinds(s, t, mid, slot, Elements(path), omode, x.r, i);
  }

  lemma CreateFinds(s: Snap, t: Snap, mid: seq<Inode>, slot: int, names: seq<Name>, omode: nat, r: int, i: nat)
    requires OpenedAs(s, t, mid, slot, names, omode, r) && Has(omode, O_CREATE) && InOrder(s.a, s.m)
    requires i == Goal(TreeOf(s.a), ROOTINO, names, false) && 0 < i < |s.a.ino| && s.a.ino[i].typ != T_FILE
    ensures r == -1
  {
    NodeFacts(s.a, s.m, i);
    hide InOrder, Goal, Find, FirstFree, Sized, NodeOf, CreatedIn, Took, HasRoom, Has;
    var u, d := TreeOf(s.a), Goal(TreeOf(s.a), ROOTINO, names, true);
    if 0 < d < |u| && names != [] {
      GoalLast(u, ROOTINO, names);
    }
  }

  /** A read of an open device returns what its driver answers. */
  lemma DeviceReads(s: Snap, t: Snap, f: nat, n: int, answer: Dev, x: Answer, major: int)
    requires DeviceAt(s, f, major) && s.ft[f].readable && Effect(OpRead(f, n, answer), s, t, x)
    ensures x.r == answer.Answer(major) && x.dst == [] && t.a == s.a
  {
    hide Content;
  }

  /** A write to it takes the chunks that the driver takes whole and changes nothing on the disk. */
  lemma DeviceWrites(s: Snap, t: Snap, f: nat, n: nat, src: seq<byte>, answers: nat -> Dev, x: Answer, major: int)
    requires DeviceAt(s, f, major) && s.ft[f].writable && Effect(OpWrite(f, n, src, answers), s, t, x)
    ensures DeviceWritten(|src|, answers, major, x.done, x.r) && t.a == s.a
  {
    hide DeviceWritten, Overwritten, WriteRefused;
  }

  /** The three calls together: what a new device node is read from is the driver with the major number it was made with. */
  lemma MknodThenRead(s: Snap, t: Snap, u: Snap, v: Snap, left: set<nat>, path: Path, major: s16, minor: s16, omode: nat, n: int, answer: Dev,
                      x: Answer, y: Answer, z: Answer)
    requires Steady(s, left) && Steady(t, left) && Steady(u, left)
    requires Effect(OpMknod(path, major, minor), s, t, x) && x.r == 0 && Effect(OpOpen(path, omode), t, u, y) && y.r >= 0
    requires Effect(OpRead(y.r, n, answer), u, v, z)
    ensures if Has(omode, O_WRONLY) then z.r == -1 else z.r == answer.Answer(major)
  {
    hide Steady, Has;
    MknodThenOpen(s, t, u, left, path, major, minor, omode, x, y);
    hide Effect, DeviceAt;
    if Has(omode, O_WRONLY) {
      Unreadable(u, v, y.r, n, answer, z);
    } else {
      DeviceReads(u, v, y.r, n, answer, z, major);
    }
  }

  lemma Unreadable(s: Snap, t: Snap, f: nat, n: int, answer: Dev, x: Answer)
    requires Effect(OpRead(f, n, answer), s, t, x) && f < |s.ft| && !s.ft[f].readable
    ensures x.r == -1
  {
  }

  // Files.

  /** The file of inode `i` holds these bytes at `off`. */
  ghost predicate Holds(a: Abs, i: nat, off: nat, src: seq<byte>)
  {
    && i < |a.ino| == |a.file| && a.ino[i].size <= |a.file[i]| * BSIZE && off <= a.ino[i].size && off + |src| <= a.ino[i].size
    && Content(a.file[i], a.ino[i].size)[off..off + |src|] == src
  }

  lemma OverwriteHolds(c: seq<byte>, off: nat, src: seq<byte>)
    requires off <= |c|
    ensures off + |src| <= |Overwrite(c, off, src)| && Overwrite(c, off, src)[off..off + |src|] == src
  {
  }

  lemma OverwrittenHolds(a: Abs, b: Abs, i: nat, off: nat, src: seq<byte>)
    requires Overwritten(a, b, i, off, src)
    ensures Holds(b, i, off, src) && b.ino[i] == a.ino[i].(size := b.ino[i].size, addrs := b.ino[i].addrs)
  {
    OverwriteHolds(Content(a.file[i], a.ino[i].size), off, src);
    hide Content, Overwrite;
  }

  lemma WriteOver(s: Snap, t: Snap, f: nat, n: nat, src: seq<byte>, answers: nat -> Dev, x: Answer, i: nat, off: nat)
    requires Refers(s, f, i, off) && s.ft[f].writable && i < |s.a.ino| && s.a.ino[i].typ != T_DEV
    requires Effect(OpWrite(f, n, src, answers), s, t, x) && |src| == n == x.r && n > 0
    ensures Overwritten(s.a, t.a, i, off, src) && Refers(t, f, i, (off + n) % 0x1_0000_0000)
  {
    hide DeviceResult, Overwritten, WriteRefused;
    assert src[..n] == src;
  }

  /** A write that returns `n`: the file holds the bytes at the old offset, and every path leads where it did. */
  lemma WriteHolds(s: Snap, t: Snap, left: set<nat>, f: nat, n: nat, src: seq<byte>, answers: nat -> Dev, x: Answer, i: nat, off: nat)
    requires Steady(s, left) && Steady(t, left) && Refers(s, f, i, off) && s.ft[f].writable && i < |s.a.ino| && s.a.ino[i].typ != T_DEV
    requires Effect(OpWrite(f, n, src, answers), s, t, x) && |src| == n == x.r && n > 0
    ensures Holds(t.a, i, off, src) && Refers(t, f, i, (off + n) % 0x1_0000_0000) && TreeSame(s.a, t.a)
    ensures |t.a.ino| == |s.a.ino| && t.a.ino[i].typ == s.a.ino[i].typ && t.a.ino[i].nlink == s.a.ino[i].nlink
  {
    hide Steady, Effect, InOrder, Sized, TreeOf, Overwritten, Refers;
    SteadySized(s, left);
    SteadySized(t, left);
    WriterFile(s, left, f, i, off);
    WriteOver(s, t, f, n, src, answers, x, i, off);
    OverwrittenHolds(s.a, t.a, i, off, src);
    OverwrittenOrder(s.a, t.a, s.m, i, off, src);
  }

  ghost predicate TreeSame(a: Abs, b: Abs)
  {
    |a.ino| == |a.file| && Sized(a) && |b.ino| == |b.file| && Sized(b) && TreeOf(b) == TreeOf(a)
  }

  /** What is open for writing is no directory. */
  lemma WriterFile(s: Snap, left: set<nat>, f: nat, i: nat, off: nat)
    requires Steady(s, left) && Refers(s, f, i, off) && s.ft[f].writable && i < |s.a.ino|
    ensures s.a.ino[i].typ != T_DIR
  {
    hide InOrder, OrphansOpen, Table;
  }

  /** A read from there gets them back. */
  lemma ReadHeld(s: Snap, t: Snap, left: set<nat>, f: nat, answer: Dev, x: Answer, i: nat, off: nat, src: seq<byte>)
    requires Steady(s, left) && Refers(s, f, i, off) && s.ft[f].readable && Holds(s.a, i, off, src) && s.a.ino[i].typ != T_DEV && s.a.ino[i].nlink > 0
    requires Effect(OpRead(f, |src|, answer), s, t, x)
    ensures x.r == |src| && x.dst == src
  {
    hide Steady, Content, Effect;
    SmallFile(s, left, i);
    ReadFrom(s, t, f, |src|, answer, x, i, off);
  }

  lemma ReadFrom(s: Snap, t: Snap, f: nat, n: nat, answer: Dev, x: Answer, i: nat, off: nat)
    requires Refers(s, f, i, off) && s.ft[f].readable && Effect(OpRead(f, n, answer), s, t, x) && n < 0x1_0000_0000
    ensures i < |s.a.ino| == |s.a.file| && off < 0x1_0000_0000 && ReadOf(s.a.ino[i], s.a.file[i], off, n, answer, x.r, x.dst)
  {
    hide ReadOf;
  }

  /** A negative count is a large one: the read gets all the rest of the file, unless the count takes the offset past the
      end of the unsigned numbers. */
  lemma NegativeRead(s: Snap, t: Snap, left: set<nat>, f: nat, n: int, answer: Dev, x: Answer, i: nat, off: nat)
    requires Steady(s, left) && Refers(s, f, i, off) && s.ft[f].readable && i < |s.a.ino| && s.a.ino[i].typ != T_DEV && -0x8000_0000 <= n < 0
    requires Effect(OpRead(f, n, answer), s, t, x)
    ensures var d, c := s.a.ino[i], s.a.file;
            && i < |c| && d.size <= |c[i]| * BSIZE
            && if off > d.size || off >= -n || d.nlink < 1 then x.r == -1 && x.dst == []
               else x.r == d.size - off && x.dst == Content(c[i], d.size)[off..]
  {
    hide Steady, Content, InOrder;
    SteadySized(s, left);
    SmallFile(s, left, i);
  }

  lemma SmallFile(s: Snap, left: set<nat>, i: nat)
    requires Steady(s, left) && i < |s.a.ino|
    ensures s.a.ino[i].size <= MAXFILE * BSIZE
  {
    hide OrphansOpen, Table, NoDirWritable, DirSizes, TreeOk;
  }

  /** Closing a file whose inode has a name changes nothing on the disk. */
  lemma CloseKeeps(s: Snap, t: Snap, left: set<nat>, f: nat, x: Answer, i: nat, off: nat)
    requires Steady(s, left) && Refers(s, f, i, off) && i < |s.a.ino| && s.a.ino[i].nlink > 0 && Effect(OpClose(f), s, t, x)
    ensures t.a == s.a
  {
    hide InOrder, OrphansOpen, NoDirWritable, Freed, Dropped, Table;
  }

  /** Open a file or create it, write, close; whoever then opens that path reads back what was written. */
  lemma StoreAndLoad(s: Snap, t: Snap, u: Snap, v: Snap, w: Snap, z: Snap, left: set<nat>, path: Path, mode: nat, again: nat,
                     src: seq<byte>, answers: nat -> Dev, answer: Dev, x1: Answer, x2: Answer, x3: Answer, x4: Answer, x5: Answer)
    requires Steady(s, left) && Steady(t, left) && Steady(u, left) && Steady(v, left) && Steady(w, left)
    requires Effect(OpOpen(path, mode), s, t, x1) && x1.r >= 0 && !IsDevice(t.a, t.icache, t.ft, x1.r)
    requires Effect(OpWrite(x1.r, |src|, src, answers), t, u, x2) && x2.r == |src| > 0
    requires Effect(OpClose(x1.r), u, v, x3)
    requires Effect(OpOpen(path, again), v, w, x4) && !Has(again, O_CREATE) && !Has(again, O_WRONLY)
    requires x4.r >= 0 && Effect(OpRead(x4.r, |src|, answer), w, z, x5)
    ensures x5.r == |src| && x5.dst == src
  {
    hide Steady, Effect, Has, Holds, PathsKept;
    OpenMeans(s, t, left, path, mode, x1);
    var i := Meant(t.a, path);
    Writable(t, u, x1.r, src, answers, x2);
    WriteHolds(t, u, left, x1.r, |src|, src, answers, x2, i, 0);
    CloseKeeps(u, v, left, x1.r, x3, i, |src| % 0x1_0000_0000);
    OpenFinds(v, w, left, path, again, x4);
    ReadHeld(w, z, left, x4.r, answer, x5, i, 0, src);
  }

  lemma Writable(s: Snap, t: Snap, f: nat, src: seq<byte>, answers: nat -> Dev, x: Answer)
    requires Effect(OpWrite(f, |src|, src, answers), s, t, x) && x.r == |src|
    ensures f < |s.ft| && s.ft[f].writable
  {
  }

  // Removing names.

  lemma UnlinkSplit(s: Snap, t: Snap, path: Path, x: Answer)
    requires Effect(OpUnlink(path), s, t, x) && x.r == 0
    ensures |s.a.ino| == |s.a.file| && Sized(s.a) && Elements(path) != []
    ensures var u, names := TreeOf(s.a), Elements(path);
            var d, name := Goal(u, ROOTINO, names, true), names[|names| - 1];
            && 0 < d < |u| && name != DOT && name != DOTDOT && 0 < Find(u[d].ents, name) < |u| && !NotEmpty(u, Find(u[d].ents, name))
            && Removed(s.a, t.a, d, Where(u[d].ents, name), Find(u[d].ents, name), RefOf(s.icache, Find(u[d].ents, name)) > 0)
  {
    hide Goal, Elements, Find, Removed, Sized, NotEmpty, Took;
  }

  /** unlink: on success the path leads nowhere any more; nor does any other path through that name, and all others lead
      where they did. */
  lemma UnlinkMeans(s: Snap, t: Snap, left: set<nat>, path: Path, x: Answer)
    requires Steady(s, left) && Steady(t, left) && Effect(OpUnlink(path), s, t, x) && x.r == 0
    ensures |s.a.ino| == |s.a.file| && Sized(s.a) && |t.a.ino| == |t.a.file| && Sized(t.a)
    ensures Elements(path) != [] && Meant(s.a, path) != 0 && Meant(t.a, path) == 0
    ensures var u, names := TreeOf(s.a), Elements(path);
            forall p: Path :: Meant(t.a, p) ==
              if Through(u, ROOTINO, Elements(p), Goal(u, ROOTINO, names, true), names[|names| - 1]) then 0 else Meant(s.a, p)
  {
    hide Steady, Goal, Find, Elements, TreeOk, DirSizes, Sized, Effect, TreeOf, Removed;
    SteadySized(s, left);
    SteadySized(t, left);
    UnlinkSplit(s, t, path, x);
    var u, names := TreeOf(s.a), Elements(path);
    var d, name := Goal(u, ROOTINO, names, true), names[|names| - 1];
    var k, i := Where(u[d].ents, name), Find(u[d].ents, name);
    GoalLinked(u, s.m, names);
    GoalLast(u, ROOTINO, names);
    FoundUnlinkable(s.a, s.m, d, name);
    RemovedGone(s.a, s.m, t.a, d, k, i, RefOf(s.icache, i) > 0);
    ThroughLast(u, ROOTINO, names);
    GoneFromRoot(u, s.m, TreeOf(t.a), d, k, i);
  }

  /** What unlink leaves of the other inodes and of the directory. */
  lemma RemovedParts(a: Abs, b: Abs, d: nat, k: nat, i: nat, open: bool)
    requires Removed(a, b, d, k, i, open)
    ensures d < |a.ino| == |a.file| == |b.ino| == |b.file|
    ensures forall x :: 0 <= x < |a.ino| && x != i && x != d ==> b.ino[x] == a.ino[x] && b.file[x] == a.file[x]
    ensures a.ino[d].size <= |a.file[d]| * BSIZE && k < |EntsOf(a.ino[d], a.file[d])|
    ensures DirIs(b, d, SetEnt(EntsOf(a.ino[d], a.file[d]), k, CLEARED))
  {
    hide EntsOf;
    var mid: Abs :| UnlinkedIn(a, mid, d, k, i) && if open then b == mid else Freed(mid, b, i);
    assert b.ino[d] == mid.ino[d] && b.file[d] == mid.file[d];
  }

  lemma RemovedGone(a: Abs, m: Map, b: Abs, d: nat, k: nat, i: nat, open: bool)
    requires InOrder(a, m) && |b.ino| == |b.file| && Sized(b) && CanUnlink(TreeOf(a), m, d, k, i) && Removed(a, b, d, k, i, open)
    ensures NameGone(TreeOf(a), TreeOf(b), d, k, i)
  {
    hide EntsOf, CanUnlink, Removed, SetEnt, TreeOk, DirSizes, Content;
    RemovedParts(a, b, d, k, i, open);
    UnlinkCounts(a, m, d, k, i);
    SetIn(EntsOf(a.ino[d], a.file[d]), k);
    var t, u := TreeOf(a), TreeOf(b);
    assert u[d] == NodeOf(b.ino[d], b.file[d]);
    forall x | 0 <= x < |t| && x != i && x != d ensures u[x] == t[x] {
    }
  }

  lemma SetIn(e: seq<Ent>, k: nat)
    requires k < |e|
    ensures SetEnt(e, k, CLEARED) == e[k := CLEARED]
  {
  }

  /** So an open without O_CREATE finds nothing there. */
  lemma UnlinkThenOpen(s: Snap, t: Snap, u: Snap, left: set<nat>, path: Path, omode: nat, x: Answer, y: Answer)
    requires Steady(s, left) && Steady(t, left) && Effect(OpUnlink(path), s, t, x) && x.r == 0
    requires Effect(OpOpen(path, omode), t, u, y) && !Has(omode, O_CREATE)
    ensures y.r < 0 && u.a == t.a
  {
    hide Steady, Effect, Has;
    UnlinkMeans(s, t, left, path, x);
    OpenFinds(t, u, left, path, omode, y);
  }

  // The same over whole runs.

  lemma RunStep(sb: Super, left: set<nat>, hist: seq<Disk>, ops: seq<Op>, snaps: seq<Snap>, ends: seq<nat>, answers: seq<Answer>, k: nat)
    requires Explained(sb, left, hist, ops, snaps, ends, answers) && k < |answers|
    ensures k + 1 < |snaps| && k < |ops| && Steady(snaps[k], left) && Steady(snaps[k + 1], left) && Effect(ops[k], snaps[k], snaps[k + 1], answers[k])
  {
    hide Steady, Effect, Boundaries, Shows;
    var j := k + 1;
    assert Effect(ops[k], snaps[k], snaps[j], answers[k]);
  }

  /** In every run: a file written and closed is read back by its path. */
  lemma RunLoadsStored(sb: Super, left: set<nat>, hist: seq<Disk>, ops: seq<Op>, snaps: seq<Snap>, ends: seq<nat>, answers: seq<Answer>, k: nat,
                       path: Path, mode: nat, again: nat, src: seq<byte>, drivers: nat -> Dev, driver: Dev)
    requires Explained(sb, left, hist, ops, snaps, ends, answers) && k + 4 < |answers|
    requires answers[k].r >= 0 && answers[k + 1].r == |src| > 0 && answers[k + 3].r >= 0 && !Has(again, O_CREATE) && !Has(again, O_WRONLY)
    requires |snaps| > k + 1 && !IsDevice(snaps[k + 1].a, snaps[k + 1].icache, snaps[k + 1].ft, answers[k].r)
    requires k + 4 < |ops| && ops[k] == OpOpen(path, mode) && ops[k + 1] == OpWrite(answers[k].r, |src|, src, drivers) && ops[k + 2] == OpClose(answers[k].r)
    requires ops[k + 3] == OpOpen(path, again) && ops[k + 4] == OpRead(answers[k + 3].r, |src|, driver)
    ensures answers[k + 4].r == |src| && answers[k + 4].dst == src
  {
    hide Steady, Effect, Explained, Has, IsDevice;
    RunStep(sb, left, hist, ops, snaps, ends, answers, k);
    RunStep(sb, left, hist, ops, snaps, ends, answers, k + 1);
    RunStep(sb, left, hist, ops, snaps, ends, answers, k + 2);
    RunStep(sb, left, hist, ops, snaps, ends, answers, k + 3);
    RunStep(sb, left, hist, ops, snaps, ends, answers, k + 4);
    StoreAndLoad(snaps[k], snaps[k + 1], snaps[k + 2], snaps[k + 3], snaps[k + 4], snaps[k + 5], left, path, mode, again, src, drivers, driver,
                 answers[k], answers[k + 1], answers[k + 2], answers[k + 3], answers[k + 4]);
  }

  /** In every run: a device node is read from the driver it was made for. */
  lemma RunReadsDevice(sb: Super, left: set<nat>, hist: seq<Disk>, ops: seq<Op>, snaps: seq<Snap>, ends: seq<nat>, answers: seq<Answer>, k: nat,
                       path: Path, major: s16, minor: s16, omode: nat, n: int, driver: Dev)
    requires Explained(sb, left, hist, ops, snaps, ends, answers) && k + 2 < |answers| && k + 2 < |ops|
    requires ops[k] == OpMknod(path, major, minor) && answers[k].r == 0 && ops[k + 1] == OpOpen(path, omode) && answers[k + 1].r >= 0
    requires ops[k + 2] == OpRead(answers[k + 1].r, n, driver) && !Has(omode, O_WRONLY)
    ensures answers[k + 2].r == driver.Answer(major)
  {
    hide Steady, Effect, Explained, Has;
    RunStep(sb, left, hist, ops, snaps, ends, answers, k);
    RunStep(sb, left, hist, ops, snaps, ends, answers, k + 1);
    RunStep(sb, left, hist, ops, snaps, ends, answers, k + 2);
    MknodThenRead(snaps[k], snaps[k + 1], snaps[k + 2], snaps[k + 3], left, path, major, minor, omode, n, driver, answers[k], answers[k + 1], answers[k + 2]);
  }
}
