/** The calls of the file layer and what each of them means, from one state to the next. */
module Calls {
  import opened Bytes
  import opened RedoLog
  import opened Kernel
  import opened FsFormat
  import opened FsState
  import opened FsInodeSteps
  import opened FsContent
  import opened PathFormat
  import opened Tree
  import opened FsTree
  import opened FsDisk
  import opened FileState
  import opened FileSteps
  import opened FsOrphans

  /** A call; files are named by their index in the file table. */
  datatype Op =
    | OpOpen(path: Path, omode: nat)
    | OpMkdir(path: Path)
    | OpMknod(path: Path, major: s16, minor: s16)
    | OpUnlink(path: Path)
    | OpDup(f: nat)
    | OpClose(f: nat)
    | OpRead(f: nat, n: int, answer: Dev)
    | OpWrite(f: nat, n: int, src: seq<byte>, answers: nat -> Dev)
  {
    predicate Ok()
    {
      match this
      case OpDup(f) => f < NFILE
      case OpClose(f) => f < NFILE
      case OpRead(f, _, _) => f < NFILE
      case OpWrite(f, n, src, _) => f < NFILE && n < 0x8000_0000 && |src| == Offered(n)
      case _ => true
    }
  }

  /** How many bytes a write of `n` has to offer. */
  function Offered(n: int): (k: nat)
  {
    if n > 0 then n else 0
  }

  /** What a call returns: a number, the bytes read, and how many bytes were written. */
  datatype Answer = Answer(r: int, dst: seq<byte>, done: nat)

  /** The system between two calls. */
  datatype Snap = Snap(a: Abs, m: Map, icache: seq<Inode>, ft: seq<File>)

  /** The file system has changed from `s` to `t` as the call promises. */
  ghost predicate Effect(op: Op, s: Snap, t: Snap, x: Answer)
  {
    match op
    case OpOpen(path, omode) => OpenResult(s.a, s.icache, s.m, s.ft, t.a, t.icache, t.m, t.ft, Elements(path), omode, x.r)
    case OpMkdir(path) => Unopened(s, t) && NodeMade(s.a, s.m, t.a, t.m, Elements(path), T_DIR, 0, 0, x.r)
    case OpMknod(path, major, minor) => Unopened(s, t) && NodeMade(s.a, s.m, t.a, t.m, Elements(path), T_DEV, major, minor, x.r)
    case OpUnlink(path) => Unopened(s, t) && t.m == s.m && UnlinkResult(s.a, t.a, s.icache, Elements(path), x.r)
    case OpDup(f) => f < |s.ft| && s.ft[f].ref > 0 && x.r == f && t == s.(ft := s.ft[f := s.ft[f].(ref := s.ft[f].ref + 1)])
    case OpClose(f) => x.r == 0 && t.m == s.m && CloseResult(s.a, s.icache, s.ft, t.a, t.icache, t.ft, f)
    case OpRead(f, n, answer) =>
      t.a == s.a && t.m == s.m && Took(s.icache, t.icache, -1) && FileRead(s.a, t.icache, s.ft, t.ft, f, Unsigned(n), answer, x.r, x.dst)
    case OpWrite(f, n, src, answers) =>
      && t.m == s.m && f < |s.ft|
      && if !s.ft[f].writable || n < 0 then x.r == -1 && t == s
         else
           && FileWritten(s.a, s.icache, s.ft, t.a, t.icache, t.ft, f, src, x.done, x.r)
           && DeviceResult(s.a, s.icache, s.ft, f, |src|, answers, x.done, x.r)
  }

  /** When a call from `s` may panic, and how. Blocks, inodes and slots run out at the time of the panic; everything else can
      be told beforehand. */
  ghost predicate MayPanic(sb: Super, op: Op, s: Snap, why: Why)
  {
    match op
    case OpOpen(path, omode) => CreateStops(s.a, Elements(path), why) && (!Has(omode, O_CREATE) ==> why == NoInodeSlots)
    case OpMkdir(path) => CreateStops(s.a, Elements(path), why)
    case OpMknod(path, _, _) => CreateStops(s.a, Elements(path), why)
    case OpUnlink(path) => why == NoInodeSlots || (TooMuch(why) && UnlinkTooBig(sb, s.a, s.icache, Elements(path)))
    case OpDup(f) => why == FiledupRef && f < |s.ft| && s.ft[f].ref < 1
    case OpClose(f) => f < |s.ft| && if s.ft[f].ref < 1 then why == FilecloseRef else TooMuch(why) && CloseTooBig(sb, s.a, s.icache, s.ft, f)
    case OpRead(f, _, _) => why == FilereadType && f < |s.ft| && s.ft[f].readable && !s.ft[f].inode
    case OpWrite(f, _, src, answers) =>
      || (why == OutOfBlocks && !IsDevice(s.a, s.icache, s.ft, f))
      || (why == ShortFilewrite && ShortWrite(s.a, s.icache, s.ft, f, |src|, answers))
      || (why == FilewriteType && f < |s.ft| && s.ft[f].writable && !s.ft[f].inode)
  }

  /** Nobody has opened or closed anything. */
  ghost predicate Unopened(s: Snap, t: Snap)
  {
    t.ft == s.ft && Took(s.icache, t.icache, -1)
  }

  /** filewrite has put down the first `done` bytes, in whole chunks; nothing else has changed. */
  ghost predicate SomeWritten(s: Snap, b: Abs, f: nat, src: seq<byte>, done: nat)
  {
    && f < |s.ft| && s.ft[f].ip < |s.icache| && done <= |src| && (done % CHUNK == 0 || done == |src|)
    && var i := s.icache[s.ft[f].ip].inum;
    && i < |s.a.ino|
    && if done == 0 || s.a.ino[i].typ == T_DEV then b == s.a else Overwritten(s.a, b, i, s.ft[f].off, src[..done])
  }

  /** Disk `v` is a boundary in the middle of a write. */
  ghost predicate Partway(sb: Super, s: Snap, f: nat, src: seq<byte>, v: Disk)
  {
    exists b: Abs, done: nat :: Shows(sb, v, b) && SomeWritten(s, b, f, src, done)
  }

  lemma PartwayAt(sb: Super, s: Snap, b: Abs, c: seq<Inode>, ft: seq<File>, f: nat, src: seq<byte>, v: Disk, done: nat)
    requires Shows(sb, v, b) && Progress(s.a, s.icache, s.ft, b, c, ft, f, src, done) && (done % CHUNK == 0 || done == |src|)
    ensures Partway(sb, s, f, src, v)
  {
    hide Shows, Overwritten, Took;
    assert SomeWritten(s, b, f, src, done);
  }

  ghost predicate WriteBoundaries(sb: Super, s: Snap, f: nat, src: seq<byte>, h: seq<Disk>, h': seq<Disk>)
  {
    h <= h' && forall j :: |h| <= j < |h'| ==> Partway(sb, s, f, src, h'[j])
  }

  /** One more chunk, one more boundary. */
  lemma OneBoundary(sb: Super, s: Snap, b: Abs, c: seq<Inode>, ft: seq<File>, f: nat, src: seq<byte>, done: nat, h: seq<Disk>, h': seq<Disk>, h'': seq<Disk>)
    requires WriteBoundaries(sb, s, f, src, h, h') && h' <= h'' && |h''| <= |h'| + 1 && LastShows(sb, h'', b)
    requires Progress(s.a, s.icache, s.ft, b, c, ft, f, src, done) && (done % CHUNK == 0 || done == |src|)
    ensures WriteBoundaries(sb, s, f, src, h, h'')
  {
    hide Shows, Progress, Partway;
    PartwayAt(sb, s, b, c, ft, f, src, h''[|h''| - 1], done);
  }

  /** The boundaries that a call from `s` adds: for a write, one for every chunk; otherwise at most one, and none if it
      panics. */
  ghost predicate Boundaries(sb: Super, op: Op, s: Snap, h: seq<Disk>, h': seq<Disk>, ok: bool)
  {
    if op.OpWrite? then WriteBoundaries(sb, s, op.f, op.src, h, h') else h <= h' && |h'| <= |h| + if ok then 1 else 0
  }

  /** What holds between two calls: the tree is in order, the file table and the inode cache fit together and the cache is
      true to the inodes, and every inode without a name is open, but for those that were left over. */
  ghost predicate Steady(s: Snap, left: set<nat>)
  {
    && InOrder(s.a, s.m) && Table(s.ft, s.icache) && NoDirWritable(s.ft, s.icache, s.a) && OrphansOpen(s.a, s.ft, s.icache, left)
    && forall x :: 0 <= x < |s.icache| && s.icache[x].ref > 0 ==> 0 < s.icache[x].inum < |s.a.ino| && s.icache[x].d == s.a.ino[s.icache[x].inum]
  }

  /** A run explained: `snaps[i]` is the state after `i` calls and `ends[i]` the number of boundaries by then; the disk
      at the last of them holds that state. If not all calls have an answer, the next one panicked. */
  ghost predicate Explained(sb: Super, left: set<nat>, hist: seq<Disk>, ops: seq<Op>, snaps: seq<Snap>, ends: seq<nat>, answers: seq<Answer>)
  {
    && |snaps| == |ends| == |answers| + 1 && |answers| <= |ops|
    && (forall i :: 0 <= i < |snaps| ==> 0 < ends[i] <= |hist| && Shows(sb, hist[ends[i] - 1], snaps[i].a) && Steady(snaps[i], left))
    && (forall i, k :: 0 <= i && k == i + 1 < |snaps| ==>
          Effect(ops[i], snaps[i], snaps[k], answers[i]) && Boundaries(sb, ops[i], snaps[i], hist[..ends[i]], hist[..ends[k]], true))
    && var n := |answers|;
    if n == |ops| then ends[n] == |hist| else Boundaries(sb, ops[n], snaps[n], hist[..ends[n]], hist, false)
  }

  /** So every boundary is explained: it holds the state after the first `n` calls, or call `n` is a write and some of
      its chunks. */
  lemma {:induction false} BoundaryExplained(sb: Super, left: set<nat>, hist: seq<Disk>, ops: seq<Op>, snaps: seq<Snap>, ends: seq<nat>,
                                             answers: seq<Answer>, j: nat, top: nat)
    returns (n: nat)
    requires Explained(sb, left, hist, ops, snaps, ends, answers) && ends[0] <= j + 1 <= |hist| && top < |snaps| && (top + 1 < |snaps| ==> j + 1 < ends[top + 1])
    ensures n <= top && ends[n] <= j + 1 && (n + 1 < |snaps| ==> j + 1 < ends[n + 1])
    ensures j + 1 == ends[n] || (n < |ops| && ops[n].OpWrite? && Partway(sb, snaps[n], ops[n].f, ops[n].src, hist[j]))
    decreases top
  {
    hide Effect, Shows, Partway, Steady;
    if ends[top] <= j + 1 {
      n := top;
      if ends[n] < j + 1 {
        CallBoundary(sb, left, hist, ops, snaps, ends, answers, j, n);
      }
    } else {
      n := BoundaryExplained(sb, left, hist, ops, snaps, ends, answers, j, top - 1);
    }
  }

  lemma CallBoundary(sb: Super, left: set<nat>, hist: seq<Disk>, ops: seq<Op>, snaps: seq<Snap>, ends: seq<nat>, answers: seq<Answer>, j: nat, n: nat)
    requires Explained(sb, left, hist, ops, snaps, ends, answers) && n < |snaps| && ends[n] <= j < |hist| && (n + 1 < |snaps| ==> j + 1 < ends[n + 1])
    ensures n < |ops| && ops[n].OpWrite? && Partway(sb, snaps[n], ops[n].f, ops[n].src, hist[j])
  {
    hide Effect, Shows, Partway, Steady;
    if n < |answers| {
      var k := n + 1;
      assert Boundaries(sb, ops[n], snaps[n], hist[..ends[n]], hist[..ends[k]], true);
      assert hist[..ends[k]][j] == hist[j];
    } else {
      assert hist[..|hist|] == hist;
    }
  }

  /** Disk `v` holds `b`, the state after the first `n` calls; or else call `n` is a write and has put down some of its
      chunks. Boundary `j` lies behind those calls and before the next one is complete. */
  ghost predicate Recovered(sb: Super, left: set<nat>, v: Disk, b: Abs, ops: seq<Op>, snaps: seq<Snap>, ends: seq<nat>, n: nat, j: nat)
  {
    && n < |snaps| == |ends| && ends[n] <= j + 1 && (n + 1 < |snaps| ==> j + 1 < ends[n + 1]) && Shows(sb, v, b) && OrphansOpen(b, snaps[n].ft, snaps[n].icache, left)
    && (b == snaps[n].a || (n < |ops| && ops[n].OpWrite? && exists done: nat :: SomeWritten(snaps[n], b, ops[n].f, ops[n].src, done)))
  }

  lemma BoundaryState(sb: Super, left: set<nat>, hist: seq<Disk>, ops: seq<Op>, snaps: seq<Snap>, ends: seq<nat>, answers: seq<Answer>, j: nat, v: Disk)
    returns (n: nat, b: Abs)
    requires Explained(sb, left, hist, ops, snaps, ends, answers) && ends[0] <= j + 1 <= |hist| && HomeEq(sb.LogArea(), hist[j], v)
    ensures Recovered(sb, left, v, b, ops, snaps, ends, n, j)
  {
    hide Shows, HomeEq, SomeWritten, OrphansOpen, Steady, Effect, Boundaries;
    n := BoundaryExplained(sb, left, hist, ops, snaps, ends, answers, j, |snaps| - 1);
    b := snaps[n].a;
    SteadyOrphans(snaps[n], left);
    if j + 1 != ends[n] {
      var done: nat;
      b, done :| Shows(sb, hist[j], b) && SomeWritten(snaps[n], b, ops[n].f, ops[n].src, done);
      SomeOrphansOpen(snaps[n], b, ops[n].f, ops[n].src, done, left);
    }
    ShowsHome(sb, hist[j], v, b);
  }

  lemma SteadyOrphans(s: Snap, left: set<nat>)
    requires Steady(s, left)
    ensures OrphansOpen(s.a, s.ft, s.icache, left)
  {
  }

  lemma ExplainedFirst(sb: Super, left: set<nat>, hist: seq<Disk>, ops: seq<Op>, snaps: seq<Snap>, ends: seq<nat>, answers: seq<Answer>)
    requires Explained(sb, left, hist, ops, snaps, ends, answers)
    ensures |snaps| == |ends| == |answers| + 1 && 0 < ends[0] <= |hist|
  {
  }

  /** A write does not change which inodes have names. */
  lemma SomeOrphansOpen(s: Snap, b: Abs, f: nat, src: seq<byte>, done: nat, left: set<nat>)
    requires SomeWritten(s, b, f, src, done) && OrphansOpen(s.a, s.ft, s.icache, left)
    ensures OrphansOpen(b, s.ft, s.icache, left)
  {
    hide Content, Overwrite, IsOpen;
    assert Orphans(b) == Orphans(s.a);
  }

  lemma BoundariesGrow(sb: Super, op: Op, s: Snap, h: seq<Disk>, h': seq<Disk>, ok: bool)
    requires Boundaries(sb, op, s, h, h', ok)
    ensures h <= h'
  {
  }

  lemma ExplainedStart(sb: Super, left: set<nat>, hist: seq<Disk>, ops: seq<Op>, s: Snap)
    requires LastShows(sb, hist, s.a) && Steady(s, left) && ops == []
    ensures Explained(sb, left, hist, ops, [s], [|hist|], [])
  {
    hide Shows, Steady;
  }

  /** One more call. */
  lemma ExplainedStep(sb: Super, left: set<nat>, h: seq<Disk>, h': seq<Disk>, ops: seq<Op>, snaps: seq<Snap>, ends: seq<nat>, answers: seq<Answer>, t: Snap, x: Answer)
    requires |answers| < |ops| && Explained(sb, left, h, ops[..|answers|], snaps, ends, answers)
    requires Effect(ops[|answers|], snaps[|answers|], t, x) && Boundaries(sb, ops[|answers|], snaps[|answers|], h, h', true) && h <= h'
    requires LastShows(sb, h', t.a) && Steady(t, left)
    ensures Explained(sb, left, h', ops[..|answers| + 1], snaps + [t], ends + [|h'|], answers + [x])
  {
    hide Effect, Shows, Steady, Boundaries;
    var n := |answers|;
    var ops', snaps', ends', answers' := ops[..n + 1], snaps + [t], ends + [|h'|], answers + [x];
    assert h[..|h|] == h == h'[..|h|] && h'[..|h'|] == h';
    forall i | 0 <= i < |snaps'| ensures 0 < ends'[i] <= |h'| && Shows(sb, h'[ends'[i] - 1], snaps'[i].a) && Steady(snaps'[i], left) {
      if i <= n {
        assert snaps'[i] == snaps[i];
      }
    }
    forall i, k | 0 <= i && k == i + 1 < |snaps'|
      ensures Effect(ops'[i], snaps'[i], snaps'[k], answers'[i]) && Boundaries(sb, ops'[i], snaps'[i], h'[..ends'[i]], h'[..ends'[k]], true)
    {
      if i < n {
        assert snaps'[i] == snaps[i] && snaps'[k] == snaps[k] && answers'[i] == answers[i] && ops'[i] == ops[..n][i];
        assert h'[..ends[i]] == h[..ends[i]] && h'[..ends[k]] == h[..ends[k]];
      }
    }
  }

  /** The call that panicked. */
  lemma ExplainedPanic(sb: Super, left: set<nat>, h: seq<Disk>, h': seq<Disk>, ops: seq<Op>, snaps: seq<Snap>, ends: seq<nat>, answers: seq<Answer>)
    requires |answers| < |ops| && Explained(sb, left, h, ops[..|answers|], snaps, ends, answers)
    requires Boundaries(sb, ops[|answers|], snaps[|answers|], h, h', false) && h <= h'
    ensures Explained(sb, left, h', ops, snaps, ends, answers)
  {
    hide Effect, Shows, Steady, Boundaries;
    var n := |answers|;
    assert h[..|h|] == h == h'[..|h|];
    forall i, k | 0 <= i && k == i + 1 < |snaps|
      ensures Effect(ops[i], snaps[i], snaps[k], answers[i]) && Boundaries(sb, ops[i], snaps[i], h'[..ends[i]], h'[..ends[k]], true)
    {
      assert ops[i] == ops[..n][i];
      assert h'[..ends[i]] == h[..ends[i]] && h'[..ends[k]] == h[..ends[k]];
    }
  }
}
