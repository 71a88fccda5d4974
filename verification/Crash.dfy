/** Whole runs: any sequence of calls, crashed anywhere, recovers to the state after some of the calls. */
module Crash {
  import opened Bytes
  import opened RedoLog
  import opened Kernel
  import opened LogState
  import opened Log
  import opened FsFormat
  import opened FsState
  import opened FsSpec
  import opened FsInodeSteps
  import opened Tree
  import opened FsTree
  import opened FsDisk
  import opened FileState
  import opened FileSteps
  import opened FsOrphans
  import opened Calls
  import opened PathFormat
  import opened SysState
  import opened Files
  import opened MkfsTree
  import opened MkfsOrder
  import opened Mkfs

  /** The state between two calls. */
  ghost function Now(sys: Sys): (s: Snap)
    reads sys, sys.fs
  {
    Snap(sys.fs.a, sys.m, sys.fs.icache, sys.ftable)
  }

  /** The calls that take an open file. */
  method FileCall(sys: Sys, op: Op) returns (why: Res<int>, dst: seq<byte>, ghost done: nat)
    requires sys.Valid() && op.Ok() && (op.OpDup? || op.OpClose? || op.OpRead? || op.OpWrite?)
    modifies sys`ftable, sys`m, sys.fs`icache, sys.fs`a, sys.fs`stale, sys.fs.log`lh, sys.fs.log`hist, sys.fs.log`marks, sys.fs.log.cache
    ensures sys.Halted() && (why.Ok? ==> sys.Valid())
    ensures why.Ok? ==> Effect(op, old(Now(sys)), Now(sys), Answer(why.value, dst, done))
    ensures Boundaries(sys.fs.sb, op, old(Now(sys)), old(sys.fs.log.hist), sys.fs.log.hist, why.Ok?)
    ensures why.Panic? ==> MayPanic(sys.fs.sb, op, old(Now(sys)), why.why) && Exhausted(sys.fs.sb, sys.fs.View(), sys.fs.a, sys.fs.icache, why.why)
  {
    hide Sys.Valid, Sys.Halted, CloseResult, FileRead, FileWritten, Took, WriteBoundaries, CloseTooBig, Exhausted, IsDevice, DeviceResult, ShortWrite;
    TableSize(sys);
    dst, done := [], 0;
    match op {
    case OpDup(f) =>
      var r := Filedup(sys, f);
      why := if r.Ok? then Ok(r.value) else Panic(r.why);
      OtherReason(sys.fs.sb, sys.fs.View(), sys.fs.a, sys.fs.icache, FiledupRef);
    case OpClose(f) =>
      var r := Fileclose(sys, f);
      why := if r.Ok? then Ok(0) else Panic(r.why);
      if r.Panic? {
        OtherReason(sys.fs.sb, sys.fs.View(), sys.fs.a, sys.fs.icache, r.why);
      }
    case OpRead(f, n, answer) =>
      why, dst := Fileread(sys, f, n, answer);
      OtherReason(sys.fs.sb, sys.fs.View(), sys.fs.a, sys.fs.icache, FilereadType);
    case OpWrite(f, n, src, answers) =>
      why, done := Filewrite(sys, f, n, src, answers);
    }
    ValidHalted(sys);
  }

  /** The calls that take a path. */
  method PathCall(sys: Sys, op: Op) returns (why: Res<int>)
    requires sys.Valid() && (op.OpOpen? || op.OpMkdir? || op.OpMknod? || op.OpUnlink?)
    modifies sys`ftable, sys`m, sys.fs`icache, sys.fs`a, sys.fs`stale, sys.fs.log`lh, sys.fs.log`hist, sys.fs.log`marks, sys.fs.log.cache
    ensures sys.Halted() && (why.Ok? ==> sys.Valid())
    ensures why.Ok? ==> Effect(op, old(Now(sys)), Now(sys), Answer(why.value, [], 0))
    ensures Boundaries(sys.fs.sb, op, old(Now(sys)), old(sys.fs.log.hist), sys.fs.log.hist, why.Ok?)
    ensures why.Panic? ==> MayPanic(sys.fs.sb, op, old(Now(sys)), why.why) && Exhausted(sys.fs.sb, sys.fs.View(), sys.fs.a, sys.fs.icache, why.why)
  {
    hide Sys.Valid, Sys.Halted, OpenResult, NodeMade, UnlinkResult, Took, Elements, UnlinkTooBig, CreateStops, Exhausted, Has;
    match op {
    case OpOpen(path, omode) =>
      why := Open(sys, path, omode);
    case OpMkdir(path) =>
      why := MakeNode(sys, path, T_DIR, 0, 0);
    case OpMknod(path, major, minor) =>
      why := MakeNode(sys, path, T_DEV, major, minor);
    case OpUnlink(path) =>
      why := Unlink(sys, path);
    }
    ValidHalted(sys);
  }

  /** One call: it does what it promises, or panics for one of the known reasons and leaves the disk as it was at a
      boundary. */
  method Step(sys: Sys, op: Op) returns (why: Res<int>, dst: seq<byte>, ghost done: nat)
    requires sys.Valid() && op.Ok()
    modifies sys`ftable, sys`m, sys.fs`icache, sys.fs`a, sys.fs`stale, sys.fs.log`lh, sys.fs.log`hist, sys.fs.log`marks, sys.fs.log.cache
    ensures sys.Halted() && (why.Ok? ==> sys.Valid())
    ensures why.Ok? ==> Effect(op, old(Now(sys)), Now(sys), Answer(why.value, dst, done))
    ensures Boundaries(sys.fs.sb, op, old(Now(sys)), old(sys.fs.log.hist), sys.fs.log.hist, why.Ok?)
    ensures why.Panic? ==> MayPanic(sys.fs.sb, op, old(Now(sys)), why.why) && Exhausted(sys.fs.sb, sys.fs.View(), sys.fs.a, sys.fs.icache, why.why)
  {
    hide Sys.Valid, Sys.Halted, Effect, Boundaries, MayPanic, Exhausted;
    if op.OpOpen? || op.OpMkdir? || op.OpMknod? || op.OpUnlink? {
      dst, done := [], 0;
      why := PathCall(sys, op);
    } else {
      why, dst, done := FileCall(sys, op);
    }
  }

  lemma TableSize(sys: Sys)
    requires sys.Valid()
    ensures |sys.ftable| == NFILE
  {
  }

  lemma ValidHalted(sys: Sys)
    requires sys.Valid() || sys.Halted()
    ensures sys.Halted()
  {
  }

  /** A whole run, which a panic may end early, call by call. */
  method Run(sys: Sys, ops: seq<Op>) returns (why: Res<()>, ghost snaps: seq<Snap>, ghost ends: seq<nat>, ghost answers: seq<Answer>)
    requires sys.Valid() && forall k :: 0 <= k < |ops| ==> ops[k].Ok()
    modifies sys`ftable, sys`m, sys.fs`icache, sys.fs`a, sys.fs`stale, sys.fs.log`lh, sys.fs.log`hist, sys.fs.log`marks, sys.fs.log.cache
    ensures sys.Halted() && (why.Ok? ==> sys.Valid()) && old(sys.fs.log.hist) <= sys.fs.log.hist
    ensures Explained(sys.fs.sb, sys.left, sys.fs.log.hist, ops, snaps, ends, answers) && (why.Ok? <==> |answers| == |ops|)
    ensures snaps[0] == old(Now(sys)) && ends[0] == |old(sys.fs.log.hist)| && (why.Ok? ==> snaps[|ops|] == Now(sys))
    ensures why.Panic? ==> |answers| < |ops| && MayPanic(sys.fs.sb, ops[|answers|], snaps[|answers|], why.why)
    ensures why.Panic? ==> Exhausted(sys.fs.sb, sys.fs.View(), sys.fs.a, sys.fs.icache, why.why)
  {
    hide Sys.Valid, Sys.Halted, Effect, Boundaries, Explained, LastShows, Steady, MayPanic, Exhausted;
    snaps, ends, answers := [Now(sys)], [|sys.fs.log.hist|], [];
    BoundaryNow(sys);
    ExplainedStart(sys.fs.sb, sys.left, sys.fs.log.hist, ops[..0], Now(sys));
    for k := 0 to |ops|
      invariant sys.Valid() && old(sys.fs.log.hist) <= sys.fs.log.hist && |answers| == k && |snaps| == |ends| == k + 1
      invariant snaps[0] == old(Now(sys)) && ends[0] == |old(sys.fs.log.hist)| && snaps[k] == Now(sys)
      invariant Explained(sys.fs.sb, sys.left, sys.fs.log.hist, ops[..k], snaps, ends, answers)
    {
      ghost var h := sys.fs.log.hist;
      var r, dst;
      ghost var done;
      r, dst, done := Step(sys, ops[k]);
      BoundariesGrow(sys.fs.sb, ops[k], snaps[k], h, sys.fs.log.hist, r.Ok?);
      if r.Panic? {
        ExplainedPanic(sys.fs.sb, sys.left, h, sys.fs.log.hist, ops, snaps, ends, answers);
        return Panic(r.why), snaps, ends, answers;
      }
      BoundaryNow(sys);
      ExplainedStep(sys.fs.sb, sys.left, h, sys.fs.log.hist, ops, snaps, ends, answers, Now(sys), Answer(r.value, dst, done));
      snaps, ends, answers := snaps + [Now(sys)], ends + [|sys.fs.log.hist|], answers + [Answer(r.value, dst, done)];
    }
    assert ops[..|ops|] == ops;
    ValidHalted(sys);
    return Ok(()), snaps, ends, answers;
  }

  lemma BoundaryNow(sys: Sys)
    requires sys.Valid()
    ensures LastShows(sys.fs.sb, sys.fs.log.hist, sys.fs.a) && Steady(Now(sys), sys.left)
  {
    hide InOrder, LastShows, NoneLost, OrphansOpen, HistOk;
    NoneLostOpen(sys.fs.a, sys.ftable, sys.fs.icache, sys.left);
  }

  /** Crash safety: cut the device writes of a run anywhere, interrupt recovery as often as you like; the
      recovery that completes finds the contents at a transaction boundary, which is the last one whose header
      write had been performed, and those contents are in order. */
  lemma CrashSafe(sys: Sys, k: nat, cuts: seq<nat>) returns (j: nat)
    requires sys.Halted() && k <= |sys.fs.log.cache.face.trace|
    ensures var log := sys.fs.log;
            && j < |log.hist| == |log.marks| && LastArrived(log.marks, k, j) && (k == |log.cache.face.trace| ==> j + 1 == |log.hist|)
            && var e := Reboots(log.area, After(log.base, log.cache.face.trace[..k]), cuts);
            && WellFormed(log.area, e) && HomeEq(log.area, Recover(log.area, e), log.hist[j])
            && Recovers(log.area, e, log.hist[j]) && DiskOk(sys.fs.sb, log.hist[j]) && DiskOk(sys.fs.sb, Recover(log.area, e))
  {
    hide HistOk, Shows, HomeEq, Recovers, WellFormed, Reboots, Recover, After, Durable, TxnLog.Valid, Arrived;
    var log := sys.fs.log;
    LogDurable(log);
    j := CrashAnywhere(log.area, log.base, log.cache.face.trace, log.hist, log.marks, k, cuts);
    var e := Reboots(log.area, After(log.base, log.cache.face.trace[..k]), cuts);
    HistAt(sys.fs.sb, log.hist, j);
    HomeSym(log.area, Recover(log.area, e), log.hist[j]);
    var a: Abs :| Shows(sys.fs.sb, log.hist[j], a);
    ShowsHome(sys.fs.sb, log.hist[j], Recover(log.area, e), a);
  }

  /** The state that recovery finds, in terms of the calls: the one after the first `n` of them, where `n` counts every
      call whose last boundary had arrived; or else call `n` is a write, and some of its chunks are there as well. The
      only inodes in use without a name are those that were open and unlinked then, and those left from before. */
  lemma CrashState(sys: Sys, ops: seq<Op>, snaps: seq<Snap>, ends: seq<nat>, answers: seq<Answer>, k: nat, cuts: seq<nat>, e: Disk) returns (j: nat, n: nat, b: Abs)
    requires sys.Halted() && k <= |sys.fs.log.cache.face.trace| && Explained(sys.fs.sb, sys.left, sys.fs.log.hist, ops, snaps, ends, answers)
    requires e == Reboots(sys.fs.log.area, After(sys.fs.log.base, sys.fs.log.cache.face.trace[..k]), cuts)
    ensures j < |sys.fs.log.hist| == |sys.fs.log.marks| && LastArrived(sys.fs.log.marks, k, j) && WellFormed(sys.fs.log.area, e)
    ensures ends[0] <= j + 1 ==> Recovered(sys.fs.sb, sys.left, Recover(sys.fs.log.area, e), b, ops, snaps, ends, n, j)
  {
    hide Shows, HomeEq, Recovers, WellFormed, Reboots, Recover, After, LastArrived, Recovered, Explained, DiskOk;
    j := CrashSafe(sys, k, cuts);
    var log := sys.fs.log;
    HomeSym(log.area, Recover(log.area, e), log.hist[j]);
    ExplainedFirst(sys.fs.sb, sys.left, log.hist, ops, snaps, ends, answers);
    n, b := 0, snaps[0].a;
    if ends[0] <= j + 1 {
      n, b := BoundaryState(sys.fs.sb, sys.left, log.hist, ops, snaps, ends, answers, j, Recover(log.area, e));
    }
  }

  /** Power comes back: whatever disk the crash and the interrupted recoveries left, boot finds exactly that
      boundary on it, and the system is in order again, ready for another run. */
  method Restart(sys: Sys, ghost k: nat, ghost cuts: seq<nat>, disk: Disk) returns (next: Sys, ghost j: nat)
    requires sys.Halted() && k <= |sys.fs.log.cache.face.trace|
    requires disk == Reboots(sys.fs.log.area, After(sys.fs.log.base, sys.fs.log.cache.face.trace[..k]), cuts)
    ensures next.Valid() && next.fs.sb == sys.fs.sb && next.fs.log.base == disk
    ensures j < |sys.fs.log.hist| == |sys.fs.log.marks| && LastArrived(sys.fs.log.marks, k, j)
    ensures next.fs.log.hist == [sys.fs.log.hist[j]] && HomeEq(sys.fs.log.area, next.fs.View(), sys.fs.log.hist[j])
    ensures Shows(sys.fs.sb, sys.fs.log.hist[j], next.fs.a) && next.left == Orphans(next.fs.a)
  {
    hide HistOk, Shows, HomeEq, Recovers, WellFormed, Reboots, Recover, After, TxnLog.Valid, Sys.Valid, LastArrived;
    j := CrashSafe(sys, k, cuts);
    next := new Sys(disk, sys.fs.sb, sys.fs.log.hist[j]);
  }

  lemma LogDurable(log: TxnLog)
    requires log.Valid()
    ensures |log.hist| == |log.marks| > 0 && Durable(log.area, log.base, log.cache.face.trace, log.hist, log.marks)
    ensures log.marks[|log.marks| - 1] == |log.cache.face.trace|
  {
  }

  lemma HistAt(sb: Super, hist: seq<Disk>, j: nat)
    requires HistOk(sb, hist) && j < |hist|
    ensures DiskOk(sb, hist[j])
  {
  }

  /** From mkfs through boot to any run of calls. The system comes up exactly if the files fit and nothing speaks against
      the image; it starts with the files that mkfs was given, and CrashState applies to all that follows. */
  method Lifetime(sb: Super, files: seq<Source>, ops: seq<Op>)
    returns (sys: Sys?, disk: Disk, why: Res<()>, ghost snaps: seq<Snap>, ghost ends: seq<nat>, ghost answers: seq<Answer>)
    requires sb.Ok() && |files| + 2 <= Wide(sb).ninodes && forall k :: 0 <= k < |ops| ==> ops[k].Ok()
    ensures sys != null <==> Fits(sb, files) && Orderly(sb, files)
    ensures sys != null ==> sys.Halted() && sys.fs.sb == sb && sys.fs.log.base == disk && [disk] <= sys.fs.log.hist && sys.left == {}
    ensures sys != null ==> Explained(sb, {}, sys.fs.log.hist, ops, snaps, ends, answers) && ends[0] == 1 && (why.Ok? <==> |answers| == |ops|)
    ensures sys != null ==> exists m: Map :: Made(sb, disk, snaps[0].a, m, files)
  {
    hide Made, Fits, Orderly, Sys.Valid, Sys.Halted, Shows, Recovers, Explained;
    ghost var a, m;
    var ok;
    ok, disk, a, m := Build(sb, files);
    sys, why, snaps, ends, answers := null, Ok(()), [], [], [];
    if ok && Orderly(sb, files) {
      MadeOk(sb, disk, a, m, files);
      MadeOrphans(sb, disk, a, m, files);
      sys := new Sys(disk, ReadSuper(disk[1]), disk);
      ShowsOne(sb, disk, a, sys.fs.a);
      why, snaps, ends, answers := Run(sys, ops);
    }
  }

  /** All inodes of the image have names. */
  lemma MadeOrphans(sb: Super, disk: Disk, a: Abs, m: Map, files: seq<Source>)
    requires |files| < 0x8000 && Made(sb, disk, a, m, files)
    ensures Orphans(a) == {}
  {
    hide WholeDisk, DirIs, RootEnts, Recovers;
    forall i | 0 <= i < |a.ino| ensures i !in Orphans(a) {
      if 2 <= i < |files| + 2 {
        var k := i - 2;
        assert FileIs(a, k + 2, files[k].content);
      }
    }
  }
}
