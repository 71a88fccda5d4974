/** proc.c, spinlock.c and trap.c: one CPU, its scheduler, and timer interrupts that may come whenever
    interrupts are on. */
module Sched {
  datatype PState = Unused | Runnable | Running

  /** struct cpu, and the interrupt flag. */
  datatype Cpu = Cpu(ncli: int, intena: bool, iflag: bool, proc: int)

  /** Where control is. */
  datatype Ctl =
    | Top                        // scheduler: before sti
    | Window                     // scheduler: interrupts on, before pushcli
    | Scan(p: nat)               // scheduler: about to look at slot p
    | Pop                        // scheduler: loop done, before popcli
    | Fresh(p: nat)              // a process that runs for the first time: in forkret, before popcli
    | Resumed(p: nat)            // a process that runs again: in sched, behind swtch
    | Unlock(p: nat)             // in yield, before popcli
    | Leave(p: nat)              // about to return from the trap, which turns interrupts on
    | Work(p: nat, depth: nat)   // running: user code, or kernel code inside `depth` critical sections
    | Trap(p: nat)               // the tick arrived while p was running: interrupts are off
    | Yielding(p: nat)           // in yield, behind pushcli
    | Sched(p: nat)              // in sched, before its checks

  /** `saved` is the local intena of sched, `untried` who has not run yet. `since[q]` are the processes started
      since q last was. */
  datatype State = State(cpu: Cpu, st: seq<PState>, ctl: Ctl, saved: seq<bool>, untried: seq<bool>, since: seq<seq<nat>>)

  /** pushcli and popcli. */
  function Pushcli(c: Cpu): (r: Cpu)
  {
    Cpu(c.ncli + 1, if c.ncli == 0 then c.iflag else c.intena, false, c.proc)
  }

  datatype Result = Ok(cpu: Cpu) | Panic

  function Popcli(c: Cpu): (r: Result)
  {
    if c.iflag || c.ncli - 1 < 0 then Panic
    else Ok(c.(ncli := c.ncli - 1, iflag := c.ncli - 1 == 0 && c.intena))
  }

  /** They nest: a popcli undoes its pushcli, and only the outermost pair turns interrupts back on. */
  lemma PushPop(c: Cpu)
    requires c.ncli >= 0 && (c.ncli > 0 ==> !c.iflag)
    ensures Popcli(Pushcli(c)).Ok? && Popcli(Pushcli(c)).cpu == c.(intena := if c.ncli == 0 then c.iflag else c.intena)
  {
  }

  /** `k` calls of one or of the other. */
  function Pushed(c: Cpu, k: nat): (r: Cpu)
  {
    if k == 0 then c else Pushcli(Pushed(c, k - 1))
  }

  function Popped(c: Cpu, k: nat): (r: Result)
    decreases k
  {
    if k == 0 then Ok(c) else if Popcli(c).Panic? then Panic else Popped(Popcli(c).cpu, k - 1)
  }

  lemma {:induction false} PushedIs(c: Cpu, k: nat)
    requires c.ncli == 0
    ensures Pushed(c, k) == if k == 0 then c else Cpu(k, c.iflag, false, c.proc)
  {
    if k > 0 {
      PushedIs(c, k - 1);
    }
  }

  lemma {:induction false} PoppedIs(c: Cpu, k: nat)
    requires 0 <= k <= c.ncli && !c.iflag
    ensures k > 0 ==> Popped(c, k) == Ok(c.(ncli := c.ncli - k, iflag := k == c.ncli && c.intena))
    ensures Popped(c, c.ncli + 1).Panic?
    decreases c.ncli
  {
    if c.ncli > 0 {
      var d := Popcli(c).cpu;
      if c.ncli > 1 {
        PoppedIs(d, if k > 0 then k - 1 else 0);
      } else {
        assert Popped(c, 2) == Popped(d, 1);
      }
      assert k > 0 ==> Popped(c, k) == Popped(d, k - 1);
    }
  }

  /** To any depth: with `k` pushclis open, fewer than `k` popclis leave interrupts off, the last one puts them back as they
      were, and one too many panics. */
  lemma Nesting(c: Cpu, k: nat, j: nat)
    requires c.ncli == 0 && 0 < j <= k
    ensures var r := Popped(Pushed(c, k), j); r.Ok? && r.cpu.ncli == k - j && r.cpu.iflag == (j == k && c.iflag) && r.cpu.proc == c.proc
    ensures Popped(Pushed(c, k), k + 1).Panic?
  {
    PushedIs(c, k);
    PoppedIs(Pushed(c, k), j);
  }

  predicate Sane(s: State)
  {
    |s.st| == |s.saved| == |s.untried| == |s.since|
  }

  predicate Start(s: State)
  {
    && Sane(s) && s.cpu == Cpu(0, false, false, -1) && s.ctl == Top
    && forall p :: 0 <= p < |s.st| ==> s.st[p] != Running && s.untried[p] && s.since[p] == []
  }

  /** Starting `x`: it has just run, for all others it is one more. */
  function Ran(since: seq<seq<nat>>, x: nat): (r: seq<seq<nat>>)
  {
    seq(|since|, q requires 0 <= q < |since| => if q == x then [] else since[q] + [x])
  }

  /** A timer interrupt, wherever interrupts are on: trap yields only if the current process is running. */
  predicate Tick(s: State, s': State)
  {
    && s.cpu.iflag
    && if 0 <= s.cpu.proc < |s.st| && s.st[s.cpu.proc] == Running
       then s' == s.(cpu := s.cpu.(iflag := false), ctl := Trap(s.cpu.proc)) else s' == s
  }

  /** Neither of the checks in sched makes it panic. */
  predicate SchedOk(s: State, p: nat)
  {
    p < |s.st| == |s.saved| && s.st[p] != Running && !s.cpu.iflag
  }

  /** One step of whoever has control; a panic is a step that does not exist. */
  predicate Step(s: State, s': State)
    requires Sane(s)
  {
    match s.ctl
    case Top => s' == s.(cpu := s.cpu.(iflag := true), ctl := Window)
    case Window => s' == s.(cpu := Pushcli(s.cpu), ctl := Scan(0))
    case Scan(p) =>
      if p >= |s.st| then s' == s.(ctl := Pop)
      else if s.st[p] != Runnable then s' == s.(ctl := Scan(p + 1))
      else s' == s.(cpu := s.cpu.(proc := p), st := s.st[p := Running], untried := s.untried[p := false], since := Ran(s.since, p),
                    ctl := if s.untried[p] then Fresh(p) else Resumed(p))
    case Pop => Popcli(s.cpu).Ok? && s' == s.(cpu := Popcli(s.cpu).cpu, ctl := Top)
    case Fresh(p) => Popcli(s.cpu).Ok? && s' == s.(cpu := Popcli(s.cpu).cpu, ctl := Leave(p))
    case Resumed(p) => p < |s.saved| && s' == s.(cpu := s.cpu.(intena := s.saved[p]), ctl := Unlock(p))
    case Unlock(p) => Popcli(s.cpu).Ok? && s' == s.(cpu := Popcli(s.cpu).cpu, ctl := Leave(p))
    case Leave(p) => s' == s.(cpu := s.cpu.(iflag := true), ctl := Work(p, 0))
    case Work(p, depth) =>
      || s' == s.(cpu := Pushcli(s.cpu), ctl := Work(p, depth + 1))
      || (depth > 0 && Popcli(s.cpu).Ok? && s' == s.(cpu := Popcli(s.cpu).cpu, ctl := Work(p, depth - 1)))
    case Trap(p) => s' == s.(cpu := Pushcli(s.cpu), ctl := Yielding(p))
    case Yielding(p) => 0 <= s.cpu.proc < |s.st| && s' == s.(st := s.st[s.cpu.proc := Runnable], ctl := Sched(s.cpu.proc))
    case Sched(p) =>
      // save intena and switch to the scheduler, which goes on behind the slot it had chosen
      SchedOk(s, p) && s' == s.(saved := s.saved[p := s.cpu.intena], ctl := Scan(p + 1))
  }

  predicate Next(s: State, s': State)
  {
    Sane(s) && (Step(s, s') || Tick(s, s'))
  }

  ghost predicate IsRun(run: seq<State>)
  {
    run != [] && Start(run[0]) && forall k :: 0 <= k < |run| - 1 ==> Next(run[k], run[k + 1])
  }

  /** The process that is running, if any; in sched it has given that up. */
  function Current(ctl: Ctl): (p: int)
  {
    match ctl
    case Top => -1
    case Window => -1
    case Scan(_) => -1
    case Pop => -1
    case Fresh(p) => p
    case Resumed(p) => p
    case Unlock(p) => p
    case Leave(p) => p
    case Work(p, _) => p
    case Trap(p) => p
    case Yielding(p) => p
    case Sched(_) => -1
  }

  /** How many critical sections are open, and whether interrupts can be on. */
  predicate Depth(s: State)
  {
    match s.ctl
    case Top => s.cpu.ncli == 0
    case Window => s.cpu.ncli == 0 && s.cpu.iflag
    case Scan(_) => s.cpu.ncli == 1 && !s.cpu.iflag
    case Pop => s.cpu.ncli == 1 && !s.cpu.iflag
    case Fresh(_) => s.cpu.ncli == 1 && !s.cpu.iflag
    case Resumed(_) => s.cpu.ncli == 1 && !s.cpu.iflag
    case Unlock(_) => s.cpu.ncli == 1 && !s.cpu.iflag
    case Leave(_) => s.cpu.ncli == 0
    case Work(_, depth) => s.cpu.ncli == depth && (depth == 0 ==> s.cpu.iflag) && (depth > 0 ==> !s.cpu.iflag && s.cpu.intena)
    case Trap(_) => s.cpu.ncli == 0 && !s.cpu.iflag
    case Yielding(_) => s.cpu.ncli == 1 && !s.cpu.iflag
    case Sched(p) => s.cpu.ncli == 1 && !s.cpu.iflag && s.cpu.proc == p < |s.st|
  }

  /** Exactly the process that has control is running, and it is the CPU's current one. */
  predicate OneRunning(s: State)
  {
    && (forall p :: 0 <= p < |s.st| ==> (s.st[p] == Running <==> p == Current(s.ctl)))
    && (Current(s.ctl) >= 0 ==> Current(s.ctl) < |s.st| && s.cpu.proc == Current(s.ctl))
    && s.cpu.proc < |s.st|
  }

  /** Where the scheduler's scan is: the slots before `Position` have been passed in this round. */
  function Position(s: State): (n: nat)
  {
    match s.ctl
    case Top => |s.st|
    case Window => |s.st|
    case Pop => |s.st|
    case Scan(p) => p
    case _ => if s.cpu.proc >= 0 then s.cpu.proc + 1 else 0
  }

  /** Since q last ran, the processes started are those behind q in one round and those before the scan's
      position in the next, each at most once. */
  predicate Fair(s: State, q: nat)
    requires q < |s.since|
  {
    && (forall i, j :: 0 <= i < j < |s.since[q]| ==> s.since[q][i] != s.since[q][j])
    && forall i :: 0 <= i < |s.since[q]| ==> s.since[q][i] < |s.st| && Between(q, Position(s), s.since[q][i])
  }

  predicate Between(q: nat, pos: nat, y: nat)
  {
    y != q && if pos > q then q < y < pos else y > q || y < pos
  }

  predicate Inv(s: State)
  {
    && Sane(s) && Depth(s) && OneRunning(s) && Position(s) <= |s.st|
    && forall q :: 0 <= q < |s.st| ==> (s.st[q] == Runnable ==> Fair(s, q)) && (s.st[q] == Running ==> s.since[q] == [])
  }

  lemma TickKeeps(s: State, s': State)
    requires Inv(s) && Tick(s, s')
    ensures Inv(s')
  {
  }

  lemma StepDepth(s: State, s': State)
    requires Inv(s) && Step(s, s')
    ensures Sane(s') && Depth(s')
  {
    hide Fair;
  }

  lemma StepRunning(s: State, s': State)
    requires Inv(s) && Step(s, s')
    ensures OneRunning(s') && Position(s') <= |s'.st|
  {
    hide Fair;
  }

  /** Starting `p` at position `p` of the scan. */
  lemma Started(s: State, s': State, p: nat, q: nat)
    requires Sane(s) && q < |s.since| && Fair(s, q) && q != p < |s.st| == |s'.st| && Position(s) == p && Position(s') == p + 1 && s'.since == Ran(s.since, p)
    ensures Fair(s', q)
  {
  }

  lemma Passed(s: State, s': State, q: nat)
    requires Sane(s) && Sane(s') && q < |s.since| && Fair(s, q) && s'.since == s.since && |s'.st| == |s.st|
    requires Position(s') == Position(s) || (Position(s') == Position(s) + 1 && Position(s) != q) || (Position(s) > q && Position(s') == 0)
    ensures Fair(s', q)
  {
  }

  lemma StepFair(s: State, s': State, q: nat)
    requires Inv(s) && Step(s, s') && q < |s'.st| && Sane(s')
    ensures (s'.st[q] == Runnable ==> Fair(s', q)) && (s'.st[q] == Running ==> s'.since[q] == [])
  {
    if s.st[q] == Runnable && s'.st[q] == Runnable {
      if s.ctl.Scan? && s.ctl.p < |s.st| && s.st[s.ctl.p] == Runnable {
        Started(s, s', s.ctl.p, q);
      } else {
        hide Fair;
        Passed(s, s', q);
      }
    }
  }

  lemma StepKeeps(s: State, s': State)
    requires Inv(s) && Step(s, s')
    ensures Inv(s')
  {
    StepDepth(s, s');
    StepRunning(s, s');
    hide Step, Fair, Depth, OneRunning;
    forall q | 0 <= q < |s'.st| ensures (s'.st[q] == Runnable ==> Fair(s', q)) && (s'.st[q] == Running ==> s'.since[q] == []) {
      StepFair(s, s', q);
    }
  }

  lemma {:induction false} RunKeeps(run: seq<State>, k: nat)
    requires IsRun(run) && k < |run|
    ensures Inv(run[k])
  {
    if k > 0 {
      RunKeeps(run, k - 1);
      assert Next(run[k - 1], run[k - 1 + 1]);
      hide Step, Tick, Inv;
      if Tick(run[k - 1], run[k]) {
        TickKeeps(run[k - 1], run[k]);
      } else {
        StepKeeps(run[k - 1], run[k]);
      }
    }
  }

  /** A swtch: into a process or back into the scheduler. */
  predicate Switches(s: State, s': State)
  {
    (s.ctl.Scan? && (s'.ctl.Fresh? || s'.ctl.Resumed?)) || (s.ctl.Sched? && s'.ctl.Scan?)
  }

  /** In every run, at every switch one pushcli is open and interrupts are off; at most one process is running, the CPU's
      current one; a tick in the scheduler never yields; no popcli panics, and sched finds its caller not running and
      interrupts off. */
  lemma SwitchesAreSafe(run: seq<State>, k: nat)
    requires IsRun(run) && k < |run|
    ensures Inv(run[k])
    ensures k + 1 < |run| && Switches(run[k], run[k + 1]) ==> run[k].cpu.ncli == 1 && !run[k].cpu.iflag
    ensures k + 1 < |run| && Current(run[k].ctl) < 0 && Tick(run[k], run[k + 1]) ==> run[k + 1] == run[k]
    ensures run[k].ctl in {Pop} || run[k].ctl.Fresh? || run[k].ctl.Unlock? || (run[k].ctl.Work? && run[k].ctl.depth > 0) ==> Popcli(run[k].cpu).Ok?
    ensures run[k].ctl.Sched? ==> SchedOk(run[k], run[k].ctl.p)
    ensures forall p, q :: 0 <= p < |run[k].st| && 0 <= q < |run[k].st| && run[k].st[p] == run[k].st[q] == Running ==> p == q == run[k].cpu.proc
  {
    RunKeeps(run, k);
  }

  /** In every run there is a next step, so nothing panics; and who is in a critical section can leave it. */
  lemma NeverPanics(run: seq<State>, k: nat)
    requires IsRun(run) && k < |run|
    ensures Sane(run[k]) && exists s' :: Step(run[k], s') && (run[k].ctl.Work? && run[k].ctl.depth > 0 ==> s'.ctl == Work(run[k].ctl.p, run[k].ctl.depth - 1))
  {
    RunKeeps(run, k);
    hide Fair;
    var s := run[k];
    var s' := match s.ctl
      case Top => s.(cpu := s.cpu.(iflag := true), ctl := Window)
      case Window => s.(cpu := Pushcli(s.cpu), ctl := Scan(0))
      case Scan(p) =>
        if p >= |s.st| then s.(ctl := Pop)
        else if s.st[p] != Runnable then s.(ctl := Scan(p + 1))
        else s.(cpu := s.cpu.(proc := p), st := s.st[p := Running], untried := s.untried[p := false], since := Ran(s.since, p),
                ctl := if s.untried[p] then Fresh(p) else Resumed(p))
      case Pop => s.(cpu := Popcli(s.cpu).cpu, ctl := Top)
      case Fresh(p) => s.(cpu := Popcli(s.cpu).cpu, ctl := Leave(p))
      case Resumed(p) => s.(cpu := s.cpu.(intena := s.saved[p]), ctl := Unlock(p))
      case Unlock(p) => s.(cpu := Popcli(s.cpu).cpu, ctl := Leave(p))
      case Leave(p) => s.(cpu := s.cpu.(iflag := true), ctl := Work(p, 0))
      case Work(p, depth) => if depth == 0 then s.(cpu := Pushcli(s.cpu), ctl := Work(p, 1)) else s.(cpu := Popcli(s.cpu).cpu, ctl := Work(p, depth - 1))
      case Trap(p) => s.(cpu := Pushcli(s.cpu), ctl := Yielding(p))
      case Yielding(p) => s.(st := s.st[s.cpu.proc := Runnable], ctl := Sched(s.cpu.proc))
      case Sched(p) => s.(saved := s.saved[p := s.cpu.intena], ctl := Scan(p + 1));
    assert Step(s, s');
  }

  /** Between two runs of a process that stays runnable, every other slot runs at most once. */
  lemma RoundRobin(run: seq<State>, k: nat, q: nat)
    requires IsRun(run) && k < |run| && q < |run[k].st| && run[k].st[q] == Runnable
    ensures q < |run[k].since| && |run[k].since[q]| < |run[k].st|
    ensures forall i, j :: 0 <= i < j < |run[k].since[q]| ==> run[k].since[q][i] != run[k].since[q][j]
  {
    RunKeeps(run, k);
    assert Fair(run[k], q);
    DistinctSize(run[k].since[q], |run[k].st|, q);
  }

  /** The scheduler starts process `x`. */
  predicate Starts(s: State, s': State, x: nat)
  {
    s.ctl == Scan(x) && x < |s.st| == |s'.st| && s.st[x] == Runnable && s'.st[x] == Running
  }

  predicate StartsAt(run: seq<State>, k: nat, x: nat)
  {
    k < |run| - 1 && Starts(run[k], run[k + 1], x)
  }

  lemma SinceStep(s: State, s': State, q: nat)
    requires Inv(s) && Next(s, s') && q < |s.st|
    ensures |s'.st| == |s.st| == |s'.since| == |s.since| && (Starts(s, s', q) || s.since[q] <= s'.since[q])
    ensures forall x :: x != q && Starts(s, s', x) ==> s'.since[q] == s.since[q] + [x] && s'.st[q] == s.st[q]
  {
  }

  lemma InvSane(s: State)
    requires Inv(s)
    ensures Sane(s)
  {
  }

  lemma {:induction false} SinceGrows(run: seq<State>, i: nat, j: nat, q: nat)
    requires IsRun(run) && i <= j < |run| && q < |run[i].st| && forall m :: i <= m < j ==> !StartsAt(run, m, q)
    ensures |run[j].st| == |run[i].st| == |run[i].since| == |run[j].since| && run[i].since[q] <= run[j].since[q]
  {
    hide Inv, Next, Starts;
    if i < j {
      SinceGrows(run, i, j - 1, q);
      RunKeeps(run, j - 1);
      assert Next(run[j - 1], run[j - 1 + 1]);
      SinceStep(run[j - 1], run[j], q);
      assert !StartsAt(run, j - 1, q);
    } else {
      RunKeeps(run, i);
      InvSane(run[i]);
    }
  }

  /** When the scan reaches a process, no waiting process has seen it started. */
  lemma NotYet(s: State, q: nat)
    requires Inv(s) && q < |s.st| && s.st[q] == Runnable
    ensures q < |s.since| && Position(s) !in s.since[q]
  {
    assert Fair(s, q);
  }

  /** Nobody is overtaken: between two starts of the same process, every process that waits at the second of them
      has been started. */
  lemma NoOvertaking(run: seq<State>, i: nat, j: nat, x: nat, q: nat)
    requires IsRun(run) && i < j && StartsAt(run, i, x) && StartsAt(run, j, x)
    requires q != x && q < |run[j].st| && run[j].st[q] == Runnable
    ensures exists m :: i < m < j && StartsAt(run, m, q)
  {
    hide Inv, Next;
    if forall m :: i < m < j ==> !StartsAt(run, m, q) {
      SameSize(run, i, j);
      RunKeeps(run, i);
      assert Next(run[i], run[i + 1]);
      SinceStep(run[i], run[i + 1], q);
      assert run[i + 1].since[q][|run[i].since[q]|] == x;
      RunKeeps(run, j);
      NotYet(run[j], q);
      SinceGrows(run, i + 1, j, q);
    }
  }

  lemma {:induction false} SameSize(run: seq<State>, i: nat, j: nat)
    requires IsRun(run) && i <= j < |run|
    ensures |run[j].st| == |run[i].st|
  {
    hide Next;
    if i < j {
      SameSize(run, i, j - 1);
      assert Next(run[j - 1], run[j - 1 + 1]);
      NextSize(run[j - 1], run[j]);
    }
  }

  lemma NextSize(s: State, s': State)
    requires Next(s, s')
    ensures |s'.st| == |s.st|
  {
  }

  // What preemption does.

  /** One step makes nobody disappear and nobody appear. */
  lemma StepUnused(s: State, s': State, p: nat)
    requires Inv(s) && Next(s, s') && p < |s.st|
    ensures |s'.st| == |s.st| && (s'.st[p] == Unused <==> s.st[p] == Unused)
  {
  }

  /** In every run a process that is there stays: it is running or waiting, whatever happens to it. */
  lemma {:induction false} NobodyIsLost(run: seq<State>, k: nat, p: nat)
    requires IsRun(run) && k < |run| && p < |run[0].st|
    ensures |run[k].st| == |run[0].st| && (run[k].st[p] == Unused <==> run[0].st[p] == Unused)
  {
    hide Inv, Next;
    if k > 0 {
      NobodyIsLost(run, k - 1, p);
      RunKeeps(run, k - 1);
      assert Next(run[k - 1], run[k - 1 + 1]);
      StepUnused(run[k - 1], run[k], p);
    }
  }

  /** While q waits and the scan has not come to it, one step starts it or leaves it waiting in front of the scan. */
  lemma ScanStep(s: State, s': State, q: nat)
    requires Inv(s) && Next(s, s') && q < |s.st| && s.st[q] == Runnable && Position(s) <= q && !s.ctl.Pop?
    ensures Sane(s') && |s'.st| == |s.st| && (Starts(s, s', q) || (s'.st[q] == Runnable && Position(s') <= q))
  {
    hide Fair;
  }

  lemma {:induction false} ScanReaches(run: seq<State>, i: nat, k: nat, q: nat)
    requires IsRun(run) && i <= k < |run| && run[i].ctl == Scan(0) && q < |run[i].st| && run[i].st[q] == Runnable
    requires (forall m :: i <= m < k ==> !run[m].ctl.Pop?) && forall m :: i <= m < k ==> !StartsAt(run, m, q)
    ensures |run[k].st| == |run[i].st| && run[k].st[q] == Runnable && Position(run[k]) <= q
  {
    hide Inv, Next, Starts;
    if i < k {
      ScanReaches(run, i, k - 1, q);
      RunKeeps(run, k - 1);
      assert Next(run[k - 1], run[k - 1 + 1]);
      ScanStep(run[k - 1], run[k], q);
      assert !StartsAt(run, k - 1, q);
    }
  }

  /** A scan from the first slot to the end starts every process that was waiting when it began. */
  lemma ScanStartsAll(run: seq<State>, i: nat, k: nat, q: nat)
    requires IsRun(run) && i <= k < |run| && run[i].ctl == Scan(0) && run[k].ctl == Pop && (forall m :: i <= m < k ==> !run[m].ctl.Pop?)
    requires q < |run[i].st| && run[i].st[q] == Runnable
    ensures exists m :: i <= m < k && StartsAt(run, m, q)
  {
    if forall m :: i <= m < k ==> !StartsAt(run, m, q) {
      ScanReaches(run, i, k, q);
    }
  }

  /** No tick comes during a scan, so each of its steps looks at one slot. */
  lemma ScanNext(run: seq<State>, k: nat, p: nat)
    requires IsRun(run) && k + 1 < |run| && run[k].ctl == Scan(p)
    ensures |run[k + 1].st| == |run[k].st| && p <= |run[k].st|
    ensures if p == |run[k].st| then run[k + 1] == run[k].(ctl := Pop)
            else if run[k].st[p] == Runnable then StartsAt(run, k, p) else run[k + 1] == run[k].(ctl := Scan(p + 1))
  {
    RunKeeps(run, k);
    assert Next(run[k], run[k + 0 + 1]);
    hide Fair;
  }

  /** A scan starts the first waiting process that it comes to, and it gets there in as many steps as there are slots
      before it. */
  lemma {:induction false} ScanFinds(run: seq<State>, k: nat, p: nat, q: nat)
    requires IsRun(run) && k < |run| && run[k].ctl == Scan(p) && p <= q < |run[k].st| && k + q - p + 1 < |run|
    requires run[k].st[q] == Runnable && forall x :: p <= x < q ==> run[k].st[x] != Runnable
    ensures StartsAt(run, k + q - p, q)
    decreases q - p
  {
    hide IsRun;
    ScanNext(run, k, p);
    if p < q {
      ScanFinds(run, k + 1, p + 1, q);
    }
  }

  /** If none waits, the round ends after the last slot. */
  lemma {:induction false} ScanEnds(run: seq<State>, k: nat, p: nat)
    requires IsRun(run) && k < |run| && run[k].ctl == Scan(p) && p <= |run[k].st| && k + |run[k].st| - p + 1 < |run|
    requires forall x :: p <= x < |run[k].st| ==> run[k].st[x] != Runnable
    ensures run[k + |run[k].st| - p + 1].ctl == Pop
    decreases |run[k].st| - p
  {
    hide IsRun;
    ScanNext(run, k, p);
    if p < |run[k].st| {
      ScanEnds(run, k + 1, p + 1);
    }
  }

  /** And the next one begins at the first slot; in between there may be ticks, which change nothing. */
  lemma Rounds(run: seq<State>, k: nat)
    requires IsRun(run) && k + 1 < |run|
    ensures run[k].ctl == Pop ==> run[k + 1].ctl == Top && run[k + 1].st == run[k].st
    ensures run[k].ctl == Top ==> run[k + 1] == run[k] || (run[k + 1].ctl == Window && run[k + 1].cpu.iflag && run[k + 1].st == run[k].st)
    ensures run[k].ctl == Window ==> run[k + 1] == run[k] || (run[k + 1].ctl == Scan(0) && run[k + 1].st == run[k].st)
  {
    RunKeeps(run, k);
    assert Next(run[k], run[k + 0 + 1]);
    hide Fair;
  }

  /** A tick that comes while p has control takes it away: p saves its interrupt state, off since the trap, and
      waits, and the scan goes on behind it. Nothing comes in between. */
  lemma TickPreempts(run: seq<State>, k: nat, p: nat)
    requires IsRun(run) && k + 4 < |run| && Current(run[k].ctl) == p && Tick(run[k], run[k + 1])
    ensures run[k + 4].ctl == Scan(p + 1) && p < |run[k + 4].st| == |run[k + 4].saved| && run[k + 4].st[p] == Runnable && !run[k + 4].saved[p]
  {
    RunKeeps(run, k);
    assert run[k + 1].ctl == Trap(p);
    assert Next(run[k + 1], run[k + 1 + 1]) && Next(run[k + 2], run[k + 2 + 1]) && Next(run[k + 3], run[k + 3 + 1]);
    hide Fair;
    assert run[k + 2].ctl == Yielding(p) && !run[k + 2].cpu.intena;
    assert run[k + 3].ctl == Sched(p);
  }

  /** A process that has run before was preempted by a trap, so the interrupt state it saved is off. */
  predicate SavedOff(s: State)
  {
    && Sane(s) && ((s.ctl.Yielding? || s.ctl.Sched?) ==> !s.cpu.intena)
    && (forall p :: 0 <= p < |s.st| && s.st[p] == Runnable && !s.untried[p] && s.ctl != Sched(p) ==> !s.saved[p])
    && (s.ctl.Resumed? && s.ctl.p < |s.st| ==> !s.saved[s.ctl.p])
  }

  lemma SavedOffStart(s: State)
    requires Start(s)
    ensures SavedOff(s)
  {
  }

  lemma SavedOffStep(s: State, s': State)
    requires Depth(s) && Next(s, s') && SavedOff(s)
    ensures SavedOff(s')
  {
  }

  lemma {:induction false} RunSavedOff(run: seq<State>, k: nat)
    requires IsRun(run) && k < |run|
    ensures SavedOff(run[k])
  {
    hide Fair, OneRunning, Depth, Next, SavedOff;
    if k == 0 {
      SavedOffStart(run[0]);
    } else {
      RunSavedOff(run, k - 1);
      RunKeeps(run, k - 1);
      assert Next(run[k - 1], run[k - 1 + 1]);
      SavedOffStep(run[k - 1], run[k]);
    }
  }

  /** Who has not been started yet. */
  lemma {:induction false} Untried(run: seq<State>, k: nat, p: nat)
    requires IsRun(run) && k < |run| && p < |run[0].st|
    ensures |run[k].untried| == |run[0].st| && (run[k].untried[p] <==> forall m :: 0 <= m < k ==> !StartsAt(run, m, p))
  {
    hide Inv, Next, Starts;
    if k > 0 {
      Untried(run, k - 1, p);
      RunKeeps(run, k - 1);
      assert Next(run[k - 1], run[k - 1 + 1]);
      UntriedStep(run[k - 1], run[k], p);
      assert StartsAt(run, k - 1, p) <==> Starts(run[k - 1], run[k], p);
    }
  }

  lemma UntriedStep(s: State, s': State, p: nat)
    requires Inv(s) && Next(s, s') && p < |s.untried|
    ensures |s'.untried| == |s.untried| && (s'.untried[p] <==> s.untried[p] && !Starts(s, s', p))
    ensures Starts(s, s', p) ==> s'.ctl == if s.untried[p] then Fresh(p) else Resumed(p)
  {
    hide Fair;
  }

  /** A process goes to its entry point the first time it is started, and back to where it was each time after. */
  lemma FreshOnce(run: seq<State>, k: nat, p: nat)
    requires IsRun(run) && StartsAt(run, k, p) && p < |run[0].st|
    ensures run[k + 1].ctl == if exists m :: 0 <= m < k && StartsAt(run, m, p) then Resumed(p) else Fresh(p)
  {
    Untried(run, k, p);
    RunKeeps(run, k);
    assert Next(run[k], run[k + 0 + 1]);
    hide Inv, Next, Starts;
    UntriedStep(run[k], run[k + 1], p);
  }

  /** A process that is started for the first time is at its work two steps later, unless a tick comes before. */
  lemma FreshWorks(run: seq<State>, k: nat, p: nat)
    requires IsRun(run) && k + 2 < |run| && run[k].ctl == Fresh(p)
    ensures run[k + 1].ctl == Leave(p) && (run[k + 2].ctl == Trap(p) || (run[k + 2].ctl == Work(p, 0) && run[k + 2].cpu.iflag))
    ensures run[k + 1].cpu.proc == run[k + 2].cpu.proc == p
  {
    RunKeeps(run, k);
    assert Next(run[k], run[k + 0 + 1]) && Next(run[k + 1], run[k + 1 + 1]);
    hide Fair;
    assert run[k + 1].ctl == Leave(p);
  }

  /** So a process that is started again is back at its work three steps later, and has interrupts on there. */
  lemma ResumesWork(run: seq<State>, k: nat, p: nat)
    requires IsRun(run) && k + 3 < |run| && run[k].ctl == Resumed(p)
    ensures run[k + 3].ctl == Work(p, 0) && run[k + 3].cpu.iflag && run[k + 3].cpu.ncli == 0 && run[k + 3].cpu.proc == p
  {
    RunKeeps(run, k);
    RunSavedOff(run, k);
    assert Next(run[k], run[k + 0 + 1]) && Next(run[k + 1], run[k + 1 + 1]) && Next(run[k + 2], run[k + 2 + 1]);
    hide Fair;
    assert run[k + 1].ctl == Unlock(p) && !run[k + 1].cpu.intena && run[k + 1].cpu.ncli == 1;
    assert run[k + 2].ctl == Leave(p) && !run[k + 2].cpu.iflag;
  }

  /** Distinct slots other than q are fewer than all slots. */
  lemma DistinctSize(s: seq<nat>, n: nat, q: nat)
    requires q < n && (forall i :: 0 <= i < |s| ==> s[i] < n && s[i] != q) && forall i, j :: 0 <= i < j < |s| ==> s[i] != s[j]
    ensures |s| < n
  {
    var some := set i | 0 <= i < |s| :: s[i];
    SeqSize(s, some);
    Fewer(some + {q}, n);
    assert q !in some;
  }

  lemma {:induction false} Fewer(r: set<nat>, n: nat)
    requires forall x :: x in r ==> x < n
    ensures |r| <= n
  {
    if n > 0 {
      Fewer(r - {n - 1}, n - 1);
    } else {
      assert r == {};
    }
  }

  lemma {:induction false} SeqSize(s: seq<nat>, r: set<nat>)
    requires (forall i, j :: 0 <= i < j < |s| ==> s[i] != s[j]) && r == set i | 0 <= i < |s| :: s[i]
    ensures |r| == |s|
  {
    if s != [] {
      var k := |s| - 1;
      SeqSize(s[..k], set i | 0 <= i < k :: s[..k][i]);
      assert r == (set i | 0 <= i < k :: s[..k][i]) + {s[k]};
    }
  }
}
