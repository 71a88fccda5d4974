/** 09/peterson-fence.c and 09/peterson-breaks.c: Peterson's algorithm on a machine with store buffers (total
    store order), where a store becomes visible to the other thread only when it leaves the buffer. */
module Peterson {
  datatype Var = Flag(t: nat) | Turn | Counter

  datatype Store = Store(x: Var, v: int)

  /** Where a thread is: before the named statement. The loop condition is two loads, counter++ is a load and
      a store. */
  datatype Pc = SetFlag | SetTurn | Fence | LoadFlag | LoadTurn | LoadCounter | StoreCounter | ClearFlag | Done

  datatype Thread = Thread(pc: Pc, buf: seq<Store>, reg: int)

  datatype State = State(flag: seq<int>, turn: int, counter: int, th: seq<Thread>)

  /** producer is thread 0 and adds one, consumer is thread 1 and subtracts one. */
  function Delta(t: nat): (d: int) { if t == 0 then 1 else -1 }

  predicate Start(s: State)
  {
    s == State([0, 0], 0, 0, [Thread(SetFlag, [], 0), Thread(SetFlag, [], 0)])
  }

  function Memory(s: State, x: Var): (v: int)
    requires |s.flag| == 2 && (x.Flag? ==> x.t < 2)
  {
    match x
    case Flag(t) => s.flag[t]
    case Turn => s.turn
    case Counter => s.counter
  }

  /** A load sees the thread's own newest buffered store, else memory. */
  function Load(s: State, buf: seq<Store>, x: Var): (v: int)
    requires |s.flag| == 2 && (x.Flag? ==> x.t < 2)
  {
    if buf == [] then Memory(s, x)
    else if buf[|buf| - 1].x == x then buf[|buf| - 1].v
    else Load(s, buf[..|buf| - 1], x)
  }

  /** The oldest store of thread `t` reaches memory. */
  predicate Flush(s: State, s': State, t: nat)
    requires t < |s.th| == 2 && |s.flag| == 2
  {
    && s.th[t].buf != []
    && var st, th := s.th[t].buf[0], s.th[t := s.th[t].(buf := s.th[t].buf[1..])];
    match st.x
    case Flag(u) => u < 2 && s' == s.(flag := s.flag[u := st.v], th := th)
    case Turn => s' == s.(turn := st.v, th := th)
    case Counter => s' == s.(counter := st.v, th := th)
  }

  /** Thread `t` after its next instruction. */
  function Next(s: State, t: nat): (th: Thread)
    requires t < |s.th| == 2 && |s.flag| == 2
  {
    var o, me := 1 - t, s.th[t];
    match me.pc
    case SetFlag => me.(pc := SetTurn, buf := me.buf + [Store(Flag(t), 1)])
    case SetTurn => me.(pc := Fence, buf := me.buf + [Store(Turn, o)])
    case Fence => me.(pc := LoadFlag)
    case LoadFlag => me.(pc := if Load(s, me.buf, Flag(o)) != 0 then LoadTurn else LoadCounter)
    case LoadTurn => me.(pc := if Load(s, me.buf, Turn) == o then LoadFlag else LoadCounter)
    case LoadCounter => me.(pc := StoreCounter, reg := Load(s, me.buf, Counter))
    case StoreCounter => me.(pc := ClearFlag, buf := me.buf + [Store(Counter, me.reg + Delta(t))])
    case ClearFlag => me.(pc := Done, buf := me.buf + [Store(Flag(t), 0)])
    case Done => me
  }

  /** Thread `t` executes its next instruction; without `fenced` the barrier is missing. */
  predicate Execute(s: State, s': State, t: nat, fenced: bool)
    requires t < |s.th| == 2 && |s.flag| == 2
  {
    && s.th[t].pc != Done && (fenced && s.th[t].pc == Fence ==> s.th[t].buf == [])
    && s' == s.(th := s.th[t := Next(s, t)])
  }

  predicate Step(s: State, s': State, fenced: bool)
  {
    |s.th| == 2 && |s.flag| == 2 && exists t :: 0 <= t < 2 && (Flush(s, s', t) || Execute(s, s', t, fenced))
  }

  /** Any interleaving of instructions and buffer flushes. */
  ghost predicate IsRun(run: seq<State>, fenced: bool)
  {
    run != [] && Start(run[0]) && forall k :: 0 <= k < |run| - 1 ==> Step(run[k], run[k + 1], fenced)
  }

  predicate InSection(s: State, t: nat)
    requires t < |s.th|
  {
    s.th[t].pc in {LoadCounter, StoreCounter, ClearFlag}
  }

  /** The section as memory sees it: until the cleared flag is visible. */
  predicate Inside(th: Thread)
  {
    th.pc in {LoadCounter, StoreCounter, ClearFlag} || (th.pc == Done && th.buf != [])
  }

  /** What a thread's buffer can hold at each point, and what its flag in memory is. */
  predicate Shape(s: State, t: nat)
    requires t < |s.th| == 2 && |s.flag| == 2
  {
    var me, o := s.th[t], 1 - t;
    match me.pc
    case SetFlag => me.buf == [] && s.flag[t] == 0
    case SetTurn => (me.buf == [Store(Flag(t), 1)] && s.flag[t] == 0) || (me.buf == [] && s.flag[t] == 1)
    case Fence =>
      || (me.buf == [Store(Flag(t), 1), Store(Turn, o)] && s.flag[t] == 0)
      || ((me.buf == [Store(Turn, o)] || me.buf == []) && s.flag[t] == 1)
    case ClearFlag => s.flag[t] == 1 && (me.buf == [] || me.buf == [Store(Counter, s.counter + Delta(t))])
    case Done =>
      || (s.flag[t] == 1 && me.buf == [Store(Counter, s.counter + Delta(t)), Store(Flag(t), 0)])
      || (s.flag[t] == 1 && me.buf == [Store(Flag(t), 0)])
      || (s.flag[t] == 0 && me.buf == [])
    case StoreCounter => me.buf == [] && s.flag[t] == 1 && me.reg == s.counter
    case _ => me.buf == [] && s.flag[t] == 1
  }

  /** Thread `t` has set turn in memory and waits. */
  predicate Waits(s: State, t: nat)
    requires t < |s.th|
  {
    (s.th[t].pc == Fence && s.th[t].buf == []) || s.th[t].pc == LoadFlag || s.th[t].pc == LoadTurn
  }

  /** The counter update of thread `t` has reached memory. */
  predicate Applied(s: State, t: nat)
    requires t < |s.th|
  {
    (s.th[t].pc == ClearFlag || s.th[t].pc == Done) && (s.th[t].buf == [] || !s.th[t].buf[0].x.Counter?)
  }

  function Share(s: State, t: nat): (d: int)
    requires t < |s.th|
  {
    if Applied(s, t) then Delta(t) else 0
  }

  /** While one thread is inside, the other is not, and if it waits the turn is not its own. */
  predicate Inv(s: State)
  {
    && |s.th| == 2 && |s.flag| == 2 && 0 <= s.turn < 2 && Shape(s, 0) && Shape(s, 1)
    && !(Inside(s.th[0]) && Inside(s.th[1]))
    && (Inside(s.th[0]) && Waits(s, 1) ==> s.turn == 0)
    && (Inside(s.th[1]) && Waits(s, 0) ==> s.turn == 1)
    && s.counter == Share(s, 0) + Share(s, 1)
  }

  lemma FlushShape(s: State, s': State, t: nat)
    requires Inv(s) && t < 2 && Flush(s, s', t)
    ensures |s'.th| == 2 && |s'.flag| == 2 && 0 <= s'.turn < 2 && Shape(s', t)
  {
    Rest(s.th[t].buf);
  }

  lemma FlushOther(s: State, s': State, t: nat)
    requires Inv(s) && t < 2 && Flush(s, s', t)
    ensures |s'.th| == 2 && |s'.flag| == 2 && Shape(s', 1 - t)
  {
    Rest(s.th[t].buf);
    if t == 0 {
    } else {
      assert t == 1;
    }
  }

  /** The buffers hold at most two stores. */
  lemma Rest(buf: seq<Store>)
    requires 1 <= |buf| <= 2
    ensures buf[1..] == if |buf| == 2 then [buf[1]] else []
  {
  }

  lemma FlushExclusive(s: State, s': State, t: nat)
    requires Inv(s) && t < 2 && Flush(s, s', t)
    ensures |s'.th| == 2 && !(Inside(s'.th[t]) && Inside(s'.th[1 - t]))
    ensures Inside(s'.th[t]) && Waits(s', 1 - t) ==> s'.turn == t
    ensures Inside(s'.th[1 - t]) && Waits(s', t) ==> s'.turn == 1 - t
  {
    Rest(s.th[t].buf);
  }

  lemma FlushCounts(s: State, s': State, t: nat)
    requires Inv(s) && t < 2 && Flush(s, s', t)
    ensures |s'.th| == 2 && s'.counter == Share(s', t) + Share(s', 1 - t)
  {
    Rest(s.th[t].buf);
  }

  lemma FlushKeeps(s: State, s': State, t: nat)
    requires Inv(s) && t < 2 && Flush(s, s', t)
    ensures Inv(s')
  {
    FlushShape(s, s', t);
    FlushOther(s, s', t);
    FlushExclusive(s, s', t);
    FlushCounts(s, s', t);
    hide Flush, Shape, Inside, Waits, Share;
    if t == 0 {
    } else {
      assert t == 1;
    }
  }

  lemma ExecuteShape(s: State, s': State, t: nat)
    requires Inv(s) && t < 2 && Execute(s, s', t, true)
    ensures |s'.th| == 2 && s'.flag == s.flag && s'.turn == s.turn && s'.counter == s.counter && s'.th[1 - t] == s.th[1 - t]
    ensures Shape(s', t)
  {
  }

  lemma ExecuteExclusive(s: State, s': State, t: nat)
    requires Inv(s) && t < 2 && Execute(s, s', t, true)
    ensures |s'.th| == 2 && !(Inside(s'.th[t]) && Inside(s'.th[1 - t]))
    ensures Inside(s'.th[t]) && Waits(s', 1 - t) ==> s'.turn == t
    ensures Inside(s'.th[1 - t]) && Waits(s', t) ==> s'.turn == 1 - t
  {
  }

  lemma ExecuteCounts(s: State, s': State, t: nat)
    requires Inv(s) && t < 2 && Execute(s, s', t, true)
    ensures |s'.th| == 2 && s'.counter == Share(s', t) + Share(s', 1 - t)
  {
  }

  lemma ExecuteKeeps(s: State, s': State, t: nat)
    requires Inv(s) && t < 2 && Execute(s, s', t, true)
    ensures Inv(s')
  {
    ExecuteShape(s, s', t);
    assert Shape(s', 1 - t);
    ExecuteExclusive(s, s', t);
    ExecuteCounts(s, s', t);
    hide Execute, Shape, Inside, Waits, Share;
    if t == 0 {
    } else {
      assert t == 1;
    }
  }

  lemma {:induction false} RunKeeps(run: seq<State>, k: nat)
    requires IsRun(run, true) && k < |run|
    ensures Inv(run[k])
  {
    if k > 0 {
      RunKeeps(run, k - 1);
      assert Step(run[k - 1], run[k - 1 + 1], true);
      var t :| 0 <= t < 2 && (Flush(run[k - 1], run[k], t) || Execute(run[k - 1], run[k], t, true));
      if Flush(run[k - 1], run[k], t) {
        FlushKeeps(run[k - 1], run[k], t);
      } else {
        ExecuteKeeps(run[k - 1], run[k], t);
      }
    }
  }

  /** Mutual exclusion in every interleaving, and a counter of zero once both threads are done and their
      buffers are empty. */
  lemma FencedIsExclusive(run: seq<State>, k: nat)
    requires IsRun(run, true) && k < |run|
    ensures |run[k].th| == 2 && !(InSection(run[k], 0) && InSection(run[k], 1))
    ensures run[k].th[0].pc == run[k].th[1].pc == Done && run[k].th[0].buf == run[k].th[1].buf == [] ==> run[k].counter == 0
  {
    RunKeeps(run, k);
  }

  /** Thread `t` has not yet stored the counter. */
  predicate Before(s: State, t: nat)
    requires t < |s.th|
  {
    s.th[t].pc in {SetFlag, SetTurn, Fence, LoadFlag, LoadTurn, LoadCounter, StoreCounter}
  }

  /** Thread `t` has finished, and memory shows it. */
  predicate Finished(s: State, t: nat)
    requires t < |s.th|
  {
    s.th[t].pc == Done && s.th[t].buf == []
  }

  /** On the way the counter counts: it is one when only the producer has finished, minus one when only the consumer has,
      and zero before. */
  lemma CounterCounts(run: seq<State>, k: nat)
    requires IsRun(run, true) && k < |run|
    ensures |run[k].th| == 2 && (Before(run[k], 0) && Before(run[k], 1) ==> run[k].counter == 0)
    ensures Finished(run[k], 0) && Before(run[k], 1) ==> run[k].counter == 1
    ensures Finished(run[k], 1) && Before(run[k], 0) ==> run[k].counter == -1
  {
    RunKeeps(run, k);
  }

  // Nobody is kept out for good.

  /** How much a thread has still to do; waiting does not count. */
  function Left(th: Thread): (n: nat)
  {
    |th.buf| + match th.pc
    case SetFlag => 11
    case SetTurn => 9
    case Fence => 7
    case LoadFlag => 6
    case LoadTurn => 6
    case LoadCounter => 5
    case StoreCounter => 4
    case ClearFlag => 2
    case Done => 0
  }

  function Rank(s: State): (n: nat)
    requires |s.th| == 2
  {
    Left(s.th[0]) + Left(s.th[1])
  }

  function Flushed(s: State, t: nat): (s': State)
    requires Inv(s) && t < 2 && s.th[t].buf != []
    ensures Flush(s, s', t) && |s'.th| == 2 && Rank(s') < Rank(s)
  {
    var st, th := s.th[t].buf[0], s.th[t := s.th[t].(buf := s.th[t].buf[1..])];
    match st.x
    case Flag(u) => s.(flag := s.flag[u := st.v], th := th)
    case Turn => s.(turn := st.v, th := th)
    case Counter => s.(counter := st.v, th := th)
  }

  function Executed(s: State, t: nat): (s': State)
    requires Inv(s) && t < 2 && s.th[t].pc != Done && s.th[t].buf == []
    ensures Execute(s, s', t, true) && |s'.th| == 2 && (!Waits(s, t) ==> Rank(s') < Rank(s))
  {
    s.(th := s.th[t := Next(s, t)])
  }

  /** Thread `t` waits with an empty buffer, and it is its turn or the other one has finished: two steps take it in. */
  lemma TwoSteps(s: State, t: nat) returns (more: seq<State>)
    requires Inv(s) && t < 2 && (s.th[t].pc == LoadFlag || s.th[t].pc == LoadTurn) && (s.turn == t || Finished(s, 1 - t))
    ensures 1 <= |more| <= 2 && Step(s, more[0], true) && (|more| == 2 ==> Step(more[0], more[1], true))
    ensures |more[|more| - 1].th| == 2 && more[|more| - 1].th[t].pc == LoadCounter && Rank(more[|more| - 1]) < Rank(s)
  {
    var s' := Executed(s, t);
    more := [s'];
    if s'.th[t].pc != LoadCounter {
      ExecuteKeeps(s, s', t);
      more := [s', Executed(s', t)];
    }
  }

  /** As long as a thread has not finished, one or two steps bring the end closer. */
  lemma Closer(s: State) returns (more: seq<State>)
    requires Inv(s) && !(Finished(s, 0) && Finished(s, 1))
    ensures 1 <= |more| <= 2 && Step(s, more[0], true) && (|more| == 2 ==> Step(more[0], more[1], true))
    ensures |more[|more| - 1].th| == 2 && Rank(more[|more| - 1]) < Rank(s)
  {
    if t :| 0 <= t < 2 && s.th[t].buf != [] {
      more := [Flushed(s, t)];
    } else if t :| 0 <= t < 2 && s.th[t].pc != Done && s.th[t].pc != LoadFlag && s.th[t].pc != LoadTurn {
      var s' := Executed(s, t);
      more := [s'];
    } else {
      var t := if s.th[0].pc == Done then 1 else if s.th[1].pc == Done then 0 else s.turn;
      more := TwoSteps(s, t);
    }
  }

  /** Every run, wherever it has got to, can be completed: both threads leave the section, and the counter is zero. */
  lemma {:induction false} CanFinish(run: seq<State>) returns (more: seq<State>)
    requires IsRun(run, true)
    ensures IsRun(run + more, true) && var s := (run + more)[|run + more| - 1];
            |s.th| == 2 && Finished(s, 0) && Finished(s, 1) && s.counter == 0
    decreases var s := run[|run| - 1]; if |s.th| == 2 then Rank(s) else 0
  {
    var n := |run| - 1;
    RunKeeps(run, n);
    if Finished(run[n], 0) && Finished(run[n], 1) {
      more := [];
      assert run + more == run;
      FencedIsExclusive(run, n);
    } else {
      hide Inv, Step, Finished;
      var some := Closer(run[n]);
      var rest := CanFinish(run + some);
      more := some + rest;
      assert run + some + rest == run + more;
    }
  }

  /** Two buffered stores to other variables do not matter. */
  lemma LoadPast(s: State, u: Store, w: Store, x: Var)
    requires |s.flag| == 2 && (x.Flag? ==> x.t < 2) && u.x != x && w.x != x
    ensures Load(s, [u, w], x) == Memory(s, x)
  {
    assert [u, w][..1] == [u] && [u][..0] == [];
    assert Load(s, [u], x) == Load(s, [], x);
  }

  /** The thread after each of its first four instructions, as long as the other's flag is not visible. */
  function Entering(t: nat, k: nat): (th: Thread)
  {
    if k == 0 then Thread(SetFlag, [], 0)
    else if k == 1 then Thread(SetTurn, [Store(Flag(t), 1)], 0)
    else Thread(if k == 2 then Fence else if k == 3 then LoadFlag else LoadCounter, [Store(Flag(t), 1), Store(Turn, 1 - t)], 0)
  }

  /** Without the barrier, that takes it into the section with its stores still in the buffer. */
  lemma Enters(s: State, t: nat, k: nat)
    requires t < 2 == |s.th| == |s.flag| && k < 4 && s.th[t] == Entering(t, k) && s.flag[1 - t] == 0
    ensures Step(s, s.(th := s.th[t := Entering(t, k + 1)]), false)
  {
    LoadPast(s, Store(Flag(t), 1), Store(Turn, 1 - t), Flag(1 - t));
    hide Load;
    assert [] + [Store(Flag(t), 1)] == [Store(Flag(t), 1)];
    assert [Store(Flag(t), 1)] + [Store(Turn, 1 - t)] == [Store(Flag(t), 1), Store(Turn, 1 - t)];
    assert Next(s, t) == Entering(t, k + 1);
    assert Execute(s, s.(th := s.th[t := Entering(t, k + 1)]), t, false);
  }

  /** The run in which the producer enters first and then the consumer. */
  function Broken(k: nat): (s: State)
  {
    State([0, 0], 0, 0, [Entering(0, if k < 4 then k else 4), Entering(1, if k < 4 then 0 else k - 4)])
  }

  /** Without the barrier both threads can be in the section at once. */
  lemma UnfencedIsNot() returns (run: seq<State>)
    ensures IsRun(run, false) && var s := run[|run| - 1]; |s.th| == 2 && InSection(s, 0) && InSection(s, 1)
  {
    run := seq(9, k requires 0 <= k < 9 => Broken(k));
    forall k | 0 <= k < 8 ensures Step(run[k], run[k + 1], false) {
      var t, n := if k < 4 then 0 else 1, if k < 4 then k else k - 4;
      Enters(run[k], t, n);
      assert run[k + 1].th == run[k].th[t := Entering(t, n + 1)];
    }
  }
}
