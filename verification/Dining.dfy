/** 09/dine.c: dining philosophers, one of whom takes the forks in the other order, for any number from two on. */
module Dining {
  function Left(n: nat, p: nat): (f: nat)
    requires p < n
  {
    p
  }

  function Right(n: nat, p: nat): (f: nat)
    requires p < n
    ensures f == if p + 1 < n then p + 1 else 0
  {
    (p + 1) % n
  }

  /** Philosopher 0 takes the left fork first, all others the right one. */
  function First(n: nat, p: nat): (f: nat)
    requires p < n
    ensures f < n
  {
    if p == 0 then Left(n, p) else Right(n, p)
  }

  function Second(n: nat, p: nat): (f: nat)
    requires p < n
    ensures f < n
  {
    if p == 0 then Right(n, p) else Left(n, p)
  }

  datatype Phase = Hungry | HasFirst | Eats | PutLeft

  /** `fork` are the semaphores, `ph` the philosophers. */
  datatype State = State(fork: seq<nat>, ph: seq<Phase>)

  predicate Sane(s: State)
  {
    |s.fork| == |s.ph| >= 2
  }

  predicate Start(s: State)
  {
    Sane(s) && forall i :: 0 <= i < |s.ph| ==> s.fork[i] == 1 && s.ph[i] == Hungry
  }

  predicate Move(s: State, s': State, p: nat)
    requires Sane(s) && p < |s.ph|
  {
    var n := |s.ph|;
    match s.ph[p]
    case Hungry => s.fork[First(n, p)] > 0 && s' == State(s.fork[First(n, p) := s.fork[First(n, p)] - 1], s.ph[p := HasFirst])
    case HasFirst => s.fork[Second(n, p)] > 0 && s' == State(s.fork[Second(n, p) := s.fork[Second(n, p)] - 1], s.ph[p := Eats])
    case Eats => s' == State(s.fork[Left(n, p) := s.fork[Left(n, p)] + 1], s.ph[p := PutLeft])
    case PutLeft => s' == State(s.fork[Right(n, p) := s.fork[Right(n, p)] + 1], s.ph[p := Hungry])
  }

  ghost predicate Next(s: State, s': State)
  {
    Sane(s) && exists p :: 0 <= p < |s.ph| && Move(s, s', p)
  }

  ghost predicate IsRun(run: seq<State>)
  {
    run != [] && Start(run[0]) && forall k :: 0 <= k < |run| - 1 ==> Next(run[k], run[k + 1])
  }

  function HoldsLeft(s: State, p: nat): (n: nat)
    requires Sane(s) && p < |s.ph|
  {
    if s.ph[p] == Eats || (s.ph[p] == HasFirst && p == 0) then 1 else 0
  }

  function HoldsRight(s: State, p: nat): (n: nat)
    requires Sane(s) && p < |s.ph|
  {
    if s.ph[p] == Eats || s.ph[p] == PutLeft || (s.ph[p] == HasFirst && p != 0) then 1 else 0
  }

  /** The neighbour whose right fork is `f`. */
  function Before(n: nat, f: nat): (p: nat)
    requires f < n
    ensures p < n && Right(n, p) == f
  {
    if f == 0 then n - 1 else f - 1
  }

  /** Each fork is on the table or with one of its two philosophers. */
  predicate ForkOk(s: State, f: nat)
    requires Sane(s) && f < |s.ph|
  {
    s.fork[f] + HoldsLeft(s, f) + HoldsRight(s, Before(|s.ph|, f)) == 1
  }

  predicate Inv(s: State)
  {
    Sane(s) && forall f :: 0 <= f < |s.ph| ==> ForkOk(s, f)
  }

  lemma MoveKeeps(s: State, s': State, p: nat)
    requires Inv(s) && p < |s.ph| && Move(s, s', p)
    ensures Inv(s')
  {
    hide Right;
    forall f | 0 <= f < |s.ph| ensures ForkOk(s', f) {
      assert ForkOk(s, f);
    }
  }

  lemma {:induction false} RunKeeps(run: seq<State>, k: nat)
    requires IsRun(run) && k < |run|
    ensures Inv(run[k])
  {
    if k > 0 {
      RunKeeps(run, k - 1);
      assert Next(run[k - 1], run[k - 1 + 1]);
      var p :| 0 <= p < |run[k - 1].ph| && Move(run[k - 1], run[k], p);
      MoveKeeps(run[k - 1], run[k], p);
    }
  }

  predicate Enabled(s: State, p: nat)
    requires Sane(s) && p < |s.ph|
  {
    match s.ph[p]
    case Hungry => s.fork[First(|s.ph|, p)] > 0
    case HasFirst => s.fork[Second(|s.ph|, p)] > 0
    case _ => true
  }

  lemma EnabledMoves(s: State, p: nat)
    requires Sane(s) && p < |s.ph| && Enabled(s, p)
    ensures exists s' :: Move(s, s', p)
  {
    var n := |s.ph|;
    match s.ph[p] {
      case Hungry => assert Move(s, State(s.fork[First(n, p) := s.fork[First(n, p)] - 1], s.ph[p := HasFirst]), p);
      case HasFirst => assert Move(s, State(s.fork[Second(n, p) := s.fork[Second(n, p)] - 1], s.ph[p := Eats]), p);
      case Eats => assert Move(s, State(s.fork[Left(n, p) := s.fork[Left(n, p)] + 1], s.ph[p := PutLeft]), p);
      case PutLeft => assert Move(s, State(s.fork[Right(n, p) := s.fork[Right(n, p)] + 1], s.ph[p := Hungry]), p);
    }
  }

  /** Going down from a philosopher who waits for a second fork, someone can move: each waits for the next
      lower one, and the forks of the lowest are second for both their philosophers. */
  lemma {:induction false} Downward(s: State, p: nat) returns (q: nat)
    requires Inv(s) && 0 < p < |s.ph| && s.ph[p] == HasFirst
    ensures q < |s.ph| && Enabled(s, q) && s.ph[q] != Hungry
    decreases p
  {
    assert ForkOk(s, p);
    if Enabled(s, p) {
      q := p;
    } else if p == 1 || s.ph[p - 1] != HasFirst {
      q := p - 1;
    } else {
      q := Downward(s, p - 1);
    }
  }

  /** In every reachable state, whatever the number of philosophers, some philosopher can move. */
  lemma NeverStuck(run: seq<State>, k: nat) returns (q: nat)
    requires IsRun(run) && k < |run|
    ensures Sane(run[k]) && q < |run[k].ph| && exists s' :: Move(run[k], s', q)
  {
    RunKeeps(run, k);
    var s := run[k];
    if p :| 0 < p < |s.ph| && s.ph[p] == HasFirst {
      q := Downward(s, p);
    } else {
      assert ForkOk(s, 0) && ForkOk(s, 1);
      q := if Enabled(s, 0) then 0 else if s.ph[0] == Hungry then |s.ph| - 1 else 1;
    }
    EnabledMoves(s, q);
  }

  /** Neighbours never eat at the same time. */
  lemma NeighboursExclude(run: seq<State>, k: nat, p: nat)
    requires IsRun(run) && k < |run| && p < |run[k].ph|
    ensures Sane(run[k]) && !(run[k].ph[p] == Eats && run[k].ph[Right(|run[k].ph|, p)] == Eats)
  {
    RunKeeps(run, k);
    hide Right;
    var s := run[k];
    assert ForkOk(s, Right(|s.ph|, p));
  }

  /** Whoever eats has both forks: neither is on the table, and neither neighbour holds one of them. */
  lemma EatersHoldBoth(run: seq<State>, k: nat, p: nat)
    requires IsRun(run) && k < |run| && p < |run[k].ph| && run[k].ph[p] == Eats
    ensures Sane(run[k]) && var s, n := run[k], |run[k].ph|;
            && s.fork[p] == 0 && s.fork[Right(n, p)] == 0
            && s.ph[Before(n, p)] in {Hungry, HasFirst} && s.ph[Right(n, p)] in {Hungry, HasFirst, PutLeft}
  {
    RunKeeps(run, k);
    hide Right;
    var s := run[k];
    assert ForkOk(s, p) && ForkOk(s, Right(|s.ph|, p));
  }

  // Everybody can eat.

  /** How many steps a philosopher is away from putting down the last fork. */
  function StepsLeft(ph: Phase): (n: nat)
  {
    match ph
    case Hungry => 0
    case HasFirst => 3
    case Eats => 2
    case PutLeft => 1
  }

  function Total(ph: seq<Phase>): (n: nat)
  {
    if ph == [] then 0 else Total(ph[..|ph| - 1]) + StepsLeft(ph[|ph| - 1])
  }

  lemma {:induction false} TotalUpdate(ph: seq<Phase>, p: nat, x: Phase)
    requires p < |ph|
    ensures Total(ph[p := x]) == Total(ph) - StepsLeft(ph[p]) + StepsLeft(x)
  {
    var n := |ph| - 1;
    if p < n {
      TotalUpdate(ph[..n], p, x);
      assert ph[p := x][..n] == ph[..n][p := x];
    } else {
      assert ph[p := x][..n] == ph[..n];
    }
  }

  /** As long as somebody has a fork, somebody who has one can move. */
  lemma HolderMoves(s: State, p: nat) returns (q: nat)
    requires Inv(s) && p < |s.ph| && s.ph[p] != Hungry
    ensures q < |s.ph| && Enabled(s, q) && s.ph[q] != Hungry
  {
    if r :| 0 < r < |s.ph| && s.ph[r] == HasFirst {
      q := Downward(s, r);
    } else {
      assert ForkOk(s, 1);
      q := if Enabled(s, p) then p else 1;
    }
  }

  /** So everybody can be brought to put down all forks. */
  lemma {:induction false} CanRest(run: seq<State>) returns (more: seq<State>)
    requires IsRun(run)
    ensures IsRun(run + more) && var s := (run + more)[|run + more| - 1]; |s.ph| == |run[0].ph| && forall p :: 0 <= p < |s.ph| ==> s.ph[p] == Hungry
    decreases Total(run[|run| - 1].ph)
  {
    var n := |run| - 1;
    RunKeeps(run, n);
    SameTable(run, n);
    if p :| 0 <= p < |run[n].ph| && run[n].ph[p] != Hungry {
      var q := HolderMoves(run[n], p);
      EnabledMoves(run[n], q);
      var s' :| Move(run[n], s', q);
      TotalUpdate(run[n].ph, q, s'.ph[q]);
      hide Move, Inv, Enabled, Total;
      var rest := CanRest(run + [s']);
      more := [s'] + rest;
      assert run + [s'] + rest == run + more;
    } else {
      more := [];
      assert run + more == run;
    }
  }

  lemma {:induction false} SameTable(run: seq<State>, k: nat)
    requires IsRun(run) && k < |run|
    ensures |run[k].ph| == |run[0].ph|
  {
    if k > 0 {
      SameTable(run, k - 1);
      assert Next(run[k - 1], run[k - 1 + 1]);
    }
  }

  /** Nobody need starve: every run, wherever it has got to, can go on so that philosopher `p` eats. */
  lemma CanEat(run: seq<State>, p: nat) returns (more: seq<State>)
    requires IsRun(run) && p < |run[0].ph|
    ensures IsRun(run + more) && var s := (run + more)[|run + more| - 1]; p < |s.ph| && s.ph[p] == Eats
  {
    var rest := CanRest(run);
    var s := (run + rest)[|run + rest| - 1];
    RunKeeps(run + rest, |run + rest| - 1);
    var n := |s.ph|;
    hide Right;
    assert ForkOk(s, First(n, p)) && ForkOk(s, Second(n, p));
    var a := State(s.fork[First(n, p) := s.fork[First(n, p)] - 1], s.ph[p := HasFirst]);
    var b := State(a.fork[Second(n, p) := a.fork[Second(n, p)] - 1], a.ph[p := Eats]);
    assert Move(s, a, p) && Move(a, b, p);
    more := rest + [a, b];
    assert run + more == run + rest + [a, b];
  }
}
