/** 09/rw-using-sems.c: a reader-writer lock from two semaphores, for any number of threads. */
module RwLock {
  import opened Collections
  /** Where a thread is. Readers go from Idle through the acquire function, the scan and the release function;
      writers take the write lock and update two elements. */
  datatype Pc =
    | Idle
    | ALock                         // acquire_readlock: has `lock`
    | ACounted                      // readers has been incremented
    | AFirst                        // it is 1: about to wait for `writelock`
    | AReady                        // about to post `lock`
    | Scan(i: nat, sum: int)        // reading: the first `i` elements add up to `sum`
    | Scanned(sum: int)             // about to wait for `lock` again
    | DLock(sum: int)               // release_readlock: has `lock`
    | DCounted(sum: int)            // readers has been decremented
    | DLast(sum: int)               // it is 0: about to post `writelock`
    | DReady(sum: int)
    | Checked(sum: int)             // back in sum(): about to test the sum
    | WLock(i: nat, j: nat)         // writer: has `writelock`
    | WHalf(j: nat)                 // x[i] has been incremented
    | WDone

  /** `writer` tells which threads write; the others read. */
  datatype State = State(lock: nat, writelock: nat, readers: int, x: seq<int>, writer: seq<bool>, th: seq<Pc>)

  predicate Start(s: State)
  {
    && s.lock == s.writelock == 1 && s.readers == 0 && s.x != [] && |s.writer| == |s.th|
    && forall i :: 0 <= i < |s.th| ==> s.th[i] == Idle
  }

  /** As the program has it; what is stated of sums holds for any first contents. */
  predicate Zeros(x: seq<int>)
  {
    forall k :: 0 <= k < |x| ==> x[k] == 0
  }

  /** What a step from `pc` to `q` does to `lock`, `writelock` and `readers`; `writer` is the thread's role. */
  predicate Control(writer: bool, pc: Pc, q: Pc, lock: nat, lock': nat, wl: nat, wl': nat, rd: int, rd': int)
  {
    match pc
    case Idle =>
      if writer then q.WLock? && wl > 0 && wl' == wl - 1 && lock' == lock && rd' == rd
      else q.ALock? && lock > 0 && lock' == lock - 1 && wl' == wl && rd' == rd
    case ALock => q.ACounted? && rd' == rd + 1 && lock' == lock && wl' == wl
    case ACounted => (if rd == 1 then q.AFirst? else q.AReady?) && lock' == lock && wl' == wl && rd' == rd
    case AFirst => q.AReady? && wl > 0 && wl' == wl - 1 && lock' == lock && rd' == rd
    case AReady => q.Scan? && lock' == lock + 1 && wl' == wl && rd' == rd
    case Scan(_, _) => (q.Scan? || q.Scanned?) && lock' == lock && wl' == wl && rd' == rd
    case Scanned(_) => q.DLock? && lock > 0 && lock' == lock - 1 && wl' == wl && rd' == rd
    case DLock(_) => q.DCounted? && rd' == rd - 1 && lock' == lock && wl' == wl
    case DCounted(_) => (if rd == 0 then q.DLast? else q.DReady?) && lock' == lock && wl' == wl && rd' == rd
    case DLast(_) => q.DReady? && wl' == wl + 1 && lock' == lock && rd' == rd
    case DReady(_) => q.Checked? && lock' == lock + 1 && wl' == wl && rd' == rd
    case Checked(_) => q.Idle? && lock' == lock && wl' == wl && rd' == rd
    case WLock(_, _) => q.WHalf? && lock' == lock && wl' == wl && rd' == rd
    case WHalf(_) => q.WDone? && lock' == lock && wl' == wl && rd' == rd
    case WDone => q.Idle? && wl' == wl + 1 && lock' == lock && rd' == rd
  }

  /** What it does to the array and the sums; `a` and `b` are the elements a writer picks. A sum other than zero
      would end the program. */
  predicate Data(pc: Pc, q: Pc, x: seq<int>, x': seq<int>, a: nat, b: nat)
  {
    match pc
    case Idle => x' == x && (q.WLock? ==> q == WLock(a, b) && a < |x| && b < |x|)
    case AReady => x' == x && q == Scan(0, 0)
    case Scan(k, sum) => x' == x && q == if k < |x| then Scan(k + 1, sum + x[k]) else Scanned(sum)
    case Scanned(sum) => x' == x && q == DLock(sum)
    case DLock(sum) => x' == x && q == DCounted(sum)
    case DCounted(sum) => x' == x && (q == DLast(sum) || q == DReady(sum))
    case DLast(sum) => x' == x && q == DReady(sum)
    case DReady(sum) => x' == x && q == Checked(sum)
    case Checked(sum) => x' == x && sum == 0
    case WLock(k, j) => k < |x| && x' == x[k := x[k] + 1] && q == WHalf(j)
    case WHalf(j) => j < |x| && x' == x[j := x[j] - 1]
    case _ => x' == x
  }

  /** One step of thread `i`. */
  predicate Move(s: State, s': State, i: nat, a: nat, b: nat)
    requires i < |s.th| == |s.writer|
  {
    && |s'.th| == |s.th| && s'.th == s.th[i := s'.th[i]] && s'.writer == s.writer
    && Control(s.writer[i], s.th[i], s'.th[i], s.lock, s'.lock, s.writelock, s'.writelock, s.readers, s'.readers)
    && Data(s.th[i], s'.th[i], s.x, s'.x, a, b)
  }

  ghost predicate Next(s: State, s': State)
  {
    |s.writer| == |s.th| && exists i, a, b :: 0 <= i < |s.th| && Move(s, s', i, a, b)
  }

  ghost predicate IsRun(run: seq<State>)
  {
    run != [] && Start(run[0]) && forall k :: 0 <= k < |run| - 1 ==> Next(run[k], run[k + 1])
  }

  datatype Kind = HasLock | Counting | Reading | Leaving | Writing | Half

  predicate Is(pc: Pc, k: Kind)
  {
    match k
    case HasLock => pc.ALock? || pc.ACounted? || pc.AFirst? || pc.AReady? || pc.DLock? || pc.DCounted? || pc.DLast? || pc.DReady?
    case Counting => pc.ACounted? || pc.AFirst?
    case Reading => pc.AReady? || pc.Scan? || pc.Scanned? || pc.DLock?
    case Leaving => pc.DCounted? || pc.DLast?
    case Writing => pc.WLock? || pc.WHalf? || pc.WDone?
    case Half => pc.WHalf?
  }

  function One(pc: Pc, k: Kind): (n: nat) { if Is(pc, k) then 1 else 0 }

  function Count(th: seq<Pc>, k: Kind): (n: nat)
  {
    if th == [] then 0 else Count(th[..|th| - 1], k) + One(th[|th| - 1], k)
  }

  lemma {:induction false} CountUpdate(th: seq<Pc>, i: nat, pc: Pc, k: Kind)
    requires i < |th|
    ensures Count(th[i := pc], k) == Count(th, k) - One(th[i], k) + One(pc, k) && Count(th, k) >= One(th[i], k)
  {
    var n := |th| - 1;
    if i < n {
      CountUpdate(th[..n], i, pc, k);
      assert th[i := pc][..n] == th[..n][i := pc];
    } else {
      assert th[i := pc][..n] == th[..n];
    }
  }

  lemma {:induction false} CountNone(th: seq<Pc>, k: Kind)
    requires forall i :: 0 <= i < |th| ==> !Is(th[i], k)
    ensures Count(th, k) == 0
  {
    if th != [] {
      CountNone(th[..|th| - 1], k);
    }
  }

  /** A thread of a kind that is counted. */
  lemma {:induction false} CountSome(th: seq<Pc>, k: Kind) returns (i: nat)
    requires Count(th, k) > 0
    ensures i < |th| && Is(th[i], k)
  {
    var n := |th| - 1;
    if Is(th[n], k) {
      i := n;
    } else {
      i := CountSome(th[..n], k);
    }
  }

  lemma {:induction false} CountOne(th: seq<Pc>, i: nat, j: nat, k: Kind)
    requires i < |th| && j < |th| && i != j && Is(th[i], k) && Is(th[j], k)
    ensures Count(th, k) >= 2
  {
    CountUpdate(th, i, WDone, k);
    CountUpdate(th, i, Idle, k);
    CountUpdate(th[i := Idle], j, th[j], k);
  }

  /** The readers as a group hold the write lock. */
  predicate GroupHolds(s: State)
  {
    Count(s.th, Reading) > 0 || Count(s.th, Leaving) > 0
  }

  /** Tokens of both semaphores are conserved, and the readers count themselves correctly. */
  predicate Tokens(s: State, total: int)
  {
    && s.lock + Count(s.th, HasLock) == 1
    && s.readers == Count(s.th, Counting) + Count(s.th, Reading)
    && s.writelock + Count(s.th, Writing) + (if GroupHolds(s) then 1 else 0) == 1
    && Sum(s.x) == total + Count(s.th, Half)
  }

  predicate Local(s: State, i: nat, total: int)
    requires i < |s.th|
  {
    match s.th[i]
    case AFirst => s.readers == 1
    case DLast(sum) => s.readers == 0 && sum == total
    case Scan(k, sum) => k <= |s.x| && sum == Sum(s.x[..k])
    case Scanned(sum) => sum == total
    case DLock(sum) => sum == total
    case DCounted(sum) => sum == total
    case DReady(sum) => sum == total
    case Checked(sum) => sum == total
    case WLock(k, j) => k < |s.x| && j < |s.x|
    case WHalf(j) => j < |s.x|
    case _ => true
  }

  /** Writers never read, and readers never write. */
  predicate InRole(writer: bool, pc: Pc)
  {
    pc.Idle? || (writer <==> Is(pc, Writing))
  }

  predicate Inv(s: State, total: int)
  {
    Tokens(s, total) && s.x != [] && |s.writer| == |s.th| && forall i :: 0 <= i < |s.th| ==> Local(s, i, total) && InRole(s.writer[i], s.th[i])
  }

  /** A thread in the group that has `lock` excludes all others from it. */
  lemma {:induction false} KindSizes(th: seq<Pc>)
    ensures Count(th, Counting) + Count(th, Leaving) <= Count(th, HasLock) && Count(th, Half) <= Count(th, Writing)
  {
    if th != [] {
      KindSizes(th[..|th| - 1]);
    }
  }

  lemma MoveLock(s: State, s': State, i: nat, a: nat, b: nat, total: int)
    requires Tokens(s, total) && i < |s.th| == |s.writer| && Local(s, i, total) && Move(s, s', i, a, b)
    ensures s'.lock + Count(s'.th, HasLock) == 1
  {
    CountUpdate(s.th, i, s'.th[i], HasLock);
    hide Count, Data, Sum;
  }

  lemma MoveReaders(s: State, s': State, i: nat, a: nat, b: nat, total: int)
    requires Tokens(s, total) && i < |s.th| == |s.writer| && Local(s, i, total) && Move(s, s', i, a, b)
    ensures s'.readers == Count(s'.th, Counting) + Count(s'.th, Reading)
  {
    CountUpdate(s.th, i, s'.th[i], Counting);
    CountUpdate(s.th, i, s'.th[i], Reading);
    hide Count, Data, Sum;
  }

  /** The token of `writelock` in numbers: `c` readers counting, `r` reading, `l` leaving, `w` writers. */
  lemma WriteToken(writer: bool, pc: Pc, q: Pc, lock: nat, lock': nat, wl: nat, wl': nat, rd: int, rd': int, c: nat, r: nat, l: nat, w: nat)
    requires Control(writer, pc, q, lock, lock', wl, wl', rd, rd') && rd == c + r && lock + c + l <= 1
    requires wl + w + (if r > 0 || l > 0 then 1 else 0) == 1
    requires c >= One(pc, Counting) && r >= One(pc, Reading) && l >= One(pc, Leaving) && w >= One(pc, Writing)
    requires (pc.AFirst? ==> rd == 1) && (pc.DLast? ==> rd == 0) && (Is(pc, HasLock) ==> c + l <= 1 && c + l <= One(pc, Counting) + One(pc, Leaving))
    ensures var r', l', w' := r - One(pc, Reading) + One(q, Reading), l - One(pc, Leaving) + One(q, Leaving), w - One(pc, Writing) + One(q, Writing);
            wl' + w' + (if r' > 0 || l' > 0 then 1 else 0) == 1
  {
  }

  /** Whoever has `lock` is the only reader counting itself in or out. */
  lemma {:induction false} OthersOutside(th: seq<Pc>, i: nat)
    requires i < |th| && Is(th[i], HasLock) && Count(th, HasLock) <= 1
    ensures Count(th, Counting) + Count(th, Leaving) <= One(th[i], Counting) + One(th[i], Leaving)
  {
    KindSizes(th[i := Idle]);
    CountUpdate(th, i, Idle, HasLock);
    CountUpdate(th, i, Idle, Counting);
    CountUpdate(th, i, Idle, Leaving);
  }

  lemma MoveWritelock(s: State, s': State, i: nat, a: nat, b: nat, total: int)
    requires Tokens(s, total) && i < |s.th| == |s.writer| && Local(s, i, total) && Move(s, s', i, a, b)
    ensures s'.writelock + Count(s'.th, Writing) + (if GroupHolds(s') then 1 else 0) == 1
  {
    var pc, q := s.th[i], s'.th[i];
    CountUpdate(s.th, i, q, Counting);
    CountUpdate(s.th, i, q, Reading);
    CountUpdate(s.th, i, q, Leaving);
    CountUpdate(s.th, i, q, Writing);
    KindSizes(s.th);
    if Is(pc, HasLock) {
      OthersOutside(s.th, i);
    }
    hide Count, Data, Sum, Control, One;
    WriteToken(s.writer[i], pc, q, s.lock, s'.lock, s.writelock, s'.writelock, s.readers, s'.readers,
               Count(s.th, Counting), Count(s.th, Reading), Count(s.th, Leaving), Count(s.th, Writing));
  }

  lemma MoveSum(s: State, s': State, i: nat, a: nat, b: nat, total: int)
    requires Tokens(s, total) && i < |s.th| == |s.writer| && Local(s, i, total) && Move(s, s', i, a, b)
    ensures Sum(s'.x) == total + Count(s'.th, Half)
  {
    CountUpdate(s.th, i, s'.th[i], Half);
    hide Count, Sum, GroupHolds;
    if s.th[i].WLock? {
      SumUpdate(s.x, s.th[i].i, s.x[s.th[i].i] + 1);
    } else if s.th[i].WHalf? {
      SumUpdate(s.x, s.th[i].j, s.x[s.th[i].j] - 1);
    }
  }

  /** Two threads never both have `lock`, and nobody writes while somebody reads. */
  lemma Apart(s: State, i: nat, j: nat, total: int)
    requires Tokens(s, total) && i < |s.th| && j < |s.th| && i != j
    ensures !(Is(s.th[i], HasLock) && Is(s.th[j], HasLock)) && !(Is(s.th[i], Writing) && Is(s.th[j], Writing))
    ensures !(Is(s.th[i], Writing) && Is(s.th[j], Reading))
  {
    CountUpdate(s.th, i, s.th[i], Writing);
    CountUpdate(s.th, j, s.th[j], Reading);
    if Is(s.th[i], HasLock) && Is(s.th[j], HasLock) {
      CountOne(s.th, i, j, HasLock);
    }
    if Is(s.th[i], Writing) && Is(s.th[j], Writing) {
      CountOne(s.th, i, j, Writing);
    }
    hide Count;
  }

  /** What thread `i` knows of itself after its step. */
  lemma MoveSelf(s: State, s': State, i: nat, a: nat, b: nat, total: int)
    requires Inv(s, total) && i < |s.th| == |s.writer| && Move(s, s', i, a, b)
    ensures |s'.th| == |s.th| == |s'.writer| && Local(s', i, total) && InRole(s'.writer[i], s'.th[i])
  {
    assert Local(s, i, total);
    CountUpdate(s.th, i, s.th[i], Reading);
    KindSizes(s.th);
    if s.th[i].Scan? {
      var k := s.th[i].i;
      assert k < |s.x| ==> s.x[..k + 1][..k] == s.x[..k];
      assert s.x[..|s.x|] == s.x;
    }
    hide Count;
  }

  lemma MoveOther(s: State, s': State, i: nat, a: nat, b: nat, j: nat, total: int)
    requires Inv(s, total) && i < |s.th| == |s.writer| && Move(s, s', i, a, b) && j < |s.th| && j != i
    ensures |s'.th| == |s.th| && Local(s', j, total)
  {
    assert Local(s, i, total) && Local(s, j, total);
    Apart(s, i, j, total);
    hide Tokens, Sum;
  }

  lemma MoveKeeps(s: State, s': State, i: nat, a: nat, b: nat, total: int)
    requires Inv(s, total) && i < |s.th| == |s.writer| && Move(s, s', i, a, b)
    ensures Inv(s', total)
  {
    assert Local(s, i, total);
    MoveLock(s, s', i, a, b, total);
    MoveReaders(s, s', i, a, b, total);
    MoveWritelock(s, s', i, a, b, total);
    MoveSum(s, s', i, a, b, total);
    MoveSelf(s, s', i, a, b, total);
    hide Move, Local, Count, Sum;
    forall j | 0 <= j < |s'.th| && j != i ensures Local(s', j, total) {
      MoveOther(s, s', i, a, b, j, total);
    }
  }

  lemma {:induction false} RunKeeps(run: seq<State>, k: nat)
    requires IsRun(run) && k < |run|
    ensures Inv(run[k], Sum(run[0].x))
  {
    if k == 0 {
      forall d ensures Count(run[0].th, d) == 0 {
        CountNone(run[0].th, d);
      }
    } else {
      RunKeeps(run, k - 1);
      assert Next(run[k - 1], run[k - 1 + 1]);
      var i, a, b :| 0 <= i < |run[k - 1].th| && Move(run[k - 1], run[k], i, a, b);
      MoveKeeps(run[k - 1], run[k], i, a, b, Sum(run[0].x));
    }
  }

  /** In every run the tokens of both semaphores are conserved, the readers count themselves correctly, and every
      completed scan adds up to what the array added up to at the start; a writer excludes readers and other writers. */
  lemma WritersExclude(run: seq<State>, k: nat)
    requires IsRun(run) && k < |run|
    ensures Tokens(run[k], Sum(run[0].x)) && forall i :: 0 <= i < |run[k].th| && run[k].th[i].Checked? ==> run[k].th[i].sum == Sum(run[0].x)
    ensures forall i, j :: 0 <= i < |run[k].th| && 0 <= j < |run[k].th| && i != j && Is(run[k].th[i], Writing) ==>
                             !Is(run[k].th[j], Reading) && !Is(run[k].th[j], Writing)
  {
    RunKeeps(run, k);
    var s, total := run[k], Sum(run[0].x);
    forall i | 0 <= i < |s.th| && s.th[i].Checked? ensures s.th[i].sum == total {
      assert Local(s, i, total);
    }
    forall i, j | 0 <= i < |s.th| && 0 <= j < |s.th| && i != j && Is(s.th[i], Writing) ensures !Is(s.th[j], Reading) && !Is(s.th[j], Writing) {
      Apart(s, i, j, total);
    }
  }

  // What a writer does.

  /** A writer that began with `x` has got to `pc`, and the array is `y`. */
  predicate Written(x: seq<int>, y: seq<int>, a: nat, b: nat, pc: Pc)
  {
    && a < |x| == |y| && b < |x|
    && match pc
       case WLock(i, j) => i == a && j == b && y == x
       case WHalf(j) => j == b && y == x[a := x[a] + 1]
       case WDone => y == if a == b then x else x[a := x[a] + 1][b := x[b] - 1]
       case _ => false
  }

  /** Only writers change the array. */
  lemma MoveArray(s: State, s': State, i: nat, a: nat, b: nat)
    requires i < |s.th| == |s.writer| && Move(s, s', i, a, b) && !Is(s.th[i], Writing)
    ensures s'.x == s.x
  {
    hide Control;
  }

  lemma WrittenStep(s: State, s': State, t: nat, i: nat, c: nat, d: nat, x: seq<int>, a: nat, b: nat, total: int)
    requires Inv(s, total) && t < |s.th| == |s.writer| && Move(s, s', t, c, d) && i < |s.th| && Written(x, s.x, a, b, s.th[i])
    ensures |s'.th| == |s.th| && (s'.th[i] == Idle || Written(x, s'.x, a, b, s'.th[i]))
  {
    if t != i {
      Apart(s, i, t, total);
      hide Inv, Data, Control;
      MoveArray(s, s', t, c, d);
    } else {
      hide Inv;
    }
  }

  /** From the moment it has the write lock until it posts it, the array changes by what this writer does: one element goes
      up by one, another down by one. */
  lemma {:induction false} WriterWrites(run: seq<State>, j: nat, k: nat, i: nat, a: nat, b: nat)
    requires IsRun(run) && j <= k < |run| && i < |run[j].th| && run[j].th[i] == WLock(a, b)
    requires forall m :: j <= m <= k ==> i < |run[m].th| && run[m].th[i] != Idle
    ensures Written(run[j].x, run[k].x, a, b, run[k].th[i])
  {
    hide Move, Tokens, Sum, InRole, Control, Data;
    var total := Sum(run[0].x);
    RunKeeps(run, j);
    assert Local(run[j], i, total);
    if j < k {
      WriterWrites(run, j, k - 1, i, a, b);
      RunKeeps(run, k - 1);
      assert Next(run[k - 1], run[k - 1 + 1]);
      var t, c, d :| 0 <= t < |run[k - 1].th| && Move(run[k - 1], run[k], t, c, d);
      WrittenStep(run[k - 1], run[k], t, i, c, d, run[j].x, a, b, total);
    }
  }

  /** Readers do not exclude each other: while somebody is reading and `lock` is free, another reader can join, with nobody
      else moving. */
  lemma ReaderJoins(run: seq<State>, i: nat, r: nat) returns (more: seq<State>)
    requires IsRun(run) && var s := run[|run| - 1];
             i < |s.th| && r < |s.th| && s.th[i] == Idle && |s.writer| == |s.th| && !s.writer[i] && s.lock > 0 && Is(s.th[r], Reading)
    ensures |more| == 4 && IsRun(run + more) && more[3].th == run[|run| - 1].th[i := Scan(0, 0)]
  {
    hide Move, Tokens, Local, Count;
    var s := run[|run| - 1];
    RunKeeps(run, |run| - 1);
    SomeReader(s, r, Sum(run[0].x));
    more := Joining(s, i);
    Extend(run, more[0], i);
    Extend(run + [more[0]], more[1], i);
    Extend(run + [more[0]] + [more[1]], more[2], i);
    Extend(run + [more[0]] + [more[1]] + [more[2]], more[3], i);
    assert run + more == run + [more[0]] + [more[1]] + [more[2]] + [more[3]];
  }

  lemma Extend(run: seq<State>, s: State, i: nat)
    requires IsRun(run) && i < |run[|run| - 1].th| == |run[|run| - 1].writer| && Move(run[|run| - 1], s, i, 0, 0)
    ensures IsRun(run + [s])
  {
    hide Move;
  }

  lemma SomeReader(s: State, r: nat, total: int)
    requires Tokens(s, total) && r < |s.th| && Is(s.th[r], Reading)
    ensures s.readers > 0
  {
    CountUpdate(s.th, r, s.th[r], Reading);
  }

  /** A reader that is not the first takes `lock`, counts itself and gives `lock` back. */
  lemma Joining(s: State, i: nat) returns (more: seq<State>)
    requires i < |s.th| == |s.writer| && s.th[i] == Idle && !s.writer[i] && s.lock > 0 && s.readers > 0
    ensures |more| == 4 && more[3].th == s.th[i := Scan(0, 0)] && forall k :: 0 <= k < 4 ==> |more[k].th| == |s.th| == |more[k].writer|
    ensures Move(s, more[0], i, 0, 0) && Move(more[0], more[1], i, 0, 0) && Move(more[1], more[2], i, 0, 0) && Move(more[2], more[3], i, 0, 0)
  {
    var a := s.(lock := s.lock - 1, th := s.th[i := ALock]);
    var b := a.(readers := s.readers + 1, th := a.th[i := ACounted]);
    var c := b.(th := b.th[i := AReady]);
    var d := c.(lock := s.lock, th := c.th[i := Scan(0, 0)]);
    more := [a, b, c, d];
  }

  /** Thread `i` is not waiting for a semaphore that is zero. */
  predicate Enabled(s: State, i: nat)
    requires i < |s.th| == |s.writer|
  {
    match s.th[i]
    case Idle => if s.writer[i] then s.writelock > 0 else s.lock > 0
    case AFirst => s.writelock > 0
    case Scanned(_) => s.lock > 0
    case _ => true
  }

  /** Thread `i` can step; if it is an idle writer, it can pick `a` and `b`. */
  ghost predicate CanMove(s: State, i: nat, a: nat, b: nat)
    requires i < |s.th| == |s.writer|
  {
    exists s' :: Move(s, s', i, a, b) && (s.th[i] == Idle && s.writer[i] ==> s'.th[i] == WLock(a, b))
  }

  /** An enabled thread can step; in particular it never ends the program. */
  lemma EnabledMoves(s: State, i: nat, a: nat, b: nat)
    requires Inv(s, 0) && i < |s.th| == |s.writer| && Enabled(s, i) && a < |s.x| && b < |s.x|
    ensures CanMove(s, i, a, b)
  {
    assert Local(s, i, 0);
    hide Tokens, Local, Sum;
    var q, lock, wl, rd, x := s.th[i], s.lock, s.writelock, s.readers, s.x;
    match s.th[i] {
      case Idle => if s.writer[i] { q, wl := WLock(a, b), wl - 1; } else { q, lock := ALock, lock - 1; }
      case ALock => q, rd := ACounted, rd + 1;
      case ACounted => q := if rd == 1 then AFirst else AReady;
      case AFirst => q, wl := AReady, wl - 1;
      case AReady => q, lock := Scan(0, 0), lock + 1;
      case Scan(k, sum) => q := if k < |x| then Scan(k + 1, sum + x[k]) else Scanned(sum);
      case Scanned(sum) => q, lock := DLock(sum), lock - 1;
      case DLock(sum) => q, rd := DCounted(sum), rd - 1;
      case DCounted(sum) => q := if rd == 0 then DLast(sum) else DReady(sum);
      case DLast(sum) => q, wl := DReady(sum), wl + 1;
      case DReady(sum) => q, lock := Checked(sum), lock + 1;
      case Checked(sum) => q := Idle;
      case WLock(k, j) => q, x := WHalf(j), x[k := x[k] + 1];
      case WHalf(j) => q, x := WDone, x[j := x[j] - 1];
      case WDone => q, wl := Idle, wl + 1;
    }
    assert Move(s, State(lock, wl, rd, x, s.writer, s.th[i := q]), i, a, b);
  }

  /** From zeros, some thread can always step, whatever elements a writer picks: whoever holds the semaphore that is waited for, or is the last in a chain of
      two. */
  lemma NeverStuck(run: seq<State>, k: nat, i: nat, a: nat, b: nat) returns (j: nat)
    requires IsRun(run) && Zeros(run[0].x) && k < |run| && i < |run[k].th| && a < |run[k].x| && b < |run[k].x|
    ensures j < |run[k].th| == |run[k].writer| && CanMove(run[k], j, a, b)
  {
    RunKeeps(run, k);
    ZeroSum(run[0].x);
    var s, total := run[k], 0;
    KindSizes(s.th);
    j := i;
    if !Enabled(s, i) {
      if s.lock == 0 {
        j := CountSome(s.th, HasLock);
        assert Local(s, j, total);
        CountUpdate(s.th, j, s.th[j], Counting);
      }
      if !Enabled(s, j) {
        if Count(s.th, Writing) > 0 {
          j := CountSome(s.th, Writing);
        } else if Count(s.th, Reading) > 0 {
          j := CountSome(s.th, Reading);
        } else {
          j := CountSome(s.th, Leaving);
        }
      }
    }
    EnabledMoves(s, j, a, b);
  }
}
