/** 09/sem-mpmc.c: a bounded pipe for any number of producers and consumers. */
module Pipe {
  const SZ := 10

  /** Where a thread is inside pipe_write or pipe_read; a slot token may be posted long after the lock that
      protected the slot has been released. */
  datatype Pc =
    | Idle
    | WSlot(c: int)             // has a write slot
    | WLock(c: int)             // and the write lock
    | WStored(c: int)           // has stored the character
    | WMoved(c: int, at: nat)   // has advanced `writer`
    | WOpen(c: int, at: nat)    // has posted the write lock, not yet a read slot
    | RSlot
    | RLock
    | RLoaded(c: int)
    | RMoved(c: int, at: nat)
    | ROpen(c: int, at: nat)    // about to post a write slot and to return c

  /** `written` and `read` record the characters in the order in which the locks let them through, and `at` is the place
      where that put the character of a thread. */
  datatype State = State(writeSlots: nat, readSlots: nat, writeLock: nat, readLock: nat, buf: seq<int>, reader: nat, writer: nat,
                         th: seq<Pc>, written: seq<int>, read: seq<int>)

  predicate Start(s: State)
  {
    && s.writeSlots == SZ && s.readSlots == 0 && s.writeLock == s.readLock == 1 && |s.buf| == SZ && s.reader == s.writer == 0
    && (forall i :: 0 <= i < |s.th| ==> s.th[i] == Idle) && s.written == s.read == []
  }

  /** Thread `i` performs one operation; `c` is the character it writes if it starts pipe_write. */
  predicate Move(s: State, s': State, i: nat, c: int)
    requires i < |s.th| && |s.buf| == SZ && s.reader < SZ && s.writer < SZ
  {
    match s.th[i]
    case Idle =>
      || (s.writeSlots > 0 && s' == s.(writeSlots := s.writeSlots - 1, th := s.th[i := WSlot(c)]))
      || (s.readSlots > 0 && s' == s.(readSlots := s.readSlots - 1, th := s.th[i := RSlot]))
    case WSlot(d) => s.writeLock > 0 && s' == s.(writeLock := s.writeLock - 1, th := s.th[i := WLock(d)])
    case WLock(d) => s' == s.(buf := s.buf[s.writer := d], th := s.th[i := WStored(d)])
    case WStored(d) => s' == s.(writer := (s.writer + 1) % SZ, written := s.written + [d], th := s.th[i := WMoved(d, |s.written|)])
    case WMoved(d, at) => s' == s.(writeLock := s.writeLock + 1, th := s.th[i := WOpen(d, at)])
    case WOpen(_, _) => s' == s.(readSlots := s.readSlots + 1, th := s.th[i := Idle])
    case RSlot => s.readLock > 0 && s' == s.(readLock := s.readLock - 1, th := s.th[i := RLock])
    case RLock => s' == s.(th := s.th[i := RLoaded(s.buf[s.reader])])
    case RLoaded(d) => s' == s.(reader := (s.reader + 1) % SZ, read := s.read + [d], th := s.th[i := RMoved(d, |s.read|)])
    case RMoved(d, at) => s' == s.(readLock := s.readLock + 1, th := s.th[i := ROpen(d, at)])
    case ROpen(_, _) => s' == s.(writeSlots := s.writeSlots + 1, th := s.th[i := Idle])
  }

  predicate Sane(s: State)
  {
    |s.buf| == SZ && s.reader < SZ && s.writer < SZ
  }

  ghost predicate Next(s: State, s': State)
  {
    Sane(s) && exists i, c :: 0 <= i < |s.th| && Move(s, s', i, c)
  }

  ghost predicate IsRun(run: seq<State>)
  {
    run != [] && Start(run[0]) && forall k :: 0 <= k < |run| - 1 ==> Next(run[k], run[k + 1])
  }

  /** The kinds of places that tokens are counted by. */
  datatype Kind = Claiming | InWrite | Posting | Taking | InRead | Freeing

  predicate Is(pc: Pc, k: Kind)
  {
    match k
    case Claiming => pc.WSlot? || pc.WLock? || pc.WStored?
    case InWrite => pc.WLock? || pc.WStored? || pc.WMoved?
    case Posting => pc.WMoved? || pc.WOpen?
    case Taking => pc.RSlot? || pc.RLock? || pc.RLoaded?
    case InRead => pc.RLock? || pc.RLoaded? || pc.RMoved?
    case Freeing => pc.RMoved? || pc.ROpen?
  }

  function One(pc: Pc, k: Kind): (n: nat) { if Is(pc, k) then 1 else 0 }

  function Count(th: seq<Pc>, k: Kind): (n: nat)
  {
    if th == [] then 0 else Count(th[..|th| - 1], k) + One(th[|th| - 1], k)
  }

  lemma {:induction false} CountUpdate(th: seq<Pc>, i: nat, pc: Pc, k: Kind)
    requires i < |th|
    ensures Count(th[i := pc], k) == Count(th, k) - One(th[i], k) + One(pc, k) && Count(th, k) >= One(th[i], k)
  {
    var n := |th| - 1;
    if i < n {
      CountUpdate(th[..n], i, pc, k);
      assert th[i := pc][..n] == th[..n][i := pc];
    } else {
      assert th[i := pc][..n] == th[..n];
    }
  }

  lemma {:induction false} CountTwo(th: seq<Pc>, i: nat, j: nat, k: Kind)
    requires i < j < |th| && Is(th[i], k) && Is(th[j], k)
    ensures Count(th, k) >= 2
  {
    var n := |th| - 1;
    if j < n {
      CountTwo(th[..n], i, j, k);
    } else {
      CountUpdate(th[..n], i, th[i], k);
    }
  }

  lemma {:induction false} CountNone(th: seq<Pc>, k: Kind)
    requires forall i :: 0 <= i < |th| ==> th[i] == Idle
    ensures Count(th, k) == 0
  {
    if th != [] {
      CountNone(th[..|th| - 1], k);
    }
  }

  /** Tokens are conserved, and the buffer holds exactly the characters not yet read. */
  predicate Tokens(s: State)
  {
    && s.writeLock + Count(s.th, InWrite) == 1 && s.readLock + Count(s.th, InRead) == 1
    && s.writeSlots + Count(s.th, Claiming) + Count(s.th, Freeing) + |s.written| - |s.read| == SZ
    && s.readSlots + Count(s.th, Taking) + Count(s.th, Posting) == |s.written| - |s.read|
  }

  predicate Contents(s: State)
  {
    && Sane(s) && s.writer == |s.written| % SZ && s.reader == |s.read| % SZ && |s.read| <= |s.written| && s.read == s.written[..|s.read|]
    && forall k :: |s.read| <= k < |s.written| ==> s.buf[k % SZ] == s.written[k]
  }

  predicate Carries(s: State, i: nat)
    requires i < |s.th| && Sane(s)
  {
    match s.th[i]
    case WStored(c) => s.buf[s.writer] == c
    case WMoved(c, at) => at < |s.written| && s.written[at] == c
    case WOpen(c, at) => at < |s.written| && s.written[at] == c
    case RLoaded(c) => |s.read| < |s.written| && s.written[|s.read|] == c
    case RMoved(c, at) => at < |s.read| && s.read[at] == c
    case ROpen(c, at) => at < |s.read| && s.read[at] == c
    case _ => true
  }

  predicate Inv(s: State)
  {
    Tokens(s) && Contents(s) && forall i :: 0 <= i < |s.th| ==> Carries(s, i)
  }

  lemma Counts(th: seq<Pc>, i: nat, pc: Pc)
    requires i < |th|
    ensures forall k :: Count(th[i := pc], k) == Count(th, k) - One(th[i], k) + One(pc, k) && Count(th, k) >= One(th[i], k)
  {
    forall k ensures Count(th[i := pc], k) == Count(th, k) - One(th[i], k) + One(pc, k) && Count(th, k) >= One(th[i], k) {
      CountUpdate(th, i, pc, k);
    }
  }

  lemma MoveTokens(s: State, s': State, i: nat, c: int)
    requires Inv(s) && i < |s.th| && Move(s, s', i, c)
    ensures Tokens(s')
  {
    hide Count, Contents;
    Counts(s.th, i, s'.th[i]);
  }

  lemma ModDiffer(k: nat, w: nat)
    requires 0 < w - k < SZ
    ensures k % SZ != w % SZ
  {
  }

  /** A slot being written is free, a slot being read is not. */
  lemma Bounds(s: State, i: nat)
    requires Tokens(s) && i < |s.th|
    ensures |s.read| <= |s.written| <= |s.read| + SZ
    ensures Is(s.th[i], Claiming) ==> |s.written| < |s.read| + SZ
    ensures Is(s.th[i], Taking) ==> |s.read| < |s.written|
  {
    CountUpdate(s.th, i, s.th[i], Claiming);
    CountUpdate(s.th, i, s.th[i], Taking);
    hide Count;
  }

  /** Storing into the slot at `writer` leaves the unread characters alone. */
  lemma StoreContents(s: State, d: int)
    requires Contents(s) && |s.written| < |s.read| + SZ
    ensures Contents(s.(buf := s.buf[s.writer := d]))
  {
    forall k | |s.read| <= k < |s.written| ensures s.buf[s.writer := d][k % SZ] == s.written[k] {
      ModDiffer(k, |s.written|);
    }
  }

  lemma WriteContents(s: State, d: int)
    requires Contents(s) && s.buf[s.writer] == d
    ensures Contents(s.(writer := (s.writer + 1) % SZ, written := s.written + [d]))
  {
  }

  lemma ReadContents(s: State, d: int)
    requires Contents(s) && |s.read| < |s.written| && s.written[|s.read|] == d
    ensures Contents(s.(reader := (s.reader + 1) % SZ, read := s.read + [d]))
  {
  }

  lemma MoveContents(s: State, s': State, i: nat, c: int)
    requires Inv(s) && i < |s.th| && Move(s, s', i, c)
    ensures Contents(s')
  {
    Bounds(s, i);
    assert Carries(s, i);
    if s.th[i].WLock? {
      StoreContents(s, s.th[i].c);
    } else if s.th[i].WStored? {
      WriteContents(s, s.th[i].c);
    } else if s.th[i].RLoaded? {
      ReadContents(s, s.th[i].c);
    }
  }

  lemma MoveCarries(s: State, s': State, i: nat, c: int, j: nat)
    requires Inv(s) && i < |s.th| && Move(s, s', i, c) && j < |s.th| && Contents(s')
    ensures Carries(s', j)
  {
    assert Carries(s, j);
    Bounds(s, i);
    if j != i {
      Alone(s, i, j);
    }
    hide Tokens;
  }

  /** Two threads are never both between the lock and its post. */
  lemma Alone(s: State, i: nat, j: nat)
    requires Tokens(s) && i < |s.th| && j < |s.th| && i != j
    ensures !(Is(s.th[i], InWrite) && Is(s.th[j], InWrite)) && !(Is(s.th[i], InRead) && Is(s.th[j], InRead))
  {
    var a, b := if i < j then i else j, if i < j then j else i;
    if Is(s.th[i], InWrite) && Is(s.th[j], InWrite) {
      CountTwo(s.th, a, b, InWrite);
    }
    if Is(s.th[i], InRead) && Is(s.th[j], InRead) {
      CountTwo(s.th, a, b, InRead);
    }
  }

  lemma MoveKeeps(s: State, s': State, i: nat, c: int)
    requires Inv(s) && i < |s.th| && Move(s, s', i, c)
    ensures Inv(s')
  {
    MoveTokens(s, s', i, c);
    MoveContents(s, s', i, c);
    forall j | 0 <= j < |s'.th| ensures Carries(s', j) {
      MoveCarries(s, s', i, c, j);
    }
  }

  lemma {:induction false} RunKeeps(run: seq<State>, k: nat)
    requires IsRun(run) && k < |run|
    ensures Inv(run[k])
  {
    if k == 0 {
      forall d ensures Count(run[0].th, d) == 0 {
        CountNone(run[0].th, d);
      }
      hide Count;
    } else {
      RunKeeps(run, k - 1);
      assert Next(run[k - 1], run[k - 1 + 1]);
      hide Inv, Move;
      var i, c :| 0 <= i < |run[k - 1].th| && Move(run[k - 1], run[k], i, c);
      MoveKeeps(run[k - 1], run[k], i, c);
    }
  }

  /** In every run: what is read is a prefix of what is written, at most SZ characters are under way, writers exclude each
      other, readers exclude each other, and a write and a read in progress never use the same slot. */
  lemma PipeIsFifo(run: seq<State>, k: nat)
    requires IsRun(run) && k < |run|
    ensures run[k].read <= run[k].written && |run[k].written| - |run[k].read| <= SZ
    ensures forall i, j :: 0 <= i < |run[k].th| && 0 <= j < |run[k].th| ==> Exclude(run[k], i, j)
  {
    RunKeeps(run, k);
    var s := run[k];
    hide Count;
    forall i, j | 0 <= i < |s.th| && 0 <= j < |s.th| ensures Exclude(s, i, j) {
      Bounds(s, i);
      Bounds(s, j);
      if i != j {
        Alone(s, i, j);
      }
      if Is(s.th[i], Claiming) && Is(s.th[j], Taking) {
        ModDiffer(|s.read|, |s.written|);
      }
    }
  }

  predicate Exclude(s: State, i: nat, j: nat)
    requires i < |s.th| && j < |s.th|
  {
    && (i != j && Is(s.th[i], InWrite) ==> !Is(s.th[j], InWrite)) && (i != j && Is(s.th[i], InRead) ==> !Is(s.th[j], InRead))
    && ((s.th[i].WLock? || s.th[i].WStored?) && (s.th[j].RLock? || s.th[j].RLoaded?) ==> s.reader != s.writer)
  }

  // What one call does.

  /** At step k of the run, thread i puts the character it writes, or has read, in its place. */
  predicate Puts(run: seq<State>, k: nat, i: nat, c: int, at: nat)
  {
    k + 1 < |run| && i < |run[k].th| && run[k].th[i] == WStored(c) && run[k + 1].written == run[k].written + [c] && at == |run[k].written|
  }

  predicate Gets(run: seq<State>, k: nat, i: nat, c: int, at: nat)
  {
    k + 1 < |run| && i < |run[k].th| && run[k].th[i] == RLoaded(c) && run[k + 1].read == run[k].read + [c] && at == |run[k].read|
  }

  predicate Before(pc: Pc, c: int)
  {
    pc == WSlot(c) || pc == WLock(c) || pc == WStored(c)
  }

  /** Where a call that began at step j is at step k. */
  ghost predicate Writing(run: seq<State>, j: nat, k: nat, i: nat, c: int)
    requires j <= k < |run|
  {
    && i < |run[k].th|
    && (Before(run[k].th[i], c) || (Is(run[k].th[i], Posting) && run[k].th[i].c == c && exists m :: j <= m < k && Puts(run, m, i, c, run[k].th[i].at)))
  }

  ghost predicate Reading(run: seq<State>, j: nat, k: nat, i: nat)
    requires j <= k < |run|
  {
    && i < |run[k].th|
    && (Is(run[k].th[i], Taking) || (Is(run[k].th[i], Freeing) && exists m :: j <= m < k && Gets(run, m, i, run[k].th[i].c, run[k].th[i].at)))
  }

  /** One step of a call: by the thread itself, or by another one. */
  lemma CallStep(s: State, s': State, i: nat)
    requires Sane(s) && Next(s, s') && i < |s.th|
    ensures |s'.th| == |s.th| && (s'.th[i] == s.th[i] || s'.th[i] == Idle || s.th[i] == Idle || Advances(s, s', i))
    ensures |s.written| <= |s'.written| <= |s.written| + 1 && |s.read| <= |s'.read| <= |s.read| + 1
  {
  }

  predicate Advances(s: State, s': State, i: nat)
    requires i < |s.th| && i < |s'.th|
  {
    match s.th[i]
    case Idle => true
    case WSlot(c) => s'.th[i] == WLock(c)
    case WLock(c) => s'.th[i] == WStored(c)
    case WStored(c) => s'.th[i] == WMoved(c, |s.written|) && s'.written == s.written + [c]
    case WMoved(c, at) => s'.th[i] == WOpen(c, at)
    case WOpen(_, _) => false
    case RSlot => s'.th[i] == RLock
    case RLock => s'.th[i].RLoaded?
    case RLoaded(c) => s'.th[i] == RMoved(c, |s.read|) && s'.read == s.read + [c]
    case RMoved(c, at) => s'.th[i] == ROpen(c, at)
    case ROpen(_, _) => false
  }

  lemma {:induction false} CallWrites(run: seq<State>, j: nat, k: nat, i: nat, c: int)
    requires IsRun(run) && j <= k < |run| && i < |run[j].th| && run[j].th[i] == WSlot(c)
    requires forall m :: j <= m <= k ==> i < |run[m].th| && run[m].th[i] != Idle
    ensures Writing(run, j, k, i, c)
  {
    if j < k {
      CallWrites(run, j, k - 1, i, c);
      assert Next(run[k - 1], run[k - 1 + 1]);
      hide Next;
      CallStep(run[k - 1], run[k], i);
      if run[k - 1].th[i].WStored? && run[k].th[i] != run[k - 1].th[i] {
        assert Puts(run, k - 1, i, c, run[k].th[i].at);
      }
    }
  }

  /** pipe_write(c): when it is about to return, it has put c once into the pipe, during the call, and c is still what is
      written at that place. */
  lemma WritePuts(run: seq<State>, j: nat, k: nat, i: nat, c: int)
    requires IsRun(run) && j <= k < |run| && i < |run[j].th| && run[j].th[i] == WSlot(c) && i < |run[k].th| && run[k].th[i].WOpen?
    requires forall m :: j <= m <= k ==> i < |run[m].th| && run[m].th[i] != Idle
    ensures exists m :: j <= m < k && Puts(run, m, i, c, run[k].th[i].at)
    ensures run[k].th[i].at < |run[k].written| && run[k].written[run[k].th[i].at] == c
  {
    CallWrites(run, j, k, i, c);
    RunKeeps(run, k);
    assert Carries(run[k], i);
  }

  lemma {:induction false} CallReads(run: seq<State>, j: nat, k: nat, i: nat)
    requires IsRun(run) && j <= k < |run| && i < |run[j].th| && run[j].th[i] == RSlot
    requires forall m :: j <= m <= k ==> i < |run[m].th| && run[m].th[i] != Idle
    ensures Reading(run, j, k, i)
  {
    if j < k {
      CallReads(run, j, k - 1, i);
      assert Next(run[k - 1], run[k - 1 + 1]);
      hide Next;
      CallStep(run[k - 1], run[k], i);
      if run[k - 1].th[i].RLoaded? && run[k].th[i] != run[k - 1].th[i] {
        assert Gets(run, k - 1, i, run[k].th[i].c, run[k].th[i].at);
      }
    }
  }

  /** pipe_read: the character it returns it has taken once, during the call, and it is the one written at that place. */
  lemma ReadGets(run: seq<State>, j: nat, k: nat, i: nat)
    requires IsRun(run) && j <= k < |run| && i < |run[j].th| && run[j].th[i] == RSlot && i < |run[k].th| && run[k].th[i].ROpen?
    requires forall m :: j <= m <= k ==> i < |run[m].th| && run[m].th[i] != Idle
    ensures exists m :: j <= m < k && Gets(run, m, i, run[k].th[i].c, run[k].th[i].at)
    ensures run[k].th[i].at < |run[k].written| && run[k].written[run[k].th[i].at] == run[k].th[i].c
  {
    CallReads(run, j, k, i);
    RunKeeps(run, k);
    assert Carries(run[k], i);
  }

  lemma {:induction false} Grows(run: seq<State>, j: nat, k: nat)
    requires IsRun(run) && j <= k < |run|
    ensures |run[j].written| <= |run[k].written| && |run[j].read| <= |run[k].read|
  {
    if j < k {
      Grows(run, j, k - 1);
      assert Next(run[k - 1], run[k - 1 + 1]);
    }
  }

  /** No two calls put a character in the same place, and no two get it from the same place. */
  lemma PlacesDiffer(run: seq<State>, j: nat, k: nat, i: nat, i': nat, c: int, c': int, at: nat, at': nat)
    requires IsRun(run) && j < k
    ensures Puts(run, j, i, c, at) && Puts(run, k, i', c', at') ==> at < at'
    ensures Gets(run, j, i, c, at) && Gets(run, k, i', c', at') ==> at < at'
  {
    if k < |run| {
      Grows(run, j + 1, k);
    }
  }

  // Nobody waits forever for nobody.

  lemma {:induction false} CountSome(th: seq<Pc>, k: Kind) returns (i: nat)
    requires Count(th, k) > 0
    ensures i < |th| && Is(th[i], k)
  {
    var n := |th| - 1;
    if Is(th[n], k) {
      return n;
    }
    i := CountSome(th[..n], k);
  }

  /** Thread `i` has a move; if it is idle, it starts pipe_write(c) if `writes`, otherwise pipe_read. */
  ghost predicate CanMove(s: State, i: nat, writes: bool, c: int)
    requires i < |s.th| && Sane(s)
  {
    exists s' :: Move(s, s', i, c) && i < |s'.th| && (s.th[i] == Idle ==> if writes then s'.th[i] == WSlot(c) else s'.th[i] == RSlot)
  }

  lemma MoveExists(s: State, i: nat, writes: bool, c: int)
    requires i < |s.th| && Sane(s) && (s.th[i] == Idle ==> if writes then s.writeSlots > 0 else s.readSlots > 0)
    requires (s.th[i].WSlot? ==> s.writeLock > 0) && (s.th[i].RSlot? ==> s.readLock > 0)
    ensures CanMove(s, i, writes, c)
  {
    var s' := match s.th[i]
      case Idle => if writes then s.(writeSlots := s.writeSlots - 1, th := s.th[i := WSlot(c)]) else s.(readSlots := s.readSlots - 1, th := s.th[i := RSlot])
      case WSlot(d) => s.(writeLock := s.writeLock - 1, th := s.th[i := WLock(d)])
      case WLock(d) => s.(buf := s.buf[s.writer := d], th := s.th[i := WStored(d)])
      case WStored(d) => s.(writer := (s.writer + 1) % SZ, written := s.written + [d], th := s.th[i := WMoved(d, |s.written|)])
      case WMoved(d, at) => s.(writeLock := s.writeLock + 1, th := s.th[i := WOpen(d, at)])
      case WOpen(_, _) => s.(readSlots := s.readSlots + 1, th := s.th[i := Idle])
      case RSlot => s.(readLock := s.readLock - 1, th := s.th[i := RLock])
      case RLock => s.(th := s.th[i := RLoaded(s.buf[s.reader])])
      case RLoaded(d) => s.(reader := (s.reader + 1) % SZ, read := s.read + [d], th := s.th[i := RMoved(d, |s.read|)])
      case RMoved(d, at) => s.(readLock := s.readLock + 1, th := s.th[i := ROpen(d, at)])
      case ROpen(_, _) => s.(writeSlots := s.writeSlots + 1, th := s.th[i := Idle]);
    assert Move(s, s', i, c);
  }

  /** If a thread waits for a lock, the one that holds it can move. */
  lemma HolderMoves(s: State, i: nat, writes: seq<bool>, c: seq<int>)
    requires Inv(s) && i < |s.th| == |writes| == |c| && s.th[i] != Idle
    ensures exists j :: 0 <= j < |s.th| && CanMove(s, j, writes[j], c[j])
  {
    var j := i;
    if s.th[i].WSlot? && s.writeLock == 0 {
      j := CountSome(s.th, InWrite);
    } else if s.th[i].RSlot? && s.readLock == 0 {
      j := CountSome(s.th, InRead);
    }
    MoveExists(s, j, writes[j], c[j]);
  }

  /** No run with a producer and a consumer ever gets stuck, whatever characters the producers have next: some thread can
      move, and need not change its role. */
  lemma NeverStuck(run: seq<State>, k: nat, writes: seq<bool>, c: seq<int>, p: nat, q: nat)
    requires IsRun(run) && k < |run| && |writes| == |run[k].th| == |c| && p < |writes| && q < |writes| && writes[p] && !writes[q]
    ensures Sane(run[k]) && exists i :: 0 <= i < |run[k].th| && CanMove(run[k], i, writes[i], c[i])
  {
    RunKeeps(run, k);
    var s := run[k];
    if forall i :: 0 <= i < |s.th| ==> s.th[i] == Idle {
      forall d ensures Count(s.th, d) == 0 {
        CountNone(s.th, d);
      }
      var i := if s.writeSlots > 0 then p else q;
      MoveExists(s, i, writes[i], c[i]);
    } else {
      var i :| 0 <= i < |s.th| && s.th[i] != Idle;
      HolderMoves(s, i, writes, c);
    }
  }
}
