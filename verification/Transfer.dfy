/** 09/dead-fix.c: transfers between accounts, each account with a mutex, taken in the order of their ids. */
module Transfer {
  import opened Collections

  /** A transfer and how far it has got; a mutex records its holder. */
  datatype Phase = Begin | HasFirst | HasBoth | Credited | Settled | SrcOpen | Finished

  datatype Txn = Txn(src: nat, dst: nat, amount: int, phase: Phase)

  /** `owner[a]` is the transfer that has the mutex of account `a`, -1 if it is free. */
  datatype State = State(owner: seq<int>, balance: seq<int>, txn: seq<Txn>)

  function First(t: Txn): (a: nat) { if t.src < t.dst then t.src else t.dst }

  function Second(t: Txn): (a: nat) { if t.src < t.dst then t.dst else t.src }

  predicate Sane(s: State)
  {
    |s.owner| == |s.balance| && forall i :: 0 <= i < |s.txn| ==> s.txn[i].src < |s.owner| && s.txn[i].dst < |s.owner| && s.txn[i].src != s.txn[i].dst
  }

  predicate Start(s: State)
  {
    Sane(s) && (forall a :: 0 <= a < |s.owner| ==> s.owner[a] == -1) && forall i :: 0 <= i < |s.txn| ==> s.txn[i].phase == Begin
  }

  function To(t: Txn, phase: Phase): (r: Txn) { t.(phase := phase) }

  predicate Move(s: State, s': State, i: nat)
    requires Sane(s) && i < |s.txn|
  {
    var t := s.txn[i];
    match t.phase
    case Begin => s.owner[First(t)] == -1 && s' == s.(owner := s.owner[First(t) := i], txn := s.txn[i := To(t, HasFirst)])
    case HasFirst => s.owner[Second(t)] == -1 && s' == s.(owner := s.owner[Second(t) := i], txn := s.txn[i := To(t, HasBoth)])
    case HasBoth =>
      if s.balance[t.src] > t.amount then s' == s.(balance := s.balance[t.dst := s.balance[t.dst] + t.amount], txn := s.txn[i := To(t, Credited)])
      else s' == s.(txn := s.txn[i := To(t, Settled)])
    case Credited => s' == s.(balance := s.balance[t.src := s.balance[t.src] - t.amount], txn := s.txn[i := To(t, Settled)])
    case Settled => s' == s.(owner := s.owner[t.src := -1], txn := s.txn[i := To(t, SrcOpen)])
    case SrcOpen => s' == s.(owner := s.owner[t.dst := -1], txn := s.txn[i := To(t, Finished)])
    case Finished => false
  }

  ghost predicate Next(s: State, s': State)
  {
    Sane(s) && exists i :: 0 <= i < |s.txn| && Move(s, s', i)
  }

  ghost predicate IsRun(run: seq<State>)
  {
    run != [] && Start(run[0]) && forall k :: 0 <= k < |run| - 1 ==> Next(run[k], run[k + 1])
  }

  predicate Has(t: Txn, a: nat)
  {
    match t.phase
    case HasFirst => a == First(t)
    case HasBoth => a == t.src || a == t.dst
    case Credited => a == t.src || a == t.dst
    case Settled => a == t.src || a == t.dst
    case SrcOpen => a == t.dst
    case _ => false
  }

  /** Mutexes and phases agree: transfer `i` has account `a` exactly if the mutex says so. */
  predicate Locks(s: State)
    requires Sane(s)
  {
    && (forall a :: 0 <= a < |s.owner| ==> -1 <= s.owner[a] < |s.txn|)
    && forall i, a :: 0 <= i < |s.txn| && 0 <= a < |s.owner| ==> (Has(s.txn[i], a) <==> s.owner[a] == i)
  }

  /** Money that has been credited but not yet debited. */
  function Floating(t: Txn): (r: int) { if t.phase == Credited then t.amount else 0 }

  function Afloat(txn: seq<Txn>): (r: int)
  {
    if txn == [] then 0 else Afloat(txn[..|txn| - 1]) + Floating(txn[|txn| - 1])
  }

  lemma {:induction false} AfloatUpdate(txn: seq<Txn>, i: nat, t: Txn)
    requires i < |txn|
    ensures Afloat(txn[i := t]) == Afloat(txn) - Floating(txn[i]) + Floating(t)
  {
    var n := |txn| - 1;
    if i < n {
      AfloatUpdate(txn[..n], i, t);
      assert txn[i := t][..n] == txn[..n][i := t];
    } else {
      assert txn[i := t][..n] == txn[..n];
    }
  }

  /** With no transfer between its two updates there is nothing afloat. */
  lemma {:induction false} NoneAfloat(txn: seq<Txn>)
    requires forall i :: 0 <= i < |txn| ==> txn[i].phase != Credited
    ensures Afloat(txn) == 0
  {
    if txn != [] {
      NoneAfloat(txn[..|txn| - 1]);
    }
  }

  /** Amounts are not negative, no account is, and what is about to be debited is there. */
  predicate Solvent(s: State)
    requires Sane(s)
  {
    && (forall a :: 0 <= a < |s.balance| ==> s.balance[a] >= 0)
    && forall i :: 0 <= i < |s.txn| ==> s.txn[i].amount >= 0 && (s.txn[i].phase == Credited ==> s.balance[s.txn[i].src] > s.txn[i].amount)
  }

  lemma MoveLock(s: State, s': State, i: nat, j: nat, a: nat)
    requires Sane(s) && Locks(s) && i < |s.txn| && Move(s, s', i) && j < |s.txn| && a < |s.owner|
    ensures |s'.txn| == |s.txn| && |s'.owner| == |s.owner| && -1 <= s'.owner[a] < |s.txn| && (Has(s'.txn[j], a) <==> s'.owner[a] == j)
  {
    assert Has(s.txn[i], a) <==> s.owner[a] == i;
    assert Has(s.txn[j], a) <==> s.owner[a] == j;
    hide Locks;
  }

  lemma MoveLocks(s: State, s': State, i: nat)
    requires Sane(s) && Locks(s) && i < |s.txn| && Move(s, s', i)
    ensures Sane(s') && Locks(s')
  {
    assert Sane(s');
    forall j, a | 0 <= j < |s'.txn| && 0 <= a < |s'.owner| ensures -1 <= s'.owner[a] < |s'.txn| && (Has(s'.txn[j], a) <==> s'.owner[a] == j) {
      MoveLock(s, s', i, j, a);
    }
    hide Move, Has;
    forall a | 0 <= a < |s'.owner| ensures -1 <= s'.owner[a] < |s'.txn| {
      MoveLock(s, s', i, i, a);
    }
  }

  lemma MoveTotal(s: State, s': State, i: nat)
    requires Sane(s) && i < |s.txn| && Move(s, s', i)
    ensures Sum(s'.balance) - Afloat(s'.txn) == Sum(s.balance) - Afloat(s.txn)
  {
    var t := s.txn[i];
    AfloatUpdate(s.txn, i, s'.txn[i]);
    SumUpdate(s.balance, t.dst, s.balance[t.dst] + t.amount);
    SumUpdate(s.balance, t.src, s.balance[t.src] - t.amount);
  }

  /** Only the transfer that has both accounts changes their balances. */
  lemma MoveSolvent(s: State, s': State, i: nat)
    requires Sane(s) && Locks(s) && Solvent(s) && i < |s.txn| && Move(s, s', i)
    ensures Sane(s') && Solvent(s')
  {
    forall j | 0 <= j < |s'.txn| && s'.txn[j].phase == Credited ensures s'.balance[s'.txn[j].src] > s'.txn[j].amount {
      if j != i {
        assert Has(s.txn[j], s.txn[j].src) && s.owner[s.txn[j].src] == j;
        assert Has(s.txn[i], s.txn[i].src) <==> s.owner[s.txn[i].src] == i;
        assert Has(s.txn[i], s.txn[i].dst) <==> s.owner[s.txn[i].dst] == i;
      }
    }
  }

  lemma {:induction false} RunKeeps(run: seq<State>, k: nat)
    requires IsRun(run) && k < |run|
    ensures Sane(run[k]) && Locks(run[k]) && Sum(run[k].balance) - Afloat(run[k].txn) == Sum(run[0].balance)
    ensures Solvent(run[0]) ==> Solvent(run[k])
  {
    if k == 0 {
      NoneAfloat(run[0].txn);
    } else {
      RunKeeps(run, k - 1);
      assert Next(run[k - 1], run[k - 1 + 1]);
      var i :| 0 <= i < |run[k - 1].txn| && Move(run[k - 1], run[k], i);
      MoveLocks(run[k - 1], run[k], i);
      MoveTotal(run[k - 1], run[k], i);
      if Solvent(run[k - 1]) {
        MoveSolvent(run[k - 1], run[k], i);
      }
    }
  }

  /** In every run the total balance is conserved whenever no transfer is between its two updates, and accounts
      that start without debt stay so. */
  lemma MoneyIsConserved(run: seq<State>, k: nat)
    requires IsRun(run) && k < |run|
    ensures (forall i :: 0 <= i < |run[k].txn| ==> run[k].txn[i].phase != Credited) ==> Sum(run[k].balance) == Sum(run[0].balance)
    ensures Sane(run[0]) && Sane(run[k])
    ensures Solvent(run[0]) ==> forall a :: 0 <= a < |run[k].balance| ==> run[k].balance[a] >= 0
  {
    RunKeeps(run, k);
    if forall i :: 0 <= i < |run[k].txn| ==> run[k].txn[i].phase != Credited {
      NoneAfloat(run[k].txn);
    }
  }

  // What a transfer does.

  function Rank(phase: Phase): (n: nat)
    ensures n <= 6
  {
    match phase
    case Begin => 0
    case HasFirst => 1
    case HasBoth => 2
    case Credited => 3
    case Settled => 4
    case SrcOpen => 5
    case Finished => 6
  }

  /** What transfer `t` moves, given the balance of its source when it has both mutexes. */
  function Pays(t: Txn, balance: int): (amount: int) { if balance > t.amount then t.amount else 0 }

  /** Transfer `i` is `t` and had both mutexes in a state with the balances `b`; since then its two accounts have changed
      by what it pays and by nothing else. */
  predicate Paying(b: seq<int>, t: Txn, s: State, i: nat)
  {
    && Sane(s) && i < |s.txn| && t.src < |b| == |s.balance| && t.dst < |b| && s.txn[i] == To(t, s.txn[i].phase) && Rank(s.txn[i].phase) >= 2
    && var src, dst := s.balance[t.src], s.balance[t.dst];
    match s.txn[i].phase
    case HasBoth => src == b[t.src] && dst == b[t.dst]
    case Credited => src == b[t.src] > t.amount && dst == b[t.dst] + t.amount
    case Settled => src == b[t.src] - Pays(t, b[t.src]) && dst == b[t.dst] + Pays(t, b[t.src])
    case _ => true
  }

  lemma PayingStep(b: seq<int>, t: Txn, s: State, s': State, i: nat, j: nat)
    requires Paying(b, t, s, i) && Locks(s) && j < |s.txn| && Move(s, s', j)
    ensures Paying(b, t, s', i)
  {
    if j != i {
      assert Has(s.txn[i], t.src) <==> s.owner[t.src] == i;
      assert Has(s.txn[i], t.dst) <==> s.owner[t.dst] == i;
      assert Has(s.txn[j], t.src) <==> s.owner[t.src] == j;
      assert Has(s.txn[j], t.dst) <==> s.owner[t.dst] == j;
      hide Locks;
      OtherMoves(s, s', i, j, t.src, t.dst);
    } else {
      hide Locks;
    }
  }

  /** Another transfer leaves accounts alone whose mutexes it does not have. */
  lemma OtherMoves(s: State, s': State, i: nat, j: nat, a: nat, b: nat)
    requires Sane(s) && i < |s.txn| && j < |s.txn| && i != j && Move(s, s', j) && a < |s.balance| && b < |s.balance|
    ensures Sane(s') && |s'.balance| == |s.balance| && |s'.txn| == |s.txn| && s'.txn[i] == s.txn[i]
    ensures (!Has(s.txn[j], a) ==> s'.balance[a] == s.balance[a]) && (!Has(s.txn[j], b) ==> s'.balance[b] == s.balance[b])
  {
  }

  lemma {:induction false} RunPays(run: seq<State>, j: nat, k: nat, i: nat)
    requires IsRun(run) && j <= k < |run| && i < |run[j].txn| && run[j].txn[i].phase == HasBoth
    ensures Paying(run[j].balance, run[j].txn[i], run[k], i)
  {
    hide Paying, Locks, Move, Solvent, Sum, Afloat;
    RunKeeps(run, j);
    PayingStart(run[j], i);
    if j < k {
      RunPays(run, j, k - 1, i);
      RunKeeps(run, k - 1);
      assert Next(run[k - 1], run[k - 1 + 1]);
      PayingNext(run[j].balance, run[j].txn[i], run[k - 1], run[k], i);
    }
  }

  lemma PayingStart(s: State, i: nat)
    requires Sane(s) && i < |s.txn| && s.txn[i].phase == HasBoth
    ensures Paying(s.balance, s.txn[i], s, i)
  {
  }

  lemma PayingNext(b: seq<int>, t: Txn, s: State, s': State, i: nat)
    requires Paying(b, t, s, i) && Sane(s) && Locks(s) && Next(s, s')
    ensures Paying(b, t, s', i)
  {
    hide Paying, Locks, Move;
    var h :| 0 <= h < |s.txn| && Move(s, s', h);
    PayingStep(b, t, s, s', i, h);
  }

  /** A transfer does what it says: from the state in which it gets its second mutex to the one in which it is settled,
      the source falls and the destination rises by the amount, exactly if the source exceeded it there; nobody else
      touches the two accounts meanwhile. */
  lemma TransferPays(run: seq<State>, j: nat, k: nat, i: nat)
    requires IsRun(run) && j <= k < |run| && i < |run[j].txn| && run[j].txn[i].phase == HasBoth
    requires i < |run[k].txn| && run[k].txn[i].phase == Settled
    ensures var t, b, c := run[j].txn[i], run[j].balance, run[k].balance;
            && t.src < |b| == |c| && t.dst < |b| && run[k].txn[i] == To(t, Settled)
            && (if b[t.src] > t.amount then c[t.src] == b[t.src] - t.amount && c[t.dst] == b[t.dst] + t.amount
                else c[t.src] == b[t.src] && c[t.dst] == b[t.dst])
  {
    RunPays(run, j, k, i);
  }

  /** Transfer `i` found enough money at its source. */
  ghost predicate Moved(run: seq<State>, i: nat)
  {
    exists m :: 0 <= m < |run| && i < |run[m].txn| && HasMoney(run[m], i)
  }

  predicate HasMoney(s: State, i: nat)
    requires i < |s.txn|
  {
    s.txn[i].phase == HasBoth && s.txn[i].src < |s.balance| && s.balance[s.txn[i].src] > s.txn[i].amount
  }

  /** What transfer `i` has brought to account `a` so far. */
  ghost function Brought(run: seq<State>, s: State, i: nat, a: nat): (d: int)
    requires i < |s.txn|
  {
    var t := s.txn[i];
    if !Moved(run, i) then 0
    else (if a == t.dst && Rank(t.phase) >= 3 then t.amount else 0) - (if a == t.src && Rank(t.phase) >= 4 then t.amount else 0)
  }

  ghost function AllBrought(run: seq<State>, s: State, a: nat): (d: seq<int>)
    ensures |d| == |s.txn| && forall i :: 0 <= i < |s.txn| ==> d[i] == Brought(run, s, i, a)
  {
    seq(|s.txn|, i requires 0 <= i < |s.txn| => Brought(run, s, i, a))
  }

  /** Whether there is enough is settled once. */
  lemma MovedOnce(run: seq<State>, k: nat, i: nat)
    requires IsRun(run) && k < |run| && i < |run[k].txn| && run[k].txn[i].phase == HasBoth
    ensures Moved(run, i) <==> HasMoney(run[k], i)
  {
    RunKeeps(run, k);
    if Moved(run, i) {
      var m :| 0 <= m < |run| && i < |run[m].txn| && HasMoney(run[m], i);
      RunPays(run, if m < k then m else k, if m < k then k else m, i);
    }
  }

  lemma {:induction false} CreditedMoved(run: seq<State>, k: nat, i: nat)
    requires IsRun(run) && k < |run| && i < |run[k].txn| && run[k].txn[i].phase == Credited
    ensures Moved(run, i)
  {
    if k > 0 {
      assert Next(run[k - 1], run[k - 1 + 1]);
      var h :| 0 <= h < |run[k - 1].txn| && Move(run[k - 1], run[k], h);
      if run[k - 1].txn[i].phase == Credited {
        CreditedMoved(run, k - 1, i);
      } else {
        assert HasMoney(run[k - 1], i);
      }
    }
  }

  /** One step changes what one transfer has brought, and the balance by as much. */
  lemma BroughtStep(run: seq<State>, k: nat, h: nat, a: nat)
    requires IsRun(run) && k + 1 < |run| && Sane(run[k]) && h < |run[k].txn| && Move(run[k], run[k + 1], h) && a < |run[k].balance|
    ensures |run[k + 1].txn| == |run[k].txn| && |run[k + 1].balance| == |run[k].balance|
    ensures AllBrought(run, run[k + 1], a) == AllBrought(run, run[k], a)[h := Brought(run, run[k + 1], h, a)]
    ensures run[k + 1].balance[a] - run[k].balance[a] == Brought(run, run[k + 1], h, a) - Brought(run, run[k], h, a)
  {
    if run[k].txn[h].phase == HasBoth {
      MovedOnce(run, k, h);
    } else if run[k].txn[h].phase == Credited {
      CreditedMoved(run, k, h);
    }
    hide Moved, IsRun;
    OthersBrought(run, run[k], run[k + 1], h, a);
  }

  lemma OthersBrought(run: seq<State>, s: State, s': State, h: nat, a: nat)
    requires Sane(s) && h < |s.txn| && Move(s, s', h)
    ensures |s'.txn| == |s.txn| && AllBrought(run, s', a) == AllBrought(run, s, a)[h := Brought(run, s', h, a)]
  {
    hide Moved;
    assert forall i :: 0 <= i < |s.txn| && i != h ==> s'.txn[i] == s.txn[i];
  }

  lemma {:induction false} RunBrings(run: seq<State>, k: nat, a: nat)
    requires IsRun(run) && k < |run| && a < |run[0].balance|
    ensures |run[k].balance| == |run[0].balance| && run[k].balance[a] == run[0].balance[a] + Sum(AllBrought(run, run[k], a))
  {
    if k == 0 {
      hide Moved;
      ZeroSum(AllBrought(run, run[0], a));
    } else {
      RunBrings(run, k - 1, a);
      RunKeeps(run, k - 1);
      assert Next(run[k - 1], run[k - 1 + 1]);
      var h :| 0 <= h < |run[k - 1].txn| && Move(run[k - 1], run[k], h);
      hide Move, Brought, Locks;
      BroughtStep(run, k - 1, h, a);
      SumUpdate(AllBrought(run, run[k - 1], a), h, Brought(run, run[k], h, a));
    }
  }

  /** When all transfers are finished, every account has its start value, less what the transfers from it took and more
      what those to it brought; a transfer counts exactly if it found enough money when it had both mutexes. */
  lemma FinalBalances(run: seq<State>, k: nat, a: nat)
    requires IsRun(run) && k < |run| && a < |run[0].balance| && forall i :: 0 <= i < |run[k].txn| ==> run[k].txn[i].phase == Finished
    ensures |run[k].balance| == |run[0].balance| && run[k].balance[a] == run[0].balance[a] + Sum(Net(run, run[k].txn, a))
  {
    RunBrings(run, k, a);
    hide Moved;
    assert AllBrought(run, run[k], a) == Net(run, run[k].txn, a);
  }

  ghost function Net(run: seq<State>, txn: seq<Txn>, a: nat): (d: seq<int>)
  {
    seq(|txn|, i requires 0 <= i < |txn| =>
      if Moved(run, i) then (if a == txn[i].dst then txn[i].amount else 0) - (if a == txn[i].src then txn[i].amount else 0) else 0)
  }

  function Ranks(txn: seq<Txn>): (r: seq<int>)
    ensures |r| == |txn| && forall i :: 0 <= i < |txn| ==> r[i] == Rank(txn[i].phase)
  {
    seq(|txn|, i requires 0 <= i < |txn| => Rank(txn[i].phase))
  }

  /** Every step takes one transfer further. */
  lemma {:induction false} RunAdvances(run: seq<State>, k: nat)
    requires IsRun(run) && k < |run|
    ensures |run[k].txn| == |run[0].txn| && Sum(Ranks(run[k].txn)) >= k
  {
    if k == 0 {
      ZeroSum(Ranks(run[0].txn));
    } else {
      hide Next, Ranks, Sum;
      RunAdvances(run, k - 1);
      assert Next(run[k - 1], run[k - 1 + 1]);
      Advances(run[k - 1], run[k]);
    }
  }

  lemma MoveRank(s: State, s': State, h: nat)
    requires Sane(s) && h < |s.txn| && Move(s, s', h)
    ensures |s'.txn| == |s.txn| && s'.txn == s.txn[h := s'.txn[h]] && Rank(s'.txn[h].phase) > Rank(s.txn[h].phase)
  {
  }

  lemma Advances(s: State, s': State)
    requires Next(s, s')
    ensures |s'.txn| == |s.txn| && Sum(Ranks(s'.txn)) > Sum(Ranks(s.txn))
  {
    hide Sum, Move, Rank;
    var h :| 0 <= h < |s.txn| && Move(s, s', h);
    MoveRank(s, s', h);
    SumUpdate(Ranks(s.txn), h, Rank(s'.txn[h].phase));
    assert Ranks(s'.txn) == Ranks(s.txn)[h := Rank(s'.txn[h].phase)];
  }

  /** So every run ends, after six steps per transfer at the most; by NeverStuck it can only end with all of them finished. */
  lemma RunEnds(run: seq<State>)
    requires IsRun(run)
    ensures |run| <= 6 * |run[0].txn| + 1
  {
    RunAdvances(run, |run| - 1);
    BoundedSum(Ranks(run[|run| - 1].txn), 6);
  }

  predicate Enabled(s: State, i: nat)
    requires Sane(s) && i < |s.txn|
  {
    match s.txn[i].phase
    case Begin => s.owner[First(s.txn[i])] == -1
    case HasFirst => s.owner[Second(s.txn[i])] == -1
    case Finished => false
    case _ => true
  }

  lemma EnabledMoves(s: State, i: nat)
    requires Sane(s) && i < |s.txn| && Enabled(s, i)
    ensures exists s' :: Move(s, s', i)
  {
    var t := s.txn[i];
    var s' := match t.phase
      case Begin => s.(owner := s.owner[First(t) := i], txn := s.txn[i := To(t, HasFirst)])
      case HasFirst => s.(owner := s.owner[Second(t) := i], txn := s.txn[i := To(t, HasBoth)])
      case HasBoth =>
        if s.balance[t.src] > t.amount then s.(balance := s.balance[t.dst := s.balance[t.dst] + t.amount], txn := s.txn[i := To(t, Credited)])
        else s.(txn := s.txn[i := To(t, Settled)])
      case Credited => s.(balance := s.balance[t.src := s.balance[t.src] - t.amount], txn := s.txn[i := To(t, Settled)])
      case Settled => s.(owner := s.owner[t.src := -1], txn := s.txn[i := To(t, SrcOpen)])
      case SrcOpen => s.(owner := s.owner[t.dst := -1], txn := s.txn[i := To(t, Finished)])
      case Finished => s;
    assert Move(s, s', i);
  }

  /** Following from a transfer to the one that has the mutex it waits for, the mutexes waited for get higher, so
      the chain ends at a transfer that can move. */
  lemma {:induction false} Upward(s: State, i: nat) returns (j: nat)
    requires Sane(s) && Locks(s) && i < |s.txn| && s.txn[i].phase == HasFirst
    ensures j < |s.txn| && Enabled(s, j)
    decreases |s.owner| - Second(s.txn[i])
  {
    var a := Second(s.txn[i]);
    if s.owner[a] == -1 {
      j := i;
    } else {
      j := s.owner[a];
      assert Has(s.txn[j], a);
      if s.txn[j].phase == HasFirst {
        j := Upward(s, j);
      }
    }
  }

  /** No deadlock: as long as some transfer is not finished, some transfer can move. */
  lemma NeverStuck(run: seq<State>, k: nat, i: nat) returns (j: nat)
    requires IsRun(run) && k < |run| && i < |run[k].txn| && run[k].txn[i].phase != Finished
    ensures Sane(run[k]) && j < |run[k].txn| && exists s' :: Move(run[k], s', j)
  {
    RunKeeps(run, k);
    var s := run[k];
    var t := s.txn[i];
    if t.phase == HasFirst {
      j := Upward(s, i);
    } else if t.phase == Begin && s.owner[First(t)] != -1 {
      j := s.owner[First(t)];
      assert Has(s.txn[j], First(t));
      if s.txn[j].phase == HasFirst {
        j := Upward(s, j);
      }
    } else {
      j := i;
    }
    EnabledMoves(s, j);
  }
}
