/** What log.c keeps true across a whole run: at every point of the device's write history, replaying
    the log yields the contents at a transaction boundary. */
module LogState {
  import opened Collections
  import opened Bytes
  import opened RedoLog
  import opened CacheState

  function Elems(s: seq<nat>): (r: set<nat>) { set x | x in s }

  lemma {:induction false} ElemsSize(s: seq<nat>)
    ensures |Elems(s)| <= |s|
  {
    if s != [] {
      var n := |s| - 1;
      ElemsSize(s[..n]);
      assert Elems(s) == Elems(s[..n]) + {s[n]};
    }
  }

  lemma {:induction false} ElemsExact(s: seq<nat>)
    requires Distinct(s)
    ensures |Elems(s)| == |s|
  {
    if s != [] {
      var n := |s| - 1;
      ElemsExact(s[..n]);
      assert Elems(s) == Elems(s[..n]) + {s[n]};
    }
  }

  /** The contents of the logged blocks. */
  function Images(v: Disk, lh: seq<nat>): (r: seq<Block>)
    requires forall i :: 0 <= i < |lh| ==> lh[i] < |v|
  {
    seq(|lh|, i requires 0 <= i < |lh| => v[lh[i]])
  }

  /** The running transaction can be committed, and its blocks are exactly the pinned ones. */
  ghost predicate Staged(a: Area, disk: Disk, lh: seq<nat>, pinned: set<nat>)
  {
    a.Fits(disk) && Loggable(a, disk, lh) && pinned == Elems(lh)
  }

  lemma StagedFacts(a: Area, disk: Disk, lh: seq<nat>, pinned: set<nat>)
    requires Staged(a, disk, lh, pinned)
    ensures |pinned| < a.size <= LOGSIZE && a.start + a.size <= |disk| && |lh| < a.size
    ensures forall i :: 0 <= i < |lh| ==> lh[i] in pinned && lh[i] < |disk| && !a.Has(lh[i])
    ensures forall b :: b in pinned ==> b < |disk| && !a.Has(b)
  {
    ElemsSize(lh);
  }

  /** After the first `k` writes of `trace`, replaying the log yields the contents `h`. */
  ghost predicate Lands(a: Area, base: Disk, trace: seq<Write>, k: nat, h: Disk)
    requires k <= |trace|
  {
    Recovers(a, After(base, trace[..k]), h)
  }

  /** The writes from `lo` to `hi` are one commit, whose header write ends their first half: has it been
      performed after `k` writes? */
  predicate Arrived(lo: nat, hi: nat, k: nat)
  {
    2 * k >= lo + hi
  }

  /** `hist[j]` are the contents at the j-th transaction boundary and `marks[j]` the number of device
      writes performed by then. After any prefix of the writes, replay yields the boundary before the commit
      under way until the header of that commit has arrived, and the one behind it from then on. */
  ghost predicate Durable(a: Area, base: Disk, trace: seq<Write>, hist: seq<Disk>, marks: seq<nat>)
  {
    && |hist| == |marks| >= 1
    && (forall j :: 0 <= j < |marks| ==> marks[j] <= |trace|)
    && (forall i, j :: 0 <= i < j < |marks| ==> marks[i] <= marks[j])
    && (forall k :: 0 <= k <= marks[0] ==> Lands(a, base, trace, k, hist[0]))
    && (forall i, j, k :: 0 <= i && j == i + 1 < |marks| && marks[i] <= k <= marks[j] ==>
          Lands(a, base, trace, k, if Arrived(marks[i], marks[j], k) then hist[j] else hist[i]))
  }

  /** The log on disk is empty, and the device's history so far is crash safe. */
  ghost predicate History(a: Area, base: Disk, disk: Disk, trace: seq<Write>, hist: seq<Disk>, marks: seq<nat>)
  {
    && a.Fits(disk) && Count(disk[a.start]) == 0
    && disk == After(base, trace)
    && Durable(a, base, trace, hist, marks)
    && marks[|marks| - 1] == |trace|
    && HomeEq(a, disk, hist[|hist| - 1])
  }

  lemma RecoversSameHome(a: Area, d: Disk, g: Disk, h: Disk)
    requires Recovers(a, d, g) && HomeEq(a, g, h)
    ensures Recovers(a, d, h)
  {
  }

  /** One more commit. */
  lemma Commits(a: Area, base: Disk, trace: seq<Write>, hist: seq<Disk>, marks: seq<nat>,
                lh: seq<nat>, data: seq<Block>, h1: Block, h2: Block, h: Disk)
    requires Durable(a, base, trace, hist, marks) && marks[|marks| - 1] == |trace|
    requires var d := After(base, trace);
             && a.Fits(d) && Count(d[a.start]) == 0 && Loggable(a, d, lh) && |lh| == |data|
             && HomeEq(a, d, hist[|hist| - 1]) && HomeEq(a, Updated(d, lh, data), h)
    requires Names(h1, lh) && Count(h2) == 0
    ensures var t := trace + CommitWrites(a, lh, data, h1, h2);
            Durable(a, base, t, hist + [h], marks + [|t|])
  {
    hide Lands;
    var ws := CommitWrites(a, lh, data, h1, h2);
    var t := trace + ws;
    var n := |marks| - 1;
    forall k | |trace| <= k <= |t|
      ensures Lands(a, base, t, k, if Arrived(|trace|, |t|, k) then h else hist[n])
    {
      CommitLands(a, base, trace, lh, data, h1, h2, hist[n], h, k - |trace|);
    }
    CommitsEarlier(a, base, trace, hist, marks, ws, h, |t|);
  }

  lemma CommitLands(a: Area, base: Disk, trace: seq<Write>, lh: seq<nat>, data: seq<Block>, h1: Block, h2: Block, g: Disk, h: Disk, k: nat)
    requires var d := After(base, trace);
             && a.Fits(d) && Count(d[a.start]) == 0 && Loggable(a, d, lh) && |lh| == |data|
             && HomeEq(a, d, g) && HomeEq(a, Updated(d, lh, data), h)
    requires Names(h1, lh) && Count(h2) == 0 && k <= |CommitWrites(a, lh, data, h1, h2)|
    ensures Lands(a, base, trace + CommitWrites(a, lh, data, h1, h2), |trace| + k, if k <= |lh| then g else h)
  {
    var d, ws := After(base, trace), CommitWrites(a, lh, data, h1, h2);
    CommitCrash(a, d, lh, data, h1, h2, k);
    assert (trace + ws)[..|trace| + k] == trace + ws[..k];
    AfterConcat(base, trace, ws[..k]);
    RecoversSameHome(a, After(d, ws[..k]), if k <= |lh| then d else Updated(d, lh, data), if k <= |lh| then g else h);
  }

  lemma LandsInPrefix(a: Area, base: Disk, trace: seq<Write>, ws: seq<Write>, k: nat, h: Disk)
    requires k <= |trace|
    ensures Lands(a, base, trace + ws, k, h) == Lands(a, base, trace, k, h)
  {
    assert (trace + ws)[..k] == trace[..k];
  }

  lemma CommitsEarlier(a: Area, base: Disk, trace: seq<Write>, hist: seq<Disk>, marks: seq<nat>, ws: seq<Write>, h: Disk, end: nat)
    requires Durable(a, base, trace, hist, marks) && marks[|marks| - 1] == |trace| && end == |trace| + |ws|
    requires forall k :: |trace| <= k <= end ==>
               Lands(a, base, trace + ws, k, if Arrived(|trace|, end, k) then h else hist[|hist| - 1])
    ensures Durable(a, base, trace + ws, hist + [h], marks + [end])
  {
    hide Lands;
    var t := trace + ws;
    forall k, i | 0 <= k <= |trace| && 0 <= i < |hist| ensures Lands(a, base, t, k, hist[i]) == Lands(a, base, trace, k, hist[i]) {
      LandsInPrefix(a, base, trace, ws, k, hist[i]);
    }
  }

  /** Boundary `j` is the last one whose header write is among the first `k` writes. */
  predicate LastArrived(marks: seq<nat>, k: nat, j: nat)
  {
    && j < |marks| && (j == 0 || Arrived(marks[j - 1], marks[j], k))
    && forall i :: j < i < |marks| ==> !Arrived(marks[i - 1], marks[i], k)
  }

  /** From any crash point, however often recovery is interrupted, the file system comes back at the last
      boundary whose header write had been performed. */
  lemma CrashAnywhere(a: Area, base: Disk, trace: seq<Write>, hist: seq<Disk>, marks: seq<nat>, k: nat, cuts: seq<nat>)
    returns (j: nat)
    requires Durable(a, base, trace, hist, marks) && k <= |trace| == marks[|marks| - 1]
    ensures j < |hist| && LastArrived(marks, k, j) && (k == |trace| ==> j + 1 == |hist|)
    ensures var e := Reboots(a, After(base, trace[..k]), cuts);
            WellFormed(a, e) && Recovers(a, e, hist[j]) && HomeEq(a, Recover(a, e), hist[j])
  {
    j := CrashPoint(a, base, trace, hist, marks, k, |marks| - 1);
    RebootsRecover(a, After(base, trace[..k]), hist[j], cuts);
  }

  lemma {:induction false} CrashPoint(a: Area, base: Disk, trace: seq<Write>, hist: seq<Disk>, marks: seq<nat>, k: nat, m: nat)
    returns (j: nat)
    requires Durable(a, base, trace, hist, marks) && m < |marks| && k <= marks[m]
    ensures j <= m && Lands(a, base, trace, k, hist[j])
    ensures (j == 0 || Arrived(marks[j - 1], marks[j], k)) && (j < m ==> !Arrived(marks[j], marks[j + 1], k))
    decreases m
  {
    hide Lands;
    if m == 0 {
      j := 0;
    } else if Arrived(marks[m - 1], marks[m], k) {
      j := m;
    } else if k <= marks[m - 1] {
      j := CrashPoint(a, base, trace, hist, marks, k, m - 1);
    } else {
      j := m - 1;
    }
  }

  // A list of device writes, and what callers of the cache see of it.

  ghost function Flow(f: Face, ws: seq<Write>): (g: Face)
    requires f.Ok() && forall i :: 0 <= i < |ws| ==> ws[i].b < |f.disk|
    ensures g.Ok() && |g.disk| == |f.disk|
    decreases |ws|
  {
    if ws == [] then f else var n := |ws| - 1; Flow(f, ws[..n]).Written(ws[n].b, ws[n].data)
  }

  function WrittenTo(ws: seq<Write>): (r: set<nat>) { set w | w in ws :: w.b }

  lemma {:induction false} FlowFacts(f: Face, ws: seq<Write>)
    requires f.Ok() && forall i :: 0 <= i < |ws| ==> ws[i].b < |f.disk|
    ensures var g := Flow(f, ws);
            && g.disk == After(f.disk, ws) && g.view == After(f.view, ws) && g.trace == f.trace + ws
            && g.held == f.held && g.pinned == f.pinned - WrittenTo(ws)
    decreases |ws|
  {
    if ws == [] {
      assert f.trace + ws == f.trace;
    } else {
      var n := |ws| - 1;
      FlowFacts(f, ws[..n]);
      WrittenLast(ws);
      assert f.trace + ws == f.trace + ws[..n] + [ws[n]];
      hide WrittenTo;
    }
  }

  lemma WrittenLast(ws: seq<Write>)
    requires ws != []
    ensures WrittenTo(ws) == WrittenTo(ws[..|ws| - 1]) + {ws[|ws| - 1].b}
  {
    assert ws == ws[..|ws| - 1] + [ws[|ws| - 1]];
  }

  lemma FlowNothing(f: Face)
    requires f.Ok()
    ensures forall ws: seq<Write> {:trigger Flow(f, ws[..0])} :: Flow(f, ws[..0]) == f
  {
  }

  lemma FlowStep(f: Face, ws: seq<Write>, k: nat)
    requires f.Ok() && k < |ws| && forall i :: 0 <= i < |ws| ==> ws[i].b < |f.disk|
    ensures Flow(f, ws[..k + 1]) == Flow(f, ws[..k]).Written(ws[k].b, ws[k].data)
  {
    assert ws[..k + 1][..k] == ws[..k];
  }

  lemma {:induction false} FlowConcat(f: Face, u: seq<Write>, w: seq<Write>)
    requires f.Ok() && (forall i :: 0 <= i < |u| ==> u[i].b < |f.disk|) && (forall i :: 0 <= i < |w| ==> w[i].b < |f.disk|)
    ensures forall i :: 0 <= i < |u + w| ==> (u + w)[i].b < |f.disk|
    ensures Flow(f, u + w) == Flow(Flow(f, u), w)
    decreases |w|
  {
    if w == [] {
      assert u + w == u;
    } else {
      var w' := w[..|w| - 1];
      assert (u + w)[..|u + w| - 1] == u + w';
      FlowConcat(f, u, w');
    }
  }

  /** The writes of write_log go to the log area only. */
  lemma LogWritesInArea(a: Area, f: Face, lh: seq<nat>)
    requires f.Ok() && Staged(a, f.disk, lh, f.pinned)
    ensures forall i :: 0 <= i < |lh| ==> lh[i] < |f.view|
    ensures var data := Images(f.view, lh);
            var ws := LogCopies(a, data);
            |ws| == |lh| && forall i :: 0 <= i < |ws| ==>
              ws[i] == Write(a.start + 1 + i, data[i]) && ws[i].b < |f.disk| && a.Has(ws[i].b) && ws[i].b !in f.pinned
  {
    StagedFacts(a, f.disk, lh, f.pinned);
  }

  /** During write_log the transaction stays pinned and its contents stay what they were. */
  lemma LogFlow(a: Area, f: Face, lh: seq<nat>, ws: seq<Write>, k: nat)
    requires f.Ok() && Staged(a, f.disk, lh, f.pinned) && k <= |lh| == |ws|
    requires forall i :: 0 <= i < |ws| ==> ws[i].b < |f.disk| && a.Has(ws[i].b) && ws[i].b !in f.pinned
    ensures var g := Flow(f, ws[..k]);
            g.held == f.held && g.pinned == f.pinned && Staged(a, g.disk, lh, g.pinned) && forall b :: b in f.pinned ==> g.view[b] == f.view[b]
  {
    hide Flow, After;
    FlowFacts(f, ws[..k]);
    forall w | w in ws[..k] ensures w.b !in f.pinned {}
    forall b | b in f.pinned ensures After(f.view, ws[..k])[b] == f.view[b] {
      WriteMisses(f.view, ws[..k], b);
    }
  }

  /** The copies of a transaction in the log area. */
  function LogContents(a: Area, v: Disk, n: nat): (r: seq<Block>)
    requires a.start + n < |v|
  {
    seq(n, i requires 0 <= i < n => v[a.start + 1 + i])
  }

  /** During install_trans the log area stays what it was and the blocks not yet installed stay pinned. */
  lemma InstallFlow(a: Area, f: Face, lh: seq<nat>, data: seq<Block>, k: nat)
    requires f.Ok() && a.Fits(f.disk) && Loggable(a, f.disk, lh) && |data| == |lh| && k <= |lh|
    requires f.pinned == Elems(lh) || f.pinned == {}
    ensures forall i :: 0 <= i < |lh| ==> HomeWrites(lh, data)[i].b < |f.disk|
    ensures var g := Flow(f, HomeWrites(lh, data)[..k]);
            && (forall b: nat :: a.Has(b) ==> g.view[b] == f.view[b])
            && |g.pinned| < a.size && g.held == f.held
            && (k < |lh| ==> lh[k] in g.pinned || g.pinned == {})
            && (k == |lh| ==> g.pinned == {})
  {
    hide Flow, After;
    var ws := HomeWrites(lh, data);
    FlowFacts(f, ws[..k]);
    assert forall i :: 0 <= i < |ws| ==> ws[i].b == lh[i];
    forall b: nat | a.Has(b) ensures After(f.view, ws[..k])[b] == f.view[b] {
      WriteMisses(f.view, ws[..k], b);
    }
    InstallTouched(lh, data, k);
    ElemsSize(lh);
    SubsetSize(f.pinned - WrittenTo(ws[..k]), Elems(lh));
  }

  /** Installing block by block touches the logged blocks one after the other. */
  lemma InstallTouched(lh: seq<nat>, data: seq<Block>, k: nat)
    requires |data| == |lh| && k <= |lh| && (forall i, j :: 0 <= i < j < |lh| ==> lh[i] != lh[j])
    ensures k < |lh| ==> lh[k] !in WrittenTo(HomeWrites(lh, data)[..k])
    ensures k == |lh| ==> Elems(lh) <= WrittenTo(HomeWrites(lh, data)[..k])
  {
    var ws := HomeWrites(lh, data);
    assert forall i :: 0 <= i < |ws| ==> ws[i].b == lh[i];
    if k == |lh| {
      forall b | b in lh ensures b in WrittenTo(ws[..k]) {
        var i :| 0 <= i < |lh| && lh[i] == b;
        assert ws[..k][i] in ws[..k];
      }
    }
  }

  /** Pinned blocks aside, memory and disk agree. */
  ghost predicate Clean(f: Face)
  {
    f.Ok() && forall b :: 0 <= b < |f.disk| && b !in f.pinned ==> f.view[b] == f.disk[b]
  }

  lemma CommitTarget(a: Area, f: Face, lh: seq<nat>)
    requires Clean(f) && Staged(a, f.disk, lh, f.pinned)
    ensures forall i :: 0 <= i < |lh| ==> lh[i] < |f.view|
    ensures Updated(f.disk, lh, Images(f.view, lh)) == f.view
  {
    UpdatedEffect(f.disk, lh, Images(f.view, lh));
    var u := Updated(f.disk, lh, Images(f.view, lh));
    forall b | 0 <= b < |u| ensures u[b] == f.view[b] {
      if b in lh {
        var i :| 0 <= i < |lh| && lh[i] == b;
      }
    }
  }

  /** The four phases of commit() are the writes whose crash behaviour RedoLog describes. */
  lemma CommitPhases(a: Area, f: Face, lh: seq<nat>, data: seq<Block>, h1: Block, h2: Block, f1: Face, f2: Face, f3: Face)
    requires f.Ok() && a.Fits(f.disk) && Loggable(a, f.disk, lh) && |data| == |lh|
    requires forall i :: 0 <= i < |lh| ==> LogCopies(a, data)[i].b < |f.disk| && HomeWrites(lh, data)[i].b < |f.disk|
    requires f1 == Flow(f, LogCopies(a, data))
    requires f2 == f1.Written(a.start, h1)
    requires f3 == Flow(f2, HomeWrites(lh, data))
    ensures var ws := CommitWrites(a, lh, data, h1, h2);
            (forall i :: 0 <= i < |ws| ==> ws[i].b < |f.disk|) && Flow(f, ws) == f3.Written(a.start, h2)
  {
    var u, v, w, x := LogCopies(a, data), [Write(a.start, h1)], HomeWrites(lh, data), [Write(a.start, h2)];
    FlowConcat(f, u, v);
    assert Flow(f1, v) == f2;
    FlowConcat(f, u + v, w);
    FlowConcat(f, u + v + w, x);
    assert Flow(f3, x) == f3.Written(a.start, h2);
  }

  /** After write_log and write_head the log area holds the images of the transaction's blocks. */
  lemma LogHolds(a: Area, f: Face, data: seq<Block>, h1: Block)
    requires f.Ok() && a.Fits(f.disk) && |data| < a.size
    requires forall i :: 0 <= i < |data| ==> LogCopies(a, data)[i].b < |f.disk|
    ensures var f2 := Flow(f, LogCopies(a, data)).Written(a.start, h1);
            LogContents(a, f2.view, |data|) == data
  {
    hide Flow, After, LogCopies, LogContents;
    var ws := LogCopies(a, data);
    LogCopiesEffect(a, f.view, data, |data|);
    assert ws[..|data|] == ws by {
      LogCopiesFacts(a, data);
    }
    FlowFacts(f, ws);
    LogHoldsAt(a, After(f.view, ws), data, h1);
  }

  lemma LogHoldsAt(a: Area, v: Disk, data: seq<Block>, h1: Block)
    requires a.start + |data| < |v| && forall i :: 0 <= i < |data| ==> v[a.start + 1 + i] == data[i]
    ensures LogContents(a, v[a.start := h1], |data|) == data
  {
  }

  lemma CommitHistory(a: Area, base: Disk, f: Face, hist: seq<Disk>, marks: seq<nat>, lh: seq<nat>, h1: Block, h2: Block, g: Face)
    requires History(a, base, f.disk, f.trace, hist, marks) && Clean(f) && Staged(a, f.disk, lh, f.pinned)
    requires Names(h1, lh) && Count(h2) == 0
    requires forall i :: 0 <= i < |lh| ==> lh[i] < |f.view|
    requires var ws := CommitWrites(a, lh, Images(f.view, lh), h1, h2);
             (forall i :: 0 <= i < |ws| ==> ws[i].b < |f.disk|) && g == Flow(f, ws)
    ensures Count(g.disk[a.start]) == 0 ==>
              History(a, base, g.disk, g.trace, hist + [f.view], marks + [|g.trace|]) && HomeEq(a, g.disk, f.view)
  {
    hide Durable, Flow, After;
    var data := Images(f.view, lh);
    var ws := CommitWrites(a, lh, data, h1, h2);
    CommitTarget(a, f, lh);
    Commits(a, base, f.trace, hist, marks, lh, data, h1, h2, f.view);
    AfterConcat(base, f.trace, ws);
    FlowFacts(f, ws);
    CommitCrash(a, f.disk, lh, data, h1, h2, |ws|);
    assert ws[..|ws|] == ws;
    if Count(g.disk[a.start]) == 0 {
      EmptyLogIsHome(a, g.disk, f.view);
    }
  }

  /** log_write with absorption: a block is listed once however often it is logged. */
  function Absorb(lh: seq<nat>, b: nat): (r: seq<nat>)
  {
    if b in lh then lh else lh + [b]
  }

  lemma AbsorbElems(lh: seq<nat>, b: nat)
    ensures Elems(Absorb(lh, b)) == Elems(lh) + {b} && lh <= Absorb(lh, b)
  {
  }

  lemma StagedNothing(a: Area, disk: Disk)
    requires a.Fits(disk)
    ensures Staged(a, disk, [], {})
  {
  }

  lemma StagedMore(a: Area, disk: Disk, lh: seq<nat>, pinned: set<nat>, b: nat)
    requires Staged(a, disk, lh, pinned) && b < |disk| && !a.Has(b) && |lh| + 1 < a.size
    ensures Staged(a, disk, Absorb(lh, b), pinned + {b})
  {
    if b !in lh {
      assert Elems(lh + [b]) == Elems(lh) + {b};
    } else {
      assert Elems(lh) + {b} == Elems(lh);
    }
  }

  /** Recovery at power-on: the history starts with the contents the log stands for. */
  lemma BootHistory(a: Area, base: Disk, h: Disk)
    requires Recovers(a, base, h)
    ensures var ws := RecoverWrites(a, base);
            History(a, base, Recover(a, base), ws, [h], [|ws|]) && HomeEq(a, Recover(a, base), h)
  {
    hide After;
    var ws := RecoverWrites(a, base);
    FullRecovery(a, base, h);
    forall k | 0 <= k <= |ws| ensures Lands(a, base, ws, k, h) {
      RecoveryInterrupted(a, base, h, k);
      assert ws[..|ws|] == ws;
    }
  }

  lemma BootInstalls(a: Area, d: Disk)
    requires WellFormed(a, d)
    ensures var lh := Targets(d[a.start]);
            var ws := HomeWrites(lh, LogContents(a, d, |lh|));
            && ws == Installs(a, d) && (forall i :: 0 <= i < |ws| ==> ws[i].b < |d|)
            && After(d, ws)[a.start] == d[a.start]
  {
    hide After;
    var lh := Targets(d[a.start]);
    var ws := HomeWrites(lh, LogContents(a, d, |lh|));
    assert ws == Installs(a, d);
    assert a.Has(a.start);
    InstallKeepsLog(a, d, |ws|);
    assert ws[..|ws|] == ws;
  }

  /** The writes of recovery are those whose crash behaviour RedoLog describes. */
  lemma BootPhases(a: Area, f: Face, ws: seq<Write>, h2: Block, g: Face)
    requires f.Ok() && f.view == f.disk && f.trace == [] && WellFormed(a, f.disk)
    requires ws == Installs(a, f.disk) && (forall i :: 0 <= i < |ws| ==> ws[i].b < |f.disk|)
    requires After(f.disk, ws)[a.start] == f.disk[a.start]
    requires h2 == PutU32(Flow(f, ws).view[a.start], 0, 0) && g == Flow(f, ws).Written(a.start, h2)
    ensures g.disk == Recover(a, f.disk) && g.trace == RecoverWrites(a, f.disk) && g.held == f.held
  {
    hide Flow, After, Installs, Targets;
    FlowFacts(f, ws);
    var rs := RecoverWrites(a, f.disk);
    assert rs == ws + [Write(a.start, h2)];
    AfterStep(f.disk, rs, |ws|);
    assert rs[..|ws|] == ws && rs[..|ws| + 1] == rs;
  }

  /** What commit() leaves behind. */
  lemma CommitDone(a: Area, base: Disk, f: Face, hist: seq<Disk>, marks: seq<nat>, lh: seq<nat>, data: seq<Block>, h1: Block, h2: Block,
                   f1: Face, f2: Face, f3: Face, g: Face)
    requires History(a, base, f.disk, f.trace, hist, marks) && Clean(f) && Staged(a, f.disk, lh, f.pinned)
    requires Names(h1, lh) && Count(h2) == 0
    requires (forall i :: 0 <= i < |lh| ==> lh[i] < |f.view|) && data == Images(f.view, lh)
    requires (forall i :: 0 <= i < |data| ==> LogCopies(a, data)[i].b < |f.disk|) && f1 == Flow(f, LogCopies(a, data))
    requires a.start < |f.disk| && f2 == f1.Written(a.start, h1)
    requires (forall i :: 0 <= i < |lh| ==> HomeWrites(lh, data)[i].b < |f.disk|) && f3 == Flow(f2, HomeWrites(lh, data))
    requires g == f3.Written(a.start, h2)
    ensures History(a, base, g.disk, g.trace, hist + [f.view], marks + [|g.trace|]) && HomeEq(a, g.disk, f.view)
  {
    hide Durable, Flow, After;
    CommitPhases(a, f, lh, data, h1, h2, f1, f2, f3);
    CommitHistory(a, base, f, hist, marks, lh, h1, h2, g);
  }
}
