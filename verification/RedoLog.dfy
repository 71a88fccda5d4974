/** The on-disk redo log of log.c seen from the disk: which block writes a commit and a
    recovery emit, and what is left of them after a crash that keeps only a prefix. */
module RedoLog {
  import opened Collections
  import opened Bytes

  const LOGSIZE := 30

  type Disk = seq<Block>

  /** One `bwrite`: the device replaces block `b` atomically. */
  datatype Write = Write(b: nat, data: Block)

  /** The log area: block `start` is the header, the `size - 1` blocks behind it hold copies. */
  datatype Area = Area(start: nat, size: nat)
  {
    predicate Has(b: nat) { start <= b < start + size }

    /** The log lies on the disk, and block numbers are C `uint`s. */
    predicate Fits(d: Disk) { 1 <= size <= LOGSIZE && start + size <= |d| <= 0x1_0000_0000 }
  }

  function Apply(d: Disk, w: Write): (r: Disk)
    ensures |r| == |d|
  {
    if w.b < |d| then d[w.b := w.data] else d
  }

  /** The disk after the writes `ws` have reached it, in order. */
  function After(d: Disk, ws: seq<Write>): (r: Disk)
    ensures |r| == |d|
  {
    if ws == [] then d else Apply(After(d, ws[..|ws| - 1]), ws[|ws| - 1])
  }

  lemma AfterStep(d: Disk, ws: seq<Write>, k: nat)
    requires k < |ws|
    ensures After(d, ws[..k + 1]) == Apply(After(d, ws[..k]), ws[k])
  {
    assert ws[..k + 1][..k] == ws[..k];
  }

  lemma {:induction false} AfterConcat(d: Disk, u: seq<Write>, w: seq<Write>)
    ensures After(d, u + w) == After(After(d, u), w)
    decreases |w|
  {
    if w == [] {
      assert u + w == u;
    } else {
      var w' := w[..|w| - 1];
      assert (u + w)[..|u + w| - 1] == u + w';
      AfterConcat(d, u, w');
    }
  }

  /** Some write of `ws` goes to block `b`. */
  predicate Hits(ws: seq<Write>, b: nat)
  {
    exists i :: 0 <= i < |ws| && ws[i].b == b
  }

  predicate NoOverwrite(ws: seq<Write>)
  {
    forall i, j :: 0 <= i < j < |ws| ==> ws[i].b != ws[j].b
  }

  lemma {:induction false} WriteMisses(d: Disk, ws: seq<Write>, b: nat)
    requires b < |d| && !Hits(ws, b)
    ensures After(d, ws)[b] == d[b]
    decreases |ws|
  {
    if ws != [] {
      var n := |ws| - 1;
      assert ws[n].b != b;
      assert forall i :: 0 <= i < n ==> ws[..n][i] == ws[i];
      WriteMisses(d, ws[..n], b);
    }
  }

  lemma {:induction false} WriteSticks(d: Disk, ws: seq<Write>, i: nat)
    requires i < |ws| && ws[i].b < |d| && forall j :: i < j < |ws| ==> ws[j].b != ws[i].b
    ensures After(d, ws)[ws[i].b] == ws[i].data
    decreases |ws|
  {
    var n := |ws| - 1;
    if i < n {
      WriteSticks(d, ws[..n], i);
    }
  }

  /** Writes to distinct blocks all stick, and every other block keeps its contents. */
  lemma WritesEffect(d: Disk, ws: seq<Write>)
    requires NoOverwrite(ws)
    ensures forall i :: 0 <= i < |ws| && ws[i].b < |d| ==> After(d, ws)[ws[i].b] == ws[i].data
    ensures forall b :: 0 <= b < |d| && !Hits(ws, b) ==> After(d, ws)[b] == d[b]
  {
    forall i | 0 <= i < |ws| && ws[i].b < |d| ensures After(d, ws)[ws[i].b] == ws[i].data {
      WriteSticks(d, ws, i);
    }
    forall b | 0 <= b < |d| && !Hits(ws, b) ensures After(d, ws)[b] == d[b] {
      WriteMisses(d, ws, b);
    }
  }

  // Header block: struct logheader { int n; int block[LOGSIZE]; }

  function Count(h: Block): (n: u32) { U32(h, 0) }

  function Target(h: Block, i: nat): (b: u32)
    requires i < LOGSIZE
  {
    U32(h, 4 + 4 * i)
  }

  /** `h` is a header that names exactly the blocks `lh`. */
  predicate Names(h: Block, lh: seq<nat>)
  {
    |lh| <= LOGSIZE && Count(h) == |lh| && forall i :: 0 <= i < |lh| ==> Target(h, i) == lh[i]
  }

  /** Blocks a transaction may touch: on the disk, outside the log, no block twice, and few enough. */
  predicate Loggable(a: Area, d: Disk, lh: seq<nat>)
  {
    && |lh| < a.size
    && Distinct(lh)
    && forall i :: 0 <= i < |lh| ==> lh[i] < |d| && !a.Has(lh[i])
  }

  function Targets(h: Block): (r: seq<nat>)
    requires Count(h) <= LOGSIZE
  {
    seq(Count(h), i requires 0 <= i < Count(h) => Target(h, i))
  }

  /** The header names a transaction that recovery can replay. */
  predicate WellFormed(a: Area, d: Disk)
  {
    a.Fits(d) && Count(d[a.start]) < a.size && Loggable(a, d, Targets(d[a.start]))
  }

  /** The writes of install_trans. */
  function Installs(a: Area, d: Disk): (r: seq<Write>)
    requires WellFormed(a, d)
  {
    var t := Targets(d[a.start]);
    seq(|t|, i requires 0 <= i < |t| => Write(t[i], d[a.start + 1 + i]))
  }

  /** The writes of recover_from_log: replay the log, then clear the count in the header. */
  function RecoverWrites(a: Area, d: Disk): (r: seq<Write>)
    requires WellFormed(a, d)
  {
    Installs(a, d) + [Write(a.start, PutU32(d[a.start], 0, 0))]
  }

  /** Equal everywhere outside the log area. */
  predicate HomeEq(a: Area, d: Disk, e: Disk)
  {
    |d| == |e| && forall b :: 0 <= b < |d| && !a.Has(b) ==> d[b] == e[b]
  }

  /** Replaying the log of `d` yields the file system contents `h`. */
  predicate Recovers(a: Area, d: Disk, h: Disk)
  {
    WellFormed(a, d) && HomeEq(a, After(d, Installs(a, d)), h)
  }

  lemma InstallsDistinct(a: Area, d: Disk)
    requires WellFormed(a, d)
    ensures NoOverwrite(Installs(a, d))
    ensures forall i :: 0 <= i < |Installs(a, d)| ==>
              Installs(a, d)[i].b < |d| && !a.Has(Installs(a, d)[i].b)
  {
    var ws, t := Installs(a, d), Targets(d[a.start]);
    assert forall i :: 0 <= i < |ws| ==> ws[i].b == t[i];
  }

  /** Install_trans leaves the log area alone. */
  lemma InstallKeepsLog(a: Area, d: Disk, k: nat)
    requires WellFormed(a, d) && k <= |Installs(a, d)|
    ensures var e := After(d, Installs(a, d)[..k]);
            (forall b: nat :: a.Has(b) ==> e[b] == d[b]) && WellFormed(a, e) && Installs(a, e) == Installs(a, d)
  {
    var ws := Installs(a, d)[..k];
    var e := After(d, ws);
    InstallsDistinct(a, d);
    WritesEffect(d, ws);
    forall b: nat | a.Has(b) ensures e[b] == d[b] {
      assert !Hits(ws, b);
    }
    assert a.Has(a.start);
  }

  /** Replay is idempotent: a replay cut short, then redone, ends where one full replay ends. */
  lemma ReplayAfterPartialReplay(a: Area, d: Disk, k: nat)
    requires WellFormed(a, d) && k <= |Installs(a, d)|
    ensures var e := After(d, Installs(a, d)[..k]);
            WellFormed(a, e) && After(e, Installs(a, e)) == After(d, Installs(a, d))
  {
    var ws := Installs(a, d);
    var e := After(d, ws[..k]);
    InstallKeepsLog(a, d, k);
    InstallsDistinct(a, d);
    WritesEffect(d, ws[..k]);
    WritesEffect(d, ws);
    WritesEffect(e, ws);
    forall b | 0 <= b < |d| ensures After(e, ws)[b] == After(d, ws)[b] {
      if Hits(ws, b) {
        var i :| 0 <= i < |ws| && ws[i].b == b;
      } else {
        assert !Hits(ws[..k], b);
      }
    }
  }

  /** The disk after a recovery of which only the first `k` writes reached it. */
  function RecoverCut(a: Area, d: Disk, k: nat): (r: Disk)
    requires WellFormed(a, d)
  {
    var ws := RecoverWrites(a, d);
    After(d, if k < |ws| then ws[..k] else ws)
  }

  function Recover(a: Area, d: Disk): (r: Disk)
    requires WellFormed(a, d)
  {
    After(d, RecoverWrites(a, d))
  }

  lemma EmptyLogRecovers(a: Area, d: Disk, h: Disk)
    requires a.Fits(d) && Count(d[a.start]) == 0 && HomeEq(a, d, h)
    ensures Recovers(a, d, h)
  {
    assert Targets(d[a.start]) == [];
    assert Installs(a, d) == [];
  }

  lemma EmptyLogIsHome(a: Area, d: Disk, h: Disk)
    requires Recovers(a, d, h) && Count(d[a.start]) == 0
    ensures HomeEq(a, d, h)
  {
    assert Installs(a, d) == [];
  }

  lemma FullRecovery(a: Area, d: Disk, h: Disk)
    requires Recovers(a, d, h)
    ensures HomeEq(a, Recover(a, d), h)
    ensures Count(Recover(a, d)[a.start]) == 0
    ensures Recovers(a, Recover(a, d), h)
  {
    var ws := RecoverWrites(a, d);
    assert ws[..|ws| - 1] == Installs(a, d);
    assert a.Has(a.start);
    EmptyLogRecovers(a, Recover(a, d), h);
  }

  /** A recovery that is itself interrupted anywhere leaves a disk that recovers to the same contents. */
  lemma RecoveryInterrupted(a: Area, d: Disk, h: Disk, k: nat)
    requires Recovers(a, d, h)
    ensures Recovers(a, RecoverCut(a, d, k), h)
  {
    var ws := RecoverWrites(a, d);
    if k < |ws| {
      assert ws[..k] == Installs(a, d)[..k];
      ReplayAfterPartialReplay(a, d, k);
    } else {
      FullRecovery(a, d, h);
    }
  }

  /** `cuts` recoveries in a row, each interrupted after the given number of writes. */
  ghost function Reboots(a: Area, d: Disk, cuts: seq<nat>): (r: Disk)
    decreases |cuts|
  {
    if cuts == [] || !WellFormed(a, d) then d else Reboots(a, RecoverCut(a, d, cuts[0]), cuts[1..])
  }

  /** However often recovery is interrupted, the recovery that completes restores `h`. */
  lemma {:induction false} RebootsRecover(a: Area, d: Disk, h: Disk, cuts: seq<nat>)
    requires Recovers(a, d, h)
    ensures var e := Reboots(a, d, cuts); Recovers(a, e, h) && HomeEq(a, Recover(a, e), h)
    decreases |cuts|
  {
    if cuts == [] {
      FullRecovery(a, d, h);
    } else {
      RecoveryInterrupted(a, d, h, cuts[0]);
      RebootsRecover(a, RecoverCut(a, d, cuts[0]), h, cuts[1..]);
    }
  }

  // Commit.

  function LogCopies(a: Area, data: seq<Block>): (r: seq<Write>)
  {
    seq(|data|, i requires 0 <= i < |data| => Write(a.start + 1 + i, data[i]))
  }

  lemma LogCopiesFacts(a: Area, data: seq<Block>)
    ensures |LogCopies(a, data)| == |data|
    ensures forall i :: 0 <= i < |data| ==> LogCopies(a, data)[i] == Write(a.start + 1 + i, data[i])
  {
  }

  function HomeWrites(lh: seq<nat>, data: seq<Block>): (r: seq<Write>)
    requires |lh| == |data|
  {
    seq(|lh|, i requires 0 <= i < |lh| => Write(lh[i], data[i]))
  }

  /** The writes of one commit(): log copies, header `h1`, home locations, cleared header `h2`. */
  function CommitWrites(a: Area, lh: seq<nat>, data: seq<Block>, h1: Block, h2: Block): (r: seq<Write>)
    requires |lh| == |data|
  {
    LogCopies(a, data) + [Write(a.start, h1)] + HomeWrites(lh, data) + [Write(a.start, h2)]
  }

  /** Every logged block replaced by its new contents. */
  function Updated(d: Disk, lh: seq<nat>, data: seq<Block>): (r: Disk)
    requires |lh| == |data|
  {
    After(d, HomeWrites(lh, data))
  }

  lemma LogCopiesEffect(a: Area, d: Disk, data: seq<Block>, k: nat)
    requires a.Fits(d) && k <= |data| < a.size
    ensures var e := After(d, LogCopies(a, data)[..k]);
            && (forall i :: 0 <= i < k ==> e[a.start + 1 + i] == data[i])
            && (forall b :: 0 <= b < |d| && !(a.start < b <= a.start + k) ==> e[b] == d[b])
  {
    LogCopiesFacts(a, data);
    hide LogCopies, After;
    var ws := LogCopies(a, data)[..k];
    assert forall i :: 0 <= i < k ==> ws[i] == Write(a.start + 1 + i, data[i]);
    forall i | 0 <= i < k ensures After(d, ws)[a.start + 1 + i] == data[i] {
      WriteSticks(d, ws, i);
    }
    forall b | 0 <= b < |d| && !(a.start < b <= a.start + k) ensures After(d, ws)[b] == d[b] {
      WriteMisses(d, ws, b);
    }
  }

  lemma {:induction false} HomeWritesFrame(a: Area, d: Disk, e: Disk, lh: seq<nat>, data: seq<Block>)
    requires |lh| == |data| && HomeEq(a, d, e)
    ensures HomeEq(a, After(d, HomeWrites(lh, data)), After(e, HomeWrites(lh, data)))
    decreases |lh|
  {
    if |lh| > 0 {
      var n := |lh| - 1;
      HomeWritesFrame(a, d, e, lh[..n], data[..n]);
      assert HomeWrites(lh, data)[..n] == HomeWrites(lh[..n], data[..n]);
    }
  }

  /** The disk once the header write of a commit has arrived: the log holds the whole transaction. */
  lemma CommitPoint(a: Area, d: Disk, lh: seq<nat>, data: seq<Block>, h1: Block)
    requires a.Fits(d) && Loggable(a, d, lh) && |lh| == |data| && Names(h1, lh)
    ensures var e := After(d, LogCopies(a, data) + [Write(a.start, h1)]);
            WellFormed(a, e) && Installs(a, e) == HomeWrites(lh, data) && Recovers(a, e, Updated(d, lh, data))
  {
    var ws := LogCopies(a, data);
    assert (ws + [Write(a.start, h1)])[..|ws|] == ws == ws[..|data|];
    var e := After(d, ws + [Write(a.start, h1)]);
    LogCopiesEffect(a, d, data, |data|);
    assert Targets(e[a.start]) == lh;
    assert Installs(a, e) == HomeWrites(lh, data);
    HomeWritesFrame(a, e, d, lh, data);
  }

  /** Crash while installing: the header has arrived, and `m` home blocks have been written. */
  lemma CommitInstalling(a: Area, d: Disk, lh: seq<nat>, data: seq<Block>, h1: Block, m: nat)
    requires a.Fits(d) && Loggable(a, d, lh) && |lh| == |data| && Names(h1, lh) && m <= |lh|
    ensures var head := LogCopies(a, data) + [Write(a.start, h1)];
            var e := After(d, head + HomeWrites(lh, data)[..m]);
            Recovers(a, e, Updated(d, lh, data)) && (m == |lh| ==> HomeEq(a, e, Updated(d, lh, data)))
  {
    var head := LogCopies(a, data) + [Write(a.start, h1)];
    var p := After(d, head);
    CommitPoint(a, d, lh, data, h1);
    AfterConcat(d, head, HomeWrites(lh, data)[..m]);
    ReplayAfterPartialReplay(a, p, m);
    assert HomeWrites(lh, data)[..|lh|] == HomeWrites(lh, data);
  }

  lemma CommitPrefix(a: Area, lh: seq<nat>, data: seq<Block>, h1: Block, h2: Block, k: nat)
    requires |lh| == |data| && k <= 2 * |lh| + 1
    ensures var ws := CommitWrites(a, lh, data, h1, h2);
            && |ws| == 2 * |lh| + 2
            && (k <= |lh| ==> ws[..k] == LogCopies(a, data)[..k])
            && (|lh| < k ==> ws[..k] == LogCopies(a, data) + [Write(a.start, h1)] + HomeWrites(lh, data)[..k - |lh| - 1])
            && ws == ws[..2 * |lh| + 1] + [Write(a.start, h2)]
  {
  }

  /** Crash before the header has arrived: the log is still empty and no home block has changed. */
  lemma CommitLogging(a: Area, d: Disk, data: seq<Block>, k: nat)
    requires a.Fits(d) && Count(d[a.start]) == 0 && k <= |data| < a.size
    ensures Recovers(a, After(d, LogCopies(a, data)[..k]), d)
  {
    LogCopiesEffect(a, d, data, k);
    EmptyLogRecovers(a, After(d, LogCopies(a, data)[..k]), d);
  }

  /** Crash after the final header write. */
  lemma CommitCleared(a: Area, e: Disk, h: Disk, h2: Block)
    requires a.Fits(e) && HomeEq(a, e, h) && Count(h2) == 0
    ensures Recovers(a, Apply(e, Write(a.start, h2)), h)
  {
    assert a.Has(a.start);
    EmptyLogRecovers(a, Apply(e, Write(a.start, h2)), h);
  }

  /** Crash atomicity of commit(): whatever prefix of its writes reaches the disk, replay yields the
      contents from before the transaction, or, once the header has arrived, those after it. */
  lemma CommitCrash(a: Area, d: Disk, lh: seq<nat>, data: seq<Block>, h1: Block, h2: Block, k: nat)
    requires a.Fits(d) && Count(d[a.start]) == 0
    requires Loggable(a, d, lh) && |lh| == |data| && Names(h1, lh) && Count(h2) == 0
    requires k <= 2 * |lh| + 2
    ensures var ws := CommitWrites(a, lh, data, h1, h2);
            |ws| == 2 * |lh| + 2 && Recovers(a, After(d, ws[..k]), if k <= |lh| then d else Updated(d, lh, data))
  {
    var n := |lh|;
    var ws := CommitWrites(a, lh, data, h1, h2);
    CommitPrefix(a, lh, data, h1, h2, if k <= 2 * n + 1 then k else 2 * n + 1);
    if k <= n {
      CommitLogging(a, d, data, k);
    } else if k <= 2 * n + 1 {
      CommitInstalling(a, d, lh, data, h1, k - n - 1);
    } else {
      CommitInstalling(a, d, lh, data, h1, n);
      assert ws[..k] == ws && ws[..k - 1] == ws[..2 * n + 1];
      CommitCleared(a, After(d, ws[..2 * n + 1]), Updated(d, lh, data), h2);
    }
  }

  /** The promise of log.c in one statement: any prefix of a commit, any number of interrupted
      recoveries, then one complete recovery, and every home block is all-old or all-new. */
  lemma CommitAtomic(a: Area, d: Disk, lh: seq<nat>, data: seq<Block>, h1: Block, h2: Block, k: nat, cuts: seq<nat>)
    requires a.Fits(d) && Count(d[a.start]) == 0
    requires Loggable(a, d, lh) && |lh| == |data| && Names(h1, lh) && Count(h2) == 0
    requires k <= 2 * |lh| + 2
    ensures |CommitWrites(a, lh, data, h1, h2)| == 2 * |lh| + 2
    ensures var e := Reboots(a, After(d, CommitWrites(a, lh, data, h1, h2)[..k]), cuts);
            && WellFormed(a, e)
            && HomeEq(a, Recover(a, e), if k <= |lh| then d else Updated(d, lh, data))
  {
    CommitCrash(a, d, lh, data, h1, h2, k);
    RebootsRecover(a, After(d, CommitWrites(a, lh, data, h1, h2)[..k]), if k <= |lh| then d else Updated(d, lh, data), cuts);
  }

  /** Updated really writes every logged block and nothing else. */
  lemma UpdatedEffect(d: Disk, lh: seq<nat>, data: seq<Block>)
    requires |lh| == |data| && Distinct(lh) && forall i :: 0 <= i < |lh| ==> lh[i] < |d|
    ensures forall i :: 0 <= i < |lh| ==> Updated(d, lh, data)[lh[i]] == data[i]
    ensures forall b :: 0 <= b < |d| && b !in lh ==> Updated(d, lh, data)[b] == d[b]
  {
    var ws := HomeWrites(lh, data);
    WritesEffect(d, ws);
    forall i | 0 <= i < |lh| ensures Updated(d, lh, data)[lh[i]] == data[i] {
      assert ws[i].b == lh[i];
    }
  }
}
