/** log.c: a transaction collects block numbers in memory; commit() copies the blocks to the log,
    writes the header, installs the blocks at home and clears the header. */
module Log {
  import opened Bytes
  import opened RedoLog
  import opened Kernel
  import opened CacheState
  import opened BufferCache
  import opened LogState

  /** A round of write_log: copy the pinned block `src` to block `dst` of the log. One buffer that is
      not pinned is all it needs. */
  method CopyToLog(cache: Cache, dst: nat, src: nat)
    requires cache.Valid() && cache.face.held == map[] && dst < |cache.face.disk|
    requires |cache.face.pinned| < NBUF && src in cache.face.pinned && dst !in cache.face.pinned
    modifies cache
    ensures cache.Valid() && old(cache.face).Ok()
    ensures cache.face == old(cache.face).Written(dst, old(cache.face).view[src])
  {
    hide Cache.Valid, Drop, Busy;
    cache.Facts();
    Few(cache.face.pinned, cache.face.held);
    ghost var none := cache.face.held;
    var to := cache.Bread(ROOTDEV, dst);
    ghost var one := cache.face.held;
    var from := cache.Bread(ROOTDEV, src);
    var data := cache.Data(from.value);
    cache.Bwrite(to.value, data);
    GrabDrop(one, from.value, src);
    cache.Brelse(from.value);
    GrabDrop(none, to.value, dst);
    cache.Brelse(to.value);
  }

  /** A round of install_trans: copy block `src` of the log to block `dst`, which is not pinned any more. */
  method InstallBlock(cache: Cache, dst: nat, src: nat)
    requires cache.Valid() && cache.face.held == map[]
    requires src < |cache.face.disk| && dst < |cache.face.disk| && src != dst
    requires |cache.face.pinned| < NBUF && (dst in cache.face.pinned || cache.face.pinned == {})
    modifies cache
    ensures cache.Valid() && old(cache.face).Ok()
    ensures cache.face == old(cache.face).Written(dst, old(cache.face).view[src])
  {
    hide Cache.Valid, Busy;
    cache.Facts();
    Few(cache.face.pinned, cache.face.held);
    ghost var none := cache.face.held;
    var lbuf := cache.Bread(ROOTDEV, src);
    Few(cache.face.pinned, cache.face.held);
    var dbuf := cache.Bread(ROOTDEV, dst);
    var data := cache.Data(lbuf.value);
    cache.Bwrite(dbuf.value, data);
    cache.Brelse(lbuf.value);
    cache.Brelse(dbuf.value);
    assert cache.face.held == none;
  }

  /** write_head: put the block numbers of the transaction into the header block and write it. */
  method WriteHeader(cache: Cache, start: nat, lh: seq<nat>) returns (ghost hb: Block)
    requires cache.Valid() && cache.face.held == map[] && start < |cache.face.disk|
    requires |cache.face.pinned| < NBUF && |lh| <= LOGSIZE && forall i :: 0 <= i < |lh| ==> lh[i] < 0x1_0000_0000
    modifies cache
    ensures cache.Valid() && old(cache.face).Ok()
    ensures cache.face == old(cache.face).Written(start, hb) && Names(hb, lh)
    ensures lh == [] ==> hb == PutU32(old(cache.face).view[start], 0, 0)
  {
    hide Cache.Valid, Drop, Busy;
    cache.Facts();
    Few(cache.face.pinned, cache.face.held);
    ghost var none := cache.face.held;
    var h := cache.Bread(ROOTDEV, start);
    var data := cache.Data(h.value);
    data := HeaderBlock(data, lh);
    hb := data;
    cache.Bwrite(h.value, data);
    GrabDrop(none, h.value, start);
    cache.Brelse(h.value);
  }

  /** The loop of write_head on the header's bytes. */
  method HeaderBlock(old_: Block, lh: seq<nat>) returns (data: Block)
    requires |lh| <= LOGSIZE && forall i :: 0 <= i < |lh| ==> lh[i] < 0x1_0000_0000
    ensures Names(data, lh) && (lh == [] ==> data == PutU32(old_, 0, 0))
  {
    data := PutU32(old_, 0, |lh|);
    var i := 0;
    while i < |lh|
      invariant 0 <= i <= |lh| && Count(data) == |lh|
      invariant forall j :: 0 <= j < i ==> Target(data, j) == lh[j]
      invariant lh == [] ==> data == PutU32(old_, 0, 0)
    {
      data := PutU32(data, 4 + 4 * i, lh[i]);
      i := i + 1;
    }
  }

  /** The loop of read_head on the header's bytes. */
  method HeaderTargets(data: Block) returns (lh: seq<nat>)
    requires Count(data) <= LOGSIZE
    ensures lh == Targets(data)
  {
    lh := [];
    var i := 0;
    while i < Count(data)
      invariant 0 <= i <= Count(data) && lh == Targets(data)[..i]
    {
      lh := lh + [Target(data, i)];
      i := i + 1;
    }
  }

  class TxnLog {
    const cache: Cache
    const area: Area
    var lh: seq<nat>                 // log.lh: the blocks of the running transaction

    ghost const base: Disk           // the disk at power-on
    ghost var hist: seq<Disk>        // contents at every transaction boundary so far
    ghost var marks: seq<nat>        // device writes performed by then

    /** The buffers are fine, and the pinned ones are those of the running transaction. */
    ghost predicate Ready()
      reads this, cache
    {
      cache.Valid() && Staged(area, cache.face.disk, lh, cache.face.pinned)
    }

    ghost predicate Valid()
      reads this, cache
    {
      Ready() && History(area, base, cache.face.disk, cache.face.trace, hist, marks)
    }

    lemma Facts()
      requires Valid()
      ensures cache.face.Ok() && area.Fits(cache.face.disk) && |Elems(lh)| == |lh| < area.size
      ensures hist != [] && HomeEq(area, cache.face.disk, hist[|hist| - 1])
      ensures lh == [] ==> HomeEq(area, cache.face.view, hist[|hist| - 1])
    {
      cache.Facts();
      ElemsExact(lh);
    }

    /** initlog: recover from whatever log the disk holds; `h` are the contents that log stands for. */
    constructor (cache: Cache, area: Area, ghost h: Disk)
      requires cache.Valid() && cache.face.held == map[] && cache.face.pinned == {} && cache.face.trace == []
      requires Recovers(area, cache.face.disk, h)
      modifies cache
      ensures Valid() && this.cache == cache && this.area == area
      ensures cache.face.held == map[] && lh == [] && base == old(cache.face.disk) && hist == [h]
      ensures cache.face.trace == RecoverWrites(area, old(cache.face.disk))
      ensures cache.face.disk == cache.face.view == Recover(area, old(cache.face.disk))
      ensures HomeEq(area, cache.face.view, h)
    {
      this.cache, this.area := cache, area;
      lh := [];
      base, hist, marks := cache.face.disk, [h], [0];
      new;
      hide Cache.Valid, After, Durable, Recovers;
      RecoverFromLog();
      BootHistory(area, base, h);
      marks := [|cache.face.trace|];
    }

    /** Replay a committed transaction, if the log holds one, and clear the log. */
    method RecoverFromLog()
      requires cache.Valid() && cache.face.held == map[] && cache.face.pinned == {} && cache.face.trace == []
      requires WellFormed(area, cache.face.disk)
      modifies this`lh, cache
      ensures Ready() && lh == [] && cache.face.held == map[]
      ensures cache.face.trace == RecoverWrites(area, old(cache.face.disk))
      ensures cache.face.disk == cache.face.view == Recover(area, old(cache.face.disk))
    {
      hide Cache.Valid, Flow, After, Face.Written;
      ghost var f := cache.face;
      cache.Facts();
      assert f.view == f.disk;
      BootInstalls(area, f.disk);
      ghost var ws := Installs(area, f.disk);
      ReadHead();
      InstallTrans();
      lh := [];
      ghost var f3 := cache.face;
      ghost var h2 := WriteHeader(cache, area.start, lh);
      WrittenFacts(f3, area.start, h2);
      BootPhases(area, f, ws, h2, cache.face);
      StagedNothing(area, cache.face.disk);
      cache.Facts();
      assert cache.face.view == cache.face.disk;
    }

    /** Read the header from the disk into log.lh. */
    method ReadHead()
      requires cache.Valid() && cache.face.held == map[] && cache.face.pinned == {} && cache.face.Ok()
      requires WellFormed(area, cache.face.view) && |cache.face.disk| == |cache.face.view|
      modifies this`lh, cache
      ensures cache.Valid() && cache.face == old(cache.face)
      ensures lh == Targets(cache.face.view[area.start])
    {
      hide Cache.Valid, Drop, Busy;
      Few(cache.face.pinned, cache.face.held);
      ghost var f := cache.face;
      var h := cache.Bread(ROOTDEV, area.start);
      var data := cache.Data(h.value);
      lh := HeaderTargets(data);
      GrabDrop(f.held, h.value, area.start);
      cache.Brelse(h.value);
    }

    /** Copy the modified blocks from the cache to the log. */
    method WriteLog()
      requires Ready() && cache.face.held == map[] && cache.face.Ok()
      modifies cache
      ensures Ready() && cache.face.Ok() && cache.face.held == map[] && |cache.face.disk| == |old(cache.face).disk|
      ensures forall i :: 0 <= i < |lh| ==> lh[i] < |old(cache.face).view|
      ensures var ws := LogCopies(area, Images(old(cache.face).view, lh));
              (forall i :: 0 <= i < |ws| ==> ws[i].b < |old(cache.face).disk|) && cache.face == Flow(old(cache.face), ws)
    {
      hide Cache.Valid, Flow, LogCopies, Staged, Face.Written;
      ghost var f := cache.face;
      LogWritesInArea(area, f, lh);
      StagedFacts(area, f.disk, lh, f.pinned);
      ghost var ws := LogCopies(area, Images(f.view, lh));
      var tail := 0;
      FlowNothing(f);
      while tail < |lh|
        invariant 0 <= tail <= |lh| && cache.Valid() && cache.face == Flow(f, ws[..tail])
      {
        LogFlow(area, f, lh, ws, tail);
        FlowStep(f, ws, tail);
        assert ws[tail] == Write(area.start + tail + 1, cache.face.view[lh[tail]]);
        CopyToLog(cache, area.start + tail + 1, lh[tail]);
        tail := tail + 1;
      }
      LogFlow(area, f, lh, ws, |lh|);
      assert ws[..|ws|] == ws;
    }

    /** Copy the blocks named in log.lh from the log to their home locations. */
    method InstallTrans()
      requires cache.Valid() && cache.face.held == map[] && cache.face.Ok()
      requires area.Fits(cache.face.disk) && Loggable(area, cache.face.disk, lh)
      requires cache.face.pinned == Elems(lh) || cache.face.pinned == {}
      modifies cache
      ensures cache.Valid()
      ensures var ws := HomeWrites(lh, LogContents(area, old(cache.face).view, |lh|));
              (forall i :: 0 <= i < |ws| ==> ws[i].b < |old(cache.face).disk|) && cache.face == Flow(old(cache.face), ws)
      ensures cache.face.pinned == {} && cache.face.held == map[] && cache.face.Ok() && |cache.face.disk| == |old(cache.face).disk|
    {
      hide Cache.Valid, Flow, After, Face.Written;
      ghost var f := cache.face;
      ghost var data := LogContents(area, f.view, |lh|);
      ghost var ws := HomeWrites(lh, data);
      var tail := 0;
      FlowNothing(f);
      InstallFlow(area, f, lh, data, 0);
      while tail < |lh|
        invariant 0 <= tail <= |lh| && cache.Valid() && cache.face == Flow(f, ws[..tail])
      {
        InstallFlow(area, f, lh, data, tail);
        FlowStep(f, ws, tail);
        assert area.Has(area.start + tail + 1);
        assert ws[tail] == Write(lh[tail], cache.face.view[area.start + tail + 1]);
        InstallBlock(cache, lh[tail], area.start + tail + 1);
        tail := tail + 1;
      }
      InstallFlow(area, f, lh, data, |lh|);
      assert ws[..|ws|] == ws;
    }

    /** commit(): make the running transaction durable. With no buffer held it never runs out of
        buffers, whatever the size of the transaction, and leaves none pinned. */
    method Commit()
      requires Valid() && cache.face.held == map[]
      modifies this`lh, this`hist, this`marks, cache
      ensures Valid() && lh == [] && cache.face.held == map[] && cache.face.pinned == {}
      ensures |cache.face.disk| == |old(cache.face).disk| && HomeEq(area, cache.face.view, old(cache.face).view)
      ensures hist == (if old(lh) == [] then old(hist) else old(hist) + [old(cache.face).view])
    {
      hide Cache.Valid, Flow, After, Face.Written, Durable, CommitWrites;
      cache.Facts();
      if |lh| > 0 {
        ghost var f := cache.face;
        ghost var blocks := lh;
        WriteLog();
        ghost var f1 := cache.face;
        StagedFacts(area, f1.disk, lh, f1.pinned);
        assert area.Has(area.start);
        ghost var h1 := WriteHeader(cache, area.start, lh);
        ghost var f2 := cache.face;
        WrittenFacts(f1, area.start, h1);
        LogHolds(area, f, Images(f.view, lh), h1);
        InstallTrans();
        ghost var f3 := cache.face;
        lh := [];
        ghost var h2 := WriteHeader(cache, area.start, lh);
        CommitDone(area, base, f, hist, marks, blocks, Images(f.view, blocks), h1, h2, f1, f2, f3, cache.face);
        hist, marks := hist + [f.view], marks + [|cache.face.trace|];
        WrittenFacts(f3, area.start, h2);
        StagedNothing(area, cache.face.disk);
        cache.Facts();
      }
    }

    /** log_write: the caller has set the data of a held buffer; list its block and pin it. */
    method LogWrite(h: nat, data: Block) returns (r: Res<()>)
      requires Valid() && h in cache.face.held && !area.Has(cache.face.held[h].b)
      modifies this`lh, cache
      ensures Valid()
      ensures r.Panic? <==> |old(lh)| + 1 >= area.size
      ensures r.Panic? ==> r.why == TooBigTransaction && lh == old(lh) && cache.face == old(cache.face)
      ensures r.Ok? ==>
                && lh == Absorb(old(lh), old(cache.face).held[h].b)
                && old(cache.face).Ok() && cache.face == old(cache.face).Pinned(old(cache.face).held[h].b, data)
    {
      hide Cache.Valid, Durable;
      cache.Facts();
      if |lh| >= LOGSIZE || |lh| >= area.size - 1 {
        return Panic(TooBigTransaction);
      }
      var b := cache.Blockno(h);
      StagedMore(area, cache.face.disk, lh, cache.face.pinned, b);
      var i := 0;
      while i < |lh|
        invariant 0 <= i <= |lh| && b !in lh[..i]
      {
        if lh[i] == b {
          break;
        }
        i := i + 1;
      }
      if i == |lh| {
        lh := lh + [b];
      }
      cache.Pin(h, data);
      return Ok(());
    }

    /** bread. */
    method Bread(b: nat) returns (r: Res<nat>)
      requires Valid() && b < |cache.face.disk|
      modifies cache
      ensures Valid() && cache.face.Ok()
      ensures r.Panic? ==> r.why == NoBuffers && |lh| + |cache.face.held| >= NBUF && cache.face == old(cache.face)
      ensures r.Ok? ==> cache.face == old(cache.face).Grabbed(r.value, b)
      ensures r.Ok? && r.value in old(cache.face).held ==>
                old(cache.face).held[r.value].b == b && old(cache.face).held[r.value].n > 0
    {
      hide Cache.Valid, Durable, Busy;
      r := cache.Bread(ROOTDEV, b);
      cache.Facts();
      ElemsSize(lh);
      Few(cache.face.pinned, cache.face.held);
    }

    /** The data of a held buffer. */
    method Data(h: nat) returns (data: Block)
      requires Valid() && h in cache.face.held
      ensures cache.face.Ok() && data == cache.face.view[cache.face.held[h].b]
    {
      data := cache.Data(h);
    }

    /** brelse. */
    method Brelse(h: nat)
      requires Valid() && h in cache.face.held
      modifies cache
      ensures Valid() && cache.face == old(cache.face).Dropped(h)
    {
      hide Cache.Valid, Durable;
      cache.Brelse(h);
    }
  }
}
