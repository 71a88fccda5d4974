/** What bio.c keeps true of its buffers, its list and the disk, as predicates on values. */
module CacheState {
  import opened Collections
  import opened Bytes
  import opened RedoLog

  const NBUF := 30
  const ROOTDEV := 1

  /** Buffers are named by their index in bcache.buf; index NBUF names bcache.head. */
  const HEAD: nat := NBUF

  datatype Buf = Buf(valid: bool, dirty: bool, dev: nat, blockno: nat, refcnt: nat, data: Block)

  /** A reference held on a buffer: the block it caches and how often it is held. */
  datatype Hold = Hold(b: nat, n: nat)

  /** The cache as its callers see it. */
  datatype Face = Face(
    disk: Disk,               // the device
    trace: seq<Write>,        // every write the device has performed
    view: Disk,               // block contents as every reader sees them
    pinned: set<nat>,         // blocks changed in memory only
    held: map<nat, Hold>)     // buffers some caller holds
  {
    predicate Ok()
    {
      && |view| == |disk|
      && (forall h :: h in held ==> held[h].b < |disk| && held[h].n > 0)
      && (forall b :: b in pinned ==> b < |disk|)
    }

    function Grabbed(h: nat, b: nat): Face { this.(held := Grab(held, h, b)) }

    function Dropped(h: nat): Face
      requires h in held
    {
      this.(held := Drop(held, h))
    }

    /** Block `b` written to the device with new contents. */
    function Written(b: nat, data: Block): Face
      requires b < |disk| == |view|
    {
      Face(disk[b := data], trace + [Write(b, data)], view[b := data], pinned - {b}, held)
    }

    /** Block `b` given new contents in memory only. */
    function Pinned(b: nat, data: Block): Face
      requires b < |view|
    {
      this.(view := view[b := data], pinned := pinned + {b})
    }
  }

  /** One more reference on buffer `h`, which caches block `b`. */
  function Grab(held: map<nat, Hold>, h: nat, b: nat): (r: map<nat, Hold>)
  {
    held[h := Hold(b, if h in held then held[h].n + 1 else 1)]
  }

  /** One reference fewer on buffer `h`. */
  function Drop(held: map<nat, Hold>, h: nat): (r: map<nat, Hold>)
    requires h in held
  {
    if held[h].n <= 1 then held - {h} else held[h := Hold(held[h].b, held[h].n - 1)]
  }

  lemma WrittenFacts(f: Face, b: nat, data: Block)
    requires f.Ok() && b < |f.disk|
    ensures var g := f.Written(b, data);
            && g.Ok() && g.held == f.held && |g.disk| == |f.disk|
            && (b !in f.pinned ==> g.pinned == f.pinned)
            && g.view[b] == data && g.disk[b] == data
  {
  }

  lemma GrabDrop(held: map<nat, Hold>, h: nat, b: nat)
    requires h in held ==> held[h].b == b && held[h].n > 0
    ensures Drop(Grab(held, h, b), h) == held
  {
    if h !in held {
      assert (held[h := Hold(b, 1)] - {h}).Keys == held.Keys;
    }
  }

  // The linked list.

  function First(order: seq<nat>): (b: nat) { if |order| > 0 then order[0] else HEAD }

  function Last(order: seq<nat>): (b: nat) { if |order| > 0 then order[|order| - 1] else HEAD }

  /** Following `next` from the head visits `order` and returns to the head; `prev` goes back. */
  ghost predicate Ring(next: seq<nat>, prev: seq<nat>, order: seq<nat>)
  {
    && |next| == |prev| == NBUF + 1
    && Distinct(order)
    && (forall k :: 0 <= k < |order| ==> order[k] < NBUF)
    && next[HEAD] == First(order) && prev[HEAD] == Last(order)
    && (|order| > 0 ==> next[Last(order)] == HEAD && prev[First(order)] == HEAD)
    && forall j, k :: 0 <= j && k == j + 1 && k < |order| ==>
         next[order[j]] == order[k] && prev[order[k]] == order[j]
  }

  function Without(order: seq<nat>, k: nat): (r: seq<nat>)
    requires k < |order|
    ensures |r| == |order| - 1
    ensures forall j :: 0 <= j < |r| ==> r[j] == if j < k then order[j] else order[j + 1]
  {
    order[..k] + order[k + 1..]
  }

  /** A buffer is taken out of the list: its two neighbours are linked to each other. */
  lemma RingRemove(next: seq<nat>, prev: seq<nat>, order: seq<nat>, k: nat)
    requires Ring(next, prev, order) && k < |order|
    ensures var b := order[k];
            && next[b] <= NBUF && prev[b] <= NBUF
            && Ring(next[prev[b] := next[b]], prev[next[b] := prev[b]], Without(order, k))
  {
    var b := order[k];
    assert next[b] == if k + 1 < |order| then order[k + 1] else HEAD;
    assert prev[b] == if k > 0 then order[k - 1] else HEAD;
    var next', prev', order' := next[prev[b] := next[b]], prev[next[b] := prev[b]], Without(order, k);
    forall i, j | 0 <= i && j == i + 1 && j < |order'|
      ensures next'[order'[i]] == order'[j] && prev'[order'[j]] == order'[i]
    {
      var x, y := order'[i], order'[j];
      if i < k - 1 {
        assert x == order[i] && y == order[i + 1];
      } else if i >= k {
        assert x == order[i + 1] && y == order[i + 2];
      } else {
        assert x == order[k - 1] && y == order[k + 1];
      }
    }
  }

  /** A buffer is put in front of the list: between the head and the buffer that was first. */
  lemma RingPush(next: seq<nat>, prev: seq<nat>, order: seq<nat>, b: nat)
    requires Ring(next, prev, order) && b < NBUF && b !in order
    ensures next[HEAD] <= NBUF
    ensures Ring(next[b := next[HEAD]][HEAD := b], prev[b := HEAD][next[HEAD] := b], [b] + order)
  {
    var order' := [b] + order;
    assert forall j :: 1 <= j < |order'| ==> order'[j] == order[j - 1];
  }

  // The buffers.

  predicate InUse(b: Buf) { b.refcnt > 0 || b.dirty }

  function HeldBlocks(held: map<nat, Hold>): (r: set<nat>)
  {
    set h | h in held :: held[h].b
  }

  /** Blocks that may not be evicted. */
  function Busy(pinned: set<nat>, held: map<nat, Hold>): (r: set<nat>)
  {
    pinned + HeldBlocks(held)
  }

  ghost predicate Everyone(order: seq<nat>)
  {
    forall i :: 0 <= i < NBUF ==> i in order
  }

  /** The list is sorted by time of last release, latest first. */
  ghost predicate Recency(order: seq<nat>, stamp: seq<int>, clock: int)
  {
    && |order| == |stamp| == NBUF
    && (forall k :: 0 <= k < NBUF ==> order[k] < NBUF)
    && (forall i :: 0 <= i < NBUF ==> stamp[i] < clock)
    && forall j, k :: 0 <= j < k < NBUF ==> stamp[order[j]] > stamp[order[k]]
  }

  /** Every buffer is on the list once, most recently released first. */
  ghost predicate Listed(next: seq<nat>, prev: seq<nat>, order: seq<nat>, stamp: seq<int>, clock: int)
  {
    && Ring(next, prev, order)
    && Everyone(order)
    && Recency(order, stamp, clock)
  }

  /** At most one buffer per block of the disk. */
  ghost predicate Indexed(buf: seq<Buf>, home: map<nat, nat>)
  {
    && |buf| == NBUF
    && (forall b :: b in home ==> home[b] < NBUF && buf[home[b]].dev == ROOTDEV && buf[home[b]].blockno == b)
    && forall i :: 0 <= i < NBUF && buf[i].dev == ROOTDEV ==> buf[i].blockno in home && home[buf[i].blockno] == i
  }

  /** Buffers hold what readers see, and the disk does too except for pinned blocks. */
  ghost predicate Coherent(buf: seq<Buf>, home: map<nat, nat>, view: Disk, disk: Disk, pinned: set<nat>)
  {
    && |buf| == NBUF && |view| == |disk|
    && (forall i :: 0 <= i < NBUF && buf[i].dev == ROOTDEV ==>
          buf[i].valid && buf[i].blockno < |disk| && buf[i].data == view[buf[i].blockno])
    && (forall b :: 0 <= b < |disk| && b !in pinned ==> view[b] == disk[b])
    && (forall b :: b in pinned ==> b in home)
    && (forall i :: 0 <= i < NBUF ==> (buf[i].dirty <==> buf[i].dev == ROOTDEV && buf[i].blockno in pinned))
  }

  /** The references callers hold are the reference counts. */
  ghost predicate Counted(buf: seq<Buf>, held: map<nat, Hold>)
  {
    && |buf| == NBUF
    && (forall h :: h in held ==> h < NBUF)
    && (forall i :: 0 <= i < NBUF ==> (buf[i].refcnt > 0 <==> i in held))
    && (forall i :: 0 <= i < NBUF && i in held ==>
          buf[i].dev == ROOTDEV && held[i] == Hold(buf[i].blockno, buf[i].refcnt))
  }

  /** Everything bio.c keeps true of buffer contents and counts. */
  ghost predicate Sound(buf: seq<Buf>, home: map<nat, nat>, f: Face)
  {
    Indexed(buf, home) && Coherent(buf, home, f.view, f.disk, f.pinned) && Counted(buf, f.held) && f.Ok()
  }

  lemma SoundFacts(buf: seq<Buf>, home: map<nat, nat>, f: Face)
    requires Sound(buf, home, f)
    ensures |buf| == NBUF && f.Ok() && f.pinned <= home.Keys
    ensures forall b :: b in home ==> home[b] < NBUF && buf[home[b]].valid && buf[home[b]].blockno == b < |f.disk|
    ensures forall h :: h in f.held ==>
              h < NBUF && f.held[h] == Hold(buf[h].blockno, buf[h].refcnt) && buf[h].data == f.view[f.held[h].b]
    ensures forall h :: 0 <= h < NBUF && buf[h].refcnt == 0 ==> h !in f.held
  {
  }

  /** If no buffer can be recycled, at least NBUF distinct blocks are pinned or held. */
  lemma NoneFree(buf: seq<Buf>, home: map<nat, nat>, f: Face)
    requires Sound(buf, home, f)
    requires forall i :: 0 <= i < |buf| ==> InUse(buf[i])
    ensures |Busy(f.pinned, f.held)| >= NBUF
  {
    var s := CachedBelow(buf, home, NBUF);
    forall b | b in s ensures b in Busy(f.pinned, f.held) {
      var i := home[b];
      assert buf[i].blockno == b;
      if buf[i].refcnt > 0 {
        assert f.held[i].b == b;
      }
    }
    SubsetSize(s, Busy(f.pinned, f.held));
  }

  lemma CachedBelow(buf: seq<Buf>, home: map<nat, nat>, n: nat) returns (s: set<nat>)
    requires Indexed(buf, home) && n <= NBUF && forall i :: 0 <= i < n ==> buf[i].dev == ROOTDEV
    ensures |s| == n && forall b :: b in s ==> b in home && home[b] < n
  {
    if n == 0 {
      s := {};
    } else {
      var t := CachedBelow(buf, home, n - 1);
      s := t + {buf[n - 1].blockno};
    }
  }

  lemma LeastRecent(order: seq<nat>, stamp: seq<int>, k: nat, i: nat)
    requires |order| == |stamp| == NBUF && k < NBUF && i < NBUF && i in order
    requires forall j :: 0 <= j < NBUF ==> order[j] < NBUF
    requires forall j, l :: 0 <= j < l < NBUF ==> stamp[order[j]] > stamp[order[l]]
    requires forall j :: k < j < NBUF ==> order[j] != i
    ensures stamp[order[k]] <= stamp[i]
  {
    var j :| 0 <= j < NBUF && order[j] == i;
  }

  /** A further reference on a cached block. */
  lemma Rehold(buf: seq<Buf>, home: map<nat, nat>, f: Face, b: nat)
    requires Sound(buf, home, f) && b in home
    ensures home[b] < |buf|
    ensures var i := home[b];
            Sound(buf[i := buf[i].(refcnt := buf[i].refcnt + 1)], home, f.Grabbed(i, b))
  {
    var i := home[b];
    var x := buf[i].(refcnt := buf[i].refcnt + 1);
    SameBlock(buf, home, f.view, f.disk, f.pinned, i, x);
    assert b in home && buf[i].blockno == b;
    assert Counted(buf[i := x], Grab(f.held, i, b));
  }

  /** Changing a reference count leaves index and contents alone. */
  lemma SameBlock(buf: seq<Buf>, home: map<nat, nat>, view: Disk, disk: Disk, pinned: set<nat>, i: nat, x: Buf)
    requires Indexed(buf, home) && Coherent(buf, home, view, disk, pinned) && i < NBUF
    requires x == buf[i].(refcnt := x.refcnt)
    ensures Indexed(buf[i := x], home) && Coherent(buf[i := x], home, view, disk, pinned)
  {
  }

  lemma UpdateTwice<T>(s: seq<T>, i: nat, x: T, y: T)
    requires i < |s|
    ensures s[i := x][i := y] == s[i := y]
  {
  }

  /** The index after buffer `i` has been given to block `b`. */
  ghost function Rehome(home: map<nat, nat>, i: nat, b: nat): (r: map<nat, nat>)
    ensures forall x :: x in r <==> x == b || (x in home && home[x] != i)
    ensures r[b] == i && forall x :: x in r && x != b ==> r[x] == home[x]
  {
    (map x | x in home && home[x] != i :: home[x])[b := i]
  }

  /** A recycled buffer, filled from the disk. */
  lemma Recycle(buf: seq<Buf>, home: map<nat, nat>, f: Face, b: nat, i: nat)
    requires Sound(buf, home, f)
    requires b !in home && b < |f.disk| && i < |buf| && !InUse(buf[i])
    ensures Sound(buf[i := Buf(true, false, ROOTDEV, b, 1, f.disk[b])], Rehome(home, i, b), f.Grabbed(i, b))
  {
    RecycleIndexed(buf, home, i, Buf(true, false, ROOTDEV, b, 1, f.disk[b]));
    RecycleCoherent(buf, home, f.view, f.disk, f.pinned, b, i);
    RecycleCounted(buf, f.held, Buf(true, false, ROOTDEV, b, 1, f.disk[b]), i);
  }

  lemma RecycleCounted(buf: seq<Buf>, held: map<nat, Hold>, x: Buf, i: nat)
    requires Counted(buf, held) && x.dev == ROOTDEV && x.refcnt == 1 && i < NBUF && buf[i].refcnt == 0
    ensures Counted(buf[i := x], Grab(held, i, x.blockno))
  {
  }

  lemma RecycleIndexed(buf: seq<Buf>, home: map<nat, nat>, i: nat, x: Buf)
    requires Indexed(buf, home) && i < NBUF && x.dev == ROOTDEV && x.blockno !in home
    ensures Indexed(buf[i := x], Rehome(home, i, x.blockno))
  {
  }

  lemma RecycleCoherent(buf: seq<Buf>, home: map<nat, nat>, view: Disk, disk: Disk, pinned: set<nat>, b: nat, i: nat)
    requires Indexed(buf, home) && Coherent(buf, home, view, disk, pinned)
    requires b !in home && b < |disk| && i < NBUF && !InUse(buf[i])
    ensures Coherent(buf[i := Buf(true, false, ROOTDEV, b, 1, disk[b])], Rehome(home, i, b), view, disk, pinned)
  {
    forall x | x in pinned ensures x in Rehome(home, i, b) {
      assert buf[home[x]].dirty;
    }
  }

  /** A held buffer written to the disk with new contents. */
  lemma Flushed(buf: seq<Buf>, home: map<nat, nat>, f: Face, h: nat, data: Block)
    requires Sound(buf, home, f) && h in f.held
    ensures h < |buf|
    ensures Sound(buf[h := buf[h].(data := data, dirty := false, valid := true)], home, f.Written(f.held[h].b, data))
  {
    var x := buf[h].(data := data, dirty := false, valid := true);
    var g := f.Written(f.held[h].b, data);
    SameIndex(buf, home, h, x);
    assert Counted(buf[h := x], f.held);
    assert Coherent(buf[h := x], home, g.view, g.disk, g.pinned);
  }

  /** A held buffer given new contents in memory only. */
  lemma Dirtied(buf: seq<Buf>, home: map<nat, nat>, f: Face, h: nat, data: Block)
    requires Sound(buf, home, f) && h in f.held
    ensures h < |buf|
    ensures Sound(buf[h := buf[h].(data := data, dirty := true)], home, f.Pinned(f.held[h].b, data))
  {
    var x := buf[h].(data := data, dirty := true);
    var g := f.Pinned(f.held[h].b, data);
    SameIndex(buf, home, h, x);
    assert Counted(buf[h := x], f.held);
    assert Coherent(buf[h := x], home, g.view, g.disk, g.pinned);
  }

  lemma SameIndex(buf: seq<Buf>, home: map<nat, nat>, i: nat, x: Buf)
    requires Indexed(buf, home) && i < NBUF && x.dev == buf[i].dev && x.blockno == buf[i].blockno
    ensures Indexed(buf[i := x], home)
  {
  }

  lemma Released(buf: seq<Buf>, home: map<nat, nat>, f: Face, h: nat)
    requires Sound(buf, home, f) && h in f.held
    ensures h < |buf| && buf[h].refcnt == f.held[h].n > 0
    ensures Sound(buf[h := buf[h].(refcnt := buf[h].refcnt - 1)], home, f.Dropped(h))
  {
    var x := buf[h].(refcnt := buf[h].refcnt - 1);
    SameBlock(buf, home, f.view, f.disk, f.pinned, h, x);
    assert Counted(buf[h := x], Drop(f.held, h));
  }

  /** Taking buffer `h` out of the list and pushing it in front keeps the list in order of release. */
  lemma Moved(next: seq<nat>, prev: seq<nat>, order: seq<nat>, stamp: seq<int>, clock: int, h: nat) returns (k: nat)
    requires Listed(next, prev, order, stamp, clock) && h < NBUF
    ensures k < |order| == NBUF && order[k] == h && |stamp| == NBUF
    ensures |next| == |prev| == NBUF + 1 && next[h] <= NBUF && prev[h] <= NBUF
    ensures var next', prev' := next[prev[h] := next[h]], prev[next[h] := prev[h]];
            next'[HEAD] <= NBUF &&
            Listed(next'[h := next'[HEAD]][HEAD := h], prev'[h := HEAD][next'[HEAD] := h],
                   [h] + Without(order, k), stamp[h := clock], clock + 1)
  {
    assert h in order;
    k :| 0 <= k < NBUF && order[k] == h;
    RingRemove(next, prev, order, k);
    var next', prev' := next[prev[h] := next[h]], prev[next[h] := prev[h]];
    var rest := Without(order, k);
    RingPush(next', prev', rest, h);
    MovedEveryone(order, k);
    MovedRecency(order, stamp, clock, k);
  }

  lemma MovedEveryone(order: seq<nat>, k: nat)
    requires k < |order| && Everyone(order)
    ensures Everyone([order[k]] + Without(order, k))
  {
    var order' := [order[k]] + Without(order, k);
    forall i | 0 <= i < NBUF ensures i in order' {
      assert i in order;
      var j :| 0 <= j < |order| && order[j] == i;
      var l := if j == k then 0 else if j < k then j + 1 else j;
      assert order'[l] == i;
    }
  }

  lemma MovedRecency(order: seq<nat>, stamp: seq<int>, clock: int, k: nat)
    requires Recency(order, stamp, clock) && k < NBUF && Distinct(order)
    ensures Recency([order[k]] + Without(order, k), stamp[order[k] := clock], clock + 1)
  {
    var order' := [order[k]] + Without(order, k);
    assert forall j :: 1 <= j < NBUF ==> order'[j] == if j <= k then order[j - 1] else order[j];
  }

  lemma {:induction false} HeldBlocksSize(held: map<nat, Hold>)
    ensures |HeldBlocks(held)| <= |held|
    decreases |held|
  {
    if held.Keys == {} {
      assert HeldBlocks(held) == {};
    } else {
      var h :| h in held;
      var rest := held - {h};
      assert rest.Keys == held.Keys - {h};
      HeldBlocksSize(rest);
      HeldBlocksSplit(held, h);
    }
  }

  lemma HeldBlocksSplit(held: map<nat, Hold>, h: nat)
    requires h in held
    ensures HeldBlocks(held) == HeldBlocks(held - {h}) + {held[h].b}
  {
    var rest := held - {h};
    forall b | b in HeldBlocks(held) ensures b in HeldBlocks(rest) + {held[h].b} {
      var g :| g in held && held[g].b == b;
      if g != h {
        assert g in rest && rest[g].b == b;
      }
    }
    forall b | b in HeldBlocks(rest) ensures b in HeldBlocks(held) {
      var g :| g in rest && rest[g].b == b;
      assert g in held && held[g].b == b;
    }
  }

  /** Few pinned blocks and few held buffers are few busy blocks. */
  lemma Few(pinned: set<nat>, held: map<nat, Hold>)
    ensures |Busy(pinned, held)| <= |pinned| + |held|
  {
    HeldBlocksSize(held);
  }
}
