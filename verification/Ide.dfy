/** ide.c: the queue of disk requests, driven by interrupts. */
module Ide {
  import opened Collections
  import opened Bytes

  const NULL := -1

  /** A buffer of the cache as the driver sees it; `qnext` is the index of the next buffer in the queue. */
  datatype Req = Req(valid: bool, dirty: bool, blockno: nat, data: Block, qnext: int)

  /** The chain of qnext links from `head` visits exactly the buffers of `q`. */
  predicate Chain(buf: seq<Req>, head: int, q: seq<nat>)
    decreases |q|
  {
    if q == [] then head == NULL
    else head == q[0] && q[0] < |buf| && Chain(buf, buf[q[0]].qnext, q[1..])
  }

  /** Waiting for the disk: to be written, or not yet read. */
  predicate Pending(r: Req)
  {
    r.dirty || !r.valid
  }

  lemma {:induction false} ChainFrame(buf: seq<Req>, buf': seq<Req>, head: int, q: seq<nat>)
    requires Chain(buf, head, q) && |buf'| == |buf| && forall i :: 0 <= i < |q| && q[i] < |buf| ==> buf'[q[i]].qnext == buf[q[i]].qnext
    ensures Chain(buf', head, q)
    decreases |q|
  {
    if q != [] {
      ChainFrame(buf, buf', buf[q[0]].qnext, q[1..]);
    }
  }

  lemma {:induction false} ChainAt(buf: seq<Req>, head: int, q: seq<nat>, k: nat)
    requires Chain(buf, head, q) && k < |q|
    ensures q[k] < |buf| && buf[q[k]].qnext == if k + 1 < |q| then q[k + 1] else NULL
    decreases |q|
  {
    if k > 0 {
      ChainAt(buf, buf[q[0]].qnext, q[1..], k - 1);
    }
  }

  /** Appending behind the last buffer of the queue. */
  lemma {:induction false} ChainAppend(buf: seq<Req>, buf': seq<Req>, head: int, q: seq<nat>, b: nat)
    requires Chain(buf, head, q) && Distinct(q) && q != [] && b < |buf| == |buf'| && b !in q
    requires q[|q| - 1] < |buf| && buf'[b].qnext == NULL && buf'[q[|q| - 1]].qnext == b
    requires forall i :: 0 <= i < |q| - 1 ==> q[i] < |buf| && buf'[q[i]].qnext == buf[q[i]].qnext
    ensures Chain(buf', head, q + [b])
    decreases |q|
  {
    assert (q + [b])[1..] == q[1..] + [b];
    if |q| == 1 {
      assert q[1..] + [b] == [b];
      assert [b][1..] == [];
    } else {
      ChainAppend(buf, buf', buf[q[0]].qnext, q[1..], b);
    }
  }

  class Disk {
    var buf: seq<Req>
    var head: int                  // idequeue
    var disk: seq<Block>
    ghost var queue: seq<nat>
    ghost var arrived: seq<nat>    // all requests, in the order in which they came
    ghost var completed: seq<nat>

    constructor (buf: seq<Req>, disk: seq<Block>)
      requires forall b :: 0 <= b < |buf| ==> buf[b].blockno < |disk|
      ensures Valid() && queue == arrived == completed == []
    {
      this.buf, this.disk, this.head := buf, disk, NULL;
      queue, arrived, completed := [], [], [];
    }

    /** The queue is a chain without cycles or duplicates, holds exactly the requests that have arrived and not
        completed, in order, and its head has been started: a write has reached the disk. */
    ghost predicate Valid()
      reads this
    {
      && Chain(buf, head, queue) && Distinct(queue) && arrived == completed + queue
      && (forall b :: 0 <= b < |buf| ==> buf[b].blockno < |disk|)
      && (forall i :: 0 <= i < |queue| ==> queue[i] < |buf| && Pending(buf[queue[i]]))
      && (queue != [] && buf[queue[0]].dirty ==> disk[buf[queue[0]].blockno] == buf[queue[0]].data)
    }

    /** idestart: the device performs a write at once and reports it later; a read is fetched later. */
    method Idestart(b: nat)
      requires b < |buf| && buf[b].blockno < |disk|
      modifies this`disk
      ensures disk == if buf[b].dirty then old(disk)[buf[b].blockno := buf[b].data] else old(disk)
    {
      if buf[b].dirty {
        disk := disk[buf[b].blockno := buf[b].data];
      }
    }

    /** The loop of iderw: the last buffer of the queue, NULL if it is empty. */
    method Last() returns (pp: int)
      requires Valid()
      ensures if queue == [] then pp == NULL else pp == queue[|queue| - 1]
    {
      pp := NULL;
      var p := head;
      ghost var k := 0;
      while p != NULL
        invariant k <= |queue| && (if k == 0 then pp == NULL else pp == queue[k - 1])
        invariant p == if k < |queue| then queue[k] else NULL
        decreases |queue| - k
      {
        ChainAt(buf, head, queue, k);
        pp, p := p, buf[p].qnext;
        k := k + 1;
      }
    }

    /** iderw up to the wait: append the request, and start it if the disk is idle. Nothing to do is a panic. */
    method Submit(b: nat) returns (ok: bool)
      requires Valid() && b < |buf| && b !in queue
      modifies this
      ensures Valid() && ok == old(buf[b].dirty || !buf[b].valid) && completed == old(completed)
      ensures !ok ==> queue == old(queue) && buf == old(buf) && disk == old(disk)
      ensures ok ==> queue == old(queue) + [b] && arrived == old(arrived) + [b]
      ensures ok ==> |buf| == |old(buf)| && forall i :: 0 <= i < |buf| ==> buf[i] == old(buf)[i].(qnext := buf[i].qnext)
      ensures ok ==> disk == if old(queue) == [] && buf[b].dirty then old(disk)[buf[b].blockno := buf[b].data] else old(disk)
    {
      if buf[b].valid && !buf[b].dirty {
        return false;
      }
      var pp := Last();
      ghost var q := queue;
      if pp != NULL {
        ChainAt(buf, head, queue, |queue| - 1);
      }
      Append(b, pp);
      if head == b {
        Idestart(b);
      }
      return true;
    }

    /** The request becomes the last of the queue. */
    method Append(b: nat, pp: int)
      requires Valid() && b < |buf| && b !in queue && Pending(buf[b])
      requires if queue == [] then pp == NULL else pp == queue[|queue| - 1] && 0 <= pp < |buf|
      modifies this`buf, this`head, this`queue, this`arrived
      ensures Chain(buf, head, queue) && Distinct(queue) && queue == old(queue) + [b] && arrived == old(arrived) + [b]
      ensures head == (if old(queue) == [] then b else old(head))
      ensures |buf| == |old(buf)| && forall i :: 0 <= i < |buf| ==> buf[i] == old(buf)[i].(qnext := buf[i].qnext)
    {
      ghost var q, was := queue, buf;
      buf := buf[b := buf[b].(qnext := NULL)];
      if pp == NULL {
        head := b;
        assert q + [b] == [b] && [b][1..] == [];
      } else {
        buf := buf[pp := buf[pp].(qnext := b)];
        forall i | 0 <= i < |q| ensures q[i] < |was| && (i < |q| - 1 ==> buf[q[i]].qnext == was[q[i]].qnext) {
          ChainAt(was, head, q, i);
        }
        ChainAppend(was, buf, head, q, b);
      }
      queue, arrived := q + [b], arrived + [b];
    }

    /** ideintr: the head is complete, valid and clean; the next request is started, and if it is a write, its block is the
        only one of the disk that changes. */
    method Ideintr()
      requires Valid()
      modifies this
      ensures Valid()
      ensures old(queue) == [] ==> queue == [] && buf == old(buf) && disk == old(disk) && completed == old(completed)
      ensures old(queue) != [] ==> Completes(old(buf), old(disk), buf, old(queue)[0])
      ensures old(queue) != [] ==> queue == old(queue)[1..] && completed == old(completed) + [old(queue)[0]] && arrived == old(arrived)
      ensures forall b :: 0 <= b < |buf| && (old(queue) == [] || b != old(queue)[0]) ==> b < |old(buf)| && buf[b] == old(buf)[b]
      ensures disk == Performed(old(disk), buf, if old(queue) == [] then [] else queue)
    {
      if head == NULL {
        return;
      }
      Remove();
      if head != NULL {
        Idestart(head);
      }
    }

    /** Take the head off the queue and finish it. */
    method Remove()
      requires Valid() && queue != []
      modifies this`buf, this`head, this`queue, this`completed
      ensures Chain(buf, head, queue) && Distinct(queue) && arrived == completed + queue && |buf| == |old(buf)|
      ensures forall b :: 0 <= b < |buf| ==> buf[b].blockno == old(buf)[b].blockno && (b != old(queue)[0] ==> buf[b] == old(buf)[b])
      ensures forall i :: 0 <= i < |queue| ==> queue[i] < |buf| && queue[i] != old(queue)[0]
      ensures queue == old(queue)[1..] && completed == old(completed) + [old(queue)[0]]
      ensures Completes(old(buf), disk, buf, old(queue)[0])
    {
      var b := head;
      ghost var q, was := queue, buf;
      ChainAt(buf, head, queue, 0);
      head := buf[b].qnext;
      var data := if buf[b].dirty then buf[b].data else disk[buf[b].blockno];
      buf := buf[b := buf[b].(valid := true, dirty := false, data := data)];
      queue, completed := queue[1..], completed + [b];
      forall i | 0 <= i < |queue| ensures queue[i] != b && queue[i] < |was| && buf[queue[i]] == was[queue[i]] {
        assert queue[i] == q[i + 1];
      }
      ChainFrame(was, buf, head, queue);
      assert completed + queue == old(completed) + q;
    }
  }

  /** The disk after the first request of `queue` has been started. */
  function Performed(disk: seq<Block>, buf: seq<Req>, queue: seq<nat>): (r: seq<Block>)
  {
    if queue != [] && queue[0] < |buf| && buf[queue[0]].dirty && buf[queue[0]].blockno < |disk|
    then disk[buf[queue[0]].blockno := buf[queue[0]].data] else disk
  }

  /** Request `b` is done: valid, clean, and the same in memory as on the disk. */
  predicate Completes(buf: seq<Req>, disk: seq<Block>, buf': seq<Req>, b: nat)
  {
    && b < |buf| == |buf'| && buf[b].blockno < |disk|
    && buf'[b] == Req(true, false, buf[b].blockno, disk[buf[b].blockno], buf'[b].qnext) && (buf[b].dirty ==> buf'[b].data == buf[b].data)
  }
}
