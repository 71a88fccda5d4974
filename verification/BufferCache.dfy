/** bio.c: a fixed set of buffers on a doubly linked list in order of last release. */
module BufferCache {
  import opened Bytes
  import opened RedoLog
  import opened Kernel
  import opened CacheState

  class Cache {
    var disk: Disk                    // the device
    var buf: seq<Buf>                 // bcache.buf
    var next: seq<nat>                // links of the buffers and, at HEAD, of bcache.head
    var prev: seq<nat>

    ghost var order: seq<nat>         // the list from head.next on
    ghost var stamp: seq<int>         // when each buffer was last released
    ghost var clock: int
    ghost var home: map<nat, nat>     // block number -> the buffer that caches it
    ghost var face: Face              // what callers see of all this

    ghost predicate Valid()
      reads this
    {
      && Listed(next, prev, order, stamp, clock)
      && Sound(buf, home, face)
      && face.disk == disk
    }

    lemma Facts()
      requires Valid()
      ensures face.Ok() && face.disk == disk
      ensures forall b :: 0 <= b < |face.disk| && b !in face.pinned ==> face.view[b] == face.disk[b]
    {
    }

    /** binit: every buffer is pushed in front of the list; all of them start as block 0 of device 0. */
    constructor (d: Disk)
      ensures Valid() && face == Face(d, [], d, {}, map[])
    {
      disk, face := d, Face(d, [], d, {}, map[]);
      buf := seq(NBUF, _ => Buf(false, false, 0, 0, 0, ZERO));
      next, prev := seq(NBUF + 1, _ => HEAD), seq(NBUF + 1, _ => HEAD);
      order, clock, home := [], 0, map[];
      stamp := seq(NBUF, i => i - NBUF);
      new;
      LinkAll();
    }

    method LinkAll()
      requires |next| == |prev| == NBUF + 1 && Ring(next, prev, order) && order == []
      modifies this`next, this`prev, this`order
      ensures Ring(next, prev, order) && |order| == NBUF
      ensures forall k :: 0 <= k < NBUF ==> order[k] == NBUF - 1 - k
      ensures forall i :: 0 <= i < NBUF ==> i in order
    {
      var b := 0;
      while b < NBUF
        invariant 0 <= b <= NBUF && Ring(next, prev, order)
        invariant |order| == b && forall k :: 0 <= k < b ==> order[k] == b - 1 - k
      {
        RingPush(next, prev, order, b);
        next, prev := next[b := next[HEAD]][HEAD := b], prev[b := HEAD][next[HEAD] := b];
        order := [b] + order;
        b := b + 1;
      }
      forall i | 0 <= i < NBUF ensures i in order {
        assert order[NBUF - 1 - i] == i;
      }
    }

    /** Look for the block on the list; else recycle the unused buffer released longest ago. */
    method Bget(dev: nat, blockno: nat) returns (r: Res<nat>)
      requires Valid() && dev == ROOTDEV
      modifies this`buf
      ensures r.Panic? <==> blockno !in home && forall i :: 0 <= i < NBUF ==> InUse(old(buf)[i])
      ensures r.Panic? ==> r.why == NoBuffers && buf == old(buf)
      ensures r.Ok? ==> r.value < NBUF
      ensures r.Ok? && blockno in home ==>
                && r.value == home[blockno]
                && buf == old(buf)[r.value := old(buf)[r.value].(refcnt := old(buf)[r.value].refcnt + 1)]
      ensures r.Ok? && blockno !in home ==>
                && !InUse(old(buf)[r.value])
                && (forall i :: 0 <= i < NBUF && !InUse(old(buf)[i]) ==> stamp[r.value] <= stamp[i])
                && buf == old(buf)[r.value := Buf(false, false, dev, blockno, 1, old(buf)[r.value].data)]
    {
      var b := Find(dev, blockno);
      if b != HEAD {
        buf := buf[b := buf[b].(refcnt := buf[b].refcnt + 1)];
        return Ok(b);
      }
      b := Victim();
      if b != HEAD {
        buf := buf[b := Buf(false, false, dev, blockno, 1, buf[b].data)];
        return Ok(b);
      }
      return Panic(NoBuffers);
    }

    /** The first loop of bget: walk the list forward for the block. */
    method Find(dev: nat, blockno: nat) returns (b: nat)
      requires Listed(next, prev, order, stamp, clock) && Indexed(buf, home) && dev == ROOTDEV
      ensures b == if blockno in home then home[blockno] else HEAD
    {
      b := next[HEAD];
      ghost var k := 0;
      while b != HEAD
        invariant 0 <= k <= NBUF && b == (if k < NBUF then order[k] else HEAD)
        invariant forall j :: 0 <= j < k ==> !(buf[order[j]].dev == dev && buf[order[j]].blockno == blockno)
        decreases NBUF - k
      {
        if buf[b].dev == dev && buf[b].blockno == blockno {
          return;
        }
        b := next[b];
        k := k + 1;
      }
      forall i | 0 <= i < NBUF ensures !(buf[i].dev == dev && buf[i].blockno == blockno) {
        assert i in order;
      }
    }

    /** The second loop of bget: walk the list backward for a buffer that is not in use. */
    method Victim() returns (b: nat)
      requires Listed(next, prev, order, stamp, clock) && |buf| == NBUF
      ensures b == HEAD <==> forall i :: 0 <= i < NBUF ==> InUse(buf[i])
      ensures b != HEAD ==> b < NBUF && !InUse(buf[b]) && forall i :: 0 <= i < NBUF && !InUse(buf[i]) ==> stamp[b] <= stamp[i]
    {
      b := prev[HEAD];
      ghost var k: nat := NBUF;
      while b != HEAD
        invariant 0 <= k <= NBUF && b == (if k > 0 then order[k - 1] else HEAD)
        invariant forall j :: k <= j < NBUF ==> InUse(buf[order[j]])
        decreases k
      {
        if buf[b].refcnt == 0 && !buf[b].dirty {
          forall i | 0 <= i < NBUF && !InUse(buf[i]) ensures stamp[b] <= stamp[i] {
            LeastRecent(order, stamp, k - 1, i);
          }
          return;
        }
        b := prev[b];
        k := k - 1;
      }
      forall i | 0 <= i < NBUF ensures InUse(buf[i]) {
        assert i in order;
      }
    }

    /** Return a held buffer with the contents of the block. */
    method Bread(dev: nat, blockno: nat) returns (r: Res<nat>)
      requires Valid() && dev == ROOTDEV && blockno < |face.disk|
      modifies this
      ensures Valid()
      ensures r.Panic? ==> r.why == NoBuffers && |Busy(face.pinned, face.held)| >= NBUF && blockno !in face.pinned
      ensures r.Panic? ==> face == old(face)
      ensures r.Ok? ==>
                && face == old(face).Grabbed(r.value, blockno)
                && (r.value in old(face).held ==> old(face).held[r.value].b == blockno && old(face).held[r.value].n > 0)
    {
      hide Listed, Sound;
      SoundFacts(buf, home, face);
      var h := Bget(dev, blockno);
      if h.Panic? {
        NoneFree(buf, home, face);
        return h;
      }
      var i := h.value;
      if !buf[i].valid {
        // iderw: the buffer is neither valid nor dirty, so the device reads the block
        UpdateTwice(old(buf), i, buf[i], buf[i].(valid := true, data := disk[blockno]));
        buf := buf[i := buf[i].(valid := true, data := disk[blockno])];
        Recycle(old(buf), home, face, blockno, i);
        home := Rehome(home, i, blockno);
      } else {
        Rehold(old(buf), home, face, blockno);
      }
      face := face.Grabbed(i, blockno);
      return Ok(i);
    }

    /** The data of a held buffer. */
    method Data(h: nat) returns (data: Block)
      requires Valid() && h in face.held
      ensures face.Ok() && data == face.view[face.held[h].b]
    {
      SoundFacts(buf, home, face);
      data := buf[h].data;
    }

    /** The block number of a held buffer. */
    method Blockno(h: nat) returns (b: nat)
      requires Valid() && h in face.held
      ensures b == face.held[h].b
    {
      SoundFacts(buf, home, face);
      b := buf[h].blockno;
    }

    /** Replace the contents of a held buffer and write it to the device. */
    method Bwrite(h: nat, data: Block)
      requires Valid() && h in face.held
      modifies this
      ensures Valid() && old(face).Ok() && face == old(face).Written(old(face).held[h].b, data)
    {
      hide Listed, Sound;
      SoundFacts(buf, home, face);
      Flushed(buf, home, face, h, data);
      // iderw: the buffer is marked dirty, so the device writes it and the mark is cleared
      var b := buf[h].blockno;
      buf := buf[h := buf[h].(data := data, dirty := false, valid := true)];
      disk := disk[b := data];
      face := face.Written(b, data);
    }

    /** Replace the contents of a held buffer and mark it dirty, so that it stays in memory. */
    method Pin(h: nat, data: Block)
      requires Valid() && h in face.held
      modifies this
      ensures Valid() && old(face).Ok() && face == old(face).Pinned(old(face).held[h].b, data)
    {
      hide Listed, Sound;
      SoundFacts(buf, home, face);
      Dirtied(buf, home, face, h, data);
      buf := buf[h := buf[h].(data := data, dirty := true)];
      face := face.Pinned(buf[h].blockno, data);
    }

    /** Drop a reference; the last one moves the buffer to the front of the list. */
    method Brelse(h: nat)
      requires Valid() && h in face.held
      modifies this
      ensures Valid() && face == old(face).Dropped(h)
      ensures if h in face.held then stamp == old(stamp) && clock == old(clock)
              else h < |old(stamp)| && stamp == old(stamp)[h := old(clock)] && clock == old(clock) + 1
    {
      hide Listed, Sound;
      SoundFacts(buf, home, face);
      Released(buf, home, face, h);
      buf := buf[h := buf[h].(refcnt := buf[h].refcnt - 1)];
      face := face.Dropped(h);
      if buf[h].refcnt == 0 {
        ToFront(h);
      }
    }

    /** Unlink buffer `h` and link it in right behind the head. */
    method ToFront(h: nat)
      requires Listed(next, prev, order, stamp, clock) && h < NBUF
      modifies this`next, this`prev, this`order, this`stamp, this`clock
      ensures Listed(next, prev, order, stamp, clock)
      ensures h < |old(stamp)| && stamp == old(stamp)[h := old(clock)] && clock == old(clock) + 1
    {
      hide Listed;
      ghost var k := Moved(next, prev, order, stamp, clock, h);
      prev, next := prev[next[h] := prev[h]], next[prev[h] := next[h]];
      next, prev := next[h := next[HEAD]][HEAD := h], prev[h := HEAD][next[HEAD] := h];
      order := [h] + Without(order, k);
      stamp, clock := stamp[h := clock], clock + 1;
    }
  }
}
