/** The three ways fs.c uses a buffer: get it, put it back unchanged, log new contents and put it back. */
module FsIo {
  import opened Bytes
  import opened CacheState
  import opened BufferCache
  import opened LogState
  import opened Log

  /** `h` is a buffer for block `b`, held on top of `base`. */
  ghost predicate Top(held: map<nat, Hold>, base: map<nat, Hold>, h: nat, b: nat)
  {
    held == Grab(base, h, b) && (h in base ==> base[h].b == b && base[h].n > 0)
  }

  /** bread: there is a buffer left, because few blocks are pinned and few buffers held. */
  method Fetch(log: TxnLog, b: nat) returns (h: nat, data: Block)
    requires log.Valid() && b < |log.cache.face.disk| && |log.lh| + |log.cache.face.held| < NBUF
    modifies log.cache
    ensures log.Valid() && Top(log.cache.face.held, old(log.cache.face).held, h, b)
    ensures log.cache.face == old(log.cache.face).(held := log.cache.face.held)
    ensures old(log.cache.face).Ok() && log.cache.face.Ok() && data == log.cache.face.view[b]
  {
    hide TxnLog.Valid, Cache.Valid;
    log.Facts();
    var r := log.Bread(b);
    h := r.value;
    data := log.Data(h);
  }

  /** brelse. */
  method Release(log: TxnLog, h: nat, ghost b: nat, ghost base: map<nat, Hold>)
    requires log.Valid() && Top(log.cache.face.held, base, h, b)
    modifies log.cache
    ensures log.Valid() && log.cache.face == old(log.cache.face).(held := base)
  {
    hide TxnLog.Valid, Cache.Valid;
    GrabDrop(base, h, b);
    log.Brelse(h);
  }

  /** log_write and brelse of a buffer whose data the caller has set to `data`. */
  method Finish(log: TxnLog, h: nat, data: Block, ghost b: nat, ghost base: map<nat, Hold>)
    requires log.Valid() && Top(log.cache.face.held, base, h, b)
    requires !log.area.Has(b) && |log.lh| + 1 < log.area.size
    modifies log`lh, log.cache
    ensures log.Valid() && log.lh == Absorb(old(log.lh), b)
    ensures old(log.cache.face).Ok() && b < |old(log.cache.face).view|
    ensures log.cache.face == old(log.cache.face).Pinned(b, data).(held := base)
  {
    hide TxnLog.Valid, Cache.Valid;
    var r := log.LogWrite(h, data);
    GrabDrop(base, h, b);
    log.Brelse(h);
  }
}
