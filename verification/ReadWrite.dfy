/** fs.c: readi and writei. */
module FsFile {
  import opened Bytes
  import opened Kernel
  import opened CacheState
  import opened Log
  import opened FsFormat
  import opened FsState
  import opened FsSteps
  import opened FsSpec
  import opened FsInodeSteps
  import opened FsContent
  import opened FsIo
  import opened FsAlloc
  import opened FsMap
  import opened FsInodes

  /** The contents of an existing block of the file of slot `s`. */
  method ReadBlock(fs: FileSys, s: nat, bn: nat) returns (data: Block)
    requires fs.Valid() && Loaded(fs.icache, s) && bn < |fs.a.file[fs.icache[s].inum]|
    requires fs.Room(4) && |fs.log.cache.face.held| <= 2
    modifies fs`icache, fs`a, fs`stale, fs.log`lh, fs.log.cache
    ensures fs.Valid() && fs.Now() == old(fs.Now()) && data == fs.a.file[fs.icache[s].inum][bn]
  {
    hide TxnLog.Valid, Consistent, Top;
    ghost var p := fs.Now();
    ConsistentFacts(fs.sb, fs.View(), fs.a, fs.stale, fs.icache);
    FileFacts(fs.sb, fs.View(), fs.a, fs.icache, s, bn);
    CacheSlot(fs.sb, fs.a, fs.icache, s);
    hide BlocksOk, Synced, Cached, Addr;
    var x := Bmap(fs, s, bn);
    var h;
    h, data := Fetch(fs.log, x.value);
    Release(fs.log, h, x.value, p.face.held);
  }

  /** The loop of readi. */
  method ReadBytes(fs: FileSys, s: nat, off: nat, n: nat) returns (dst: seq<byte>)
    requires fs.Valid() && Loaded(fs.icache, s) && fs.Room(4) && |fs.log.cache.face.held| <= 2
    requires fs.icache[s].inum < |fs.a.file|
    requires var d, f := fs.icache[s].d, fs.a.file[fs.icache[s].inum]; off + n <= d.size && |f| == Blocks(d.size)
    modifies fs`icache, fs`a, fs`stale, fs.log`lh, fs.log.cache
    ensures fs.Valid() && fs.Now() == old(fs.Now())
    ensures dst == Content(fs.a.file[fs.icache[s].inum], fs.icache[s].d.size)[off..off + n]
  {
    hide TxnLog.Valid, Consistent, Content, Piece;
    ghost var p := fs.Now();
    ghost var f, size := fs.a.file[fs.icache[s].inum], fs.icache[s].d.size;
    dst := [];
    var tot := 0;
    while tot < n
      invariant fs.Valid() && fs.Now() == p && tot <= n && dst == Content(f, size)[off..off + tot]
    {
      var at := off + tot;
      var m := Piece(at, n - tot);
      ReadMore(f, size, off, tot, m);
      var data := ReadBlock(fs, s, at / BSIZE);
      dst := dst + data[at % BSIZE..at % BSIZE + m];
      tot := tot + m;
    }
  }

  /** readi: a slice of the file's bytes; nothing is allocated and nothing changes. */
  method Readi(fs: FileSys, s: nat, off: u32, n: u32, dev: Dev) returns (r: int, dst: seq<byte>)
    requires fs.Valid() && Loaded(fs.icache, s) && Settled(fs.a, fs.stale, fs.icache)
    requires fs.Room(4) && |fs.log.cache.face.held| <= 2
    modifies fs`icache, fs`a, fs`stale, fs.log`lh, fs.log.cache
    ensures fs.Valid() && fs.Now() == old(fs.Now())
    ensures fs.icache[s].inum < |fs.a.file| && ReadOf(fs.icache[s].d, fs.a.file[fs.icache[s].inum], off, n, dev, r, dst)
  {
    hide TxnLog.Valid, Consistent, Settled;
    SizedFacts(fs.sb, fs.View(), fs.a, fs.stale, fs.icache, s);
    var d := fs.icache[s].d;
    if d.typ == T_DEV {
      if d.major < 0 || d.major >= NDEV || dev.devsw[d.major].NoHandler? {
        return -1, [];
      }
      return dev.devsw[d.major].r, [];
    }
    if off > d.size || Wraps(off, n) || d.nlink < 1 {
      return -1, [];
    }
    var m := if off + n > d.size then d.size - off else n;
    dst := ReadBytes(fs, s, off, m);
    return m, dst;
  }

  /** The body of the loop in writei: bmap, bread, memmove, log_write, brelse. */
  method WriteBlock(fs: FileSys, s: nat, bn: nat, o: nat, t: seq<byte>) returns (r: Res<()>)
    requires fs.Valid() && Loaded(fs.icache, s) && fs.icache[s].inum < |fs.a.file| && bn <= |fs.a.file[fs.icache[s].inum]| && bn < MAXFILE
    requires o + |t| <= BSIZE && fs.Room(4) && |fs.log.cache.face.held| <= 2
    modifies fs`icache, fs`a, fs`stale, fs.log`lh, fs.log.cache
    ensures fs.log.Valid() && Still(old(fs.log.cache.face), fs.log.cache.face)
    ensures r.Panic? ==> r.why == OutOfBlocks && bn == old(|fs.a.file[fs.icache[s].inum]|)
    ensures r.Panic? ==> Exhausted(fs.sb, fs.View(), fs.a, fs.icache, r.why)
    ensures r.Ok? ==> fs.Valid() && BlockPut(old(fs.Now()), fs.Now(), s, bn, o, t) && PutLogged(fs.sb, old(fs.Now()), fs.Now(), s, bn)
  {
    hide TxnLog.Valid, Consistent, Addr, BlockPut, Bmapped, Grown, PutLogged, Exhausted;
    ghost var p := fs.Now();
    SlotFile(fs.sb, p, s);
    var x :- Bmap(fs, s, bn);
    MappedFacts(p, fs.Now(), s, bn, x);
    PutBlock(fs, s, bn, o, t, x, p);
    return Ok(());
  }

  /** The same behind bmap, which has changed the state from `p` and delivered block `x`. */
  method PutBlock(fs: FileSys, s: nat, bn: nat, o: nat, t: seq<byte>, x: nat, ghost p: State)
    requires fs.Valid() && Loaded(p.icache, s) && p.icache[s].inum < |p.a.file| == |p.a.ino| && bn <= |p.a.file[p.icache[s].inum]| && bn < MAXFILE
    requires Consistent(fs.sb, p.face.view, p.a, p.stale, p.icache) && p.face.Ok() && |p.face.held| <= 2 && |p.lh| + 4 <= 24
    requires o + |t| <= BSIZE && Bmapped(p, fs.Now(), s, bn, x) && Grown(fs.sb, p, fs.Now(), s, bn) && |fs.log.lh| + |fs.log.cache.face.held| < NBUF - 1
    modifies fs`icache, fs`a, fs`stale, fs.log`lh, fs.log.cache
    ensures fs.Valid() && Still(p.face, fs.log.cache.face)
    ensures BlockPut(p, fs.Now(), s, bn, o, t) && PutLogged(fs.sb, p, fs.Now(), s, bn)
  {
    hide TxnLog.Valid, Consistent, Top, Addr, BlockPut, Bmapped, Grown, PutLogged;
    ghost var q := fs.Now();
    ConsistentFacts(fs.sb, fs.View(), fs.a, fs.stale, fs.icache);
    hide BlocksOk, Synced, Cached;
    MappedFacts(p, q, s, bn, x);
    ghost var i := fs.icache[s].inum;
    ghost var blk := Splice(fs.a.file[i][bn], o, t);
    WriteAll(q, fs.sb, s, bn, blk);
    var h, data := Fetch(fs.log, x);
    Finish(fs.log, h, Splice(data, o, t), x, q.face.held);
    fs.log.Facts();
    fs.a := Rewritten(fs.a, i, bn, blk);
    PutDone(fs.sb, p, q, fs.Now(), s, bn, o, t, x);
  }

  /** One pass of the loop in writei: the bytes that fall into the next block. */
  method WritePiece(fs: FileSys, s: nat, off: nat, src: seq<byte>, tot: nat, ghost p: State) returns (r: Res<nat>)
    requires fs.Valid() && Loaded(p.icache, s) && p.icache[s].inum < |p.a.ino| == |p.a.file| && |p.face.held| <= 2
    requires off <= p.icache[s].d.size && |p.a.file[p.icache[s].inum]| == Blocks(p.icache[s].d.size)
    requires tot < |src| && off + |src| <= MAXFILE * BSIZE && |p.lh| + WriteCost(p.icache[s].d.size, off, |src|) + 2 <= 24
    requires Writing(p, fs.Now(), s, off, src, tot) && Between(off, tot, |src|) && WroteLogged(fs.sb, p, fs.Now(), s, off, tot)
    modifies fs`icache, fs`a, fs`stale, fs.log`lh, fs.log.cache
    ensures fs.log.Valid() && Still(p.face, fs.log.cache.face)
    ensures r.Panic? ==> r.why == OutOfBlocks && off + |src| > p.icache[s].d.size
    ensures r.Panic? ==> Exhausted(fs.sb, fs.View(), fs.a, fs.icache, r.why)
    ensures r.Ok? ==> fs.Valid() && 0 < r.value <= |src| - tot && Between(off, tot + r.value, |src|)
    ensures r.Ok? ==> Writing(p, fs.Now(), s, off, src, tot + r.value) && WroteLogged(fs.sb, p, fs.Now(), s, off, tot + r.value)
  {
    hide TxnLog.Valid, Consistent, Writing, BlockPut, Piece, WriteCost, Between, WroteLogged, PutLogged, Exhausted;
    ghost var q := fs.Now();
    WritingFacts(p, q, s, off, src, tot);
    WritingRoom(p, q, s, off, src, tot);
    NextPiece(off, tot, |src|);
    var m := Piece(off + tot, |src| - tot);
    var _ :- WriteBlock(fs, s, (off + tot) / BSIZE, (off + tot) % BSIZE, src[tot..tot + m]);
    PieceWritten(fs.sb, p, q, fs.Now(), s, off, src, tot, m);
    return Ok(m);
  }

  /** One more piece, and one more block logged. */
  lemma PieceWritten(sb: Super, p: State, q: State, z: State, s: nat, off: nat, src: seq<byte>, tot: nat, m: nat)
    requires Loaded(p.icache, s) && p.icache[s].inum < |p.a.ino| == |p.a.file| && off <= |p.a.file[p.icache[s].inum]| * BSIZE
    requires tot + m <= |src| && 0 < m && (off + tot) % BSIZE + m <= BSIZE && Between(off, tot, |src|) && Loaded(q.icache, s)
    requires Writing(p, q, s, off, src, tot) && WroteLogged(sb, p, q, s, off, tot) && q.icache[s].inum == p.icache[s].inum < |q.a.file|
    requires (off + tot) / BSIZE <= |q.a.file[p.icache[s].inum]| && BlockPut(q, z, s, (off + tot) / BSIZE, (off + tot) % BSIZE, src[tot..tot + m])
    requires PutLogged(sb, q, z, s, (off + tot) / BSIZE)
    requires Consistent(sb, q.face.view, q.a, q.stale, q.icache) && Consistent(sb, z.face.view, z.a, z.stale, z.icache)
    ensures Writing(p, z, s, off, src, tot + m) && WroteLogged(sb, p, z, s, off, tot + m) && Still(p.face, z.face)
  {
    hide Consistent, Writing, BlockPut, Between, WroteLogged, PutLogged, BlocksOk;
    WritingMore(p, q, z, s, off, src, tot, m);
    SlotHasFile(sb, q, s);
    WritingFacts(p, z, s, off, src, tot + m);
    SlotHasFile(sb, z, s);
    WritingLogged(sb, p, q, z, s, off, src, tot, m);
  }

  /** The loop of writei. */
  method WriteBytes(fs: FileSys, s: nat, off: nat, src: seq<byte>) returns (r: Res<()>)
    requires fs.Valid() && Loaded(fs.icache, s) && Settled(fs.a, fs.stale, fs.icache) && |fs.log.cache.face.held| <= 2
    requires off <= fs.icache[s].d.size && off + |src| <= MAXFILE * BSIZE && src != []
    requires fs.Room(WriteCost(fs.icache[s].d.size, off, |src|) + 2)
    modifies fs`icache, fs`a, fs`stale, fs.log`lh, fs.log.cache
    ensures fs.log.Valid() && Still(old(fs.log.cache.face), fs.log.cache.face)
    ensures r.Panic? ==> r.why == OutOfBlocks && off + |src| > old(fs.icache[s].d.size)
    ensures r.Panic? ==> Exhausted(fs.sb, fs.View(), fs.a, fs.icache, r.why)
    ensures r.Ok? ==>
              && fs.Valid() && old(fs.icache[s].inum < |fs.a.ino| == |fs.a.file|)
              && Writing(old(fs.Now()), fs.Now(), s, off, src, |src|) && WroteLogged(fs.sb, old(fs.Now()), fs.Now(), s, off, |src|)
  {
    hide TxnLog.Valid, Consistent, Settled, Writing, WriteCost, Between, Blocks, WroteLogged, Exhausted;
    ghost var p := fs.Now();
    SizedFacts(fs.sb, fs.View(), fs.a, fs.stale, fs.icache, s);
    WritingStart(p, s, off, src);
    SlotHasFile(fs.sb, p, s);
    LoggedStart(fs.sb, p, s, off);
    hide BlocksOk, HasFile;
    var tot := 0;
    while tot < |src|
      invariant fs.Valid() && tot <= |src| && Writing(p, fs.Now(), s, off, src, tot)
      invariant Between(off, tot, |src|) && WroteLogged(fs.sb, p, fs.Now(), s, off, tot)
    {
      var m :- WritePiece(fs, s, off, src, tot, p);
      tot := tot + m;
    }
    WritingFacts(p, fs.Now(), s, off, src, |src|);
    return Ok(());
  }

  /** writei: overwrite the file's bytes from `off` on, growing it where needed; every change of the
      inode is written through, and the write stays within its bound. */
  method Writei(fs: FileSys, s: nat, src: seq<byte>, off: u32, dev: Dev) returns (r: Res<int>)
    requires fs.Valid() && Loaded(fs.icache, s) && Settled(fs.a, fs.stale, fs.icache) && |fs.log.cache.face.held| <= 2
    requires |src| < 0x1_0000_0000
    requires fs.icache[s].d.typ != T_DEV && !WriteRefused(fs.icache[s].d, off, |src|) ==> fs.Room(WriteCost(fs.icache[s].d.size, off, |src|) + 2)
    modifies fs`icache, fs`a, fs`stale, fs.log`lh, fs.log.cache
    ensures fs.log.Valid() && Still(old(fs.log.cache.face), fs.log.cache.face)
    ensures r.Panic? ==> r.why == OutOfBlocks && off + |src| > old(fs.icache[s].d.size) && old(fs.icache[s].d.typ) != T_DEV
    ensures r.Panic? ==> Exhausted(fs.sb, fs.View(), fs.a, fs.icache, r.why)
    ensures r.Ok? ==> fs.Valid() && Settled(fs.a, fs.stale, fs.icache) && old(fs.icache[s].inum < |fs.a.ino| == |fs.a.file|)
    ensures r.Ok? ==> var d := old(fs.icache[s].d);
              if d.typ == T_DEV then r.value == dev.Answer(d.major) && fs.Now() == old(fs.Now())
              else if WriteRefused(d, off, |src|) then r.value == -1 && fs.Now() == old(fs.Now())
              else r.value == |src| && Written(old(fs.Now()), fs.Now(), s, off, src) && WriteLogged(fs.sb, old(fs.Now()), fs.Now(), s, off, |src|)
  {
    hide TxnLog.Valid, Consistent, Settled, Writing, Written, WriteCost, WroteLogged, WriteLogged, Exhausted;
    ghost var p := fs.Now();
    SizedFacts(fs.sb, fs.View(), fs.a, fs.stale, fs.icache, s);
    SlotHasFile(fs.sb, p, s);
    hide BlocksOk;
    var d := fs.icache[s].d;
    if d.typ == T_DEV {
      if d.major < 0 || d.major >= NDEV || dev.devsw[d.major].NoHandler? {
        return Ok(-1);
      }
      return Ok(dev.devsw[d.major].r);
    }
    if off > d.size || Wraps(off, |src|) {
      return Ok(-1);
    }
    if off + |src| > MAXFILE * BSIZE {
      return Ok(-1);
    }
    if src == [] {
      WrittenNothing(p, s, off);
      LoggedNothing(fs.sb, p, s, off);
      return Ok(0);
    }
    var _ :- WriteThrough(fs, s, off, src);
    return Ok(|src|);
  }

  /** The part of writei behind its checks. */
  method WriteThrough(fs: FileSys, s: nat, off: nat, src: seq<byte>) returns (r: Res<()>)
    requires fs.Valid() && Loaded(fs.icache, s) && Settled(fs.a, fs.stale, fs.icache) && |fs.log.cache.face.held| <= 2
    requires off <= fs.icache[s].d.size && off + |src| <= MAXFILE * BSIZE && src != []
    requires fs.Room(WriteCost(fs.icache[s].d.size, off, |src|) + 2)
    modifies fs`icache, fs`a, fs`stale, fs.log`lh, fs.log.cache
    ensures fs.log.Valid() && Still(old(fs.log.cache.face), fs.log.cache.face)
    ensures r.Panic? ==> r.why == OutOfBlocks && off + |src| > old(fs.icache[s].d.size)
    ensures r.Panic? ==> Exhausted(fs.sb, fs.View(), fs.a, fs.icache, r.why)
    ensures r.Ok? ==> fs.Valid() && Settled(fs.a, fs.stale, fs.icache) && old(fs.icache[s].inum < |fs.a.ino| == |fs.a.file|)
    ensures r.Ok? ==> Written(old(fs.Now()), fs.Now(), s, off, src) && WriteLogged(fs.sb, old(fs.Now()), fs.Now(), s, off, |src|)
  {
    hide TxnLog.Valid, Consistent, Settled, Writing, Written, WriteCost, WroteLogged, WriteLogged, Exhausted;
    ghost var p := fs.Now();
    SizedFacts(fs.sb, fs.View(), fs.a, fs.stale, fs.icache, s);
    var _ :- WriteBytes(fs, s, off, src);
    ghost var q := fs.Now();
    WritingFacts(p, q, s, off, src, |src|);
    WritingRoom(p, q, s, off, src, |src|);
    if |src| > 0 && off + |src| > fs.icache[s].d.size {
      Update(fs, s, fs.icache[s].d.(size := off + |src|));
    }
    WriteDone(fs.sb, p, q, fs.Now(), s, off, src);
    return Ok(());
  }
}
