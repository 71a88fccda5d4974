/** The state of the kernel's file system: in-memory inodes, open files and the log below them. */
module SysState {
  import opened RedoLog
  import opened BufferCache
  import opened Log
  import opened FsState
  import opened FsInodeSteps
  import opened Tree
  import opened FsTree
  import opened FsDisk
  import opened FileState
  import opened FsOrphans
  import opened FsAlloc

  class Sys {
    const fs: FileSys
    var ftable: seq<File>
    ghost var m: Map
    ghost const left: set<nat>       // the orphans found at boot

    /** Boot: recover the log, then start with empty inode cache and file table. `h` are the contents that
        the disk and its log stand for. */
    constructor (disk: Disk, sb: Super, ghost h: Disk)
      requires Recovers(sb.LogArea(), disk, h) && DiskOk(sb, h)
      ensures Valid() && fresh(fs) && fresh(fs.log) && fresh(fs.log.cache)
      ensures fs.sb == sb && fs.log.base == disk && fs.log.hist == [h] && HomeEq(sb.LogArea(), fs.View(), h)
      ensures Shows(sb, h, fs.a) && left == Orphans(fs.a)
    {
      hide Cache.Valid, TxnLog.Valid, Consistent, Settled, InOrder, Recovers, DiskOk, HistOk, Table, NoDirWritable, Orphans, Shows;
      var cache := new Cache(disk);
      var log := new TxnLog(cache, sb.LogArea(), h);
      log.Facts();
      ghost var a, place := Booted(sb, h, cache.face.view);
      TableEmpty(NoFiles(), EmptyCache(), a);
      HistOne(sb, h);
      fs := new FileSys(log, sb, EmptyCache(), a);
      ftable, m, left := NoFiles(), place, Orphans(a);
    }

    /** Between two operations. */
    ghost predicate Valid()
      reads this, fs, fs.log, fs.log.cache
    {
      && fs.Valid() && fs.log.lh == [] && fs.log.cache.face.held == map[]
      && Settled(fs.a, fs.stale, fs.icache) && InOrder(fs.a, m)
      && Table(ftable, fs.icache) && NoDirWritable(ftable, fs.icache, fs.a) && HistOk(fs.sb, fs.log.hist)
      && LastShows(fs.sb, fs.log.hist, fs.a) && NoneLost(fs.a, fs.icache, left)
    }

    /** After a panic: the disk and its history are those at the last boundary. */
    ghost predicate Halted()
      reads this, fs, fs.log, fs.log.cache
    {
      fs.log.Valid() && fs.log.area == fs.sb.LogArea() && HistOk(fs.sb, fs.log.hist)
    }
  }
}
