/** fs.c and file.c: searching, extending and inspecting directories. */
module FsDirs {
  import opened Bytes
  import opened RedoLog
  import opened Kernel
  import opened Log
  import opened Strings
  import opened FsFormat
  import opened FsState
  import opened FsSteps
  import opened FsSpec
  import opened FsInodeSteps
  import opened FsContent
  import opened DirFormat
  import opened FsTree
  import opened FsAlloc
  import opened FsInodes
  import opened FsFile

  /** No device: readi and writei of a directory never ask for one. */
  const NODEV: Dev := Dev(seq(NDEV, _ => NoHandler))

  /** Entry `k` of the directory in slot `s`; readi cannot fail or fall short. */
  method ReadDirent(fs: FileSys, s: nat, k: nat) returns (e: seq<byte>)
    requires fs.Valid() && Settled(fs.a, fs.stale, fs.icache) && Searchable(fs.a, fs.icache, s)
    requires fs.Room(4) && |fs.log.cache.face.held| <= 2 && DIRENT * k < fs.icache[s].d.size
    modifies fs`icache, fs`a, fs`stale, fs.log`lh, fs.log.cache
    ensures fs.Valid() && fs.Now() == old(fs.Now())
    ensures |e| == DIRENT && k < |DirEnts(fs.a, fs.icache, s)| && DecodeEnt(e) == DirEnts(fs.a, fs.icache, s)[k]
  {
    hide TxnLog.Valid, Consistent, Settled, LiveEnts, EntsOf, ReadOf, DecodeEnt;
    SizedFacts(fs.sb, fs.View(), fs.a, fs.stale, fs.icache, s);
    var r, dst := Readi(fs, s, DIRENT * k, DIRENT, NODEV);
    ReadEnt(fs.icache[s].d, fs.a.file[fs.icache[s].inum], k, NODEV, r, dst);
    return dst;
  }

  /** The loop of dirlookup: the first live entry with that name. */
  method SearchDir(fs: FileSys, s: nat, name: seq<byte>) returns (k: nat, inum: u16)
    requires fs.Valid() && Settled(fs.a, fs.stale, fs.icache) && Searchable(fs.a, fs.icache, s) && Terminated(name, DIRSIZ)
    requires fs.Room(4) && |fs.log.cache.face.held| <= 2 && s < |fs.icache|
    modifies fs`icache, fs`a, fs`stale, fs.log`lh, fs.log.cache
    ensures fs.Valid() && fs.Now() == old(fs.Now())
    ensures k == Where(DirEnts(fs.a, fs.icache, s), NameOf(name)) && inum == Find(DirEnts(fs.a, fs.icache, s), NameOf(name))
  {
    hide TxnLog.Valid, Consistent, Settled, Searchable, EntsOf, LiveEnts;
    ghost var p := fs.Now();
    ghost var e := DirEnts(fs.a, fs.icache, s);
    k := 0;
    while DIRENT * k < fs.icache[s].d.size
      invariant fs.Valid() && fs.Now() == p && k <= |e| && forall j :: 0 <= j < k ==> !Named(e[j], NameOf(name))
    {
      var de := ReadDirent(fs, s, k);
      inum := U16(de, 0);
      if inum != 0 {
        var c := Strncmp(name, de[2..], DIRSIZ);
        if c == 0 {
          WhereIs(e, NameOf(name), k);
          return;
        }
      }
      k := k + 1;
    }
    WhereIs(e, NameOf(name), k);
    inum := 0;
  }

  lemma WhereIs(e: seq<Ent>, name: Name, k: nat)
    requires k <= |e| && (k < |e| ==> Named(e[k], name)) && forall j :: 0 <= j < k ==> !Named(e[j], name)
    ensures Where(e, name) == k && Find(e, name) == if k < |e| then e[k].inum else 0
  {
  }

  /** A search ends without a match, or with a reference to the inode found and its entry's offset. */
  datatype Hit = Missing | Hit(slot: nat, off: nat)

  /** dirlookup. */
  method Dirlookup(fs: FileSys, s: nat, name: seq<byte>) returns (r: Res<Hit>)
    requires fs.Valid() && Settled(fs.a, fs.stale, fs.icache) && Terminated(name, DIRSIZ) && Loaded(fs.icache, s)
    requires fs.icache[s].d.typ == T_DIR ==> Searchable(fs.a, fs.icache, s)
    requires fs.Room(4) && |fs.log.cache.face.held| <= 2
    modifies fs`icache, fs`a, fs`stale, fs.log`lh, fs.log.cache
    ensures fs.Valid() && fs.Now() == old(fs.Now()).(icache := fs.icache) && Settled(fs.a, fs.stale, fs.icache)
    ensures r.Panic? ==> fs.icache == old(fs.icache) && r.why == if old(fs.icache[s].d.typ) != T_DIR then DirlookupNotDir else NoInodeSlots
    ensures r.Panic? ==> Exhausted(fs.sb, fs.View(), fs.a, fs.icache, r.why)
    ensures r.Panic? && r.why == NoInodeSlots ==> old(Searchable(fs.a, fs.icache, s) && Find(DirEnts(fs.a, fs.icache, s), NameOf(name)) != 0)
    ensures r.Ok? ==> old(Searchable(fs.a, fs.icache, s))
    ensures r.Ok? ==>
              var e, n := old(DirEnts(fs.a, fs.icache, s)), NameOf(name);
              if Find(e, n) == 0 then r.value == Missing && fs.icache == old(fs.icache)
              else r.value.Hit? && Got(old(fs.icache), fs.icache, Find(e, n), r.value.slot) && r.value.off == DIRENT * Where(e, n)
  {
    hide TxnLog.Valid, Consistent, Settled, Searchable, EntsOf, LiveEnts, Got;
    if fs.icache[s].d.typ != T_DIR {
      return Panic(DirlookupNotDir);
    }
    ghost var icache := fs.icache;
    var k, inum := SearchDir(fs, s, name);
    if inum == 0 {
      return Ok(Missing);
    }
    LiveFacts(fs.sb, fs.View(), fs.a, fs.stale, fs.icache, s, k);
    var slot :- Iget(fs, inum);
    GotSettled(fs.sb, fs.View(), fs.a, fs.stale, icache, fs.icache, inum, slot);
    return Ok(Hit(slot, DIRENT * k));
  }

  lemma LiveFacts(sb: Super, v: Disk, a: Abs, stale: set<nat>, icache: seq<Inode>, s: nat, k: nat)
    requires Consistent(sb, v, a, stale, icache) && Searchable(a, icache, s) && k < |DirEnts(a, icache, s)| && DirEnts(a, icache, s)[k].inum != 0
    ensures var i := DirEnts(a, icache, s)[k].inum; 0 < i < sb.ninodes == |a.ino| && a.ino[i].typ != 0 && a.ino[i].nlink > 0
  {
    ConsistentFacts(sb, v, a, stale, icache);
  }

  /** The search for an empty entry in dirlink. */
  method FindFree(fs: FileSys, s: nat) returns (k: nat)
    requires fs.Valid() && Settled(fs.a, fs.stale, fs.icache) && Searchable(fs.a, fs.icache, s)
    requires fs.Room(4) && |fs.log.cache.face.held| <= 2 && s < |fs.icache|
    modifies fs`icache, fs`a, fs`stale, fs.log`lh, fs.log.cache
    ensures fs.Valid() && fs.Now() == old(fs.Now()) && k == FirstFree(DirEnts(fs.a, fs.icache, s))
  {
    hide TxnLog.Valid, Consistent, Settled, Searchable, EntsOf, LiveEnts;
    ghost var p := fs.Now();
    ghost var e := DirEnts(fs.a, fs.icache, s);
    k := 0;
    while DIRENT * k < fs.icache[s].d.size
      invariant fs.Valid() && fs.Now() == p && k <= |e| && forall j :: 0 <= j < k ==> e[j].inum != 0
    {
      var de := ReadDirent(fs, s, k);
      if U16(de, 0) == 0 {
        break;
      }
      k := k + 1;
    }
  }

  /** isdirempty: no live entry behind "." and "..". */
  method Isdirempty(fs: FileSys, s: nat) returns (empty: bool)
    requires fs.Valid() && Settled(fs.a, fs.stale, fs.icache) && Searchable(fs.a, fs.icache, s)
    requires fs.Room(4) && |fs.log.cache.face.held| <= 2 && s < |fs.icache|
    modifies fs`icache, fs`a, fs`stale, fs.log`lh, fs.log.cache
    ensures fs.Valid() && fs.Now() == old(fs.Now())
    ensures empty <==> forall k :: 2 <= k < |DirEnts(fs.a, fs.icache, s)| ==> DirEnts(fs.a, fs.icache, s)[k].inum == 0
  {
    hide TxnLog.Valid, Consistent, Settled, Searchable, EntsOf, LiveEnts;
    ghost var p := fs.Now();
    ghost var e := DirEnts(fs.a, fs.icache, s);
    var k := 2;
    while DIRENT * k < fs.icache[s].d.size
      invariant fs.Valid() && fs.Now() == p && 2 <= k && (k <= |e| || k == 2) && forall j :: 2 <= j < k && j < |e| ==> e[j].inum == 0
    {
      var de := ReadDirent(fs, s, k);
      if U16(de, 0) != 0 {
        return false;
      }
      k := k + 1;
    }
    return true;
  }

  /** The entry that dirlink writes: strncpy and the inode number. */
  method MakeEntry(inum: u16, name: seq<byte>) returns (de: seq<byte>)
    requires Terminated(name, DIRSIZ)
    ensures de == EncodeEnt(inum, name)
  {
    var buf := new byte[DIRSIZ];
    Strncpy(buf, name, DIRSIZ);
    assert buf[..] == Padded(name, DIRSIZ);
    de := LE16(inum) + buf[..];
  }

  /** The second half of dirlink: the first free entry, or a new one, gets the name. */
  method AddEntry(fs: FileSys, s: nat, name: seq<byte>, inum: u16) returns (r: Res<int>)
    requires fs.Valid() && Settled(fs.a, fs.stale, fs.icache) && Searchable(fs.a, fs.icache, s) && Terminated(name, DIRSIZ)
    requires fs.Room(7) && |fs.log.cache.face.held| <= 2 && s < |fs.icache| && Loaded(fs.icache, s)
    modifies fs`icache, fs`a, fs`stale, fs.log`lh, fs.log.cache
    ensures fs.log.Valid() && Still(old(fs.log.cache.face), fs.log.cache.face)
    ensures r.Panic? ==> r.why == OutOfBlocks || (r.why == DirlinkWrite && NoRoom(old(DirEnts(fs.a, fs.icache, s))))
    ensures r.Panic? ==> Exhausted(fs.sb, fs.View(), fs.a, fs.icache, r.why)
    ensures r.Ok? ==> r.value == 0 && fs.Valid() && Settled(fs.a, fs.stale, fs.icache) && old(fs.icache[s].inum < |fs.a.ino| == |fs.a.file|)
    ensures r.Ok? ==> Written(old(fs.Now()), fs.Now(), s, DIRENT * old(FirstFree(DirEnts(fs.a, fs.icache, s))), EncodeEnt(inum, name))
    ensures r.Ok? ==> Grew(old(fs.log.lh), fs.log.lh, 5)
  {
    hide TxnLog.Valid, Consistent, Settled, EntsOf, LiveEnts;
    var k := FindFree(fs, s);
    SizedFacts(fs.sb, fs.View(), fs.a, fs.stale, fs.icache, s);
    EntCost(fs.icache[s].d.size, k);
    hide Searchable, WriteCost;
    var de := MakeEntry(inum, name);
    var n :- Writei(fs, s, de, DIRENT * k, NODEV);
    if n != DIRENT {
      return Panic(DirlinkWrite);
    }
    return Ok(0);
  }

  /** dirlink: refuses a name that is there, otherwise adds it. */
  method Dirlink(fs: FileSys, s: nat, name: seq<byte>, inum: u16) returns (r: Res<int>)
    requires fs.Valid() && Settled(fs.a, fs.stale, fs.icache) && Searchable(fs.a, fs.icache, s) && Terminated(name, DIRSIZ)
    requires fs.Room(7) && |fs.log.cache.face.held| <= 2 && s < |fs.icache| && Loaded(fs.icache, s)
    modifies fs`icache, fs`a, fs`stale, fs.log`lh, fs.log.cache
    ensures fs.log.Valid() && Still(old(fs.log.cache.face), fs.log.cache.face)
    ensures r.Panic? ==> r.why == OutOfBlocks || r.why == NoInodeSlots || (r.why == DirlinkWrite && NoRoom(old(DirEnts(fs.a, fs.icache, s))))
    ensures r.Panic? ==> Exhausted(fs.sb, fs.View(), fs.a, fs.icache, r.why)
    ensures r.Ok? ==> fs.Valid() && Settled(fs.a, fs.stale, fs.icache) && old(fs.icache[s].inum < |fs.a.ino| == |fs.a.file|)
    ensures var e := old(DirEnts(fs.a, fs.icache, s));
            if Find(e, NameOf(name)) != 0 then
              r.Ok? ==> r.value == -1 && fs.Now() == old(fs.Now()).(icache := fs.icache) && Took(old(fs.icache), fs.icache, -1)
            else
              && (r.Panic? ==> r.why != NoInodeSlots)
              && (r.Ok? ==> r.value == 0 && Written(old(fs.Now()), fs.Now(), s, DIRENT * FirstFree(e), EncodeEnt(inum, name)) && Grew(old(fs.log.lh), fs.log.lh, 5))
  {
    hide TxnLog.Valid, Consistent, Settled, EntsOf, LiveEnts, Got, NameOf, EncodeEnt, FirstFree, Took, Dropped, Where, Written, Exhausted;
    ghost var p := fs.Now();
    SizedFacts(fs.sb, fs.View(), fs.a, fs.stale, fs.icache, s);
    var hit :- Dirlookup(fs, s, name);
    if hit.Hit? {
      ghost var icache := fs.icache;
      LiveFacts(fs.sb, fs.View(), p.a, p.stale, p.icache, s, hit.off / DIRENT);
      GotSlot(p.icache, icache, Find(DirEnts(p.a, p.icache, s), NameOf(name)), hit.slot);
      PutLinked(fs, hit.slot);
      TookNothing(p.icache);
      TookGot(p.icache, p.icache, icache, Find(DirEnts(p.a, p.icache, s), NameOf(name)), hit.slot);
      TookDropped(p.icache, icache, fs.icache, hit.slot);
      return Ok(-1);
    }
    r := AddEntry(fs, s, name, inum);
  }
}
