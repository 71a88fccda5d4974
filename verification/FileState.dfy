/** file.c: the table of open files, and how it accounts for the references to in-memory inodes. */
module FileState {
  import opened Bytes
  import opened FsState
  import opened FsFormat
  import opened FsInodeSteps

  const NFILE := 100

  /** struct file; `inode` says whether its type is FD_INODE, `ip` is the slot of its inode. */
  datatype File = File(ref: nat, inode: bool, readable: bool, writable: bool, ip: nat, off: u32)

  /** How many open files refer to slot `s`. */
  ghost function Opens(ft: seq<File>, s: nat): (n: nat)
  {
    if ft == [] then 0
    else
      var k := |ft| - 1;
      Opens(ft[..k], s) + if ft[k].ref > 0 && ft[k].inode && ft[k].ip == s then 1 else 0
  }

  function Uses(f: File, s: nat): (n: nat)
  {
    if f.ref > 0 && f.inode && f.ip == s then 1 else 0
  }

  /** Every open file is an inode in use, and between operations every reference to an in-memory inode
      belongs to exactly one open file and has been read from the disk. */
  ghost predicate Table(ft: seq<File>, icache: seq<Inode>)
  {
    && |ft| == NFILE && |icache| == NINODE
    && (forall f :: 0 <= f < NFILE ==> (ft[f].inode <==> ft[f].ref > 0) && (ft[f].inode ==> ft[f].ip < NINODE))
    && forall s :: 0 <= s < NINODE ==> icache[s].ref == Opens(ft, s) && (icache[s].ref > 0 ==> icache[s].valid)
  }

  lemma {:induction false} OpensUpdate(ft: seq<File>, f: nat, x: File, s: nat)
    requires f < |ft|
    ensures Opens(ft[f := x], s) == Opens(ft, s) - Uses(ft[f], s) + Uses(x, s) && Opens(ft, s) >= Uses(ft[f], s)
  {
    var k := |ft| - 1;
    if f < k {
      OpensUpdate(ft[..k], f, x, s);
      assert ft[f := x][..k] == ft[..k][f := x];
    } else {
      assert ft[f := x][..k] == ft[..k];
    }
  }

  /** The inode of an open file is referenced. */
  lemma OpenReferenced(ft: seq<File>, icache: seq<Inode>, f: nat)
    requires Table(ft, icache) && f < NFILE && ft[f].ref > 0
    ensures ft[f].inode && ft[f].ip < NINODE == |icache| && icache[ft[f].ip].ref > 0
  {
    OpensUpdate(ft, f, ft[f], ft[f].ip);
  }

  /** References unchanged, slot by slot. */
  lemma TableSame(ft: seq<File>, c: seq<Inode>, c': seq<Inode>)
    requires Table(ft, c) && Took(c, c', -1)
    ensures Table(ft, c')
  {
  }

  /** open: a free entry of the table takes over the new reference. */
  lemma TableOpen(ft: seq<File>, c: seq<Inode>, c': seq<Inode>, s: nat, f: nat, x: File)
    requires Table(ft, c) && Took(c, c', s) && f < NFILE && ft[f].ref == 0 && x.ref > 0 && x.inode && x.ip == s < |c'| && c'[s].valid
    ensures Table(ft[f := x], c')
  {
    forall t | 0 <= t < NINODE ensures c'[t].ref == Opens(ft[f := x], t) {
      OpensUpdate(ft, f, x, t);
    }
  }

  /** fileclose of the last reference: the table gives it up. */
  lemma TableClose(ft: seq<File>, c: seq<Inode>, c': seq<Inode>, f: nat, x: File)
    requires Table(ft, c) && f < NFILE && ft[f].ref > 0 && x.ref == 0 && !x.inode && ft[f].ip < NINODE && Dropped(c, c', ft[f].ip)
    ensures Table(ft[f := x], c')
  {
    forall t | 0 <= t < NINODE ensures c'[t].ref == Opens(ft[f := x], t) {
      OpensUpdate(ft, f, x, t);
    }
  }

  /** Changes that keep an entry open on the same inode. */
  lemma TableKeep(ft: seq<File>, c: seq<Inode>, f: nat, x: File)
    requires Table(ft, c) && f < NFILE && ft[f].ref > 0 && x.ref > 0 && x.inode && x.ip == ft[f].ip
    ensures Table(ft[f := x], c)
  {
    forall t | 0 <= t < NINODE ensures c[t].ref == Opens(ft[f := x], t) {
      OpensUpdate(ft, f, x, t);
    }
  }

  /** Files open for writing are not directories. */
  ghost predicate NoDirWritable(ft: seq<File>, icache: seq<Inode>, a: Abs)
  {
    forall f :: 0 <= f < |ft| && ft[f].ref > 0 && ft[f].writable && ft[f].ip < |icache| && icache[ft[f].ip].inum < |a.ino|
                ==> a.ino[icache[ft[f].ip].inum].typ != T_DIR
  }

  /** Inodes that are referenced in `c` have kept their types. */
  ghost predicate TypesKept(c: seq<Inode>, a: Abs, b: Abs)
  {
    |b.ino| == |a.ino| && forall s :: 0 <= s < |c| && c[s].ref > 0 && c[s].inum < |a.ino| ==> b.ino[c[s].inum].typ == a.ino[c[s].inum].typ
  }

  lemma NoDirSame(ft: seq<File>, c: seq<Inode>, c': seq<Inode>, a: Abs, b: Abs, s: int)
    requires Table(ft, c) && NoDirWritable(ft, c, a) && Took(c, c', s) && TypesKept(c, a, b)
    ensures NoDirWritable(ft, c', b)
  {
    forall f | 0 <= f < |ft| && ft[f].ref > 0 ensures ft[f].ip < NINODE && c[ft[f].ip].ref > 0 {
      OpenReferenced(ft, c, f);
    }
  }

  /** The file table at boot. */
  function NoFiles(): (ft: seq<File>)
    ensures |ft| == NFILE && forall f :: 0 <= f < NFILE ==> ft[f].ref == 0 && !ft[f].inode
  {
    seq(NFILE, _ => File(0, false, false, false, 0, 0))
  }

  lemma {:induction false} NoneOpen(ft: seq<File>, s: nat)
    requires forall f :: 0 <= f < |ft| ==> ft[f].ref == 0
    ensures Opens(ft, s) == 0
  {
    if ft != [] {
      NoneOpen(ft[..|ft| - 1], s);
    }
  }

  lemma TableEmpty(ft: seq<File>, c: seq<Inode>, a: Abs)
    requires |ft| == NFILE && (forall f :: 0 <= f < NFILE ==> ft[f].ref == 0 && !ft[f].inode) && |c| == NINODE && forall s :: 0 <= s < NINODE ==> c[s].ref == 0
    ensures Table(ft, c) && NoDirWritable(ft, c, a)
  {
    forall s | 0 <= s < NINODE ensures Opens(ft, s) == 0 {
      NoneOpen(ft, s);
    }
  }

  /** fileclose of the last reference: no other open file has the inode if it is freed. */
  lemma NoDirClose(sb: Super, ft: seq<File>, c: seq<Inode>, c': seq<Inode>, a: Abs, b: Abs, f: nat, x: File)
    requires |a.ino| == sb.ninodes && Cached(sb, a, c) && Table(ft, c) && NoDirWritable(ft, c, a) && f < NFILE && ft[f].ref > 0 && x.ref == 0 && !x.inode
    requires ft[f].ip < NINODE && Dropped(c, c', ft[f].ip)
    requires b == a || (c[ft[f].ip].ref == 1 && Freed(a, b, c[ft[f].ip].inum))
    ensures NoDirWritable(ft[f := x], c', b)
  {
    TableClose(ft, c, c', f, x);
    forall g | 0 <= g < NFILE && g != f && ft[g].ref > 0
      ensures ft[g].ip < NINODE && c[ft[g].ip].ref > 0 && c'[ft[g].ip].ref > 0 && c'[ft[g].ip].inum == c[ft[g].ip].inum
    {
      OpenReferenced(ft, c, g);
      OpenReferenced(ft[f := x], c', g);
    }
  }
}
