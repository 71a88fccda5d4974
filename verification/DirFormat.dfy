/** struct dirent: directories as sequences of entries, and as maps from names to inode numbers. */
module DirFormat {
  import opened Bytes
  import opened Strings
  import opened FsContent

  const DIRENT := 16
  const DIRSIZ := 14

  /** File names as the kernel compares them: up to DIRSIZ characters. */
  type Name = s: seq<byte> | |s| <= DIRSIZ && forall k :: 0 <= k < |s| ==> s[k] != 0

  const DOT: Name := [46]
  const DOTDOT: Name := [46, 46]

  datatype Ent = Ent(inum: u16, name: Name)

  /** The entry that unlink leaves behind. */
  const CLEARED: Ent := Ent(0, [])

  /** The name in a character buffer. */
  function NameOf(s: seq<byte>): (n: Name)
  {
    Cut(s, DIRSIZ)
  }

  function DecodeEnt(s: seq<byte>): (e: Ent)
    requires |s| == DIRENT
  {
    Ent(U16(s, 0), NameOf(s[2..]))
  }

  /** A directory entry as dirlink builds it. */
  function EncodeEnt(inum: u16, name: seq<byte>): (s: seq<byte>)
    ensures |s| == DIRENT
  {
    LE16(inum) + Padded(name, DIRSIZ)
  }

  lemma EntRoundTrip(inum: u16, name: seq<byte>)
    ensures DecodeEnt(EncodeEnt(inum, name)) == Ent(inum, NameOf(name))
  {
    var s := EncodeEnt(inum, name);
    assert s[2..] == Padded(name, DIRSIZ);
    assert U16(s, 0) == U16(LE16(inum), 0);
  }

  /** The cleared entry that unlink writes. */
  lemma ZeroEnt()
    ensures DecodeEnt(seq(DIRENT, _ => 0)) == CLEARED
  {
    var s: seq<byte> := seq(DIRENT, _ => 0);
    StrLenIs(s[2..], DIRSIZ, 0);
  }

  /** The entries of a directory file. */
  function Ents(c: seq<byte>): (e: seq<Ent>)
    ensures |e| == |c| / DIRENT
  {
    seq(|c| / DIRENT, k requires 0 <= k < |c| / DIRENT => DecodeEnt(c[DIRENT * k..DIRENT * (k + 1)]))
  }

  /** `e` takes the place of entry `k`, or is added at the end. */
  function SetEnt(ents: seq<Ent>, k: nat, e: Ent): (r: seq<Ent>)
    requires k <= |ents|
  {
    if k < |ents| then ents[k := e] else ents + [e]
  }

  lemma OverwriteSlice(c: seq<byte>, k: nat, s: seq<byte>, j: nat)
    requires |c| % DIRENT == 0 && |s| == DIRENT && k <= |c| / DIRENT && (j < |c| / DIRENT || j == k)
    ensures DIRENT * (j + 1) <= |Overwrite(c, DIRENT * k, s)|
    ensures Overwrite(c, DIRENT * k, s)[DIRENT * j..DIRENT * (j + 1)] == if j == k then s else c[DIRENT * j..DIRENT * (j + 1)]
  {
  }

  lemma OverwriteSize(c: seq<byte>, k: nat, s: seq<byte>)
    requires |c| % DIRENT == 0 && |s| == DIRENT && k <= |c| / DIRENT
    ensures |Overwrite(c, DIRENT * k, s)| == if k < |c| / DIRENT then |c| else |c| + DIRENT
  {
  }

  lemma OverwriteEnt(c: seq<byte>, k: nat, s: seq<byte>, j: nat)
    requires |c| % DIRENT == 0 && |s| == DIRENT && k <= |c| / DIRENT && (j < |c| / DIRENT || j == k)
    ensures j < |Ents(Overwrite(c, DIRENT * k, s))| && j < |SetEnt(Ents(c), k, DecodeEnt(s))|
    ensures Ents(Overwrite(c, DIRENT * k, s))[j] == SetEnt(Ents(c), k, DecodeEnt(s))[j]
  {
    hide DecodeEnt;
    OverwriteSlice(c, k, s, j);
  }

  /** Writing sixteen bytes at an entry's offset replaces just that entry. */
  lemma EntsOverwrite(c: seq<byte>, k: nat, s: seq<byte>)
    requires |c| % DIRENT == 0 && |s| == DIRENT && k <= |c| / DIRENT
    ensures Ents(Overwrite(c, DIRENT * k, s)) == SetEnt(Ents(c), k, DecodeEnt(s))
    ensures |Overwrite(c, DIRENT * k, s)| == if k < |c| / DIRENT then |c| else |c| + DIRENT
  {
    OverwriteSize(c, k, s);
    hide DecodeEnt, Overwrite, Ents;
    var d, e := Ents(Overwrite(c, DIRENT * k, s)), SetEnt(Ents(c), k, DecodeEnt(s));
    assert |d| == |e|;
    forall j | 0 <= j < |d| ensures d[j] == e[j] {
      OverwriteEnt(c, k, s, j);
    }
  }

  predicate Named(e: Ent, name: Name)
  {
    e.inum != 0 && e.name == name
  }

  /** Where dirlookup finds `name`: its first entry, or the end. */
  function Where(ents: seq<Ent>, name: Name): (k: nat)
    ensures k <= |ents| && (k < |ents| ==> Named(ents[k], name)) && forall j :: 0 <= j < k ==> !Named(ents[j], name)
  {
    if ents == [] || Named(ents[0], name) then 0
    else
      var k := Where(ents[1..], name);
      assert forall j :: 0 < j <= k ==> ents[j] == ents[1..][j - 1] || j == |ents|;
      1 + k
  }

  /** The directory as a map: the inode number of `name`, 0 if there is none. */
  function Find(ents: seq<Ent>, name: Name): (i: u16)
  {
    var k := Where(ents, name);
    if k < |ents| then ents[k].inum else 0
  }

  /** No two live entries have the same name. */
  ghost predicate DistinctNames(ents: seq<Ent>)
  {
    forall j, k :: 0 <= j < k < |ents| && ents[j].inum != 0 && ents[k].inum != 0 ==> ents[j].name != ents[k].name
  }

  /** With distinct names the map is determined by any live entry. */
  lemma FindIs(ents: seq<Ent>, k: nat)
    requires DistinctNames(ents) && k < |ents| && ents[k].inum != 0
    ensures Where(ents, ents[k].name) == k && Find(ents, ents[k].name) == ents[k].inum
  {
  }

  /** dirlink into a free slot or at the end inserts into the map. */
  lemma FindInsert(ents: seq<Ent>, k: nat, inum: u16, name: Name)
    requires k <= |ents| && (k < |ents| ==> ents[k].inum == 0) && inum != 0
    requires DistinctNames(ents) && Find(ents, name) == 0
    ensures DistinctNames(SetEnt(ents, k, Ent(inum, name)))
    ensures forall x: Name :: Find(SetEnt(ents, k, Ent(inum, name)), x) == if x == name then inum else Find(ents, x)
  {
    var r := SetEnt(ents, k, Ent(inum, name));
    forall x: Name ensures Find(r, x) == if x == name then inum else Find(ents, x) {
      var j := if x == name then k else Where(ents, x);
      if j < |ents| || x == name {
        FindIs(r, j);
      }
    }
  }

  /** Clearing an entry, as unlink does, removes its name from the map. */
  lemma FindRemove(ents: seq<Ent>, k: nat)
    requires DistinctNames(ents) && k < |ents| && ents[k].inum != 0
    ensures DistinctNames(ents[k := CLEARED])
    ensures forall x: Name :: Find(ents[k := CLEARED], x) == if x == ents[k].name then 0 else Find(ents, x)
  {
    var r := ents[k := CLEARED];
    forall x: Name ensures Find(r, x) == if x == ents[k].name then 0 else Find(ents, x) {
      var j := Where(ents, x);
      if x != ents[k].name && j < |ents| {
        FindIs(r, j);
      }
    }
  }

  /** The first free entry, or the end. */
  function FirstFree(ents: seq<Ent>): (k: nat)
    ensures k <= |ents| && (k < |ents| ==> ents[k].inum == 0) && forall j :: 0 <= j < k ==> ents[j].inum != 0
  {
    if ents == [] || ents[0].inum == 0 then 0
    else
      var k := FirstFree(ents[1..]);
      assert forall j :: 0 < j <= k ==> ents[j] == ents[1..][j - 1] || j == |ents|;
      1 + k
  }
}
