/** string.c: the byte loops that directories and buffers rely on. */
module Strings {
  import opened Bytes

  /** The length of a C string: up to the first NUL, and at most `n`. */
  function StrLen(s: seq<byte>, n: nat): (k: nat)
    ensures k <= n && k <= |s| && (k == n || k == |s| || s[k] == 0)
    ensures forall j :: 0 <= j < k ==> s[j] != 0
  {
    if n == 0 || s == [] || s[0] == 0 then 0
    else
      var k := StrLen(s[1..], n - 1);
      assert forall j :: 0 < j <= k ==> s[j] == s[1..][j - 1];
      1 + k
  }

  lemma StrLenIs(s: seq<byte>, n: nat, k: nat)
    requires k <= n && k <= |s| && (k == n || k == |s| || s[k] == 0) && forall j :: 0 <= j < k ==> s[j] != 0
    ensures StrLen(s, n) == k
  {
  }

  /** The bytes of a C string. */
  function Cut(s: seq<byte>, n: nat): (r: seq<byte>)
    ensures |r| == StrLen(s, n)
  {
    s[..StrLen(s, n)]
  }

  /** `n` bytes can be looked at one after the other without running past the end of the string. */
  predicate Terminated(s: seq<byte>, n: nat)
  {
    n <= |s| || 0 in s
  }

  /** strncmp: zero exactly for strings that agree in their first `n` characters, otherwise the
      difference at the first place where they do not. */
  method Strncmp(p: seq<byte>, q: seq<byte>, n: nat) returns (r: int)
    requires Terminated(p, n) && Terminated(q, n)
    ensures r == 0 <==> Cut(p, n) == Cut(q, n)
    ensures r != 0 ==> exists k :: 0 <= k < n && k < |p| && k < |q| && p[..k] == q[..k] && r == Minus(p[k], q[k])
  {
    var k := 0;
    while k < n && p[k] != 0 && p[k] == q[k]
      invariant k <= n && k <= |p| && k <= |q| && p[..k] == q[..k]
      invariant forall j :: 0 <= j < k ==> p[j] != 0 && q[j] == p[j]
      invariant k < n ==> k < |p| && k < |q|
    {
      k := k + 1;
    }
    if k == n {
      return 0;
    }
    assert p[k] == q[k] ==> StrLen(p, n) == StrLen(q, n) == k;
    assert p[k] != q[k] ==> k < StrLen(p, n) || k < StrLen(q, n);
    assert k < StrLen(p, n) ==> Cut(p, n)[k] == p[k];
    assert k < StrLen(q, n) ==> Cut(q, n)[k] == q[k];
    return Minus(p[k], q[k]);
  }

  /** The difference of two characters, which are unsigned. */
  function Minus(x: byte, y: byte): (r: int)
    ensures r == 0 <==> x == y
  {
    var a: int, b: int := x, y;
    a - b
  }

  /** What strncpy leaves in `n` bytes: the string, padded with NULs. */
  function Padded(s: seq<byte>, n: nat): (r: seq<byte>)
    ensures |r| == n && Cut(r, n) == Cut(s, n)
  {
    var c := Cut(s, n);
    var r := c + seq(n - |c|, _ => 0);
    StrLenIs(r, n, |c|);
    r
  }

  /** Byte `j` after strncpy has filled the first `k`. */
  function CopiedAt(o: seq<byte>, t: seq<byte>, len: nat, k: nat, j: nat): (x: byte)
    requires j < |o| && len <= |t|
  {
    if j >= k then o[j] else if j < len then t[j] else 0
  }

  predicate Copied(o: seq<byte>, b: seq<byte>, t: seq<byte>, len: nat, k: nat)
  {
    |b| == |o| && len <= |t| && forall j :: 0 <= j < |o| ==> b[j] == CopiedAt(o, t, len, k, j)
  }

  lemma CopiedAll(o: seq<byte>, b: seq<byte>, t: seq<byte>, n: nat)
    requires n <= |o| && Terminated(t, n) && Copied(o, b, t, StrLen(t, n), n)
    ensures b == Padded(t, n) + o[n..]
  {
    hide StrLen;
    var p := Padded(t, n);
    forall j | 0 <= j < |o| ensures b[j] == (p + o[n..])[j] {
      assert b[j] == CopiedAt(o, t, StrLen(t, n), n, j);
    }
  }

  /** strncpy. */
  method Strncpy(s: array<byte>, t: seq<byte>, n: nat)
    requires n <= s.Length && Terminated(t, n)
    modifies s
    ensures s[..] == Padded(t, n) + old(s[..])[n..]
  {
    hide StrLen;
    ghost var o, len := s[..], StrLen(t, n);
    var k, more := 0, true;
    while k < n && more
      invariant 0 <= k <= n && k <= len + 1 && (more <==> k <= len) && Copied(o, s[..], t, len, k)
    {
      ghost var b := s[..];
      s[k] := t[k];
      assert s[..] == b[k := t[k]];
      more := t[k] != 0;
      k := k + 1;
    }
    while k < n
      invariant len <= k <= n && Copied(o, s[..], t, len, k)
    {
      ghost var b := s[..];
      s[k] := 0;
      assert s[..] == b[k := 0];
      k := k + 1;
    }
    CopiedAll(o, s[..], t, n);
  }

  /** The bytes `lo..hi` of the source at `s` have arrived at `d`; everything else is as in `o`. */
  predicate Moved(o: seq<byte>, b: seq<byte>, d: nat, s: nat, lo: nat, hi: nat)
  {
    |b| == |o| && d + hi <= |o| && s + hi <= |o| && forall j :: 0 <= j < |o| ==> b[j] == MovedAt(o, d, s, lo, hi, j)
  }

  function MovedAt(o: seq<byte>, d: nat, s: nat, lo: nat, hi: nat, j: nat): (x: byte)
    requires j < |o| && s + hi <= |o|
  {
    if d + lo <= j < d + hi then o[s + (j - d)] else o[j]
  }

  lemma MovedAll(o: seq<byte>, b: seq<byte>, d: nat, s: nat, n: nat)
    requires Moved(o, b, d, s, 0, n)
    ensures b == Splice(o, d, o[s..s + n])
  {
    var r := Splice(o, d, o[s..s + n]);
    forall j | 0 <= j < |o| ensures b[j] == r[j] {
      assert b[j] == MovedAt(o, d, s, 0, n, j);
    }
  }

  /** memmove within one region: the `n` bytes at `d` become those that were at `s`, even if they overlap. */
  method Memmove(a: array<byte>, d: nat, s: nat, n: nat)
    requires d + n <= a.Length && s + n <= a.Length
    modifies a
    ensures a[..] == Splice(old(a[..]), d, old(a[..])[s..s + n])
  {
    ghost var o := a[..];
    if s < d && s + n > d {
      var k := n;
      while k > 0
        invariant 0 <= k <= n && Moved(o, a[..], d, s, k, n)
      {
        ghost var b := a[..];
        k := k - 1;
        assert b[s + k] == MovedAt(o, d, s, k + 1, n, s + k);
        a[d + k] := a[s + k];
        assert a[..] == b[d + k := o[s + k]];
      }
    } else {
      var k := 0;
      while k < n
        invariant 0 <= k <= n && Moved(o, a[..], d, s, 0, k)
      {
        ghost var b := a[..];
        assert b[s + k] == MovedAt(o, d, s, 0, k, s + k);
        a[d + k] := a[s + k];
        assert a[..] == b[d + k := o[s + k]];
        k := k + 1;
      }
    }
    MovedAll(o, a[..], d, s, n);
  }
}
