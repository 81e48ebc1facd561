/** File names: fixed-size, NUL-padded byte fields compared and copied a byte at a time. */
module Strings {
  import opened Blocks

  const DIRSIZ := 14

  /** The memory `s` can be read as a string of at most `n` bytes: it has that many, or a NUL sooner. */
  predicate Readable(s: seq<byte>, n: nat)
  {
    n <= |s| || 0 in s
  }

  /** The string at `s` cut to `n` bytes: everything before the first NUL among them. */
  function Cut(s: seq<byte>, n: nat): (t: seq<byte>)
    ensures |t| <= n && |t| <= |s| && t == s[..|t|] && 0 !in t
    ensures |t| < n && |t| < |s| ==> s[|t|] == 0
  {
    if n == 0 || s == [] || s[0] == 0 then [] else [s[0]] + Cut(s[1..], n - 1)
  }

  /** A cut is the longest NUL-free prefix, so these facts determine it. */
  lemma {:induction false} CutIs(s: seq<byte>, n: nat, k: nat)
    requires k <= |s| && k <= n && 0 !in s[..k]
    requires k == n || k == |s| || s[k] == 0
    ensures Cut(s, n) == s[..k]
  {
    if k > 0 {
      assert s[0] == s[..k][0];
      assert s[1..][..k - 1] == s[..k][1..];
      CutIs(s[1..], n - 1, k - 1);
      assert s[..k] == [s[0]] + s[1..][..k - 1];
    }
  }

  function Difference(a: int, b: int): int { a - b }

  /** strncmp: the difference of the two strings at their first differing byte, the NUL included. */
  method Strncmp(p: seq<byte>, q: seq<byte>, n: nat) returns (r: int)
    requires Readable(p, n) && Readable(q, n)
    ensures r == 0 <==> Cut(p, n) == Cut(q, n)
    ensures r != 0 ==>
              exists d :: 0 <= d < n && d < |p| && d < |q| && p[..d] == q[..d] && 0 !in p[..d] && r == Difference(p[d], q[d])
  {
    var i := 0;
    while i < n && p[i] != 0 && p[i] == q[i]
      invariant i <= n && i <= |p| && i <= |q| && p[..i] == q[..i] && 0 !in p[..i]
      invariant i < n ==> i < |p| && i < |q|
    {
      assert p[..i + 1] == p[..i] + [p[i]] && q[..i + 1] == q[..i] + [q[i]];
      i := i + 1;
      if i < n {
        NotYet(p, n, i);
        NotYet(q, n, i);
      }
    }
    if i == n {
      CutIs(p, n, n);
      CutIs(q, n, n);
      return 0;
    }
    r := Difference(p[i], q[i]);
    if r == 0 {
      CutIs(p, n, i);
      CutIs(q, n, i);
    } else {
      DifferAt(p, q, n, i);
    }
  }

  /** A readable string whose first `i` bytes hold no NUL goes on. */
  lemma NotYet(s: seq<byte>, n: nat, i: nat)
    requires Readable(s, n) && i <= |s| && i < n && forall j :: 0 <= j < i ==> s[j] != 0
    ensures i < |s|
  {
  }

  lemma DifferAt(p: seq<byte>, q: seq<byte>, n: nat, d: nat)
    requires d < n && d < |p| && d < |q| && p[..d] == q[..d] && 0 !in p[..d] && p[d] != q[d]
    ensures Cut(p, n) != Cut(q, n)
  {
    hide Cut;
    CutReaches(p, n, d);
    CutReaches(q, n, d);
  }

  /** A cut reaches past a NUL-free prefix, and takes the byte after it unless that byte is NUL. */
  lemma CutReaches(p: seq<byte>, n: nat, d: nat)
    requires d < n && d < |p| && 0 !in p[..d]
    ensures if p[d] == 0 then |Cut(p, n)| == d else |Cut(p, n)| > d && Cut(p, n)[d] == p[d]
  {
    var a := Cut(p, n);
    assert forall j :: 0 <= j < d ==> p[..d][j] == p[j];
    assert forall j :: 0 <= j < |a| ==> a[j] == p[j] && a[j] in a;
  }

  /** What strncpy leaves in the field: the string, then NULs to the end. */
  function Padded(s: seq<byte>, n: nat): (t: seq<byte>)
    ensures |t| == n
  {
    var c := Cut(s, n);
    c + seq(n - |c|, i => 0)
  }

  lemma CutPadded(s: seq<byte>, n: nat)
    ensures Cut(Padded(s, n), n) == Cut(s, n)
  {
    var c := Cut(s, n);
    assert Padded(s, n)[..|c|] == c;
    CutIs(Padded(s, n), n, |c|);
  }

  /** strncpy: the destination's first `n` bytes hold the padded string and the rest is untouched. */
  method Strncpy(s: array<byte>, t: seq<byte>, n: int)
    requires n <= s.Length && (n > 0 ==> Readable(t, n))
    modifies s
    ensures n <= 0 ==> s[..] == old(s[..])
    ensures n > 0 ==> s[..n] == Padded(t, n) && s[n..] == old(s[n..])
  {
    hide Cut, Padded, Readable;
    var i, go := 0, true;
    while i < n && go
      invariant 0 <= i <= |t| && (if n > 0 then i <= n else i == 0)
      invariant forall j :: 0 <= j < i ==> s[j] == t[j]
      invariant forall j :: i <= j < s.Length ==> s[j] == old(s[j])
      invariant forall j :: 0 <= j < (if go then i else i - 1) ==> t[j] != 0
      invariant !go ==> 0 < i && t[i - 1] == 0
      decreases n - i, go
    {
      NotYet(t, n, i);
      s[i] := t[i];
      go := s[i] != 0;
      i := i + 1;
    }
    if n <= 0 { return; }
    ghost var k := if go then n else i - 1;
    while i < n
      invariant k <= i <= n && forall j :: 0 <= j < k ==> s[j] == t[j]
      invariant forall j :: n <= j < s.Length ==> s[j] == old(s[j])
      invariant forall j :: k <= j < i ==> s[j] == 0
    {
      s[i] := 0;
      i := i + 1;
    }
    PaddedIs(t, n, k, s[..n]);
  }

  lemma PaddedIs(t: seq<byte>, n: nat, k: nat, r: seq<byte>)
    requires k <= n == |r| && k <= |t| && (k == n || (k < |t| && t[k] == 0)) && forall j :: 0 <= j < k ==> t[j] != 0
    requires (forall j :: 0 <= j < k ==> r[j] == t[j]) && (forall j :: k <= j < n ==> r[j] == 0)
    ensures r == Padded(t, n)
  {
    hide Cut;
    CutIs(t, n, k);
  }
}
