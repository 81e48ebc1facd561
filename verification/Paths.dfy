/** Path names: the cursor that takes a path apart, and the walk through the directories it names. */
module Paths {
  import opened Blocks
  import opened Strings
  import opened Inodes
  import opened Contents
  import opened Files
  import opened Directories

  const SLASH: byte := 47
  const T_DIR := 1
  const ROOTINO := 1

  // ------------------------------------------------------------- components

  /** The pieces between slashes, empty ones included. */
  function Split(path: seq<byte>): (ps: seq<seq<byte>>)
    ensures |ps| > 0
  {
    if path == [] then [[]] else
      var rest := Split(path[1..]);
      if path[0] == SLASH then [[]] + rest else [[path[0]] + rest[0]] + rest[1..]
  }

  function NonEmpty(ps: seq<seq<byte>>): (cs: seq<seq<byte>>)
    ensures forall k :: 0 <= k < |cs| ==> cs[k] != []
  {
    if ps == [] then [] else (if ps[0] == [] then [] else [ps[0]]) + NonEmpty(ps[1..])
  }

  /** A path's components: its non-empty pieces. */
  function Components(path: seq<byte>): seq<seq<byte>>
  {
    NonEmpty(Split(path))
  }

  function Slashes(n: nat): (s: seq<byte>)
    ensures |s| == n && forall i :: 0 <= i < n ==> s[i] == SLASH
  {
    seq(n, i => SLASH)
  }

  /** Leading slashes do not count. */
  lemma {:induction false} ComponentsSlashes(path: seq<byte>, n: nat)
    requires n <= |path| && forall i :: 0 <= i < n ==> path[i] == SLASH
    ensures Components(path) == Components(path[n..])
  {
    if n > 0 {
      assert Split(path) == [[]] + Split(path[1..]);
      assert Split(path)[1..] == Split(path[1..]);
      assert Components(path) == Components(path[1..]);
      ComponentsSlashes(path[1..], n - 1);
      assert path[1..][n - 1..] == path[n..];
    }
  }

  lemma {:induction false} SplitPiece(path: seq<byte>, n: nat)
    requires n <= |path| && SLASH !in path[..n] && (n < |path| ==> path[n] == SLASH)
    ensures Split(path) == [path[..n]] + if n < |path| then Split(path[n + 1..]) else []
  {
    if n > 0 {
      assert path[0] == path[..n][0] && path[1..][..n - 1] == path[..n][1..];
      SplitPiece(path[1..], n - 1);
      assert n < |path| ==> path[1..][n..] == path[n + 1..];
      assert path[..n] == [path[0]] + path[1..][..n - 1];
    }
  }

  /** The first component is the leading run without slashes; the others are those of what follows. */
  lemma ComponentsPiece(path: seq<byte>, n: nat)
    requires 0 < n <= |path| && SLASH !in path[..n] && (n < |path| ==> path[n] == SLASH)
    ensures Components(path) == [path[..n]] + Components(path[n..])
  {
    hide NonEmpty, Split;
    SplitPiece(path, n);
    if n < |path| {
      SplitPiece(path[n..], 0);
      assert path[n..][1..] == path[n + 1..];
      NonEmptyCons(path[..n], Split(path[n + 1..]));
      NonEmptyCons(path[n..][..0], Split(path[n + 1..]));
    } else {
      assert path[n..] == [];
      ComponentsNone();
      NonEmptyCons(path[..n], []);
      NonEmptyNil();
    }
  }

  lemma NonEmptyCons(p: seq<byte>, ps: seq<seq<byte>>)
    ensures NonEmpty([p] + ps) == if p == [] then NonEmpty(ps) else [p] + NonEmpty(ps)
  {
    assert ([p] + ps)[1..] == ps;
  }

  lemma NonEmptyNil()
    ensures NonEmpty([]) == []
  {
  }

  /** Names separated by one or more slashes; the last may be followed by any number. */
  function Join(names: seq<seq<byte>>, gaps: seq<nat>): seq<byte>
    requires |gaps| == |names|
  {
    if names == [] then [] else
      names[0] + Slashes(if |names| == 1 then gaps[0] else gaps[0] + 1) + Join(names[1..], gaps[1..])
  }

  /** Any non-empty slash-free names come back from the path that spells them, however many slashes
      separate them. */
  lemma {:induction false} ComponentsJoin(lead: nat, names: seq<seq<byte>>, gaps: seq<nat>)
    requires |gaps| == |names| && forall k :: 0 <= k < |names| ==> names[k] != [] && SLASH !in names[k]
    ensures Components(Slashes(lead) + Join(names, gaps)) == names
    decreases |names|
  {
    var path := Slashes(lead) + Join(names, gaps);
    ComponentsSlashes(path, lead);
    assert path[lead..] == Join(names, gaps);
    if names != [] {
      var j, n, gap := Join(names, gaps), |names[0]|, if |names| == 1 then gaps[0] else gaps[0] + 1;
      assert j[..n] == names[0] && (n < |j| ==> j[n] == SLASH);
      assert j[n..] == Slashes(gap) + Join(names[1..], gaps[1..]);
      ComponentsPiece(j, n);
      ComponentsJoin(gap, names[1..], gaps[1..]);
    }
  }

  // ---------------------------------------------------------------- skipelem

  function At(path: seq<byte>, p: nat): byte
  {
    if p < |path| then path[p] else 0
  }

  /** skipelem from position `p`: nothing when no component is left; otherwise the next one, cut to
      DIRSIZ, in `name`, and the position of the one after it, or of the end. */
  method Skipelem(path: seq<byte>, p: nat, name: array<byte>) returns (next: Option<nat>)
    requires 0 !in path && p <= |path| && name.Length == DIRSIZ
    modifies name
    ensures next.None? <==> Components(path[p..]) == []
    ensures next.Some? ==>
              && p < next.value <= |path|
              && Cut(name[..], DIRSIZ) == Cut(Components(path[p..])[0], DIRSIZ)
              && Components(path[next.value..]) == Components(path[p..])[1..]
              && (At(path, next.value) == 0 <==> |Components(path[p..])| == 1)
  {
    hide Components;
    var q := SkipSlashes(path, p);
    if At(path, q) == 0 {
      assert path[q..] == [];
      ComponentsNone();
      return None;
    }
    var s := q;
    while At(path, q) != SLASH && At(path, q) != 0
      invariant s <= q <= |path| && SLASH !in path[s..q] && (q == s ==> At(path, q) != SLASH && At(path, q) != 0)
      decreases |path| - q
    {
      assert path[s..q + 1] == path[s..q] + [path[q]];
      q := q + 1;
    }
    CopyName(path[s..q], name);
    ghost var rest := path[s..];
    assert rest[..q - s] == path[s..q] && rest[q - s..] == path[q..];
    ComponentsPiece(rest, q - s);
    var r := SkipSlashes(path, q);
    LastComponent(path[r..]);
    return Some(r);
  }

  /** Past the slashes at `p`. */
  method SkipSlashes(path: seq<byte>, p: nat) returns (q: nat)
    requires p <= |path|
    ensures p <= q <= |path| && At(path, q) != SLASH && Components(path[q..]) == Components(path[p..])
  {
    hide Components;
    q := p;
    while At(path, q) == SLASH
      invariant p <= q <= |path| && forall i :: p <= i < q ==> path[i] == SLASH
      decreases |path| - q
    {
      q := q + 1;
    }
    ComponentsSlashes(path[p..], q - p);
    assert path[p..][q - p..] == path[q..];
  }

  lemma ComponentsNone()
    ensures Components([]) == []
  {
    assert Split([]) == [[]];
    assert NonEmpty([[]]) == NonEmpty([[]][1..]);
  }

  /** A path that does not start with a slash has a component exactly when it is not empty. */
  lemma LastComponent(path: seq<byte>)
    requires path != [] ==> path[0] != SLASH
    ensures Components(path) == [] <==> path == []
  {
    if path == [] {
      ComponentsNone();
    } else {
      assert Split(path)[0] != [];
    }
  }

  /** The component copied into the name buffer, whole with a NUL or cut to DIRSIZ bytes. */
  method CopyName(piece: seq<byte>, name: array<byte>)
    requires 0 !in piece && name.Length == DIRSIZ
    modifies name
    ensures Cut(name[..], DIRSIZ) == Cut(piece, DIRSIZ)
  {
    var len := if |piece| >= DIRSIZ then DIRSIZ else |piece|;
    for i := 0 to len
      invariant name[..i] == piece[..i]
    {
      name[i] := piece[i];
    }
    if len < DIRSIZ {
      name[len] := 0;
    }
    assert name[..][..len] == piece[..len];
    assert 0 !in piece[..len];
    CutIs(name[..], DIRSIZ, len);
    CutIs(piece, DIRSIZ, len);
  }

  // ------------------------------------------------------------------- namex

  /** Directories are well formed: whole entries, and every name leads to an inode. */
  ghost predicate Tree(fs: Fs, types: seq<int>)
  {
    && Shape(fs) && |types| == |fs.inodes| > ROOTINO
    && forall i :: 0 <= i < |types| && types[i] == T_DIR ==> DirectoryAt(fs, i)
  }

  ghost predicate DirectoryAt(fs: Fs, i: nat)
    requires Shape(fs) && i < |fs.inodes|
  {
    && fs.inodes[i].size <= MAXBYTES && IsDirectory(Content(fs, i))
    && forall name :: name in Names(Content(fs, i)) ==> Names(Content(fs, i))[name] < |fs.inodes|
  }

  /** One step of a walk: the entry the directory `i` has under the cut name. */
  ghost function Step(fs: Fs, types: seq<int>, i: nat, name: seq<byte>): (r: Option<nat>)
    requires Tree(fs, types) && i < |types|
    ensures r.Some? ==> r.value < |types|
  {
    if types[i] != T_DIR then None else
      assert DirectoryAt(fs, i);
      var names := Names(Content(fs, i));
      if Cut(name, DIRSIZ) in names then Some(names[Cut(name, DIRSIZ)]) else None
  }

  /** The fold of lookups along `names` from inode `i`. */
  ghost function Walk(fs: Fs, types: seq<int>, i: nat, names: seq<seq<byte>>): (r: Option<nat>)
    requires Tree(fs, types) && i < |types|
    ensures r.Some? ==> r.value < |types|
    decreases |names|
  {
    if names == [] then Some(i) else
      var next := Step(fs, types, i, names[0]);
      if next.None? then None else Walk(fs, types, next.value, names[1..])
  }

  /** The parent of the last name: the fold over all names but that one, which must end in a directory. */
  ghost function WalkParent(fs: Fs, types: seq<int>, i: nat, names: seq<seq<byte>>): (r: Option<nat>)
    requires Tree(fs, types) && i < |types|
  {
    if names == [] then None else
      var dir := Walk(fs, types, i, names[..|names| - 1]);
      if dir.Some? && types[dir.value] == T_DIR then dir else None
  }

  ghost function Resolved(fs: Fs, types: seq<int>, i: nat, names: seq<seq<byte>>, parent: bool): Option<nat>
    requires Tree(fs, types) && i < |types|
  {
    if parent then WalkParent(fs, types, i, names) else Walk(fs, types, i, names)
  }

  /** A walk that goes on takes one step and then does what is left. */
  lemma ResolvedStep(fs: Fs, types: seq<int>, i: nat, names: seq<seq<byte>>, parent: bool)
    requires Tree(fs, types) && i < |types| && names != [] && (parent ==> |names| > 1)
    ensures Resolved(fs, types, i, names, parent) ==
            var next := Step(fs, types, i, names[0]);
            if next.None? then None else Resolved(fs, types, next.value, names[1..], parent)
  {
    hide Tree, Step;
    if parent {
      var init := names[..|names| - 1];
      assert init[0] == names[0] && init[1..] == names[1..][..|names| - 2];
    }
  }

  /** namex, the body of namei and nameiparent: the fold of lookups over all of the path's components, or over
      all but the last, which is then left in `name`. */
  method Namex(fs: FileSystem, types: seq<int>, cwd: nat, path: seq<byte>, parent: bool, name: array<byte>)
      returns (r: Option<nat>)
    requires fs.Valid() && Tree(fs.State(), types) && cwd < |types| && 0 !in path && name.Length == DIRSIZ
    modifies fs`blocks, fs`inodes, fs`owner, fs`loose, fs`journal, name
    ensures fs.Valid() && fs.State() == old(fs.State())
    ensures var start := if At(path, 0) == SLASH then ROOTINO else cwd;
            r == Resolved(fs.State(), types, start, Components(path), parent)
    ensures parent && r.Some? ==>
              Components(path) != [] && Cut(name[..], DIRSIZ) == Cut(Components(path)[|Components(path)| - 1], DIRSIZ)
  {
    hide Tree, DirectoryAt, Content, Components, FileSystem.Valid, Walk, WalkParent, IsDirectory, Cut;
    ghost var st := fs.State();
    TreeShape(st, types);
    var ip: nat := if At(path, 0) == SLASH then ROOTINO else cwd;
    ghost var start: nat, done: nat := ip, 0;
    var p := 0;
    assert path[0..] == path;
    while true
      invariant fs.Valid() && fs.State() == st && p <= |path| && ip < |types|
      invariant 0 <= done <= |Components(path)| && Components(path[p..]) == Components(path)[done..]
      invariant Resolved(st, types, start, Components(path), parent) ==
                Resolved(st, types, ip, Components(path[p..]), parent)
      decreases |path| - p
    {
      ghost var names := Components(path[p..]);
      var next := Skipelem(path, p, name);
      if next.None? { break; }
      p := next.value;
      if types[ip] != T_DIR {
        NotADirectory(st, types, ip, names, parent);
        return None;
      }
      if parent && At(path, p) == 0 {
        ParentOfLast(st, types, ip, names);
        return Some(ip);
      }
      var found, _ := LookupIn(fs, types, ip, name[..]);
      StepCut(st, types, ip, name[..], names[0]);
      ResolvedStep(st, types, ip, names, parent);
      if found.None? { return None; }
      ip := found.value;
      done := done + 1;
    }
    NothingLeft(st, types, ip);
    if parent { return None; }
    return Some(ip);
  }

  lemma TreeShape(fs: Fs, types: seq<int>)
    requires Tree(fs, types)
    ensures |types| == |fs.inodes| > ROOTINO
  {
  }

  lemma NothingLeft(fs: Fs, types: seq<int>, i: nat)
    requires Tree(fs, types) && i < |types|
    ensures Walk(fs, types, i, []) == Some(i) && WalkParent(fs, types, i, []) == None
  {
  }

  lemma ParentOfLast(fs: Fs, types: seq<int>, i: nat, names: seq<seq<byte>>)
    requires Tree(fs, types) && i < |types| && |names| == 1 && types[i] == T_DIR
    ensures WalkParent(fs, types, i, names) == Some(i)
  {
    hide Tree, Step;
    assert names[..0] == [];
  }

  lemma NotADirectory(fs: Fs, types: seq<int>, i: nat, names: seq<seq<byte>>, parent: bool)
    requires Tree(fs, types) && i < |types| && names != [] && types[i] != T_DIR
    ensures Resolved(fs, types, i, names, parent) == None
  {
    hide Tree;
    if parent && |names| > 1 {
      ResolvedStep(fs, types, i, names, parent);
    }
  }

  lemma StepCut(fs: Fs, types: seq<int>, i: nat, a: seq<byte>, b: seq<byte>)
    requires Tree(fs, types) && i < |types| && Cut(a, DIRSIZ) == Cut(b, DIRSIZ)
    ensures Step(fs, types, i, a) == Step(fs, types, i, b)
  {
  }

  /** dirlookup of one path component in a directory of the tree. */
  method LookupIn(fs: FileSystem, types: seq<int>, dp: nat, name: seq<byte>) returns (r: Option<nat>, poff: nat)
    requires fs.Valid() && Tree(fs.State(), types) && dp < |types| && types[dp] == T_DIR && |name| == DIRSIZ
    modifies fs`blocks, fs`inodes, fs`owner, fs`loose, fs`journal
    ensures fs.Valid() && fs.State() == old(fs.State())
    ensures r == Step(fs.State(), types, dp, name)
  {
    hide Content, FileSystem.Valid, IsDirectory, Cut;
    assert DirectoryAt(fs.State(), dp);
    r, poff := Dirlookup(fs, dp, name);
  }
}
