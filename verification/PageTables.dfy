/** Sv39 page tables over physical frames: the three-level tree as a flat map from virtual page numbers,
    and the single purpose each frame serves. */
module PageTables {
  import opened Blocks

  const PGSIZE := 4096
  const NPTE := 512             // entries in a page-table page
  const NPAGES := 0x400_0000    // MAXVA / PGSIZE

  type flags = bv10
  const PTE_V: flags := 1
  const PTE_R: flags := 2
  const PTE_U: flags := 16
  const PTE_RWX: flags := 14

  /** A page-table entry: the frame number and the ten flag bits. */
  datatype Pte = Pte(frame: nat, flags: flags)

  const NONE := Pte(0, 0)

  type PteArray = s: seq<Pte> | |s| == NPTE witness seq(NPTE, i => NONE)

  /** What a frame of memory holds: bytes, or the entries of a page-table page. */
  datatype Page = Bytes(bytes: seq<byte>) | Table(ptes: PteArray)

  /** What a frame is for.  A table or leaf names the one entry that refers to it; `Root` is a table that no
      entry refers to, `Fresh` a frame just allocated, and `Held` one that other parts of the kernel own and
      may lend to a page table. */
  datatype Use = Free | Fresh | Held | Root(level: nat) | Node(level: nat, parent: nat, index: nat)
               | Leaf(parent: nat, index: nat)

  datatype Memory = Memory(pages: seq<Page>, uses: seq<Use>)

  predicate Valid(e: Pte)
  {
    e.flags & PTE_V != 0
  }

  predicate IsTable(u: Use)
  {
    u.Root? || u.Node?
  }

  predicate Lent(m: Memory, f: nat)
  {
    f >= |m.uses| || m.uses[f].Held?
  }

  /** A valid entry of an upper table leads to the table one level down that names it; one of a bottom table
      leads to a leaf that names it, or to a lent frame. */
  ghost predicate EntryOk(m: Memory, f: nat, i: nat)
    requires f < |m.pages| == |m.uses| && m.pages[f].Table? && IsTable(m.uses[f]) && i < NPTE
  {
    var e, l := m.pages[f].ptes[i], m.uses[f].level;
    Valid(e) ==>
      if l == 0 then Lent(m, e.frame) || m.uses[e.frame] == Leaf(f, i)
      else e.flags == PTE_V && e.frame < |m.uses| && m.uses[e.frame] == Node(l - 1, f, i) && (l == 2 ==> i < 256)
  }

  /** Entry `i` of table `p`, `level` levels up, holds the frame `f`. */
  ghost predicate RefersTo(m: Memory, p: nat, i: nat, level: nat, f: nat)
  {
    && p < |m.pages| == |m.uses| && i < NPTE && IsTable(m.uses[p]) && m.uses[p].level == level
    && m.pages[p].Table? && Valid(m.pages[p].ptes[i]) && m.pages[p].ptes[i].frame == f
  }

  ghost predicate TablesOk(m: Memory)
    requires |m.pages| == |m.uses|
  {
    forall f :: 0 <= f < |m.uses| && IsTable(m.uses[f]) ==>
      m.uses[f].level <= (if m.uses[f].Root? then 2 else 1) && m.pages[f].Table?
  }

  ghost predicate EntriesOk(m: Memory, dead: set<(nat, nat)>)
    requires |m.pages| == |m.uses| && TablesOk(m)
  {
    forall f, i :: 0 <= f < |m.uses| && IsTable(m.uses[f]) && 0 <= i < NPTE && (f, i) !in dead ==> EntryOk(m, f, i)
  }

  ghost predicate UsesOk(m: Memory, dead: set<(nat, nat)>)
    requires |m.pages| == |m.uses|
  {
    && (forall f :: 0 <= f < |m.uses| && m.uses[f].Node? ==>
          var u := m.uses[f]; RefersTo(m, u.parent, u.index, u.level + 1, f) && (u.parent, u.index) !in dead)
    && (forall f :: 0 <= f < |m.uses| && m.uses[f].Leaf? ==>
          var u := m.uses[f]; RefersTo(m, u.parent, u.index, 0, f) && (u.parent, u.index) !in dead)
  }

  /** The page tables are trees that share nothing.  `dead` are entries about to be cleared. */
  ghost predicate Sound(m: Memory, dead: set<(nat, nat)>)
  {
    |m.pages| == |m.uses| && TablesOk(m) && EntriesOk(m, dead) && UsesOk(m, dead)
  }

  // ---------------------------------------------------------------- the flat map

  /** The index that level `level` of the walk uses. */
  function Px(level: nat, v: nat): (i: nat)
    requires level <= 2 && v < NPAGES
    ensures i < NPTE && (level == 2 ==> i < 256)
  {
    if level == 0 then v % NPTE else if level == 1 then v / NPTE % NPTE else v / 0x4_0000
  }

  function Child(m: Memory, f: nat, i: nat): Option<nat>
    requires i < NPTE
  {
    if f < |m.pages| && m.pages[f].Table? && Valid(m.pages[f].ptes[i]) then Some(m.pages[f].ptes[i].frame) else None
  }

  /** The table of level `level` on the way from `root` to page `v`. */
  function Path(m: Memory, root: nat, v: nat, level: nat): Option<nat>
    requires v < NPAGES && level <= 2
    decreases 2 - level
  {
    if level == 2 then Some(root) else
      var up := Path(m, root, v, level + 1);
      if up.None? then None else Child(m, up.value, Px(level + 1, v))
  }

  /** The mapping of page `v`: what the tree says, forgetting the tree. */
  function Lookup(m: Memory, root: nat, v: nat): Option<Pte>
    requires v < NPAGES
  {
    var low := Path(m, root, v, 0);
    if low.None? || Child(m, low.value, Px(0, v)).None? then None else Some(m.pages[low.value].ptes[Px(0, v)])
  }

  ghost predicate IsRoot(m: Memory, r: nat)
  {
    r < |m.uses| && m.uses[r] == Root(2)
  }

  lemma PathStep(m: Memory, root: nat, v: nat, level: nat)
    requires v < NPAGES && level < 2
    ensures Path(m, root, v, level) ==
            var up := Path(m, root, v, level + 1); if up.None? then None else Child(m, up.value, Px(level + 1, v))
  {
  }

  /** A walk that stops short has no bottom table. */
  lemma PathEnds(m: Memory, root: nat, v: nat, level: nat)
    requires v < NPAGES && level <= 2 && Path(m, root, v, level).None?
    ensures Path(m, root, v, 0).None?
    decreases level
  {
    if level > 0 {
      PathEnds(m, root, v, level - 1);
    }
  }

  /** Tables on a path are tables of their level. */
  lemma {:induction false} PathTable(m: Memory, root: nat, v: nat, level: nat)
    requires Sound(m, {}) && IsRoot(m, root) && v < NPAGES && level <= 2 && Path(m, root, v, level).Some?
    ensures var p := Path(m, root, v, level).value;
            && p < |m.uses| && IsTable(m.uses[p]) && m.uses[p].level == level && m.pages[p].Table?
            && (level < 2 ==>
                  && Path(m, root, v, level + 1).Some?
                  && m.uses[p] == Node(level, Path(m, root, v, level + 1).value, Px(level + 1, v)))
            && (level == 2 ==> p == root)
    decreases 2 - level
  {
    hide Px;
    if level < 2 {
      PathTable(m, root, v, level + 1);
      var up := Path(m, root, v, level + 1).value;
      assert EntryOk(m, up, Px(level + 1, v));
    }
  }

  /** Two walks that meet in a bottom table come from the same root and the same stretch of pages. */
  lemma PathsMeet(m: Memory, r: nat, v: nat, r': nat, v': nat)
    requires Sound(m, {}) && IsRoot(m, r) && IsRoot(m, r') && v < NPAGES && v' < NPAGES
    requires Path(m, r, v, 0).Some? && Path(m, r', v', 0) == Path(m, r, v, 0)
    ensures r == r' && v / NPTE == v' / NPTE
  {
    hide Sound, IsRoot, Path;
    PathTable(m, r, v, 0);
    PathTable(m, r', v', 0);
    PathTable(m, r, v, 1);
    PathTable(m, r', v', 1);
    PathTable(m, r, v, 2);
    PathTable(m, r', v', 2);
    Indices(v, v');
  }

  lemma Indices(v: nat, v': nat)
    requires v < NPAGES && v' < NPAGES && Px(1, v) == Px(1, v') && Px(2, v) == Px(2, v')
    ensures v / NPTE == v' / NPTE
  {
    assert v / 0x4_0000 == v / NPTE / NPTE && v' / 0x4_0000 == v' / NPTE / NPTE;
  }

  /** No two mappings share a frame that a page table owns. */
  lemma NoSharing(m: Memory, r: nat, v: nat, r': nat, v': nat)
    requires Sound(m, {}) && IsRoot(m, r) && IsRoot(m, r') && v < NPAGES && v' < NPAGES
    requires Lookup(m, r, v).Some? && Lookup(m, r', v').Some?
    requires Lookup(m, r, v).value.frame == Lookup(m, r', v').value.frame && !Lent(m, Lookup(m, r, v).value.frame)
    ensures r == r' && v == v'
  {
    hide Path, IsRoot;
    PathTable(m, r, v, 0);
    PathTable(m, r', v', 0);
    assert EntryOk(m, Path(m, r, v, 0).value, Px(0, v)) && EntryOk(m, Path(m, r', v', 0).value, Px(0, v'));
    PathsMeet(m, r, v, r', v');
  }

  /** At most one entry of all page tables refers to a frame, unless the frame is lent; and none refers to a free
      frame. */
  lemma OneReference(m: Memory, p: nat, i: nat, q: nat, j: nat)
    requires Sound(m, {}) && p < |m.uses| && q < |m.uses| && IsTable(m.uses[p]) && IsTable(m.uses[q]) && i < NPTE && j < NPTE
    requires Valid(m.pages[p].ptes[i]) && Valid(m.pages[q].ptes[j])
    requires m.pages[p].ptes[i].frame == m.pages[q].ptes[j].frame && !Lent(m, m.pages[p].ptes[i].frame)
    ensures p == q && i == j
    ensures m.uses[m.pages[p].ptes[i].frame].Node? || m.uses[m.pages[p].ptes[i].frame].Leaf?
  {
    assert EntryOk(m, p, i) && EntryOk(m, q, j);
  }

  // --------------------------------------------------------------- updates

  function WithEntry(m: Memory, p: nat, i: nat, e: Pte): Memory
    requires p < |m.pages| && m.pages[p].Table? && i < NPTE
  {
    m.(pages := m.pages[p := Table(m.pages[p].ptes[i := e])])
  }

  /** A zeroed frame attached below entry `i` of table `p`. */
  function WithTable(m: Memory, p: nat, i: nat, c: nat): Memory
    requires p < |m.pages| == |m.uses| && c < |m.pages| && c != p && m.pages[p].Table? && i < NPTE && IsTable(m.uses[p])
    requires m.uses[p].level > 0
  {
    var z := m.(pages := m.pages[c := Table(seq(NPTE, i => NONE))]);
    WithEntry(z, p, i, Pte(c, PTE_V)).(uses := m.uses[c := Node(m.uses[p].level - 1, p, i)])
  }

  lemma NewTableKeeps(m: Memory, p: nat, i: nat, c: nat)
    requires Sound(m, {}) && p < |m.uses| && IsTable(m.uses[p]) && 0 < m.uses[p].level && i < NPTE
    requires m.uses[p].level == 2 ==> i < 256
    requires c < |m.uses| && m.uses[c].Fresh? && !Valid(m.pages[p].ptes[i])
    ensures Sound(WithTable(m, p, i, c), {})
  {
    hide EntryOk, UsesOk, WithTable;
    var m' := WithTable(m, p, i, c);
    TabledUses(m, p, i, c);
    forall f, k | 0 <= f < |m'.uses| && IsTable(m'.uses[f]) && 0 <= k < NPTE
      ensures m'.pages[f].Table? && EntryOk(m', f, k)
    {
      TabledEntry(m, p, i, c, f, k);
    }
  }

  lemma TabledUses(m: Memory, p: nat, i: nat, c: nat)
    requires Sound(m, {}) && p < |m.uses| && IsTable(m.uses[p]) && 0 < m.uses[p].level && i < NPTE
    requires c < |m.uses| && m.uses[c].Fresh? && !Valid(m.pages[p].ptes[i])
    ensures var m' := WithTable(m, p, i, c); |m'.pages| == |m'.uses| == |m.uses| && TablesOk(m') && UsesOk(m', {})
  {
    hide EntryOk, EntriesOk;
  }

  lemma TabledEntry(m: Memory, p: nat, i: nat, c: nat, f: nat, k: nat)
    requires Sound(m, {}) && p < |m.uses| && IsTable(m.uses[p]) && 0 < m.uses[p].level && i < NPTE
    requires m.uses[p].level == 2 ==> i < 256
    requires c < |m.uses| && m.uses[c].Fresh? && !Valid(m.pages[p].ptes[i]) && k < NPTE
    requires var m' := WithTable(m, p, i, c); f < |m'.uses| && IsTable(m'.uses[f])
    ensures var m' := WithTable(m, p, i, c); f < |m'.pages| == |m'.uses| && m'.pages[f].Table? && EntryOk(m', f, k)
  {
    hide UsesOk;
    if f != c && (f, k) != (p, i) {
      assert EntryOk(m, f, k);
    }
  }

  /** Where a walk goes after a table is attached: the same way, or one step further into the empty table. */
  lemma {:induction false} NewTablePath(m: Memory, p: nat, i: nat, c: nat, r: nat, v: nat, level: nat)
    requires Sound(m, {}) && p < |m.uses| && IsTable(m.uses[p]) && 0 < m.uses[p].level && i < NPTE
    requires c < |m.uses| && m.uses[c].Fresh? && !Valid(m.pages[p].ptes[i])
    requires IsRoot(m, r) && v < NPAGES && level <= 2
    ensures var was, now := Path(m, r, v, level), Path(WithTable(m, p, i, c), r, v, level);
            if was.Some? then now == was else now.None? || now == Some(c)
    decreases 2 - level
  {
    hide Px, EntriesOk, UsesOk;
    if level < 2 {
      NewTablePath(m, p, i, c, r, v, level + 1);
      if Path(m, r, v, level + 1).Some? {
        PathTable(m, r, v, level + 1);
      }
    }
  }

  lemma NewTableLookup(m: Memory, p: nat, i: nat, c: nat, r: nat, v: nat)
    requires Sound(m, {}) && p < |m.uses| && IsTable(m.uses[p]) && 0 < m.uses[p].level && i < NPTE
    requires c < |m.uses| && m.uses[c].Fresh? && !Valid(m.pages[p].ptes[i])
    requires IsRoot(m, r) && v < NPAGES
    ensures Lookup(WithTable(m, p, i, c), r, v) == Lookup(m, r, v)
  {
    hide Px, EntriesOk, UsesOk, Path;
    NewTablePath(m, p, i, c, r, v, 0);
    if Path(m, r, v, 0).Some? {
      PathTable(m, r, v, 0);
    }
  }

  /** The mapping `e` put in an empty entry of a bottom table.  A fresh frame becomes the entry's leaf. */
  function WithLeaf(m: Memory, p: nat, i: nat, e: Pte): Memory
    requires p < |m.pages| == |m.uses| && m.pages[p].Table? && i < NPTE
  {
    var m' := WithEntry(m, p, i, e);
    if e.frame < |m.uses| && m.uses[e.frame].Fresh? then m'.(uses := m.uses[e.frame := Leaf(p, i)]) else m'
  }

  lemma NewLeafKeeps(m: Memory, p: nat, i: nat, e: Pte)
    requires Sound(m, {}) && p < |m.uses| && IsTable(m.uses[p]) && m.uses[p].level == 0 && i < NPTE
    requires !Valid(m.pages[p].ptes[i]) && Valid(e) && (Lent(m, e.frame) || m.uses[e.frame].Fresh?)
    ensures Sound(WithLeaf(m, p, i, e), {})
  {
    hide EntryOk, UsesOk, WithLeaf;
    var m' := WithLeaf(m, p, i, e);
    LeafUses(m, p, i, e);
    forall f, k | 0 <= f < |m'.uses| && IsTable(m'.uses[f]) && 0 <= k < NPTE
      ensures m'.pages[f].Table? && EntryOk(m', f, k)
    {
      LeafEntry(m, p, i, e, f, k);
    }
  }

  lemma LeafUses(m: Memory, p: nat, i: nat, e: Pte)
    requires Sound(m, {}) && p < |m.uses| && IsTable(m.uses[p]) && m.uses[p].level == 0 && i < NPTE
    requires !Valid(m.pages[p].ptes[i]) && Valid(e) && (Lent(m, e.frame) || m.uses[e.frame].Fresh?)
    ensures var m' := WithLeaf(m, p, i, e); |m'.pages| == |m'.uses| == |m.uses| && TablesOk(m') && UsesOk(m', {})
  {
    hide EntryOk, EntriesOk;
  }

  lemma LeafEntry(m: Memory, p: nat, i: nat, e: Pte, f: nat, k: nat)
    requires Sound(m, {}) && p < |m.uses| && IsTable(m.uses[p]) && m.uses[p].level == 0 && i < NPTE && k < NPTE
    requires !Valid(m.pages[p].ptes[i]) && Valid(e) && (Lent(m, e.frame) || m.uses[e.frame].Fresh?)
    requires var m' := WithLeaf(m, p, i, e); f < |m'.uses| && IsTable(m'.uses[f])
    ensures var m' := WithLeaf(m, p, i, e); f < |m'.pages| == |m'.uses| && m'.pages[f].Table? && EntryOk(m', f, k)
  {
    hide UsesOk;
    if (f, k) != (p, i) {
      assert EntryOk(m, f, k);
    }
  }

  /** The entry cleared.  A frame that was its leaf is `use` from now on. */
  function WithoutLeaf(m: Memory, p: nat, i: nat, use: Use): Memory
    requires p < |m.pages| == |m.uses| && m.pages[p].Table? && i < NPTE
  {
    var f := m.pages[p].ptes[i].frame;
    var m' := WithEntry(m, p, i, NONE);
    if f < |m.uses| && m.uses[f] == Leaf(p, i) then m'.(uses := m.uses[f := use]) else m'
  }

  lemma ClearLeafKeeps(m: Memory, p: nat, i: nat, use: Use)
    requires Sound(m, {}) && p < |m.uses| && IsTable(m.uses[p]) && m.uses[p].level == 0 && i < NPTE
    requires Valid(m.pages[p].ptes[i]) && (use.Free? || use.Fresh?)
    ensures Sound(WithoutLeaf(m, p, i, use), {})
  {
    hide EntryOk, UsesOk, WithoutLeaf;
    var m' := WithoutLeaf(m, p, i, use);
    ClearedUses(m, p, i, use);
    forall f, k | 0 <= f < |m'.uses| && IsTable(m'.uses[f]) && 0 <= k < NPTE
      ensures m'.pages[f].Table? && EntryOk(m', f, k)
    {
      ClearedEntry(m, p, i, use, f, k);
    }
  }

  lemma ClearedUses(m: Memory, p: nat, i: nat, use: Use)
    requires Sound(m, {}) && p < |m.uses| && IsTable(m.uses[p]) && m.uses[p].level == 0 && i < NPTE
    requires Valid(m.pages[p].ptes[i]) && (use.Free? || use.Fresh?)
    ensures var m' := WithoutLeaf(m, p, i, use); |m'.pages| == |m'.uses| == |m.uses| && TablesOk(m') && UsesOk(m', {})
  {
    hide EntryOk, EntriesOk;
    var m' := WithoutLeaf(m, p, i, use);
    forall g | 0 <= g < |m'.uses| && (m'.uses[g].Node? || m'.uses[g].Leaf?)
      ensures var u := m'.uses[g]; RefersTo(m', u.parent, u.index, if u.Node? then u.level + 1 else 0, g)
    {
      assert m'.uses[g] == m.uses[g];
    }
  }

  lemma ClearedEntry(m: Memory, p: nat, i: nat, use: Use, f: nat, k: nat)
    requires Sound(m, {}) && p < |m.uses| && IsTable(m.uses[p]) && m.uses[p].level == 0 && i < NPTE
    requires Valid(m.pages[p].ptes[i]) && (use.Free? || use.Fresh?) && k < NPTE
    requires var m' := WithoutLeaf(m, p, i, use); f < |m'.uses| && IsTable(m'.uses[f])
    ensures var m' := WithoutLeaf(m, p, i, use); f < |m'.pages| == |m'.uses| && m'.pages[f].Table? && EntryOk(m', f, k)
  {
    hide UsesOk;
    assert EntryOk(m, f, k);
  }

  /** Only the upper tables decide where a walk goes. */
  lemma {:induction false} LeafPath(m: Memory, m': Memory, p: nat, r: nat, v: nat, level: nat)
    requires Sound(m, {}) && p < |m.uses| && IsTable(m.uses[p]) && m.uses[p].level == 0
    requires |m'.pages| == |m.pages| && (forall f :: 0 <= f < |m.pages| && IsTable(m.uses[f]) && f != p ==> m'.pages[f] == m.pages[f])
    requires IsRoot(m, r) && v < NPAGES && level <= 2
    ensures Path(m', r, v, level) == Path(m, r, v, level)
    decreases 2 - level
  {
    hide Px, EntriesOk, UsesOk;
    if level < 2 {
      LeafPath(m, m', p, r, v, level + 1);
      if Path(m, r, v, level + 1).Some? {
        PathTable(m, r, v, level + 1);
      }
    }
  }

  /** Changing one entry of a bottom table changes one page of one address space. */
  lemma LeafLookup(m: Memory, m': Memory, root: nat, v: nat, e: Pte, r: nat, w: nat)
    requires Sound(m, {}) && IsRoot(m, root) && v < NPAGES && Path(m, root, v, 0).Some?
    requires var p := Path(m, root, v, 0).value;
             && |m'.pages| == |m.pages| && p < |m.pages| && m.pages[p].Table?
             && m'.pages[p] == Table(m.pages[p].ptes[Px(0, v) := e])
             && forall f :: 0 <= f < |m.pages| && IsTable(m.uses[f]) && f != p ==> m'.pages[f] == m.pages[f]
    requires IsRoot(m, r) && w < NPAGES
    ensures Lookup(m', r, w) ==
            if r == root && w == v then (if Valid(e) then Some(e) else None) else Lookup(m, r, w)
  {
    hide EntriesOk, UsesOk, Path;
    PathTable(m, root, v, 0);
    var p := Path(m, root, v, 0).value;
    LeafPath(m, m', p, r, w, 0);
    if Path(m, r, w, 0).Some? {
      PathTable(m, r, w, 0);
      if Path(m, r, w, 0).value == p {
        PathsMeet(m, root, v, r, w);
      }
    }
  }

  // ------------------------------------------------------- what stays the same

  /** Page `v` of `r` maps as before, to memory that holds what it held. */
  ghost predicate Same(m: Memory, m': Memory, r: nat, v: nat)
    requires v < NPAGES
  {
    && Lookup(m', r, v) == Lookup(m, r, v)
    && (Lookup(m, r, v).Some? ==>
          var f := Lookup(m, r, v).value.frame; f < |m.pages| && f < |m'.pages| ==> m'.pages[f] == m.pages[f])
  }

  /** Only pages a to b of `root` may differ: every other page of every address space, and all memory that
      other parts of the kernel hold, is as before. */
  ghost predicate Elsewhere(m: Memory, m': Memory, root: nat, a: nat, b: nat)
  {
    && |m.pages| == |m.uses| == |m'.pages| == |m'.uses|
    && (forall f :: 0 <= f < |m.uses| && m.uses[f].Root? ==> m'.uses[f] == m.uses[f])
    && (forall f :: 0 <= f < |m.uses| ==> (m.uses[f].Held? <==> m'.uses[f].Held?))
    && (forall f :: 0 <= f < |m.uses| && m.uses[f].Held? ==> m'.pages[f] == m.pages[f])
    && (forall r, v :: IsRoot(m, r) && 0 <= v < NPAGES && !(r == root && a <= v < b) ==> Same(m, m', r, v))
  }

  lemma ElsewhereTwice(m: Memory, m1: Memory, m2: Memory, root: nat, a: nat, b: nat)
    requires Elsewhere(m, m1, root, a, b) && Elsewhere(m1, m2, root, a, b)
    ensures Elsewhere(m, m2, root, a, b)
  {
    hide Lookup;
    forall r, v | IsRoot(m, r) && 0 <= v < NPAGES && !(r == root && a <= v < b)
      ensures Same(m, m2, r, v)
    {
      assert Same(m, m1, r, v) && Same(m1, m2, r, v);
    }
  }

  lemma ElsewhereWider(m: Memory, m': Memory, root: nat, a: nat, b: nat, a': nat, b': nat)
    requires Elsewhere(m, m', root, a, b) && (a < b ==> a' <= a && b <= b')
    ensures Elsewhere(m, m', root, a', b')
  {
    hide Same;
  }

  lemma ElsewhereNothing(m: Memory, root: nat)
    requires |m.pages| == |m.uses|
    ensures Elsewhere(m, m, root, 0, 0)
  {
  }

  lemma ElsewhereEmpty(m: Memory, root: nat, v: nat)
    requires |m.pages| == |m.uses|
    ensures Elsewhere(m, m, root, v, v)
  {
  }

  /** When nothing changed, it does not matter which address space was named. */
  lemma ElsewhereRoot(m: Memory, m': Memory, root: nat, root': nat)
    requires Elsewhere(m, m', root, 0, 0)
    ensures Elsewhere(m, m', root', 0, 0)
  {
    hide Same;
  }

  /** A mapped frame is lent or a leaf. */
  lemma MappedFrame(m: Memory, r: nat, v: nat)
    requires Sound(m, {}) && IsRoot(m, r) && v < NPAGES && Lookup(m, r, v).Some?
    ensures var f := Lookup(m, r, v).value.frame;
            Lent(m, f) || m.uses[f] == Leaf(Path(m, r, v, 0).value, Px(0, v))
  {
    hide Path, UsesOk;
    PathTable(m, r, v, 0);
    assert EntryOk(m, Path(m, r, v, 0).value, Px(0, v));
  }

  lemma NewTableElsewhere(m: Memory, p: nat, i: nat, c: nat, root: nat)
    requires Sound(m, {}) && p < |m.uses| && IsTable(m.uses[p]) && 0 < m.uses[p].level && i < NPTE
    requires c < |m.uses| && m.uses[c].Fresh? && !Valid(m.pages[p].ptes[i])
    ensures Elsewhere(m, WithTable(m, p, i, c), root, 0, 0)
  {
    hide EntriesOk, UsesOk, TablesOk, Lookup, Path;
    TablesOkAt(m, p);
    var m' := WithTable(m, p, i, c);
    forall r, v | IsRoot(m, r) && 0 <= v < NPAGES
      ensures Same(m, m', r, v)
    {
      NewTableLookup(m, p, i, c, r, v);
      if Lookup(m, r, v).Some? {
        MappedFrame(m, r, v);
      }
    }
  }

  lemma TablesOkAt(m: Memory, p: nat)
    requires Sound(m, {}) && p < |m.uses| && IsTable(m.uses[p])
    ensures m.pages[p].Table? && m.uses[p].level <= 2
  {
  }

  lemma NewLeafElsewhere(m: Memory, root: nat, v: nat, e: Pte)
    requires Sound(m, {}) && IsRoot(m, root) && v < NPAGES && Path(m, root, v, 0).Some? && Lookup(m, root, v).None?
    requires Valid(e) && (Lent(m, e.frame) || m.uses[e.frame].Fresh?)
    ensures var p := Path(m, root, v, 0).value;
            && p < |m.pages| == |m.uses| && m.pages[p].Table?
            && var m' := WithLeaf(m, p, Px(0, v), e);
            Sound(m', {}) && Elsewhere(m, m', root, v, v + 1) && Lookup(m', root, v) == Some(e)
  {
    hide EntriesOk, UsesOk, TablesOk, Lookup, Path, Px;
    PathTable(m, root, v, 0);
    var p := Path(m, root, v, 0).value;
    EmptyEntry(m, root, v);
    NewLeafKeeps(m, p, Px(0, v), e);
    var m' := WithLeaf(m, p, Px(0, v), e);
    LeafLookup(m, m', root, v, e, root, v);
    forall r, w | IsRoot(m, r) && 0 <= w < NPAGES && !(r == root && v <= w < v + 1)
      ensures Same(m, m', r, w)
    {
      LeafLookup(m, m', root, v, e, r, w);
      if Lookup(m, r, w).Some? {
        MappedFrame(m, r, w);
      }
    }
  }

  lemma EmptyEntry(m: Memory, root: nat, v: nat)
    requires v < NPAGES && Path(m, root, v, 0).Some?
    requires Path(m, root, v, 0).value < |m.pages| && m.pages[Path(m, root, v, 0).value].Table?
    ensures var e := m.pages[Path(m, root, v, 0).value].ptes[Px(0, v)];
            Lookup(m, root, v) == if Valid(e) then Some(e) else None
  {
  }

  /** The entry cleared and, if it was its leaf's and `free` says so, the frame given back with junk in it. */
  function Unmapped(m: Memory, p: nat, i: nat, free: bool, junk: Page): Memory
    requires p < |m.pages| == |m.uses| && m.pages[p].Table? && i < NPTE
  {
    var f, m' := m.pages[p].ptes[i].frame, WithoutLeaf(m, p, i, if free then Free else Fresh);
    if free && f < |m.pages| && f != p then m'.(pages := m'.pages[f := junk]) else m'
  }

  lemma UnmappedElsewhere(m: Memory, root: nat, v: nat, free: bool, junk: Page)
    requires Sound(m, {}) && IsRoot(m, root) && v < NPAGES && Lookup(m, root, v).Some?
    requires free ==> !Lent(m, Lookup(m, root, v).value.frame)
    ensures Path(m, root, v, 0).Some?
    ensures var p := Path(m, root, v, 0).value;
            && p < |m.pages| == |m.uses| && m.pages[p].Table?
            && var m' := Unmapped(m, p, Px(0, v), free, junk);
            Sound(m', {}) && Elsewhere(m, m', root, v, v + 1) && Lookup(m', root, v).None?
  {
    hide EntriesOk, UsesOk, TablesOk, Path, Px;
    PathTable(m, root, v, 0);
    var p, i := Path(m, root, v, 0).value, Px(0, v);
    var m' := Unmapped(m, p, i, free, junk);
    MappedFrame(m, root, v);
    ClearLeafKeeps(m, p, i, if free then Free else Fresh);
    if free {
      DataKeeps(WithoutLeaf(m, p, i, Free), m.pages[p].ptes[i].frame, junk);
    }
    UnmappedSame(m, m', root, v, free, junk);
  }

  lemma UnmappedSame(m: Memory, m': Memory, root: nat, v: nat, free: bool, junk: Page)
    requires Sound(m, {}) && IsRoot(m, root) && v < NPAGES && Lookup(m, root, v).Some? && Path(m, root, v, 0).Some?
    requires var p := Path(m, root, v, 0).value;
             p < |m.pages| && m.pages[p].Table? && m' == Unmapped(m, p, Px(0, v), free, junk)
    requires free ==> !Lent(m, Lookup(m, root, v).value.frame)
    ensures Elsewhere(m, m', root, v, v + 1) && Lookup(m', root, v).None?
  {
    hide EntriesOk, UsesOk, TablesOk, Path, Px;
    PathTable(m, root, v, 0);
    MappedFrame(m, root, v);
    LeafLookup(m, m', root, v, NONE, root, v);
    forall r, w | IsRoot(m, r) && 0 <= w < NPAGES && !(r == root && v <= w < v + 1)
      ensures Same(m, m', r, w)
    {
      LeafLookup(m, m', root, v, NONE, r, w);
      if Lookup(m, r, w).Some? {
        MappedFrame(m, r, w);
        if Lookup(m, r, w).value.frame == Lookup(m, root, v).value.frame && free {
          NoSharing(m, r, w, root, v);
        }
      }
    }
  }

  /** What a frame that is no table holds does not matter to the tables. */
  lemma DataKeeps(m: Memory, f: nat, page: Page)
    requires Sound(m, {}) && f < |m.uses| && !IsTable(m.uses[f])
    ensures Sound(m.(pages := m.pages[f := page]), {})
  {
    var m' := m.(pages := m.pages[f := page]);
    forall g, k | 0 <= g < |m'.uses| && IsTable(m'.uses[g]) && 0 <= k < NPTE
      ensures EntryOk(m', g, k)
    {
      assert EntryOk(m, g, k);
    }
  }

  /** A frame that nothing refers to may change hands between the pool and its holder. */
  lemma LooseKeeps(m: Memory, f: nat, use: Use, page: Page, root: nat)
    requires Sound(m, {}) && f < |m.uses| && (m.uses[f].Free? || m.uses[f].Fresh?) && (use.Free? || use.Fresh?)
    ensures var m' := Memory(m.pages[f := page], m.uses[f := use]);
            Sound(m', {}) && Elsewhere(m, m', root, 0, 0)
  {
    hide EntriesOk, UsesOk, TablesOk, EntryOk, Elsewhere;
    var m' := Memory(m.pages[f := page], m.uses[f := use]);
    LooseSound(m, m', f);
    LooseSame(m, m', f, root);
  }

  lemma LooseSound(m: Memory, m': Memory, f: nat)
    requires Sound(m, {}) && f < |m.uses| && (m.uses[f].Free? || m.uses[f].Fresh?)
    requires |m'.pages| == |m'.uses| == |m.uses| && (m'.uses[f].Free? || m'.uses[f].Fresh?)
    requires forall g :: 0 <= g < |m.uses| && g != f ==> m'.pages[g] == m.pages[g] && m'.uses[g] == m.uses[g]
    ensures Sound(m', {})
  {
    hide EntryOk;
    forall g, k | 0 <= g < |m'.uses| && IsTable(m'.uses[g]) && 0 <= k < NPTE
      ensures EntryOk(m', g, k)
    {
      assert EntryOk(m, g, k);
      LooseEntry(m, m', f, g, k);
    }
    LooseUses(m, m', f);
  }

  lemma LooseUses(m: Memory, m': Memory, f: nat)
    requires |m.pages| == |m.uses| && UsesOk(m, {}) && f < |m.uses| && (m.uses[f].Free? || m.uses[f].Fresh?)
    requires |m'.pages| == |m'.uses| == |m.uses| && (m'.uses[f].Free? || m'.uses[f].Fresh?)
    requires forall g :: 0 <= g < |m.uses| && g != f ==> m'.pages[g] == m.pages[g] && m'.uses[g] == m.uses[g]
    ensures UsesOk(m', {})
  {
  }

  lemma LooseEntry(m: Memory, m': Memory, f: nat, g: nat, k: nat)
    requires |m'.pages| == |m'.uses| == |m.uses| == |m.pages| && TablesOk(m) && TablesOk(m')
    requires f < |m.uses| && (m.uses[f].Free? || m.uses[f].Fresh?) && (m'.uses[f].Free? || m'.uses[f].Fresh?)
    requires forall g :: 0 <= g < |m.uses| && g != f ==> m'.pages[g] == m.pages[g] && m'.uses[g] == m.uses[g]
    requires g < |m.uses| && IsTable(m'.uses[g]) && k < NPTE && IsTable(m.uses[g]) && EntryOk(m, g, k)
    ensures EntryOk(m', g, k)
  {
  }

  lemma LooseSame(m: Memory, m': Memory, f: nat, root: nat)
    requires Sound(m, {}) && f < |m.uses| && (m.uses[f].Free? || m.uses[f].Fresh?)
    requires |m'.pages| == |m'.uses| == |m.uses| && !m'.uses[f].Held?
    requires forall g :: 0 <= g < |m.uses| && g != f ==> m'.pages[g] == m.pages[g] && m'.uses[g] == m.uses[g]
    ensures Elsewhere(m, m', root, 0, 0)
  {
    hide EntriesOk, UsesOk, TablesOk, Path, Px;
    forall r, v | IsRoot(m, r) && 0 <= v < NPAGES
      ensures Same(m, m', r, v)
    {
      LoosePath(m, m', f, r, v, 0);
      if Path(m, r, v, 0).Some? { PathTable(m, r, v, 0); }
      if Lookup(m, r, v).Some? { MappedFrame(m, r, v); }
    }
  }

  lemma {:induction false} LoosePath(m: Memory, m': Memory, f: nat, r: nat, v: nat, level: nat)
    requires Sound(m, {}) && f < |m.uses| && !IsTable(m.uses[f]) && IsRoot(m, r) && v < NPAGES && level <= 2
    requires |m'.pages| == |m.pages| && forall g :: 0 <= g < |m.uses| && g != f ==> m'.pages[g] == m.pages[g]
    ensures Path(m', r, v, level) == Path(m, r, v, level)
    decreases 2 - level
  {
    hide Px, EntriesOk, UsesOk;
    if level < 2 {
      LoosePath(m, m', f, r, v, level + 1);
      if Path(m, r, v, level + 1).Some? {
        PathTable(m, r, v, level + 1);
      }
    }
  }

  /** A zeroed frame is an address space with nothing mapped. */
  lemma NewRootKeeps(m: Memory, f: nat, root: nat)
    requires Sound(m, {}) && f < |m.uses| && m.uses[f].Fresh?
    ensures var m' := Memory(m.pages[f := Table(seq(NPTE, i => NONE))], m.uses[f := Root(2)]);
            && Sound(m', {}) && Elsewhere(m, m', root, 0, 0) && IsRoot(m', f)
            && forall v :: 0 <= v < NPAGES ==> Lookup(m', f, v).None?
  {
    var m' := Memory(m.pages[f := Table(seq(NPTE, i => NONE))], m.uses[f := Root(2)]);
    forall g, k | 0 <= g < |m'.uses| && IsTable(m'.uses[g]) && 0 <= k < NPTE
      ensures EntryOk(m', g, k)
    {
      if g != f {
        assert EntryOk(m, g, k);
      }
    }
    LooseSame(m, m', f, root);
    forall v | 0 <= v < NPAGES
      ensures Lookup(m', f, v).None?
    {
      assert Path(m', f, v, 2) == Some(f) && Path(m', f, v, 1).None? && Path(m', f, v, 0).None?;
    }
  }

  // ---------------------------------------------------------- taking a tree apart

  /** The frame whose entry refers to table `g`, or `g` itself when none does. */
  function Up(uses: seq<Use>, g: nat): nat
  {
    if g < |uses| && uses[g].Node? then uses[g].parent else g
  }

  /** The top of the tree that table `g` is in. */
  function Top(uses: seq<Use>, g: nat): nat
  {
    Up(uses, Up(uses, g))
  }

  /** The child below entry `i` of `f` made a tree of its own; the entry is dead until it is cleared. */
  lemma DetachKeeps(m: Memory, dead: set<(nat, nat)>, f: nat, i: nat)
    requires Sound(m, dead) && f < |m.uses| && IsTable(m.uses[f]) && 0 < m.uses[f].level && i < NPTE && (f, i) !in dead
    requires Valid(m.pages[f].ptes[i])
    ensures var c := m.pages[f].ptes[i].frame;
            && c < |m.uses| && m.uses[c] == Node(m.uses[f].level - 1, f, i) && m.pages[f].ptes[i].flags == PTE_V
            && Sound(m.(uses := m.uses[c := Root(m.uses[f].level - 1)]), dead + {(f, i)})
  {
    assert EntryOk(m, f, i);
    var c := m.pages[f].ptes[i].frame;
    var m', dead' := m.(uses := m.uses[c := Root(m.uses[f].level - 1)]), dead + {(f, i)};
    forall g, k | 0 <= g < |m'.uses| && IsTable(m'.uses[g]) && 0 <= k < NPTE && (g, k) !in dead'
      ensures EntryOk(m', g, k)
    {
      assert EntryOk(m, g, k);
    }
    assert UsesOk(m', dead') by {
      hide EntriesOk;
      forall g | 0 <= g < |m'.uses| && (m'.uses[g].Node? || m'.uses[g].Leaf?)
        ensures (m'.uses[g].parent, m'.uses[g].index) !in dead'
      {
        assert g != c;
      }
    }
  }

  lemma ClearDeadKeeps(m: Memory, dead: set<(nat, nat)>, f: nat, i: nat)
    requires Sound(m, dead + {(f, i)}) && f < |m.uses| && IsTable(m.uses[f]) && i < NPTE && (f, i) !in dead
    ensures m.pages[f].Table? && Sound(WithEntry(m, f, i, NONE), dead)
  {
    var m' := WithEntry(m, f, i, NONE);
    forall g, k | 0 <= g < |m'.uses| && IsTable(m'.uses[g]) && 0 <= k < NPTE && (g, k) !in dead
      ensures EntryOk(m', g, k)
    {
      if (g, k) != (f, i) {
        assert EntryOk(m, g, k);
      }
    }
  }

  lemma FreeTableKeeps(m: Memory, dead: set<(nat, nat)>, f: nat, page: Page)
    requires Sound(m, dead) && f < |m.uses| && m.uses[f].Root? && forall i :: 0 <= i < NPTE ==> !Valid(m.pages[f].ptes[i])
    ensures Sound(Memory(m.pages[f := page], m.uses[f := Free]), dead)
  {
    var m' := Memory(m.pages[f := page], m.uses[f := Free]);
    forall g, k | 0 <= g < |m'.uses| && IsTable(m'.uses[g]) && 0 <= k < NPTE && (g, k) !in dead
      ensures EntryOk(m', g, k)
    {
      assert EntryOk(m, g, k);
    }
  }

  /** Whatever is below a detached child was below the table it came from. */
  lemma TopDetached(m: Memory, dead: set<(nat, nat)>, f: nat, c: nat, g: nat)
    requires Sound(m, dead) && f < |m.uses| && m.uses[f].Root? && c < |m.uses| && m.uses[c].Node? && m.uses[c].parent == f
    requires g < |m.uses| && IsTable(m.uses[g]) && Top(m.uses[c := Root(m.uses[c].level)], g) == c
    ensures Top(m.uses, g) == f
  {
    hide EntriesOk;
  }

  /** Trees that were not touched still have the same top. */
  lemma TopKept(m: Memory, m': Memory, dead: set<(nat, nat)>, g: nat)
    requires Sound(m', dead) && |m.uses| == |m'.uses| && g < |m.uses| && IsTable(m'.uses[g])
    requires forall h :: 0 <= h < |m.uses| && IsTable(m'.uses[h]) ==> m'.uses[h] == m.uses[h]
    ensures Top(m'.uses, g) == Top(m.uses, g)
  {
    hide EntriesOk;
  }

  /** Every table on a walk is in the tree of the root it started from. */
  lemma PathTop(m: Memory, root: nat, v: nat, level: nat)
    requires Sound(m, {}) && IsRoot(m, root) && v < NPAGES && level <= 2 && Path(m, root, v, level).Some?
    ensures Path(m, root, v, level).value < |m.uses| && Top(m.uses, Path(m, root, v, level).value) == root
  {
    hide Sound, Path, Px;
    PathTable(m, root, v, level);
    if level < 2 {
      PathTable(m, root, v, level + 1);
      if level < 1 {
        PathTable(m, root, v, 2);
      }
    }
  }

  /** Where page tables of other address spaces are untouched, so is what they map. */
  lemma {:induction false} PathKept(m: Memory, m': Memory, root: nat, r: nat, v: nat, level: nat)
    requires Sound(m, {}) && IsRoot(m, r) && r != root && v < NPAGES && level <= 2 && |m'.pages| == |m.pages|
    requires forall f :: 0 <= f < |m.uses| && IsTable(m.uses[f]) && Top(m.uses, f) != root ==> m'.pages[f] == m.pages[f]
    ensures Path(m', r, v, level) == Path(m, r, v, level)
    decreases 2 - level
  {
    hide Px, EntriesOk, UsesOk, Top;
    if level < 2 {
      PathKept(m, m', root, r, v, level + 1);
      if Path(m, r, v, level + 1).Some? {
        PathTable(m, r, v, level + 1);
        PathTop(m, r, v, level + 1);
      }
    }
  }
}
