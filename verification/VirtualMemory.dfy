/** The frame pool and the operations on user address spaces. */
module VirtualMemory {
  import opened Blocks
  import opened PageTables

  const MAXVA := 0x40_0000_0000

  /** A page filled with one byte, as kalloc, kfree and memset leave it. */
  function Filled(x: byte): Page
  {
    Bytes(seq(PGSIZE, i => x))
  }

  function Zeroed(): Page
  {
    Table(seq(NPTE, i => NONE))
  }

  function PgRoundUp(sz: nat): (r: nat)
    ensures r % PGSIZE == 0 && sz <= r < sz + PGSIZE
  {
    (sz + PGSIZE - 1) / PGSIZE * PGSIZE
  }

  /** The number of pages that `sz` bytes take. */
  function Pages(sz: nat): nat
  {
    PgRoundUp(sz) / PGSIZE
  }

  ghost function After(free: seq<nat>, k: nat): nat
  {
    if k + 1 < |free| then free[k + 1] else 0
  }

  /** The list threaded through the free frames, 0 ending it. */
  ghost predicate FreeList(head: nat, next: seq<nat>, free: seq<nat>)
  {
    && head == (if |free| == 0 then 0 else free[0])
    && forall k :: 0 <= k < |free| ==> 0 < free[k] < |next| && next[free[k]] == After(free, k)
  }

  /** The pool holds exactly the free frames, each once; frames below `lo` belong to the kernel image. */
  ghost predicate Pool(lo: nat, head: nat, next: seq<nat>, free: seq<nat>, uses: seq<Use>)
  {
    && 0 < lo && |next| == |uses| && FreeList(head, next, free)
    && (forall j, k :: 0 <= j < k < |free| ==> free[j] != free[k])
    && (forall f :: 0 <= f < |uses| ==> (f in free <==> uses[f].Free?))
    && (forall f :: 0 <= f < |uses| && f < lo ==> uses[f].Held?)
  }

  lemma HeadIs(lo: nat, head: nat, next: seq<nat>, free: seq<nat>, uses: seq<Use>)
    requires Pool(lo, head, next, free, uses)
    ensures |next| == |uses| && (head == 0 <==> free == []) && (free != [] ==> head == free[0])
  {
  }

  lemma TakeFirst(lo: nat, head: nat, next: seq<nat>, free: seq<nat>, uses: seq<Use>)
    requires Pool(lo, head, next, free, uses) && head != 0
    ensures free != [] && lo <= head < |uses| && uses[head].Free?
    ensures Pool(lo, next[head], next, free[1..], uses[head := Fresh])
  {
    assert head in free;
    ListRest(head, next, free);
    var rest := free[1..];
    forall j, k | 0 <= j < k < |rest|
      ensures rest[j] != rest[k]
    {
      assert free[j + 1] != free[k + 1];
    }
    forall f | 0 <= f < |uses|
      ensures f in rest <==> f in free && f != head
    {
      if f in rest {
        var k :| 0 <= k < |rest| && rest[k] == f;
        assert free[k + 1] == f && free[0] != free[k + 1];
      }
      assert free == [head] + rest;
    }
  }

  lemma ListRest(head: nat, next: seq<nat>, free: seq<nat>)
    requires FreeList(head, next, free) && head != 0
    ensures free != [] && head < |next| && FreeList(next[head], next, free[1..])
  {
    var rest := free[1..];
    assert next[free[0]] == After(free, 0);
    forall k | 0 <= k < |rest|
      ensures 0 < rest[k] < |next| && next[rest[k]] == After(rest, k)
    {
      assert rest[k] == free[k + 1] && next[free[k + 1]] == After(free, k + 1);
    }
  }

  lemma PutFirst(lo: nat, head: nat, next: seq<nat>, free: seq<nat>, uses: seq<Use>, f: nat)
    requires Pool(lo, head, next, free, uses) && lo <= f < |uses| && !uses[f].Free?
    ensures Pool(lo, f, next[f := head], [f] + free, uses[f := Free])
  {
    hide FreeList;
    assert f !in free;
    ListPut(head, next, free, f);
    var free' := [f] + free;
    assert forall k :: 0 <= k < |free| ==> free[k] in free;
    assert forall g :: g in free' <==> g == f || g in free;
  }

  lemma ListPut(head: nat, next: seq<nat>, free: seq<nat>, f: nat)
    requires FreeList(head, next, free) && 0 < f < |next| && f !in free
    ensures FreeList(f, next[f := head], [f] + free)
  {
    var free', next' := [f] + free, next[f := head];
    forall k | 0 <= k < |free'|
      ensures 0 < free'[k] < |next'| && next'[free'[k]] == After(free', k)
    {
      if k > 0 {
        assert free'[k] == free[k - 1] && free[k - 1] in free && next[free[k - 1]] == After(free, k - 1);
      }
    }
  }

  lemma PoolRetag(lo: nat, head: nat, next: seq<nat>, free: seq<nat>, uses: seq<Use>, f: nat, use: Use)
    requires Pool(lo, head, next, free, uses) && lo <= f < |uses| && !uses[f].Free? && !use.Free?
    ensures Pool(lo, head, next, free, uses[f := use])
  {
  }

  /** The frames taken from the pool and not yet put to use are as before, but for those from a to b, which have
      been; nothing has been written to any of them. */
  ghost predicate FreshBut(m: Memory, m': Memory, a: nat, b: nat)
  {
    && |m'.uses| == |m.uses| == |m.pages| == |m'.pages|
    && forall f :: 0 <= f < |m.uses| ==>
         && (m'.uses[f].Fresh? <==> m.uses[f].Fresh? && !(a <= f < b))
         && (m.uses[f].Fresh? ==> m'.pages[f] == m.pages[f])
  }

  lemma FreshNothing(m: Memory, f: nat)
    requires |m.pages| == |m.uses|
    ensures FreshBut(m, m, f, f)
  {
  }

  lemma RootStays(m: Memory, m': Memory, root: nat)
    requires exists r, a, b :: Elsewhere(m, m', r, a, b)
    requires IsRoot(m, root)
    ensures IsRoot(m', root)
  {
  }

  lemma ValidBit(f: nat, perm: flags)
    ensures PageTables.Valid(Pte(f, perm | PTE_V))
  {
  }

  predicate Mappable(m: Memory, f: nat)
  {
    Lent(m, f) || m.uses[f].Fresh?
  }

  /** The `n` pages from `v0` are mapped to the frames from `f` on. */
  ghost predicate Mapped(m: Memory, root: nat, v0: nat, n: nat, f: nat, perm: flags)
  {
    v0 + n <= NPAGES && forall v :: v0 <= v < v0 + n ==> Lookup(m, root, v) == Some(Pte(f + (v - v0), perm | PTE_V))
  }

  lemma MappedStill(m: Memory, m': Memory, root: nat, v0: nat, n: nat, f: nat, perm: flags)
    requires Mapped(m, root, v0, n, f, perm) && IsRoot(m, root) && Elsewhere(m, m', root, 0, 0)
    ensures Mapped(m', root, v0, n, f, perm)
  {
    hide Lookup;
    forall v | v0 <= v < v0 + n
      ensures Lookup(m', root, v) == Lookup(m, root, v)
    {
      assert Same(m, m', root, v);
    }
  }

  lemma MappedMore(m: Memory, m': Memory, root: nat, v0: nat, n: nat, f: nat, perm: flags)
    requires Mapped(m, root, v0, n, f, perm) && IsRoot(m, root) && v0 + n < NPAGES
    requires Elsewhere(m, m', root, v0 + n, v0 + n + 1) && Lookup(m', root, v0 + n) == Some(Pte(f + n, perm | PTE_V))
    ensures Mapped(m', root, v0, n + 1, f, perm)
  {
    hide Lookup;
    forall v | v0 <= v < v0 + n
      ensures Lookup(m', root, v) == Lookup(m, root, v)
    {
      assert Same(m, m', root, v);
    }
  }

  /** What a bottom table says of a page is what the page maps to. */
  lemma EntryThere(m: Memory, root: nat, v: nat)
    requires Sound(m, {}) && IsRoot(m, root) && v < NPAGES && Path(m, root, v, 0).Some?
    ensures var p := Path(m, root, v, 0).value;
            && p < |m.pages| && m.pages[p].Table? && Px(0, v) < |m.pages[p].ptes|
            && (Lookup(m, root, v).Some? <==> PageTables.Valid(m.pages[p].ptes[Px(0, v)]))
  {
    hide EntriesOk, UsesOk, TablesOk, Px, Path;
    PathTable(m, root, v, 0);
  }

  lemma NoPath(m: Memory, root: nat, v: nat)
    requires v < NPAGES && Path(m, root, v, 0).None?
    ensures Lookup(m, root, v).None?
  {
  }

  lemma StillUnmapped(m: Memory, m': Memory, root: nat, a: nat, b: nat, v: nat)
    requires Elsewhere(m, m', root, a, b) && IsRoot(m, root) && v < NPAGES && !(a <= v < b)
    ensures Lookup(m', root, v) == Lookup(m, root, v)
  {
    hide Lookup;
    assert Same(m, m', root, v);
  }

  lemma StillMappable(m: Memory, m': Memory, root: nat, a: nat, b: nat, f: nat, g: nat, h: nat)
    requires Elsewhere(m, m', root, a, b) && FreshBut(m, m', f, g) && Mappable(m, h) && !(f <= h < g)
    ensures Mappable(m', h)
  {
    hide Same;
  }

  /** Mapping one more page leaves what the pages mapped before it hold. */
  lemma FreshTwice(m: Memory, m1: Memory, m2: Memory, root: nat, v0: nat, n: nat, f: nat, perm: flags, a: nat, b: nat)
    requires FreshBut(m, m1, f, f + n) && Mapped(m1, root, v0, n, f, perm) && IsRoot(m1, root)
    requires Elsewhere(m1, m2, root, a, b) && (a < b ==> v0 + n <= a)
    requires if a < b then FreshBut(m1, m2, f + n, f + n + 1) else FreshBut(m1, m2, 0, 0)
    ensures FreshBut(m, m2, f, if a < b then f + n + 1 else f + n)
  {
    hide Lookup;
    forall g | f <= g < f + n && g < |m1.pages|
      ensures m2.pages[g] == m1.pages[g]
    {
      assert Same(m1, m2, root, v0 + (g - f));
    }
  }

  /** If page `v` is mapped, its frame is the address space's own. */
  ghost predicate Owns(m: Memory, root: nat, v: nat)
    requires v < NPAGES
  {
    Lookup(m, root, v).Some? ==> !Lent(m, Lookup(m, root, v).value.frame)
  }

  ghost predicate OwnsRange(m: Memory, root: nat, a: nat, b: nat)
  {
    b <= NPAGES && forall v :: a <= v < b ==> Owns(m, root, v)
  }

  ghost predicate Clear(m: Memory, root: nat, a: nat, b: nat)
  {
    b <= NPAGES && forall v :: a <= v < b ==> Lookup(m, root, v).None?
  }

  /** Leaves of `root` may have been given up, to the pool or to whoever asked; nothing else changed hands. */
  ghost predicate Released(m: Memory, m': Memory, root: nat, freed: bool)
  {
    && |m'.uses| == |m.uses| == |m.pages| == |m'.pages|
    && forall f :: 0 <= f < |m.uses| ==>
         || (m'.uses[f] == m.uses[f] && (m'.pages[f] == m.pages[f] || (IsTable(m.uses[f]) && Top(m.uses, f) == root)))
         || (m.uses[f].Leaf? && Top(m.uses, m.uses[f].parent) == root && m'.uses[f] == if freed then Free else Fresh)
  }

  lemma ReleasedNothing(m: Memory, root: nat, freed: bool)
    requires |m.pages| == |m.uses|
    ensures Released(m, m, root, freed)
  {
  }

  lemma ReleasedTwice(m: Memory, m1: Memory, m2: Memory, root: nat, freed: bool)
    requires Released(m, m1, root, freed) && Released(m1, m2, root, freed)
    ensures Released(m, m2, root, freed)
  {
    hide Top;
    forall f | 0 <= f < |m.uses|
      ensures Top(m1.uses, f) == Top(m.uses, f)
      ensures m.uses[f].Leaf? ==> Top(m1.uses, m.uses[f].parent) == Top(m.uses, m.uses[f].parent)
    {
      SameTop(m, m1, root, freed, f);
      if m.uses[f].Leaf? {
        SameTop(m, m1, root, freed, m.uses[f].parent);
      }
    }
  }

  lemma SameTop(m: Memory, m': Memory, root: nat, freed: bool, g: nat)
    requires Released(m, m', root, freed)
    ensures Top(m'.uses, g) == Top(m.uses, g)
  {
    assert Up(m'.uses, g) == Up(m.uses, g);
  }

  lemma ClearMore(m: Memory, m': Memory, root: nat, a: nat, v: nat)
    requires Clear(m, root, a, v) && IsRoot(m, root) && a <= v < NPAGES
    requires Elsewhere(m, m', root, v, v + 1) && Lookup(m', root, v).None?
    ensures Clear(m', root, a, v + 1)
  {
    hide Lookup;
    forall w | a <= w < v
      ensures Lookup(m', root, w) == Lookup(m, root, w)
    {
      assert Same(m, m', root, w);
    }
  }

  lemma OwnsStill(m: Memory, m': Memory, root: nat, a: nat, b: nat, c: nat, d: nat)
    requires OwnsRange(m, root, c, d) && IsRoot(m, root) && Elsewhere(m, m', root, a, b) && (b <= c || d <= a || a >= b)
    ensures OwnsRange(m', root, c, d)
  {
    hide Lookup;
    forall w | c <= w < d
      ensures Owns(m', root, w)
    {
      assert Same(m, m', root, w) && Owns(m, root, w);
    }
  }

  lemma PoolLow(lo: nat, head: nat, next: seq<nat>, free: seq<nat>, uses: seq<Use>, f: nat)
    requires Pool(lo, head, next, free, uses) && f < |uses| && !uses[f].Held?
    ensures lo <= f
  {
  }

  lemma NewlyMapped(m: Memory, m': Memory, root: nat, v: nat, f: nat, perm: flags)
    requires v < NPAGES && FreshBut(m, m', f, f + 1) && Mapped(m', root, v, 1, f, perm)
    requires f < |m.uses| && m.uses[f].Fresh? && Elsewhere(m, m', root, v, v + 1)
    ensures Lookup(m', root, v) == Some(Pte(f, perm | PTE_V)) && !m'.uses[f].Held? && m'.pages[f] == m.pages[f]
  {
    hide Lookup, Same;
  }

  lemma PagesMonotone(a: nat, b: nat)
    ensures a <= b ==> Pages(a) <= Pages(b)
    ensures b <= MAXVA ==> Pages(b) <= NPAGES
    ensures Pages(a) * PGSIZE == PgRoundUp(a)
  {
  }

  /** Page `v` maps memory of its own, all zeros, with the given flags. */
  ghost predicate ZeroPage(m: Memory, root: nat, v: nat, perm: flags)
    requires v < NPAGES
  {
    && Lookup(m, root, v).Some? && Lookup(m, root, v).value.flags == perm | PTE_V
    && !Lent(m, Lookup(m, root, v).value.frame) && Lookup(m, root, v).value.frame < |m.pages|
    && m.pages[Lookup(m, root, v).value.frame] == Filled(0)
  }

  ghost predicate Grown(m: Memory, root: nat, a: nat, b: nat, perm: flags)
  {
    (a < b ==> b <= NPAGES) && forall v :: a <= v < b ==> ZeroPage(m, root, v, perm)
  }

  lemma GrownNothing(m: Memory, root: nat, a: nat, b: nat, perm: flags)
    requires b <= a
    ensures Grown(m, root, a, b, perm)
  {
  }

  lemma GrownStill(m: Memory, m': Memory, root: nat, a: nat, b: nat, perm: flags)
    requires Grown(m, root, a, b, perm) && IsRoot(m, root) && Elsewhere(m, m', root, b, b + 1)
    ensures Grown(m', root, a, b, perm)
  {
    hide Lookup;
    forall v | a <= v < b
      ensures ZeroPage(m', root, v, perm)
    {
      assert Same(m, m', root, v) && ZeroPage(m, root, v, perm);
    }
  }

  lemma GrownOwns(m: Memory, root: nat, a: nat, b: nat, perm: flags)
    requires Grown(m, root, a, b, perm) && b <= NPAGES
    ensures OwnsRange(m, root, a, b)
  {
    hide Lookup;
    forall v | a <= v < b
      ensures Owns(m, root, v)
    {
      assert ZeroPage(m, root, v, perm);
    }
  }

  lemma PagesWhole(v: nat)
    ensures Pages(v * PGSIZE) == v
  {
  }

  lemma GrownMore(m: Memory, root: nat, a: nat, b: nat, perm: flags)
    requires Grown(m, root, a, b, perm) && b < NPAGES && ZeroPage(m, root, b, perm)
    ensures Grown(m, root, a, b + 1, perm)
  {
    hide ZeroPage;
  }

  lemma ClearStill(m: Memory, m': Memory, root: nat, a: nat, b: nat, c: nat, d: nat)
    requires Clear(m, root, c, d) && IsRoot(m, root) && Elsewhere(m, m', root, a, b) && (b <= c || d <= a || a >= b)
    ensures Clear(m', root, c, d)
  {
    hide Lookup;
    forall w | c <= w < d
      ensures Lookup(m', root, w) == Lookup(m, root, w)
    {
      assert Same(m, m', root, w);
    }
  }

  lemma FreshSame(m: Memory, m1: Memory, m2: Memory)
    requires FreshBut(m, m1, 0, 0) && FreshBut(m1, m2, 0, 0)
    ensures FreshBut(m, m2, 0, 0)
  {
  }

  /** If page `v` is mapped, it is to ordinary memory. */
  ghost predicate InMemory(m: Memory, root: nat, v: nat)
    requires v < NPAGES
  {
    Lookup(m, root, v).Some? ==> Lookup(m, root, v).value.frame < |m.pages|
  }

  /** Page `v` of `child` now is to what it was to `parent`: unmapped, or the same bytes under the same flags in a
      frame of its own. */
  ghost predicate Copied(m: Memory, m': Memory, parent: nat, child: nat, v: nat)
    requires v < NPAGES
  {
    var from, to := Lookup(m, parent, v), Lookup(m', child, v);
    if from.None? then to.None?
    else
      && to.Some? && to.value.flags == from.value.flags && !Lent(m', to.value.frame)
      && from.value.frame < |m.pages| && to.value.frame < |m'.pages|
      && m'.pages[to.value.frame] == m.pages[from.value.frame]
  }

  ghost predicate CopiedRange(m: Memory, m': Memory, parent: nat, child: nat, n: nat)
  {
    n <= NPAGES && forall v :: 0 <= v < n ==> Copied(m, m', parent, child, v)
  }

  lemma InMemoryStill(m: Memory, m': Memory, parent: nat, child: nat, end: nat, v: nat)
    requires Elsewhere(m, m', child, 0, end) && parent != child && IsRoot(m, parent) && v < NPAGES
    requires InMemory(m, parent, v)
    ensures InMemory(m', parent, v)
  {
    hide Lookup;
    assert Same(m, m', parent, v);
  }

  /** Copying one more page keeps the copies made before; they are the child's own. */
  lemma CopiedStill(m0: Memory, m: Memory, m': Memory, parent: nat, child: nat, v: nat, end: nat)
    requires CopiedRange(m0, m, parent, child, v) && Elsewhere(m, m', child, v, v + 1) && IsRoot(m, child)
    ensures CopiedRange(m0, m', parent, child, v) && OwnsRange(m', child, 0, v)
  {
    hide Lookup;
    forall w | 0 <= w < v
      ensures Copied(m0, m', parent, child, w) && Owns(m', child, w)
    {
      assert Same(m, m', child, w) && Copied(m0, m, parent, child, w);
    }
  }

  lemma CopiedMore(m0: Memory, m: Memory, m': Memory, parent: nat, child: nat, v: nat, end: nat)
    requires CopiedRange(m0, m', parent, child, v) && v < NPAGES && Copied(m, m', parent, child, v)
    requires Elsewhere(m0, m, child, 0, end) && parent != child && IsRoot(m0, parent)
    ensures CopiedRange(m0, m', parent, child, v + 1)
  {
    hide Lookup;
    assert Same(m0, m, parent, v);
  }

  lemma SameFlags(x: flags)
    ensures x & PTE_V != 0 ==> x | PTE_V == x
  {
  }

  // ------------------------------------------------------------------- freewalk

  /** No bottom table of the tree under `f` maps anything. */
  ghost predicate Bare(m: Memory, f: nat)
  {
    |m.pages| == |m.uses| &&
    forall g, i :: 0 <= g < |m.uses| && IsTable(m.uses[g]) && m.uses[g].level == 0 && Top(m.uses, g) == f && 0 <= i < NPTE ==>
      m.pages[g].Table? ==> !PageTables.Valid(m.pages[g].ptes[i])
  }

  /** The entries about to be cleared are not in the tree under `f`. */
  ghost predicate Apart(m: Memory, dead: set<(nat, nat)>, f: nat)
  {
    forall g, i :: (g, i) in dead ==> Top(m.uses, g) != f
  }

  /** Frame `g` is as before, or was a table under `f` and is free. */
  ghost predicate KeptOrFreed(m: Memory, m': Memory, f: nat, g: nat)
    requires |m.uses| == |m.pages| == |m'.uses| == |m'.pages| && g < |m.uses|
  {
    || (m'.uses[g] == m.uses[g] && m'.pages[g] == m.pages[g])
    || (m'.uses[g].Free? && IsTable(m.uses[g]) && Top(m.uses, g) == f)
  }

  ghost predicate Dismantled(m: Memory, m': Memory, f: nat)
  {
    && |m.uses| == |m.pages| == |m'.uses| == |m'.pages|
    && forall g :: 0 <= g < |m.uses| ==> KeptOrFreed(m, m', f, g)
  }

  /** The same while `f` itself is still there. */
  ghost predicate Trimmed(m: Memory, m': Memory, f: nat)
  {
    && |m.uses| == |m.pages| == |m'.uses| == |m'.pages|
    && forall g :: 0 <= g < |m.uses| && g != f ==> KeptOrFreed(m, m', f, g)
  }

  lemma TopSelf(m: Memory, f: nat)
    requires f < |m.uses| && m.uses[f].Root?
    ensures Top(m.uses, f) == f
  {
  }

  lemma RootIsNotFree(uses: seq<Use>, f: nat)
    requires f < |uses| && uses[f].Root?
    ensures !uses[f].Free?
  {
  }

  lemma NotDead(m: Memory, dead: set<(nat, nat)>, f: nat, i: nat)
    requires Apart(m, dead, f) && f < |m.uses| && m.uses[f].Root?
    ensures (f, i) !in dead
  {
    TopSelf(m, f);
  }

  /** An entry freewalk finds valid belongs to an upper table. */
  lemma LevelAbove(m: Memory, f: nat, i: nat)
    requires Bare(m, f) && f < |m.uses| && m.uses[f].Root? && m.pages[f].Table? && i < NPTE && PageTables.Valid(m.pages[f].ptes[i])
    ensures m.uses[f].level > 0
  {
    TopSelf(m, f);
  }

  /** An entry that is valid but not a table's would make freewalk panic; there is none. */
  lemma NoLeafLeft(m0: Memory, m: Memory, dead: set<(nat, nat)>, f: nat, i: nat)
    requires Bare(m0, f) && Apart(m0, dead, f) && f < |m0.uses| && m0.uses[f].Root? && m0.pages[f].Table? && i < NPTE
    requires Sound(m, dead) && f < |m.uses| && m.uses[f] == m0.uses[f] && m.pages[f].Table?
    requires m.pages[f].ptes[i] == m0.pages[f].ptes[i]
    ensures PageTables.Valid(m.pages[f].ptes[i]) ==> m.pages[f].ptes[i].flags & PTE_RWX == 0
  {
    if PageTables.Valid(m.pages[f].ptes[i]) {
      NotDead(m0, dead, f, i);
      LevelAbove(m0, f, i);
      DetachKeeps(m, dead, f, i);
    }
  }

  lemma TrimmedTables(m0: Memory, m: Memory, f: nat)
    requires Trimmed(m0, m, f) && f < |m0.uses| && m.uses[f] == m0.uses[f]
    ensures forall h :: 0 <= h < |m.uses| && IsTable(m.uses[h]) ==> m.uses[h] == m0.uses[h] && (h != f ==> m.pages[h] == m0.pages[h])
  {
    hide Top;
    forall h | 0 <= h < |m.uses| && IsTable(m.uses[h]) && h != f
      ensures m.uses[h] == m0.uses[h] && m.pages[h] == m0.pages[h]
    {
      assert KeptOrFreed(m0, m, f, h);
    }
  }

  lemma ChildReady(m0: Memory, m: Memory, dead: set<(nat, nat)>, f: nat, i: nat, c: nat)
    requires Sound(m, dead) && |m.uses| == |m0.uses| && f < |m.uses| && m.uses[f].Root? && m.uses[f] == m0.uses[f]
    requires Bare(m0, f) && Apart(m0, dead, f) && Trimmed(m0, m, f)
    requires c < |m.uses| && m.uses[c].Node? && m.uses[c].parent == f
    ensures var m1 := m.(uses := m.uses[c := Root(m.uses[c].level)]);
            Bare(m1, c) && Apart(m1, dead + {(f, i)}, c)
  {
    hide EntriesOk, Trimmed;
    var m1 := m.(uses := m.uses[c := Root(m.uses[c].level)]);
    TrimmedTables(m0, m, f);
    forall g, k | 0 <= g < |m1.uses| && IsTable(m1.uses[g]) && m1.uses[g].level == 0 && Top(m1.uses, g) == c
                  && 0 <= k < NPTE && m1.pages[g].Table?
      ensures !PageTables.Valid(m1.pages[g].ptes[k])
    {
      TopDetached(m, dead, f, c, g);
      TopKept(m0, m, dead, g);
      assert g != f;
    }
    forall g, k | (g, k) in dead + {(f, i)}
      ensures Top(m1.uses, g) != c
    {
      if Top(m1.uses, g) == c && (g, k) in dead {
        DeadTable(m0, m, dead, f, c, g);
      }
    }
  }

  /** A dead entry is not below the child. */
  lemma DeadTable(m0: Memory, m: Memory, dead: set<(nat, nat)>, f: nat, c: nat, g: nat)
    requires Sound(m, dead) && |m.uses| == |m0.uses| && f < |m.uses| && m.uses[f].Root?
    requires forall h :: 0 <= h < |m.uses| && IsTable(m.uses[h]) ==> m.uses[h] == m0.uses[h]
    requires c < |m.uses| && m.uses[c].Node? && m.uses[c].parent == f
    requires Top(m.uses[c := Root(m.uses[c].level)], g) == c
    ensures Top(m0.uses, g) == f
  {
    hide EntriesOk;
    assert g < |m.uses| && IsTable(m.uses[g]);
    TopDetached(m, dead, f, c, g);
    TopKept(m0, m, dead, g);
  }

  lemma ChildGone(m0: Memory, m: Memory, m1: Memory, m2: Memory, dead: set<(nat, nat)>, f: nat, c: nat)
    requires Sound(m, dead) && |m.uses| == |m0.uses| && f < |m.uses| && m.uses[f].Root? && m.uses[f] == m0.uses[f]
    requires Trimmed(m0, m, f) && c < |m.uses| && m.uses[c].Node? && m.uses[c].parent == f
    requires m1 == m.(uses := m.uses[c := Root(m.uses[c].level)]) && Dismantled(m1, m2, c) && m2.uses[c].Free?
    ensures Trimmed(m0, m2, f) && m2.uses[f] == m.uses[f] && m2.pages[f] == m.pages[f]
  {
    hide EntriesOk, UsesOk;
    TrimmedTables(m0, m, f);
    assert m1.uses[f].Root? && f != c;
    assert KeptOrFreed(m1, m2, c, f);
    TopSelf(m1, f);
    forall g | 0 <= g < |m0.uses| && g != f
      ensures KeptOrFreed(m0, m2, f, g)
    {
      assert KeptOrFreed(m0, m, f, g) && KeptOrFreed(m1, m2, c, g);
      if IsTable(m.uses[g]) && Top(m1.uses, g) == c {
        TopDetached(m, dead, f, c, g);
        TopKept(m0, m, dead, g);
      }
    }
  }

  lemma TrimmedSame(m0: Memory, m: Memory, m': Memory, f: nat)
    requires Trimmed(m0, m, f) && |m'.pages| == |m'.uses| == |m.uses|
    requires forall g :: 0 <= g < |m.uses| && g != f ==> m'.uses[g] == m.uses[g] && m'.pages[g] == m.pages[g]
    ensures Trimmed(m0, m', f)
  {
    hide Top;
    forall g | 0 <= g < |m0.uses| && g != f
      ensures KeptOrFreed(m0, m', f, g)
    {
      assert KeptOrFreed(m0, m, f, g);
    }
  }

  lemma DismantledAll(m0: Memory, m: Memory, f: nat)
    requires Trimmed(m0, m, f) && f < |m0.uses| && m0.uses[f].Root? && m.uses[f].Free?
    ensures Dismantled(m0, m, f)
  {
    TopSelf(m0, f);
  }

  /** Frame `f` is a table or a page of the address space `root`. */
  ghost predicate Belongs(uses: seq<Use>, root: nat, f: nat)
    requires f < |uses|
  {
    (IsTable(uses[f]) && Top(uses, f) == root) || (uses[f].Leaf? && Top(uses, uses[f].parent) == root)
  }

  lemma RootInPool(lo: nat, head: nat, next: seq<nat>, free: seq<nat>, uses: seq<Use>, root: nat)
    requires Pool(lo, head, next, free, uses) && root < |uses| && uses[root].Root?
    ensures lo <= root
  {
  }

  lemma SpaceGone(m: Memory, m1: Memory, m2: Memory, root: nat)
    requires Sound(m, {}) && Sound(m1, {}) && Sound(m2, {}) && root < |m.uses|
    requires Released(m, m1, root, true) && Bare(m1, root) && Dismantled(m1, m2, root) && m2.uses[root].Free?
    ensures |m2.uses| == |m2.pages| == |m.uses|
    ensures forall f :: 0 <= f < |m.uses| ==>
              if Belongs(m.uses, root, f) then m2.uses[f].Free? else m2.uses[f] == m.uses[f] && m2.pages[f] == m.pages[f]
  {
    hide EntriesOk, TablesOk, Top;
    forall f | 0 <= f < |m.uses|
      ensures if Belongs(m.uses, root, f) then m2.uses[f].Free? else m2.uses[f] == m.uses[f] && m2.pages[f] == m.pages[f]
    {
      assert KeptOrFreed(m1, m2, root, f);
      SameTop(m, m1, root, true, f);
      if IsTable(m.uses[f]) && Top(m.uses, f) == root {
        TableGone(m1, m2, root, f);
      } else if m.uses[f].Leaf? {
        SameTop(m, m1, root, true, m.uses[f].parent);
      }
    }
  }

  /** An address space that maps nothing has empty bottom tables. */
  lemma BareWhenClear(m: Memory, root: nat)
    requires Sound(m, {}) && IsRoot(m, root) && Clear(m, root, 0, NPAGES)
    ensures Bare(m, root) && Apart(m, {}, root)
  {
    hide EntriesOk, UsesOk, Top;
    forall g, i | 0 <= g < |m.uses| && IsTable(m.uses[g]) && m.uses[g].level == 0 && Top(m.uses, g) == root && 0 <= i < NPTE
                  && m.pages[g].Table?
      ensures !PageTables.Valid(m.pages[g].ptes[i])
    {
      var v := PageOf(m, root, g, i);
      assert Lookup(m, root, v).None?;
    }
  }

  /** The page that entry `i` of bottom table `g` maps. */
  lemma PageOf(m: Memory, root: nat, g: nat, i: nat) returns (v: nat)
    requires Sound(m, {}) && IsRoot(m, root) && g < |m.uses| && IsTable(m.uses[g]) && m.uses[g].level == 0
    requires Top(m.uses, g) == root && i < NPTE
    ensures v < NPAGES && Path(m, root, v, 0) == Some(g) && Px(0, v) == i
  {
    var mid := m.uses[g].parent;
    var j, k := m.uses[g].index, m.uses[mid].index;
    assert m.uses[mid] == Node(1, root, k);
    assert EntryOk(m, root, k);
    v := (k * NPTE + j) * NPTE + i;
    assert Px(0, v) == i && Px(1, v) == j && Px(2, v) == k;
    assert Path(m, root, v, 2) == Some(root);
    assert Path(m, root, v, 1) == Some(mid);
  }

  /** No table outlives the top of its tree. */
  lemma TableGone(m1: Memory, m2: Memory, root: nat, f: nat)
    requires Sound(m2, {}) && Dismantled(m1, m2, root) && root < |m1.uses| && m2.uses[root].Free?
    requires f < |m1.uses| && IsTable(m1.uses[f]) && Top(m1.uses, f) == root
    ensures m2.uses[f].Free?
  {
    hide EntriesOk;
    assert KeptOrFreed(m1, m2, root, f) && KeptOrFreed(m1, m2, root, Up(m1.uses, f)) && KeptOrFreed(m1, m2, root, root);
  }

  lemma OthersSame(m: Memory, m': Memory, root: nat)
    requires Sound(m, {}) && |m'.uses| == |m'.pages| == |m.uses|
    requires forall f :: 0 <= f < |m.uses| && !Belongs(m.uses, root, f) ==> m'.uses[f] == m.uses[f] && m'.pages[f] == m.pages[f]
    ensures forall r :: IsRoot(m, r) && r != root ==> IsRoot(m', r)
    ensures forall r, v :: IsRoot(m, r) && r != root && 0 <= v < NPAGES ==> Same(m, m', r, v)
  {
    hide EntriesOk, TablesOk, Top, Path, Px, UsesOk;
    forall r | IsRoot(m, r) && r != root
      ensures IsRoot(m', r)
    {
      TopSelf(m, r);
    }
    forall r, v | IsRoot(m, r) && r != root && 0 <= v < NPAGES
      ensures Same(m, m', r, v)
    {
      PathKept(m, m', root, r, v, 0);
      if Path(m, r, v, 0).Some? {
        PathTable(m, r, v, 0);
        PathTop(m, r, v, 0);
        if Lookup(m, r, v).Some? {
          MappedFrame(m, r, v);
        }
      }
    }
  }

  lemma RootPath(m: Memory, root: nat, v: nat)
    requires v < NPAGES
    ensures Path(m, root, v, 2) == Some(root)
  {
  }

  /** The frame of every page that was unmapped has been given up. */
  lemma GivenUp(m: Memory, m': Memory, root: nat, freed: bool, v: nat)
    requires Sound(m, {}) && Sound(m', {}) && IsRoot(m, root) && IsRoot(m', root) && Released(m, m', root, freed)
    requires v < NPAGES && Lookup(m, root, v).Some? && !Lent(m, Lookup(m, root, v).value.frame)
    requires Lookup(m', root, v).None?
    ensures m'.uses[Lookup(m, root, v).value.frame] == if freed then Free else Fresh
  {
    hide EntriesOk, Top, Path, Px;
    MappedFrame(m, root, v);
    PathTable(m, root, v, 0);
    PathTable(m, root, v, 1);
    PathTable(m, root, v, 2);
    PathStep(m', root, v, 1);
    PathStep(m', root, v, 0);
    RootPath(m', root, v);
  }

  lemma NothingMapped(m: Memory)
    requires |m.pages| == |m.uses| && forall f :: 0 <= f < |m.uses| ==> m.uses[f].Held? || m.uses[f].Free?
    ensures Sound(m, {})
  {
  }

  class Vm {
    const lo: nat
    var pages: seq<Page>
    var head: nat
    var next: seq<nat>
    ghost var uses: seq<Use>
    ghost var free: seq<nat>

    ghost function Mem(): Memory
      reads this`pages, this`uses
    {
      Memory(pages, uses)
    }

    ghost predicate Ready()
      reads this
    {
      Pool(lo, head, next, free, uses) && |pages| == |uses|
    }

    ghost predicate Valid()
      reads this
    {
      Ready() && Sound(Mem(), {})
    }

    /** kinit: every whole page of the pool goes on the free list. */
    constructor (lo: nat, hi: nat)
      requires 0 < lo <= hi
      ensures Valid() && this.lo == lo && |pages| == hi
      ensures forall f :: 0 <= f < hi ==> uses[f] == if f < lo then Held else Free
    {
      this.lo := lo;
      pages := seq(hi, i => Bytes([]));
      head, next := 0, seq(hi, i => 0);
      uses, free := seq(hi, i => Held), [];
      new;
      var p := lo;
      while p < hi
        invariant lo <= p <= hi && Ready() && |pages| == hi && this.lo == lo
        invariant forall f :: 0 <= f < hi ==> uses[f] == if lo <= f < p then Free else Held
      {
        Kfree(p);
        p := p + 1;
      }
      NothingMapped(Mem());
    }

    /** kfree: the frame first on the free list, filled with junk. */
    method Kfree(f: nat)
      requires Ready() && lo <= f < |pages| && !uses[f].Free?
      modifies this
      ensures Ready() && pages == old(pages)[f := Filled(1)] && uses == old(uses)[f := Free] && free == [f] + old(free)
    {
      PutFirst(lo, head, next, free, uses, f);
      pages := pages[f := Filled(1)];
      next := next[f := head];
      head := f;
      uses, free := uses[f := Free], [f] + free;
    }

    /** kalloc: the first free frame, or 0 exactly when there is none. */
    method Kalloc(ghost root: nat) returns (f: nat)
      requires Valid()
      modifies this
      ensures Valid()
      ensures f == 0 <==> old(free) == []
      ensures f == 0 ==> pages == old(pages) && uses == old(uses) && free == old(free)
      ensures f != 0 ==>
                && lo <= f < |pages| == |uses| == |old(uses)| && old(free) == [f] + free && old(uses)[f].Free?
                && pages == old(pages)[f := Filled(5)] && uses == old(uses)[f := Fresh]
                && Elsewhere(old(Mem()), Mem(), root, 0, 0)
    {
      hide EntriesOk, UsesOk, TablesOk, Pool, FreeList, Elsewhere;
      f := head;
      HeadIs(lo, head, next, free, uses);
      if f != 0 {
        TakeFirst(lo, head, next, free, uses);
        LooseKeeps(Mem(), f, Fresh, Filled(5), root);
        head := next[f];
        uses, free := uses[f := Fresh], free[1..];
        pages := pages[f := Filled(5)];
      }
    }

    /** uvmcreate: a new, empty address space, or 0 when memory has run out. */
    method Uvmcreate() returns (root: nat)
      requires Valid()
      modifies this
      ensures Valid() && Elsewhere(old(Mem()), Mem(), root, 0, 0)
      ensures root == 0 <==> old(free) == []
      ensures root == 0 ==> Mem() == old(Mem())
      ensures root != 0 ==>
                && IsRoot(Mem(), root) && old(uses)[root].Free? && uses == old(uses)[root := Root(2)]
                && (forall v :: 0 <= v < NPAGES ==> Lookup(Mem(), root, v).None?)
    {
      hide EntriesOk, UsesOk, TablesOk, Path, Px, Lookup, FreeList;
      root := Kalloc(head);
      if root != 0 {
        NewRootKeeps(Mem(), root, root);
        ghost var m := Mem();
        PoolRetag(lo, head, next, free, uses, root, Root(2));
        pages := pages[root := Zeroed()];
        uses := uses[root := Root(2)];
        ElsewhereRoot(old(Mem()), m, head, root);
        ElsewhereTwice(old(Mem()), m, Mem(), root, 0, 0);
      }
    }

    /** The memory with a new table below entry `i` of table `p`, from a fresh frame. */
    method Attach(p: nat, i: nat, c: nat, ghost root: nat)
      requires Valid() && p < |uses| && IsTable(uses[p]) && 0 < uses[p].level && i < NPTE
      requires uses[p].level == 2 ==> i < 256
      requires lo <= c < |uses| && uses[c].Fresh? && pages[p].Table? && !PageTables.Valid(pages[p].ptes[i])
      modifies this`pages, this`uses
      ensures Valid() && Mem() == WithTable(old(Mem()), p, i, c)
      ensures Elsewhere(old(Mem()), Mem(), root, 0, 0)
    {
      hide EntriesOk, UsesOk, Path, Px, Lookup, FreeList;
      NewTableKeeps(Mem(), p, i, c);
      NewTableElsewhere(Mem(), p, i, c, root);
      PoolRetag(lo, head, next, free, uses, c, Node(uses[p].level - 1, p, i));
      pages := pages[c := Zeroed()];
      pages := pages[p := Table(pages[p].ptes[i := Pte(c, PTE_V)])];
      uses := uses[c := Node(uses[p].level - 1, p, i)];
    }

    /** walk: the bottom table on the way to page `v`, building the way if asked to.  No mapping changes. */
    method Walk(root: nat, v: nat, alloc: bool) returns (r: Option<nat>)
      requires Valid() && IsRoot(Mem(), root) && v < NPAGES
      modifies this
      ensures Valid() && Elsewhere(old(Mem()), Mem(), root, 0, 0) && FreshBut(old(Mem()), Mem(), 0, 0)
      ensures r == Path(Mem(), root, v, 0) && (!alloc ==> Mem() == old(Mem()) && free == old(free))
      ensures alloc && r.None? ==> free == []
      ensures |old(free)| <= |free| + 2 && (alloc && r.None? ==> |old(free)| < 2)
      ensures r.Some? ==>
                && r.value < |pages| && pages[r.value].Table?
                && IsTable(uses[r.value]) && uses[r.value].level == 0
    {
      hide EntriesOk, UsesOk, TablesOk, Px, Lookup, FreeList, Elsewhere;
      var pagetable, level := root, 2;
      ElsewhereNothing(Mem(), root);
      while level > 0
        invariant 0 <= level <= 2 && Valid() && IsRoot(Mem(), root) && Path(Mem(), root, v, level) == Some(pagetable)
        invariant Elsewhere(old(Mem()), Mem(), root, 0, 0) && FreshBut(old(Mem()), Mem(), 0, 0)
        invariant !alloc ==> Mem() == old(Mem()) && free == old(free)
        invariant |old(free)| <= |free| + (2 - level)
      {
        PathTable(Mem(), root, v, level);
        var i := Px(level, v);
        if pages[pagetable].ptes[i].flags & PTE_V != 0 {
          pagetable := pages[pagetable].ptes[i].frame;
        } else {
          PathEnds(Mem(), root, v, level - 1);
          if !alloc { return None; }
          ghost var m := Mem();
          var c := Grow(root, v, level, pagetable);
          ElsewhereTwice(old(Mem()), m, Mem(), root, 0, 0);
          if c == 0 { return None; }
          pagetable := c;
        }
        level := level - 1;
      }
      PathTable(Mem(), root, v, 0);
      return Some(pagetable);
    }

    /** A missing table on the way to page `v`, allocated and linked in. */
    method Grow(root: nat, v: nat, level: nat, p: nat) returns (c: nat)
      requires Valid() && IsRoot(Mem(), root) && v < NPAGES && 0 < level <= 2 && Path(Mem(), root, v, level) == Some(p)
      requires p < |pages| && pages[p].Table? && !PageTables.Valid(pages[p].ptes[Px(level, v)])
      modifies this
      ensures Valid() && Elsewhere(old(Mem()), Mem(), root, 0, 0) && FreshBut(old(Mem()), Mem(), 0, 0) && IsRoot(Mem(), root)
      ensures if c == 0 then free == old(free) == [] && Mem() == old(Mem()) else |free| + 1 == |old(free)|
      ensures c != 0 ==> Path(Mem(), root, v, level - 1) == Some(c)
    {
      hide EntriesOk, UsesOk, TablesOk, Px, Lookup, FreeList, Path;
      ghost var m := Mem();
      c := Kalloc(root);
      if c == 0 {
        ElsewhereNothing(m, root);
        return;
      }
      ghost var m1 := Mem();
      LoosePath(m, m1, c, root, v, level);
      PathTable(m1, root, v, level);
      NewTablePath(m1, p, Px(level, v), c, root, v, level);
      Attach(p, Px(level, v), c, root);
      PathStep(Mem(), root, v, level - 1);
      ElsewhereTwice(m, m1, Mem(), root, 0, 0);
    }

    /** One round of mappages: page `v` mapped to frame `f`.  `remap` is the panic on a page that is mapped already. */
    method MapOne(root: nat, v: nat, f: nat, perm: flags) returns (ok: bool, remap: bool)
      requires Valid() && IsRoot(Mem(), root) && v < NPAGES && Mappable(Mem(), f)
      modifies this
      ensures Valid() && IsRoot(Mem(), root)
      ensures remap <==> old(Lookup(Mem(), root, v)).Some?
      ensures ok ==> !remap && Elsewhere(old(Mem()), Mem(), root, v, v + 1) && Lookup(Mem(), root, v) == Some(Pte(f, perm | PTE_V))
      ensures ok ==> FreshBut(old(Mem()), Mem(), f, f + 1)
      ensures !ok ==> Elsewhere(old(Mem()), Mem(), root, 0, 0) && FreshBut(old(Mem()), Mem(), 0, 0)
      ensures !ok && !remap ==> free == [] && |old(free)| < 2
      ensures |old(free)| <= |free| + 2
    {
      hide EntriesOk, UsesOk, TablesOk, Px, Lookup, FreeList, Path, Elsewhere;
      ghost var m := Mem();
      var pte := Walk(root, v, true);
      RootStays(m, Mem(), root);
      StillUnmapped(m, Mem(), root, 0, 0, v);
      ok, remap := pte.Some?, false;
      if ok {
        var p, i := pte.value, Px(0, v);
        EntryThere(Mem(), root, v);
        remap := PageTables.Valid(pages[p].ptes[i]);
        ok := !remap;
      } else {
        NoPath(Mem(), root, v);
      }
      if ok {
        ghost var m1 := Mem();
        var p, i, e := pte.value, Px(0, v), Pte(f, perm | PTE_V);
        ValidBit(f, perm);
        StillMappable(m, m1, root, 0, 0, 0, 0, f);
        NewLeafElsewhere(m1, root, v, e);
        if f < |uses| && uses[f].Fresh? {
          PoolRetag(lo, head, next, free, uses, f, Leaf(p, i));
          uses := uses[f := Leaf(p, i)];
        }
        pages := pages[p := Table(pages[p].ptes[i := e])];
        assert Mem() == WithLeaf(m1, p, i, e);
        RootStays(m1, Mem(), root);
        ElsewhereWider(m, m1, root, 0, 0, v, v + 1);
        ElsewhereTwice(m, m1, Mem(), root, v, v + 1);
      }
    }

    /** mappages: the pages from `va` mapped to the frames from `f` on, all of them, or the first `done` when
        memory for tables runs out.  It panics on an unaligned or empty range, with nothing changed, and on the first page
        that is mapped already. */
    method Mappages(root: nat, va: nat, size: nat, f: nat, perm: flags) returns (r: int, panic: bool, ghost done: nat)
      requires Valid() && IsRoot(Mem(), root) && va + size <= MAXVA
      requires forall g :: f <= g < f + size / PGSIZE ==> Mappable(Mem(), g)
      modifies this
      ensures Valid() && IsRoot(Mem(), root) && done <= size / PGSIZE
      ensures va % PGSIZE != 0 || size % PGSIZE != 0 || size == 0 ==> panic && done == 0 && Mem() == old(Mem())
      ensures va % PGSIZE == 0 && size % PGSIZE == 0 && size > 0 ==>
                (panic <==> done < size / PGSIZE && Lookup(old(Mem()), root, va / PGSIZE + done).Some?)
      ensures !panic ==> r == if done == size / PGSIZE then 0 else -1
      ensures forall v :: va / PGSIZE <= v < va / PGSIZE + done ==> Lookup(old(Mem()), root, v).None?
      ensures |old(free)| <= |free| + 2 * (size / PGSIZE)
      ensures !panic && r != 0 ==> free == [] && |old(free)| < 2 * (size / PGSIZE)
      ensures Elsewhere(old(Mem()), Mem(), root, va / PGSIZE, va / PGSIZE + done)
      ensures FreshBut(old(Mem()), Mem(), f, f + done)
      ensures Mapped(Mem(), root, va / PGSIZE, done, f, perm)
    {
      hide EntriesOk, UsesOk, TablesOk, Px, Lookup, FreeList, Path, Elsewhere, Pool, FreshBut;
      ghost var v0, n := va / PGSIZE, size / PGSIZE;
      r, panic, done := -1, true, 0;
      FreshNothing(Mem(), f);
      ElsewhereEmpty(Mem(), root, v0);
      if va % PGSIZE != 0 { return; }
      if size % PGSIZE != 0 { return; }
      if size == 0 { return; }
      var a, last, pa := va, va + size - PGSIZE, f;
      while true
        invariant va <= a <= last && (a - va) % PGSIZE == 0 && done == (a - va) / PGSIZE && pa == f + done
        invariant Valid() && IsRoot(Mem(), root) && Elsewhere(old(Mem()), Mem(), root, v0, v0 + done)
        invariant FreshBut(old(Mem()), Mem(), f, f + done) && Mapped(Mem(), root, v0, done, f, perm)
        invariant forall v :: v0 <= v < v0 + done ==> Lookup(old(Mem()), root, v).None?
        invariant |old(free)| <= |free| + 2 * done
        decreases last - a
      {
        ghost var m := Mem();
        StillUnmapped(old(Mem()), m, root, v0, v0 + done, v0 + done);
        StillMappable(old(Mem()), m, root, v0, v0 + done, f, f + done, pa);
        var ok;
        ok, panic := MapOne(root, a / PGSIZE, pa, perm);
        if !ok {
          MappedStill(m, Mem(), root, v0, done, f, perm);
          FreshTwice(old(Mem()), m, Mem(), root, v0, done, f, perm, 0, 0);
          ElsewhereWider(m, Mem(), root, 0, 0, v0, v0 + done);
          ElsewhereTwice(old(Mem()), m, Mem(), root, v0, v0 + done);
          return;
        }
        MappedMore(m, Mem(), root, v0, done, f, perm);
        FreshTwice(old(Mem()), m, Mem(), root, v0, done, f, perm, v0 + done, v0 + done + 1);
        ElsewhereWider(old(Mem()), m, root, v0, v0 + done, v0, v0 + done + 1);
        ElsewhereWider(m, Mem(), root, v0 + done, v0 + done + 1, v0, v0 + done + 1);
        ElsewhereTwice(old(Mem()), m, Mem(), root, v0, v0 + done + 1);
        done := done + 1;
        if a == last { break; }
        a := a + PGSIZE;
        pa := pa + 1;
      }
      r := 0;
    }

    /** One round of uvmunmap. */
    method UnmapOne(root: nat, v: nat, doFree: bool)
      requires Valid() && IsRoot(Mem(), root) && v < NPAGES && (doFree ==> Owns(Mem(), root, v))
      modifies this
      ensures Valid() && IsRoot(Mem(), root) && Elsewhere(old(Mem()), Mem(), root, v, v + 1)
      ensures Lookup(Mem(), root, v).None? && Released(old(Mem()), Mem(), root, doFree)
    {
      hide EntriesOk, UsesOk, TablesOk, Px, FreeList, Path, Elsewhere;
      ghost var m := Mem();
      ElsewhereEmpty(m, root, v);
      var pte := Walk(root, v, false);
      ElsewhereWider(m, m, root, v, v, v, v + 1);
      if pte.None? { return; }
      var p, i := pte.value, Px(0, v);
      EmptyEntry(m, root, v);
      if pages[p].ptes[i].flags & PTE_V == 0 { return; }
      ghost var f := pages[p].ptes[i].frame;
      MappedFrame(m, root, v);
      UnmappedElsewhere(m, root, v, doFree, Filled(1));
      PathTop(m, root, v, 0);
      if doFree {
        PoolLow(lo, head, next, free, uses, f);
        Kfree(pages[p].ptes[i].frame);
      } else if f < |uses| && uses[f].Leaf? {
        PoolLow(lo, head, next, free, uses, f);
        PoolRetag(lo, head, next, free, uses, f, Fresh);
        uses := uses[f := Fresh];
      }
      pages := pages[p := Table(pages[p].ptes[i := NONE])];
      assert Mem().pages == Unmapped(m, p, i, doFree, Filled(1)).pages;
      assert Mem() == Unmapped(m, p, i, doFree, Filled(1));
      RootStays(m, Mem(), root);
    }

    /** uvmunmap: none of the `npages` pages from `va` is mapped, and no other mapping changed.  With `doFree` the
        frames they mapped are back in the pool. */
    method Uvmunmap(root: nat, va: nat, npages: nat, doFree: bool)
      requires Valid() && IsRoot(Mem(), root) && va % PGSIZE == 0 && va / PGSIZE + npages <= NPAGES
      requires doFree ==> OwnsRange(Mem(), root, va / PGSIZE, va / PGSIZE + npages)
      modifies this
      ensures Valid() && IsRoot(Mem(), root)
      ensures Elsewhere(old(Mem()), Mem(), root, va / PGSIZE, va / PGSIZE + npages)
      ensures Clear(Mem(), root, va / PGSIZE, va / PGSIZE + npages) && Released(old(Mem()), Mem(), root, doFree)
    {
      hide EntriesOk, UsesOk, TablesOk, Px, Lookup, FreeList, Path, Elsewhere, Pool, Owns, Released, IsRoot;
      ghost var v0, end := va / PGSIZE, va / PGSIZE + npages;
      ghost var v := v0;
      var a := va;
      ElsewhereEmpty(Mem(), root, v0);
      ElsewhereWider(Mem(), Mem(), root, v0, v0, v0, end);
      ReleasedNothing(Mem(), root, doFree);
      while a < va + npages * PGSIZE
        invariant v0 <= v <= end && a == v * PGSIZE && Valid() && IsRoot(Mem(), root)
        invariant Elsewhere(old(Mem()), Mem(), root, v0, end) && Clear(Mem(), root, v0, v)
        invariant Released(old(Mem()), Mem(), root, doFree)
        invariant doFree ==> OwnsRange(Mem(), root, v, end)
        decreases end - v
      {
        ghost var m := Mem();
        UnmapOne(root, a / PGSIZE, doFree);
        ElsewhereWider(m, Mem(), root, v, v + 1, v0, end);
        ElsewhereTwice(old(Mem()), m, Mem(), root, v0, end);
        ReleasedTwice(old(Mem()), m, Mem(), root, doFree);
        ClearMore(m, Mem(), root, v0, v);
        if doFree {
          OwnsStill(m, Mem(), root, v, v + 1, v + 1, end);
        }
        a := a + PGSIZE;
        v := v + 1;
      }
    }

    /** kfree of a frame that nothing refers to. */
    method GiveBack(f: nat, ghost root: nat)
      requires Valid() && f < |uses| && uses[f].Fresh?
      modifies this
      ensures Valid() && uses == old(uses)[f := Free] && pages == old(pages)[f := Filled(1)] && free == [f] + old(free)
      ensures Elsewhere(old(Mem()), Mem(), root, 0, 0)
    {
      hide EntriesOk, UsesOk, TablesOk, Px, Lookup, FreeList, Path;
      PoolLow(lo, head, next, free, uses, f);
      LooseKeeps(Mem(), f, Free, Filled(1), root);
      Kfree(f);
    }

    /** A new frame holding `page` mapped at page `v`, or nothing when memory runs out. */
    method MapNew(root: nat, v: nat, page: Page, perm: flags) returns (ok: bool, ghost f: nat)
      requires Valid() && IsRoot(Mem(), root) && v < NPAGES && Lookup(Mem(), root, v).None?
      modifies this
      ensures Valid() && IsRoot(Mem(), root) && FreshBut(old(Mem()), Mem(), 0, 0)
      ensures Elsewhere(old(Mem()), Mem(), root, v, v + 1)
      ensures ok ==>
                && f < |old(uses)| == |uses| == |pages| && old(uses)[f].Free? && !uses[f].Held? && pages[f] == page
                && Lookup(Mem(), root, v) == Some(Pte(f, perm | PTE_V))
      ensures !ok ==> Lookup(Mem(), root, v).None?
      ensures |old(free)| <= |free| + 3 && (!ok ==> |old(free)| < 3)
    {
      hide EntriesOk, UsesOk, TablesOk, Px, Lookup, FreeList, Path, Elsewhere, Pool;
      ghost var m := Mem();
      f := 0;
      var mem := Kalloc(root);
      ok := mem != 0;
      ElsewhereNothing(m, root);
      if ok {
        ghost var m1 := Mem();
        LooseKeeps(m1, mem, Fresh, page, root);
        pages := pages[mem := page];
        ghost var m2 := Mem();
        assert m2 == Memory(m1.pages[mem := page], m1.uses[mem := Fresh]);
        ElsewhereTwice(m, m1, m2, root, 0, 0);
        StillUnmapped(m, m2, root, 0, 0, v);
        RootStays(m, m2, root);
        var r, _, _ := Mappages(root, v * PGSIZE, PGSIZE, mem, perm);
        f := mem;
        if r == 0 {
          NewlyMapped(m2, Mem(), root, v, mem, perm);
        } else {
          ok := false;
          ghost var m3 := Mem();
          StillUnmapped(m2, m3, root, v, v, v);
          GiveBack(mem, root);
          StillUnmapped(m3, Mem(), root, 0, 0, v);
          RootStays(m3, Mem(), root);
          ElsewhereWider(m3, Mem(), root, 0, 0, v, v + 1);
          ElsewhereWider(m2, m3, root, v, v, v, v + 1);
          ElsewhereTwice(m2, m3, Mem(), root, v, v + 1);
        }
        ElsewhereWider(m, m2, root, 0, 0, v, v + 1);
        ElsewhereTwice(m, m2, Mem(), root, v, v + 1);
      } else {
        ElsewhereWider(m, m, root, 0, 0, v, v + 1);
      }
    }

    /** uvmdealloc: the pages that `newsz` bytes do not need are gone. */
    method Uvmdealloc(root: nat, oldsz: nat, newsz: nat) returns (sz: nat)
      requires Valid() && IsRoot(Mem(), root) && oldsz <= MAXVA
      requires OwnsRange(Mem(), root, Pages(newsz), Pages(oldsz))
      modifies this
      ensures Valid() && IsRoot(Mem(), root) && sz == if newsz < oldsz then newsz else oldsz
      ensures Elsewhere(old(Mem()), Mem(), root, Pages(newsz), Pages(oldsz))
      ensures Clear(Mem(), root, Pages(newsz), Pages(oldsz)) && Released(old(Mem()), Mem(), root, true)
    {
      hide EntriesOk, UsesOk, TablesOk, Px, Lookup, FreeList, Path, Elsewhere, Pool, Owns, Released, IsRoot;
      ElsewhereEmpty(Mem(), root, Pages(newsz));
      ElsewhereWider(Mem(), Mem(), root, Pages(newsz), Pages(newsz), Pages(newsz), Pages(oldsz));
      ReleasedNothing(Mem(), root, true);
      PagesMonotone(newsz, oldsz);
      if newsz >= oldsz { return oldsz; }
      if PgRoundUp(newsz) < PgRoundUp(oldsz) {
        var npages := (PgRoundUp(oldsz) - PgRoundUp(newsz)) / PGSIZE;
        Uvmunmap(root, PgRoundUp(newsz), npages, true);
      }
      return newsz;
    }

    /** uvmalloc: every page from `oldsz` to `newsz` is mapped to zeroed memory of its own, or none is and no
        frame is lost. */
    method Uvmalloc(root: nat, oldsz: nat, newsz: nat, xperm: flags) returns (sz: nat, ghost ok: bool)
      requires Valid() && IsRoot(Mem(), root) && newsz <= MAXVA && Clear(Mem(), root, Pages(oldsz), Pages(newsz))
      modifies this
      ensures Valid() && IsRoot(Mem(), root) && FreshBut(old(Mem()), Mem(), 0, 0)
      ensures Elsewhere(old(Mem()), Mem(), root, Pages(oldsz), Pages(newsz))
      ensures sz == if newsz < oldsz then oldsz else if ok then newsz else 0
      ensures ok ==> Grown(Mem(), root, Pages(oldsz), Pages(newsz), PTE_R | PTE_U | xperm)
      ensures !ok ==> Clear(Mem(), root, Pages(oldsz), Pages(newsz)) && |old(free)| < 3 * (Pages(newsz) - Pages(oldsz))
    {
      hide EntriesOk, UsesOk, TablesOk, Px, Lookup, FreeList, Path, Elsewhere, Pool, Owns, Released, IsRoot, FreshBut, Grown;
      ghost var m0, v0, end := Mem(), Pages(oldsz), Pages(newsz);
      ElsewhereEmpty(m0, root, v0);
      ElsewhereWider(m0, m0, root, v0, v0, v0, end);
      FreshNothing(m0, 0);
      PagesMonotone(newsz, oldsz);
      ok := true;
      if newsz < oldsz {
        GrownNothing(m0, root, v0, end, PTE_R | PTE_U | xperm);
        return oldsz, true;
      }
      var a := PgRoundUp(oldsz);
      ghost var v := v0;
      GrownNothing(m0, root, v0, v0, PTE_R | PTE_U | xperm);
      while a < newsz
        invariant v0 <= v && a == v * PGSIZE && (v < end <==> a < newsz) && Valid() && IsRoot(Mem(), root)
        invariant v0 <= end ==> v <= end
        invariant Elsewhere(m0, Mem(), root, v0, end) && FreshBut(m0, Mem(), 0, 0)
        invariant Grown(Mem(), root, v0, v, PTE_R | PTE_U | xperm) && Clear(Mem(), root, v, end)
        invariant |old(free)| <= |free| + 3 * (v - v0)
        decreases newsz - a
      {
        ghost var m := Mem();
        var done, _ := MapNew(root, a / PGSIZE, Filled(0), PTE_R | PTE_U | xperm);
        ElsewhereWider(m, Mem(), root, v, v + 1, v0, end);
        ElsewhereTwice(m0, m, Mem(), root, v0, end);
        FreshSame(m0, m, Mem());
        GrownStill(m, Mem(), root, v0, v, PTE_R | PTE_U | xperm);
        GrownOwns(Mem(), root, v0, v, PTE_R | PTE_U | xperm);
        ClearStill(m, Mem(), root, v, v + 1, v + 1, end);
        if !done {
          ok := false;
          ghost var m1 := Mem();
          Undo(root, a, oldsz, v0, v, end);
          ElsewhereTwice(m0, m1, Mem(), root, v0, end);
          FreshSame(m0, m1, Mem());
          return 0, false;
        }
        GrownMore(Mem(), root, v0, v, PTE_R | PTE_U | xperm);
        a := a + PGSIZE;
        v := v + 1;
        assert v < end <==> a < newsz;
      }
      return newsz, true;
    }

    /** The error path of uvmalloc: the pages mapped so far are unmapped and freed. */
    method Undo(root: nat, a: nat, oldsz: nat, ghost v0: nat, ghost v: nat, ghost end: nat)
      requires Valid() && IsRoot(Mem(), root) && a == v * PGSIZE <= MAXVA && v0 == Pages(oldsz) <= v < end <= NPAGES
      requires Clear(Mem(), root, v + 1, end) && Lookup(Mem(), root, v).None? && OwnsRange(Mem(), root, v0, v)
      modifies this
      ensures Valid() && IsRoot(Mem(), root) && FreshBut(old(Mem()), Mem(), 0, 0)
      ensures Elsewhere(old(Mem()), Mem(), root, v0, end) && Clear(Mem(), root, v0, end)
    {
      hide EntriesOk, UsesOk, TablesOk, Px, Lookup, FreeList, Path, Elsewhere, Pool, Owns, IsRoot;
      ghost var m := Mem();
      PagesWhole(v);
      PagesMonotone(oldsz, a);
      PagesWhole(v0);
      var _ := Uvmdealloc(root, a, PgRoundUp(oldsz));
      ClearStill(m, Mem(), root, v0, v, v + 1, end);
      StillUnmapped(m, Mem(), root, v0, v, v);
      ElsewhereWider(m, Mem(), root, v0, v, v0, end);
    }

    /** One round of uvmcopy. */
    method CopyOne(parent: nat, child: nat, v: nat) returns (ok: bool)
      requires Valid() && IsRoot(Mem(), parent) && IsRoot(Mem(), child) && parent != child && v < NPAGES
      requires Lookup(Mem(), child, v).None? && InMemory(Mem(), parent, v)
      modifies this
      ensures Valid() && IsRoot(Mem(), parent) && IsRoot(Mem(), child) && FreshBut(old(Mem()), Mem(), 0, 0)
      ensures Elsewhere(old(Mem()), Mem(), child, v, v + 1)
      ensures ok ==> Copied(old(Mem()), Mem(), parent, child, v)
      ensures !ok ==> Lookup(Mem(), child, v).None?
      ensures |old(free)| <= |free| + 3 && (!ok ==> |old(free)| < 3)
    {
      hide EntriesOk, UsesOk, TablesOk, Px, FreeList, Path, Elsewhere, Pool, FreshBut;
      ghost var m := Mem();
      var pte := Walk(parent, v, false);
      ElsewhereEmpty(m, child, v);
      ElsewhereWider(m, m, child, v, v, v, v + 1);
      FreshNothing(m, 0);
      if pte.None? { return true; }
      var e := pages[pte.value].ptes[Px(0, v)];
      EmptyEntry(m, parent, v);
      if e.flags & PTE_V == 0 { return true; }
      SameFlags(e.flags);
      ghost var f;
      ok, f := MapNew(child, v, pages[e.frame], e.flags);
      RootStays(m, Mem(), parent);
    }

    /** uvmcopy: the child maps a private copy of every page of the parent, with the same flags and contents and
        nothing where the parent has nothing; or, when memory runs out, nothing at all.  The parent is unchanged. */
    method Uvmcopy(parent: nat, child: nat, sz: nat) returns (r: int)
      requires Valid() && IsRoot(Mem(), parent) && IsRoot(Mem(), child) && parent != child && sz <= MAXVA
      requires Clear(Mem(), child, 0, Pages(sz)) && forall v :: 0 <= v < Pages(sz) ==> InMemory(Mem(), parent, v)
      modifies this
      ensures Valid() && IsRoot(Mem(), parent) && IsRoot(Mem(), child) && FreshBut(old(Mem()), Mem(), 0, 0)
      ensures Elsewhere(old(Mem()), Mem(), child, 0, Pages(sz)) && (r == 0 || r == -1)
      ensures r == 0 ==> CopiedRange(old(Mem()), Mem(), parent, child, Pages(sz))
      ensures r != 0 ==> Clear(Mem(), child, 0, Pages(sz)) && |old(free)| < 3 * Pages(sz)
    {
      hide EntriesOk, UsesOk, TablesOk, Px, Lookup, FreeList, Path, Elsewhere, Pool, Owns, Released, IsRoot, FreshBut, Copied;
      ghost var m0, end := Mem(), Pages(sz);
      ElsewhereNothing(m0, child);
      ElsewhereWider(m0, m0, child, 0, 0, 0, end);
      FreshNothing(m0, 0);
      PagesMonotone(sz, sz);
      var i := 0;
      ghost var v := 0;
      while i < sz
        invariant 0 <= v <= end <= NPAGES && i == v * PGSIZE && (v < end <==> i < sz) && Valid()
        invariant IsRoot(Mem(), parent) && IsRoot(Mem(), child)
        invariant Elsewhere(m0, Mem(), child, 0, end) && FreshBut(m0, Mem(), 0, 0)
        invariant CopiedRange(m0, Mem(), parent, child, v) && Clear(Mem(), child, v, end)
        invariant |old(free)| <= |free| + 3 * v
        decreases sz - i
      {
        ghost var m := Mem();
        InMemoryStill(m0, m, parent, child, end, v);
        var ok := CopyOne(parent, child, i / PGSIZE);
        CopiedStill(m0, m, Mem(), parent, child, v, end);
        ElsewhereWider(m, Mem(), child, v, v + 1, 0, end);
        ElsewhereTwice(m0, m, Mem(), child, 0, end);
        FreshSame(m0, m, Mem());
        ClearStill(m, Mem(), child, v, v + 1, v + 1, end);
        if !ok {
          ghost var m1 := Mem();
          CopyUndo(child, i, v, end);
          RootStays(m1, Mem(), parent);
          ElsewhereTwice(m0, m1, Mem(), child, 0, end);
          FreshSame(m0, m1, Mem());
          return -1;
        }
        CopiedMore(m0, m, Mem(), parent, child, v, end);
        i := i + PGSIZE;
        v := v + 1;
      }
      return 0;
    }

    /** The error path of uvmcopy. */
    method CopyUndo(child: nat, i: nat, ghost v: nat, ghost end: nat)
      requires Valid() && IsRoot(Mem(), child) && i == v * PGSIZE && v < end <= NPAGES
      requires Clear(Mem(), child, v + 1, end) && Lookup(Mem(), child, v).None? && OwnsRange(Mem(), child, 0, v)
      modifies this
      ensures Valid() && IsRoot(Mem(), child) && FreshBut(old(Mem()), Mem(), 0, 0)
      ensures Elsewhere(old(Mem()), Mem(), child, 0, end) && Clear(Mem(), child, 0, end)
    {
      hide EntriesOk, UsesOk, TablesOk, Px, Lookup, FreeList, Path, Elsewhere, Pool, Owns, IsRoot;
      ghost var m := Mem();
      Uvmunmap(child, 0, i / PGSIZE, true);
      ClearStill(m, Mem(), child, 0, v, v + 1, end);
      StillUnmapped(m, Mem(), child, 0, v, v);
      ElsewhereWider(m, Mem(), child, 0, v, 0, end);
    }

    /** freewalk: every table of the tree under `f` goes back to the pool, and nothing else does. */
    method Freewalk(f: nat, ghost level: nat, ghost dead: set<(nat, nat)>)
      requires Ready() && Sound(Mem(), dead) && lo <= f < |uses| && uses[f] == Root(level) && Bare(Mem(), f)
      requires Apart(Mem(), dead, f)
      modifies this
      ensures Ready() && Sound(Mem(), dead) && Dismantled(old(Mem()), Mem(), f) && uses[f].Free?
      decreases level
    {
      hide EntriesOk, UsesOk, Pool, Top;
      ghost var m0 := Mem();
      TopSelf(m0, f);
      for i := 0 to NPTE
        invariant Ready() && Sound(Mem(), dead) && |uses| == |m0.uses| && uses[f] == Root(level) && pages[f].Table?
        invariant Trimmed(m0, Mem(), f)
        invariant forall k :: 0 <= k < i ==> !PageTables.Valid(pages[f].ptes[k])
        invariant forall k :: i <= k < NPTE ==> pages[f].ptes[k] == m0.pages[f].ptes[k]
      {
        var pte := pages[f].ptes[i];
        if pte.flags & PTE_V != 0 && pte.flags & PTE_RWX == 0 {
          FreeChild(f, i, level, dead, m0);
        } else {
          NoLeafLeft(m0, Mem(), dead, f, i);
        }
      }
      ghost var m := Mem();
      PutBack(f, dead);
      TrimmedSame(m0, m, Mem(), f);
      DismantledAll(m0, Mem(), f);
    }

    /** The child below entry `i` freed with all its tables, and the entry cleared. */
    method FreeChild(f: nat, i: nat, ghost level: nat, ghost dead: set<(nat, nat)>, ghost m0: Memory)
      requires Ready() && Sound(Mem(), dead) && f < |uses| && uses[f] == Root(level) && pages[f].Table?
      requires |uses| == |m0.uses| == |m0.pages| && Bare(m0, f) && Apart(m0, dead, f) && Trimmed(m0, Mem(), f) && m0.uses[f] == Root(level)
      requires i < NPTE && PageTables.Valid(pages[f].ptes[i]) && m0.pages[f].Table? && pages[f].ptes[i] == m0.pages[f].ptes[i]
      modifies this
      ensures Ready() && Sound(Mem(), dead) && |uses| == |m0.uses| && uses[f] == Root(level) && pages[f].Table?
      ensures Trimmed(m0, Mem(), f) && pages[f].ptes == old(pages)[f].ptes[i := NONE]
      decreases level, 0
    {
      hide EntriesOk, UsesOk, Pool, Top;
      ghost var m := Mem();
      LevelAbove(m0, f, i);
      NotDead(m0, dead, f, i);
      DetachKeeps(m, dead, f, i);
      var child := pages[f].ptes[i].frame;
      PoolLow(lo, head, next, free, uses, child);
      PoolRetag(lo, head, next, free, uses, child, Root(level - 1));
      uses := uses[child := Root(level - 1)];
      ghost var m1 := Mem();
      ChildReady(m0, m, dead, f, i, child);
      Freewalk(child, level - 1, dead + {(f, i)});
      ChildGone(m0, m, m1, Mem(), dead, f, child);
      ClearDeadKeeps(Mem(), dead, f, i);
      ghost var m2 := Mem();
      pages := pages[f := Table(pages[f].ptes[i := NONE])];
      TrimmedSame(m0, m2, Mem(), f);
    }

    /** kfree of an emptied table. */
    method PutBack(f: nat, ghost dead: set<(nat, nat)>)
      requires Ready() && Sound(Mem(), dead) && lo <= f < |uses| && uses[f].Root? && pages[f].Table?
      requires forall i :: 0 <= i < NPTE ==> !PageTables.Valid(pages[f].ptes[i])
      modifies this
      ensures Ready() && Sound(Mem(), dead) && uses == old(uses)[f := Free] && pages == old(pages)[f := Filled(1)]
    {
      hide EntriesOk, UsesOk, Pool;
      FreeTableKeeps(Mem(), dead, f, Filled(1));
      RootIsNotFree(uses, f);
      Kfree(f);
    }

    /** uvmfree: exactly the frames of this address space, its tables and its pages, go back to the pool. */
    method Uvmfree(root: nat, sz: nat)
      requires Valid() && IsRoot(Mem(), root) && sz <= MAXVA && OwnsRange(Mem(), root, 0, Pages(sz))
      requires Clear(Mem(), root, Pages(sz), NPAGES)
      modifies this
      ensures Valid() && |uses| == |old(uses)| && |pages| == |old(pages)|
      ensures forall f :: 0 <= f < |uses| ==>
                if Belongs(old(uses), root, f) then uses[f].Free?
                else uses[f] == old(uses)[f] && pages[f] == old(pages)[f]
      ensures forall r :: IsRoot(old(Mem()), r) && r != root ==> IsRoot(Mem(), r)
      ensures forall r, v :: IsRoot(old(Mem()), r) && r != root && 0 <= v < NPAGES ==> Same(old(Mem()), Mem(), r, v)
    {
      hide EntriesOk, UsesOk, TablesOk, Px, Lookup, FreeList, Path, Elsewhere, Pool, Owns, Released, Top, Dismantled;
      ghost var m := Mem();
      PagesMonotone(sz, sz);
      ReleasedNothing(m, root, true);
      if sz > 0 {
        Uvmunmap(root, 0, PgRoundUp(sz) / PGSIZE, true);
        ClearStill(m, Mem(), root, 0, Pages(sz), Pages(sz), NPAGES);
      }
      ghost var m1 := Mem();
      BareWhenClear(m1, root);
      RootInPool(lo, head, next, free, uses, root);
      Freewalk(root, 2, {});
      SpaceGone(m, m1, Mem(), root);
      OthersSame(m, Mem(), root);
    }
  }
}
