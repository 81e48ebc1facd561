/** malloc, free and morecore over the ring of free blocks.  Addresses and sizes are in header units of 16 bytes. */
module Umalloc {
  import opened Blocks
  import opened FreeRing

  const HEADER := 16            // sizeof(Header)
  const MINCORE := 4096         // the fewest units morecore asks for
  const MAXREQUEST := 0x7fff_ffe0

  /** The units that hold `nbytes` bytes and a header. */
  function Units(nbytes: nat): (n: nat)
    ensures n > 0 && (n - 1) * HEADER >= nbytes && (n - 2) * HEADER < nbytes
  {
    (nbytes + HEADER - 1) / HEADER + 1
  }

  function Core(nunits: nat): nat
  {
    if nunits < MINCORE then MINCORE else nunits
  }

  /** A request that sbrk's int argument can express, for any size malloc accepts. */
  lemma RequestFits(nbytes: nat)
    requires nbytes <= MAXREQUEST
    ensures nbytes + HEADER - 1 < WORD_LIMIT && Core(Units(nbytes)) * HEADER < 0x8000_0000
  {
  }

  /** How many steps along the ring lead from index `i` to `to`. */
  function Dist(i: nat, to: nat, n: nat): nat
    requires i < n && to < n
  {
    if i <= to then to - i else n - i + to
  }

  /** Some place on the ring fits a live block. */
  lemma {:induction false} PlaceExists(ring: seq<nat>, bp: nat, n: nat) returns (k: nat)
    requires 0 < n <= |ring| && Sorted(ring) && ring[0] < bp && bp !in ring
    requires n < |ring| ==> bp < ring[n]
    ensures k < |ring| && ring[k] < bp && (k + 1 < |ring| ==> bp < ring[k + 1])
    decreases n
  {
    assert ring[n - 1] in ring;
    if ring[n - 1] < bp {
      k := n - 1;
    } else {
      k := PlaceExists(ring, bp, n - 1);
    }
  }

  // ------------------------------------------------------ a block coming back

  /** The live block `bp` ends where the next free block begins. */
  ghost predicate MeetsUpper(h: Heap, bp: nat, k: nat)
  {
    k + 1 < |h.ring| && bp in h.size && bp + h.size[bp] == h.ring[k + 1]
  }

  ghost predicate MeetsLower(h: Heap, bp: nat, k: nat)
  {
    0 < k < |h.ring| && h.ring[k] in h.size && h.ring[k] + h.size[h.ring[k]] == bp
  }

  /** `bp` takes in the free block after it, if they meet. */
  lemma TakeUpper(h: Heap, bp: nat, k: nat) returns (h': Heap)
    requires Good(h) && bp in h.live && Between(h, bp, k)
    ensures Good(h') && h'.live == h.live && Between(h', bp, k) && !MeetsUpper(h', bp, k)
    ensures h'.owner.Keys == h.owner.Keys && h'.ring[0] == h.ring[0] && h'.ring[k] == h.ring[k]
    ensures if MeetsUpper(h, bp, k) then h.ring[k + 1] in h.ptr && h.ring[k + 1] in h.size && h' == Absorbed(h, bp, k + 1)
            else h' == h
  {
    if MeetsUpper(h, bp, k) {
      AbsorbedKeeps(h, bp, k + 1);
      h' := Absorbed(h, bp, k + 1);
      AbsorbedApart(h, bp, k);
    } else {
      h' := h;
    }
  }

  lemma AbsorbedApart(h: Heap, bp: nat, k: nat)
    requires Good(h) && bp in h.live && Between(h, bp, k) && MeetsUpper(h, bp, k)
    requires h.ring[k + 1] in h.ptr && h.ring[k + 1] in h.size
    ensures var h' := Absorbed(h, bp, k + 1);
            && Between(h', bp, k) && !MeetsUpper(h', bp, k) && h'.ring[0] == h.ring[0] && h'.ring[k] == h.ring[k]
            && h'.owner.Keys == h.owner.Keys
  {
    hide Links, Tiled, Drop;
    var h' := Absorbed(h, bp, k + 1);
    DropSize(h.ring, k + 1);
    DropAt(h.ring, k + 1, 0);
    DropAt(h.ring, k + 1, k);
    if k + 2 < |h.ring| {
      DropAt(h.ring, k + 1, k + 1);
      assert h.ring[k + 1] in h.ring && h.ring[k + 2] in h.ring && IsBlock(h, h.ring[k + 1]);
    }
  }

  /** `bp` becomes free: part of the free block before it if they meet, a block of its own if not. */
  lemma TakeLower(h: Heap, bp: nat, k: nat) returns (h': Heap)
    requires Good(h) && bp in h.live && Between(h, bp, k) && !MeetsUpper(h, bp, k) && bp in h.size && h.ring[k] in h.size
    ensures Good(h') && h'.live == h.live - {bp} && h'.owner.Keys == h.owner.Keys && h'.ring[0] == h.ring[0]
    ensures h.ring[k] in h'.ring && h.ring[k] in h.ptr
    ensures h' == if MeetsLower(h, bp, k) then Joined(h, bp, k) else Inserted(h, bp, k)
    ensures bp in h'.owner && h'.owner[bp] in h'.ring && h'.owner[bp] in h'.size && h'.size[h'.owner[bp]] >= h.size[bp]
  {
    hide Links, Sorted, Separated;
    LinksIn(h, k);
    assert h.ring[k] in h.ring && IsBlock(h, bp) && Covers(h, bp);
    if MeetsLower(h, bp, k) {
      JoinedKeeps(h, bp, k);
      h' := Joined(h, bp, k);
    } else {
      InsertedKeeps(h, bp, k);
      h' := Inserted(h, bp, k);
    }
  }

  /** The headers that free can follow from its place on the ring. */
  ghost predicate Readable(h: Heap, bp: nat, p: nat)
  {
    bp in h.size && p in h.size && p in h.ptr && h.ptr[p] in h.ptr && h.ptr[p] in h.size && p != bp
  }

  /** The sizes and links that free leaves, given the free block `p` below `bp`. */
  function FreedSize(h: Heap, bp: nat, p: nat): map<nat, nat>
    requires Readable(h, bp, p)
  {
    var s := if bp + h.size[bp] == h.ptr[p] then h.size[bp := h.size[bp] + h.size[h.ptr[p]]] else h.size;
    if p + s[p] == bp then s[p := s[p] + s[bp]] else s
  }

  function FreedPtr(h: Heap, bp: nat, p: nat): map<nat, nat>
    requires Readable(h, bp, p)
  {
    var q := if bp + h.size[bp] == h.ptr[p] then h.ptr[h.ptr[p]] else h.ptr[p];
    if p + h.size[p] == bp then h.ptr[bp := q][p := q] else h.ptr[bp := q][p := bp]
  }

  lemma Follows(h: Heap, bp: nat, k: nat)
    requires Good(h) && bp in h.live && Between(h, bp, k)
    ensures Readable(h, bp, h.ring[k]) && h.ptr[h.ring[k]] == h.ring[Next(k, |h.ring|)]
    ensures MeetsUpper(h, bp, k) <==> bp + h.size[bp] == h.ptr[h.ring[k]]
    ensures MeetsLower(h, bp, k) <==> h.ring[k] + h.size[h.ring[k]] == bp
  {
    hide Tiled, Separated;
    LinksIn(h, k);
    LinksIn(h, Next(k, |h.ring|));
    assert IsBlock(h, bp) && h.ring[k] in h.ring && h.ring[Next(k, |h.ring|)] in h.ring;
  }

  lemma AllLinked(h: Heap)
    requires Good(h)
    ensures forall a :: a in h.ring ==> a in h.ptr
    ensures forall a :: a in h.ring || a in h.live ==> a in h.size
  {
    hide Tiled, Separated;
    forall a | a in h.ring
      ensures a in h.ptr
    {
      var k :| 0 <= k < |h.ring| && h.ring[k] == a;
      LinksIn(h, k);
    }
    assert forall a :: a in h.ring || a in h.live ==> a == h.ring[0] || IsBlock(h, a);
  }

  /** What free writes agrees with the merged heap on every header that still matters. */
  lemma FieldsOf(h: Heap, bp: nat, k: nat, h1: Heap, h2: Heap)
    requires Good(h) && bp in h.live && Between(h, bp, k) && Readable(h, bp, h.ring[k])
    requires Good(h1) && |h1.ring| > k && h1.ring[k] == h.ring[k] && h.ring[k] in h1.ptr && bp in h1.size && h.ring[k] in h1.size
    requires if MeetsUpper(h, bp, k) then h.ring[k + 1] in h.ptr && h.ring[k + 1] in h.size && h1 == Absorbed(h, bp, k + 1)
             else h1 == h
    requires h2 == if MeetsLower(h1, bp, k) then Joined(h1, bp, k) else Inserted(h1, bp, k)
    requires Good(h2) && bp !in h1.ring
    ensures var p := h.ring[k];
            && (forall a :: a in h2.ring ==> a in h2.ptr && a in FreedPtr(h, bp, p) && FreedPtr(h, bp, p)[a] == h2.ptr[a])
            && (forall a :: a in h2.ring || a in h2.live ==> a in FreedSize(h, bp, p) && a in h2.size && FreedSize(h, bp, p)[a] == h2.size[a])
  {
    hide Tiled, Separated, Drop, Put, Links, Sorted, Sizes;
    Follows(h, bp, k);
    AllLinked(h2);
    var p := h.ring[k];
    assert FreedSize(h, bp, p) == h2.size;
    if MeetsLower(h1, bp, k) {
      assert forall a :: a in h1.ptr && a != bp ==> a in FreedPtr(h, bp, p) && FreedPtr(h, bp, p)[a] == h1.ptr[a];
    } else {
      assert FreedPtr(h, bp, p) == h2.ptr;
    }
  }

  /** The heap free leaves is good, with `bp` in a free block and every live block as it was. */
  lemma Freeing(h: Heap, bp: nat, k: nat) returns (h': Heap)
    requires Good(h) && bp in h.live && Between(h, bp, k)
    ensures Readable(h, bp, h.ring[k]) && Good(h') && |h'.ring| > 0
    ensures h'.ptr == FreedPtr(h, bp, h.ring[k]) && h'.size == FreedSize(h, bp, h.ring[k])
    ensures h'.live == h.live - {bp} && h'.owner.Keys == h.owner.Keys && h'.ring[0] == h.ring[0] && h.ring[k] in h'.ring
    ensures bp in h'.owner && h'.owner[bp] in h'.ring && h'.owner[bp] in h'.size && h'.size[h'.owner[bp]] >= h.size[bp]
    ensures forall a :: a in h'.live ==> a in h'.size && a in h.size && h'.size[a] == h.size[a]
  {
    hide Links, Sorted, Separated, Tiled, Drop, Put, FreedPtr, FreedSize;
    Follows(h, bp, k);
    var h1 := TakeUpper(h, bp, k);
    assert h1.ring[k] in h1.ring && IsBlock(h1, bp) && bp !in h1.ring;
    AllLinked(h1);
    var h2 := TakeLower(h1, bp, k);
    FieldsOf(h, bp, k, h1, h2);
    h' := h2.(ptr := FreedPtr(h, bp, h.ring[k]), size := FreedSize(h, bp, h.ring[k]));
    GoodFrame(h2, h');
    AllLinked(h');
    LiveKept(h, bp, h.ring[k]);
    forall a | a in h'.live
      ensures a in h.size && h'.size[a] == h.size[a]
    {
      assert a in h.live && a != bp && a != h.ring[k];
    }
  }

  lemma LiveKept(h: Heap, bp: nat, p: nat)
    requires Readable(h, bp, p)
    ensures forall a :: a in h.size && a != bp && a != p ==> a in FreedSize(h, bp, p) && FreedSize(h, bp, p)[a] == h.size[a]
  {
  }

  lemma GoodRing(h: Heap)
    requires Good(h)
    ensures |h.ring| > 0
  {
  }

  /** `h'` is `h` with the block `q` of `n` units handed out, from the ring or the end of a block on it. */
  ghost predicate Taken(h: Heap, h': Heap, q: nat, n: nat)
  {
    && |h.ring| > 0 && |h'.ring| > 0 && h'.ring[0] == h.ring[0] && h'.owner.Keys == h.owner.Keys
    && q !in h.live && h'.live == h.live + {q} && q in h'.size && h'.size[q] == n
    && forall a :: a in h.live ==> a in h'.size && a in h.size && h'.size[a] == h.size[a]
  }

  /** The heap malloc leaves when it takes `n` units of the free block `ring[i]`. */
  lemma Taking(h: Heap, i: nat, n: nat) returns (h': Heap)
    requires Good(h) && 0 < i < |h.ring| && h.ring[i] in h.size && h.ring[i] in h.ptr && h.size[h.ring[i]] >= n > 0
    ensures h' == if h.size[h.ring[i]] == n then Removed(h, i) else Carved(h, i, n)
    ensures Good(h') && Taken(h, h', h.ring[i] + (h.size[h.ring[i]] - n), n)
    ensures h.ring[i - 1] in h'.ring && h.ring[i - 1] >= h.ring[0]
  {
    hide Links, Separated, Tiled, Drop;
    var p := h.ring[i];
    LinksIn(h, i);
    AllLinked(h);
    assert p in h.ring && h.ring[i - 1] in h.ring;
    if h.size[p] == n {
      RemovedKeeps(h, i);
      h' := Removed(h, i);
      DropSize(h.ring, i);
      DropAt(h.ring, i, 0);
      DropIs(h.ring, i, h.ring[i - 1]);
    } else {
      CarvedKeeps(h, i, n);
      h' := Carved(h, i, n);
      assert IsBlock(h, p);
    }
  }

  /** Every block on the ring has both fields, and leads to the next. */
  lemma OnRing(h: Heap, i: nat)
    requires Good(h) && i < |h.ring|
    ensures h.ring[i] in h.ptr && h.ring[i] in h.size && h.ptr[h.ring[i]] == h.ring[Next(i, |h.ring|)]
  {
    hide Tiled, Separated;
    LinksIn(h, i);
    assert h.ring[i] in h.ring;
  }

  lemma IndexOf(ring: seq<nat>, a: nat) returns (i: nat)
    requires a in ring
    ensures i < |ring| && ring[i] == a
  {
    i :| 0 <= i < |ring| && ring[i] == a;
  }

  /** The search that began after `ring[fi]` has come to `p`, the `i`th block, right after `prevp`; what it has
      passed is too small. */
  ghost predicate Searching(h: Heap, fi: nat, i: nat, prevp: nat, p: nat, nunits: nat)
  {
    && fi < |h.ring| && i < |h.ring| && p == h.ring[i] && p in h.size && p in h.ptr
    && (exists j :: 0 <= j < |h.ring| && h.ring[j] == prevp && Next(j, |h.ring|) == i)
    && forall j :: 0 <= j < |h.ring| && Dist(j, fi, |h.ring|) > Dist(i, fi, |h.ring|) ==> TooSmall(h, h.ring[j], nunits)
  }

  ghost predicate TooSmall(h: Heap, b: nat, nunits: nat)
  {
    b in h.size && h.size[b] < nunits
  }

  ghost predicate AllTooSmall(h: Heap, nunits: nat)
  {
    forall b :: b in h.ring ==> TooSmall(h, b, nunits)
  }

  lemma SearchStarts(h: Heap, freep: nat, nunits: nat) returns (fi: nat, i: nat)
    requires Good(h) && freep in h.ring
    ensures freep in h.ptr && fi < |h.ring| && h.ring[fi] == freep && Searching(h, fi, i, freep, h.ptr[freep], nunits)
  {
    hide Tiled, Separated, Links, Sorted;
    fi := IndexOf(h.ring, freep);
    i := Next(fi, |h.ring|);
    OnRing(h, fi);
    OnRing(h, i);
  }

  lemma SearchFields(h: Heap, fi: nat, i: nat, prevp: nat, p: nat, nunits: nat)
    requires Searching(h, fi, i, prevp, p, nunits)
    ensures fi < |h.ring| && i < |h.ring| && p == h.ring[i] && p in h.size && p in h.ptr
  {
  }

  lemma SearchGoesOn(h: Heap, fi: nat, i: nat, prevp: nat, p: nat, nunits: nat)
    requires Good(h) && Searching(h, fi, i, prevp, p, nunits) && h.size[p] < nunits && p != h.ring[fi]
    ensures Searching(h, fi, Next(i, |h.ring|), p, h.ptr[p], nunits)
    ensures Dist(Next(i, |h.ring|), fi, |h.ring|) < Dist(i, fi, |h.ring|)
  {
    hide Tiled, Separated, Links, Sorted;
    OnRing(h, i);
    OnRing(h, Next(i, |h.ring|));
  }

  /** Back at the start of the search, every free block has been found too small. */
  lemma SearchedAll(h: Heap, fi: nat, i: nat, prevp: nat, p: nat, nunits: nat)
    requires Good(h) && Searching(h, fi, i, prevp, p, nunits) && h.size[p] < nunits && p == h.ring[fi]
    ensures AllTooSmall(h, nunits)
  {
    hide Links, Tiled, Separated;
    assert i == fi;
  }

  /** The static header is never large enough, so a block that is has `prevp` right before it on the ring. */
  lemma FoundAt(h: Heap, fi: nat, i: nat, prevp: nat, p: nat, nunits: nat)
    requires Good(h) && Searching(h, fi, i, prevp, p, nunits) && h.size[p] >= nunits > 0
    ensures i > 0 && h.ring[i - 1] == prevp && !AllTooSmall(h, nunits)
  {
    hide Links, Tiled, Separated, Sorted;
    assert p in h.ring;
  }

  lemma Fields(h: Heap)
    requires Good(h)
    ensures forall a :: a in h.live ==> a in h.size
  {
    AllLinked(h);
  }

  lemma OnlyTheHeader(h: Heap, base: nat, nunits: nat)
    requires h.ring == [] || (h.ring == [base] && base in h.size && h.size[base] == 0)
    requires nunits > 0
    ensures AllTooSmall(h, nunits)
  {
  }

  lemma Enough(h: Heap, nunits: nat)
    requires exists b :: b in h.ring && b in h.size && h.size[b] >= nunits
    ensures !AllTooSmall(h, nunits)
  {
  }

  /** No block outgrows the 32-bit size field. */
  lemma SizeFits(h: Heap, b: nat)
    requires Good(h) && |h.ring| > 0 && IsBlock(h, b) && forall u :: u in h.owner ==> u < WORD_LIMIT
    ensures h.size[b] < WORD_LIMIT
  {
    hide Links, Sorted, Separated;
    assert Covers(h, b);
    assert b + h.size[b] - 1 in h.owner;
  }

  class Allocator {
    const base: nat             // the address of the static header
    var ptr: map<nat, nat>
    var size: map<nat, nat>
    var freep: nat              // 0 before the first malloc
    ghost var ring: seq<nat>
    ghost var live: set<nat>
    ghost var owner: map<nat, nat>

    ghost function State(): Heap
      reads this
    {
      Heap(ptr, size, ring, live, owner)
    }

    /** The ring is in order, free and live blocks tile the heap, and no two free blocks touch. */
    ghost predicate Valid()
      reads this
    {
      && base > 0 && (forall u :: u in owner ==> base < u < WORD_LIMIT)
      && if freep == 0 then ring == [] && live == {} && owner == map[]
         else Good(State()) && ring[0] == base && freep in ring
    }

    constructor (base: nat)
      requires base > 0
      ensures Valid() && this.base == base && freep == 0
    {
      this.base, freep := base, 0;
      ptr, size := map[], map[];
      ring, live, owner := [], {}, map[];
    }

    /** The free block that the search of free stops at: the last one below `bp`. */
    method FindPlace(bp: nat) returns (p: nat, ghost k: nat)
      requires Valid() && freep != 0 && bp in live
      ensures Between(State(), bp, k) && p == ring[k] && p > 0
    {
      hide Tiled, Separated, Links;
      ghost var n := |ring|;
      assert IsBlock(State(), bp);
      ghost var goal := PlaceExists(ring, bp, n);
      ghost var i :| 0 <= i < n && ring[i] == freep;
      p := freep;
      LinksIn(State(), i);
      while !(bp > p && bp < ptr[p])
        invariant 0 <= i < n && p == ring[i] && p in ptr && ptr[p] == ring[Next(i, n)]
        decreases Dist(i, goal, n)
      {
        if p >= ptr[p] && (bp > p || bp < ptr[p]) { break; }
        p := ptr[p];
        i := Next(i, n);
        LinksIn(State(), i);
      }
      k := i;
    }

    /** The two merges of free, or the links that take their place. */
    method Relink(bp: nat, p: nat)
      requires Readable(State(), bp, p)
      modifies this`ptr, this`size
      ensures size == FreedSize(old(State()), bp, p) && ptr == FreedPtr(old(State()), bp, p)
    {
      if bp + size[bp] == ptr[p] {
        size := size[bp := size[bp] + size[ptr[p]]];
        ptr := ptr[bp := ptr[ptr[p]]];
      } else {
        ptr := ptr[bp := ptr[p]];
      }
      if p + size[p] == bp {
        size := size[p := size[p] + size[bp]];
        ptr := ptr[p := ptr[bp]];
      } else {
        ptr := ptr[p := bp];
      }
    }

    /** free: the block is merged with whichever neighbours are free, and nothing else changes. */
    method Free(ap: nat)
      requires Valid() && freep != 0 && ap > 0 && ap - 1 in live
      modifies this
      ensures Valid() && freep != 0 && live == old(live) - {ap - 1} && owner.Keys == old(owner.Keys)
      ensures forall a :: a in live ==> a in size && a in old(size) && size[a] == old(size)[a]
      ensures ap - 1 in old(size) && ap - 1 in owner && owner[ap - 1] in ring
      ensures owner[ap - 1] in size && size[owner[ap - 1]] >= old(size)[ap - 1]
    {
      hide Links, Sorted, Separated, Tiled, Good, FreedSize, FreedPtr;
      var bp := ap - 1;
      var p; ghost var k;
      p, k := FindPlace(bp);
      ghost var h := State();
      ghost var h' := Freeing(h, bp, k);
      Relink(bp, p);
      freep := p;
      ring, live, owner := h'.ring, h'.live, h'.owner;
      assert State() == h' && forall u :: u in owner ==> u in old(owner.Keys);
    }
  
    /** morecore: at least `nu` more units from sbrk, which answers `core`, put on the ring. */
    method Morecore(nu: nat, core: Option<nat>) returns (p: nat)
      requires Valid() && freep != 0 && 0 < nu && (core.Some? ==> Unused(core.value, Core(nu)))
      modifies this
      ensures Valid() && freep != 0 && live == old(live)
      ensures forall a :: a in live ==> a in size && a in old(size) && size[a] == old(size)[a]
      ensures core.None? ==> p == 0 && State() == old(State()) && freep == old(freep)
      ensures core.Some? ==>
                && p == freep && owner.Keys == old(owner.Keys) + Span(core.value, Core(nu))
                && (exists b :: b in ring && b in size && size[b] >= nu)
    {
      hide Links, Sorted, Separated, Tiled, Good;
      var n := Core(nu);
      ghost var h := State();
      AllLinked(h);
      if core.None? { return 0; }
      var hp := core.value;
      GoodRing(h);
      ExtendedKeeps(h, hp, n);
      size := size[hp := n];
      live, owner := live + {hp}, owner + map u | u in Span(hp, n) :: hp;
      assert State() == Extended(h, hp, n);
      Free(hp + 1);
      assert owner[hp] in ring && size[owner[hp]] >= nu;
      p := freep;
    }

    /** Units that sbrk may hand out: above the static header, not in the heap, and addressable. */
    ghost predicate Unused(a: nat, n: nat)
      reads this`owner
    {
      base < a && a + n < WORD_LIMIT && forall u :: a <= u < a + n ==> u !in owner
    }

    /** The end of malloc's search: `nunits` units taken from the free block `ring[i]`, all of it or its tail. */
    method Take(prevp: nat, p: nat, nunits: nat, ghost i: nat) returns (r: nat)
      requires Valid() && freep != 0 && 0 < i < |ring| && p == ring[i] && prevp == ring[i - 1]
      requires p in size && size[p] >= nunits > 0
      modifies this
      ensures Valid() && freep != 0 && r > 0 && r - 1 !in old(live) && live == old(live) + {r - 1}
      ensures r - 1 in size && size[r - 1] == nunits && owner.Keys == old(owner.Keys)
      ensures forall a :: a in old(live) ==> a in size && a in old(size) && size[a] == old(size)[a]
    {
      hide Links, Sorted, Separated, Tiled, Good;
      var q := p;
      ghost var h := State();
      OnRing(h, i);
      ghost var h' := Taking(h, i, nunits);
      if size[p] == nunits {
        ptr := ptr[prevp := ptr[p]];
      } else {
        size := size[p := size[p] - nunits];
        q := p + size[p];
        size := size[q := nunits];
      }
      freep := prevp;
      ring, live, owner := h'.ring, h'.live, h'.owner;
      assert State() == h' && forall u :: u in owner ==> u in old(owner.Keys);
      return q + 1;
    }
  
    /** malloc: a block of its own with room for `nbytes` bytes; 0 exactly when no free block is large enough and
        sbrk refuses.  `core` is what sbrk answers if it is asked, which happens at most once and only when no
        free block is large enough. */
    method Malloc(nbytes: nat, core: Option<nat>) returns (r: nat, ghost asked: bool)
      requires Valid() && nbytes <= MAXREQUEST && (core.Some? ==> Unused(core.value, Core(Units(nbytes))))
      modifies this
      ensures Valid()
      ensures asked <==> AllTooSmall(old(State()), Units(nbytes))
      ensures r == 0 <==> asked && core.None?
      ensures r == 0 ==> live == old(live) && owner == old(owner)
      ensures r != 0 ==>
                && r - 1 !in old(live) && live == old(live) + {r - 1}
                && r - 1 in size && size[r - 1] == Units(nbytes)
      ensures owner.Keys == old(owner.Keys) + if asked && core.Some? then Span(core.value, Core(Units(nbytes))) else {}
      ensures forall a :: a in old(live) ==> a in size && a in old(size) && size[a] == old(size)[a]
    {
      hide Good, Searching, AllTooSmall, Dist, Units;
      var nunits := Units(nbytes);
      if freep == 0 {
        OnlyTheHeader(State(), base, nunits);
        Initialise();
        OnlyTheHeader(State(), base, nunits);
      }
      asked := false;
      ghost var h := State();
      ghost var fi: nat, i: nat := SearchStarts(h, freep, nunits);
      Fields(h);
      var prevp := freep;
      var p := ptr[prevp];
      while true
        invariant Valid() && freep != 0 && fi < |ring| && ring[fi] == freep && Searching(State(), fi, i, prevp, p, nunits)
        invariant !asked ==> State() == h
        invariant asked ==> core.Some? && AllTooSmall(h, nunits) && !AllTooSmall(State(), nunits)
        invariant owner.Keys == h.owner.Keys + if asked then Span(core.value, Core(nunits)) else {}
        invariant live == h.live && forall a :: a in live ==> a in size && a in h.size && size[a] == h.size[a]
        decreases !asked, if fi < |ring| && i < |ring| then Dist(i, fi, |ring|) else 0
      {
        SearchFields(State(), fi, i, prevp, p, nunits);
        if size[p] >= nunits {
          FoundAt(State(), fi, i, prevp, p, nunits);
          r := Take(prevp, p, nunits, i);
          return;
        }
        if p == freep {
          SearchedAll(State(), fi, i, prevp, p, nunits);
          asked := true;
          p := Morecore(nunits, core);
          if p == 0 { return 0, true; }
          Enough(State(), nunits);
          fi, i := SearchStarts(State(), freep, nunits);
        } else {
          SearchGoesOn(State(), fi, i, prevp, p, nunits);
          i := Next(i, |ring|);
        }
        prevp := p;
        p := ptr[p];
      }
    }

    /** The first malloc: the ring is the static header alone. */
    method Initialise()
      requires Valid() && freep == 0
      modifies this
      ensures Valid() && freep == base && ring == [base] && live == {} && owner == map[]
      ensures base in size && size[base] == 0
    {
      freep := base;
      ptr := ptr[base := base];
      size := size[base := 0];
      ring := [base];
    }
  }
}
