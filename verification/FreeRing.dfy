/** The circular list of free blocks behind the user-level malloc: headers at addresses counted in header units,
    and the operations on it that keep every unit of the heap in exactly one block. */
module FreeRing {

  /** `ptr` and `size` are the fields of the headers in memory.  `ring` lists the free blocks by address after the
      static header, `live` the blocks handed out, and `owner` tells which block each unit of the heap is in. */
  datatype Heap = Heap(ptr: map<nat, nat>, size: map<nat, nat>, ring: seq<nat>, live: set<nat>, owner: map<nat, nat>)

  function Next(k: nat, n: nat): nat
  {
    if k + 1 == n then 0 else k + 1
  }

  ghost predicate Sorted(ring: seq<nat>)
  {
    forall j, k :: 0 <= j < k < |ring| ==> ring[j] < ring[k]
  }

  /** One cycle through all free blocks. */
  ghost predicate Links(h: Heap)
  {
    |h.ring| > 0 && forall k :: 0 <= k < |h.ring| ==> h.ring[k] in h.ptr && h.ptr[h.ring[k]] == h.ring[Next(k, |h.ring|)]
  }

  ghost predicate IsBlock(h: Heap, b: nat)
    requires |h.ring| > 0
  {
    b in h.live || (b in h.ring && b != h.ring[0])
  }

  ghost predicate Sizes(h: Heap)
    requires |h.ring| > 0
  {
    && h.ring[0] in h.size && h.size[h.ring[0]] == 0
    && (forall b :: IsBlock(h, b) ==> b in h.size && h.size[b] > 0 && b > h.ring[0])
    && (forall b :: b in h.live ==> b !in h.ring)
  }

  /** No free block ends where another begins. */
  ghost predicate Separated(h: Heap)
    requires |h.ring| > 0 && Sizes(h)
  {
    forall a, b :: IsBlock(h, a) && a in h.ring && b in h.ring ==> a + h.size[a] != b
  }

  ghost predicate Covers(h: Heap, b: nat)
    requires b in h.size
  {
    forall u :: b <= u < b + h.size[b] ==> u in h.owner && h.owner[u] == b
  }

  /** Every unit is in the one block that `owner` names, and every block has all its units. */
  ghost predicate Tiled(h: Heap)
    requires |h.ring| > 0 && Sizes(h)
  {
    && (forall u :: u in h.owner ==> IsBlock(h, h.owner[u]) && h.owner[u] <= u < h.owner[u] + h.size[h.owner[u]])
    && (forall b :: IsBlock(h, b) ==> Covers(h, b))
  }

  ghost predicate Good(h: Heap)
  {
    Links(h) && Sorted(h.ring) && Sizes(h) && Separated(h) && Tiled(h)
  }

  /** Blocks do not overlap. */
  lemma Disjoint(h: Heap, a: nat, b: nat)
    requires Good(h) && IsBlock(h, a) && IsBlock(h, b) && a < b
    ensures a + h.size[a] <= b
  {
    hide Links, Sorted, Separated;
    assert Covers(h, a) && Covers(h, b);
    assert b in h.owner && h.owner[b] == b;
  }

  /** Two blocks never share a unit, and every unit of the heap is in some block. */
  lemma Tiling(h: Heap, u: nat)
    requires Good(h) && |h.ring| > 0
    ensures u in h.owner <==> exists b: nat :: IsBlock(h, b) && b <= u < b + h.size[b]
    ensures forall a: nat, b: nat :: IsBlock(h, a) && IsBlock(h, b) && a <= u < a + h.size[a] && b <= u < b + h.size[b] ==> a == b
  {
    hide Links, Sorted, Separated;
    assert forall b: nat :: IsBlock(h, b) ==> Covers(h, b);
  }

  /** Only headers of free blocks and sizes of blocks matter. */
  lemma GoodFrame(h: Heap, h': Heap)
    requires Good(h) && h'.ring == h.ring && h'.live == h.live && h'.owner == h.owner
    requires forall a :: a in h.ring ==> a in h'.ptr && a in h.ptr && h'.ptr[a] == h.ptr[a]
    requires forall a :: a in h.ring || a in h.live ==> a in h'.size && a in h.size && h'.size[a] == h.size[a]
    ensures Good(h')
  {
    hide Tiled, Links, Sorted;
    FrameLinks(h, h');
    assert h.ring[0] in h.ring;
    assert forall b :: IsBlock(h', b) <==> IsBlock(h, b);
    FrameTiles(h, h');
  }

  lemma FrameLinks(h: Heap, h': Heap)
    requires Links(h) && h'.ring == h.ring
    requires forall a :: a in h.ring ==> a in h'.ptr && a in h.ptr && h'.ptr[a] == h.ptr[a]
    ensures |h.ring| > 0 && Links(h')
  {
    assert forall k :: 0 <= k < |h.ring| ==> h.ring[k] in h.ring;
  }

  lemma FrameTiles(h: Heap, h': Heap)
    requires |h.ring| > 0 && Sizes(h) && Tiled(h) && |h'.ring| > 0 && Sizes(h') && h'.owner == h.owner
    requires forall b :: IsBlock(h', b) <==> IsBlock(h, b)
    requires forall b :: IsBlock(h, b) ==> h'.size[b] == h.size[b]
    ensures Tiled(h')
  {
    forall b: nat | IsBlock(h', b)
      ensures Covers(h', b)
    {
      assert Covers(h, b);
    }
  }

  // --------------------------------------------------------------- operations

  /** The ring without its `j`th block. */
  function Drop(ring: seq<nat>, j: nat): seq<nat>
    requires j < |ring|
  {
    ring[..j] + ring[j + 1..]
  }

  function Moved(owner: map<nat, nat>, a: nat, b: nat): map<nat, nat>
  {
    map u | u in owner :: if owner[u] == a then b else owner[u]
  }

  /** The free block `ring[j]` taken off the ring and handed out. */
  function Removed(h: Heap, j: nat): Heap
    requires 0 < j < |h.ring| && h.ring[j] in h.ptr
  {
    h.(ring := Drop(h.ring, j), ptr := h.ptr[h.ring[j - 1] := h.ptr[h.ring[j]]], live := h.live + {h.ring[j]})
  }

  lemma DropIs(ring: seq<nat>, j: nat, a: nat)
    requires Sorted(ring) && j < |ring|
    ensures a in Drop(ring, j) <==> a in ring && a != ring[j]
    ensures Sorted(Drop(ring, j)) && (j > 0 ==> Drop(ring, j)[0] == ring[0])
  {
    var d := Drop(ring, j);
    assert forall k :: 0 <= k < |d| ==> d[k] == ring[if k < j then k else k + 1];
    if a in ring && a != ring[j] {
      var k :| 0 <= k < |ring| && ring[k] == a;
      assert d[if k < j then k else k - 1] == a;
    }
  }

  lemma DropAt(ring: seq<nat>, j: nat, k: nat)
    requires j < |ring| && k < |ring| - 1
    ensures Drop(ring, j)[k] == ring[if k < j then k else k + 1]
  {
  }

  lemma RemovedLinks(h: Heap, j: nat)
    requires Links(h) && Sorted(h.ring) && 0 < j < |h.ring|
    ensures h.ring[j] in h.ptr && Links(Removed(h, j))
  {
    hide Drop, Sorted;
    DropSize(h.ring, j);
    var h', n := Removed(h, j), |h.ring|;
    forall k | 0 <= k < n - 1
      ensures h'.ring[k] in h'.ptr && h'.ptr[h'.ring[k]] == h'.ring[Next(k, n - 1)]
    {
      RemovedLinkAt(h, j, k);
    }
  }

  lemma DropSize(ring: seq<nat>, j: nat)
    requires j < |ring|
    ensures |Drop(ring, j)| == |ring| - 1
  {
  }

  lemma RemovedLinkAt(h: Heap, j: nat, k: nat)
    requires Links(h) && Sorted(h.ring) && 0 < j < |h.ring| && k < |h.ring| - 1 && h.ring[j] in h.ptr
    ensures var h' := Removed(h, j);
            && |h'.ring| == |h.ring| - 1 && h'.ring[k] in h'.ptr && h'.ptr[h'.ring[k]] == h'.ring[Next(k, |h.ring| - 1)]
  {
    hide Links, Drop;
    var i := if k < j then k else k + 1;
    LinksIn(h, j);
    LinksIn(h, i);
    DropAt(h.ring, j, k);
    DropAt(h.ring, j, Next(k, |h.ring| - 1));
    DropSize(h.ring, j);
  }

  lemma RemovedKeeps(h: Heap, j: nat)
    requires Good(h) && 0 < j < |h.ring|
    ensures h.ring[j] in h.ptr && Good(Removed(h, j))
  {
    hide Links;
    LinksIn(h, j);
    RemovedLinks(h, j);
    var h' := Removed(h, j);
    DropIs(h.ring, j, h.ring[j]);
    forall b
      ensures b in h'.ring <==> b in h.ring && b != h.ring[j]
    {
      DropIs(h.ring, j, b);
    }
    assert h.ring[j] != h.ring[0] && h.ring[j] in h.ring;
    assert forall b :: IsBlock(h', b) <==> IsBlock(h, b);
  }

  lemma LinksIn(h: Heap, j: nat)
    requires Links(h) && j < |h.ring|
    ensures h.ring[j] in h.ptr && h.ptr[h.ring[j]] == h.ring[Next(j, |h.ring|)]
  {
  }

  /** The live block `bp` grown over the free block `ring[j]` right after it. */
  function Absorbed(h: Heap, bp: nat, j: nat): Heap
    requires 0 < j < |h.ring| && h.ring[j] in h.ptr && bp in h.size && h.ring[j] in h.size
  {
    h.(ring := Drop(h.ring, j), ptr := h.ptr[h.ring[j - 1] := h.ptr[h.ring[j]]],
       size := h.size[bp := h.size[bp] + h.size[h.ring[j]]], owner := Moved(h.owner, h.ring[j], bp))
  }

  lemma AbsorbedKeeps(h: Heap, bp: nat, j: nat)
    requires Good(h) && 0 < j < |h.ring| && bp in h.live && bp + h.size[bp] == h.ring[j]
    ensures h.ring[j] in h.ptr && h.ring[j] in h.size && Good(Absorbed(h, bp, j))
  {
    hide Links;
    LinksIn(h, j);
    RemovedLinks(h, j);
    var u := h.ring[j];
    assert u in h.ring && u != h.ring[0] && IsBlock(h, u);
    var h' := Absorbed(h, bp, j);
    assert Links(h') by { SameLinks(Removed(h, j), h'); }
    DropIs(h.ring, j, u);
    forall b
      ensures b in h'.ring <==> b in h.ring && b != u
    {
      DropIs(h.ring, j, b);
    }
    assert forall b :: IsBlock(h', b) <==> IsBlock(h, b) && b != u;
    AbsorbedTiles(h, h', bp, u);
  }

  lemma SameLinks(h: Heap, h': Heap)
    requires Links(h) && h'.ring == h.ring && h'.ptr == h.ptr
    ensures Links(h')
  {
  }

  /** Two blocks that meet made into one: whichever of them gives its name. */
  lemma AbsorbedTiles(h: Heap, h': Heap, a: nat, b: nat)
    requires |h.ring| > 0 && Sizes(h) && Tiled(h) && IsBlock(h, a) && IsBlock(h, b) && a + h.size[a] == b
    requires |h'.ring| > 0 && Sizes(h') && (forall c :: IsBlock(h', c) <==> IsBlock(h, c) && c != b)
    requires h'.owner == Moved(h.owner, b, a) && (forall c :: IsBlock(h, c) ==> c in h.size)
    requires forall c :: IsBlock(h', c) ==> h'.size[c] == if c == a then h.size[a] + h.size[b] else h.size[c]
    ensures Tiled(h')
  {
    assert Covers(h, b);
    forall c: nat | IsBlock(h', c)
      ensures Covers(h', c)
    {
      assert Covers(h, c);
    }
  }

  lemma SameTiles(h: Heap, h': Heap)
    requires |h.ring| > 0 && Sizes(h) && Tiled(h) && |h'.ring| > 0 && Sizes(h') && h'.size == h.size && h'.owner == h.owner
    requires forall b :: IsBlock(h', b) <==> IsBlock(h, b)
    ensures Tiled(h')
  {
    forall b: nat | IsBlock(h', b)
      ensures Covers(h', b)
    {
      assert Covers(h, b);
    }
  }

  /** The ring with `bp` after its `k`th block. */
  function Put(ring: seq<nat>, k: nat, bp: nat): (r: seq<nat>)
    requires k < |ring|
    ensures |r| == |ring| + 1
  {
    ring[..k + 1] + [bp] + ring[k + 1..]
  }

  lemma PutAt(ring: seq<nat>, k: nat, bp: nat, i: nat)
    requires k < |ring| && i <= |ring|
    ensures Put(ring, k, bp)[i] == if i <= k then ring[i] else if i == k + 1 then bp else ring[i - 1]
  {
  }

  lemma PutSorted(ring: seq<nat>, k: nat, bp: nat)
    requires k < |ring| && Sorted(ring) && ring[k] < bp && (k + 1 < |ring| ==> bp < ring[k + 1])
    ensures Sorted(Put(ring, k, bp)) && Put(ring, k, bp)[0] == ring[0]
  {
    hide Put;
    PutAt(ring, k, bp, 0);
    forall i, j | 0 <= i < j <= |ring|
      ensures Put(ring, k, bp)[i] < Put(ring, k, bp)[j]
    {
      PutAt(ring, k, bp, i);
      PutAt(ring, k, bp, j);
    }
  }

  /** The live block `bp` put on the ring after `ring[k]`. */
  function Inserted(h: Heap, bp: nat, k: nat): Heap
    requires k < |h.ring| && h.ring[k] in h.ptr
  {
    h.(ring := Put(h.ring, k, bp), ptr := h.ptr[bp := h.ptr[h.ring[k]]][h.ring[k] := bp],
       live := h.live - {bp})
  }

  /** The live block `bp` falls between the `k`th free block and the next. */
  ghost predicate Between(h: Heap, bp: nat, k: nat)
  {
    k < |h.ring| && h.ring[k] < bp && (k + 1 < |h.ring| ==> bp < h.ring[k + 1])
  }

  lemma InsertedLinks(h: Heap, bp: nat, k: nat)
    requires Links(h) && Sorted(h.ring) && Between(h, bp, k)
    ensures h.ring[k] in h.ptr && Links(Inserted(h, bp, k))
  {
    hide Put, Sorted;
    LinksIn(h, k);
    var h', n := Inserted(h, bp, k), |h.ring|;
    forall i | 0 <= i <= n
      ensures h'.ring[i] in h'.ptr && h'.ptr[h'.ring[i]] == h'.ring[Next(i, n + 1)]
    {
      InsertedLinkAt(h, bp, k, i);
    }
  }

  lemma InsertedLinkAt(h: Heap, bp: nat, k: nat, i: nat)
    requires Links(h) && Sorted(h.ring) && Between(h, bp, k) && i <= |h.ring| && h.ring[k] in h.ptr
    ensures var h' := Inserted(h, bp, k); h'.ring[i] in h'.ptr && h'.ptr[h'.ring[i]] == h'.ring[Next(i, |h.ring| + 1)]
  {
    hide Links, Put;
    LinksIn(h, k);
    PutAt(h.ring, k, bp, i);
    PutAt(h.ring, k, bp, Next(i, |h.ring| + 1));
    if i != k + 1 {
      LinksIn(h, if i <= k then i else i - 1);
    }
  }

  lemma InsertedKeeps(h: Heap, bp: nat, k: nat)
    requires Good(h) && bp in h.live && Between(h, bp, k)
    requires k > 0 ==> h.ring[k] + h.size[h.ring[k]] != bp
    requires k + 1 < |h.ring| ==> bp + h.size[bp] != h.ring[k + 1]
    ensures h.ring[k] in h.ptr && Good(Inserted(h, bp, k))
  {
    hide Links;
    InsertedLinks(h, bp, k);
    PutSorted(h.ring, k, bp);
    var h' := Inserted(h, bp, k);
    assert forall b :: b in h'.ring <==> b in h.ring || b == bp;
    assert forall b :: IsBlock(h', b) <==> IsBlock(h, b);
    SameTiles(h, h');
    forall a: nat, b: nat | IsBlock(h', a) && a in h'.ring && b in h'.ring
      ensures a + h'.size[a] != b
    {
      TouchesNext(h, bp, k, a, b);
    }
  }

  /** Only the neighbours on the ring can touch `bp`. */
  lemma TouchesNext(h: Heap, bp: nat, k: nat, a: nat, b: nat)
    requires Good(h) && bp in h.live && Between(h, bp, k)
    requires k > 0 ==> h.ring[k] + h.size[h.ring[k]] != bp
    requires k + 1 < |h.ring| ==> bp + h.size[bp] != h.ring[k + 1]
    requires IsBlock(h, a) && (a in h.ring || a == bp) && (b in h.ring || b == bp)
    ensures a + h.size[a] != b
  {
    hide Links, Tiled;
    if a == bp && b in h.ring && bp + h.size[bp] == b {
      var i :| 0 <= i < |h.ring| && h.ring[i] == b;
      assert i > k;
      if i > k + 1 {
        Disjoint(h, bp, h.ring[k + 1]);
      }
    } else if b == bp && a in h.ring && a + h.size[a] == bp {
      var i :| 0 <= i < |h.ring| && h.ring[i] == a;
      assert i <= k;
      if i < k {
        Disjoint(h, a, h.ring[k]);
      }
    }
  }

  /** The live block `bp` added to the free block `ring[k]` that ends where it begins. */
  function Joined(h: Heap, bp: nat, k: nat): Heap
    requires k < |h.ring| && h.ring[k] in h.size && bp in h.size
  {
    h.(size := h.size[h.ring[k] := h.size[h.ring[k]] + h.size[bp]], live := h.live - {bp}, owner := Moved(h.owner, bp, h.ring[k]))
  }

  lemma JoinedKeeps(h: Heap, bp: nat, k: nat)
    requires Good(h) && bp in h.live && Between(h, bp, k) && k > 0 && h.ring[k] in h.size
    requires h.ring[k] + h.size[h.ring[k]] == bp
    requires k + 1 < |h.ring| ==> bp + h.size[bp] != h.ring[k + 1]
    ensures bp in h.size && Good(Joined(h, bp, k))
  {
    hide Links;
    var p := h.ring[k];
    assert p in h.ring && p != h.ring[0] && IsBlock(h, p) && IsBlock(h, bp);
    var h' := Joined(h, bp, k);
    assert Links(h') by { SameLinks(h, h'); }
    assert forall b :: IsBlock(h', b) <==> IsBlock(h, b) && b != bp;
    AbsorbedTiles(h, h', p, bp);
    forall a: nat, b: nat | IsBlock(h', a) && a in h'.ring && b in h'.ring
      ensures a + h'.size[a] != b
    {
      if a == p {
        JoinedApart(h, bp, k, b);
      }
    }
  }

  lemma JoinedApart(h: Heap, bp: nat, k: nat, b: nat)
    requires Good(h) && bp in h.live && Between(h, bp, k) && b in h.ring
    requires k + 1 < |h.ring| ==> bp + h.size[bp] != h.ring[k + 1]
    ensures bp + h.size[bp] != b
  {
    hide Links, Tiled;
    if bp + h.size[bp] == b {
      var i :| 0 <= i < |h.ring| && h.ring[i] == b;
      if i > k + 1 {
        Disjoint(h, bp, h.ring[k + 1]);
      }
    }
  }

  /** The last `n` units of the free block `ring[j]` handed out. */
  function Carved(h: Heap, j: nat, n: nat): Heap
    requires j < |h.ring| && h.ring[j] in h.size && n <= h.size[h.ring[j]]
  {
    var p := h.ring[j];
    var q := p + (h.size[p] - n);
    h.(size := h.size[p := h.size[p] - n][q := n], live := h.live + {q},
       owner := map u | u in h.owner :: if h.owner[u] == p && u >= q then q else h.owner[u])
  }

  lemma CarvedKeeps(h: Heap, j: nat, n: nat)
    requires Good(h) && 0 < j < |h.ring| && h.ring[j] in h.size && 0 < n < h.size[h.ring[j]]
    ensures Good(Carved(h, j, n)) && !IsBlock(h, h.ring[j] + (h.size[h.ring[j]] - n))
  {
    hide Links, Tiled, Covers;
    var p := h.ring[j];
    var q := p + (h.size[p] - n);
    assert p in h.ring && p != h.ring[0] && IsBlock(h, p);
    InsideABlock(h, p, q);
    var h' := Carved(h, j, n);
    assert Links(h') by { SameLinks(h, h'); }
    assert forall b :: IsBlock(h', b) <==> IsBlock(h, b) || b == q;
    CarvedTiles(h, h', p, q);
    assert forall b :: b in h.ring ==> b == h.ring[0] || IsBlock(h, b);
  }

  lemma InsideABlock(h: Heap, p: nat, q: nat)
    requires |h.ring| > 0 && Sizes(h) && Tiled(h) && IsBlock(h, p) && p < q < p + h.size[p]
    ensures !IsBlock(h, q)
  {
    assert Covers(h, p) && h.owner[q] == p;
    assert IsBlock(h, q) ==> Covers(h, q);
  }

  lemma CarvedTiles(h: Heap, h': Heap, p: nat, q: nat)
    requires |h.ring| > 0 && Sizes(h) && Tiled(h) && IsBlock(h, p) && p < q < p + h.size[p] && !IsBlock(h, q)
    requires |h'.ring| > 0 && Sizes(h') && forall b :: IsBlock(h', b) <==> IsBlock(h, b) || b == q
    requires h'.owner == map u | u in h.owner :: if h.owner[u] == p && u >= q then q else h.owner[u]
    requires h'.size[p] == q - p && h'.size[q] == h.size[p] - (q - p)
    requires forall b :: IsBlock(h, b) && b != p ==> h'.size[b] == h.size[b]
    ensures Tiled(h')
  {
    hide Covers, IsBlock;
    forall b: nat | IsBlock(h', b)
      ensures Covers(h', b)
    {
      assert IsBlock(h, if b == q then p else b);
      CarvedCovers(h, h', p, q, b);
    }
  }

  lemma CarvedCovers(h: Heap, h': Heap, p: nat, q: nat, b: nat)
    requires var c := if b == q then p else b; c in h.size && p in h.size && Covers(h, c) && p < q < p + h.size[p]
    requires h'.owner == map u | u in h.owner :: if h.owner[u] == p && u >= q then q else h.owner[u]
    requires b in h'.size && h'.size[b] == if b == p then q - p else if b == q then h.size[p] - (q - p) else h.size[b]
    ensures Covers(h', b)
  {
  }

  function Span(a: nat, n: nat): (s: set<nat>)
    ensures forall u :: u in s <==> a <= u < a + n
  {
    if n == 0 then {} else Span(a, n - 1) + {a + n - 1}
  }

  /** A block of `n` new units at `a`, live. */
  function Extended(h: Heap, a: nat, n: nat): Heap
  {
    h.(size := h.size[a := n], live := h.live + {a}, owner := h.owner + map u | u in Span(a, n) :: a)
  }

  lemma ExtendedKeeps(h: Heap, a: nat, n: nat)
    requires Good(h) && 0 < n && |h.ring| > 0 && a > h.ring[0] && forall u :: a <= u < a + n ==> u !in h.owner
    ensures Good(Extended(h, a, n)) && !IsBlock(h, a) && a !in h.ring
  {
    hide Links, Tiled, Covers;
    NotInHeap(h, a);
    var h' := Extended(h, a, n);
    assert Links(h') by { SameLinks(h, h'); }
    assert forall b :: IsBlock(h', b) <==> IsBlock(h, b) || b == a;
    ExtendedTiles(h, h', a, n);
  }

  lemma NotInHeap(h: Heap, a: nat)
    requires |h.ring| > 0 && Sizes(h) && Tiled(h) && a !in h.owner
    ensures !IsBlock(h, a)
  {
    assert IsBlock(h, a) ==> Covers(h, a);
  }

  lemma ExtendedTiles(h: Heap, h': Heap, a: nat, n: nat)
    requires |h.ring| > 0 && Sizes(h) && Tiled(h) && !IsBlock(h, a) && h' == Extended(h, a, n) && 0 < n
    requires forall u :: a <= u < a + n ==> u !in h.owner
    requires Sizes(h') && forall b :: IsBlock(h', b) <==> IsBlock(h, b) || b == a
    ensures Tiled(h')
  {
    forall b: nat | IsBlock(h', b)
      ensures Covers(h', b)
    {
      if b != a {
        assert Covers(h, b);
      }
    }
  }
}
