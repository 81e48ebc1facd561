/** Shared pages: each key's reference count, its page, and the processes attached to it.  The step methods are the
    critical sections under a key's lock and the steps a process takes on its own mask and page table, so that steps of
    different processes may come in any order between them. */
module Shm {
  import opened Blocks

  const PGSIZE := 4096

  /** `pa` is the frame of each key's page, 0 for none; `mask` the keys each process has a bit for; `maps` the frame
      mapped at each key's address.  `leaving` are references of processes that have unmapped the page and cleared their
      bit but not yet given the reference up; `torn` are bits still set in a process being torn down whose reference is
      already gone; `pool` are the frames not in use. */
  datatype State = State(refcnt: seq<nat>, pa: seq<nat>, mask: seq<set<nat>>, maps: seq<map<nat, nat>>,
                         leaving: set<(nat, nat)>, torn: set<(nat, nat)>, pool: set<nat>)

  predicate Holds(s: State, p: nat, key: nat)
    requires p < |s.mask|
  {
    (key in s.mask[p] && (p, key) !in s.torn) || (p, key) in s.leaving
  }

  /** The processes below `n` that hold a reference to `key`. */
  ghost function Holders(s: State, key: nat, n: nat): (h: set<nat>)
    requires n <= |s.mask|
    ensures forall p :: p in h <==> 0 <= p < n && Holds(s, p, key)
  {
    if n == 0 then {} else Holders(s, key, n - 1) + if Holds(s, n - 1, key) then {n - 1} else {}
  }

  /** The count is the number of references held, and the page exists exactly while there are any. */
  ghost predicate KeyOk(s: State, key: nat)
    requires key < |s.pa| == |s.refcnt|
  {
    && s.refcnt[key] == |Holders(s, key, |s.mask|)|
    && (s.pa[key] != 0 <==> s.refcnt[key] > 0) && s.pa[key] !in s.pool
  }

  /** The process maps exactly the pages it is attached to, each at the frame of its key. */
  ghost predicate ProcOk(s: State, p: nat)
    requires p < |s.mask| == |s.maps|
  {
    && (forall key :: key in s.mask[p] ==> key < |s.pa|)
    && (forall key :: key in s.maps[p] <==> key in s.mask[p] && (p, key) !in s.torn)
    && (forall key :: key in s.maps[p] && key < |s.pa| ==> s.maps[p][key] == s.pa[key])
  }

  ghost predicate Marks(s: State)
  {
    && (forall p, key :: (p, key) in s.leaving ==> p < |s.mask| && key < |s.pa| && key !in s.mask[p])
    && (forall p, key :: (p, key) in s.torn ==> p < |s.mask| && key in s.mask[p])
  }

  ghost predicate Good(s: State)
  {
    && |s.refcnt| == |s.pa| && |s.mask| == |s.maps| && 0 !in s.pool
    && (forall key :: 0 <= key < |s.pa| ==> KeyOk(s, key))
    && (forall j, k :: 0 <= j < k < |s.pa| && s.pa[j] != 0 ==> s.pa[j] != s.pa[k])
    && (forall p :: 0 <= p < |s.mask| ==> ProcOk(s, p))
    && Marks(s)
  }

  /** When nothing is half done, each count is the number of processes with the key's bit. */
  lemma CountIsAttached(s: State, key: nat)
    requires Good(s) && key < |s.pa| && s.leaving == {} && s.torn == {}
    ensures forall p :: p in Holders(s, key, |s.mask|) <==> 0 <= p < |s.mask| && key in s.mask[p]
    ensures s.refcnt[key] == |Holders(s, key, |s.mask|)|
  {
    assert KeyOk(s, key);
  }

  /** Nobody maps a page that has been freed, in any state. */
  lemma NoDanglingMap(s: State, p: nat, key: nat)
    requires Good(s) && p < |s.mask| && key in s.maps[p]
    ensures key < |s.pa| && s.pa[key] != 0 && s.maps[p][key] == s.pa[key] && s.pa[key] !in s.pool
  {
    assert ProcOk(s, p);
    assert KeyOk(s, key);
    assert p in Holders(s, key, |s.mask|);
  }

  // ------------------------------------------------------------------- counting

  lemma HoldersSame(s: State, s': State, key: nat)
    requires |s.mask| == |s'.mask| && forall p :: 0 <= p < |s.mask| ==> (Holds(s', p, key) <==> Holds(s, p, key))
    ensures Holders(s', key, |s'.mask|) == Holders(s, key, |s.mask|)
  {
    assert forall p :: p in Holders(s', key, |s'.mask|) <==> p in Holders(s, key, |s.mask|);
  }

  lemma HoldersMore(s: State, s': State, key: nat, p: nat)
    requires |s.mask| == |s'.mask| && p < |s.mask| && !Holds(s, p, key) && Holds(s', p, key)
    requires forall q :: 0 <= q < |s.mask| && q != p ==> (Holds(s', q, key) <==> Holds(s, q, key))
    ensures |Holders(s', key, |s'.mask|)| == |Holders(s, key, |s.mask|)| + 1
  {
    assert Holders(s', key, |s'.mask|) == Holders(s, key, |s.mask|) + {p};
  }

  lemma HoldersLess(s: State, s': State, key: nat, p: nat)
    requires |s.mask| == |s'.mask| && p < |s.mask| && Holds(s, p, key) && !Holds(s', p, key)
    requires forall q :: 0 <= q < |s.mask| && q != p ==> (Holds(s', q, key) <==> Holds(s, q, key))
    ensures |Holders(s', key, |s'.mask|)| == |Holders(s, key, |s.mask|)| - 1
  {
    assert Holders(s, key, |s.mask|) == Holders(s', key, |s'.mask|) + {p};
  }

  // --------------------------------------------------------------------- steps

  function Mapped(m: map<nat, nat>, key: nat, frame: nat): map<nat, nat>
  {
    m[key := frame]
  }

  /** Process `p` attached to `key`, whose page is now `frame`. */
  function Attached(s: State, p: nat, key: nat, frame: nat): State
    requires p < |s.mask| == |s.maps| && key < |s.pa| == |s.refcnt|
  {
    s.(pa := s.pa[key := frame], refcnt := s.refcnt[key := s.refcnt[key] + 1], mask := s.mask[p := s.mask[p] + {key}],
       maps := s.maps[p := Mapped(s.maps[p], key, frame)], pool := s.pool - {frame})
  }

  lemma AttachedKey(s: State, p: nat, key: nat, frame: nat, k: nat)
    requires Good(s) && p < |s.mask| && key < |s.pa| && key !in s.mask[p] && (p, key) !in s.leaving && (p, key) !in s.torn
    requires frame != 0 && (if s.pa[key] == 0 then frame in s.pool else frame == s.pa[key]) && k < |s.pa|
    ensures KeyOk(Attached(s, p, key, frame), k)
  {
    hide Good, KeyOk, Attached;
    if k == key { AttachedThis(s, p, key, frame); } else { AttachedOther(s, p, key, frame, k); }
  }

  lemma AttachedThis(s: State, p: nat, key: nat, frame: nat)
    requires Good(s) && p < |s.mask| && key < |s.pa| && key !in s.mask[p] && (p, key) !in s.leaving && (p, key) !in s.torn
    requires frame != 0
    ensures |s.mask| == |s.maps| && |s.pa| == |s.refcnt| && KeyOk(Attached(s, p, key, frame), key)
  {
    hide Good, ProcOk, Marks, Mapped;
    SizesOf(s);
    KeyAt(s, key);
    HoldersMore(s, Attached(s, p, key, frame), key, p);
  }

  lemma AttachedOther(s: State, p: nat, key: nat, frame: nat, k: nat)
    requires Good(s) && p < |s.mask| && key < |s.pa| && k < |s.pa| && k != key
    ensures |s.mask| == |s.maps| && |s.pa| == |s.refcnt| && KeyOk(Attached(s, p, key, frame), k)
  {
    hide Good, ProcOk, Marks, Mapped;
    SizesOf(s);
    KeyAt(s, k);
    HoldersSame(s, Attached(s, p, key, frame), k);
  }

  lemma AttachedProc(s: State, p: nat, key: nat, frame: nat, q: nat)
    requires Good(s) && p < |s.mask| && key < |s.pa| && key !in s.mask[p] && (p, key) !in s.leaving && (p, key) !in s.torn
    requires frame != 0 && (if s.pa[key] == 0 then frame in s.pool else frame == s.pa[key]) && q < |s.mask|
    ensures ProcOk(Attached(s, p, key, frame), q)
  {
    hide Good, KeyOk, Marks;
    ProcAt(s, q);
    if key in s.maps[q] {
      NoDanglingMap(s, q, key);
    }
  }

  lemma AttachedKeeps(s: State, p: nat, key: nat, frame: nat)
    requires Good(s) && p < |s.mask| && key < |s.pa| && key !in s.mask[p] && (p, key) !in s.leaving
    requires frame != 0 && if s.pa[key] == 0 then frame in s.pool else frame == s.pa[key]
    ensures Good(Attached(s, p, key, frame))
  {
    hide KeyOk, ProcOk, Mapped;
    var s' := Attached(s, p, key, frame);
    forall k | 0 <= k < |s.pa|
      ensures KeyOk(s', k)
    {
      AttachedKey(s, p, key, frame, k);
    }
    forall q | 0 <= q < |s.mask|
      ensures ProcOk(s', q)
    {
      AttachedProc(s, p, key, frame, q);
    }
    forall k | 0 <= k < |s.pa|
      ensures s.pa[k] !in s.pool
    {
      KeyAt(s, k);
    }
  }

  /** The page unmapped and the bit cleared; the reference is still to be given up. */
  function Unmapped(s: State, p: nat, key: nat): State
    requires p < |s.mask| == |s.maps|
  {
    s.(mask := s.mask[p := s.mask[p] - {key}], maps := s.maps[p := s.maps[p] - {key}], leaving := s.leaving + {(p, key)})
  }

  lemma UnmappedKeeps(s: State, p: nat, key: nat)
    requires Good(s) && p < |s.mask| && key in s.mask[p] && (p, key) !in s.torn
    ensures Good(Unmapped(s, p, key))
  {
    hide KeyOk, ProcOk;
    var s' := Unmapped(s, p, key);
    forall k | 0 <= k < |s.pa|
      ensures KeyOk(s', k)
    {
      UnmappedKey(s, p, key, k);
    }
    forall q | 0 <= q < |s.mask|
      ensures ProcOk(s', q)
    {
      UnmappedProc(s, p, key, q);
    }
    ProcRange(s, p, key);
  }

  lemma ProcRange(s: State, p: nat, key: nat)
    requires Good(s) && p < |s.mask| && key in s.mask[p]
    ensures key < |s.pa|
  {
    hide KeyOk, Marks;
    ProcAt(s, p);
  }

  lemma UnmappedKey(s: State, p: nat, key: nat, k: nat)
    requires Good(s) && p < |s.mask| && key in s.mask[p] && (p, key) !in s.torn && k < |s.pa|
    ensures |s.pa| == |s.refcnt| && KeyOk(Unmapped(s, p, key), k)
  {
    hide Good, ProcOk, Marks;
    SizesOf(s);
    KeyAt(s, k);
    HoldersSame(s, Unmapped(s, p, key), k);
  }

  lemma UnmappedProc(s: State, p: nat, key: nat, q: nat)
    requires Good(s) && p < |s.mask| && key in s.mask[p] && (p, key) !in s.torn && q < |s.mask|
    ensures |s.mask| == |s.maps| && ProcOk(Unmapped(s, p, key), q)
  {
    hide Good, KeyOk, Marks;
    SizesOf(s);
    ProcAt(s, q);
  }

  /** One reference fewer; the page goes with the last. */
  function Counted(s: State, key: nat): State
    requires key < |s.pa| == |s.refcnt| && s.refcnt[key] > 0
  {
    var s' := s.(refcnt := s.refcnt[key := s.refcnt[key] - 1]);
    if s.refcnt[key] == 1 then s'.(pa := s.pa[key := 0], pool := s.pool + {s.pa[key]}) else s'
  }

  lemma ReferenceCounts(s: State, p: nat, key: nat)
    requires Good(s) && p < |s.mask| && key < |s.pa| && Holds(s, p, key)
    ensures s.refcnt[key] > 0 && s.pa[key] != 0 && s.pa[key] !in s.pool
    ensures s.refcnt[key] == 1 ==> forall q :: 0 <= q < |s.mask| && Holds(s, q, key) ==> q == p
  {
    assert KeyOk(s, key);
    var h := Holders(s, key, |s.mask|);
    assert p in h;
    if s.refcnt[key] == 1 {
      assert |h - {p}| == 0;
      assert forall q :: 0 <= q < |s.mask| && Holds(s, q, key) ==> q in h;
    }
  }

  /** The reference given up after the page was unmapped. */
  lemma ReleasedKeeps(s: State, p: nat, key: nat)
    requires Good(s) && (p, key) in s.leaving
    ensures p < |s.mask| && key < |s.pa| && |s.pa| == |s.refcnt| && s.refcnt[key] > 0
    ensures Good(Counted(s.(leaving := s.leaving - {(p, key)}), key))
  {
    hide Good, KeyOk, Holders;
    SizesOf(s);
    MarksOf(s);
    ProcAt(s, p);
    ReferenceCounts(s, p, key);
    var s' := Counted(s.(leaving := s.leaving - {(p, key)}), key);
    CountedKeeps(s, s', p, key);
  }

  /** `s'` is `s` after `p` gave up its reference to `key`, in one way or the other. */
  ghost predicate GaveUp(s: State, s': State, p: nat, key: nat)
    requires p < |s.mask| == |s.maps| && key < |s.pa| == |s.refcnt| && s.refcnt[key] > 0
  {
    && s' == Counted(s.(maps := s'.maps, leaving := s'.leaving, torn := s'.torn), key) && Marks(s')
    && |s'.maps| == |s.maps| && (forall q :: 0 <= q < |s.maps| && q != p ==> s'.maps[q] == s.maps[q])
    && s'.maps[p] == s.maps[p] - {key}
    && Holds(s, p, key) && !Holds(s', p, key) && (key in s.mask[p] ==> (p, key) in s'.torn)
    && (forall q, k :: (q, k) != (p, key) ==> ((q, k) in s'.torn <==> (q, k) in s.torn))
    && (forall q, k :: (q, k) != (p, key) ==> ((q, k) in s'.leaving <==> (q, k) in s.leaving))
  }

  lemma CountedKey(s: State, s': State, p: nat, key: nat, k: nat)
    requires Good(s) && p < |s.mask| && key < |s.pa| && s.refcnt[key] > 0 && GaveUp(s, s', p, key) && k < |s.pa|
    ensures KeyOk(s', k)
  {
    hide Good, KeyOk, GaveUp;
    if k == key { CountedThis(s, s', p, key); } else { CountedOther(s, s', p, key, k); }
  }

  lemma CountedThis(s: State, s': State, p: nat, key: nat)
    requires Good(s) && p < |s.mask| && key < |s.pa| && s.refcnt[key] > 0 && GaveUp(s, s', p, key)
    ensures KeyOk(s', key)
  {
    hide Good, ProcOk, Marks;
    KeyAt(s, key);
    SizesOf(s);
    HoldersLess(s, s', key, p);
  }

  lemma CountedOther(s: State, s': State, p: nat, key: nat, k: nat)
    requires Good(s) && p < |s.mask| && key < |s.pa| && s.refcnt[key] > 0 && GaveUp(s, s', p, key) && k < |s.pa| && k != key
    ensures KeyOk(s', k)
  {
    hide Good, ProcOk, Marks;
    KeyAt(s, k);
    KeyAt(s, key);
    SizesOf(s);
    HoldersSame(s, s', k);
    if s.pa[k] != 0 {
      PagesApart(s, k, key);
    }
  }

  lemma CountedProc(s: State, s': State, p: nat, key: nat, q: nat)
    requires Good(s) && p < |s.mask| && key < |s.pa| && s.refcnt[key] > 0 && GaveUp(s, s', p, key) && q < |s.mask|
    ensures ProcOk(s', q)
  {
    hide Good, KeyOk, Marks;
    SizesOf(s);
    ProcAt(s, q);
    ReferenceCounts(s, p, key);
    if q != p && key in s.maps[q] {
      assert Holds(s, q, key);
    }
  }

  /** What is common to both ways of giving up a reference. */
  lemma CountedKeeps(s: State, s': State, p: nat, key: nat)
    requires Good(s) && p < |s.mask| && key < |s.pa| && s.refcnt[key] > 0 && GaveUp(s, s', p, key)
    ensures Good(s')
  {
    hide KeyOk, ProcOk, Holds;
    forall k | 0 <= k < |s.pa|
      ensures KeyOk(s', k)
    {
      CountedKey(s, s', p, key, k);
    }
    forall q | 0 <= q < |s.mask|
      ensures ProcOk(s', q)
    {
      CountedProc(s, s', p, key, q);
    }
    ReferenceCounts(s, p, key);
  }

  /** Attaching to a page already there takes no frame. */
  lemma SamePage(s: State, key: nat, page: nat)
    requires key < |s.pa| && s.pa[key] !in s.pool
    ensures s.pa[key] == page ==> s.pa[key := page] == s.pa && s.pool - {page} == s.pool
  {
  }

  lemma PageTaken(s: State, key: nat)
    requires Good(s) && key < |s.pa|
    ensures s.pa[key] !in s.pool
  {
    assert KeyOk(s, key);
  }

  lemma KeyAt(s: State, key: nat)
    requires Good(s) && key < |s.pa|
    ensures |s.pa| == |s.refcnt| && KeyOk(s, key)
  {
  }

  lemma ProcAt(s: State, p: nat)
    requires Good(s) && p < |s.mask|
    ensures |s.mask| == |s.maps| && ProcOk(s, p)
  {
  }

  lemma MarksOf(s: State)
    requires Good(s)
    ensures Marks(s)
  {
  }

  lemma SizesOf(s: State)
    requires Good(s)
    ensures |s.refcnt| == |s.pa| && |s.mask| == |s.maps| && 0 !in s.pool
  {
  }

  lemma PagesApart(s: State, j: nat, k: nat)
    requires Good(s) && j < |s.pa| && k < |s.pa| && j != k && s.pa[j] != 0
    ensures s.pa[j] != s.pa[k]
  {
  }

  /** A process being torn down unmaps a page and gives its reference up; its bit is still set. */
  function Torn(s: State, p: nat, key: nat): State
    requires p < |s.mask| == |s.maps| && key < |s.pa| == |s.refcnt| && s.refcnt[key] > 0
  {
    Counted(s.(maps := s.maps[p := s.maps[p] - {key}], torn := s.torn + {(p, key)}), key)
  }

  lemma TornKeeps(s: State, p: nat, key: nat)
    requires Good(s) && p < |s.mask| && key in s.mask[p] && (p, key) !in s.torn && (p, key) !in s.leaving
    ensures key < |s.pa| && s.refcnt[key] > 0 && Good(Torn(s, p, key))
  {
    hide Good, KeyOk, Holders;
    SizesOf(s);
    MarksOf(s);
    ProcAt(s, p);
    ReferenceCounts(s, p, key);
    CountedKeeps(s, Torn(s, p, key), p, key);
  }

  /** The mask cleared at the end of the tear-down. */
  function Cleared(s: State, p: nat): State
    requires p < |s.mask|
  {
    s.(mask := s.mask[p := {}], torn := s.torn - set key | key in s.mask[p] :: (p, key))
  }

  lemma ClearedKeeps(s: State, p: nat)
    requires Good(s) && p < |s.mask| && forall key :: key in s.mask[p] ==> (p, key) in s.torn
    ensures Good(Cleared(s, p))
  {
    var s' := Cleared(s, p);
    assert ProcOk(s, p);
    forall q, k | 0 <= q < |s.mask| && q != p
      ensures (q, k) in s'.torn <==> (q, k) in s.torn
    {
    }
    forall k | 0 <= k < |s.pa|
      ensures KeyOk(s', k)
    {
      assert KeyOk(s, k);
      HoldersSame(s, s', k);
    }
    forall q | 0 <= q < |s.mask|
      ensures ProcOk(s', q)
    {
      assert ProcOk(s, q);
    }
  }

  /** A step of process `q`: kshmget, the two halves of kshmdt, one key of shmcleanup, its end. */
  datatype Act =
    | Attach(q: nat, key: nat, frame: nat, room: bool) | Leave(q: nat, key: nat) | Drop(q: nat, key: nat)
    | Tear(q: nat, key: nat) | Clear(q: nat)

  class Table {
    const base: nat             // SHMBASE
    var refcnt: seq<nat>
    var pa: seq<nat>
    var mask: seq<set<nat>>
    var maps: seq<map<nat, nat>>
    var leaving: set<(nat, nat)>      // history, like torn and pool
    var torn: set<(nat, nat)>
    var pool: set<nat>

    ghost function Snap(): State
      reads this
    {
      State(refcnt, pa, mask, maps, leaving, torn, pool)
    }

    ghost predicate Valid()
      reads this
    {
      Good(Snap())
    }

    /** The process is not in the middle of detaching or being torn down. */
    ghost predicate Settled(p: nat)
      reads this
    {
      p < |mask| && forall key :: (p, key) !in leaving && (p, key) !in torn
    }

    constructor (base: nat, nkeys: nat, nprocs: nat, pool: set<nat>)
      requires 0 !in pool
      ensures Valid() && |pa| == nkeys && |mask| == nprocs && leaving == torn == {} && this.pool == pool
      ensures forall p :: 0 <= p < nprocs ==> mask[p] == {}
    {
      this.base, this.pool := base, pool;
      refcnt, pa := seq(nkeys, i => 0), seq(nkeys, i => 0);
      mask, maps := seq(nprocs, i => {}), seq(nprocs, i => map[]);
      leaving, torn := {}, {};
      new;
      forall key | 0 <= key < nkeys
        ensures KeyOk(Snap(), key)
      {
        assert Holders(Snap(), key, |mask|) == {};
      }
    }

    /** kshmget.  `frame` is what kalloc answers if it is asked, and `room` whether mappages finds memory for its tables.
        The result is the key's fixed address, with the process attached, or 0 with nothing changed. */
    method Get(p: nat, key: int, frame: nat, room: bool) returns (va: nat)
      requires Valid() && Settled(p) && base > 0 && (frame != 0 ==> frame in pool)
      modifies this`refcnt, this`pa, this`mask, this`maps, this`pool
      ensures Valid() && Settled(p) && |pa| == |old(pa)|
      ensures va == 0 ==> Snap() == old(Snap())
      ensures va == 0 <==>
                || key < 0 || key >= |pa|
                || (key !in old(mask)[p] && (!room || (old(pa)[key] == 0 && frame == 0)))
      ensures va != 0 ==>
                && 0 <= key < |pa| && va == base + key * PGSIZE && key in mask[p]
                && (key in old(mask)[p] ==> Snap() == old(Snap()))
                && |old(mask)| == |old(maps)| && |old(pa)| == |old(refcnt)|
                && (key !in old(mask)[p] ==>
                      Snap() == Attached(old(Snap()), p, key, if old(pa)[key] == 0 then frame else old(pa)[key]))
    {
      hide Good, Mapped;
      SizesOf(Snap());
      if key < 0 || key >= |pa| { return 0; }
      if key in mask[p] { return base + key * PGSIZE; }
      PageTaken(Snap(), key);
      ghost var before := Snap();
      var page := pa[key];
      var newpage := page == 0;
      if newpage {
        page := frame;
        if page == 0 { return 0; }
        pa := pa[key := page];
        pool := pool - {page};
      }
      if !room {
        if newpage {
          pool := pool + {page};
          pa := pa[key := 0];
          assert pa == before.pa && pool == before.pool;
        }
        return 0;
      }
      AttachedKeeps(before, p, key, page);
      SamePage(before, key, page);
      maps := maps[p := Mapped(maps[p], key, page)];
      refcnt := refcnt[key := refcnt[key] + 1];
      mask := mask[p := mask[p] + {key}];
      return base + key * PGSIZE;
    }

    /** The first half of kshmdt, on the process's own page table and mask. */
    method Unmap(p: nat, key: nat)
      requires Valid() && p < |mask| && key in mask[p] && (p, key) !in torn
      modifies this`mask, this`maps, this`leaving
      ensures Valid() && |old(mask)| == |old(maps)| && Snap() == Unmapped(old(Snap()), p, key)
    {
      hide Good;
      SizesOf(Snap());
      UnmappedKeeps(Snap(), p, key);
      maps := maps[p := maps[p] - {key}];
      mask := mask[p := mask[p] - {key}];
      leaving := leaving + {(p, key)};
    }

    /** The second half of kshmdt, under the key's lock: the reference is given up, and the page with the last one. */
    method Release(p: nat, key: nat) returns (freed: bool)
      requires Valid() && (p, key) in leaving
      modifies this`refcnt, this`pa, this`leaving, this`pool
      ensures Valid() && key < |old(pa)| == |old(refcnt)| && old(refcnt)[key] > 0 && old(pa)[key] != 0
      ensures Snap() == Counted(old(Snap()).(leaving := old(leaving) - {(p, key)}), key)
      ensures freed <==> old(refcnt)[key] == 1
      ensures p < |mask| && (freed <==> forall q :: 0 <= q < |mask| ==> !Holds(Snap(), q, key))
    {
      hide Good;
      SizesOf(Snap());
      MarksOf(Snap());
      ReleasedKeeps(Snap(), p, key);
      KeyAt(Snap(), key);
      leaving := leaving - {(p, key)};
      freed := Discount(key);
      LastOne(Snap(), key);
    }

    /** A count goes down, and the page goes with it if it reaches 0. */
    method Discount(key: nat) returns (freed: bool)
      requires key < |pa| == |refcnt| && refcnt[key] > 0
      modifies this`refcnt, this`pa, this`pool
      ensures Snap() == Counted(old(Snap()), key) && (freed <==> old(refcnt)[key] == 1)
    {
      refcnt := refcnt[key := refcnt[key] - 1];
      freed := refcnt[key] == 0;
      if freed {
        pool := pool + {pa[key]};
        pa := pa[key := 0];
      }
    }

    /** kshmdt: -1 for a key the process is not attached to. */
    method Detach(p: nat, key: int) returns (r: int)
      requires Valid() && Settled(p)
      modifies this`refcnt, this`pa, this`mask, this`maps, this`leaving, this`pool
      ensures Valid() && Settled(p) && |pa| == |old(pa)|
      ensures r == if 0 <= key < |pa| && key in old(mask)[p] then 0 else -1
      ensures r != 0 ==> Snap() == old(Snap())
      ensures r == 0 ==> mask == old(mask)[p := old(mask)[p] - {key}] && leaving == old(leaving)
    {
      hide Good, Counted;
      SizesOf(Snap());
      if key < 0 || key >= |pa| { return -1; }
      if key !in mask[p] { return -1; }
      Unmap(p, key);
      ghost var before := Snap();
      var _ := Release(p, key);
      CountedFields(before.(leaving := before.leaving - {(p, key)}), key);
      return 0;
    }

    /** One key of shmcleanup: the page unmapped and the reference given up under the key's lock. */
    method TearKey(p: nat, key: nat)
      requires Valid() && p < |mask| && key in mask[p] && (p, key) !in torn && (p, key) !in leaving
      modifies this`refcnt, this`pa, this`maps, this`torn, this`pool
      ensures Valid() && |old(mask)| == |old(maps)| && key < |old(pa)| == |old(refcnt)| && old(refcnt)[key] > 0
      ensures Snap() == Torn(old(Snap()), p, key)
    {
      hide Good;
      SizesOf(Snap());
      TornKeeps(Snap(), p, key);
      maps := maps[p := maps[p] - {key}];
      torn := torn + {(p, key)};
      var _ := Discount(key);
    }

    /** The end of shmcleanup, once every reference is given up: the mask is cleared. */
    method ClearMask(p: nat)
      requires Valid() && p < |mask| && forall key :: key in mask[p] ==> (p, key) in torn
      modifies this`mask, this`torn
      ensures Valid() && mask == old(mask)[p := {}] && torn == old(torn) - set k | k in old(mask)[p] :: (p, k)
    {
      hide Good, Cleared;
      SizesOf(Snap());
      ghost var before := Snap();
      ClearedKeeps(before, p);
      torn := torn - set k | k in mask[p] :: (p, k);
      mask := mask[p := {}];
      ClearedIs(before, p);
      assert Snap() == Cleared(before, p);
    }

    /** shmcleanup: every reference of the process is given up, and its mask is empty. */
    method Cleanup(p: nat)
      requires Valid() && Settled(p)
      modifies this`refcnt, this`pa, this`mask, this`maps, this`torn, this`pool
      ensures Valid() && Settled(p) && mask == old(mask)[p := {}] && |pa| == |old(pa)| && torn == old(torn) && leaving == old(leaving)
      ensures forall k :: 0 <= k < |pa| ==> pa[k] == old(pa)[k] || pa[k] == 0
    {
      hide Good, Torn, Cleared;
      SizesOf(Snap());
      ProcAt(Snap(), p);
      var key := 0;
      while key < |pa|
        invariant Valid() && 0 <= key <= |pa| == |old(pa)| && mask == old(mask) && leaving == old(leaving)
        invariant forall q, k :: (q, k) in torn <==> (q, k) in old(torn) || (q == p && k in mask[p] && k < key)
        invariant forall k :: 0 <= k < |pa| ==> pa[k] == old(pa)[k] || pa[k] == 0
        decreases |old(pa)| - key
      {
        if key in mask[p] {
          ghost var before := Snap();
          TearKey(p, key);
          TornFields(before, p, key);
        }
        key := key + 1;
      }
      ghost var all := torn;
      ClearMask(p);
      SameTorn(torn, old(torn), all, p, old(mask)[p]);
    }

    /** One key of the shared-page part of kthread_create, under the key's lock.  The creator holds a reference, so the
        page exists and the missing-page exit is not taken. */
    method ShareKey(p: nat, child: nat, key: nat)
      requires Valid() && p < |mask| && child < |mask| && key in mask[p] && (p, key) !in torn
      requires key !in mask[child] && (child, key) !in leaving
      modifies this`refcnt, this`mask, this`maps
      ensures Valid() && key < |pa| && pa[key] != 0 && |refcnt| == |old(refcnt)| == |pa| && |maps| == |old(maps)| == |mask|
      ensures refcnt == old(refcnt)[key := old(refcnt)[key] + 1] && mask == old(mask)[child := old(mask)[child] + {key}]
      ensures maps == old(maps)[child := Mapped(old(maps)[child], key, pa[key])]
    {
      hide Good, Attached, Mapped;
      SizesOf(Snap());
      ProcAt(Snap(), p);
      ReferenceCounts(Snap(), p, key);
      ghost var before := Snap();
      AttachedKeeps(before, child, key, pa[key]);
      AttachedIs(before, child, key, pa[key]);
      maps := maps[child := Mapped(maps[child], key, pa[key])];
      refcnt := refcnt[key := refcnt[key] + 1];
      mask := mask[child := mask[child] + {key}];
      assert Snap() == Attached(before, child, key, pa[key]);
    }

    /** The shared-page part of kthread_create: the new thread is attached to every page its creator is, or, when memory
        for tables runs out at key `full`, torn down again with every count as before. */
    method Share(p: nat, child: nat, full: nat) returns (ok: bool)
      requires Valid() && Settled(p) && Settled(child) && p != child && mask[child] == {}
      modifies this`refcnt, this`pa, this`mask, this`maps, this`torn, this`pool
      ensures Valid() && Settled(p) && Settled(child) && |pa| == |old(pa)|
      ensures ok <==> forall key :: key in old(mask)[p] ==> key < full
      ensures mask == old(mask)[child := if ok then old(mask)[p] else {}] && leaving == old(leaving) && torn == old(torn)
      ensures !ok ==> refcnt == old(refcnt) && pa == old(pa)
    {
      hide Good, Attached;
      SizesOf(Snap());
      ProcAt(Snap(), p);
      var key := 0;
      while key < |pa|
        invariant Valid() && 0 <= key <= |pa| == |old(pa)| && pa == old(pa) && leaving == old(leaving) && torn == old(torn)
        invariant Settled(p) && Settled(child) && |mask| == |old(mask)| && mask == old(mask)[child := mask[child]]
        invariant forall k :: k in mask[child] <==> k in mask[p] && k < key
        invariant forall k :: k in mask[p] && k < key ==> k < full
        decreases |old(pa)| - key
      {
        if key in mask[p] {
          if key >= full {
            Cleanup(child);
            CountsBack(old(Snap()), Snap());
            return false;
          }
          ShareKey(p, child, key);
        }
        key := key + 1;
      }
      ProcAt(Snap(), p);
      assert mask[child] == mask[p];
      return true;
    }

    /** One step of a process not among `ps`, if that process is in a position to take it. */
    method Other(act: Act, ps: set<nat>)
      requires Valid()
      modifies this`refcnt, this`pa, this`mask, this`maps, this`leaving, this`torn, this`pool
      ensures Valid() && Aside(ps, old(Snap()), Snap())
    {
      hide Good, Attached, Unmapped, Counted, Torn;
      SizesOf(Snap());
      if act.q in ps || act.q >= |mask| { return; }
      ghost var before := Snap();
      match act {
        case Attach(q, key, frame, room) =>
          if (forall x :: x in leaving ==> x.0 != q) && (forall x :: x in torn ==> x.0 != q) && base > 0 && (frame == 0 || frame in pool) {
            var va := Get(q, key, frame, room);
            if Snap() != before { AttachedAside(ps, before, q, key, if before.pa[key] == 0 then frame else before.pa[key]); }
          }
        case Leave(q, key) =>
          if key in mask[q] && (q, key) !in torn {
            Unmap(q, key);
            UnmappedAside(ps, before, q, key);
          }
        case Drop(q, key) =>
          if (q, key) in leaving {
            var _ := Release(q, key);
            ReleasedAside(ps, before, q, key);
          }
        case Tear(q, key) =>
          if key in mask[q] && (q, key) !in torn && (q, key) !in leaving {
            TearKey(q, key);
            TornAside(ps, before, q, key);
          }
        case Clear(q) =>
          if forall key :: key in mask[q] ==> (q, key) in torn {
            ClearMask(q);
          }
      }
    }

    /** Any number of such steps. */
    method Others(acts: seq<Act>, ps: set<nat>)
      requires Valid()
      modifies this`refcnt, this`pa, this`mask, this`maps, this`leaving, this`torn, this`pool
      ensures Valid() && Aside(ps, old(Snap()), Snap())
    {
      hide Good, Aside;
      AsideSelf(ps, Snap());
      for k := 0 to |acts|
        invariant Valid() && Aside(ps, old(Snap()), Snap())
      {
        ghost var mid := Snap();
        Other(acts[k], ps);
        AsideTwice(ps, old(Snap()), mid, Snap());
      }
    }

    /** shmcleanup of `p`, with any steps of processes not among `ps` while no key is locked. */
    method CleanupAmong(p: nat, env: nat -> seq<Act>, ps: set<nat>)
      requires Valid() && Settled(p) && p in ps
      modifies this`refcnt, this`pa, this`mask, this`maps, this`leaving, this`torn, this`pool
      ensures Valid() && Settled(p) && mask[p] == {} && |mask| == |old(mask)| && |pa| == |old(pa)|
      ensures Aside(ps - {p}, old(Snap()), Snap())
    {
      hide Good, Torn, Aside;
      SizesOf(Snap());
      ProcAt(Snap(), p);
      AsideSelf(ps - {p}, Snap());
      var key := 0;
      while key < |pa|
        invariant Valid() && 0 <= key <= |pa| == |old(pa)| && |mask| == |old(mask)| && mask[p] == old(mask)[p]
        invariant forall k :: (p, k) !in leaving
        invariant forall k :: (p, k) in torn <==> k in mask[p] && k < key
        invariant Aside(ps - {p}, old(Snap()), Snap())
        decreases |old(pa)| - key
      {
        ghost var s0 := Snap();
        if key in mask[p] {
          SizesOf(Snap());
          TearKey(p, key);
          TornAside(ps - {p}, s0, p, key);
          TornFields(s0, p, key);
        } else {
          AsideSelf(ps - {p}, s0);
        }
        ghost var s1 := Snap();
        Others(env(key), ps);
        AsideFor(ps, s1, Snap(), p);
        AsideLess(ps, s1, Snap(), p);
        AsideTwice(ps - {p}, old(Snap()), s0, s1);
        AsideTwice(ps - {p}, old(Snap()), s1, Snap());
        key := key + 1;
      }
      ProcAt(Snap(), p);
      ghost var s2 := Snap();
      ClearMask(p);
      ClearedAside(ps - {p}, s2, Snap(), p);
      AsideTwice(ps - {p}, old(Snap()), s2, Snap());
    }

    /** The shared-page part of kthread_create, with any steps of other processes between the keys: the new thread is
        attached to every page its creator is, or torn down again when memory for tables runs out at key `full`. */
    method ShareAmong(p: nat, child: nat, full: nat, env: nat -> seq<Act>) returns (ok: bool)
      requires Valid() && Settled(p) && Settled(child) && p != child && mask[child] == {}
      modifies this`refcnt, this`pa, this`mask, this`maps, this`leaving, this`torn, this`pool
      ensures Valid() && Settled(p) && Settled(child) && |mask| == |old(mask)| && |pa| == |old(pa)|
      ensures ok <==> forall key :: key in old(mask)[p] ==> key < full
      ensures mask[p] == old(mask)[p] && mask[child] == if ok then mask[p] else {}
    {
      hide Good, Aside, Mapped;
      SizesOf(Snap());
      var key := 0;
      while key < |pa|
        invariant Valid() && 0 <= key <= |pa| == |old(pa)| && |mask| == |old(mask)| && mask[p] == old(mask)[p]
        invariant Settled(p) && Settled(child)
        invariant forall k :: k in mask[child] <==> k in mask[p] && k < key
        invariant forall k :: k in mask[p] && k < key ==> k < full
        decreases |old(pa)| - key
      {
        if key in mask[p] {
          if key >= full {
            ghost var s0 := Snap();
            var n := |pa|;
            CleanupAmong(child, (k: nat) => env(n + k), {p, child});
            AsideFor({p, child} - {child}, s0, Snap(), p);
            return false;
          }
          ShareKey(p, child, key);
        }
        ghost var s1 := Snap();
        Others(env(key), {p, child});
        AsideFor({p, child}, s1, Snap(), p);
        AsideFor({p, child}, s1, Snap(), child);
        key := key + 1;
      }
      ProcAt(Snap(), p);
      assert mask[child] == mask[p];
      return true;
    }
  }

  /** Steps of other processes leave the processes `ps` alone. */
  ghost predicate Aside(ps: set<nat>, s: State, s': State)
  {
    && |s'.mask| == |s.mask| && |s'.pa| == |s.pa|
    && (forall q :: q in ps && q < |s.mask| ==> s'.mask[q] == s.mask[q])
    && (forall q, k :: q in ps ==> ((q, k) in s'.leaving <==> (q, k) in s.leaving))
    && (forall q, k :: q in ps ==> ((q, k) in s'.torn <==> (q, k) in s.torn))
  }

  lemma AsideSelf(ps: set<nat>, s: State)
    ensures Aside(ps, s, s)
  {
  }

  lemma AsideLess(ps: set<nat>, s: State, s': State, p: nat)
    requires Aside(ps, s, s')
    ensures Aside(ps - {p}, s, s')
  {
  }

  lemma AsideFor(ps: set<nat>, s: State, s': State, p: nat)
    requires Aside(ps, s, s') && p in ps && p < |s.mask|
    ensures |s'.mask| == |s.mask| && |s'.pa| == |s.pa| && s'.mask[p] == s.mask[p]
    ensures forall k :: (p, k) in s'.leaving <==> (p, k) in s.leaving
    ensures forall k :: (p, k) in s'.torn <==> (p, k) in s.torn
  {
  }

  lemma ClearedAside(ps: set<nat>, s: State, s': State, p: nat)
    requires p !in ps && p < |s.mask| && s'.mask == s.mask[p := {}] && s'.torn == s.torn - set k | k in s.mask[p] :: (p, k)
    requires s'.leaving == s.leaving && |s'.pa| == |s.pa|
    ensures Aside(ps, s, s')
  {
  }

  lemma AsideTwice(ps: set<nat>, s0: State, s1: State, s2: State)
    requires Aside(ps, s0, s1) && Aside(ps, s1, s2)
    ensures Aside(ps, s0, s2)
  {
  }

  lemma AttachedAside(ps: set<nat>, s: State, p: nat, key: nat, frame: nat)
    requires p < |s.mask| == |s.maps| && key < |s.pa| == |s.refcnt| && p !in ps
    ensures Aside(ps, s, Attached(s, p, key, frame))
  {
  }

  lemma UnmappedAside(ps: set<nat>, s: State, p: nat, key: nat)
    requires p < |s.mask| == |s.maps| && p !in ps
    ensures Aside(ps, s, Unmapped(s, p, key))
  {
  }

  lemma ReleasedAside(ps: set<nat>, s: State, p: nat, key: nat)
    requires key < |s.pa| == |s.refcnt| && s.refcnt[key] > 0 && p !in ps
    ensures Aside(ps, s, Counted(s.(leaving := s.leaving - {(p, key)}), key))
  {
  }

  lemma TornAside(ps: set<nat>, s: State, p: nat, key: nat)
    requires p < |s.mask| == |s.maps| && key < |s.pa| == |s.refcnt| && s.refcnt[key] > 0 && p !in ps
    ensures Aside(ps, s, Torn(s, p, key))
  {
  }

  lemma AttachedIs(s: State, p: nat, key: nat, frame: nat)
    requires p < |s.mask| == |s.maps| && key < |s.pa| == |s.refcnt| && frame == s.pa[key] && frame !in s.pool
    ensures Attached(s, p, key, frame) ==
            s.(refcnt := s.refcnt[key := s.refcnt[key] + 1], mask := s.mask[p := s.mask[p] + {key}],
               maps := s.maps[p := Mapped(s.maps[p], key, frame)])
  {
    assert s.pa[key := frame] == s.pa && s.pool - {frame} == s.pool;
  }

  /** With the same references held, the counts are the same, and so is which pages exist. */
  lemma CountsBack(s: State, s': State)
    requires Good(s) && Good(s') && s'.mask == s.mask && s'.leaving == s.leaving && s'.torn == s.torn && |s'.pa| == |s.pa|
    requires forall k :: 0 <= k < |s.pa| ==> s'.pa[k] == s.pa[k] || s'.pa[k] == 0
    ensures s'.refcnt == s.refcnt && s'.pa == s.pa
  {
    hide Good;
    SizesOf(s);
    SizesOf(s');
    forall key | 0 <= key < |s.pa|
      ensures s'.refcnt[key] == s.refcnt[key] && s'.pa[key] == s.pa[key]
    {
      KeyAt(s, key);
      KeyAt(s', key);
      HoldersSame(s, s', key);
    }
  }

  lemma TornFields(s: State, p: nat, key: nat)
    requires p < |s.mask| == |s.maps| && key < |s.pa| == |s.refcnt| && s.refcnt[key] > 0
    ensures var s' := Torn(s, p, key);
            && s'.mask == s.mask && s'.leaving == s.leaving && s'.torn == s.torn + {(p, key)} && |s'.pa| == |s.pa|
            && forall k :: 0 <= k < |s.pa| ==> s'.pa[k] == s.pa[k] || s'.pa[k] == 0
  {
  }

  lemma ClearedIs(s: State, p: nat)
    requires p < |s.mask|
    ensures Cleared(s, p) == s.(mask := s.mask[p := {}], torn := s.torn - set key | key in s.mask[p] :: (p, key))
  {
  }

  lemma SameTorn(a: set<(nat, nat)>, b: set<(nat, nat)>, all: set<(nat, nat)>, p: nat, mask: set<nat>)
    requires a == all - set k | k in mask :: (p, k)
    requires forall k :: (p, k) !in b
    requires forall q, k :: (q, k) in all <==> (q, k) in b || (q == p && k in mask)
    ensures a == b
  {
    forall x: (nat, nat)
      ensures x in a <==> x in b
    {
      assert x == (x.0, x.1);
      assert x in all <==> x in b || (x.0 == p && x.1 in mask);
    }
  }

  lemma CountedFields(s: State, key: nat)
    requires key < |s.pa| == |s.refcnt| && s.refcnt[key] > 0
    ensures var s' := Counted(s, key);
            s'.mask == s.mask && s'.maps == s.maps && s'.leaving == s.leaving && s'.torn == s.torn && |s'.pa| == |s.pa|
  {
  }

  /** The page is gone exactly when nobody holds a reference. */
  lemma LastOne(s: State, key: nat)
    requires Good(s) && key < |s.pa|
    ensures |s.refcnt| == |s.pa| && (s.refcnt[key] == 0 <==> forall q :: 0 <= q < |s.mask| ==> !Holds(s, q, key))
  {
    KeyAt(s, key);
    var h := Holders(s, key, |s.mask|);
    if h != {} {
      var q :| q in h;
    }
  }
}
