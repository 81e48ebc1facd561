/** Inodes and the blocks they own.  An inode reaches data blocks through NDIRECT direct addresses and
    the entries of one indirect block; a slot number names each place an address can stand. */
module Inodes {
  import opened Blocks
  import opened Bitmap

  const NDIRECT := 12
  const NINDIRECT := 256        // BSIZE / sizeof(uint)
  const MAXFILE := 268          // NDIRECT + NINDIRECT
  const NSLOT := 269            // direct, indirect block, indirect entries
  const IPB := 16               // inodes per block

  datatype Inode = Inode(size: nat, addrs: seq<nat>)

  datatype Fs = Fs(sb: Super, blocks: seq<Block>, inodes: seq<Inode>)

  ghost predicate Shape(fs: Fs)
  {
    && OnDisk(fs.sb, fs.blocks)
    && (forall i :: 0 <= i < |fs.inodes| ==> |fs.inodes[i].addrs| == NDIRECT + 1)
    && (forall i, k :: 0 <= i < |fs.inodes| && 0 <= k <= NDIRECT ==> fs.inodes[i].addrs[k] < fs.sb.size)
  }

  /** The address in slot `s` of inode `i`; 0 is no block. */
  function Addr(fs: Fs, i: nat, s: nat): nat
    requires Shape(fs) && i < |fs.inodes| && s < NSLOT
  {
    var addrs := fs.inodes[i].addrs;
    if s <= NDIRECT then addrs[s]
    else if addrs[NDIRECT] == 0 then 0
    else GetWord(fs.blocks[addrs[NDIRECT]], s - NDIRECT - 1)
  }

  /** The slot of the bn-th data block of a file. */
  function Slot(bn: nat): nat
  {
    if bn < NDIRECT then bn else bn + 1
  }

  /** Which slot each data block is reachable from. */
  type Owner = map<nat, (nat, nat)>

  /** Every address in a slot that is not being discarded is owned by that slot alone. */
  ghost predicate Reached(fs: Fs, owner: Owner, dead: set<(nat, nat)>)
    requires Shape(fs)
  {
    forall i, s :: 0 <= i < |fs.inodes| && 0 <= s < NSLOT && (i, s) !in dead && Addr(fs, i, s) != 0
      ==> Addr(fs, i, s) in owner && owner[Addr(fs, i, s)] == (i, s)
  }

  /** Owned blocks are data blocks standing in the slot that owns them. */
  ghost predicate Placed(fs: Fs, owner: Owner, dead: set<(nat, nat)>)
    requires Shape(fs)
  {
    forall b :: b in owner ==>
      && fs.sb.dstart <= b < fs.sb.size
      && owner[b].0 < |fs.inodes| && owner[b].1 < NSLOT && owner[b] !in dead
      && Addr(fs, owner[b].0, owner[b].1) == b
  }

  /** The bitmap marks exactly the metadata, the owned blocks and those in transit. */
  ghost predicate Accounted(fs: Fs, owner: Owner, loose: set<nat>)
    requires Shape(fs)
  {
    && (forall b :: 0 <= b < fs.sb.size ==>
          (Marked(fs.sb, fs.blocks, b) <==> b < fs.sb.dstart || b in owner || b in loose))
    && (forall b :: b in loose ==> fs.sb.dstart <= b < fs.sb.size && b !in owner)
  }

  /** Block ownership.  `loose` holds blocks allocated but not yet in a slot (or taken out of one and
      not yet freed), `dead` slots whose contents are being discarded; both are empty between calls. */
  ghost predicate Owned(fs: Fs, owner: Owner, loose: set<nat>, dead: set<(nat, nat)>)
  {
    && Shape(fs) && Reached(fs, owner, dead) && Placed(fs, owner, dead) && Accounted(fs, owner, loose)
    && (forall i, s :: (i, NDIRECT) in dead && NDIRECT < s < NSLOT ==> (i, s) in dead)
  }

  /** Distinct slots never hold the same block. */
  lemma NoSharing(fs: Fs, owner: Owner, i: nat, s: nat, j: nat, t: nat)
    requires Owned(fs, owner, {}, {})
    requires i < |fs.inodes| && s < NSLOT && j < |fs.inodes| && t < NSLOT
    requires Addr(fs, i, s) == Addr(fs, j, t) && Addr(fs, i, s) != 0
    ensures i == j && s == t
  {
  }

  /** A block is marked exactly when it is metadata or in some slot. */
  lemma MarkedIffReachable(fs: Fs, owner: Owner, b: nat)
    requires Owned(fs, owner, {}, {}) && b < fs.sb.size
    ensures Marked(fs.sb, fs.blocks, b) <==>
              b < fs.sb.dstart || exists i, s :: 0 <= i < |fs.inodes| && 0 <= s < NSLOT && Addr(fs, i, s) == b
  {
    if b in owner {
      assert Addr(fs, owner[b].0, owner[b].1) == b;
    } else if b >= fs.sb.dstart {
      forall i, s | 0 <= i < |fs.inodes| && 0 <= s < NSLOT ensures Addr(fs, i, s) != b { }
    }
  }

  // ------------------------------------------------------- what each step keeps

  /** Addresses depend only on inodes and indirect blocks: changing a block that is not one of those
      changes no address outside dead slots. */
  lemma AddrFrame(fs: Fs, b: nat, x: Block, i: nat, s: nat)
    requires Shape(fs) && b < fs.sb.size && i < |fs.inodes| && s < NSLOT
    requires s > NDIRECT ==> fs.inodes[i].addrs[NDIRECT] != b
    ensures Shape(fs.(blocks := fs.blocks[b := x]))
    ensures Addr(fs.(blocks := fs.blocks[b := x]), i, s) == Addr(fs, i, s)
  {
  }

  /** If block `b` is not an indirect block of a live inode, rewriting it keeps reachability. */
  lemma RewriteKeeps(fs: Fs, owner: Owner, dead: set<(nat, nat)>, b: nat, x: Block)
    requires Shape(fs) && Reached(fs, owner, dead) && Placed(fs, owner, dead) && 0 < b < fs.sb.size
    requires forall i, s :: (i, NDIRECT) in dead && NDIRECT < s < NSLOT ==> (i, s) in dead
    requires b in owner ==> owner[b].1 != NDIRECT
    ensures var fs' := fs.(blocks := fs.blocks[b := x]);
            && Shape(fs') && Reached(fs', owner, dead) && Placed(fs', owner, dead)
            && forall i, s :: 0 <= i < |fs.inodes| && 0 <= s < NSLOT && (i, s) !in dead
                 ==> Addr(fs', i, s) == Addr(fs, i, s)
  {
    var fs' := fs.(blocks := fs.blocks[b := x]);
    forall i, s | 0 <= i < |fs.inodes| && 0 <= s < NSLOT && (i, s) !in dead
      ensures Addr(fs', i, s) == Addr(fs, i, s)
    {
      if s > NDIRECT {
        assert Addr(fs, i, NDIRECT) == fs.inodes[i].addrs[NDIRECT];
      }
      AddrFrame(fs, b, x, i, s);
    }
  }

  /** The disk after balloc hands out `b`: its bit set, its contents zeroed. */
  function Allocated(fs: Fs, b: nat): Fs
    requires Shape(fs) && b < fs.sb.size
  {
    BBlockBelow(fs.sb, b);
    var bb := fs.sb.BBlock(b);
    fs.(blocks := fs.blocks[bb := SetBlockBit(fs.blocks[bb], b % BPB)][b := ZeroBlock()])
  }

  /** The disk after bfree gives back `b`. */
  function Freed(fs: Fs, b: nat): Fs
    requires Shape(fs) && b < fs.sb.size
  {
    BBlockBelow(fs.sb, b);
    var bb := fs.sb.BBlock(b);
    fs.(blocks := fs.blocks[bb := ClearBlockBit(fs.blocks[bb], b % BPB)])
  }

  lemma AllocKeeps(fs: Fs, owner: Owner, loose: set<nat>, dead: set<(nat, nat)>, b: nat)
    requires Owned(fs, owner, loose, dead) && b < fs.sb.size && !Marked(fs.sb, fs.blocks, b)
    ensures fs.sb.dstart <= b && b !in owner && b !in loose
    ensures Owned(Allocated(fs, b), owner, loose + {b}, dead)
    ensures forall i, s :: 0 <= i < |fs.inodes| && 0 <= s < NSLOT && (i, s) !in dead
              ==> Addr(Allocated(fs, b), i, s) == Addr(fs, i, s)
  {
    hide GetWord, SetBlockBit, Marked;
    BBlockBelow(fs.sb, b);
    var bb := fs.sb.BBlock(b);
    var x := SetBlockBit(fs.blocks[bb], b % BPB);
    RewriteKeeps(fs, owner, dead, bb, x);
    var mid := fs.(blocks := fs.blocks[bb := x]);
    RewriteKeeps(mid, owner, dead, b, ZeroBlock());
    var fs' := Allocated(fs, b);
    forall c | 0 <= c < fs.sb.size
      ensures Marked(fs.sb, fs'.blocks, c) <==> c < fs.sb.dstart || c in owner || c in loose + {b}
    {
      MarkedAfter(fs.sb, fs.blocks, b, c, mid.blocks, true);
      MarkedFrame(fs.sb, mid.blocks, b, ZeroBlock(), c);
    }
  }

  lemma FreeKeeps(fs: Fs, owner: Owner, loose: set<nat>, dead: set<(nat, nat)>, b: nat)
    requires Owned(fs, owner, loose, dead) && b in loose
    ensures b < fs.sb.size && Marked(fs.sb, fs.blocks, b)
    ensures Owned(Freed(fs, b), owner, loose - {b}, dead)
    ensures forall i, s :: 0 <= i < |fs.inodes| && 0 <= s < NSLOT && (i, s) !in dead
              ==> Addr(Freed(fs, b), i, s) == Addr(fs, i, s)
  {
    hide GetWord, ClearBlockBit, Marked;
    BBlockBelow(fs.sb, b);
    var bb := fs.sb.BBlock(b);
    var x := ClearBlockBit(fs.blocks[bb], b % BPB);
    RewriteKeeps(fs, owner, dead, bb, x);
    var fs' := Freed(fs, b);
    forall c | 0 <= c < fs.sb.size
      ensures Marked(fs.sb, fs'.blocks, c) <==> c < fs.sb.dstart || c in owner || c in loose - {b}
    {
      MarkedAfter(fs.sb, fs.blocks, b, c, fs'.blocks, false);
    }
  }

  function WithAddr(fs: Fs, i: nat, s: nat, b: nat): Fs
    requires i < |fs.inodes| && s < |fs.inodes[i].addrs|
  {
    fs.(inodes := fs.inodes[i := fs.inodes[i].(addrs := fs.inodes[i].addrs[s := b])])
  }

  /** Storing a loose block in an empty direct slot, or a zeroed one as the indirect block. */
  lemma AssignKeeps(fs: Fs, owner: Owner, loose: set<nat>, i: nat, s: nat, b: nat)
    requires Owned(fs, owner, loose, {}) && b in loose && i < |fs.inodes| && s <= NDIRECT
    requires Addr(fs, i, s) == 0
    requires s == NDIRECT ==> fs.blocks[b] == ZeroBlock()
    ensures Owned(WithAddr(fs, i, s, b), owner[b := (i, s)], loose - {b}, {})
    ensures forall j, t :: 0 <= j < |fs.inodes| && 0 <= t < NSLOT
              ==> Addr(WithAddr(fs, i, s, b), j, t) == if (j, t) == (i, s) then b else Addr(fs, j, t)
  {
    hide PutWord, GetWord, Marked, Addr, Reached, Placed, Accounted;
    var fs' := WithAddr(fs, i, s, b);
    LooseIs(fs, owner, loose, b);
    assert Shape(fs');
    forall j, t | 0 <= j < |fs.inodes| && 0 <= t < NSLOT
      ensures Addr(fs', j, t) == if (j, t) == (i, s) then b else Addr(fs, j, t)
    {
      AssignedAddr(fs, i, s, b, j, t);
    }
    NewOwner(fs, fs', owner, loose, i, s, b);
  }

  lemma LooseIs(fs: Fs, owner: Owner, loose: set<nat>, b: nat)
    requires Owned(fs, owner, loose, {}) && b in loose
    ensures fs.sb.dstart <= b < fs.sb.size && b !in owner && b != 0
  {
  }

  lemma AssignedAddr(fs: Fs, i: nat, s: nat, b: nat, j: nat, t: nat)
    requires Shape(fs) && i < |fs.inodes| && s <= NDIRECT && j < |fs.inodes| && t < NSLOT && b < fs.sb.size
    requires Addr(fs, i, s) == 0 && b != 0 && (s == NDIRECT ==> fs.blocks[b] == ZeroBlock())
    ensures Shape(WithAddr(fs, i, s, b))
    ensures Addr(WithAddr(fs, i, s, b), j, t) == if (j, t) == (i, s) then b else Addr(fs, j, t)
  {
    hide PutWord, GetWord;
    if j == i && s == NDIRECT && t > NDIRECT { ZeroWords(t - NDIRECT - 1); }
  }

  /** One more slot holds one more block: everything else about ownership stays. */
  lemma NewOwner(fs: Fs, fs': Fs, owner: Owner, loose: set<nat>, i: nat, s: nat, b: nat)
    requires Owned(fs, owner, loose, {}) && b in loose && i < |fs.inodes| == |fs'.inodes| && s < NSLOT && Shape(fs') && fs'.sb == fs.sb
    requires Addr(fs, i, s) == 0
    requires forall j, t :: 0 <= j < |fs.inodes| && 0 <= t < NSLOT ==> Addr(fs', j, t) == if (j, t) == (i, s) then b else Addr(fs, j, t)
    requires forall c :: 0 <= c < fs.sb.size ==> Marked(fs.sb, fs'.blocks, c) == Marked(fs.sb, fs.blocks, c)
    ensures Owned(fs', owner[b := (i, s)], loose - {b}, {})
  {
    hide Addr, Marked;
  }

  /** Storing a loose block in an empty entry of the indirect block. */
  lemma AssignEntryKeeps(fs: Fs, owner: Owner, loose: set<nat>, i: nat, k: nat, b: nat)
    requires Owned(fs, owner, loose, {}) && b in loose && i < |fs.inodes| && k < NINDIRECT
    requires fs.inodes[i].addrs[NDIRECT] != 0 && Addr(fs, i, NDIRECT + 1 + k) == 0
    ensures var a := fs.inodes[i].addrs[NDIRECT];
            var fs' := fs.(blocks := fs.blocks[a := PutWord(fs.blocks[a], k, b)]);
            && Owned(fs', owner[b := (i, NDIRECT + 1 + k)], loose - {b}, {})
            && forall j, t :: 0 <= j < |fs.inodes| && 0 <= t < NSLOT
                 ==> Addr(fs', j, t) == if (j, t) == (i, NDIRECT + 1 + k) then b else Addr(fs, j, t)
  {
    hide PutWord, GetWord, Marked, Addr, Reached, Placed, Accounted;
    LooseIs(fs, owner, loose, b);
    var a := fs.inodes[i].addrs[NDIRECT];
    var x := PutWord(fs.blocks[a], k, b);
    var fs' := fs.(blocks := fs.blocks[a := x]);
    IndirectOwned(fs, owner, loose, i);
    assert Shape(fs');
    forall j, t | 0 <= j < |fs.inodes| && 0 <= t < NSLOT
      ensures Addr(fs', j, t) == if (j, t) == (i, NDIRECT + 1 + k) then b else Addr(fs, j, t)
    {
      EntryAddr(fs, owner, loose, i, k, b, j, t);
    }
    forall c | 0 <= c < fs.sb.size ensures Marked(fs.sb, fs'.blocks, c) == Marked(fs.sb, fs.blocks, c) {
      MarkedFrame(fs.sb, fs.blocks, a, x, c);
    }
    NewOwner(fs, fs', owner, loose, i, NDIRECT + 1 + k, b);
  }

  lemma IndirectOwned(fs: Fs, owner: Owner, loose: set<nat>, i: nat)
    requires Owned(fs, owner, loose, {}) && i < |fs.inodes| && fs.inodes[i].addrs[NDIRECT] != 0
    ensures var a := fs.inodes[i].addrs[NDIRECT];
            fs.sb.dstart <= a < fs.sb.size && a in owner && owner[a] == (i, NDIRECT)
  {
    hide Marked, GetWord;
    assert Addr(fs, i, NDIRECT) == fs.inodes[i].addrs[NDIRECT];
  }

  lemma EntryAddr(fs: Fs, owner: Owner, loose: set<nat>, i: nat, k: nat, b: nat, j: nat, t: nat)
    requires Owned(fs, owner, loose, {}) && b in loose && i < |fs.inodes| && k < NINDIRECT && j < |fs.inodes| && t < NSLOT
    requires fs.inodes[i].addrs[NDIRECT] != 0
    ensures b < WORD_LIMIT
    ensures var a := fs.inodes[i].addrs[NDIRECT];
            var fs' := fs.(blocks := fs.blocks[a := PutWord(fs.blocks[a], k, b)]);
            Shape(fs') && Addr(fs', j, t) == if (j, t) == (i, NDIRECT + 1 + k) then b else Addr(fs, j, t)
  {
    hide PutWord, GetWord, Marked, Reached, Placed;
    LooseIs(fs, owner, loose, b);
    IndirectOwned(fs, owner, loose, i);
    if t > NDIRECT {
      if j == i {
        GetPutWord(fs.blocks[fs.inodes[i].addrs[NDIRECT]], k, b, t - NDIRECT - 1);
      } else if fs.inodes[j].addrs[NDIRECT] != 0 {
        IndirectOwned(fs, owner, loose, j);
      }
    }
  }

  /** Writing a data block changes no address and no mark. */
  lemma WriteKeeps(fs: Fs, owner: Owner, loose: set<nat>, b: nat, x: Block)
    requires Owned(fs, owner, loose, {}) && b in owner && owner[b].1 != NDIRECT
    ensures Owned(fs.(blocks := fs.blocks[b := x]), owner, loose, {})
    ensures forall i, s :: 0 <= i < |fs.inodes| && 0 <= s < NSLOT
              ==> Addr(fs.(blocks := fs.blocks[b := x]), i, s) == Addr(fs, i, s)
  {
    hide GetWord, Marked, Addr, Reached, Accounted;
    RewriteKeeps(fs, owner, {}, b, x);
    forall c | 0 <= c < fs.sb.size
      ensures Marked(fs.sb, fs.blocks[b := x], c) == Marked(fs.sb, fs.blocks, c)
    {
      MarkedFrame(fs.sb, fs.blocks, b, x, c);
    }
    AccountedSame(fs, fs.(blocks := fs.blocks[b := x]), owner, loose);
  }

  /** Writing a block of metadata below the bitmap changes no address and no mark. */
  lemma MetaKeeps(fs: Fs, owner: Owner, loose: set<nat>, b: nat, x: Block)
    requires Owned(fs, owner, loose, {}) && 0 < b < fs.sb.bmapstart
    ensures Owned(fs.(blocks := fs.blocks[b := x]), owner, loose, {})
    ensures forall i, s :: 0 <= i < |fs.inodes| && 0 <= s < NSLOT
              ==> Addr(fs.(blocks := fs.blocks[b := x]), i, s) == Addr(fs, i, s)
    ensures forall c :: 0 <= c < fs.sb.size ==> Marked(fs.sb, fs.blocks[b := x], c) == Marked(fs.sb, fs.blocks, c)
  {
    hide GetWord, Marked, Addr, Reached, Placed, Accounted;
    NotOwned(fs, owner, b);
    RewriteKeeps(fs, owner, {}, b, x);
    forall c | 0 <= c < fs.sb.size
      ensures Marked(fs.sb, fs.blocks[b := x], c) == Marked(fs.sb, fs.blocks, c)
    {
      MetaMarked(fs.sb, fs.blocks, b, x, c);
    }
    AccountedSame(fs, fs.(blocks := fs.blocks[b := x]), owner, loose);
  }

  lemma NotOwned(fs: Fs, owner: Owner, b: nat)
    requires Shape(fs) && Placed(fs, owner, {}) && b < fs.sb.dstart
    ensures b !in owner
  {
  }

  /** The same marks account for the same blocks. */
  lemma AccountedSame(fs: Fs, fs': Fs, owner: Owner, loose: set<nat>)
    requires Shape(fs) && Shape(fs') && fs'.sb == fs.sb && Accounted(fs, owner, loose)
    requires forall c :: 0 <= c < fs.sb.size ==> Marked(fs.sb, fs'.blocks, c) == Marked(fs.sb, fs.blocks, c)
    ensures Accounted(fs', owner, loose)
  {
    hide Marked;
  }

  lemma MetaMarked(sb: Super, blocks: seq<Block>, b: nat, x: Block, c: nat)
    requires OnDisk(sb, blocks) && b < sb.bmapstart && c < sb.size
    ensures Marked(sb, blocks[b := x], c) == Marked(sb, blocks, c)
  {
    BBlockBelow(sb, c);
  }

  /** A slot about to be discarded gives up its block. */
  lemma DetachKeeps(fs: Fs, owner: Owner, loose: set<nat>, dead: set<(nat, nat)>, i: nat, s: nat)
    requires Owned(fs, owner, loose, dead) && i < |fs.inodes| && s < NSLOT && (i, s) !in dead
    requires Addr(fs, i, s) != 0
    requires s == NDIRECT ==> forall t :: NDIRECT < t < NSLOT ==> (i, t) in dead
    ensures var b := Addr(fs, i, s);
            b in owner && b !in loose && Owned(fs, owner - {b}, loose + {b}, dead + {(i, s)})
  {
    hide GetWord, Marked;
  }

  /** Clearing a discarded direct slot, or the indirect address with all its entries discarded. */
  lemma ClearKeeps(fs: Fs, owner: Owner, loose: set<nat>, dead: set<(nat, nat)>, i: nat, s: nat,
                   dead': set<(nat, nat)>)
    requires Owned(fs, owner, loose, dead) && i < |fs.inodes| && s <= NDIRECT && (i, s) in dead
    requires s == NDIRECT || (i, NDIRECT) !in dead
    requires dead' <= dead
    requires forall j, t :: (j, t) in dead && (j, t) !in dead' ==> j == i && (t == s || (s == NDIRECT && t > s))
    requires s == NDIRECT ==> forall t :: (i, t) !in dead'
    ensures Owned(WithAddr(fs, i, s, 0), owner, loose, dead')
  {
    hide GetWord, Marked;
    var fs' := WithAddr(fs, i, s, 0);
    assert Shape(fs');
    forall j, t | 0 <= j < |fs.inodes| && 0 <= t < NSLOT && (j, t) !in dead'
      ensures Addr(fs', j, t) == if (j, t) in dead then 0 else Addr(fs, j, t)
    {
    }
  }

  /** A file's size plays no part in ownership. */
  lemma SizeKeeps(fs: Fs, owner: Owner, loose: set<nat>, i: nat, n: nat)
    requires Owned(fs, owner, loose, {}) && i < |fs.inodes|
    ensures var fs' := fs.(inodes := fs.inodes[i := fs.inodes[i].(size := n)]);
            && Owned(fs', owner, loose, {})
            && forall j, t :: 0 <= j < |fs.inodes| && 0 <= t < NSLOT ==> Addr(fs', j, t) == Addr(fs, j, t)
  {
    hide Marked, GetWord;
    var fs' := fs.(inodes := fs.inodes[i := fs.inodes[i].(size := n)]);
    assert Shape(fs');
    forall j, t | 0 <= j < |fs.inodes| && 0 <= t < NSLOT ensures Addr(fs', j, t) == Addr(fs, j, t) { }
  }

  // ---------------------------------------------------------- allocation only adds

  /** From `fs` to `fs'` inode `i` may have gained blocks: no address already in place moved, no other
      inode changed, and no data block changed contents. */
  ghost predicate Grown(fs: Fs, owner: Owner, fs': Fs, owner': Owner, i: nat)
    requires Shape(fs) && Shape(fs') && |fs'.inodes| == |fs.inodes|
  {
    && fs'.sb == fs.sb && i < |fs.inodes| && fs'.inodes[i].size == fs.inodes[i].size
    && (forall j :: 0 <= j < |fs.inodes| && j != i ==> fs'.inodes[j] == fs.inodes[j])
    && (forall j, t :: 0 <= j < |fs.inodes| && 0 <= t < NSLOT && (j != i || Addr(fs, j, t) != 0)
          ==> Addr(fs', j, t) == Addr(fs, j, t))
    && (forall b :: b in owner ==> b in owner' && owner'[b] == owner[b])
    && (forall b :: b in owner && owner[b].1 != NDIRECT && b < fs.sb.size ==> fs'.blocks[b] == fs.blocks[b])
  }

  lemma GrownTwice(fs: Fs, o: Owner, fs': Fs, o': Owner, fs'': Fs, o'': Owner, i: nat)
    requires Shape(fs) && Shape(fs') && Shape(fs'') && |fs''.inodes| == |fs'.inodes| == |fs.inodes|
    requires Grown(fs, o, fs', o', i) && Grown(fs', o', fs'', o'', i)
    ensures Grown(fs, o, fs'', o'', i)
  {
    hide GetWord, Addr;
  }

  lemma AllocGrows(fs: Fs, owner: Owner, loose: set<nat>, b: nat, i: nat)
    requires Owned(fs, owner, loose, {}) && b < fs.sb.size && !Marked(fs.sb, fs.blocks, b) && i < |fs.inodes|
    ensures Shape(Allocated(fs, b)) && Grown(fs, owner, Allocated(fs, b), owner, i)
    ensures Allocated(fs, b).blocks[b] == ZeroBlock()
  {
    hide GetWord, SetBlockBit, Marked;
    AllocKeeps(fs, owner, loose, {}, b);
    BBlockBelow(fs.sb, b);
  }

  lemma AssignGrows(fs: Fs, owner: Owner, loose: set<nat>, i: nat, s: nat, b: nat)
    requires Owned(fs, owner, loose, {}) && b in loose && i < |fs.inodes| && s <= NDIRECT
    requires Addr(fs, i, s) == 0
    requires s == NDIRECT ==> fs.blocks[b] == ZeroBlock()
    ensures Shape(WithAddr(fs, i, s, b)) && Grown(fs, owner, WithAddr(fs, i, s, b), owner[b := (i, s)], i)
  {
    hide GetWord, Marked, Addr;
    AssignKeeps(fs, owner, loose, i, s, b);
  }

  lemma AssignEntryGrows(fs: Fs, owner: Owner, loose: set<nat>, i: nat, k: nat, b: nat)
    requires Owned(fs, owner, loose, {}) && b in loose && i < |fs.inodes| && k < NINDIRECT
    requires fs.inodes[i].addrs[NDIRECT] != 0 && Addr(fs, i, NDIRECT + 1 + k) == 0
    ensures var a := fs.inodes[i].addrs[NDIRECT];
            var fs' := fs.(blocks := fs.blocks[a := PutWord(fs.blocks[a], k, b)]);
            Shape(fs') && Grown(fs, owner, fs', owner[b := (i, NDIRECT + 1 + k)], i)
  {
    hide GetWord, PutWord, Marked;
    AssignEntryKeeps(fs, owner, loose, i, k, b);
    assert Addr(fs, i, NDIRECT) == fs.inodes[i].addrs[NDIRECT];
  }
}
