/** The file layer of fs.c over blocks as bread returns them.  Inodes are kept as records, and iupdate writes them to
    their inode blocks; the journal records every log_write of an operation. */
module Files {
  import opened Blocks
  import opened Bitmap
  import opened Inodes
  import opened Contents
  import opened BufferCache
  import opened Recovery
  import opened Journals

  const CHUNK := 3072           // ((MAXOPBLOCKS - 1 - 1 - 2) / 2) * BSIZE, with MAXOPBLOCKS = 10

  ghost predicate Full(fs: Fs)
    requires Shape(fs)
  {
    forall b :: 0 <= b < fs.sb.size ==> Marked(fs.sb, fs.blocks, b)
  }

  lemma FullSame(fs: Fs, fs': Fs)
    requires Shape(fs) && Shape(fs') && fs'.sb == fs.sb
    requires forall b :: 0 <= b < fs.sb.size ==> Marked(fs.sb, fs'.blocks, b) == Marked(fs.sb, fs.blocks, b)
    ensures Full(fs') <==> Full(fs)
  {
    hide Marked;
  }

  lemma BlockPosition(b: nat, bi: nat)
    requires b % BPB == 0 && bi < BPB
    ensures (b + bi) / BPB == b / BPB && (b + bi) % BPB == bi
  {
  }

  class FileSystem {
    const sb: Super
    var blocks: seq<Block>          // the disk blocks, as bread returns them
    var inodes: seq<Inode>          // in-memory inodes
    var journal: Journal            // history: what was log_written
    ghost var owner: Owner
    ghost var loose: set<nat>

    ghost function State(): Fs
      reads this
    {
      Fs(sb, blocks, inodes)
    }

    /** The blocks the operation has logged so far. */
    ghost function Logged(): set<nat>
      reads this`journal
    {
      Named(journal.trace)
    }

    ghost predicate Sound()
      reads this
    {
      Owned(State(), owner, loose, {}) && Tied(journal, State())
    }

    constructor (sb: Super, blocks: seq<Block>, inodes: seq<Inode>, ghost owner: Owner)
      requires Owned(Fs(sb, blocks, inodes), owner, {}, {}) && Synced(Fs(sb, blocks, inodes), {})
      ensures this.sb == sb && this.blocks == blocks && this.inodes == inodes && journal == Journal(blocks, [], {}, {})
      ensures this.owner == owner && loose == {} && Sound()
    {
      this.sb, this.blocks, this.inodes := sb, blocks, inodes;
      this.journal, this.owner, this.loose := Journal(blocks, [], {}, {}), owner, {};
    }

    /** begin_op: the journal starts anew. */
    method Begin()
      requires Tied(journal, State())
      modifies this`journal
      ensures Tied(journal, State()) && Logged() == {}
      ensures InRange(|old(journal.base)|, old(journal.trace))
      ensures journal == old(Journal(Apply(journal.base, journal.trace), [], journal.stale, journal.open))
    {
      TiedBegin(journal, State());
      journal := Journal(Apply(journal.base, journal.trace), [], journal.stale, journal.open);
    }

    /** log_write of block `b`, whose buffer now holds `x`. */
    method LogWrite(b: nat, x: Block)
      requires Tied(journal, State()) && sb.bmapstart <= b < |blocks|
      modifies this`blocks, this`journal
      ensures Tied(journal, State()) && blocks == old(blocks)[b := x] && journal == Noted(old(journal), b, x)
      ensures Logged() == old(Logged()) + {b}
    {
      hide Tied, Named;
      TiedWrite(journal, State(), b, x);
      NotedNames(journal, b, x);
      blocks, journal := blocks[b := x], Noted(journal, b, x);
    }

    /** balloc: the lowest free block, marked, zeroed and logged; 0 when every block is in use. */
    method Balloc() returns (r: nat)
      requires Sound()
      modifies this`blocks, this`loose, this`journal
      ensures Sound() && On(old(journal), journal, {})
      ensures r == 0 <==> old(Full(State()))
      ensures r == 0 ==> blocks == old(blocks) && loose == old(loose) && journal == old(journal)
      ensures r != 0 ==>
                && sb.dstart <= r < sb.size && !old(Marked(sb, blocks, r))
                && (forall c :: 0 <= c < r ==> old(Marked(sb, blocks, c)))
                && State() == Allocated(old(State()), r) && loose == old(loose) + {r}
                && Logged() == old(Logged()) + {sb.BBlock(r), r}
    {
      hide Tied, Named, Reached, Placed, Accounted;
      r := FirstFree();
      if r < sb.size {
        AllocKeeps(State(), owner, loose, {}, r);
        BBlockBelow(sb, r);
        var bb := sb.BBlock(r);
        LogWrite(bb, SetBlockBit(blocks[bb], r % BPB));
        LogWrite(r, ZeroBlock());
        loose := loose + {r};
      } else {
        r := 0;
      }
    }

    /** balloc's scan, bitmap block by bitmap block; sb.size when nothing is free. */
    method FirstFree() returns (r: nat)
      requires Shape(State())
      ensures r <= sb.size
      ensures r < sb.size ==> !Marked(sb, blocks, r)
      ensures forall c :: 0 <= c < r ==> Marked(sb, blocks, c)
    {
      var b := 0;
      while b < sb.size
        invariant b % BPB == 0
        invariant forall c :: 0 <= c < b && c < sb.size ==> Marked(sb, blocks, c)
        decreases sb.size - b
      {
        BBlockBelow(sb, b);
        var data := blocks[sb.BBlock(b)];
        var bi := 0;
        while bi < BPB && b + bi < sb.size
          invariant 0 <= bi <= BPB && b + bi <= sb.size
          invariant forall c :: 0 <= c < b + bi ==> Marked(sb, blocks, c)
        {
          BlockPosition(b, bi);
          if !Bit(data[bi / 8], bi % 8) {
            return b + bi;
          }
          assert Marked(sb, blocks, b + bi);
          bi := bi + 1;
        }
        b := b + BPB;
      }
      return sb.size;
    }

    /** bfree; false is the panic on a block that is already free. */
    method Bfree(b: nat) returns (ok: bool)
      requires Shape(State()) && Tied(journal, State()) && b < sb.size
      modifies this`blocks, this`journal
      ensures Tied(journal, State()) && On(old(journal), journal, {})
      ensures ok <==> old(Marked(sb, blocks, b))
      ensures !ok ==> blocks == old(blocks) && journal == old(journal)
      ensures ok ==> State() == Freed(old(State()), b) && Logged() == old(Logged()) + {sb.BBlock(b)}
    {
      hide Tied, Named;
      BBlockBelow(sb, b);
      var bb, bi := sb.BBlock(b), b % BPB;
      if !Bit(blocks[bb][bi / 8], bi % 8) {
        return false;
      }
      LogWrite(bb, ClearBlockBit(blocks[bb], bi));
      return true;
    }

    /** iupdate: the in-memory inode is written to its inode block. */
    method Iupdate(inum: nat)
      requires Tied(journal, State()) && inum < |inodes| && Storable(inodes[inum]) && InodeBlock(sb, inum) < |blocks|
      modifies this`blocks, this`journal
      ensures Tied(journal, State()) && On(old(journal), journal, {}) && journal.open == old(journal.open) - {inum}
      ensures blocks == old(blocks)[InodeBlock(sb, inum) := Updated(old(State()), inum)]
      ensures Logged() == old(Logged()) + {InodeBlock(sb, inum)}
    {
      hide Tied, Named, PutInode;
      TiedUpdate(journal, State(), inum);
      var b := InodeBlock(sb, inum);
      var x := PutInode(blocks[b], inum, inodes[inum]);
      NotedNames(journal, b, x);
      blocks, journal := blocks[b := x], Noted(journal, b, x).(open := journal.open - {inum});
    }

    /** An address of an inode changes in memory. */
    method SetAddr(inum: nat, s: nat, b: nat)
      requires Tied(journal, State()) && inum < |inodes| && s < |inodes[inum].addrs|
      modifies this`inodes, this`journal
      ensures Tied(journal, State()) && inodes == WithAddr(old(State()), inum, s, b).inodes
      ensures journal == old(journal).(open := old(journal).open + {inum})
    {
      hide Tied;
      var node := inodes[inum].(addrs := inodes[inum].addrs[s := b]);
      TiedOpen(journal, State(), inum, node);
      inodes, journal := inodes[inum := node], journal.(open := journal.open + {inum});
    }

    /** Take the block out of a direct slot of a file being truncated. */
    method FreeDirect(inum: nat, s: nat) returns (ok: bool)
      requires Sound() && loose == {} && inum < |inodes| && s < NDIRECT && inodes[inum].addrs[s] != 0
      modifies this`blocks, this`inodes, this`owner, this`journal
      ensures ok && Sound() && On(old(journal), journal, {inum})
      ensures inodes == WithAddr(old(State()), inum, s, 0).inodes
      ensures owner == old(owner) - {old(inodes)[inum].addrs[s]}
      ensures forall b :: sb.dstart <= b < sb.size ==> blocks[b] == old(blocks)[b]
    {
      hide Marked, Reached, Placed, Accounted, Tied;
      var b := inodes[inum].addrs[s];
      ghost var fs := State();
      DetachKeeps(fs, owner, {}, {}, inum, s);
      assert {} + {b} == {b} && {} + {(inum, s)} == {(inum, s)} && {b} - {b} == {};
      FreeKeeps(fs, owner - {b}, {b}, {(inum, s)}, b);
      BBlockBelow(sb, b);
      ok := Bfree(b);
      owner := owner - {b};
      ClearKeeps(State(), owner, {}, {(inum, s)}, inum, s, {});
      SetAddr(inum, s, 0);
    }

    /** The first loop of itrunc. */
    method TruncDirect(inum: nat) returns (ok: bool)
      requires Sound() && loose == {} && inum < |inodes|
      modifies this`blocks, this`inodes, this`owner, this`journal
      ensures ok && Sound() && |inodes| == |old(inodes)| && On(old(journal), journal, {inum})
      ensures owner == Dropped(old(owner), inum, Range(0, NDIRECT))
      ensures inodes == old(inodes)[inum := inodes[inum]] && inodes[inum].size == old(inodes)[inum].size
      ensures forall s :: 0 <= s < NDIRECT ==> inodes[inum].addrs[s] == 0
      ensures inodes[inum].addrs[NDIRECT] == old(inodes)[inum].addrs[NDIRECT]
      ensures forall b :: sb.dstart <= b < sb.size ==> blocks[b] == old(blocks)[b]
    {
      hide Marked, Reached, Placed, Accounted, Range, Tied;
      assert owner == Dropped(owner, inum, Range(0, 0));
      ok := true;
      var i := 0;
      while i < NDIRECT
        invariant 0 <= i <= NDIRECT && ok && Sound() && |inodes| == |old(inodes)| && On(old(journal), journal, {inum})
        invariant owner == Dropped(old(owner), inum, Range(0, i))
        invariant inodes == old(inodes)[inum := inodes[inum]] && inodes[inum].size == old(inodes)[inum].size
        invariant forall s :: 0 <= s < i ==> inodes[inum].addrs[s] == 0
        invariant inodes[inum].addrs[NDIRECT] == old(inodes)[inum].addrs[NDIRECT]
        invariant forall b :: sb.dstart <= b < sb.size ==> blocks[b] == old(blocks)[b]
      {
        DropNext(State(), old(owner), owner, {}, inum, Range(0, i), i);
        assert Range(0, i) + {i} == Range(0, i + 1);
        if inodes[inum].addrs[i] != 0 {
          ok := FreeDirect(inum, i);
        }
        i := i + 1;
      }
    }

    /** The loop of itrunc over the indirect block: each entry's block is freed, the entries themselves
        being left to disappear with the indirect block. */
    method TruncEntries(inum: nat) returns (ok: bool)
      requires Sound() && loose == {} && inum < |inodes| && inodes[inum].addrs[NDIRECT] != 0
      modifies this`blocks, this`owner, this`journal
      ensures ok && Owned(State(), owner, {}, Entries(inum, NINDIRECT)) && Tied(journal, State()) && On(old(journal), journal, {})
      ensures owner == Dropped(old(owner), inum, Range(NDIRECT + 1, NSLOT))
      ensures forall b :: sb.dstart <= b < sb.size ==> blocks[b] == old(blocks)[b]
    {
      hide Owned, Range, Tied, Dropped, Entries;
      NothingDropped(owner, inum, NDIRECT + 1);
      NoEntries(inum);
      OnSelf(journal, {});
      ShapeOf();
      ok := true;
      var j := 0;
      while j < NINDIRECT
        invariant 0 <= j <= NINDIRECT && ok && Owned(State(), owner, {}, Entries(inum, j))
        invariant Tied(journal, State()) && On(old(journal), journal, {}) && |blocks| == sb.size
        invariant owner == Dropped(old(owner), inum, Range(NDIRECT + 1, NDIRECT + 1 + j))
        invariant forall b :: sb.dstart <= b < sb.size ==> blocks[b] == old(blocks)[b]
      {
        ok := TruncEntry(inum, j, old(owner));
        j := j + 1;
      }
    }

    /** One iteration of that loop. */
    method TruncEntry(inum: nat, j: nat, ghost o: Owner) returns (ok: bool)
      requires Owned(State(), owner, {}, Entries(inum, j)) && Tied(journal, State()) && inum < |inodes| && j < NINDIRECT
      requires inodes[inum].addrs[NDIRECT] != 0 && owner == Dropped(o, inum, Range(NDIRECT + 1, NDIRECT + 1 + j))
      modifies this`blocks, this`owner, this`journal
      ensures ok && Owned(State(), owner, {}, Entries(inum, j + 1)) && Tied(journal, State()) && On(old(journal), journal, {})
      ensures owner == Dropped(o, inum, Range(NDIRECT + 1, NDIRECT + 1 + (j + 1))) && |blocks| == |old(blocks)| == sb.size
      ensures forall b :: sb.dstart <= b < sb.size ==> blocks[b] == old(blocks)[b]
    {
      hide Marked, Reached, Placed, Accounted, Range, Tied, Dropped;
      IndirectIsData(inum, {}, Entries(inum, j));
      DropNext(State(), o, owner, Entries(inum, j), inum, Range(NDIRECT + 1, NDIRECT + 1 + j), NDIRECT + 1 + j);
      assert Range(NDIRECT + 1, NDIRECT + 1 + j) + {NDIRECT + 1 + j} == Range(NDIRECT + 1, NDIRECT + 1 + (j + 1));
      ok := true;
      var b := GetWord(blocks[inodes[inum].addrs[NDIRECT]], j);
      if b != 0 {
        ok := FreeEntry(inum, j);
      } else {
        DeadZero(State(), owner, inum, j);
      }
    }

    lemma IndirectIsData(inum: nat, free: set<nat>, dead: set<(nat, nat)>)
      requires Owned(State(), owner, free, dead) && inum < |inodes| && inodes[inum].addrs[NDIRECT] != 0
      requires (inum, NDIRECT) !in dead
      ensures sb.dstart <= inodes[inum].addrs[NDIRECT] < sb.size
    {
      assert Addr(State(), inum, NDIRECT) == inodes[inum].addrs[NDIRECT];
    }

    method FreeEntry(inum: nat, j: nat) returns (ok: bool)
      requires Owned(State(), owner, {}, Entries(inum, j)) && Tied(journal, State()) && inum < |inodes| && j < NINDIRECT
      requires inodes[inum].addrs[NDIRECT] != 0 && Addr(State(), inum, NDIRECT + 1 + j) != 0
      modifies this`blocks, this`owner, this`journal
      ensures ok && Owned(State(), owner, {}, Entries(inum, j + 1)) && Tied(journal, State()) && On(old(journal), journal, {})
      ensures owner == old(owner) - {old(Addr(State(), inum, NDIRECT + 1 + j))}
      ensures forall b :: sb.dstart <= b < sb.size ==> blocks[b] == old(blocks)[b]
    {
      hide Marked, Reached, Placed, Accounted, Tied;
      ghost var fs, slot, dead := State(), (inum, NDIRECT + 1 + j), Entries(inum, j);
      var b := GetWord(blocks[inodes[inum].addrs[NDIRECT]], j);
      DetachKeeps(fs, owner, {}, dead, inum, NDIRECT + 1 + j);
      assert {} + {b} == {b} && dead + {slot} == Entries(inum, j + 1) && {b} - {b} == {};
      FreeKeeps(fs, owner - {b}, {b}, Entries(inum, j + 1), b);
      BBlockBelow(sb, b);
      ok := Bfree(b);
      owner := owner - {b};
    }

    /** The end of itrunc: the indirect block itself. */
    method FreeIndirect(inum: nat) returns (ok: bool)
      requires Owned(State(), owner, {}, Entries(inum, NINDIRECT)) && Tied(journal, State()) && inum < |inodes|
      requires inodes[inum].addrs[NDIRECT] != 0
      modifies this`blocks, this`inodes, this`owner, this`journal
      ensures ok && Owned(State(), owner, {}, {}) && Tied(journal, State()) && On(old(journal), journal, {inum})
      ensures inodes == WithAddr(old(State()), inum, NDIRECT, 0).inodes
      ensures owner == old(owner) - {old(inodes)[inum].addrs[NDIRECT]}
      ensures forall b :: sb.dstart <= b < sb.size ==> blocks[b] == old(blocks)[b]
    {
      hide Marked, Reached, Placed, Accounted, Entries, Tied;
      ghost var fs, dead := State(), Entries(inum, NINDIRECT);
      ghost var dead' := dead + {(inum, NDIRECT)};
      var b := inodes[inum].addrs[NDIRECT];
      DetachKeeps(fs, owner, {}, dead, inum, NDIRECT);
      assert {} + {b} == {b} && {b} - {b} == {};
      FreeKeeps(fs, owner - {b}, {b}, dead', b);
      BBlockBelow(sb, b);
      ok := Bfree(b);
      owner := owner - {b};
      ClearKeeps(State(), owner, {}, dead', inum, NDIRECT, {});
      SetAddr(inum, NDIRECT, 0);
    }

    /** The second half of itrunc: the indirect block, if there is one, and the blocks its entries name. */
    method TruncIndirect(inum: nat) returns (ok: bool)
      requires Sound() && loose == {} && inum < |inodes|
      modifies this`blocks, this`inodes, this`owner, this`journal
      ensures ok && Sound() && |inodes| == |old(inodes)| && On(old(journal), journal, {inum})
      ensures owner == Dropped(old(owner), inum, Range(NDIRECT, NSLOT))
      ensures inodes == old(inodes)[inum := old(inodes)[inum].(addrs := old(inodes)[inum].addrs[NDIRECT := 0])]
      ensures forall b :: sb.dstart <= b < sb.size ==> blocks[b] == old(blocks)[b]
    {
      hide Marked, Reached, Placed, Accounted, Range, Entries, Tied, Dropped;
      ok := true;
      if inodes[inum].addrs[NDIRECT] != 0 {
        ok := TruncEntries(inum);
        DropNext(State(), old(owner), owner, Entries(inum, NINDIRECT), inum, Range(NDIRECT + 1, NSLOT), NDIRECT);
        assert Range(NDIRECT + 1, NSLOT) + {NDIRECT} == Range(NDIRECT, NSLOT);
        ok := FreeIndirect(inum);
      } else {
        NoIndirect(State(), owner, inum);
        var addrs := inodes[inum].addrs;
        assert addrs == addrs[NDIRECT := 0];
        assert inodes == inodes[inum := inodes[inum].(addrs := addrs)];
      }
    }

    /** itrunc: the inode's blocks are freed, each once and no others, and the inode is empty, in memory and on disk.  The
        panic on a free block is never reached. */
    method Itrunc(inum: nat) returns (ok: bool)
      requires Sound() && loose == {} && inum < |inodes|
      modifies this`blocks, this`inodes, this`owner, this`journal
      ensures ok && Sound() && On(old(journal), journal, {}) && journal.open <= old(journal.open) - {inum}
      ensures owner == Dropped(old(owner), inum, Range(0, NSLOT))
      ensures inodes == old(inodes)[inum := Inode(0, seq(NDIRECT + 1, _ => 0))]
      ensures forall b :: sb.dstart <= b < sb.size ==> blocks[b] == old(blocks)[b]
    {
      hide Marked, Reached, Placed, Accounted, Range, Entries, Tied, Dropped, Addr;
      ok := TruncDirect(inum);
      ok := TruncIndirect(inum);
      DropTwice(old(owner), inum, Range(0, NDIRECT), Range(NDIRECT, NSLOT));
      assert Range(0, NDIRECT) + Range(NDIRECT, NSLOT) == Range(0, NSLOT);
      SetSize(inum, 0);
      assert inodes[inum].addrs == seq(NDIRECT + 1, _ => 0);
      WriteBack(inum);
    }

    /** The size of an inode changes in memory. */
    method SetSize(inum: nat, n: nat)
      requires Sound() && inum < |inodes|
      modifies this`inodes, this`journal
      ensures Sound() && inodes == old(inodes)[inum := old(inodes)[inum].(size := n)]
      ensures journal == old(journal).(open := old(journal).open + {inum})
      ensures forall j, t :: 0 <= j < |inodes| && 0 <= t < NSLOT ==> Addr(State(), j, t) == old(Addr(State(), j, t))
    {
      hide Tied, Marked, Reached, Placed, Accounted;
      var node := inodes[inum].(size := n);
      TiedOpen(journal, State(), inum, node);
      SizeKeeps(State(), owner, loose, inum, n);
      inodes, journal := inodes[inum := node], journal.(open := journal.open + {inum});
    }

    /** iupdate between calls: inode blocks are metadata, so no block changes hands and no data block changes. */
    method WriteBack(inum: nat)
      requires Sound() && inum < |inodes| && inodes[inum].size < WORD_LIMIT
      modifies this`blocks, this`journal
      ensures Sound() && On(old(journal), journal, {}) && journal.open == old(journal.open) - {inum}
      ensures forall b :: sb.dstart <= b < sb.size ==> blocks[b] == old(blocks)[b]
      ensures forall j, t :: 0 <= j < |inodes| && 0 <= t < NSLOT ==> Addr(State(), j, t) == old(Addr(State(), j, t))
      ensures Full(State()) <==> old(Full(State()))
      ensures Logged() == old(Logged()) + {InodeBlock(sb, inum)}
    {
      hide Tied, Named, PutInode, Marked, Reached, Placed, Accounted, Synced;
      InodeRoom(journal, State(), inum);
      ghost var before := State();
      MetaKeeps(before, owner, loose, InodeBlock(sb, inum), Updated(before, inum));
      Iupdate(inum);
      FullSame(before, State());
    }

    /** bmap on a direct slot: its block, allocated if there was none; 0 when the disk is full. */
    method BmapDirect(inum: nat, s: nat) returns (r: nat)
      requires Sound() && loose == {} && inum < |inodes| && s <= NDIRECT
      modifies this`blocks, this`inodes, this`owner, this`loose, this`journal
      ensures Sound() && loose == {} && |inodes| == |old(inodes)| && On(old(journal), journal, {inum})
      ensures Grown(old(State()), old(owner), State(), owner, inum)
      ensures r == Addr(State(), inum, s)
      ensures r == 0 ==> Full(State()) && State() == old(State())
      ensures old(Full(State())) && old(Addr(State(), inum, s)) == 0 ==> r == 0
      ensures old(Addr(State(), inum, s)) == 0 && r != 0 ==> blocks[r] == ZeroBlock()
      ensures old(Addr(State(), inum, s)) != 0 ==> State() == old(State()) && owner == old(owner) && journal == old(journal)
      ensures Logged() <= old(Logged()) + BitmapBlocks() + ({r} - {0})
    {
      hide Marked, Reached, Placed, Accounted, SetBlockBit, Range, Tied, Named;
      r := inodes[inum].addrs[s];
      if r == 0 {
        r := Balloc();
        if r == 0 { return; }
        InBitmap(r);
        AllocGrows(old(State()), old(owner), {}, r, inum);
        assert {} + {r} == {r} && {r} - {r} == {};
        AssignKeeps(State(), owner, {r}, inum, s, r);
        AssignGrows(State(), owner, {r}, inum, s, r);
        ghost var mid := State();
        SetAddr(inum, s, r);
        owner, loose := owner[r := (inum, s)], {};
        GrownTwice(old(State()), old(owner), mid, old(owner), State(), owner, inum);
      }
    }

    ghost function BitmapBlocks(): set<nat>
      requires sb.Valid()
    {
      MapBlocks(sb)
    }

    lemma InBitmap(b: nat)
      requires sb.Valid() && b < sb.size
      ensures sb.BBlock(b) in BitmapBlocks()
    {
      assert b / BPB <= (sb.size - 1) / BPB;
    }

    /** bmap on an entry of the indirect block. */
    method BmapEntry(inum: nat, k: nat) returns (r: nat)
      requires Sound() && loose == {} && inum < |inodes| && k < NINDIRECT && inodes[inum].addrs[NDIRECT] != 0
      modifies this`blocks, this`owner, this`loose, this`journal
      ensures Sound() && loose == {} && On(old(journal), journal, {})
      ensures Grown(old(State()), old(owner), State(), owner, inum)
      ensures r == Addr(State(), inum, NDIRECT + 1 + k)
      ensures r == 0 ==> Full(State()) && State() == old(State())
      ensures old(Full(State())) && old(Addr(State(), inum, NDIRECT + 1 + k)) == 0 ==> r == 0
      ensures old(Addr(State(), inum, NDIRECT + 1 + k)) == 0 && r != 0 ==> blocks[r] == ZeroBlock()
      ensures old(Addr(State(), inum, NDIRECT + 1 + k)) != 0 ==> State() == old(State()) && owner == old(owner) && journal == old(journal)
      ensures Logged() <= old(Logged()) + BitmapBlocks() + ({r, inodes[inum].addrs[NDIRECT]} - {0})
    {
      hide Marked, Reached, Placed, Accounted, SetBlockBit, Range, Tied, Named, MapBlocks;
      var a := inodes[inum].addrs[NDIRECT];
      IndirectIsData(inum, loose, {});
      r := GetWord(blocks[a], k);
      if r == 0 {
        r := Balloc();
        if r == 0 { return; }
        InBitmap(r);
        AllocGrows(old(State()), old(owner), {}, r, inum);
        KeptIndirect(old(State()), old(owner), inum, k, r);
        assert {} + {r} == {r};
        ghost var mid := State();
        StoreAddr(inum, k, r);
        GrownTwice(old(State()), old(owner), mid, old(owner), State(), owner, inum);
        EntryLogged(old(Logged()), Logged(), BitmapBlocks(), sb.BBlock(r), r, a);
      }
    }

    /** A fresh block stored in an entry of the indirect block. */
    method StoreAddr(inum: nat, k: nat, b: nat)
      requires Sound() && loose == {b} && inum < |inodes| && k < NINDIRECT && b < sb.size && inodes[inum].addrs[NDIRECT] != b
      requires inodes[inum].addrs[NDIRECT] != 0 && Addr(State(), inum, NDIRECT + 1 + k) == 0
      modifies this`blocks, this`owner, this`loose, this`journal
      ensures Sound() && loose == {} && On(old(journal), journal, {})
      ensures Grown(old(State()), old(owner), State(), owner, inum)
      ensures Addr(State(), inum, NDIRECT + 1 + k) == b && blocks[b] == old(blocks)[b]
      ensures Logged() == old(Logged()) + {inodes[inum].addrs[NDIRECT]}
    {
      hide Marked, Reached, Placed, Accounted, Tied, Named;
      var a := inodes[inum].addrs[NDIRECT];
      IndirectIsData(inum, loose, {});
      assert {b} - {b} == {};
      AssignEntryKeeps(State(), owner, {b}, inum, k, b);
      AssignEntryGrows(State(), owner, {b}, inum, k, b);
      LogWrite(a, PutWord(blocks[a], k, b));
      owner, loose := owner[b := (inum, NDIRECT + 1 + k)], {};
    }

    /** bmap: the block holding the bn-th block of the file, allocated if there was none, or 0 when
        the disk is full.  Nothing already in any file changes.  False is the panic past the largest file. */
    method Bmap(inum: nat, bn: nat) returns (r: nat, ok: bool)
      requires Sound() && loose == {} && inum < |inodes|
      modifies this`blocks, this`inodes, this`owner, this`loose, this`journal
      ensures Sound() && loose == {} && |inodes| == |old(inodes)| && On(old(journal), journal, {inum})
      ensures ok <==> bn < MAXFILE
      ensures !ok ==> State() == old(State()) && owner == old(owner) && journal == old(journal)
      ensures Grown(old(State()), old(owner), State(), owner, inum)
      ensures ok ==> r == Addr(State(), inum, Slot(bn))
      ensures ok && r == 0 ==> Full(State())
      ensures ok && old(Full(State())) && old(Addr(State(), inum, Slot(bn))) == 0 ==> r == 0
      ensures ok && old(Addr(State(), inum, Slot(bn))) == 0 && r != 0 ==> blocks[r] == ZeroBlock()
      ensures ok && old(Addr(State(), inum, Slot(bn))) != 0 ==> State() == old(State()) && owner == old(owner) && journal == old(journal)
      ensures ok ==> Logged() <= old(Logged()) + BitmapBlocks() + ({r, inodes[inum].addrs[NDIRECT]} - {0})
    {
      hide Marked, Reached, Placed, Accounted, Range, Full, Tied, Named;
      r, ok := 0, true;
      if bn < NDIRECT {
        r := BmapDirect(inum, bn);
      } else if bn - NDIRECT < NINDIRECT {
        var a := BmapDirect(inum, NDIRECT);
        if a == 0 { return; }
        ghost var mid, o := State(), owner;
        r := BmapEntry(inum, bn - NDIRECT);
        GrownTwice(old(State()), old(owner), mid, o, State(), owner, inum);
      } else {
        ok := false;
      }
    }

    /** Between calls: ownership is settled and no file has holes. */
    ghost predicate Valid()
      reads this
    {
      && Owned(State(), owner, {}, {}) && loose == {} && Tied(journal, State()) && journal.open == {}
      && forall i :: 0 <= i < |inodes| ==> Backed(State(), i, inodes[i].size)
    }

    /** readi: the slice of the file that lies within it, across any block boundaries. */
    method Readi(inum: nat, off: word, n: word) returns (dst: seq<byte>)
      requires Valid() && inum < |inodes|
      modifies this`blocks, this`inodes, this`owner, this`loose, this`journal
      ensures Valid() && State() == old(State()) && owner == old(owner) && journal == old(journal)
      ensures off > inodes[inum].size || off + n >= WORD_LIMIT ==> dst == []
      ensures off <= inodes[inum].size && off + n < WORD_LIMIT ==>
                var end := if off + n > inodes[inum].size then inodes[inum].size else off + n;
                dst == Content(State(), inum)[off..end]
    {
      hide FileSystem.Valid, Shape, Content, WithinBlock;
      dst := [];
      FileFits(inum);
      ghost var fs, c := State(), Content(State(), inum);
      var size := inodes[inum].size;
      if off > size || off + n >= WORD_LIMIT { return; }
      var end := if off + n > size then size else off + n;
      var pos := off;
      while pos < end
        invariant off <= pos <= end && Valid() && State() == fs && owner == old(owner) && journal == old(journal)
        invariant dst == c[off..pos]
      {
        var m := WithinBlock(pos, end - pos);
        var chunk := ReadStep(inum, pos, m);
        assert c[off..pos] + c[pos..pos + m] == c[off..pos + m];
        dst := dst + chunk;
        pos := pos + m;
      }
    }

    /** One iteration of readi. */
    method ReadStep(inum: nat, pos: nat, m: nat) returns (chunk: seq<byte>)
      requires Valid() && Shape(State()) && inum < |inodes| && 0 < m && pos + m <= inodes[inum].size <= MAXBYTES && pos % BSIZE + m <= BSIZE
      modifies this`blocks, this`inodes, this`owner, this`loose, this`journal
      ensures Valid() && State() == old(State()) && owner == old(owner) && journal == old(journal)
      ensures chunk == Content(State(), inum)[pos..pos + m]
    {
      hide Owned, Backed, Addr, ByteAt, Grown, Marked, Full, Tied, Named, Content, OnBut;
      Lookup(inum, pos);
      var addr, _ := Bmap(inum, pos / BSIZE);
      var o := pos % BSIZE;
      ReadChunk(State(), inum, pos, m);
      chunk := blocks[addr][o..o + m];
    }

    lemma FileFits(inum: nat)
      requires Valid() && inum < |inodes|
      ensures Shape(State()) && inodes[inum].size <= MAXBYTES
    {
    }

    lemma Lookup(inum: nat, pos: nat)
      requires Valid() && inum < |inodes| && pos < inodes[inum].size
      ensures Shape(State()) && pos / BSIZE < MAXFILE
      ensures 0 < Addr(State(), inum, Slot(pos / BSIZE)) < sb.size
    {
      BackedByte(State(), inum, inodes[inum].size, pos);
      LiveAddr(State(), owner, inum, pos / BSIZE);
    }

    /** One iteration of writei: map the block at `pos` and copy the chunk into it; false when the disk is full or only
        the first `copied` bytes can be read.  Those bytes, `torn` of them, are then in the buffer but not logged.  `data`
        is what the write has stored at `off` so far. */
    method WriteChunk(inum: nat, pos: nat, chunk: seq<byte>, copied: nat, ghost fs0: Fs, ghost off: nat, ghost data: seq<byte>)
      returns (ok: bool, ghost torn: nat)
      requires Sound() && loose == {} && inum < |inodes| == |fs0.inodes|
      requires Shape(fs0) && Stored(fs0, State(), inum, off, data) && off <= fs0.inodes[inum].size
      requires pos == off + |data| && pos + |chunk| <= MAXBYTES && 0 < |chunk| && pos % BSIZE + |chunk| <= BSIZE
      requires copied <= |chunk|
      modifies this`blocks, this`inodes, this`owner, this`loose, this`journal
      ensures Sound() && loose == {} && |inodes| == |fs0.inodes| && Shape(State())
      ensures torn <= copied && Stored(fs0, State(), inum, off, if ok then data + chunk else data + chunk[..torn])
      ensures ok ==> copied == |chunk| && torn == 0
      ensures !ok && torn == 0 && copied > 0 ==> Full(State())
      ensures !ok && torn > 0 ==> torn == copied < |chunk|
      ensures OnBut(old(journal), journal, {inum}, if torn > 0 then {Addr(State(), inum, Slot(pos / BSIZE))} else {})
      ensures Logged() <= old(Logged()) + BitmapBlocks()
                          + ({inodes[inum].addrs[NDIRECT], Addr(State(), inum, Slot(pos / BSIZE))} - {0})
      ensures Kept(old(State()), State(), inum)
    {
      hide Reached, Placed, Accounted, Backed, ByteAt, Marked, Full, Range, Stored, Patched, Tied, Named, Grown, Kept, Addr;
      ghost var before, o := State(), owner;
      var addr, _ := Bmap(inum, pos / BSIZE);
      StoredGrown(fs0, before, o, State(), owner, inum, off, data);
      GrownKept(before, o, State(), owner, inum);
      torn := 0;
      assert data + chunk[..0] == data;
      if addr == 0 { return false, 0; }
      LiveAddr(State(), owner, inum, pos / BSIZE);
      if copied == 0 { return false, 0; }
      ghost var mid, mine := State(), owner;
      StoredChunk(fs0, mid, owner, inum, off, data, chunk[..copied]);
      var x := Patched(blocks[addr], pos % BSIZE, chunk[..copied]);
      WriteKeeps(mid, owner, {}, addr, x);
      if copied < |chunk| {
        Spoil(addr, x);
        torn := copied;
        ok := false;
      } else {
        assert chunk[..copied] == chunk;
        LogWrite(addr, x);
        ok := true;
      }
      KeptTwice(before, mid, State(), inum);
    }

    lemma ShapeOf()
      requires Sound()
      ensures Shape(State()) && sb.Valid()
    {
    }

    /** A buffer changed and given up without log_write: what bread returns is not what is logged. */
    method Spoil(b: nat, x: Block)
      requires Tied(journal, State()) && sb.bmapstart <= b < |blocks|
      modifies this`blocks, this`journal
      ensures Tied(journal, State()) && blocks == old(blocks)[b := x]
      ensures journal == old(journal).(stale := old(journal).stale + {b})
    {
      hide Tied;
      TiedStale(journal, State(), b, x);
      blocks, journal := blocks[b := x], journal.(stale := journal.stale + {b});
    }

    /** writei: the bytes of `src` that fit on the disk spliced into the file at `off`, every other file as before, and the
        inode written back.  -1 rejects a write that starts past the end of the file or would end past the largest file.
        Only the first `faultAt` bytes of `src` can be read.  A short count means the disk filled up or the source could
        not be read; in the second case `seen` more bytes of the file may have been overwritten, in a block that was not
        logged. */
    method Writei(inum: nat, off: word, src: seq<byte>, faultAt: nat) returns (r: int, ghost seen: nat)
      requires Valid() && inum < |inodes| && |src| < WORD_LIMIT
      modifies this`blocks, this`inodes, this`owner, this`loose, this`journal
      ensures Valid() && |inodes| == |old(inodes)|
      ensures r == -1 <==> off > old(inodes)[inum].size || off + |src| >= WORD_LIMIT || off + |src| > MAXBYTES
      ensures r == -1 ==> State() == old(State()) && journal == old(journal) && seen == 0
      ensures r != -1 ==>
                && 0 <= r <= |src| && r + seen <= |src| && (r < |src| ==> Full(State()) || faultAt < |src|)
                && (r == 0 || r == |src| || (off + r) % BSIZE == 0)
                && Content(State(), inum) == Splice(old(Content(State(), inum)), off, src[..r + seen])
                && (forall j :: 0 <= j < |inodes| && j != inum ==>
                      Content(State(), j) == old(Content(State(), j)) && inodes[j] == old(inodes)[j])
                && Logged() <= old(Logged()) + Footprint(sb, State(), inum, off, |src|)
                && (seen > 0 ==> off + r + seen <= |old(Content(State(), inum))| && r + seen <= faultAt)
                && (if r < |src| && faultAt < |src|
                    then OnBut(old(journal), journal, {}, {Addr(State(), inum, Slot((off + r) / BSIZE))})
                    else seen == 0 && On(old(journal), journal, {}))
    {
      hide Reached, Placed, Accounted, Backed, Addr, ByteAt, Marked, Range, Stored, DataBlocks, Content, Splice, Touched, Tied, Named, Full;
      ghost var fs := State();
      AllFit();
      r, seen := -1, 0;
      if off > inodes[inum].size || off + |src| >= WORD_LIMIT { return; }
      if off + |src| > MAXBYTES { return; }
      StoredNothing(fs, inum, off);
      var tot;
      ghost var torn;
      tot, torn := StoreLoop(inum, off, src, faultAt);
      StoredSizes(fs, State(), inum, off, src[..tot + torn]);
      seen := Visible(fs, inum, off, tot, torn, src);
      r := FinishWrite(inum, off, tot, seen, fs, src);
    }

    /** How much of what was copied and not logged lies within the file. */
    ghost method Visible(fs0: Fs, inum: nat, off: nat, tot: nat, torn: nat, src: seq<byte>) returns (seen: nat)
      requires Sound() && Shape(fs0) && inum < |inodes| == |fs0.inodes| && off <= fs0.inodes[inum].size
      requires tot + torn <= |src| && Stored(fs0, State(), inum, off, src[..tot + torn])
      ensures seen <= torn && Stored(fs0, State(), inum, off, src[..tot + seen])
      ensures seen > 0 ==> off + tot + seen <= inodes[inum].size
    {
      hide Reached, Placed, Accounted, Backed, Addr, ByteAt, Marked, Stored, Tied;
      var size := inodes[inum].size;
      seen := if off + tot + torn <= size then torn else if off + tot < size then size - off - tot else 0;
      if seen < torn {
        assert src[..tot + torn][..tot + seen] == src[..tot + seen];
        StoredPrefix(fs0, State(), inum, off, src[..tot + torn], tot + seen, tot);
      }
    }

    /** The end of writei: the size covers what was logged, and the inode is written back. */
    method FinishWrite(inum: nat, off: nat, tot: nat, ghost seen: nat, ghost fs0: Fs, ghost src: seq<byte>) returns (r: int)
      requires Sound() && loose == {} && journal.open <= {inum} && inum < |inodes| == |fs0.inodes|
      requires Shape(fs0) && (forall j :: 0 <= j < |fs0.inodes| ==> fs0.inodes[j].size <= MAXBYTES)
      requires off <= fs0.inodes[inum].size && tot + seen <= |src| && off + |src| <= MAXBYTES
      requires Stored(fs0, State(), inum, off, src[..tot + seen]) && (seen > 0 ==> off + tot + seen <= inodes[inum].size)
      modifies this`blocks, this`inodes, this`journal
      ensures Valid() && |inodes| == |fs0.inodes| && r == tot && On(old(journal), journal, {})
      ensures Content(State(), inum) == Splice(Content(fs0, inum), off, src[..tot + seen])
      ensures forall j :: 0 <= j < |inodes| && j != inum ==>
                Content(State(), j) == Content(fs0, j) && inodes[j] == fs0.inodes[j]
      ensures forall j, t :: 0 <= j < |inodes| && 0 <= t < NSLOT ==> Addr(State(), j, t) == old(Addr(State(), j, t))
      ensures Full(State()) <==> old(Full(State()))
      ensures Logged() == old(Logged()) + {InodeBlock(sb, inum)}
      ensures Touched(sb, old(State()), inum, off / BSIZE, BlocksFor(off + |src|))
              <= Touched(sb, State(), inum, off / BSIZE, BlocksFor(off + |src|))
    {
      hide Reached, Placed, Accounted, Backed, Addr, ByteAt, Marked, Range, Stored, DataBlocks, Content, Splice, Touched, Tied, Named, Full;
      ghost var lo, hi := off / BSIZE, BlocksFor(off + |src|);
      ghost var s0 := State();
      RaiseSize(inum, off, tot, fs0, src[..tot + seen]);
      ghost var s1 := State();
      WriteBack(inum);
      SameFiles(s1, State(), owner);
      TouchedSized(sb, s0, s1, inum, lo, hi);
      TouchedSized(sb, s1, State(), inum, lo, hi);
      return tot;
    }

    /** One transaction of filewrite: at most CHUNK bytes, so the blocks it logs are the bitmap blocks, the
        inode's block and five more. */
    method WriteTransaction(inum: nat, off: word, chunk: seq<byte>, faultAt: nat) returns (r: int, ghost seen: nat)
      requires Valid() && inum < |inodes| && |chunk| <= CHUNK
      modifies this`blocks, this`inodes, this`owner, this`loose, this`journal
      ensures Valid() && |inodes| == |old(inodes)| && Began(old(journal), journal)
      ensures r == -1 <==> off > old(inodes)[inum].size || off + |chunk| >= WORD_LIMIT || off + |chunk| > MAXBYTES
      ensures r == -1 ==> State() == old(State()) && seen == 0
      ensures r != -1 ==>
                && 0 <= r <= |chunk| && r + seen <= |chunk| && (r < |chunk| ==> Full(State()) || faultAt < |chunk|)
                && Content(State(), inum) == Splice(old(Content(State(), inum)), off, chunk[..r + seen])
                && |Content(State(), inum)| >= off + r && (seen > 0 ==> r + seen <= faultAt < |chunk|)
                && (r == |chunk| ==> seen == 0)
      ensures r == -1 || r == |chunk| || faultAt >= |chunk| ==> journal.stale <= old(journal.stale)
      ensures forall j :: 0 <= j < |inodes| && j != inum ==> Content(State(), j) == old(Content(State(), j))
      ensures |Logged()| <= (sb.size - 1) / BPB + 1 + 6
    {
      hide Reached, Placed, Accounted, Addr, ByteAt, Marked, Full, Range, DataBlocks, Content, Touched, Footprint, Tied, Named, Apply;
      AllFit();
      Begin();
      r, seen := Writei(inum, off, chunk, faultAt);
      AllFit();
      if r >= 0 {
        ChunkFootprint(sb, State(), inum, off, |chunk|);
        SubsetSize(Logged(), Footprint(sb, State(), inum, off, |chunk|));
      }
    }

    /** filewrite on an inode: the data goes in one bounded transaction after another.  `done` bytes have
        been written and the file offset has advanced past them; the result is the full count or -1.
        `logs` records the blocks each transaction logged; `seen` is as in writei. */
    method Filewrite(inum: nat, off: word, src: seq<byte>, faultAt: nat)
      returns (ret: int, off': nat, ghost done: nat, ghost seen: nat, ghost logs: seq<set<nat>>)
      requires Valid() && inum < |inodes| && |src| < WORD_LIMIT
      modifies this`blocks, this`inodes, this`owner, this`loose, this`journal
      ensures Valid() && |inodes| == |old(inodes)|
      ensures done <= |src| && off' == off + done && ret == if done == |src| then |src| else -1
      ensures off > old(inodes)[inum].size ==> done == 0 && State() == old(State())
      ensures off <= old(inodes)[inum].size && done < |src| ==> Full(State()) || off + |src| > MAXBYTES || faultAt < |src|
      ensures off <= old(inodes)[inum].size ==>
                && done + seen <= |src|
                && Content(State(), inum) == Splice(old(Content(State(), inum)), off, src[..done + seen])
      ensures seen > 0 ==> done + seen <= faultAt < |src|
      ensures forall j :: 0 <= j < |inodes| && j != inum ==> Content(State(), j) == old(Content(State(), j))
      ensures forall k :: 0 <= k < |logs| ==> |logs[k]| <= (sb.size - 1) / BPB + 1 + 6
    {
      hide FileSystem.Valid, Shape, Full, Content, Splice, Named, Began;
      AllFit();
      if off <= inodes[inum].size { SpliceNothing(Content(State(), inum), off); }
      var i, r := 0, 0;
      off', done, seen, logs := off, 0, 0, [];
      while i < |src|
        invariant 0 <= i <= |src| && Valid() && |inodes| == |old(inodes)| && done == i && off' == off + i && seen == 0
        invariant Sized() && old(Sized())
        invariant old(inodes)[inum].size < off ==> i == 0 && State() == old(State())
        invariant off <= old(inodes)[inum].size ==> off' <= inodes[inum].size
        invariant off <= old(inodes)[inum].size ==>
                    Content(State(), inum) == Splice(old(Content(State(), inum)), off, src[..i])
        invariant forall j :: 0 <= j < |inodes| && j != inum ==> Content(State(), j) == old(Content(State(), j))
        invariant forall k :: 0 <= k < |logs| ==> |logs[k]| <= (sb.size - 1) / BPB + 1 + 6
      {
        var n1 := if |src| - i > CHUNK then CHUNK else |src| - i;
        AllFit();
        r, seen := WriteTransaction(inum, off', src[i..i + n1], if faultAt < i then 0 else faultAt - i);
        AllFit();
        if r > 0 {
          off' := off' + r;
        }
        if r >= 0 {
          SpliceTwice(old(Content(State(), inum)), off, src[..i], src[i..i + n1][..r + seen]);
          Extends(src, i, n1, r + seen);
          done := i + r;
          logs := logs + [Logged()];
        }
        if r != n1 {
          assert off <= old(inodes)[inum].size ==> Full(State()) || off + |src| > MAXBYTES || faultAt < |src|;
          break;
        }
        i := i + r;
      }
      ret := if i == |src| then |src| else -1;
    }

    /** The size covers what was stored. */
    method RaiseSize(inum: nat, off: nat, tot: nat, ghost fs0: Fs, ghost data: seq<byte>)
      requires Sound() && loose == {} && inum < |inodes| == |fs0.inodes|
      requires Shape(fs0) && (forall j :: 0 <= j < |fs0.inodes| ==> fs0.inodes[j].size <= MAXBYTES)
      requires Stored(fs0, State(), inum, off, data) && off <= fs0.inodes[inum].size && tot <= |data|
      requires tot < |data| ==> off + |data| <= inodes[inum].size
      modifies this`inodes, this`journal
      ensures Sound() && |inodes| == |fs0.inodes| && On(old(journal), journal, {inum})
      ensures journal.open <= old(journal.open) + {inum} && journal.trace == old(journal.trace)
      ensures forall i :: 0 <= i < |inodes| ==> inodes[i].size <= MAXBYTES && Backed(State(), i, inodes[i].size)
      ensures Content(State(), inum) == Splice(Content(fs0, inum), off, data)
      ensures forall j :: 0 <= j < |inodes| && j != inum ==>
                Content(State(), j) == Content(fs0, j) && inodes[j] == fs0.inodes[j]
      ensures forall j, t :: 0 <= j < |inodes| && 0 <= t < NSLOT ==> Addr(State(), j, t) == old(Addr(State(), j, t))
      ensures Full(State()) <==> old(Full(State()))
      ensures inodes == old(inodes)[inum := old(inodes)[inum].(size := inodes[inum].size)]
    {
      hide Reached, Placed, Accounted, Backed, Addr, ByteAt, Range, DataBlocks, Content, Splice, Tied, Stored;
      ghost var stored := State();
      StoredIsSplice(fs0, stored, owner, inum, off, data);
      StoredSizes(fs0, stored, inum, off, data);
      StoredOthers(fs0, stored, inum, off, data);
      if off + tot > inodes[inum].size {
        SetSize(inum, off + tot);
      }
      assert State() == stored.(inodes := stored.inodes[inum := inodes[inum]]);
    }

    /** The loop of writei. */
    method StoreLoop(inum: nat, off: nat, src: seq<byte>, faultAt: nat) returns (tot: nat, ghost torn: nat)
      requires Sound() && loose == {} && inum < |inodes| && off <= inodes[inum].size
      requires off + |src| <= MAXBYTES && Stored(State(), State(), inum, off, [])
      modifies this`blocks, this`inodes, this`owner, this`loose, this`journal
      ensures Sound() && loose == {} && |inodes| == |old(inodes)|
      ensures tot + torn <= |src| && (tot < |src| ==> Full(State()) || faultAt < |src|)
      ensures torn > 0 ==> tot + torn <= faultAt < |src|
      ensures tot == 0 || tot == |src| || (off + tot) % BSIZE == 0
      ensures Stored(old(State()), State(), inum, off, src[..tot + torn])
      ensures if tot < |src| && faultAt < |src|
              then OnBut(old(journal), journal, {inum}, {Addr(State(), inum, Slot((off + tot) / BSIZE))})
              else torn == 0 && On(old(journal), journal, {inum})
      ensures Logged() <= old(Logged()) + Touched(sb, State(), inum, off / BSIZE, BlocksFor(off + |src|))
    {
      hide Owned, Shape, Backed, Addr, ByteAt, Full, Range, Stored, DataBlocks, Touched, MapBlocks, Tied, Named, Kept, WithinBlock, BlocksFor, OnBut;
      ghost var fs := State();
      tot, torn := 0, 0;
      ShapeOf();
      OnSelf(journal, {inum});
      BlocksWithin(off + |src|);
      while tot < |src|
        invariant 0 <= tot <= |src| && Sound() && loose == {} && |inodes| == |old(inodes)| && torn == 0
        invariant Shape(State()) && sb.Valid()
        invariant tot == 0 || tot == |src| || (off + tot) % BSIZE == 0
        invariant Stored(fs, State(), inum, off, src[..tot]) && On(old(journal), journal, {inum})
        invariant Logged() <= old(Logged()) + Touched(sb, State(), inum, off / BSIZE, BlocksFor(off + |src|))
      {
        var pos := off + tot;
        var m := WithinBlock(pos, |src| - tot);
        BlockInRange(off, pos, off + |src|);
        var copied := if tot + m <= faultAt then m else if tot < faultAt then faultAt - tot else 0;
        ghost var before, j1 := State(), journal;
        var ok;
        ok, torn := WriteChunk(inum, pos, src[tot..tot + m], copied, fs, off, src[..tot]);
        OnTwice(old(journal), j1, journal, {inum}, if torn > 0 then {Addr(State(), inum, Slot(pos / BSIZE))} else {});
        if torn == 0 { OnWider(old(journal), journal, {inum}, {Addr(State(), inum, Slot(pos / BSIZE))}); }
        TouchedGrows(sb, before, State(), inum, off / BSIZE, BlocksFor(off + |src|), pos / BSIZE);
        Extends(src, tot, m, torn);
        if !ok { return; }
        tot := tot + m;
      }
    }

    /** Every file is within bounds. */
    ghost predicate Sized()
      reads this
    {
      Shape(State()) && forall i :: 0 <= i < |inodes| ==> inodes[i].size <= MAXBYTES
    }

    lemma AllFit()
      requires Valid()
      ensures Sized()
    {
    }
  }

  // --------------------------------------------------- how much one operation logs

  /** The number of blocks needed for `len` bytes. */
  function BlocksFor(len: nat): nat
  {
    (len + BSIZE - 1) / BSIZE
  }

  /** The allocated blocks among those numbered lo to hi of the file. */
  ghost function DataBlocks(fs: Fs, i: nat, lo: nat, hi: nat): set<nat>
    requires Shape(fs) && i < |fs.inodes| && hi <= MAXFILE
    decreases hi
  {
    if hi <= lo then {} else DataBlocks(fs, i, lo, hi - 1) + ({Addr(fs, i, Slot(hi - 1))} - {0})
  }

  lemma OneMore(a: set<nat>, x: nat)
    ensures |a + ({x} - {0})| <= |a| + 1
  {
    UnionSize(a, {x} - {0});
    SubsetSize({x} - {0}, {x});
  }

  lemma DataBlocksNext(fs: Fs, i: nat, lo: nat, hi: nat)
    requires Shape(fs) && i < |fs.inodes| && hi <= MAXFILE
    ensures hi <= lo ==> DataBlocks(fs, i, lo, hi) == {}
    ensures hi > lo ==> DataBlocks(fs, i, lo, hi) == DataBlocks(fs, i, lo, hi - 1) + ({Addr(fs, i, Slot(hi - 1))} - {0})
  {
    hide Addr, Shape;
  }

  lemma {:induction false} DataBlocksSize(fs: Fs, i: nat, lo: nat, hi: nat)
    requires Shape(fs) && i < |fs.inodes| && lo <= hi <= MAXFILE
    ensures |DataBlocks(fs, i, lo, hi)| <= hi - lo
    decreases hi
  {
    hide Addr, Shape, DataBlocks;
    DataBlocksNext(fs, i, lo, hi);
    if lo < hi {
      DataBlocksSize(fs, i, lo, hi - 1);
      OneMore(DataBlocks(fs, i, lo, hi - 1), Addr(fs, i, Slot(hi - 1)));
    }
  }

  ghost function MapBlocks(sb: Super): set<nat>
    requires sb.Valid()
  {
    Range(sb.bmapstart, sb.bmapstart + (sb.size - 1) / BPB + 1)
  }

  /** What writing blocks lo to hi of a file can log, besides its inode. */
  ghost function Touched(sb: Super, fs: Fs, i: nat, lo: nat, hi: nat): set<nat>
    requires Shape(fs) && sb.Valid() && i < |fs.inodes| && hi <= MAXFILE
  {
    MapBlocks(sb) + ({fs.inodes[i].addrs[NDIRECT]} - {0}) + DataBlocks(fs, i, lo, hi)
  }

  /** How many of the next `left` bytes from `pos` on lie in one block. */
  function WithinBlock(pos: nat, left: nat): (m: nat)
    ensures m <= left && pos % BSIZE + m <= BSIZE && (left > 0 ==> m > 0) && (m == left || (pos + m) % BSIZE == 0)
  {
    var o := pos % BSIZE;
    if left < BSIZE - o then left else
      assert pos == pos / BSIZE * BSIZE + o;
      BSIZE - o
  }

  lemma BlocksWithin(end: nat)
    requires end <= MAXBYTES
    ensures BlocksFor(end) <= MAXFILE
  {
  }

  lemma BlockInRange(off: nat, pos: nat, end: nat)
    requires off <= pos < end <= MAXBYTES
    ensures off / BSIZE <= pos / BSIZE < BlocksFor(end) <= MAXFILE
  {
  }

  /** What a write of `n` bytes at `off` of a file can log. */
  ghost function Footprint(sb: Super, fs: Fs, i: nat, off: nat, n: nat): set<nat>
    requires Shape(fs) && sb.Valid() && i < |fs.inodes| && off + n <= MAXBYTES
  {
    Touched(sb, fs, i, off / BSIZE, BlocksFor(off + n)) + {InodeBlock(sb, i)}
  }

  /** The ownership map without the given slots of inode `i`. */
  ghost function Dropped(owner: Owner, i: nat, slots: set<nat>): Owner
  {
    map b | b in owner && !(owner[b].0 == i && owner[b].1 in slots) :: owner[b]
  }

  ghost function Range(lo: nat, hi: nat): (r: set<nat>)
    ensures forall x :: x in r <==> lo <= x < hi
  {
    if hi <= lo then {} else Range(lo, hi - 1) + {hi - 1}
  }

  lemma DropNext(fs: Fs, owner: Owner, now: Owner, dead: set<(nat, nat)>, i: nat, slots: set<nat>, s: nat)
    requires Shape(fs) && Reached(fs, now, dead) && Placed(fs, now, dead) && fs.sb.dstart > 0
    requires now == Dropped(owner, i, slots) && i < |fs.inodes| && s < NSLOT && s !in slots && (i, s) !in dead
    ensures Dropped(owner, i, slots + {s}) == if Addr(fs, i, s) == 0 then now else now - {Addr(fs, i, s)}
  {
    var b := Addr(fs, i, s);
    forall c | c in now ensures now[c] == (i, s) <==> c == b { }
    var after := Dropped(owner, i, slots + {s});
    forall c | c in after ensures c in now && c != b && after[c] == now[c] { }
    forall c | c in now && c != b ensures c in after { }
  }

  /** The first `k` entry slots of inode `i`. */
  ghost function Entries(i: nat, k: nat): (r: set<(nat, nat)>)
    ensures forall x, s :: (x, s) in r <==> x == i && NDIRECT < s < NDIRECT + 1 + k
  {
    if k == 0 then {} else Entries(i, k - 1) + {(i, NDIRECT + k)}
  }

  lemma EntryLogged(before: set<nat>, now: set<nat>, bitmap: set<nat>, bb: nat, r: nat, a: nat)
    requires bb in bitmap && r != 0 && a != 0 && now == before + {bb, r} + {a}
    ensures now <= before + bitmap + ({r, a} - {0})
  {
  }

  lemma NoEntries(i: nat)
    ensures Entries(i, 0) == {}
  {
  }

  lemma NothingDropped(owner: Owner, i: nat, lo: nat)
    ensures Dropped(owner, i, Range(lo, lo)) == owner
  {
  }

  lemma DeadZero(fs: Fs, owner: Owner, i: nat, j: nat)
    requires Owned(fs, owner, {}, Entries(i, j)) && i < |fs.inodes| && j < NINDIRECT
    requires Addr(fs, i, NDIRECT + 1 + j) == 0
    ensures Owned(fs, owner, {}, Entries(i, j + 1))
  {
    hide Marked;
  }

  lemma DropTwice(owner: Owner, i: nat, a: set<nat>, b: set<nat>)
    ensures Dropped(Dropped(owner, i, a), i, b) == Dropped(owner, i, a + b)
  {
  }

  /** Without an indirect block an inode owns nothing past its direct slots. */
  lemma NoIndirect(fs: Fs, owner: Owner, i: nat)
    requires Owned(fs, owner, {}, {}) && i < |fs.inodes| && fs.inodes[i].addrs[NDIRECT] == 0
    ensures Dropped(owner, i, Range(NDIRECT, NSLOT)) == owner
  {
    hide Owned, Range, Addr, Shape;
    forall b | b in owner ensures !(owner[b].0 == i && owner[b].1 in Range(NDIRECT, NSLOT)) {
      if owner[b].0 == i { NotIndirect(fs, owner, i, b); }
    }
  }

  lemma NotIndirect(fs: Fs, owner: Owner, i: nat, b: nat)
    requires Owned(fs, owner, {}, {}) && i < |fs.inodes| && fs.inodes[i].addrs[NDIRECT] == 0 && b in owner && owner[b].0 == i
    ensures owner[b].1 < NDIRECT
  {
    hide Marked, GetWord, Accounted, Reached;
    assert Addr(fs, owner[b].0, owner[b].1) == b;
  }

  lemma KeptIndirect(fs: Fs, owner: Owner, i: nat, k: nat, b: nat)
    requires Owned(fs, owner, {}, {}) && i < |fs.inodes| && k < NINDIRECT && fs.inodes[i].addrs[NDIRECT] != 0
    requires b < fs.sb.size && !Marked(fs.sb, fs.blocks, b)
    ensures fs.inodes[i].addrs[NDIRECT] != b
    ensures Shape(Allocated(fs, b)) && Allocated(fs, b).inodes == fs.inodes
    ensures Addr(Allocated(fs, b), i, NDIRECT + 1 + k) == Addr(fs, i, NDIRECT + 1 + k)
  {
    hide Marked;
    AllocKeeps(fs, owner, {}, {}, b);
    assert Addr(fs, i, NDIRECT) == fs.inodes[i].addrs[NDIRECT];
  }

  /** The bytes of a file that share a block are a slice of that block. */
  lemma ReadChunk(fs: Fs, i: nat, pos: nat, m: nat)
    requires Shape(fs) && i < |fs.inodes| && pos + m <= fs.inodes[i].size <= MAXBYTES && 0 < m
    requires pos % BSIZE + m <= BSIZE && Addr(fs, i, Slot(pos / BSIZE)) < fs.sb.size
    ensures var b := fs.blocks[Addr(fs, i, Slot(pos / BSIZE))];
            Content(fs, i)[pos..pos + m] == b[pos % BSIZE..pos % BSIZE + m]
  {
    hide Addr;
    var b := fs.blocks[Addr(fs, i, Slot(pos / BSIZE))];
    var c, d := Content(fs, i)[pos..pos + m], b[pos % BSIZE..pos % BSIZE + m];
    forall k | 0 <= k < m ensures c[k] == d[k] {
      SameBlock(pos, k);
    }
  }

  /** Inode `i` keeps every address it has. */
  ghost predicate Kept(fs: Fs, fs': Fs, i: nat)
    requires Shape(fs) && Shape(fs') && i < |fs.inodes| == |fs'.inodes|
  {
    forall t :: 0 <= t < NSLOT && Addr(fs, i, t) != 0 ==> Addr(fs', i, t) == Addr(fs, i, t)
  }

  lemma GrownKept(fs: Fs, o: Owner, fs': Fs, o': Owner, i: nat)
    requires Shape(fs) && Shape(fs') && i < |fs.inodes| == |fs'.inodes| && Grown(fs, o, fs', o', i)
    ensures Kept(fs, fs', i)
  {
    hide Addr;
  }

  lemma {:induction false} DataBlocksKept(fs: Fs, fs': Fs, i: nat, lo: nat, hi: nat)
    requires Shape(fs) && Shape(fs') && i < |fs.inodes| == |fs'.inodes| && hi <= MAXFILE && Kept(fs, fs', i)
    ensures DataBlocks(fs, i, lo, hi) <= DataBlocks(fs', i, lo, hi)
    decreases hi
  {
    hide Addr;
    if hi > lo { DataBlocksKept(fs, fs', i, lo, hi - 1); }
  }

  lemma {:induction false} InDataBlocks(fs: Fs, i: nat, lo: nat, hi: nat, bn: nat)
    requires Shape(fs) && i < |fs.inodes| && lo <= bn < hi <= MAXFILE
    ensures {Addr(fs, i, Slot(bn))} - {0} <= DataBlocks(fs, i, lo, hi)
    decreases hi
  {
    hide Addr;
    if bn < hi - 1 { InDataBlocks(fs, i, lo, hi - 1, bn); }
  }

  lemma TouchedGrows(sb: Super, fs: Fs, fs': Fs, i: nat, lo: nat, hi: nat, bn: nat)
    requires Shape(fs) && Shape(fs') && sb.Valid() && i < |fs.inodes| == |fs'.inodes|
    requires lo <= bn < hi <= MAXFILE && Kept(fs, fs', i)
    ensures Touched(sb, fs, i, lo, hi) <= Touched(sb, fs', i, lo, hi)
    ensures MapBlocks(sb) + ({fs'.inodes[i].addrs[NDIRECT], Addr(fs', i, Slot(bn))} - {0}) <= Touched(sb, fs', i, lo, hi)
  {
    hide Range, DataBlocks;
    DataBlocksKept(fs, fs', i, lo, hi);
    InDataBlocks(fs', i, lo, hi, bn);
    assert Addr(fs, i, NDIRECT) == fs.inodes[i].addrs[NDIRECT];
    assert Addr(fs', i, NDIRECT) == fs'.inodes[i].addrs[NDIRECT];
  }

  lemma TouchedSized(sb: Super, fs: Fs, fs': Fs, i: nat, lo: nat, hi: nat)
    requires Shape(fs) && Shape(fs') && sb.Valid() && i < |fs.inodes| && hi <= MAXFILE && |fs'.inodes| == |fs.inodes|
    requires fs'.inodes[i].addrs == fs.inodes[i].addrs
    requires forall t :: 0 <= t < NSLOT ==> Addr(fs', i, t) == Addr(fs, i, t)
    ensures Touched(sb, fs, i, lo, hi) <= Touched(sb, fs', i, lo, hi)
  {
    hide Range, DataBlocks, Addr;
    DataBlocksKept(fs, fs', i, lo, hi);
  }

  lemma KeptTwice(fs: Fs, fs': Fs, fs'': Fs, i: nat)
    requires Shape(fs) && Shape(fs') && Shape(fs'') && i < |fs.inodes| == |fs'.inodes| == |fs''.inodes|
    requires Kept(fs, fs', i) && forall t :: 0 <= t < NSLOT ==> Addr(fs'', i, t) == Addr(fs', i, t)
    ensures Kept(fs, fs'', i)
  {
    hide Addr;
  }

  /** Where addresses and data blocks are the same, so are the files. */
  lemma SameFiles(fs: Fs, fs': Fs, owner: Owner)
    requires Owned(fs, owner, {}, {}) && Shape(fs') && fs'.sb == fs.sb && fs'.inodes == fs.inodes
    requires forall i :: 0 <= i < |fs.inodes| ==> Backed(fs, i, fs.inodes[i].size)
    requires forall b :: fs.sb.dstart <= b < fs.sb.size ==> fs'.blocks[b] == fs.blocks[b]
    requires forall j, t :: 0 <= j < |fs.inodes| && 0 <= t < NSLOT ==> Addr(fs', j, t) == Addr(fs, j, t)
    ensures forall i :: 0 <= i < |fs.inodes| ==> Backed(fs', i, fs.inodes[i].size) && Content(fs', i) == Content(fs, i)
  {
    hide Addr, Marked, Reached, Placed, Accounted;
    forall i | 0 <= i < |fs.inodes|
      ensures Backed(fs', i, fs.inodes[i].size) && Content(fs', i) == Content(fs, i)
    {
      forall p | 0 <= p < fs.inodes[i].size ensures ByteAt(fs', i, p) == ByteAt(fs, i, p) {
        BackedByte(fs, i, fs.inodes[i].size, p);
        LiveAddr(fs, owner, i, p / BSIZE);
      }
    }
  }

  /** There is room for the inode in its block. */
  lemma InodeRoom(j: Journal, fs: Fs, i: nat)
    requires Tied(j, fs) && Shape(fs) && i < |fs.inodes| && fs.inodes[i].size < WORD_LIMIT
    ensures Storable(fs.inodes[i]) && 0 < InodeBlock(fs.sb, i) < fs.sb.bmapstart < fs.sb.dstart <= |fs.blocks|
  {
    InodeBlocks(fs, j.open, i);
  }

  lemma {:induction false} RangeSize(lo: nat, hi: nat)
    requires lo <= hi
    ensures |Range(lo, hi)| == hi - lo
  {
    if lo < hi {
      RangeSize(lo, hi - 1);
      Adds(Range(lo, hi - 1), hi - 1);
    }
  }

  /** A chunk of a file write logs at most four data blocks, the indirect block, the inode block and
      the bitmap. */
  lemma ChunkFootprint(sb: Super, fs: Fs, i: nat, off: nat, n: nat)
    requires Shape(fs) && sb.Valid() && i < |fs.inodes| && off + n <= MAXBYTES && n <= CHUNK
    ensures |Footprint(sb, fs, i, off, n)| <= (sb.size - 1) / BPB + 1 + 6
  {
    hide Addr, Range, DataBlocks;
    DataBlocksSize(fs, i, off / BSIZE, BlocksFor(off + n));
    RangeSize(sb.bmapstart, sb.bmapstart + (sb.size - 1) / BPB + 1);
    var map', data := MapBlocks(sb), DataBlocks(fs, i, off / BSIZE, BlocksFor(off + n));
    var ind := {fs.inodes[i].addrs[NDIRECT]} - {0};
    OneMore(map', fs.inodes[i].addrs[NDIRECT]);
    UnionSize(map' + ind, data);
    UnionSize(map' + ind + data, {InodeBlock(sb, i)});
  }

  /** Every transaction of a file write fits its reservation of MAXOPBLOCKS on a disk with at most four
      bitmap blocks (a disk of FSSIZE blocks has one). */
  lemma ChunkFitsReservation(sb: Super, fs: Fs, i: nat, off: nat, n: nat)
    requires Shape(fs) && sb.Valid() && i < |fs.inodes| && off + n <= MAXBYTES && n <= CHUNK
    requires sb.size <= 4 * BPB
    ensures |Footprint(sb, fs, i, off, n)| <= 10
  {
    ChunkFootprint(sb, fs, i, off, n);
  }

  lemma Extends(src: seq<byte>, i: nat, m: nat, k: nat)
    requires i + m <= |src| && k <= m
    ensures src[..i] + src[i..i + m][..k] == src[..i + k] && src[..i] + src[i..i + m] == src[..i + m]
  {
  }

  lemma SpliceNothing(c: seq<byte>, off: nat)
    requires off <= |c|
    ensures Splice(c, off, []) == c
  {
  }

  /** Consecutive writes make one write. */
  lemma SpliceTwice(c: seq<byte>, off: nat, a: seq<byte>, b: seq<byte>)
    requires off <= |c|
    ensures off + |a| <= |Splice(c, off, a)| && off + |a| + |b| <= |Splice(c, off, a + b)|
    ensures Splice(Splice(c, off, a), off + |a|, b) == Splice(c, off, a + b)
  {
  }
}
