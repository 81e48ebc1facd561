/** Inodes as the bytes of their inode blocks, and the journal of an operation: the log_writes it has made, in order, since
    it began. */
module Journals {
  import opened Blocks
  import opened Bitmap
  import opened Inodes
  import opened BufferCache
  import opened Recovery

  // ------------------------------------------------------------- inodes on disk

  const INODE_WORDS := 16       // sizeof(struct dinode) / sizeof(uint)
  const SIZE_WORD := 2          // type, major, minor and nlink come first
  const ADDR_WORD := 3

  function InodeBlock(sb: Super, i: nat): nat
  {
    i / IPB + sb.inodestart
  }

  /** Word `k` of the `i`th inode, within its block. */
  function InodeWord(i: nat, k: nat): (w: nat)
    requires k < INODE_WORDS
    ensures w < WORDS
  {
    i % IPB * INODE_WORDS + k
  }

  function GetAddr(b: Block, i: nat, k: nat): nat
    requires k <= NDIRECT
  {
    GetWord(b, InodeWord(i, ADDR_WORD + k))
  }

  function GetInode(b: Block, i: nat): Inode
  {
    Inode(GetWord(b, InodeWord(i, SIZE_WORD)), seq(NDIRECT + 1, k requires 0 <= k <= NDIRECT => GetAddr(b, i, k)))
  }

  /** The inode's fields fit their words. */
  ghost predicate Storable(node: Inode)
  {
    node.size < WORD_LIMIT && |node.addrs| == NDIRECT + 1 && forall k :: 0 <= k <= NDIRECT ==> node.addrs[k] < WORD_LIMIT
  }

  function PutAddrs(b: Block, i: nat, addrs: seq<word>, n: nat): Block
    requires n <= |addrs| == NDIRECT + 1
  {
    if n == 0 then b else PutWord(PutAddrs(b, i, addrs, n - 1), InodeWord(i, ADDR_WORD + n - 1), addrs[n - 1])
  }

  function PutInode(b: Block, i: nat, node: Inode): Block
    requires Storable(node)
  {
    PutAddrs(PutWord(b, InodeWord(i, SIZE_WORD), node.size), i, node.addrs, NDIRECT + 1)
  }

  lemma {:induction false} PutAddrsWord(b: Block, i: nat, addrs: seq<word>, n: nat, j: nat, k: nat)
    requires n <= |addrs| == NDIRECT + 1 && k < INODE_WORDS
    ensures GetWord(PutAddrs(b, i, addrs, n), InodeWord(j, k)) ==
            if j % IPB == i % IPB && ADDR_WORD <= k < ADDR_WORD + n then addrs[k - ADDR_WORD] else GetWord(b, InodeWord(j, k))
  {
    hide GetWord, PutWord;
    if n > 0 {
      PutAddrsWord(b, i, addrs, n - 1, j, k);
      GetPutWord(PutAddrs(b, i, addrs, n - 1), InodeWord(i, ADDR_WORD + n - 1), addrs[n - 1], InodeWord(j, k));
    }
  }

  /** An inode reads back as stored, and storing it disturbs no other inode of the block. */
  lemma GetPutInode(b: Block, i: nat, node: Inode, j: nat)
    requires Storable(node)
    ensures GetInode(PutInode(b, i, node), j) == if j % IPB == i % IPB then node else GetInode(b, j)
  {
    hide GetWord, PutWord, PutAddrs;
    var x := PutWord(b, InodeWord(i, SIZE_WORD), node.size);
    PutAddrsWord(x, i, node.addrs, NDIRECT + 1, j, SIZE_WORD);
    GetPutWord(b, InodeWord(i, SIZE_WORD), node.size, InodeWord(j, SIZE_WORD));
    forall k | 0 <= k <= NDIRECT
      ensures GetInode(PutInode(b, i, node), j).addrs[k] == if j % IPB == i % IPB then node.addrs[k] else GetInode(b, j).addrs[k]
    {
      PutAddrsWord(x, i, node.addrs, NDIRECT + 1, j, ADDR_WORD + k);
      GetPutWord(b, InodeWord(i, SIZE_WORD), node.size, InodeWord(j, ADDR_WORD + k));
    }
  }

  /** The inode blocks lie between the log and the bitmap. */
  predicate Laid(sb: Super, ninodes: nat)
  {
    0 < sb.inodestart && sb.inodestart + ninodes / IPB < sb.bmapstart
  }

  /** The inodes in memory are those on disk, except for the `open` ones. */
  ghost predicate Synced(fs: Fs, open: set<nat>)
  {
    && Laid(fs.sb, |fs.inodes|) && OnDisk(fs.sb, fs.blocks)
    && forall i :: 0 <= i < |fs.inodes| && i !in open ==> InodeAt(fs, i)
  }

  ghost predicate InodeAt(fs: Fs, i: nat)
    requires i < |fs.inodes|
  {
    InodeBlock(fs.sb, i) < |fs.blocks| && fs.inodes[i] == GetInode(fs.blocks[InodeBlock(fs.sb, i)], i)
  }

  // ---------------------------------------------------------------- the journal

  /** `base` are the blocks as the operation found them, `trace` its log_writes so far, `stale` the blocks whose buffers
      hold bytes that were not logged, `open` the inodes changed in memory and not yet written to their blocks. */
  datatype Journal = Journal(base: seq<Block>, trace: seq<Write>, stale: set<nat>, open: set<nat>)

  function Named(ws: seq<Write>): (r: set<nat>)
    ensures forall b :: b in r <==> exists k :: 0 <= k < |ws| && ws[k].blockno == b
  {
    set k | 0 <= k < |ws| :: ws[k].blockno
  }

  /** What bread returns is what was logged, except for stale blocks, and inode blocks agree with memory. */
  ghost predicate Tied(j: Journal, fs: Fs)
  {
    && |j.base| == |fs.blocks| && InRange(|fs.blocks|, j.trace)
    && (forall k :: 0 <= k < |j.trace| ==> fs.sb.inodestart <= j.trace[k].blockno)
    && (forall b :: 0 <= b < |fs.blocks| && b !in j.stale ==> fs.blocks[b] == Apply(j.base, j.trace)[b])
    && Synced(fs, j.open)
  }

  /** The operation has gone on from `j` to `j'`, changing in memory only inodes among `nodes` and leaving unlogged bytes only
      in blocks among `bs`. */
  ghost predicate OnBut(j: Journal, j': Journal, nodes: set<nat>, bs: set<nat>)
  {
    j'.base == j.base && j.trace <= j'.trace && j'.stale <= j.stale + bs && j'.open <= j.open + nodes
  }

  ghost predicate On(j: Journal, j': Journal, nodes: set<nat>)
  {
    OnBut(j, j', nodes, {})
  }

  lemma OnSelf(j: Journal, nodes: set<nat>)
    ensures On(j, j, nodes)
  {
  }

  lemma OnTwice(j0: Journal, j1: Journal, j2: Journal, nodes: set<nat>, bs: set<nat>)
    requires On(j0, j1, nodes) && OnBut(j1, j2, nodes, bs)
    ensures OnBut(j0, j2, nodes, bs)
  {
  }

  lemma OnWider(j: Journal, j': Journal, nodes: set<nat>, bs: set<nat>)
    requires On(j, j', nodes)
    ensures OnBut(j, j', nodes, bs)
  {
  }

  /** An operation began when the journal was `j`. */
  ghost predicate Began(j: Journal, j': Journal)
  {
    InRange(|j.base|, j.trace) && j'.base == Apply(j.base, j.trace)
  }

  function Noted(j: Journal, b: nat, x: Block): Journal
  {
    j.(trace := j.trace + [Write(b, x)], stale := j.stale - {b})
  }

  lemma NotedNames(j: Journal, b: nat, x: Block)
    ensures Named(Noted(j, b, x).trace) == Named(j.trace) + {b}
  {
    var ws := Noted(j, b, x).trace;
    assert ws[|j.trace|].blockno == b;
    forall c | c in Named(j.trace) ensures c in Named(ws) {
      var k :| 0 <= k < |j.trace| && j.trace[k].blockno == c;
      assert ws[k].blockno == c;
    }
  }

  lemma SyncedWrite(fs: Fs, open: set<nat>, b: nat, x: Block)
    requires Synced(fs, open) && fs.sb.bmapstart <= b < |fs.blocks|
    ensures Synced(fs.(blocks := fs.blocks[b := x]), open)
  {
    var fs' := fs.(blocks := fs.blocks[b := x]);
    forall i | 0 <= i < |fs.inodes| && i !in open ensures InodeAt(fs', i) {
      assert InodeAt(fs, i);
    }
  }

  /** log_write of a block that holds no inodes. */
  lemma TiedWrite(j: Journal, fs: Fs, b: nat, x: Block)
    requires Tied(j, fs) && fs.sb.bmapstart <= b < |fs.blocks|
    ensures Tied(Noted(j, b, x), fs.(blocks := fs.blocks[b := x]))
  {
    hide Synced, OnDisk;
    LaidOut(fs, j.open);
    SyncedWrite(fs, j.open, b, x);
    NotedApply(j, b, x, |fs.blocks|);
  }

  lemma LaidOut(fs: Fs, open: set<nat>)
    requires Synced(fs, open)
    ensures Laid(fs.sb, |fs.inodes|) && OnDisk(fs.sb, fs.blocks)
  {
  }

  lemma NotedApply(j: Journal, b: nat, x: Block, n: nat)
    requires |j.base| == n && InRange(n, j.trace) && b < n
    ensures InRange(n, Noted(j, b, x).trace) && Apply(j.base, Noted(j, b, x).trace) == Apply(j.base, j.trace)[b := x]
  {
    var ws := Noted(j, b, x).trace;
    assert ws[..|ws| - 1] == j.trace;
  }

  /** A buffer changed and not logged. */
  lemma TiedStale(j: Journal, fs: Fs, b: nat, x: Block)
    requires Tied(j, fs) && fs.sb.bmapstart <= b < |fs.blocks|
    ensures Tied(j.(stale := j.stale + {b}), fs.(blocks := fs.blocks[b := x]))
  {
    hide Synced;
    SyncedWrite(fs, j.open, b, x);
  }

  /** An inode changed in memory. */
  lemma TiedOpen(j: Journal, fs: Fs, i: nat, node: Inode)
    requires Tied(j, fs) && i < |fs.inodes|
    ensures Tied(j.(open := j.open + {i}), fs.(inodes := fs.inodes[i := node]))
  {
    hide Apply;
    var fs' := fs.(inodes := fs.inodes[i := node]);
    forall k | 0 <= k < |fs.inodes| && k !in j.open + {i} ensures InodeAt(fs', k) {
      assert InodeAt(fs, k);
    }
  }

  /** iupdate: the inode written to its block. */
  function Updated(fs: Fs, i: nat): Block
    requires i < |fs.inodes| && Storable(fs.inodes[i]) && InodeBlock(fs.sb, i) < |fs.blocks|
  {
    PutInode(fs.blocks[InodeBlock(fs.sb, i)], i, fs.inodes[i])
  }

  lemma InodeBlocks(fs: Fs, open: set<nat>, i: nat)
    requires Synced(fs, open) && i < |fs.inodes|
    ensures fs.sb.inodestart <= InodeBlock(fs.sb, i) < fs.sb.bmapstart < fs.sb.dstart <= |fs.blocks|
  {
    assert i / IPB <= |fs.inodes| / IPB;
  }

  lemma TiedUpdate(j: Journal, fs: Fs, i: nat)
    requires Tied(j, fs) && i < |fs.inodes| && Storable(fs.inodes[i]) && InodeBlock(fs.sb, i) < |fs.blocks|
    ensures var b := InodeBlock(fs.sb, i);
            Tied(Noted(j, b, Updated(fs, i)).(open := j.open - {i}), fs.(blocks := fs.blocks[b := Updated(fs, i)]))
  {
    hide Apply, PutInode, GetInode;
    var b, x := InodeBlock(fs.sb, i), Updated(fs, i);
    NotedApply(j, b, x, |fs.blocks|);
    SyncedUpdate(fs, j.open, i);
  }

  lemma SyncedUpdate(fs: Fs, open: set<nat>, i: nat)
    requires Synced(fs, open) && i < |fs.inodes| && Storable(fs.inodes[i]) && InodeBlock(fs.sb, i) < |fs.blocks|
    ensures Synced(fs.(blocks := fs.blocks[InodeBlock(fs.sb, i) := Updated(fs, i)]), open - {i})
  {
    hide PutInode, GetInode;
    var b, x := InodeBlock(fs.sb, i), Updated(fs, i);
    var fs' := fs.(blocks := fs.blocks[b := x]);
    forall k | 0 <= k < |fs.inodes| && k !in open - {i} ensures InodeAt(fs', k) {
      GetPutInode(fs.blocks[b], i, fs.inodes[i], k);
      if k != i {
        assert InodeAt(fs, k);
        if InodeBlock(fs.sb, k) == b { assert k % IPB != i % IPB; }
      } else {
        assert b < |fs.blocks|;
      }
    }
  }

  /** begin_op: a new journal, on what is logged so far. */
  lemma TiedBegin(j: Journal, fs: Fs)
    requires Tied(j, fs)
    ensures Tied(Journal(Apply(j.base, j.trace), [], j.stale, j.open), fs)
  {
    hide Synced;
  }
}
