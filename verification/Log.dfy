/** Write-ahead logging over the buffer cache.  The methods that keep `Valid` are the steps of log.c and of the
    cache operations around them: a critical section, or a change to a buffer while it is locked.  So `Valid` holds
    in every state that steps of any processes, in any order, can reach.  Commit is a run of such steps with any
    steps of readers in between. */
module Logging {
  import opened Blocks
  import opened BufferCache
  import opened Recovery
  import opened LogViews

  /** A step of process `q` reading block `b` or using buffer `i`: bget, acquiresleep, the rest of bread, brelse. */
  datatype Act = Get(q: nat, b: nat) | Take(q: nat, i: nat) | Load(q: nat, i: nat) | Give(q: nat, i: nat)

  /** How far a run got: to its end, to a buffer another process has locked, or to the panic in bget. */
  datatype Outcome = Done | Waiting | NoBuffer

  class Log {
    const bc: Bcache
    const a: Area
    const maxop: nat               // MAXOPBLOCKS
    var n: nat                     // log.lh.n
    var block: seq<nat>            // log.lh.block
    var outstanding: nat
    var committing: bool
    var refs: seq<multiset<nat>>   // history: the processes with references to each buffer
    ghost var dirty: set<nat>
    ghost var logical: seq<Block>
    ghost var durable: seq<Block>  // what recovery must restore: the contents as of the last commit
    ghost var phase: Phase
    ghost var written: nat         // how many of the transaction's blocks are in the log area
    ghost var installed: nat       // how many of them are installed

    ghost function Pending(): set<nat>
      reads this`block, this`n, this`installed, this`phase
      requires installed <= n <= |block|
    {
      if phase.Booting? then {} else Elements(block[installed..n])
    }

    ghost function Snap(): View
      reads this, bc
      requires installed <= n <= |block|
    {
      View(bc.bufs, refs, dirty, Pending(), logical, bc.disk)
    }

    ghost predicate Shape()
      reads this
    {
      && installed <= n <= a.cap == |block| && written <= n
      && (outstanding == 0 ==> dirty == {}) && (committing ==> outstanding == 0)
      && (phase.Installing? || phase.Clearing? || written > 0 ==> committing)
      && (!phase.Installing? ==> installed == 0) && (phase.Clearing? ==> n == 0)
      && (phase.Booting? ==> outstanding == 0 && written == 0)
    }

    /** Cache, log header in memory and disk agree. */
    ghost predicate Steady()
      reads this, bc
    {
      && bc.Valid() && Shape() && Coherent(Snap())
      && Loggable(a, |bc.disk|, block[..n]) && |durable| == |bc.disk|
    }

    /** They agree, and the disk is in a state recovery can be trusted with. */
    ghost predicate Valid()
      reads this, bc
    {
      Steady() && OnDisk(phase, a, block[..n], written, bc.disk, logical, durable)
    }

    /** Nobody holds the lock of the block's buffer. */
    ghost predicate Free(blockno: nat)
      reads bc
    {
      forall i :: 0 <= i < |bc.bufs| && bc.bufs[i].Holds(ROOTDEV, blockno) ==> bc.bufs[i].owner.None?
    }

    ghost predicate Unlocked()
      reads bc
    {
      forall i :: 0 <= i < |bc.bufs| ==> bc.bufs[i].owner.None?
    }

    /** Buffer `i` is locked by `pid` and holds the logical contents of block `b`. */
    ghost predicate Locked(i: nat, b: nat, pid: nat)
      reads this, bc
    {
      && i < bc.nbuf == |bc.bufs| && i !in dirty && b < |logical|
      && var u := bc.bufs[i];
         u.valid && u.owner == Some(pid) && u.Holds(ROOTDEV, b) && u.data == logical[b]
    }

    /** Only process `pid` has changed blocks that it has not logged yet. */
    ghost predicate Mine(pid: nat)
      reads this, bc
    {
      forall i :: i in dirty ==> i < |bc.bufs| && bc.bufs[i].owner == Some(pid)
    }

    /** Crash safety: in every state, recovery from the disk as it stands restores the durable
        contents of every home block. */
    lemma CrashSafe()
      requires Valid()
      ensures WellFormed(a, bc.disk) && SameHome(a, Recovered(a, bc.disk), durable)
    {
      OnDiskRecovers(phase, a, block[..n], written, bc.disk, logical, durable);
    }

    /** The log over a cache nobody is using yet and whose valid buffers agree with the disk. */
    constructor (bc: Bcache, a: Area, maxop: nat)
      requires bc.Valid() && WellFormed(a, bc.disk)
      requires forall i :: 0 <= i < bc.nbuf ==> bc.bufs[i].refcnt == 0 && bc.bufs[i].dev <= ROOTDEV
      requires forall i :: 0 <= i < bc.nbuf && bc.bufs[i].valid && bc.bufs[i].dev == ROOTDEV
                 ==> bc.bufs[i].data == bc.disk[bc.bufs[i].blockno]
      ensures Valid() && this.bc == bc && this.a == a && phase == Booting && n == 0
      ensures durable == Recovered(a, bc.disk)
    {
      this.bc, this.a, this.maxop, this.n := bc, a, maxop, 0;
      this.block := seq(a.cap, i => 0);
      this.outstanding, this.committing := 0, false;
      this.refs, this.dirty := seq(bc.nbuf, i => multiset{}), {};
      this.logical, this.durable := bc.disk, Recovered(a, bc.disk);
      this.phase, this.written, this.installed := Booting, 0, 0;
      new;
      assert forall i :: 0 <= i < |bc.bufs| ==> BufOk(Snap(), i);
    }

    // ------------------------------------------------ using the cache

    /** bget: take a reference.  None is the panic when all buffers are referenced. */
    method Bget(blockno: nat, pid: nat) returns (r: Option<nat>)
      requires Steady() && blockno < |bc.disk|
      modifies this`refs, bc`bufs
      ensures Steady() && (old(Valid()) ==> Valid())
      ensures r.None? ==> bc.bufs == old(bc.bufs) && refs == old(refs)
      ensures r.Some? ==> r.value < bc.nbuf == |bc.bufs| == |old(bc.bufs)| && bc.bufs[r.value].Holds(ROOTDEV, blockno)
      ensures r.Some? ==> r.value < |old(refs)| && refs == old(refs)[r.value := More(old(refs)[r.value], pid)]
      ensures r.Some? ==> bc.bufs == old(bc.bufs)[r.value := bc.bufs[r.value]]
                          && bc.bufs[r.value].owner == old(bc.bufs)[r.value].owner
      ensures r.Some? && old(bc.bufs)[r.value].Holds(ROOTDEV, blockno) ==>
                bc.bufs[r.value] == old(bc.bufs)[r.value].(refcnt := bc.bufs[r.value].refcnt)
      // a buffer that gave way was nobody's and did not hold a logged block still to be installed
      ensures r.Some? && !old(bc.bufs)[r.value].Holds(ROOTDEV, blockno) ==>
                && (old(bc.bufs)[r.value].dev == ROOTDEV ==> old(bc.bufs)[r.value].blockno !in Pending())
                && bc.bufs[r.value].owner.None? && old(refs)[r.value] == multiset{}
    {
      hide Ring, ByAge, Tabled, OnDisk, Loggable;
      ghost var v := Snap();
      r := bc.Bget(ROOTDEV, blockno);
      if r.Some? {
        var i := r.value;
        refs := refs[i := More(refs[i], pid)];
        if old(bc.Cached(ROOTDEV, blockno)) {
          HitKeeps(v, i, pid);
          assert Snap() == WithBuf(v, i, v.bufs[i].(refcnt := v.bufs[i].refcnt + 1), refs[i]);
        } else {
          RecycleKeeps(v, i, blockno, pid);
          assert Snap() == WithBuf(v, i, bc.bufs[i], refs[i]);
        }
      }
    }

    /** acquiresleep on a referenced buffer. */
    method Lock(i: nat, pid: nat)
      requires Steady() && i < bc.nbuf && refs[i][pid] > 0 && bc.bufs[i].owner.None?
      modifies bc`bufs
      ensures Steady() && (old(Valid()) ==> Valid())
      ensures bc.bufs == old(bc.bufs)[i := old(bc.bufs)[i].(owner := Some(pid))]
    {
      hide Ring, ByAge, Tabled, OnDisk, Loggable;
      ghost var v := Snap();
      assert BufOk(v, i);
      LockKeeps(v, i, pid);
      bc.Lock(i, pid);
      assert Snap() == WithBuf(v, i, bc.bufs[i], v.refs[i]);
    }

    /** The second half of bread. */
    method Fill(i: nat, pid: nat)
      requires Steady() && i < bc.nbuf && bc.bufs[i].owner == Some(pid) && bc.bufs[i].dev == ROOTDEV
      modifies bc`bufs
      ensures Steady() && (old(Valid()) ==> Valid())
      ensures bc.bufs[i].valid
      ensures bc.bufs == old(bc.bufs)[i := old(bc.bufs)[i].(valid := true, data := bc.bufs[i].data)]
      ensures i !in dirty ==> bc.bufs[i].blockno < |logical| && bc.bufs[i].data == logical[bc.bufs[i].blockno]
    {
      hide Ring, ByAge, OnDisk, Loggable;
      ghost var v := Snap();
      if !bc.bufs[i].valid { FillKeeps(v, i); }
      bc.Fill(i, pid);
      assert Snap() == WithBuf(v, i, bc.bufs[i], v.refs[i]);
      assert BufOk(Snap(), i);
    }

    /** bread: the caller gets the block's buffer locked, holding the block's logical contents. */
    method Bread(blockno: nat, pid: nat) returns (r: Option<nat>)
      requires Steady() && blockno < |bc.disk| && Free(blockno)
      modifies this`refs, bc`bufs
      ensures Steady() && (old(Valid()) ==> Valid())
      ensures r.None? ==> bc.bufs == old(bc.bufs) && refs == old(refs)
      ensures r.Some? ==> Locked(r.value, blockno, pid)
      ensures r.Some? ==> r.value < |old(bc.bufs)| && bc.bufs == old(bc.bufs)[r.value := bc.bufs[r.value]]
                          && old(bc.bufs)[r.value].owner.None?
    {
      hide Ring, ByAge, Unique, OnDisk, Loggable;
      r := Bget(blockno, pid);
      if r.Some? {
        assert BufOk(Snap(), r.value);
        Lock(r.value, pid);
        Fill(r.value, pid);
      }
    }

    lemma Sizes()
      requires Steady()
      ensures |bc.bufs| == |refs| == bc.nbuf && |logical| == |bc.disk| && a.start + a.cap < |bc.disk|
      ensures n <= a.cap == |block|
    {
    }

    lemma SlotFacts(i: nat)
      requires Steady() && i < bc.nbuf
      ensures |bc.bufs| == |refs| == bc.nbuf && |logical| == |bc.disk| == |durable|
      ensures bc.bufs[i].dev != 0 ==> bc.bufs[i].blockno < |bc.disk|
      ensures (outstanding > 0 ==> phase.Running? && written == 0) && BufOk(Snap(), i)
    {
    }

    lemma EntryFacts(t: nat)
      requires Steady() && t < n
      ensures |bc.bufs| == bc.nbuf && |logical| == |bc.disk| && a.start + a.cap < |bc.disk|
      ensures n <= a.cap == |block| && block[t] < |bc.disk| && a.Home(block[t])
      ensures forall b :: b in Pending() ==> a.Home(b)
    {
      assert block[..n][t] == block[t];
      forall b | b in Pending() ensures a.Home(b) {
        var k :| 0 <= k < n - installed && block[installed..n][k] == b;
        assert block[..n][installed + k] == b;
      }
    }

    /** brelse: allowed once every change to the buffer has been logged. */
    method Brelse(i: nat, pid: nat)
      requires Steady() && i < bc.nbuf && bc.bufs[i].owner == Some(pid) && i !in dirty
      modifies this`refs, bc`bufs, bc`next, bc`prev, bc`order, bc`stamp, bc`clock
      ensures Steady() && (old(Valid()) ==> Valid())
      ensures i < |old(bc.bufs)| == |old(refs)|
              && bc.bufs == old(bc.bufs)[i := old(bc.bufs)[i].(owner := None, refcnt := bc.bufs[i].refcnt)]
              && old(refs)[i][pid] > 0 && refs == old(refs)[i := Less(old(refs)[i], pid)]
    {
      hide Ring, ByAge, Unique, Tabled, Coherent, OnDisk, Loggable;
      SlotFacts(i);
      ghost var v := Snap();
      ReleaseKeeps(v, i, pid);
      bc.Brelse(i, pid);
      refs := refs[i := Less(refs[i], pid)];
      assert Snap() == WithBuf(v, i, bc.bufs[i], Less(v.refs[i], pid));
    }

    /** A file-system operation changes a block it has locked. */
    method Modify(i: nat, pid: nat, data: Block)
      requires Valid() && i < bc.nbuf && outstanding > 0
      requires bc.bufs[i].owner == Some(pid) && bc.bufs[i].valid && bc.bufs[i].dev == ROOTDEV
      modifies this`dirty, bc`bufs
      ensures Valid() && dirty == old(dirty) + {i}
      ensures bc.bufs == old(bc.bufs)[i := old(bc.bufs)[i].(data := data)]
    {
      hide Ring, ByAge, Unique, Tabled, Coherent, OnDisk, Loggable;
      SlotFacts(i);
      ghost var v := Snap();
      ModifyKeeps(v, i, data);
      bc.SetData(i, pid, data);
      dirty := dirty + {i};
      assert Snap() == WithBuf(v, i, bc.bufs[i], v.refs[i]).(dirty := v.dirty + {i});
    }

    // ------------------------------------------------ transactions

    /** One turn of begin_op's loop: admit the operation, or (false) sleep. */
    method BeginOp() returns (admitted: bool)
      requires Valid() && !phase.Booting?
      modifies this`outstanding
      ensures Valid()
      ensures admitted <==> !committing && n + (old(outstanding) + 1) * maxop <= a.cap
      ensures outstanding == if admitted then old(outstanding) + 1 else old(outstanding)
    {
      hide Ring, ByAge, OnDisk, Loggable, Coherent;
      if committing || n + (outstanding + 1) * maxop > a.cap {
        return false;
      }
      outstanding := outstanding + 1;
      return true;
    }

    /** The first critical section of end_op: the last operation out starts a commit. */
    method EndOp() returns (doCommit: bool)
      requires Valid() && outstanding > 0 && (outstanding == 1 ==> dirty == {})
      modifies this`outstanding, this`committing
      ensures Valid() && outstanding == old(outstanding) - 1
      ensures doCommit == committing == (outstanding == 0)
    {
      hide Ring, ByAge, OnDisk, Loggable, Coherent;
      doCommit := false;
      outstanding := outstanding - 1;
      if outstanding == 0 {
        doCommit := true;
        committing := true;
      }
    }

    /** Its second critical section, once commit has returned: operations may begin again. */
    method EndCommit()
      requires Valid() && committing && phase.Running? && n == 0
      modifies this`committing
      ensures Valid() && !committing
    {
      hide Ring, ByAge, OnDisk, Loggable, Coherent;
      committing := false;
    }

    /** log_write: the buffer's contents become the block's logical contents and the block joins the
        transaction.  False is one of the two panics, with nothing changed. */
    method LogWrite(i: nat, pid: nat) returns (ok: bool)
      requires Valid() && i < bc.nbuf
      requires bc.bufs[i].owner == Some(pid) && bc.bufs[i].valid && bc.bufs[i].dev == ROOTDEV
      requires a.Home(bc.bufs[i].blockno)
      modifies this`n, this`block, this`dirty, this`logical, bc`bufs
      ensures Valid()
      ensures ok <==> old(n) < a.cap && outstanding >= 1
      ensures !ok ==> n == old(n) && block == old(block) && logical == old(logical) && bc.bufs == old(bc.bufs) && dirty == old(dirty)
      ensures ok ==>
                var b := old(bc.bufs)[i];
                && logical == old(logical)[b.blockno := b.data] && dirty == old(dirty) - {i}
                && block[..n] == (if b.blockno in old(block[..n]) then old(block[..n])
                                  else old(block[..n]) + [b.blockno])
                && bc.bufs == old(bc.bufs)[i := b.(refcnt := bc.bufs[i].refcnt)]
    {
      hide Ring, ByAge, Unique, Tabled, Coherent, OnDisk, Loggable;
      if n >= a.cap { return false; }
      if outstanding < 1 { return false; }
      SlotFacts(i);
      var k := FindLogged(bc.bufs[i].blockno);
      block := block[k := bc.bufs[i].blockno];
      if k == n {
        Append(i);
      } else {
        assert block == old(block) && block[..n][k] == bc.bufs[i].blockno;
        Absorb(i);
      }
      return true;
    }

    /** The block is already in the transaction: its new contents replace the logged ones. */
    ghost method Absorb(i: nat)
      requires Valid() && i < bc.nbuf && outstanding > 0
      requires bc.bufs[i].owner.Some? && bc.bufs[i].valid && bc.bufs[i].dev == ROOTDEV
      requires bc.bufs[i].blockno in block[..n]
      modifies this`dirty, this`logical
      ensures Valid()
      ensures logical == old(logical)[bc.bufs[i].blockno := bc.bufs[i].data] && dirty == old(dirty) - {i}
    {
      hide Ring, ByAge, Unique, Tabled, Coherent, OnDisk, Loggable;
      SlotFacts(i);
      ghost var v, b := Snap(), bc.bufs[i].blockno;
      assert block[0..n] == block[..n];
      assert v.pending + {b} == v.pending;
      LogKeeps(v, i);
      logical, dirty := logical[b := bc.bufs[i].data], dirty - {i};
      OnDiskWhileLogging(a, block[..n], block[..n], bc.disk, v.logical, logical, durable);
      assert Snap() == WithBuf(v, i, bc.bufs[i], v.refs[i])
                         .(dirty := dirty, pending := v.pending + {b}, logical := logical);
    }

    /** The entry just stored after the last becomes part of the transaction, and the buffer is pinned. */
    method Append(i: nat)
      requires Valid() && i < bc.nbuf && n < a.cap && outstanding > 0
      requires bc.bufs[i].owner.Some? && bc.bufs[i].valid && bc.bufs[i].dev == ROOTDEV
      requires a.Home(bc.bufs[i].blockno) && block[n] == bc.bufs[i].blockno && block[n] !in block[..n]
      modifies this`n, this`dirty, this`logical, bc`bufs
      ensures Valid() && n == old(n) + 1
      ensures logical == old(logical)[block[old(n)] := old(bc.bufs)[i].data] && dirty == old(dirty) - {i}
      ensures bc.bufs == old(bc.bufs)[i := old(bc.bufs)[i].(refcnt := bc.bufs[i].refcnt)]
    {
      hide Ring, ByAge, Unique, Tabled, Coherent, OnDisk, Loggable;
      SlotFacts(i);
      ghost var v, b := Snap(), bc.bufs[i].blockno;
      LogKeeps(v, i);
      LoggableGrows(a, |bc.disk|, block, n);
      bc.Bpin(i);
      n := n + 1;
      logical, dirty := logical[b := bc.bufs[i].data], dirty - {i};
      assert Snap() == WithBuf(v, i, bc.bufs[i], v.refs[i])
                         .(dirty := dirty, pending := v.pending + {b}, logical := logical);
      OnDiskWhileLogging(a, old(block[..n]), block[..n], bc.disk, v.logical, logical, durable);
    }

    method FindLogged(b: nat) returns (k: nat)
      requires n <= |block|
      ensures k <= n && (k < n ==> block[k] == b) && (k == n ==> b !in block[..n])
    {
      k := 0;
      while k < n
        invariant 0 <= k <= n && b !in block[..k]
      {
        if block[k] == b { return; }
        k := k + 1;
      }
    }

    // ------------------------------------------------ the steps of commit

    /** Replace a locked buffer's contents and write it to its block. */
    method WriteThrough(i: nat, pid: nat, data: Block)
      requires Steady() && i < bc.nbuf && i !in dirty
      requires bc.bufs[i].owner == Some(pid) && bc.bufs[i].valid && bc.bufs[i].dev == ROOTDEV
      requires bc.bufs[i].blockno !in Pending()
      modifies this`logical, bc`bufs, bc`disk, bc`writes
      ensures Steady()
      ensures var b := old(bc.bufs)[i].blockno;
              && bc.disk == old(bc.disk)[b := data] && logical == old(logical)[b := data]
              && bc.writes == old(bc.writes) + [Write(b, data)]
      ensures bc.bufs == old(bc.bufs)[i := old(bc.bufs)[i].(data := data)]
    {
      hide Ring, ByAge, Unique, Tabled, Coherent, OnDisk, Loggable;
      SlotFacts(i);
      ghost var v, b := Snap(), bc.bufs[i].blockno;
      WriteThroughKeeps(v, i, data);
      bc.SetData(i, pid, data);
      bc.Bwrite(i, pid);
      logical := logical[b := data];
      assert Snap() == WithBuf(v, i, bc.bufs[i], v.refs[i]).(logical := logical, disk := bc.disk);
    }

    /** The copy and bwrite of one iteration of write_log, with both buffers locked. */
    method CopyToLog(to: nat, from: nat, pid: nat)
      requires Valid() && phase.Running? && committing && written < n
      requires Locked(to, a.start + 1 + written, pid) && Locked(from, block[written], pid)
      modifies this`logical, this`written, bc`bufs, bc`disk, bc`writes
      ensures Valid() && written == old(written) + 1
      ensures var b, x := a.start + 1 + old(written), old(logical)[block[old(written)]];
              && bc.disk == old(bc.disk)[b := x] && logical == old(logical)[b := x]
              && bc.writes == old(bc.writes) + [Write(b, x)]
      ensures bc.bufs == old(bc.bufs)[to := old(bc.bufs)[to].(data := bc.bufs[to].data)]
    {
      hide Ring, ByAge, Unique, Tabled, Coherent, OnDisk, Loggable, Pending;
      EntryFacts(written);
      OnDiskLogBlock(a, block[..n], written, bc.disk, logical, durable);
      assert block[..n][written] == block[written];
      WriteThrough(to, pid, bc.bufs[from].data);
      written := written + 1;
    }

    /** write_head's loop: the header block with the in-memory header stored in it. */
    method EncodeHead(h: Block) returns (r: Block)
      requires n <= |block| && n < WORDS && forall t :: 0 <= t < n ==> block[t] < WORD_LIMIT
      ensures r == PutHead(h, block[..n])
    {
      r := PutWord(h, 0, n);
      var i := 0;
      while i < n
        invariant 0 <= i <= n && r == PutEntries(PutWord(h, 0, n), block[..n], i)
      {
        r := PutWord(r, i + 1, block[i]);
        i := i + 1;
      }
    }

    lemma HeadLawful()
      requires Steady()
      ensures a.start < |logical| && n <= |block| && n < WORDS
      ensures forall t :: 0 <= t < n ==> block[t] < WORD_LIMIT
      ensures forall t :: 0 <= t < n ==> block[..n][t] < WORD_LIMIT
      ensures a.start !in Pending()
    {
      if n > 0 { EntryFacts(0); }
      forall t | 0 <= t < n ensures block[t] < WORD_LIMIT { assert block[..n][t] == block[t]; }
    }

    /** write_head, with the header's buffer locked: the header on disk lists the in-memory transaction. */
    method WriteHead(i: nat, pid: nat)
      requires Steady() && Locked(i, a.start, pid)
      modifies this`logical, bc`bufs, bc`disk, bc`writes
      ensures Steady() && a.start < |old(logical)| && n <= |block| && n < WORDS
      ensures forall t :: 0 <= t < n ==> block[..n][t] < WORD_LIMIT
      ensures var h := PutHead(old(logical)[a.start], block[..n]);
              && bc.disk == old(bc.disk)[a.start := h] && logical == old(logical)[a.start := h]
              && bc.writes == old(bc.writes) + [Write(a.start, h)]
      ensures bc.bufs == old(bc.bufs)[i := old(bc.bufs)[i].(data := bc.bufs[i].data)]
    {
      hide Ring, ByAge, Unique, Tabled, Coherent, OnDisk, Loggable, Pending, PutHead;
      HeadLawful();
      var h := EncodeHead(bc.bufs[i].data);
      WriteThrough(i, pid, h);
    }

    /** A block outside the transaction reads the same on disk. */
    lemma Unlisted()
      requires Steady()
      ensures forall b :: 0 <= b < |bc.disk| && b !in block[..n] ==> bc.disk[b] == logical[b]
      ensures installed == n ==> forall b :: 0 <= b < |bc.disk| ==> bc.disk[b] == logical[b]
    {
      forall b | 0 <= b < |bc.disk| && b !in block[..n] ensures bc.disk[b] == logical[b] {
        assert b !in Pending();
      }
    }

    lemma ReadyToCommit()
      requires Valid() && phase.Running? && written == n
      ensures a.start < |logical| && n < WORDS && |block[..n]| == n
      ensures forall t :: 0 <= t < n ==> block[..n][t] < WORD_LIMIT
      ensures var h := PutHead(logical[a.start], block[..n]);
              OnDisk(Installing, a, block[..n], n, bc.disk[a.start := h], logical[a.start := h], logical[a.start := h])
    {
      hide Ring, ByAge, Unique, Tabled, Coherent;
      HeadLawful();
      Unlisted();
      OnDiskCommit(a, block[..n], bc.disk, logical, durable);
    }

    /** write_head at the commit point: the transaction becomes durable as a whole. */
    method CommitHead(i: nat, pid: nat)
      requires Valid() && phase.Running? && committing && written == n > 0 && Locked(i, a.start, pid)
      modifies this`logical, this`durable, this`phase, bc`bufs, bc`disk, bc`writes
      ensures Valid() && phase.Installing? && installed == 0 && durable == logical
      ensures a.start < |old(logical)| && n <= |block| && n < WORDS && forall t :: 0 <= t < n ==> block[..n][t] < WORD_LIMIT
      ensures var h := PutHead(old(logical)[a.start], block[..n]);
              logical == old(logical)[a.start := h] && bc.writes == old(bc.writes) + [Write(a.start, h)]
      ensures bc.bufs == old(bc.bufs)[i := old(bc.bufs)[i].(data := bc.bufs[i].data)]
    {
      hide Ring, ByAge, Unique, Tabled, Coherent, OnDisk, Loggable, PutHead;
      ReadyToCommit();
      WriteHead(i, pid);
      ghost var v := Snap();
      Sizes();
      durable, phase := logical, Installing;
      assert Snap() == v;
    }

    /** Write a pending block home and drop its pin. */
    method Settle(i: nat, pid: nat, data: Block)
      requires Steady() && phase.Installing? && installed < n && i < bc.nbuf && i !in dirty
      requires bc.bufs[i].owner == Some(pid) && bc.bufs[i].valid
      requires bc.bufs[i].Holds(ROOTDEV, block[installed]) && data == bc.bufs[i].data
      modifies this`installed, bc`bufs, bc`disk, bc`writes
      ensures Steady() && installed == old(installed) + 1
      ensures bc.disk == old(bc.disk)[block[old(installed)] := data]
      ensures bc.writes == old(bc.writes) + [Write(block[old(installed)], data)]
      ensures bc.bufs == old(bc.bufs)[i := old(bc.bufs)[i].(refcnt := bc.bufs[i].refcnt)]
    {
      hide Ring, ByAge, Unique, Tabled, Coherent, OnDisk, Loggable;
      SlotFacts(i);
      ghost var v, b := Snap(), bc.bufs[i].blockno;
      PendingShrinks(a, |bc.disk|, block, installed, n);
      InstallKeeps(v, i);
      bc.SetData(i, pid, data);
      bc.Bwrite(i, pid);
      bc.Bunpin(i);
      installed := installed + 1;
      assert Snap() == WithBuf(v, i, bc.bufs[i], v.refs[i]).(pending := v.pending - {b}, disk := bc.disk);
    }

    lemma LogBlockFacts(t: nat)
      requires Valid() && phase.Installing? && t < n
      ensures block[t] < |logical| && a.start + 1 + t < |logical|
      ensures logical[a.start + 1 + t] == logical[block[t]]
    {
      EntryFacts(t);
      assert a.start + 1 + t !in Pending();
      assert bc.disk[a.start + 1 + t] == Logged(logical, block[..n])[t];
    }

    /** The copy, bwrite and bunpin of one iteration of install_trans(0), with both buffers locked. */
    method InstallBlock(l: nat, d: nat, pid: nat)
      requires Valid() && phase.Installing? && installed < n
      requires Locked(l, a.start + 1 + installed, pid) && Locked(d, block[installed], pid)
      modifies this`installed, bc`bufs, bc`disk, bc`writes
      ensures Valid() && installed == old(installed) + 1
      ensures var b := block[old(installed)];
              b < |logical| && bc.disk == old(bc.disk)[b := logical[b]] && bc.writes == old(bc.writes) + [Write(b, logical[b])]
      ensures bc.bufs == old(bc.bufs)[d := old(bc.bufs)[d].(refcnt := bc.bufs[d].refcnt)]
    {
      hide Ring, ByAge, Unique, Tabled, Coherent, OnDisk, Loggable, Pending;
      EntryFacts(installed);
      LogBlockFacts(installed);
      OnDiskInstall(a, block[..n], bc.disk, logical, durable, written, installed);
      assert block[..n][installed] == block[installed];
      Settle(d, pid, bc.bufs[l].data);
    }

    /** Once everything is installed, n becomes zero. */
    method Forget()
      requires Valid() && phase.Installing? && installed == n
      modifies this`n, this`phase, this`installed, this`written
      ensures Valid() && phase.Clearing? && n == installed == written == 0
    {
      hide Ring, ByAge, Unique, Tabled, Coherent, OnDisk;
      Unlisted();
      Sizes();
      OnDiskForget(a, block[..n], bc.disk, logical, durable, written);
      ghost var v := Snap();
      n, installed, written, phase := 0, 0, 0, Clearing;
      assert block[0..0] == [] == block[..0];
      assert Snap() == v;
    }

    /** write_head at the end of commit: the transaction is erased from the disk. */
    method EraseHead(i: nat, pid: nat)
      requires Valid() && phase.Clearing? && Locked(i, a.start, pid)
      modifies this`logical, this`phase, bc`bufs, bc`disk, bc`writes
      ensures Valid() && phase.Running? && a.start < |old(logical)|
      ensures var h := PutHead(old(logical)[a.start], []);
              logical == old(logical)[a.start := h] && bc.writes == old(bc.writes) + [Write(a.start, h)]
      ensures bc.bufs == old(bc.bufs)[i := old(bc.bufs)[i].(data := bc.bufs[i].data)]
    {
      hide Ring, ByAge, Unique, Tabled, Coherent, OnDisk, Loggable, PutHead;
      Sizes();
      assert block[..0] == [];
      OnDiskClear(a, bc.disk, logical, durable);
      WriteHead(i, pid);
      ghost var v := Snap();
      phase := Running;
      assert Snap() == v;
    }

    // ------------------------------------------------ commit among readers

    /** One step of another process, if that process is in a position to take it. */
    method Reader(act: Act, pid: nat)
      requires Valid() && Mine(pid)
      modifies this`refs, bc`bufs, bc`next, bc`prev, bc`order, bc`stamp, bc`clock
      ensures Valid() && Mine(pid)
      ensures RefsKept(pid, old(bc.bufs), old(refs), bc.bufs, refs) && LocksKept(pid, old(bc.bufs), bc.bufs)
    {
      hide Ring, ByAge, Unique, Tabled, Coherent, OnDisk, Loggable, Pending;
      Sizes();
      if act.q == pid { return; }
      match act {
        case Get(q, b) =>
          if b < |bc.disk| {
            var r := Bget(b, q);
            if r.Some? { OneStep(pid, q, old(bc.bufs), old(refs), bc.bufs, refs, r.value); }
          }
        case Take(q, i) =>
          if i < bc.nbuf && refs[i][q] > 0 && bc.bufs[i].owner.None? {
            Lock(i, q);
            OneStep(pid, q, old(bc.bufs), old(refs), bc.bufs, refs, i);
          }
        case Load(q, i) =>
          if i < bc.nbuf && bc.bufs[i].owner == Some(q) {
            SlotFacts(i);
            Fill(i, q);
            OneStep(pid, q, old(bc.bufs), old(refs), bc.bufs, refs, i);
          }
        case Give(q, i) =>
          if i < bc.nbuf && bc.bufs[i].owner == Some(q) {
            Brelse(i, q);
            OneStep(pid, q, old(bc.bufs), old(refs), bc.bufs, refs, i);
          }
      }
    }

    /** Any number of steps of other processes. */
    method Others(acts: seq<Act>, pid: nat)
      requires Valid() && Mine(pid)
      modifies this`refs, bc`bufs, bc`next, bc`prev, bc`order, bc`stamp, bc`clock
      ensures Valid() && Mine(pid)
      ensures RefsKept(pid, old(bc.bufs), old(refs), bc.bufs, refs) && LocksKept(pid, old(bc.bufs), bc.bufs)
    {
      hide Ring, ByAge, Unique, Tabled, Coherent, OnDisk, Loggable, Pending, RefsKept, LocksKept;
      Sizes();
      KeptAlready(pid, bc.bufs, refs);
      for k := 0 to |acts|
        invariant Valid() && Mine(pid)
        invariant RefsKept(pid, old(bc.bufs), old(refs), bc.bufs, refs) && LocksKept(pid, old(bc.bufs), bc.bufs)
      {
        ghost var b1, r1 := bc.bufs, refs;
        Reader(acts[k], pid);
        KeptTwice(pid, old(bc.bufs), old(refs), b1, r1, bc.bufs, refs);
      }
    }

    lemma Entry(t: nat)
      requires Valid() && t < n
      ensures |bc.bufs| == bc.nbuf && |logical| == |bc.disk| && a.start + a.cap < |bc.disk| && Clean()
      ensures n <= a.cap == |block| && block[t] < |bc.disk| && a.Home(block[t])
    {
      hide Ring, ByAge, Unique, Tabled, Coherent, OnDisk, Pending;
      EntryFacts(t);
    }

    /** What every valid state gives the steps of commit. */
    lemma Room()
      requires Valid()
      ensures |bc.bufs| == bc.nbuf && |logical| == |bc.disk| && a.start + a.cap < |bc.disk| && n <= a.cap == |block|
      ensures Clean()
    {
    }

    /** While a commit runs no buffer holds unlogged changes. */
    ghost predicate Clean()
      reads this
    {
      (committing || phase.Installing? || phase.Clearing?) ==> dirty == {} && outstanding == 0
    }

    /** bget by `pid`, then steps of others: it still has its reference. */
    method Reference(b: nat, pid: nat, acts: seq<Act>) returns (r: Option<nat>)
      requires Valid() && Mine(pid) && b < |bc.disk|
      modifies this`refs, bc`bufs, bc`next, bc`prev, bc`order, bc`stamp, bc`clock
      ensures Valid() && Mine(pid) && LocksKept(pid, old(bc.bufs), bc.bufs)
      ensures r.Some? ==> r.value < bc.nbuf == |bc.bufs| == |refs| && refs[r.value][pid] > 0 && bc.bufs[r.value].Holds(ROOTDEV, b)
    {
      hide Ring, ByAge, Unique, Tabled, Coherent, OnDisk, Loggable, Pending, LocksKept;
      Sizes();
      KeptAlready(pid, bc.bufs, refs);
      r := Bget(b, pid);
      if r.Some? {
        Referenced(pid, old(bc.bufs), bc.bufs, r.value);
        ghost var b1 := bc.bufs;
        Sizes();
        Others(acts, pid);
        LocksTwice(pid, old(bc.bufs), b1, bc.bufs);
        Sizes();
      }
    }

    /** bread by `pid`, with steps of others after each of its own: bget, acquiresleep, the rest.  The buffers it had
        locked stay as they were. */
    method Acquire(b: nat, pid: nat, env: nat -> seq<Act>, j: nat) returns (r: Outcome, i: nat)
      requires Valid() && Mine(pid) && b < |bc.disk|
      modifies this`refs, bc`bufs, bc`next, bc`prev, bc`order, bc`stamp, bc`clock
      ensures Valid() && Mine(pid) && LocksKept(pid, old(bc.bufs), bc.bufs)
      ensures r.Done? ==> Locked(i, b, pid)
    {
      hide Ring, ByAge, Unique, Tabled, Coherent, OnDisk, Loggable, Pending, RefsKept, LocksKept;
      var g := Reference(b, pid, env(j));
      if g.None? { return NoBuffer, 0; }
      i := g.value;
      if bc.bufs[i].owner.Some? { return Waiting, i; }
      ghost var b1 := bc.bufs;
      LockAndFill(i, b, pid, env, j + 1);
      LocksTwice(pid, old(bc.bufs), b1, bc.bufs);
      return Done, i;
    }

    /** The rest of Acquire, once the lock is free. */
    method LockAndFill(i: nat, b: nat, pid: nat, env: nat -> seq<Act>, j: nat)
      requires Valid() && Mine(pid) && i < bc.nbuf == |bc.bufs| == |refs| && refs[i][pid] > 0
      requires bc.bufs[i].Holds(ROOTDEV, b) && bc.bufs[i].owner.None?
      modifies this`refs, bc`bufs, bc`next, bc`prev, bc`order, bc`stamp, bc`clock
      ensures Valid() && Mine(pid) && LocksKept(pid, old(bc.bufs), bc.bufs) && Locked(i, b, pid)
    {
      hide Ring, ByAge, Unique, Tabled, Coherent, OnDisk, Loggable, Pending, RefsKept, LocksKept;
      SlotFacts(i);
      Lock(i, pid);
      ghost var b1 := bc.bufs;
      Others(env(j), pid);
      LockKept(pid, b1, bc.bufs, i);
      ghost var b2 := bc.bufs;
      Fill(i, pid);
      ghost var b3 := bc.bufs;
      Others(env(j + 1), pid);
      LockKept(pid, b3, bc.bufs, i);
      Relocked(pid, old(bc.bufs), b1, b2, b3, bc.bufs, i);
      Sizes();
    }

    /** Give up a locked buffer, with steps of others before and after. */
    method Release(i: nat, pid: nat, env: nat -> seq<Act>, j: nat)
      requires Valid() && Mine(pid) && i < bc.nbuf == |bc.bufs| && bc.bufs[i].owner == Some(pid) && i !in dirty
      modifies this`refs, bc`bufs, bc`next, bc`prev, bc`order, bc`stamp, bc`clock
      ensures Valid() && Mine(pid) && |bc.bufs| == bc.nbuf
      ensures forall k :: 0 <= k < bc.nbuf && k != i && old(bc.bufs)[k].owner == Some(pid) ==> bc.bufs[k].owner == Some(pid)
    {
      hide Ring, ByAge, Unique, Tabled, Coherent, OnDisk, Loggable, Pending, RefsKept, LocksKept;
      ghost var b0 := bc.bufs;
      Others(env(j), pid);
      LockKept(pid, b0, bc.bufs, i);
      ghost var b1 := bc.bufs;
      Brelse(i, pid);
      ghost var b2 := bc.bufs;
      Others(env(j + 1), pid);
      Unlocks(pid, b0, b1, b2, bc.bufs, i);
      Sizes();
    }

    /** bread of two different blocks, one after the other. */
    method AcquireTwo(b: nat, c: nat, pid: nat, env: nat -> seq<Act>) returns (r: Outcome, i: nat, k: nat)
      requires Valid() && Mine(pid) && b < |bc.disk| && c < |bc.disk| && b != c
      modifies this`refs, bc`bufs, bc`next, bc`prev, bc`order, bc`stamp, bc`clock
      ensures Valid() && Mine(pid)
      ensures r.Done? ==> Locked(i, b, pid) && Locked(k, c, pid) && i != k
    {
      hide Ring, ByAge, Unique, Tabled, Coherent, OnDisk, Loggable, Pending, RefsKept, LocksKept;
      k := 0;
      r, i := Acquire(b, pid, env, 0);
      if !r.Done? { return; }
      ghost var b1 := bc.bufs;
      r, k := Acquire(c, pid, env, 3);
      LockKept(pid, b1, bc.bufs, i);
    }

    /** brelse of both. */
    method ReleaseTwo(i: nat, k: nat, pid: nat, env: nat -> seq<Act>)
      requires Valid() && dirty == {} && i < bc.nbuf == |bc.bufs| && k < bc.nbuf && i != k
      requires bc.bufs[i].owner == bc.bufs[k].owner == Some(pid)
      modifies this`refs, bc`bufs, bc`next, bc`prev, bc`order, bc`stamp, bc`clock
      ensures Valid()
    {
      hide Ring, ByAge, Unique, Tabled, Coherent, OnDisk, Loggable, Pending, RefsKept, LocksKept;
      Release(i, pid, env, 6);
      Release(k, pid, env, 8);
    }

    /** One iteration of write_log. */
    method LogStep(t: nat, pid: nat, env: nat -> seq<Act>) returns (r: Outcome)
      requires Valid() && phase.Running? && committing && t == written < n
      modifies this`refs, this`logical, this`written, bc
      ensures Valid() && |old(logical)| == |logical|
      ensures !r.Done? ==> written == old(written) && logical == old(logical) && bc.writes == old(bc.writes)
      ensures r.Done? ==>
                var b, w := block[old(written)], a.start + 1 + old(written);
                && b < |old(logical)| && w < |old(logical)| && written == old(written) + 1
                && logical == old(logical)[w := old(logical)[b]] && bc.writes == old(bc.writes) + [Write(w, old(logical)[b])]
    {
      hide Log.Valid, Log.Steady, Log.Shape, Log.Snap, LocksKept, RefsKept;
      Entry(written);
      var to, from;
      r, to, from := AcquireTwo(a.start + t + 1, block[t], pid, env);
      if !r.Done? { return; }
      CopyToLog(to, from, pid);
      ReleaseTwo(from, to, pid, env);
    }

    /** write_head at the commit point. */
    method HeadStep(pid: nat, env: nat -> seq<Act>) returns (r: Outcome)
      requires Valid() && phase.Running? && committing && written == n > 0
      modifies this`refs, this`logical, this`durable, this`phase, bc
      ensures Valid() && |old(logical)| == |logical|
      ensures !r.Done? ==> phase.Running? && logical == old(logical) && durable == old(durable) && bc.writes == old(bc.writes)
      ensures r.Done? ==>
                && phase.Installing? && installed == 0 && durable == logical
                && a.start < |old(logical)| && n <= |block| && n < WORDS && (forall t :: 0 <= t < n ==> block[..n][t] < WORD_LIMIT)
                && var h := PutHead(old(logical)[a.start], block[..n]);
                   logical == old(logical)[a.start := h] && bc.writes == old(bc.writes) + [Write(a.start, h)]
    {
      hide Log.Valid, Log.Steady, Log.Shape, Log.Snap, LocksKept, RefsKept, PutHead;
      Room();
      var i;
      r, i := Acquire(a.start, pid, env, 0);
      if !r.Done? { return; }
      CommitHead(i, pid);
      Release(i, pid, env, 3);
    }

    /** One iteration of install_trans(0). */
    method HomeStep(t: nat, pid: nat, env: nat -> seq<Act>) returns (r: Outcome)
      requires Valid() && phase.Installing? && t == installed < n
      modifies this`refs, this`installed, bc
      ensures Valid()
      ensures !r.Done? ==> installed == old(installed) && bc.writes == old(bc.writes)
      ensures r.Done? ==>
                var b := block[old(installed)];
                b < |logical| && installed == old(installed) + 1 && bc.writes == old(bc.writes) + [Write(b, logical[b])]
    {
      hide Log.Valid, Log.Steady, Log.Shape, Log.Snap, LocksKept, RefsKept;
      Entry(installed);
      var l, d;
      r, l, d := AcquireTwo(a.start + t + 1, block[t], pid, env);
      if !r.Done? { return; }
      InstallBlock(l, d, pid);
      ReleaseTwo(l, d, pid, env);
    }

    /** write_head at the end. */
    method EraseStep(pid: nat, env: nat -> seq<Act>) returns (r: Outcome)
      requires Valid() && phase.Clearing?
      modifies this`refs, this`logical, this`phase, bc
      ensures Valid() && a.start < |old(logical)|
      ensures !r.Done? ==> phase.Clearing? && logical == old(logical) && bc.writes == old(bc.writes)
      ensures r.Done? ==>
                && phase.Running?
                && var h := PutHead(old(logical)[a.start], []);
                   logical == old(logical)[a.start := h] && bc.writes == old(bc.writes) + [Write(a.start, h)]
    {
      hide Log.Valid, Log.Steady, Log.Shape, Log.Snap, LocksKept, RefsKept, PutHead;
      Room();
      var i;
      r, i := Acquire(a.start, pid, env, 0);
      if !r.Done? { return; }
      EraseHead(i, pid);
      Release(i, pid, env, 3);
    }

    /** write_log: every block of the transaction copied to the log, one by one. */
    method WriteLog(pid: nat, env: (nat, nat) -> seq<Act>, ghost w0: seq<Write>, ghost l0: seq<Block>) returns (r: Outcome)
      requires Valid() && phase.Running? && committing && written == 0 && Progress(a, w0, l0, block[..n], 0, bc.writes, logical)
      modifies this`refs, this`logical, this`written, bc
      ensures Valid() && written <= n <= |block| && Progress(a, w0, l0, block[..n], written, bc.writes, logical)
      ensures r.Done? ==> written == n
    {
      hide Log.Valid, Log.Steady, Log.Shape, Log.Snap, Progress;
      Room();
      var t := 0;
      r := Done;
      while t < n
        invariant Valid() && t == written <= n && Progress(a, w0, l0, block[..n], written, bc.writes, logical)
        invariant n <= |block| && r.Done?
      {
        ProgressLog(a, w0, l0, block[..n], written, bc.writes, logical);
        assert block[..n][t] == block[t];
        r := LogStep(t, pid, (j: nat) => env(t, j));
        if !r.Done? { return; }
        t := t + 1;
      }
    }

    /** install_trans(0): every logged block copied home, one by one. */
    method Install(pid: nat, env: (nat, nat) -> seq<Act>, ghost w0: seq<Write>, ghost l0: seq<Block>) returns (r: Outcome)
      requires Valid() && phase.Installing? && installed == 0 && Progress(a, w0, l0, block[..n], n + 1, bc.writes, logical)
      modifies this`refs, this`installed, bc
      ensures Valid() && Progress(a, w0, l0, block[..n], n + 1 + installed, bc.writes, logical)
      ensures r.Done? ==> installed == n
    {
      hide Log.Valid, Log.Steady, Log.Shape, Log.Snap, Progress;
      Room();
      var t := 0;
      r := Done;
      while t < n
        invariant Valid() && t == installed <= n && Progress(a, w0, l0, block[..n], n + 1 + installed, bc.writes, logical)
        invariant n <= |block| && r.Done?
      {
        ProgressHome(a, w0, l0, block[..n], installed, bc.writes, logical);
        assert block[..n][t] == block[t];
        var k := n + 1 + t;
        r := HomeStep(t, pid, (j: nat) => env(k, j));
        if !r.Done? { return; }
        t := t + 1;
      }
    }

    /** commit by process `pid`, in any company: `env(k, j)` are the steps others take at point `j` of its work on its
        `k`-th disk write.  However far it gets, it has made the first `done` of the writes of the transaction's commit,
        every block outside the log reads as before, and the durable contents are the old ones up to the header write
        and the new ones from then on. */
    method Commit(pid: nat, env: (nat, nat) -> seq<Act>) returns (r: Outcome, ghost done: nat)
      requires Valid() && phase.Running? && committing && written == 0
      modifies this`refs, this`logical, this`durable, this`phase, this`written, this`installed, this`n, bc
      ensures Valid() && Progress(a, old(bc.writes), old(logical), old(block[..n]), done, bc.writes, logical)
      ensures if done <= old(n) then durable == old(durable) else SameHome(a, durable, old(logical))
      ensures r.Done? ==> phase.Running? && n == written == 0 && done == if old(n) == 0 then 0 else 2 * old(n) + 2
    {
      hide Log.Valid, Log.Steady, Log.Shape, Log.Snap, Progress, PutHead;
      CommitLawful();
      ghost var w0, l0, bs := bc.writes, logical, block[..n];
      ProgressStart(a, w0, l0, bs);
      if n == 0 { return Done, 0; }
      r := WriteLog(pid, env, w0, l0);
      if !r.Done? { return r, written; }
      ProgressHead(a, w0, l0, bs, bc.writes, logical);
      var k := n;
      r := HeadStep(pid, (j: nat) => env(k, j));
      if !r.Done? { return r, n; }
      assert Progress(a, w0, l0, bs, n + 1, bc.writes, logical);
      ProgressSame(a, w0, l0, bs, n + 1, bc.writes, logical);
      r, done := FinishCommit(pid, env, w0, l0);
    }

    /** The rest of commit, once the transaction is durable. */
    method FinishCommit(pid: nat, env: (nat, nat) -> seq<Act>, ghost w0: seq<Write>, ghost l0: seq<Block>)
      returns (r: Outcome, ghost done: nat)
      requires Valid() && phase.Installing? && installed == 0 && Progress(a, w0, l0, block[..n], n + 1, bc.writes, logical)
      modifies this`refs, this`logical, this`phase, this`written, this`installed, this`n, bc
      ensures Valid() && Progress(a, w0, l0, old(block[..n]), done, bc.writes, logical) && done > old(n)
      ensures r.Done? ==> phase.Running? && n == written == 0 && done == 2 * old(n) + 2
    {
      hide Log.Valid, Log.Steady, Log.Shape, Log.Snap, Progress, PutHead;
      Room();
      ghost var bs := block[..n];
      r := Install(pid, env, w0, l0);
      if !r.Done? { return r, n + 1 + installed; }
      var last := 2 * n + 1;
      Forget();
      ProgressErase(a, w0, l0, bs, bc.writes, logical);
      r := EraseStep(pid, (j: nat) => env(last, j));
      done := if r.Done? then last + 1 else last;
    }

    lemma CommitLawful()
      requires Valid()
      ensures |logical| == |bc.disk| && Loggable(a, |logical|, block[..n]) && n <= |block|
    {
    }

    // ------------------------------------------------ recovery

    lemma HeadListed()
      requires Valid() && phase.Booting?
      ensures a.start < |bc.disk| && GetWord(bc.disk[a.start], 0) <= a.cap < WORDS
      ensures Loggable(a, |bc.disk|, HeadBlocks(bc.disk[a.start]))
      ensures forall bs :: Loggable(a, |bc.disk|, bs) ==> OnDisk(phase, a, bs, written, bc.disk, logical, durable)
    {
    }

    /** read_head: the header on disk becomes the header in memory. */
    method ReadHead(pid: nat) returns (ok: bool)
      requires Valid() && Unlocked() && phase.Booting? && n == 0
      modifies this`refs, this`n, this`block, bc
      ensures Valid() && bc.disk == old(bc.disk) && bc.writes == old(bc.writes)
      ensures ok ==> Unlocked() && GetWord(bc.disk[a.start], 0) < WORDS
                     && block[..n] == HeadBlocks(bc.disk[a.start])
    {
      hide Ring, ByAge, Unique, Tabled, Coherent, OnDisk, WellFormed, HeadBlocks, Loggable;
      Sizes();
      Unlisted();
      HeadListed();
      var buf := Bread(a.start, pid);
      if buf.None? { return false; }
      DecodeHead(bc.bufs[buf.value].data);
      Brelse(buf.value, pid);
      return true;
    }

    /** The header in memory becomes the one in header block `h`. */
    method DecodeHead(h: Block)
      requires Valid() && phase.Booting? && a.start < |bc.disk| && h == bc.disk[a.start] && GetWord(h, 0) <= a.cap < WORDS
      modifies this`n, this`block
      ensures Valid() && block[..n] == HeadBlocks(h)
    {
      hide Ring, ByAge, Unique, Tabled, Coherent, OnDisk, WellFormed, GetWord;
      Sizes();
      HeadListed();
      ghost var v := Snap();
      n := GetWord(h, 0);
      var i := 0;
      while i < n
        invariant 0 <= i <= n == GetWord(h, 0) <= a.cap == |block|
        modifies this`block
        invariant forall j :: 0 <= j < i ==> block[j] == GetWord(h, j + 1)
      {
        block := block[i := GetWord(h, i + 1)];
        i := i + 1;
      }
      assert block[..n] == HeadBlocks(h);
      assert Snap() == v;
    }

    /** bread of two different blocks; the second is None if either finds no buffer. */
    method BreadTwo(b: nat, c: nat, pid: nat) returns (r: Option<nat>, q: Option<nat>)
      requires Steady() && b < |bc.disk| && c < |bc.disk| && b != c && Unlocked()
      modifies this`refs, bc`bufs
      ensures Steady()
      ensures r.None? ==> q.None?
      ensures q.Some? ==> Locked(r.value, b, pid) && Locked(q.value, c, pid) && r != q
                          && forall i :: 0 <= i < bc.nbuf && i != r.value && i != q.value ==> bc.bufs[i].owner.None?
    {
      hide Ring, ByAge, Unique, Tabled, Coherent, OnDisk, Loggable, Pending;
      Sizes();
      r := Bread(b, pid);
      if r.None? { return r, None; }
      Sizes();
      q := Bread(c, pid);
    }

    method BrelseTwo(i: nat, j: nat, pid: nat)
      requires Steady() && i < bc.nbuf == |bc.bufs| && j < bc.nbuf && i != j && i !in dirty && j !in dirty
      requires bc.bufs[i].owner == bc.bufs[j].owner == Some(pid)
      requires forall k :: 0 <= k < bc.nbuf && k != i && k != j ==> bc.bufs[k].owner.None?
      modifies this`refs, bc`bufs, bc`next, bc`prev, bc`order, bc`stamp, bc`clock
      ensures Steady() && Unlocked()
    {
      hide Ring, ByAge, Unique, Tabled, Coherent, OnDisk, Loggable, Pending;
      Brelse(i, pid);
      Brelse(j, pid);
    }

    /** One iteration of install_trans(1): copy a log block to its home; nothing is pinned. */
    method RecoverBlock(t: nat, pid: nat) returns (ok: bool)
      requires Steady() && Unlocked() && phase.Booting? && t < n
      modifies this`refs, this`logical, bc
      ensures Steady()
      ensures !ok ==> bc.disk == old(bc.disk) && bc.writes == old(bc.writes)
      ensures ok ==> a.start + 1 + t < |old(bc.disk)|
                     && var b, x := block[t], old(bc.disk)[a.start + 1 + t];
                        Unlocked() && bc.disk == old(bc.disk)[b := x] && bc.writes == old(bc.writes) + [Write(b, x)]
    {
      hide Ring, ByAge, Unique, Tabled, Coherent, OnDisk, Loggable;
      EntryFacts(t);
      BootingLogical();
      var l, d := BreadTwo(a.start + t + 1, block[t], pid);
      if d.None? { return false; }
      WriteThrough(d.value, pid, bc.bufs[l.value].data);
      BrelseTwo(l.value, d.value, pid);
      return true;
    }

    lemma BootingLogical()
      requires Steady() && phase.Booting?
      ensures logical == bc.disk && Pending() == {}
    {
    }

    /** recover_from_log: a committed transaction is installed, the log is cleared, and whatever
        happens on the way the disk still recovers to the same durable contents. */
    method Recover(pid: nat) returns (ok: bool)
      requires Valid() && Unlocked() && phase.Booting? && n == 0
      modifies this`refs, this`logical, this`phase, this`n, this`block, bc
      ensures WellFormed(a, bc.disk) && SameHome(a, Recovered(a, bc.disk), durable)
      ensures ok ==> Valid() && phase.Running? && n == 0 && Unlocked()
      ensures ok ==> WellFormed(a, old(bc.disk)) && bc.disk == Recovered(a, old(bc.disk))
                     && bc.writes == old(bc.writes) + RecoveryWrites(a, old(bc.disk))
    {
      hide Ring, ByAge, Unique, Tabled, Coherent, OnDisk, Loggable, WellFormed, Recovered, RecoveryWrites, Apply;
      CrashSafe();
      ghost var d := bc.disk;
      ok := ReadHead(pid);
      if !ok { CrashSafe(); return; }
      ok := Replay(pid, d);
      CrashSafe();
      if !ok { return; }
      RecoveryLastStep(a, d);
      ok := ClearRecovered(pid, d);
    }

    /** The loop of install_trans(1) on the transaction found in disk `d`. */
    method Replay(pid: nat, ghost d: seq<Block>) returns (ok: bool)
      requires Valid() && Unlocked() && phase.Booting? && bc.disk == d
      requires WellFormed(a, d) && SameHome(a, Recovered(a, d), durable) && block[..n] == HeadBlocks(d[a.start])
      modifies this`refs, this`logical, bc
      ensures Valid()
      ensures ok ==> Unlocked() && Replayed(d, n) && bc.writes == old(bc.writes) + RecoveryWrites(a, d)[..n]
    {
      hide Ring, ByAge, Unique, Tabled, Coherent, OnDisk, Loggable, RecoveryWrites, Recovered, Apply;
      RecoveryWriteAt(a, d);
      ReplayedNone(d);
      var t := 0;
      while t < n
        invariant 0 <= t <= n && Valid() && Unlocked()
        invariant Replayed(d, t) && bc.writes == old(bc.writes) + RecoveryWrites(a, d)[..t]
      {
        RecoveryStep(a, d, t);
        EntryFacts(t);
        ok := RecoverBlock(t, pid);
        StillBooting(d, if ok then t + 1 else t);
        if !ok { return; }
        t := t + 1;
      }
      return true;
    }

    /** The disk is `d` after the first `t` writes of its recovery. */
    ghost predicate Replayed(d: seq<Block>, t: nat)
      reads bc
      requires WellFormed(a, d)
    {
      t <= |RecoveryWrites(a, d)| && bc.disk == Apply(d, RecoveryWrites(a, d)[..t])
    }

    lemma ReplayedNone(d: seq<Block>)
      requires WellFormed(a, d) && bc.disk == d
      ensures Replayed(d, 0) && RecoveryWrites(a, d)[..0] == []
    {
    }

    lemma StillBooting(d: seq<Block>, t: nat)
      requires Steady() && phase.Booting? && WellFormed(a, d) && Replayed(d, t)
      requires SameHome(a, Recovered(a, d), durable)
      ensures Valid()
    {
      hide Ring, ByAge, Unique, Tabled, RecoveryWrites, Recovered, Apply;
      RecoveryCrashSafe(a, d, t);
    }

    /** The end of recovery: n becomes zero and write_head clears the log. */
    method ClearRecovered(pid: nat, ghost d: seq<Block>) returns (ok: bool)
      requires Valid() && Unlocked() && phase.Booting? && WellFormed(a, d) && SameHome(a, Recovered(a, d), durable)
      requires bc.disk[a.start] == d[a.start] && bc.disk[a.start := PutHead(d[a.start], [])] == Recovered(a, d)
      modifies this`refs, this`logical, this`phase, this`n, bc
      ensures WellFormed(a, bc.disk) && SameHome(a, Recovered(a, bc.disk), durable)
      ensures ok ==> Valid() && phase.Running? && n == 0 && Unlocked() && bc.disk == Recovered(a, d)
                     && bc.writes == old(bc.writes) + [Write(a.start, PutHead(d[a.start], []))]
    {
      hide Ring, ByAge, Unique, Tabled, Coherent, OnDisk, Loggable, RecoveryWrites, Recovered, Apply, WellFormed, PutHead;
      CrashSafe();
      ForgetRecovered();
      Sizes();
      var buf := Bread(a.start, pid);
      ok := buf.Some?;
      if ok {
        EraseRecovered(buf.value, pid, d);
        Brelse(buf.value, pid);
        CrashSafe();
      }
    }

    /** What was read of the log at boot is forgotten. */
    method ForgetRecovered()
      requires Valid() && phase.Booting?
      modifies this`n
      ensures Valid() && n == 0
    {
      hide Ring, ByAge, Unique, Tabled, Coherent, WellFormed, Recovered;
      NothingLogged();
      ghost var v := Snap();
      n := 0;
      assert block[..0] == [];
      assert Snap() == v;
    }

    /** write_head at the end of recovery: the log is empty. */
    method EraseRecovered(i: nat, pid: nat, ghost d: seq<Block>)
      requires Valid() && phase.Booting? && n == 0 && Locked(i, a.start, pid)
      requires WellFormed(a, d) && SameHome(a, Recovered(a, d), durable)
      requires bc.disk[a.start] == d[a.start] && bc.disk[a.start := PutHead(d[a.start], [])] == Recovered(a, d)
      modifies this`logical, this`phase, bc`bufs, bc`disk, bc`writes
      ensures Valid() && phase.Running? && bc.disk == Recovered(a, d)
      ensures bc.writes == old(bc.writes) + [Write(a.start, PutHead(d[a.start], []))]
      ensures bc.bufs == old(bc.bufs)[i := old(bc.bufs)[i].(data := bc.bufs[i].data)]
    {
      hide Ring, ByAge, Unique, Tabled, Coherent, OnDisk, Loggable, RecoveryWrites, Recovered, Apply, WellFormed, PutHead;
      BootingLogical();
      Sizes();
      OnDiskRecovered(a, d, durable);
      assert block[..0] == [];
      WriteHead(i, pid);
      BootingLogical();
      ghost var v := Snap();
      phase := Running;
      assert block[0..0] == [] && Elements([]) == {};
      assert Snap() == v;
    }

    lemma NothingLogged()
      requires Steady()
      ensures |block| == a.cap && a.start < |bc.disk| && Loggable(a, |bc.disk|, [])
    {
    }
  }
}
