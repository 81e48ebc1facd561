/** The file system over the log: whatever the moment of a crash, what recovery leaves on disk is a well-formed file system
    whose files are those before the transaction or those after it. */
module Durability {
  import opened Blocks
  import opened Bitmap
  import opened Inodes
  import opened Contents
  import opened BufferCache
  import opened Recovery
  import opened Journals
  import opened Files
  import opened Logging
  import opened Transactions

  // ------------------------------------------------------- what a disk holds

  /** The file system on disk `d`: its `n` inodes read from their blocks. */
  function Mounted(sb: Super, n: nat, d: seq<Block>): Fs
    requires |d| == sb.size && Laid(sb, n) && sb.bmapstart <= sb.size
  {
    Fs(sb, d, seq(n, i requires 0 <= i < n => InodeOf(sb, n, d, i)))
  }

  function InodeOf(sb: Super, n: nat, d: seq<Block>, i: nat): Inode
    requires |d| == sb.size && Laid(sb, n) && sb.bmapstart <= sb.size && i < n
  {
    assert i / IPB <= n / IPB;
    GetInode(d[InodeBlock(sb, i)], i)
  }

  /** Every block of every file is its own, marked and below the file's size, under some assignment of owners. */
  ghost predicate Sane(fs: Fs)
  {
    exists owner :: Owned(fs, owner, {}, {}) && AllBacked(fs)
  }

  ghost predicate AllBacked(fs: Fs)
  {
    Shape(fs) && forall i :: 0 <= i < |fs.inodes| ==> fs.inodes[i].size <= MAXBYTES && Backed(fs, i, fs.inodes[i].size)
  }

  /** Disk `d` holds a well-formed file system with these files. */
  ghost predicate HoldsFiles(sb: Super, d: seq<Block>, files: seq<seq<byte>>)
  {
    && |d| == sb.size && sb.Valid() && Laid(sb, |files|) && sb.bmapstart <= sb.size
    && Sane(Mounted(sb, |files|, d)) && AreFiles(Mounted(sb, |files|, d), files)
  }

  ghost predicate AreFiles(fs: Fs, files: seq<seq<byte>>)
  {
    && |files| == |fs.inodes| && Shape(fs)
    && forall i :: 0 <= i < |files| ==> fs.inodes[i].size <= MAXBYTES && Content(fs, i) == files[i]
  }

  /** The log lies below the inode blocks. */
  predicate Apart(a: Area, sb: Super)
  {
    a.start + a.cap < sb.inodestart
  }

  // ---------------------------------------- what depends on the home blocks only

  /** Ownership and addresses depend on the bitmap, the inodes and the data blocks. */
  lemma AgreeKeeps(fs: Fs, fs': Fs, owner: Owner)
    requires Owned(fs, owner, {}, {}) && fs'.sb == fs.sb && fs'.inodes == fs.inodes && |fs'.blocks| == |fs.blocks|
    requires forall b :: fs.sb.bmapstart <= b < fs.sb.size ==> fs'.blocks[b] == fs.blocks[b]
    ensures Owned(fs', owner, {}, {})
    ensures forall i, s :: 0 <= i < |fs.inodes| && 0 <= s < NSLOT ==> Addr(fs', i, s) == Addr(fs, i, s)
  {
    hide GetWord, Marked, Accounted;
    assert Shape(fs');
    forall i, s | 0 <= i < |fs.inodes| && 0 <= s < NSLOT ensures Addr(fs', i, s) == Addr(fs, i, s) {
      if s > NDIRECT && fs.inodes[i].addrs[NDIRECT] != 0 {
        assert Addr(fs, i, NDIRECT) == fs.inodes[i].addrs[NDIRECT];
        assert fs.inodes[i].addrs[NDIRECT] in owner;
      }
    }
    forall c | 0 <= c < fs.sb.size ensures Marked(fs.sb, fs'.blocks, c) == Marked(fs.sb, fs.blocks, c) {
      AgreeMarked(fs.sb, fs.blocks, fs'.blocks, c);
    }
    AccountedSame(fs, fs', owner, {});
  }

  lemma AgreeMarked(sb: Super, blocks: seq<Block>, blocks': seq<Block>, c: nat)
    requires OnDisk(sb, blocks) && OnDisk(sb, blocks') && c < sb.size
    requires forall b :: sb.bmapstart <= b < sb.size ==> blocks'[b] == blocks[b]
    ensures Marked(sb, blocks', c) == Marked(sb, blocks, c)
  {
    BBlockBelow(sb, c);
  }

  lemma SaneAgrees(fs: Fs, fs': Fs, files: seq<seq<byte>>)
    requires Sane(fs) && AreFiles(fs, files) && fs'.sb == fs.sb && fs'.inodes == fs.inodes && |fs'.blocks| == |fs.blocks|
    requires forall b :: fs.sb.bmapstart <= b < fs.sb.size ==> fs'.blocks[b] == fs.blocks[b]
    ensures Sane(fs') && AreFiles(fs', files)
  {
    hide Reached, Placed, Accounted, Addr, Backed, Content, Marked;
    var owner :| Owned(fs, owner, {}, {}) && AllBacked(fs);
    BitmapBelow(fs.sb);
    AgreeKeeps(fs, fs', owner);
    SameFiles(fs, fs', owner);
  }

  lemma BitmapBelow(sb: Super)
    requires sb.Valid()
    ensures sb.bmapstart < sb.dstart <= sb.size
  {
  }

  /** Two disks with the same home blocks hold the same files. */
  lemma SameHomeFiles(a: Area, sb: Super, d: seq<Block>, e: seq<Block>, files: seq<seq<byte>>)
    requires SameHome(a, d, e) && Apart(a, sb) && HoldsFiles(sb, d, files)
    ensures HoldsFiles(sb, e, files)
  {
    hide Sane, AreFiles, GetInode;
    var n := |files|;
    var fs, fs' := Mounted(sb, n, d), Mounted(sb, n, e);
    forall i | 0 <= i < n ensures fs'.inodes[i] == fs.inodes[i] {
      assert i / IPB <= n / IPB && a.Home(InodeBlock(sb, i));
    }
    assert fs'.inodes == fs.inodes;
    forall b | sb.bmapstart <= b < sb.size ensures e[b] == d[b] { assert a.Home(b); }
    SaneAgrees(fs, fs', files);
  }

  // -------------------------------------------------------------- crash safety

  /** A crash after any `k` of a commit's writes, then any number of crashes during recovery: once recovery completes, the
      disk holds the files from before the transaction, or those from after it if the header was written. */
  lemma CrashConsistent(a: Area, sb: Super, d: seq<Block>, bs: seq<nat>, data: seq<Block>, k: nat, e: seq<Block>,
                        crashes: seq<nat>, f: seq<Block>, post: seq<Block>, before: seq<seq<byte>>, after: seq<seq<byte>>)
    requires WellFormed(a, d) && HeadBlocks(d[a.start]) == [] && Apart(a, sb)
    requires |bs| == |data| && Loggable(a, |d|, bs) && CommitPrefix(a, d, bs, data, k, e)
    requires Overlaid(a, d, bs, data, post) && (WellFormed(a, e) ==> CrashedDuring(a, e, crashes, f))
    requires HoldsFiles(sb, d, before) && HoldsFiles(sb, post, after)
    ensures WellFormed(a, f) && HoldsFiles(sb, Recovered(a, f), if k <= |bs| then before else after)
  {
    hide HoldsFiles, Recovered;
    AllOrNothing(a, d, bs, data, k, e, crashes, f, post);
    SameHomeSym(a, Recovered(a, f), if k <= |bs| then d else post);
    SameHomeFiles(a, sb, if k <= |bs| then d else post, Recovered(a, f), if k <= |bs| then before else after);
  }

  lemma SameHomeSym(a: Area, d: seq<Block>, e: seq<Block>)
    requires SameHome(a, d, e)
    ensures SameHome(a, e, d)
  {
  }

  lemma SameHomeTwice(a: Area, d: seq<Block>, e: seq<Block>, f: seq<Block>)
    requires SameHome(a, d, e) && SameHome(a, e, f)
    ensures SameHome(a, d, f)
  {
  }

  /** Disk `d` recovers to a file system with one of two sets of files. */
  ghost predicate RecoversFiles(a: Area, sb: Super, d: seq<Block>, before: seq<seq<byte>>, after: seq<seq<byte>>)
  {
    WellFormed(a, d) && (HoldsFiles(sb, Recovered(a, d), before) || HoldsFiles(sb, Recovered(a, d), after))
  }

  /** After any number of the writes that took `w0` to `writes`, from disk `d`. */
  ghost predicate FilesSurvive(a: Area, sb: Super, d: seq<Block>, w0: seq<Write>, writes: seq<Write>,
                               before: seq<seq<byte>>, after: seq<seq<byte>>)
  {
    && w0 <= writes && InRange(|d|, writes[|w0|..])
    && forall j :: 0 <= j <= |writes| - |w0| ==> RecoversFiles(a, sb, Apply(d, writes[|w0|..][..j]), before, after)
  }

  lemma Survivors(a: Area, sb: Super, d: seq<Block>, w0: seq<Write>, writes: seq<Write>, x: seq<Block>, y: seq<Block>,
                  before: seq<seq<byte>>, after: seq<seq<byte>>)
    requires Survives(a, d, w0, writes, x, y) && Apart(a, sb) && HoldsFiles(sb, x, before) && HoldsFiles(sb, y, after)
    ensures FilesSurvive(a, sb, d, w0, writes, before, after)
  {
    hide HoldsFiles, Recovered, Apply, WellFormed;
    forall j | 0 <= j <= |writes| - |w0| ensures RecoversFiles(a, sb, Apply(d, writes[|w0|..][..j]), before, after) {
      var e := Apply(d, writes[|w0|..][..j]);
      assert RecoversToEither(a, e, x, y);
      if SameHome(a, Recovered(a, e), x) {
        SameHomeSym(a, Recovered(a, e), x);
        SameHomeFiles(a, sb, x, Recovered(a, e), before);
      } else {
        SameHomeSym(a, Recovered(a, e), y);
        SameHomeFiles(a, sb, y, Recovered(a, e), after);
      }
    }
  }

  // ------------------------------------------------- the file layer over the log

  ghost function FilesOf(fs: Fs): (r: seq<seq<byte>>)
    requires AllBacked(fs)
    ensures |r| == |fs.inodes|
  {
    seq(|fs.inodes|, i requires 0 <= i < |fs.inodes| => Content(fs, i))
  }

  lemma ValidBacked(fs: FileSystem)
    requires fs.Valid()
    ensures AllBacked(fs.State())
  {
  }

  /** Between operations the blocks are, byte for byte, a disk with the files in memory. */
  lemma ValidHolds(fs: FileSystem)
    requires fs.Valid()
    ensures AllBacked(fs.State()) && HoldsFiles(fs.sb, fs.blocks, FilesOf(fs.State()))
  {
    hide Reached, Placed, Accounted, Addr, GetInode, Content, Backed, Apply, Marked;
    ValidBacked(fs);
    var n := |fs.inodes|;
    LaidOut(fs.State(), fs.journal.open);
    BitmapBelow(fs.sb);
    var m := Mounted(fs.sb, n, fs.blocks);
    forall i | 0 <= i < n ensures m.inodes[i] == fs.inodes[i] {
      assert InodeAt(fs.State(), i);
    }
    assert m.inodes == fs.inodes;
    assert m == fs.State();
  }

  /** The log's durable contents are what the operation found. */
  ghost predicate Together(fs: FileSystem, l: Log)
    reads fs, l, l.bc
  {
    Apart(l.a, fs.sb) && |l.bc.disk| == fs.sb.size && SameHome(l.a, l.durable, fs.journal.base)
  }

  lemma JournalWhole(fs: FileSystem)
    requires fs.Valid() && fs.journal.stale == {}
    ensures |fs.journal.base| == |fs.blocks| == fs.sb.size && InRange(|fs.journal.base|, fs.journal.trace)
    ensures Apply(fs.journal.base, fs.journal.trace) == fs.blocks
    ensures forall k :: 0 <= k < |fs.journal.trace| ==> fs.sb.inodestart <= fs.journal.trace[k].blockno < fs.sb.size
  {
    hide Owned, Synced;
    OwnedSize(fs.State(), fs.owner);
  }

  lemma OwnedSize(fs: Fs, owner: Owner)
    requires Owned(fs, owner, {}, {})
    ensures |fs.blocks| == fs.sb.size
  {
  }

  /** The log_writes of a finished operation, taken through the log to the end of end_op: its files are durable, or it
      stopped on the way; and after every disk write a crash leaves the files from before the operation or its own. */
  method Persist(fs: FileSystem, l: Log, pid: nat, env: (nat, nat) -> seq<Act>, env': (nat, nat) -> seq<Act>, ghost before: seq<seq<byte>>)
    returns (ok: bool)
    requires fs.Valid() && fs.journal.stale == {} && Idle(l) && Together(fs, l)
    requires HoldsFiles(fs.sb, fs.journal.base, before)
    modifies l, l.bc
    ensures l.Valid() && |l.bc.disk| == |old(l.bc.disk)| && AllBacked(fs.State())
    ensures ok ==> Idle(l) && SameHome(l.a, l.durable, fs.blocks)
    ensures HoldsFiles(fs.sb, l.durable, before) || HoldsFiles(fs.sb, l.durable, FilesOf(fs.State()))
    ensures FilesSurvive(l.a, fs.sb, old(l.bc.disk), old(l.bc.writes), l.bc.writes, before, FilesOf(fs.State()))
  {
    hide HoldsFiles, FileSystem.Valid, Log.Valid, Idle, Apply, FilesSurvive, Survives, AllBacked, Apart;
    JournalWhole(fs);
    ValidHolds(fs);
    ghost var base, trace := fs.journal.base, fs.journal.trace;
    HomeWrites(l.a, fs.sb, trace);
    ApplySame(l.a, l.durable, base, trace);
    ghost var x, y := l.durable, Apply(l.durable, trace);
    SameHomeSym(l.a, x, base);
    SameHomeSym(l.a, y, fs.blocks);
    SameHomeFiles(l.a, fs.sb, base, x, before);
    SameHomeFiles(l.a, fs.sb, fs.blocks, y, FilesOf(fs.State()));
    ok := Transact(l, fs.journal.trace, pid, env, env');
    Survivors(l.a, fs.sb, old(l.bc.disk), old(l.bc.writes), l.bc.writes, x, y, before, FilesOf(fs.State()));
    if SameHome(l.a, l.durable, y) {
      SameHomeTwice(l.a, l.durable, y, fs.blocks);
      SameHomeSym(l.a, l.durable, y);
      SameHomeFiles(l.a, fs.sb, y, l.durable, FilesOf(fs.State()));
    }
  }

  lemma HomeWrites(a: Area, sb: Super, ws: seq<Write>)
    requires Apart(a, sb) && forall k :: 0 <= k < |ws| ==> sb.inodestart <= ws[k].blockno < sb.size
    ensures Writable(a, sb.size, ws)
  {
  }

  /** One transaction of filewrite, from begin_op to the end of end_op.  Whenever the machine stops, recovery finds the
      files as they were, or with `chunk` spliced into file `inum`, and nothing else changed. */
  method WriteDurably(fs: FileSystem, l: Log, inum: nat, off: word, chunk: seq<byte>, pid: nat,
                      env: (nat, nat) -> seq<Act>, env': (nat, nat) -> seq<Act>)
    returns (r: int, ok: bool)
    requires fs.Valid() && fs.journal.stale == {} && inum < |fs.inodes| && |chunk| <= CHUNK
    requires Idle(l) && Apart(l.a, fs.sb) && |l.bc.disk| == fs.sb.size && SameHome(l.a, l.durable, fs.blocks)
    modifies fs, l, l.bc
    ensures fs.Valid() && l.Valid() && old(AllBacked(fs.State()))
    ensures -1 <= r <= |chunk| && (r >= 0 ==> off <= |old(FilesOf(fs.State()))[inum]|)
    ensures ok ==> Idle(l) && SameHome(l.a, l.durable, fs.blocks)
    ensures var before := old(FilesOf(fs.State()));
            var after := if r < 0 then before else before[inum := Splice(before[inum], off, chunk[..r])];
            && (HoldsFiles(fs.sb, l.durable, before) || HoldsFiles(fs.sb, l.durable, after))
            && FilesSurvive(l.a, fs.sb, old(l.bc.disk), old(l.bc.writes), l.bc.writes, before, after)
  {
    hide HoldsFiles, FileSystem.Valid, Log.Valid, Idle, Apply, FilesSurvive, Content, Splice, Full;
    ValidHolds(fs);
    JournalWhole(fs);
    ghost var before := FilesOf(fs.State());
    ghost var seen;
    r, seen := fs.WriteTransaction(inum, off, chunk, |chunk|);
    ValidBacked(fs);
    ghost var after := if r < 0 then before else before[inum := Splice(before[inum], off, chunk[..r])];
    assert FilesOf(fs.State()) == after;
    ok := Persist(fs, l, pid, env, env', before);
  }
}
