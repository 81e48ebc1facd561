/** The on-disk redo log: what a commit writes, what recovery does with whatever it finds, and why a
    crash between any two writes leaves a whole transaction or none of it. */
module Recovery {
  import opened Blocks
  import opened BufferCache

  // ------------------------------------------------------------ the header

  /** The block numbers a header block lists. */
  function HeadBlocks(h: Block): (bs: seq<nat>)
    requires GetWord(h, 0) < WORDS
  {
    seq(GetWord(h, 0), i requires 0 <= i < GetWord(h, 0) => GetWord(h, i + 1))
  }

  /** The first `k` entries of `bs` stored after the count. */
  function PutEntries(h: Block, bs: seq<word>, k: nat): Block
    requires k <= |bs| < WORDS
  {
    if k == 0 then h else PutWord(PutEntries(h, bs, k - 1), k, bs[k - 1])
  }

  /** A header block rewritten to list `bs`; words past the list keep their old values. */
  function PutHead(h: Block, bs: seq<word>): Block
    requires |bs| < WORDS
  {
    PutEntries(PutWord(h, 0, |bs|), bs, |bs|)
  }

  lemma {:induction false} PutEntriesWords(h: Block, bs: seq<word>, k: nat, i: nat)
    requires k <= |bs| < WORDS && i < WORDS
    ensures GetWord(PutEntries(h, bs, k), i) == if 1 <= i <= k then bs[i - 1] else GetWord(h, i)
  {
    if k > 0 {
      PutEntriesWords(h, bs, k - 1, i);
      GetPutWord(PutEntries(h, bs, k - 1), k, bs[k - 1], i);
    }
  }

  /** A header reads back as the list that was written, whatever the block held before. */
  lemma HeadRoundTrip(h: Block, bs: seq<word>)
    requires |bs| < WORDS
    ensures GetWord(PutHead(h, bs), 0) == |bs|
    ensures HeadBlocks(PutHead(h, bs)) == bs
  {
    var h' := PutHead(h, bs);
    PutEntriesWords(PutWord(h, 0, |bs|), bs, |bs|, 0);
    GetPutWord(h, 0, |bs|, 0);
    forall i | 0 <= i < |bs| ensures GetWord(h', i + 1) == bs[i] {
      PutEntriesWords(PutWord(h, 0, |bs|), bs, |bs|, i + 1);
    }
  }

  // ------------------------------------------------------------- the disk

  ghost predicate InRange(n: nat, ws: seq<Write>)
  {
    forall i :: 0 <= i < |ws| ==> ws[i].blockno < n
  }

  /** The disk after a series of block writes. */
  function Apply(d: seq<Block>, ws: seq<Write>): (r: seq<Block>)
    requires InRange(|d|, ws)
    ensures |r| == |d|
  {
    if ws == [] then d
    else Apply(d, ws[..|ws| - 1])[ws[|ws| - 1].blockno := ws[|ws| - 1].data]
  }

  lemma {:induction false} ApplyFrame(d: seq<Block>, ws: seq<Write>, b: nat)
    requires InRange(|d|, ws) && b < |d|
    requires forall i :: 0 <= i < |ws| ==> ws[i].blockno != b
    ensures Apply(d, ws)[b] == d[b]
  {
    if ws != [] { ApplyFrame(d, ws[..|ws| - 1], b); }
  }

  lemma {:induction false} ApplyLast(d: seq<Block>, ws: seq<Write>, b: nat, i: nat)
    requires InRange(|d|, ws) && i < |ws| && ws[i].blockno == b
    requires forall j :: i < j < |ws| ==> ws[j].blockno != b
    ensures Apply(d, ws)[b] == ws[i].data
  {
    if i < |ws| - 1 { ApplyLast(d, ws[..|ws| - 1], b, i); }
  }

  lemma {:induction false} ApplyAppend(d: seq<Block>, ws: seq<Write>, vs: seq<Write>)
    requires InRange(|d|, ws) && InRange(|d|, vs)
    ensures InRange(|d|, ws + vs) && Apply(d, ws + vs) == Apply(Apply(d, ws), vs)
  {
    if vs == [] {
      assert ws + vs == ws;
    } else {
      ApplyAppend(d, ws, vs[..|vs| - 1]);
      assert (ws + vs)[..|ws + vs| - 1] == ws + vs[..|vs| - 1];
    }
  }

  /** Where the log lives: the header at `start`, then `cap` log blocks. */
  datatype Area = Area(start: nat, cap: nat) {
    predicate Home(b: nat) { b < start || start + cap < b }
  }

  /** `bs` names at most `cap` distinct blocks outside the log area. */
  ghost predicate Loggable(a: Area, size: nat, bs: seq<nat>)
  {
    && |bs| <= a.cap < WORDS && a.start + a.cap < size <= WORD_LIMIT
    && (forall t :: 0 <= t < |bs| ==> bs[t] < size && a.Home(bs[t]))
    && (forall s, t :: 0 <= s < t < |bs| ==> bs[s] != bs[t])
  }

  /** The log area holds a header that recovery can follow. */
  ghost predicate WellFormed(a: Area, d: seq<Block>)
  {
    && a.start < |d| && GetWord(d[a.start], 0) < WORDS
    && Loggable(a, |d|, HeadBlocks(d[a.start]))
  }

  ghost predicate SameHome(a: Area, d: seq<Block>, e: seq<Block>)
  {
    |d| == |e| && forall b :: 0 <= b < |d| && a.Home(b) ==> d[b] == e[b]
  }

  // ---------------------------------------------------- recovery and commit

  /** What install_trans writes: each logged block, from its log block to its home. */
  function InstallWrites(bs: seq<nat>, data: seq<Block>): seq<Write>
    requires |bs| == |data|
  {
    seq(|bs|, t requires 0 <= t < |bs| => Write(bs[t], data[t]))
  }

  /** What write_log writes: each block of the transaction, to its log block. */
  function LogWrites(a: Area, data: seq<Block>): seq<Write>
  {
    seq(|data|, t requires 0 <= t < |data| => Write(a.start + 1 + t, data[t]))
  }

  function LogBlocks(a: Area, d: seq<Block>, n: nat): seq<Block>
    requires n <= a.cap && a.start + a.cap < |d|
  {
    d[a.start + 1..a.start + 1 + n]
  }

  /** The series of writes recover_from_log makes on disk `d`. */
  ghost function RecoveryWrites(a: Area, d: seq<Block>): (ws: seq<Write>)
    requires WellFormed(a, d)
    ensures InRange(|d|, ws)
  {
    var bs := HeadBlocks(d[a.start]);
    InstallWrites(bs, LogBlocks(a, d, |bs|)) + [Write(a.start, PutHead(d[a.start], []))]
  }

  /** The disk as recovery leaves it. */
  ghost function Recovered(a: Area, d: seq<Block>): (r: seq<Block>)
    requires WellFormed(a, d)
    ensures |r| == |d|
  {
    Apply(d, RecoveryWrites(a, d))
  }

  /** The series of writes commit makes: log blocks, header, home blocks, cleared header. */
  ghost function CommitWrites(a: Area, h: Block, bs: seq<nat>, data: seq<Block>): (ws: seq<Write>)
    requires |bs| == |data| && (exists size :: Loggable(a, size, bs))
  {
    var full := PutHead(h, bs);
    LogWrites(a, data) + [Write(a.start, full)]
    + InstallWrites(bs, data) + [Write(a.start, PutHead(full, []))]
  }

  /** `e` is `d` with block `bs[t]` replaced by `data[t]` and no other home block changed. */
  ghost predicate Overlaid(a: Area, d: seq<Block>, bs: seq<nat>, data: seq<Block>, e: seq<Block>)
    requires |bs| == |data|
  {
    && |e| == |d|
    && (forall t :: 0 <= t < |bs| ==> bs[t] < |e| && e[bs[t]] == data[t])
    && (forall b :: 0 <= b < |d| && a.Home(b) && b !in bs ==> e[b] == d[b])
  }

  /** Recovery overlays the listed blocks with the log blocks and clears the header. */
  lemma RecoveredOverlays(a: Area, d: seq<Block>)
    requires WellFormed(a, d)
    ensures var bs := HeadBlocks(d[a.start]);
            Overlaid(a, d, bs, LogBlocks(a, d, |bs|), Recovered(a, d))
    ensures GetWord(Recovered(a, d)[a.start], 0) == 0 && HeadBlocks(Recovered(a, d)[a.start]) == []
  {
    var bs := HeadBlocks(d[a.start]);
    OverlayByWrites(a, d, bs, LogBlocks(a, d, |bs|), PutHead(d[a.start], []));
    HeadRoundTrip(d[a.start], []);
  }

  lemma OverlayByWrites(a: Area, d: seq<Block>, bs: seq<nat>, data: seq<Block>, h: Block)
    requires |bs| == |data| && Loggable(a, |d|, bs)
    ensures var ws := InstallWrites(bs, data) + [Write(a.start, h)];
            InRange(|d|, ws) && Apply(d, ws)[a.start] == h && Overlaid(a, d, bs, data, Apply(d, ws))
  {
    var ws := InstallWrites(bs, data) + [Write(a.start, h)];
    OverlayBy(a, d, bs, data, ws);
  }

  lemma OverlayBy(a: Area, d: seq<Block>, bs: seq<nat>, data: seq<Block>, ws: seq<Write>)
    requires |bs| == |data| && Loggable(a, |d|, bs)
    requires |ws| == |bs| + 1 && ws[|bs|].blockno == a.start && InRange(|d|, ws)
    requires forall t :: 0 <= t < |bs| ==> ws[t] == Write(bs[t], data[t])
    ensures Apply(d, ws)[a.start] == ws[|bs|].data && Overlaid(a, d, bs, data, Apply(d, ws))
  {
    hide Apply;
    ApplyLast(d, ws, a.start, |bs|);
    forall t | 0 <= t < |bs| ensures Apply(d, ws)[bs[t]] == data[t] {
      assert a.Home(bs[t]);
      ApplyLast(d, ws, bs[t], t);
    }
    forall b | 0 <= b < |d| && a.Home(b) && b !in bs ensures Apply(d, ws)[b] == d[b] {
      ApplyFrame(d, ws, b);
    }
  }

  lemma OverlaidUnique(a: Area, d: seq<Block>, bs: seq<nat>, data: seq<Block>, e: seq<Block>, f: seq<Block>)
    requires |bs| == |data|
    requires Overlaid(a, d, bs, data, e) && Overlaid(a, d, bs, data, f)
    ensures SameHome(a, e, f)
  {
    forall b | 0 <= b < |d| && a.Home(b) ensures e[b] == f[b] {
      if b in bs { var t :| 0 <= t < |bs| && bs[t] == b; }
    }
  }

  /** Disk `d` carries the header `bs`, log blocks `data`, and agrees with `base` on unlisted home blocks. */
  ghost predicate Carries(a: Area, d: seq<Block>, bs: seq<nat>, data: seq<Block>, base: seq<Block>)
    requires |bs| == |data|
  {
    && |d| == |base| && Loggable(a, |d|, bs)
    && GetWord(d[a.start], 0) == |bs| && HeadBlocks(d[a.start]) == bs
    && (forall t :: 0 <= t < |bs| ==> d[a.start + 1 + t] == data[t])
    && (forall b :: 0 <= b < |d| && a.Home(b) && b !in bs ==> d[b] == base[b])
  }

  /** What a disk recovers to depends on the header, the listed log blocks and the unlisted home blocks. */
  lemma RecoversTo(a: Area, d: seq<Block>, bs: seq<nat>, data: seq<Block>, base: seq<Block>, goal: seq<Block>)
    requires |bs| == |data| && Carries(a, d, bs, data, base)
    requires Overlaid(a, base, bs, data, goal)
    ensures WellFormed(a, d) && SameHome(a, Recovered(a, d), goal)
  {
    assert LogBlocks(a, d, |bs|) == data;
    RecoveredOverlays(a, d);
    var r := Recovered(a, d);
    assert forall b :: 0 <= b < |d| && a.Home(b) && b !in bs ==> r[b] == d[b];
    assert Overlaid(a, base, bs, data, r);
    OverlaidUnique(a, base, bs, data, r, goal);
  }

  /** The state of the disk after the first `k` writes of a commit. */
  ghost predicate CommitPrefix(a: Area, d: seq<Block>, bs: seq<nat>, data: seq<Block>, k: nat, e: seq<Block>)
    requires |bs| == |data| && a.start < |d| && Loggable(a, |d|, bs)
  {
    var ws := CommitWrites(a, d[a.start], bs, data);
    k <= |ws| && InRange(|d|, ws[..k]) && e == Apply(d, ws[..k])
  }

  /** A crash after any `k` of the writes of a commit: recovery yields the old contents of every home
      block up to the header write, and the new contents of every one from then on. */
  lemma CommitCrashAtomic(a: Area, d: seq<Block>, bs: seq<nat>, data: seq<Block>, k: nat, e: seq<Block>,
                          post: seq<Block>)
    requires WellFormed(a, d) && HeadBlocks(d[a.start]) == []
    requires |bs| == |data| && Loggable(a, |d|, bs) && CommitPrefix(a, d, bs, data, k, e)
    requires Overlaid(a, d, bs, data, post)
    ensures WellFormed(a, e)
    ensures SameHome(a, Recovered(a, e), if k <= |bs| then d else post)
  {
    var ws := CommitWrites(a, d[a.start], bs, data)[..k];
    CommitStates(a, d, bs, data, k, e);
    if k <= |bs| {
      CommitBeforeHeader(a, d, bs, data, k, ws);
      RecoversTo(a, e, [], [], d, d);
    } else if k <= 2 * |bs| + 1 {
      CommitAfterHeader(a, d, bs, data, k, ws);
      RecoversTo(a, e, bs, data, d, post);
    } else {
      CommitDone(a, d, bs, data, ws);
      OverlaidUnique(a, d, bs, data, e, post);
      RecoversTo(a, e, [], [], e, e);
    }
  }

  /** The four phases of the writes of a commit, by position. */
  lemma CommitWriteAt(a: Area, h: Block, bs: seq<nat>, data: seq<Block>, size: nat, i: nat)
    requires |bs| == |data| && Loggable(a, size, bs)
    requires i < |CommitWrites(a, h, bs, data)|
    ensures var n, w := |bs|, CommitWrites(a, h, bs, data)[i];
            && |CommitWrites(a, h, bs, data)| == 2 * n + 2
            && w.blockno < size
            && (i < n ==> w == Write(a.start + 1 + i, data[i]))
            && (i == n ==> w == Write(a.start, PutHead(h, bs)))
            && (n < i <= 2 * n ==> w == Write(bs[i - n - 1], data[i - n - 1]) && a.Home(w.blockno))
            && (i == 2 * n + 1 ==> w == Write(a.start, PutHead(PutHead(h, bs), [])))
  {
  }

  /** The write at position `i` of a commit, in closed form. */
  ghost function CommitWrite(a: Area, h: Block, bs: seq<nat>, data: seq<Block>, i: nat): Write
    requires |bs| == |data| && |bs| < WORDS && (forall t :: 0 <= t < |bs| ==> bs[t] < WORD_LIMIT)
    requires i < 2 * |bs| + 2
  {
    var n := |bs|;
    if i < n then Write(a.start + 1 + i, data[i]) else if i == n then Write(a.start, PutHead(h, bs))
    else if i <= 2 * n then Write(bs[i - n - 1], data[i - n - 1])
    else Write(a.start, PutHead(PutHead(h, bs), []))
  }

  ghost predicate CommitState(a: Area, d: seq<Block>, bs: seq<nat>, data: seq<Block>, k: nat, ws: seq<Write>)
    requires |bs| == |data| && a.start < |d| && Loggable(a, |d|, bs)
  {
    && |ws| == k <= 2 * |bs| + 2 && InRange(|d|, ws)
    && forall i :: 0 <= i < k ==> ws[i] == CommitWrite(a, d[a.start], bs, data, i)
  }

  lemma CommitStates(a: Area, d: seq<Block>, bs: seq<nat>, data: seq<Block>, k: nat, e: seq<Block>)
    requires |bs| == |data| && a.start < |d| && Loggable(a, |d|, bs) && CommitPrefix(a, d, bs, data, k, e)
    ensures CommitState(a, d, bs, data, k, CommitWrites(a, d[a.start], bs, data)[..k])
  {
    var ws := CommitWrites(a, d[a.start], bs, data);
    forall i | 0 <= i < k ensures ws[..k][i] == CommitWrite(a, d[a.start], bs, data, i) {
      CommitWriteAt(a, d[a.start], bs, data, |d|, i);
    }
  }

  lemma CommitLogAt(a: Area, d: seq<Block>, bs: seq<nat>, data: seq<Block>, k: nat, ws: seq<Write>, t: nat)
    requires |bs| == |data| && a.start < |d| && Loggable(a, |d|, bs) && CommitState(a, d, bs, data, k, ws)
    requires t < |bs| && t < k
    ensures Apply(d, ws)[a.start + 1 + t] == data[t]
  {
    hide Apply, PutHead;
    forall j | t < j < k ensures ws[j].blockno != a.start + 1 + t {
      if |bs| < j <= 2 * |bs| { assert a.Home(bs[j - |bs| - 1]); }
    }
    ApplyLast(d, ws, a.start + 1 + t, t);
  }

  lemma CommitHomeAt(a: Area, d: seq<Block>, bs: seq<nat>, data: seq<Block>, k: nat, ws: seq<Write>, t: nat)
    requires |bs| == |data| && a.start < |d| && Loggable(a, |d|, bs) && CommitState(a, d, bs, data, k, ws)
    requires t < |bs| && |bs| + 1 + t < k
    ensures Apply(d, ws)[bs[t]] == data[t]
  {
    hide Apply, PutHead;
    var i := |bs| + 1 + t;
    assert ws[i] == Write(bs[t], data[t]) && a.Home(bs[t]);
    forall j | i < j < k ensures ws[j].blockno != bs[t] { }
    ApplyLast(d, ws, bs[t], i);
  }

  lemma CommitUnlistedAt(a: Area, d: seq<Block>, bs: seq<nat>, data: seq<Block>, k: nat, ws: seq<Write>, b: nat)
    requires |bs| == |data| && a.start < |d| && Loggable(a, |d|, bs) && CommitState(a, d, bs, data, k, ws)
    requires b < |d| && a.Home(b) && b !in bs
    ensures Apply(d, ws)[b] == d[b]
  {
    forall j | 0 <= j < k ensures ws[j].blockno != b { }
    ApplyFrame(d, ws, b);
  }

  lemma CommitHeadAt(a: Area, d: seq<Block>, bs: seq<nat>, data: seq<Block>, k: nat, ws: seq<Write>)
    requires |bs| == |data| && a.start < |d| && Loggable(a, |d|, bs) && CommitState(a, d, bs, data, k, ws)
    ensures |bs| < k <= 2 * |bs| + 1 ==> Apply(d, ws)[a.start] == PutHead(d[a.start], bs)
    ensures k == 2 * |bs| + 2 ==> Apply(d, ws)[a.start] == PutHead(PutHead(d[a.start], bs), [])
  {
    if |bs| < k <= 2 * |bs| + 1 {
      forall j | |bs| < j < k ensures ws[j].blockno != a.start { assert a.Home(bs[j - |bs| - 1]); }
      ApplyLast(d, ws, a.start, |bs|);
    } else if k == 2 * |bs| + 2 {
      ApplyLast(d, ws, a.start, k - 1);
    }
  }

  lemma CommitBeforeHeader(a: Area, d: seq<Block>, bs: seq<nat>, data: seq<Block>, k: nat, ws: seq<Write>)
    requires |bs| == |data| && a.start < |d| && Loggable(a, |d|, bs) && CommitState(a, d, bs, data, k, ws)
    requires k <= |bs|
    ensures Apply(d, ws)[a.start] == d[a.start] && SameHome(a, Apply(d, ws), d)
  {
    ApplyFrame(d, ws, a.start);
    forall b | 0 <= b < |d| && a.Home(b) ensures Apply(d, ws)[b] == d[b] { ApplyFrame(d, ws, b); }
  }

  lemma CommitAfterHeader(a: Area, d: seq<Block>, bs: seq<nat>, data: seq<Block>, k: nat, ws: seq<Write>)
    requires |bs| == |data| && a.start < |d| && Loggable(a, |d|, bs) && CommitState(a, d, bs, data, k, ws)
    requires |bs| < k <= 2 * |bs| + 1
    ensures Carries(a, Apply(d, ws), bs, data, d)
  {
    hide Apply, PutHead, HeadBlocks, GetWord;
    var e := Apply(d, ws);
    CommitHeadAt(a, d, bs, data, k, ws);
    HeadRoundTrip(d[a.start], bs);
    forall t | 0 <= t < |bs| ensures e[a.start + 1 + t] == data[t] {
      CommitLogAt(a, d, bs, data, k, ws, t);
    }
    forall b | 0 <= b < |d| && a.Home(b) && b !in bs ensures e[b] == d[b] {
      CommitUnlistedAt(a, d, bs, data, k, ws, b);
    }
  }

  /** A completed commit: an empty log, and every home block in place. */
  lemma CommitDone(a: Area, d: seq<Block>, bs: seq<nat>, data: seq<Block>, ws: seq<Write>)
    requires |bs| == |data| && a.start < |d| && Loggable(a, |d|, bs)
    requires CommitState(a, d, bs, data, 2 * |bs| + 2, ws)
    ensures var e := Apply(d, ws);
            Overlaid(a, d, bs, data, e) && GetWord(e[a.start], 0) == 0 && HeadBlocks(e[a.start]) == []
  {
    hide Apply, PutHead, HeadBlocks, GetWord;
    var k, e := 2 * |bs| + 2, Apply(d, ws);
    CommitHeadAt(a, d, bs, data, k, ws);
    HeadRoundTrip(PutHead(d[a.start], bs), []);
    forall t | 0 <= t < |bs| ensures e[bs[t]] == data[t] { CommitHomeAt(a, d, bs, data, k, ws, t); }
    forall b | 0 <= b < |d| && a.Home(b) && b !in bs ensures e[b] == d[b] {
      CommitUnlistedAt(a, d, bs, data, k, ws, b);
    }
  }

  // ---------------------------------------------- crashes during recovery

  /** Recovery interrupted after any `k` of its writes recovers to the same home blocks. */
  lemma RecoveryCrashSafe(a: Area, d: seq<Block>, k: nat)
    requires WellFormed(a, d) && k <= |RecoveryWrites(a, d)|
    ensures var e := Apply(d, RecoveryWrites(a, d)[..k]);
            WellFormed(a, e) && SameHome(a, Recovered(a, e), Recovered(a, d))
  {
    var bs := HeadBlocks(d[a.start]);
    var all := RecoveryWrites(a, d);
    RecoveredOverlays(a, d);
    if k == |all| {
      assert all[..k] == all;
      RecoversTo(a, Recovered(a, d), [], [], Recovered(a, d), Recovered(a, d));
    } else {
      var data, ws := LogBlocks(a, d, |bs|), all[..k];
      assert forall i :: 0 <= i < k ==> ws[i] == InstallWrites(bs, data)[i];
      CarriesOn(a, d, bs, data, ws);
      RecoversTo(a, Apply(d, ws), bs, data, d, Recovered(a, d));
    }
  }

  /** Writes to listed home blocks do not change what a disk carries. */
  lemma CarriesOn(a: Area, d: seq<Block>, bs: seq<nat>, data: seq<Block>, ws: seq<Write>)
    requires |bs| == |data| && Carries(a, d, bs, data, d)
    requires |ws| <= |bs| && InRange(|d|, ws) && forall i :: 0 <= i < |ws| ==> ws[i].blockno == bs[i]
    ensures Carries(a, Apply(d, ws), bs, data, d)
  {
    hide HeadBlocks, Apply, GetWord;
    var e := Apply(d, ws);
    NotListed(a, d, bs, ws, a.start);
    forall t | 0 <= t < |bs|
      ensures e[a.start + 1 + t] == data[t]
    {
      NotListed(a, d, bs, ws, a.start + 1 + t);
    }
    forall b | 0 <= b < |d| && a.Home(b) && b !in bs
      ensures e[b] == d[b]
    {
      NotListed(a, d, bs, ws, b);
    }
  }

  lemma NotListed(a: Area, d: seq<Block>, bs: seq<nat>, ws: seq<Write>, b: nat)
    requires Loggable(a, |d|, bs) && |ws| <= |bs| && InRange(|d|, ws)
    requires forall i :: 0 <= i < |ws| ==> ws[i].blockno == bs[i]
    requires b < |d| && (a.Home(b) ==> b !in bs)
    ensures Apply(d, ws)[b] == d[b]
  {
    hide Apply;
    forall i | 0 <= i < |ws|
      ensures ws[i].blockno != b
    {
      assert bs[i] in bs && a.Home(bs[i]);
    }
    ApplyFrame(d, ws, b);
  }

  /** Recovery one write further: the log blocks and the header are still what they were. */
  lemma RecoveryStep(a: Area, d: seq<Block>, t: nat)
    requires WellFormed(a, d) && t < |HeadBlocks(d[a.start])|
    ensures var bs, ws := HeadBlocks(d[a.start]), RecoveryWrites(a, d);
            var e, x := Apply(d, ws[..t]), d[a.start + 1 + t];
            && |ws| == |bs| + 1 && e[a.start + 1 + t] == x && Apply(d, ws[..t + 1]) == e[bs[t] := x]
            && ws[..t + 1] == ws[..t] + [Write(bs[t], x)]
  {
    hide RecoveryWrites, HeadBlocks, GetWord;
    var ws := RecoveryWrites(a, d);
    RecoveryWriteAt(a, d);
    ApplyFrame(d, ws[..t], a.start + 1 + t);
    assert ws[..t + 1][..t] == ws[..t];
  }

  lemma RecoveryLastStep(a: Area, d: seq<Block>)
    requires WellFormed(a, d)
    ensures var t, ws := |HeadBlocks(d[a.start])|, RecoveryWrites(a, d);
            var e, h := Apply(d, ws[..t]), PutHead(d[a.start], []);
            && e[a.start] == d[a.start] && Recovered(a, d) == e[a.start := h]
            && ws == ws[..t] + [Write(a.start, h)]
  {
    hide RecoveryWrites, HeadBlocks, GetWord, PutHead;
    var t, ws := |HeadBlocks(d[a.start])|, RecoveryWrites(a, d);
    RecoveryWriteAt(a, d);
    ApplyFrame(d, ws[..t], a.start);
    assert ws[..|ws| - 1] == ws[..t];
  }

  lemma RecoveryWriteAt(a: Area, d: seq<Block>)
    requires WellFormed(a, d)
    ensures var bs, ws := HeadBlocks(d[a.start]), RecoveryWrites(a, d);
            && |ws| == |bs| + 1 && ws[|bs|] == Write(a.start, PutHead(d[a.start], []))
            && forall i :: 0 <= i < |bs| ==> ws[i] == Write(bs[i], d[a.start + 1 + i]) && a.Home(ws[i].blockno)
  {
  }

  /** A disk after a series of recovery attempts, attempt `i` cut short after `crashes[i]` writes. */
  ghost predicate CrashedDuring(a: Area, d: seq<Block>, crashes: seq<nat>, e: seq<Block>)
    requires WellFormed(a, d)
    decreases |crashes|
  {
    if crashes == [] then e == d
    else
      && crashes[0] <= |RecoveryWrites(a, d)|
      && var d' := Apply(d, RecoveryWrites(a, d)[..crashes[0]]);
         WellFormed(a, d') && CrashedDuring(a, d', crashes[1..], e)
  }

  lemma {:induction false} RecoveryCrashesSafe(a: Area, d: seq<Block>, crashes: seq<nat>, e: seq<Block>)
    requires WellFormed(a, d) && CrashedDuring(a, d, crashes, e)
    ensures WellFormed(a, e) && SameHome(a, Recovered(a, e), Recovered(a, d))
    decreases |crashes|
  {
    if crashes != [] {
      RecoveryCrashSafe(a, d, crashes[0]);
      RecoveryCrashesSafe(a, Apply(d, RecoveryWrites(a, d)[..crashes[0]]), crashes[1..], e);
    }
  }

  /** All or nothing: whatever write of a commit a crash follows, and however many times recovery is
      itself interrupted, the recovered home blocks are all old or all new, decided by the header write. */
  lemma AllOrNothing(a: Area, d: seq<Block>, bs: seq<nat>, data: seq<Block>, k: nat, e: seq<Block>,
                     crashes: seq<nat>, f: seq<Block>, post: seq<Block>)
    requires WellFormed(a, d) && HeadBlocks(d[a.start]) == []
    requires |bs| == |data| && Loggable(a, |d|, bs) && CommitPrefix(a, d, bs, data, k, e)
    requires Overlaid(a, d, bs, data, post)
    requires WellFormed(a, e) ==> CrashedDuring(a, e, crashes, f)
    ensures WellFormed(a, f)
    ensures SameHome(a, Recovered(a, f), if k <= |bs| then d else post)
  {
    CommitCrashAtomic(a, d, bs, data, k, e, post);
    RecoveryCrashesSafe(a, e, crashes, f);
  }
}
