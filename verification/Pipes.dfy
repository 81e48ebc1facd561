/** Pipes: a ring buffer between writers and readers.  Each method is one critical section under the pipe's lock, from
    taking the lock to releasing it or going to sleep. */
module Pipes {
  import opened Blocks
  import opened Rings

  const PIPESIZE := 512

  /** How a critical section of pipewrite or piperead ends. */
  datatype Outcome = Slept | Failed | Returned(n: int)

  lemma NextCount(n: nat)
    ensures (n % WORD_LIMIT + 1) % WORD_LIMIT == (n + 1) % WORD_LIMIT
  {
  }

  /** The oldest byte moved from what is held to what was consumed. */
  lemma Moved(stored: seq<byte>, n: nat)
    requires n < |stored|
    ensures stored[n..][0] == stored[n] && stored[..n] + [stored[n]] == stored[..n + 1] && stored[n + 1..] == stored[n..][1..]
  {
  }

  class Pipe {
    const data: array<byte>
    var nread: word             // unsigned ints that wrap around
    var nwrite: word
    var readopen: bool
    var writeopen: bool
    ghost var stored: seq<byte>     // every byte ever stored
    ghost var got: seq<byte>        // every byte ever consumed
    ghost var readers: set<nat>     // processes asleep on nread
    ghost var writers: set<nat>     // processes asleep on nwrite

    /** What the readers got is a prefix of what was stored, and the buffer holds the rest. */
    ghost predicate Flow()
      reads this, data
    {
      && data.Length == PIPESIZE
      && |got| <= |stored| <= |got| + PIPESIZE && got == stored[..|got|]
      && RingHolds(PIPESIZE, data[..], |stored|, stored[|got|..])
      && nread == |got| % WORD_LIMIT && nwrite == |stored| % WORD_LIMIT
    }

    /** Between critical sections a sleeping writer also means a full buffer, an open read end and no sleeping reader; a
        sleeping reader means an open write end. */
    ghost predicate Valid()
      reads this, data
    {
      && Flow()
      && (writers != {} ==> |stored| == |got| + PIPESIZE && readers == {} && readopen)
      && (readers != {} ==> writeopen)
    }

    constructor ()
      ensures Valid() && readopen && writeopen && stored == [] && readers == {} && writers == {} && fresh(data)
    {
      data := new byte[PIPESIZE](i => 0);
      nread, nwrite, readopen, writeopen := 0, 0, true, true;
      stored, got, readers, writers := [], [], {}, {};
    }

    /** pipewrite from byte `i` of `src` on.  The process is killed once it has written `killAt` bytes, and its memory
        cannot be read from byte `faultAt` on. */
    method Write(pid: nat, src: seq<byte>, i0: nat, killAt: nat, faultAt: nat) returns (r: Outcome, i: nat)
      requires Valid() && writeopen && i0 <= |src| && pid !in writers
      modifies this, data
      ensures Valid() && i0 <= i <= |src| && stored == old(stored) + src[i0..i] && got == old(got)
      ensures readopen == old(readopen) && writeopen
      ensures r.Slept? ==> |stored| == |got| + PIPESIZE && readers == {} && writers == old(writers) + {pid} && i < |src|
      ensures r.Failed? ==> (!readopen || i >= killAt) && i < |src| && readers == old(readers) && writers == old(writers)
      ensures r.Returned? ==> r.n == i && (i == |src| || i >= faultAt) && readers == {} && writers == old(writers)
    {
      hide RingHolds, Slot;
      i := i0;
      while i < |src|
        invariant Valid() && i0 <= i <= |src| && stored == old(stored) + src[i0..i] && got == old(got)
        invariant readopen == old(readopen) && writeopen && readers == old(readers) && writers == old(writers)
      {
        if !readopen || i >= killAt { return Failed, i; }
        Full(|stored|, |got|);
        if nwrite == (nread + PIPESIZE) % WORD_LIMIT {
          readers := {};
          writers := writers + {pid};
          return Slept, i;
        } else {
          if i >= faultAt { break; }
          Store(src[i]);
          assert src[i0..i + 1] == src[i0..i] + [src[i]];
          i := i + 1;
        }
      }
      readers := {};
      return Returned(i), i;
    }

    /** One byte into the buffer. */
    method Store(ch: byte)
      requires Flow() && |stored| < |got| + PIPESIZE
      modifies data, this`nwrite, this`stored
      ensures Flow() && stored == old(stored) + [ch]
    {
      hide RingHolds, Slot;
      ghost var held := stored[|got|..];
      SameSlot(|stored|, PIPESIZE, WORD_LIMIT);
      Pushed(PIPESIZE, data[..], |stored|, held, ch);
      SlotIs(nwrite);
      data[nwrite % PIPESIZE] := ch;
      assert data[..] == old(data[..])[Slot(|stored|, PIPESIZE) := ch];
      NextCount(|stored|);
      nwrite := (nwrite + 1) % WORD_LIMIT;
      stored := stored + [ch];
      assert stored[|got|..] == held + [ch];
    }

    /** piperead of up to `n` bytes.  The reader's memory cannot be written from byte `faultAt` on. */
    method Read(pid: nat, n: int, killed: bool, faultAt: nat) returns (r: Outcome, out: seq<byte>)
      requires Valid() && readopen && pid !in readers
      modifies this
      ensures Valid() && stored == old(stored) && got == old(got) + out && readopen && writeopen == old(writeopen)
      ensures r.Slept? ==> out == [] && |stored| == |got| && writeopen && !killed && readers == old(readers) + {pid} && writers == {}
      ensures r.Failed? ==> out == [] && killed && readers == old(readers) && writers == old(writers)
      ensures r.Returned? ==>
                && writers == {} && readers == old(readers) && |out| <= (if n < 0 then 0 else n)
                && (|out| < n ==> |stored| == |got| || |out| >= faultAt)
                && r.n == if out == [] && n > 0 && |stored| > |got| then -1 else |out|
    {
      hide RingHolds, Slot;
      Empty(|stored|, |got|);
      out := [];
      if nread == nwrite && writeopen {
        if killed { return Failed, out; }
        readers := readers + {pid};
        return Slept, out;
      }
      var i := 0;
      while i < n
        invariant 0 <= i && (n >= 0 ==> i <= n) && (n < 0 ==> i == 0) && i == |out| && Flow()
        invariant stored == old(stored) && got == old(got) + out && readopen && writeopen == old(writeopen)
        invariant readers == old(readers)
      {
        Empty(|stored|, |got|);
        if nread == nwrite { break; }
        if i >= faultAt {
          if i == 0 { i := -1; }
          break;
        }
        var ch := Consume();
        out := out + [ch];
        i := i + 1;
      }
      writers := {};
      return Returned(i), out;
    }

    /** One byte out of the buffer: the oldest not yet consumed. */
    method Consume() returns (ch: byte)
      requires Flow() && |stored| > |got|
      modifies this`nread, this`got
      ensures Flow() && got == old(got) + [ch]
    {
      hide RingHolds, Slot;
      ghost var held := stored[|got|..];
      SameSlot(|got|, PIPESIZE, WORD_LIMIT);
      Popped(PIPESIZE, data[..], |stored|, held);
      SlotIs(nread);
      ch := data[nread % PIPESIZE];
      NextCount(|got|);
      Moved(stored, |got|);
      nread := (nread + 1) % WORD_LIMIT;
      got := got + [ch];
    }

    /** pipeclose: the other side is woken, and the pipe is freed exactly when both ends are closed. */
    method Close(writable: bool) returns (freed: bool)
      requires Valid() && (if writable then writeopen else readopen)
      modifies this
      ensures Valid() && stored == old(stored) && got == old(got)
      ensures writeopen == (old(writeopen) && !writable) && readopen == (old(readopen) && writable)
      ensures freed <==> !readopen && !writeopen
      ensures if writable then readers == {} && writers == old(writers) else writers == {} && readers == old(readers)
    {
      if writable {
        writeopen := false;
        readers := {};
      } else {
        readopen := false;
        writers := {};
      }
      freed := !readopen && !writeopen;
    }

    /** A process asleep in the pipe is killed, or woken for some other reason. */
    method Rouse(pid: nat)
      requires Valid()
      modifies this`readers, this`writers
      ensures Valid() && readers == old(readers) - {pid} && writers == old(writers) - {pid}
    {
      readers := readers - {pid};
      writers := writers - {pid};
    }
  }

  lemma SlotIs(n: nat)
    ensures Slot(n, PIPESIZE) == n % PIPESIZE
  {
  }

  /** The wrapped counters tell a full buffer and an empty one apart. */
  lemma Full(stored: nat, got: nat)
    requires got <= stored <= got + PIPESIZE
    ensures stored % WORD_LIMIT == (got % WORD_LIMIT + PIPESIZE) % WORD_LIMIT <==> stored == got + PIPESIZE
  {
  }

  lemma Empty(stored: nat, got: nat)
    requires got <= stored <= got + PIPESIZE
    ensures got % WORD_LIMIT == stored % WORD_LIMIT <==> stored == got
  {
  }
}
