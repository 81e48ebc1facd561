/** Files as byte sequences: what the blocks an inode reaches spell out. */
module Contents {
  import opened Blocks
  import opened Bitmap
  import opened Inodes

  const MAXBYTES := 274432      // MAXFILE * BSIZE

  /** Every block of the first `len` bytes of the file is allocated. */
  ghost predicate Backed(fs: Fs, i: nat, len: nat)
    requires Shape(fs) && i < |fs.inodes|
  {
    len <= MAXBYTES && forall bn :: 0 <= bn < MAXFILE && bn * BSIZE < len ==> Addr(fs, i, Slot(bn)) != 0
  }

  /** Byte `p` of the file, wherever its block lies. */
  function ByteAt(fs: Fs, i: nat, p: nat): byte
    requires Shape(fs) && i < |fs.inodes| && p < MAXBYTES
  {
    var b := Addr(fs, i, Slot(p / BSIZE));
    if b < fs.sb.size then fs.blocks[b][p % BSIZE] else 0
  }

  /** The file's contents. */
  function Content(fs: Fs, i: nat): (c: seq<byte>)
    requires Shape(fs) && i < |fs.inodes| && fs.inodes[i].size <= MAXBYTES
    ensures |c| == fs.inodes[i].size
  {
    seq(fs.inodes[i].size, p requires 0 <= p < fs.inodes[i].size => ByteAt(fs, i, p))
  }

  /** `c` with `data` written at `off`, growing if it reaches past the end. */
  function Splice(c: seq<byte>, off: nat, data: seq<byte>): seq<byte>
    requires off <= |c|
  {
    c[..off] + data + if off + |data| < |c| then c[off + |data|..] else []
  }

  lemma BackedByte(fs: Fs, i: nat, len: nat, p: nat)
    requires Shape(fs) && i < |fs.inodes| && Backed(fs, i, len) && p < len
    ensures Addr(fs, i, Slot(p / BSIZE)) != 0
  {
    assert p / BSIZE * BSIZE <= p && p / BSIZE < MAXFILE;
  }

  /** A live address is a data block owned by its slot. */
  lemma LiveAddr(fs: Fs, owner: Owner, i: nat, bn: nat)
    requires Owned(fs, owner, {}, {}) && i < |fs.inodes| && bn < MAXFILE && Addr(fs, i, Slot(bn)) != 0
    ensures var b := Addr(fs, i, Slot(bn));
            && fs.sb.dstart <= b < fs.sb.size && b in owner && owner[b] == (i, Slot(bn)) && Slot(bn) != NDIRECT
  {
    hide Marked, GetWord;
  }

  /** Allocation leaves every byte already there alone. */
  lemma GrownByte(fs: Fs, o: Owner, fs': Fs, o': Owner, i: nat, j: nat, p: nat)
    requires Owned(fs, o, {}, {}) && Shape(fs') && |fs'.inodes| == |fs.inodes| && Grown(fs, o, fs', o', i)
    requires j < |fs.inodes| && p < MAXBYTES && Addr(fs, j, Slot(p / BSIZE)) != 0
    ensures ByteAt(fs', j, p) == ByteAt(fs, j, p) && Addr(fs', j, Slot(p / BSIZE)) != 0
  {
    hide Marked, GetWord, Addr;
    LiveAddr(fs, o, j, p / BSIZE);
  }

  lemma GrownBacked(fs: Fs, o: Owner, fs': Fs, o': Owner, i: nat, j: nat, len: nat)
    requires Owned(fs, o, {}, {}) && Shape(fs') && |fs'.inodes| == |fs.inodes| && Grown(fs, o, fs', o', i)
    requires j < |fs.inodes| && Backed(fs, j, len)
    ensures Backed(fs', j, len)
  {
    hide Marked, GetWord, Addr;
  }

  /** Writing the block of file `i` at `bn` changes the bytes of that block of that file and no other. */
  lemma WriteByte(fs: Fs, o: Owner, i: nat, bn: nat, x: Block, j: nat, p: nat)
    requires Owned(fs, o, {}, {}) && i < |fs.inodes| && bn < MAXFILE && Addr(fs, i, Slot(bn)) != 0
    requires j < |fs.inodes| && p < MAXBYTES && Addr(fs, j, Slot(p / BSIZE)) != 0
    requires Addr(fs, i, Slot(bn)) < fs.sb.size
    ensures var fs' := fs.(blocks := fs.blocks[Addr(fs, i, Slot(bn)) := x]);
            && Shape(fs') && Addr(fs', j, Slot(p / BSIZE)) != 0
            && ByteAt(fs', j, p) == if j == i && p / BSIZE == bn then x[p % BSIZE] else ByteAt(fs, j, p)
  {
    hide Marked, GetWord;
    LiveAddr(fs, o, i, bn);
    LiveAddr(fs, o, j, p / BSIZE);
    WriteKeeps(fs, o, {}, Addr(fs, i, Slot(bn)), x);
  }

  // ------------------------------------------------------------- a write in progress

  /** From `fs0` to `fs`, `data` has been stored at `off` of file `i`: those bytes, and no other byte
      within any file's size, have changed; all files are still fully backed. */
  ghost predicate Stored(fs0: Fs, fs: Fs, i: nat, off: nat, data: seq<byte>)
    requires Shape(fs0) && Shape(fs) && i < |fs0.inodes| == |fs.inodes|
  {
    && off + |data| <= MAXBYTES && Backed(fs, i, off + |data|)
    && (forall j :: 0 <= j < |fs.inodes| ==> fs.inodes[j].size == fs0.inodes[j].size && Backed(fs, j, fs.inodes[j].size))
    && (forall j :: 0 <= j < |fs.inodes| && j != i ==> fs.inodes[j] == fs0.inodes[j])
    && (forall p :: off <= p < off + |data| ==> ByteAt(fs, i, p) == data[p - off])
    && (forall j, p :: 0 <= j < |fs.inodes| && 0 <= p < fs.inodes[j].size && !(j == i && off <= p < off + |data|)
          ==> ByteAt(fs, j, p) == ByteAt(fs0, j, p))
  }

  lemma StoredNothing(fs: Fs, i: nat, off: nat)
    requires Shape(fs) && i < |fs.inodes| && off <= fs.inodes[i].size
    requires forall j :: 0 <= j < |fs.inodes| ==> Backed(fs, j, fs.inodes[j].size)
    ensures Stored(fs, fs, i, off, [])
  {
    hide Addr;
  }

  lemma StoredGrown(fs0: Fs, fs: Fs, o: Owner, fs': Fs, o': Owner, i: nat, off: nat, data: seq<byte>)
    requires Shape(fs0) && i < |fs0.inodes| == |fs.inodes| == |fs'.inodes|
    requires Owned(fs, o, {}, {}) && Stored(fs0, fs, i, off, data)
    requires Shape(fs') && Grown(fs, o, fs', o', i)
    ensures Stored(fs0, fs', i, off, data)
  {
    hide Marked, GetWord, Addr, ByteAt, Reached, Placed, Accounted, Backed;
    forall j | 0 <= j < |fs.inodes| ensures Backed(fs', j, fs'.inodes[j].size) {
      GrownBacked(fs, o, fs', o', i, j, fs.inodes[j].size);
    }
    GrownBacked(fs, o, fs', o', i, i, off + |data|);
    forall j, p | 0 <= j < |fs.inodes| && (0 <= p < fs.inodes[j].size || (j == i && off <= p < off + |data|))
      ensures p < MAXBYTES && ByteAt(fs', j, p) == ByteAt(fs, j, p)
    {
      var len := if p < fs.inodes[j].size then fs.inodes[j].size else off + |data|;
      BackedWithin(fs, j, len);
      BackedByte(fs, j, len, p);
      GrownByte(fs, o, fs', o', i, j, p);
    }
  }

  /** Past the end of the file it does not matter what was stored. */
  lemma StoredPrefix(fs0: Fs, fs: Fs, i: nat, off: nat, data: seq<byte>, n: nat, m: nat)
    requires Shape(fs0) && Shape(fs) && i < |fs0.inodes| == |fs.inodes| && Stored(fs0, fs, i, off, data)
    requires m <= n <= |data| && off + n >= fs.inodes[i].size
    ensures Stored(fs0, fs, i, off, data[..n])
  {
    hide Addr, ByteAt;
  }

  lemma StoredSizes(fs0: Fs, fs: Fs, i: nat, off: nat, data: seq<byte>)
    requires Shape(fs0) && Shape(fs) && i < |fs0.inodes| == |fs.inodes| && Stored(fs0, fs, i, off, data)
    ensures fs.inodes[i].size == fs0.inodes[i].size && off + |data| <= MAXBYTES
  {
  }

  lemma StoredOthers(fs0: Fs, fs: Fs, i: nat, off: nat, data: seq<byte>)
    requires Shape(fs0) && Shape(fs) && i < |fs0.inodes| == |fs.inodes| && Stored(fs0, fs, i, off, data)
    ensures forall j :: 0 <= j < |fs.inodes| ==> fs.inodes[j].size <= MAXBYTES && Backed(fs, j, fs.inodes[j].size)
    ensures forall j :: 0 <= j < |fs.inodes| && j != i ==> fs.inodes[j] == fs0.inodes[j]
  {
  }

  lemma BackedWithin(fs: Fs, i: nat, len: nat)
    requires Shape(fs) && i < |fs.inodes| && Backed(fs, i, len)
    ensures len <= MAXBYTES
  {
  }

  /** The block with `chunk` copied in at `k`. */
  function Patched(b: Block, k: nat, chunk: seq<byte>): Block
    requires k + |chunk| <= BSIZE
  {
    b[..k] + chunk + b[k + |chunk|..]
  }

  /** Copying the next chunk into its block extends what has been stored. */
  lemma StoredChunk(fs0: Fs, fs: Fs, o: Owner, i: nat, off: nat, data: seq<byte>, chunk: seq<byte>)
    requires Shape(fs0) && i < |fs0.inodes| == |fs.inodes|
    requires Owned(fs, o, {}, {}) && Stored(fs0, fs, i, off, data)
    requires off <= fs0.inodes[i].size && off + |data| + |chunk| <= MAXBYTES
    requires 0 < |chunk| && (off + |data|) % BSIZE + |chunk| <= BSIZE
    requires Addr(fs, i, Slot((off + |data|) / BSIZE)) != 0
    ensures var b := Addr(fs, i, Slot((off + |data|) / BSIZE));
            && b < fs.sb.size
            && var fs' := fs.(blocks := fs.blocks[b := Patched(fs.blocks[b], (off + |data|) % BSIZE, chunk)]);
               Shape(fs') && Stored(fs0, fs', i, off, data + chunk)
  {
    hide Marked, GetWord, Addr, ByteAt, Reached, Placed, Accounted, Backed, Patched;
    var pos := off + |data|;
    var bn := pos / BSIZE;
    LiveAddr(fs, o, i, bn);
    var b := Addr(fs, i, Slot(bn));
    var x := Patched(fs.blocks[b], pos % BSIZE, chunk);
    var fs' := fs.(blocks := fs.blocks[b := x]);
    WriteKeeps(fs, o, {}, b, x);
    forall j | 0 <= j < |fs.inodes| ensures Backed(fs', j, fs'.inodes[j].size) {
      SameAddrsBacked(fs, fs', j, fs.inodes[j].size);
    }
    SameAddrsBacked(fs, fs', i, pos);
    BackedFurther(fs', i, pos, |chunk|);
    forall p | off <= p < pos + |chunk| ensures ByteAt(fs', i, p) == (data + chunk)[p - off] {
      ChunkByte(fs, o, i, off, data, chunk, p);
    }
    forall j, p | 0 <= j < |fs.inodes| && 0 <= p < fs.inodes[j].size && !(j == i && off <= p < pos + |chunk|)
      ensures p < MAXBYTES && ByteAt(fs', j, p) == ByteAt(fs, j, p)
    {
      BackedWithin(fs, j, fs.inodes[j].size);
      BackedByte(fs, j, fs.inodes[j].size, p);
      WriteByte(fs, o, i, bn, x, j, p);
      if j == i && p / BSIZE == bn { PatchedAt(fs, o, i, pos, chunk, p); }
    }
  }

  lemma SameAddrsBacked(fs: Fs, fs': Fs, j: nat, len: nat)
    requires Shape(fs) && Shape(fs') && j < |fs.inodes| == |fs'.inodes| && Backed(fs, j, len)
    requires forall i, s :: 0 <= i < |fs.inodes| && 0 <= s < NSLOT ==> Addr(fs', i, s) == Addr(fs, i, s)
    ensures Backed(fs', j, len)
  {
    hide Addr;
  }

  lemma BackedFurther(fs: Fs, i: nat, pos: nat, m: nat)
    requires Shape(fs) && i < |fs.inodes| && Backed(fs, i, pos) && pos + m <= MAXBYTES
    requires 0 < m && pos % BSIZE + m <= BSIZE && Addr(fs, i, Slot(pos / BSIZE)) != 0
    ensures Backed(fs, i, pos + m)
  {
    hide Addr;
    forall bn | 0 <= bn < MAXFILE && bn * BSIZE < pos + m ensures Addr(fs, i, Slot(bn)) != 0 {
      if bn * BSIZE >= pos { assert bn == pos / BSIZE; }
    }
  }

  /** A byte of the block being patched, outside the chunk, keeps its value. */
  lemma PatchedAt(fs: Fs, o: Owner, i: nat, pos: nat, chunk: seq<byte>, p: nat)
    requires Shape(fs) && i < |fs.inodes| && p < MAXBYTES && p / BSIZE == pos / BSIZE
    requires pos % BSIZE + |chunk| <= BSIZE && Addr(fs, i, Slot(p / BSIZE)) < fs.sb.size
    requires !(pos <= p < pos + |chunk|)
    ensures Patched(fs.blocks[Addr(fs, i, Slot(p / BSIZE))], pos % BSIZE, chunk)[p % BSIZE] == ByteAt(fs, i, p)
  {
    hide Addr;
    assert p == p / BSIZE * BSIZE + p % BSIZE && pos == pos / BSIZE * BSIZE + pos % BSIZE;
  }

  lemma ChunkByte(fs: Fs, o: Owner, i: nat, off: nat, data: seq<byte>, chunk: seq<byte>, p: nat)
    requires Owned(fs, o, {}, {}) && i < |fs.inodes| && Backed(fs, i, off + |data|)
    requires 0 < |chunk| && off <= p < off + |data| + |chunk| <= MAXBYTES && (off + |data|) % BSIZE + |chunk| <= BSIZE
    requires forall q :: off <= q < off + |data| ==> ByteAt(fs, i, q) == data[q - off]
    requires Addr(fs, i, Slot((off + |data|) / BSIZE)) != 0
    ensures var b := Addr(fs, i, Slot((off + |data|) / BSIZE));
            && b < fs.sb.size
            && var fs' := fs.(blocks := fs.blocks[b := Patched(fs.blocks[b], (off + |data|) % BSIZE, chunk)]);
               Shape(fs') && ByteAt(fs', i, p) == (data + chunk)[p - off]
  {
    hide Marked, GetWord, Addr, ByteAt, Reached, Placed, Accounted;
    var pos := off + |data|;
    LiveAddr(fs, o, i, pos / BSIZE);
    var x := Patched(fs.blocks[Addr(fs, i, Slot(pos / BSIZE))], pos % BSIZE, chunk);
    if p < pos {
      BackedByte(fs, i, pos, p);
      WriteByte(fs, o, i, pos / BSIZE, x, i, p);
      if p / BSIZE == pos / BSIZE { PatchedAt(fs, o, i, pos, chunk, p); }
    } else {
      SameBlock(pos, p - pos);
      WriteByte(fs, o, i, pos / BSIZE, x, i, p);
    }
  }

  lemma SameBlock(pos: nat, k: nat)
    requires pos % BSIZE + k < BSIZE
    ensures (pos + k) / BSIZE == pos / BSIZE && (pos + k) % BSIZE == pos % BSIZE + k
  {
  }

  /** The whole write: with the size raised to cover it, the file reads as the splice and every other
      file as before. */
  lemma StoredIsSplice(fs0: Fs, fs: Fs, o: Owner, i: nat, off: nat, data: seq<byte>)
    requires Shape(fs0) && i < |fs0.inodes| == |fs.inodes| && Owned(fs, o, {}, {})
    requires Stored(fs0, fs, i, off, data) && off <= fs0.inodes[i].size
    requires forall j :: 0 <= j < |fs0.inodes| ==> fs0.inodes[j].size <= MAXBYTES
    ensures var size := if off + |data| > fs.inodes[i].size then off + |data| else fs.inodes[i].size;
            var fs' := fs.(inodes := fs.inodes[i := fs.inodes[i].(size := size)]);
            && Owned(fs', o, {}, {})
            && (forall j :: 0 <= j < |fs.inodes| ==> Backed(fs', j, fs'.inodes[j].size))
            && Content(fs', i) == Splice(Content(fs0, i), off, data)
            && forall j :: 0 <= j < |fs.inodes| && j != i ==> Content(fs', j) == Content(fs0, j)
  {
    hide Marked, GetWord, Addr, Reached, Placed, Accounted;
    var size := if off + |data| > fs.inodes[i].size then off + |data| else fs.inodes[i].size;
    var fs' := fs.(inodes := fs.inodes[i := fs.inodes[i].(size := size)]);
    SizeKeeps(fs, o, {}, i, size);
    forall j | 0 <= j < |fs.inodes| ensures Backed(fs', j, fs'.inodes[j].size) {
      SameAddrsBacked(fs, fs', j, fs.inodes[j].size);
      SameAddrsBacked(fs, fs', i, off + |data|);
    }
    forall j, p | 0 <= j < |fs.inodes| && 0 <= p < MAXBYTES ensures ByteAt(fs', j, p) == ByteAt(fs, j, p) {
      assert Addr(fs', j, Slot(p / BSIZE)) == Addr(fs, j, Slot(p / BSIZE));
    }
    SpliceIs(fs0, fs, fs', i, off, data);
    forall j | 0 <= j < |fs.inodes| && j != i ensures Content(fs', j) == Content(fs0, j) { }
  }

  lemma SpliceIs(fs0: Fs, fs: Fs, fs': Fs, i: nat, off: nat, data: seq<byte>)
    requires Shape(fs0) && Shape(fs) && Shape(fs') && i < |fs0.inodes| == |fs.inodes| == |fs'.inodes|
    requires Stored(fs0, fs, i, off, data) && off <= fs0.inodes[i].size <= MAXBYTES
    requires fs'.inodes[i].size == if off + |data| > fs.inodes[i].size then off + |data| else fs.inodes[i].size
    requires forall p :: 0 <= p < MAXBYTES ==> ByteAt(fs', i, p) == ByteAt(fs, i, p)
    ensures Content(fs', i) == Splice(Content(fs0, i), off, data)
  {
    hide Addr, ByteAt, Backed;
    var c, d := Content(fs', i), Splice(Content(fs0, i), off, data);
    assert |c| == |d|;
    forall p | 0 <= p < |c| ensures c[p] == d[p] {
      assert c[p] == ByteAt(fs, i, p);
    }
  }
}
