/** The free-block bitmap: one bit per disk block, BPB bits to a bitmap block. */
module Bitmap {
  import opened Blocks

  const BPB := 8192             // BSIZE * 8

  // ------------------------------------------------------------ bits of a byte

  /** x & (1 << k), as a truth value. */
  predicate Bit(x: nat, k: nat)
  {
    if k == 0 then x % 2 == 1 else Bit(x / 2, k - 1)
  }

  /** x | (1 << k) */
  function SetBit(x: nat, k: nat): nat
  {
    if k == 0 then x / 2 * 2 + 1 else SetBit(x / 2, k - 1) * 2 + x % 2
  }

  /** x & ~(1 << k) */
  function ClearBit(x: nat, k: nat): nat
  {
    if k == 0 then x / 2 * 2 else ClearBit(x / 2, k - 1) * 2 + x % 2
  }

  lemma {:induction false} BitAfterSet(x: nat, k: nat, j: nat)
    ensures Bit(SetBit(x, k), j) <==> Bit(x, j) || j == k
  {
    if k > 0 && j > 0 {
      BitAfterSet(x / 2, k - 1, j - 1);
    }
  }

  lemma {:induction false} BitAfterClear(x: nat, k: nat, j: nat)
    ensures Bit(ClearBit(x, k), j) <==> Bit(x, j) && j != k
  {
    if k > 0 && j > 0 {
      BitAfterClear(x / 2, k - 1, j - 1);
    }
  }

  /** A bit below the eighth stays within a byte. */
  lemma {:induction false} BitsFit(x: nat, k: nat, n: nat, limit: nat)
    requires k < n <= 8 && limit == [1, 2, 4, 8, 16, 32, 64, 128, 256][n] && x < limit
    ensures SetBit(x, k) < limit && ClearBit(x, k) < limit
  {
    if k > 0 {
      BitsFit(x / 2, k - 1, n - 1, limit / 2);
    }
  }

  // -------------------------------------------------------- bits of a block

  predicate BlockBit(b: Block, bi: nat)
    requires bi < BPB
  {
    Bit(b[bi / 8], bi % 8)
  }

  function SetBlockBit(b: Block, bi: nat): Block
    requires bi < BPB
  {
    BitsFit(b[bi / 8], bi % 8, 8, 256);
    b[bi / 8 := SetBit(b[bi / 8], bi % 8)]
  }

  function ClearBlockBit(b: Block, bi: nat): Block
    requires bi < BPB
  {
    BitsFit(b[bi / 8], bi % 8, 8, 256);
    b[bi / 8 := ClearBit(b[bi / 8], bi % 8)]
  }

  lemma BlockBitAfter(b: Block, bi: nat, ci: nat)
    requires bi < BPB && ci < BPB
    ensures BlockBit(SetBlockBit(b, bi), ci) <==> BlockBit(b, ci) || ci == bi
    ensures BlockBit(ClearBlockBit(b, bi), ci) <==> BlockBit(b, ci) && ci != bi
  {
    BitAfterSet(b[bi / 8], bi % 8, ci % 8);
    BitAfterClear(b[bi / 8], bi % 8, ci % 8);
    if bi / 8 == ci / 8 && bi % 8 == ci % 8 {
      assert bi == 8 * (bi / 8) + bi % 8 && ci == 8 * (ci / 8) + ci % 8;
    }
  }

  // ----------------------------------------------------- bits of the bitmap

  /** Where the parts of the disk lie: metadata (boot block, superblock, log, inodes, bitmap) below
      `dstart`, the bitmap starting at `bmapstart`. */
  datatype Super = Super(size: nat, bmapstart: nat, inodestart: nat, dstart: nat) {
    ghost predicate Valid() {
      0 < bmapstart && 0 < dstart <= size <= WORD_LIMIT && bmapstart + (size - 1) / BPB < dstart
    }
    function BBlock(b: nat): nat { b / BPB + bmapstart }
  }

  ghost predicate OnDisk(sb: Super, blocks: seq<Block>)
  {
    sb.Valid() && |blocks| == sb.size
  }

  lemma BBlockBelow(sb: Super, b: nat)
    requires sb.Valid() && b < sb.size
    ensures sb.BBlock(b) < sb.dstart
  {
    assert b / BPB <= (sb.size - 1) / BPB;
  }

  /** The block is marked in use. */
  predicate Marked(sb: Super, blocks: seq<Block>, b: nat)
    requires OnDisk(sb, blocks) && b < sb.size
  {
    BBlockBelow(sb, b);
    BlockBit(blocks[sb.BBlock(b)], b % BPB)
  }

  /** Changing one bit of the bitmap changes the mark of one block. */
  lemma MarkedAfter(sb: Super, blocks: seq<Block>, b: nat, c: nat, blocks': seq<Block>, on: bool)
    requires OnDisk(sb, blocks) && b < sb.size && c < sb.size && sb.BBlock(b) < sb.dstart
    requires blocks' == blocks[sb.BBlock(b) := if on then SetBlockBit(blocks[sb.BBlock(b)], b % BPB)
                                               else ClearBlockBit(blocks[sb.BBlock(b)], b % BPB)]
    ensures Marked(sb, blocks', c) <==> if c == b then on else Marked(sb, blocks, c)
  {
    BBlockBelow(sb, c);
    if sb.BBlock(b) == sb.BBlock(c) {
      BlockBitAfter(blocks[sb.BBlock(b)], b % BPB, c % BPB);
      assert b == b / BPB * BPB + b % BPB && c == c / BPB * BPB + c % BPB;
    }
  }

  /** The bitmap is metadata: changing a data block leaves every mark alone. */
  lemma MarkedFrame(sb: Super, blocks: seq<Block>, d: nat, x: Block, c: nat)
    requires OnDisk(sb, blocks) && sb.dstart <= d < sb.size && c < sb.size
    ensures Marked(sb, blocks[d := x], c) == Marked(sb, blocks, c)
  {
    BBlockBelow(sb, c);
  }
}
