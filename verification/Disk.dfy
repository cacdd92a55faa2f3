/**
 The disk and the block allocator (the disk and block_manager classes of inode_manager.cc).
 Functions on images, that is on the sequence of a disk's blocks, say what the methods compute.
 */
module Disk {
  import opened Bits

  const BLOCK_SIZE: nat := 512
  const BLOCK_NUM: nat := 32768
  const INODE_NUM: nat := 1024
  /** Bitmap bits per block. */
  const BPB: nat := 4096
  /** The blocks set aside when the disk is formatted: 0 up to but excluding this one. */
  const RESERVED: nat := 1034

  type Block = b: seq<U8> | |b| == BLOCK_SIZE witness seq(BLOCK_SIZE, i => 0)

  function Zero(): (z: Block)
    ensures forall k | 0 <= k < BLOCK_SIZE :: z[k] == 0
  {
    seq(BLOCK_SIZE, i => 0)
  }

  type Image = d: seq<Block> | |d| == BLOCK_NUM witness seq<Block>(BLOCK_NUM, i => Zero())

  /** The block that holds the bitmap bit of block b. */
  function BBlock(b: nat): nat
  {
    b / BPB + 2
  }

  /** The block that holds inode i. */
  function IBlock(i: nat): nat
  {
    BLOCK_NUM / BPB + i + 3
  }

  /** Formatting covers the bitmap and the blocks of inodes 0..1022.  The block of inode 1023 is
      the first data block. */
  lemma Layout(b: nat, i: nat)
    requires b < BLOCK_NUM && i < INODE_NUM
    ensures 2 <= BBlock(b) < IBlock(i)
    ensures IBlock(i) < RESERVED <==> i <= 1022
    ensures IBlock(1023) == RESERVED
  {
  }

  // ---- reading and writing blocks ------------------------------------------------------

  /** read_block leaves the buffer alone when the block does not exist. */
  function ReadInto(d: Image, n: nat, buf: Block): Block
  {
    if n < BLOCK_NUM then d[n] else buf
  }

  /** The block with this number.  What stands for a block beyond the disk is never looked at. */
  function BlockAt(d: Image, n: nat): Block
  {
    if n < BLOCK_NUM then d[n] else d[0]
  }

  function Written(d: Image, n: nat, buf: Block): Image
  {
    if n < BLOCK_NUM then d[n := buf] else d
  }

  // ---- the bitmap ----------------------------------------------------------------------

  function Mask(off: nat): nat
  {
    Shifted(off % 8)
  }

  predicate BitAt(b: Block, off: nat)
    requires off < BPB
  {
    And(b[off / 8], Mask(off)) != 0
  }

  /** A byte keeps its size when one of its bits is set. */
  function MaskSet(x: U8, off: nat): (r: U8)
  {
    OrBound(x, off % 8, 8);
    Or(x, Mask(off))
  }

  function WithBit(b: Block, off: nat): Block
    requires off < BPB
  {
    b[off / 8 := MaskSet(b[off / 8], off)]
  }

  function WithoutBit(b: Block, off: nat): Block
    requires off < BPB
  {
    b[off / 8 := AndNot(b[off / 8], Mask(off))]
  }

  lemma BitAfter(b: Block, off: nat, x: nat)
    requires off < BPB && x < BPB
    ensures BitAt(WithBit(b, off), x) <==> x == off || BitAt(b, x)
    ensures BitAt(WithoutBit(b, off), x) <==> x != off && BitAt(b, x)
  {
    if x / 8 == off / 8 {
      assert x == off <==> x % 8 == off % 8;
      BitsAfter(b[off / 8], off % 8, x % 8);
    }
  }

  /** Block n is marked as in use. */
  predicate Bit(d: Image, n: nat)
    requires n < BLOCK_NUM
  {
    BitAt(d[BBlock(n)], n % BPB)
  }

  function SetBit(d: Image, n: nat): Image
    requires n < BLOCK_NUM
  {
    d[BBlock(n) := WithBit(d[BBlock(n)], n % BPB)]
  }

  function ClearBit(d: Image, n: nat): Image
    requires n < BLOCK_NUM
  {
    d[BBlock(n) := WithoutBit(d[BBlock(n)], n % BPB)]
  }

  /** Marking or unmarking a block changes one bit and no block outside the bitmap. */
  lemma BitChange(d: Image, n: nat, x: nat)
    requires n < BLOCK_NUM && x < BLOCK_NUM
    ensures Bit(SetBit(d, n), x) <==> x == n || Bit(d, x)
    ensures Bit(ClearBit(d, n), x) <==> x != n && Bit(d, x)
    ensures x < 2 || x >= 10 ==> SetBit(d, n)[x] == d[x] == ClearBit(d, n)[x]
  {
    BitAfter(d[BBlock(n)], n % BPB, x % BPB);
    assert x == n <==> x / BPB == n / BPB && x % BPB == n % BPB;
  }

  // ---- allocation ----------------------------------------------------------------------

  /** The first n blocks are all marked. */
  ghost predicate Marked(d: Image, n: nat)
    requires n <= BLOCK_NUM
  {
    forall b | 0 <= b < n :: Bit(d, b)
  }

  /** n is the least unmarked block, or BLOCK_NUM when all are marked. */
  ghost predicate IsFirstFree(d: Image, n: nat)
  {
    n <= BLOCK_NUM && Marked(d, n) && (n < BLOCK_NUM ==> !Bit(d, n))
  }

  function FirstFrom(d: Image, n: nat): nat
    requires n <= BLOCK_NUM
    decreases |d|, BLOCK_NUM - n
  {
    if n < BLOCK_NUM && Bit(d, n) then FirstFrom(d, n + 1) else n
  }

  lemma {:induction false} FirstFromFacts(d: Image, n: nat)
    requires n <= BLOCK_NUM && Marked(d, n)
    ensures IsFirstFree(d, FirstFrom(d, n))
    decreases BLOCK_NUM - n
  {
    if n < BLOCK_NUM && Bit(d, n) {
      FirstFromFacts(d, n + 1);
    }
  }

  /** The least unmarked block. */
  function FirstFree(d: Image): nat
  {
    FirstFrom(d, 0)
  }

  /** What alloc_block returns, and the disk it leaves. */
  function AllocNumber(d: Image): (n: nat)
    ensures n < BLOCK_NUM
  {
    if FirstFree(d) < BLOCK_NUM then FirstFree(d) else 0
  }

  function AllocImage(d: Image): Image
  {
    if FirstFree(d) < BLOCK_NUM then SetBit(d, FirstFree(d)) else d
  }

  lemma FirstFreeIs(d: Image, n: nat)
    requires IsFirstFree(d, n)
    ensures FirstFree(d) == n
  {
    FirstFromFacts(d, 0);
  }

  /** One bitmap block of the search, with its first `off` bits set: either the bit at off is
      clear and block bnum + off is the answer, or the next bitmap block goes on. */
  lemma SearchStep(d: Image, bnum: nat, off: nat)
    requires bnum < BLOCK_NUM && bnum % BPB == 0 && off <= BPB && Marked(d, bnum)
    requires forall j | 0 <= j < off :: BitAt(d[BBlock(bnum)], j)
    requires off < BPB ==> !BitAt(d[BBlock(bnum)], off)
    ensures bnum + BPB <= BLOCK_NUM
    ensures off == BPB ==> Marked(d, bnum + BPB)
    ensures off < BPB ==> AllocNumber(d) == bnum + off
                          && AllocImage(d) == Written(d, BBlock(bnum), WithBit(d[BBlock(bnum)], off))
  {
    forall b | 0 <= b < bnum + off ensures Bit(d, b) {
      if b >= bnum {
        assert BBlock(b) == BBlock(bnum) && b % BPB == b - bnum;
      }
    }
    if off < BPB {
      assert BBlock(bnum + off) == BBlock(bnum) && (bnum + off) % BPB == off;
      FirstFreeIs(d, bnum + off);
    }
  }

  /** free_block ignores the first blocks; a number beyond the disk may still name a block of
      bits, which then belongs to no bitmap. */
  function FreeImage(d: Image, n: nat): Image
  {
    if n <= BBlock(BLOCK_NUM) || BBlock(n) >= BLOCK_NUM then d
    else d[BBlock(n) := WithoutBit(d[BBlock(n)], n % BPB)]
  }

  /** The superblock and the bitmap are never freed. */
  lemma FirstBlocksStay(d: Image, n: nat)
    requires n <= 10
    ensures FreeImage(d, n) == d
  {
  }

  /** Any other number clears the one bit that it names, of block x bit j, if there is such a block. */
  lemma FreeClears(d: Image, n: nat, x: nat, j: nat)
    requires n > 10 && x < BLOCK_NUM && j < BPB
    ensures BitAt(FreeImage(d, n)[x], j) <==> BitAt(d[x], j) && !(x == BBlock(n) && j == n % BPB)
  {
    if x == BBlock(n) {
      BitAfter(d[x], n % BPB, j);
    }
  }

  class RawDisk {
    const blocks: array<Block>

    ghost predicate Valid()
      reads this
    {
      blocks.Length == BLOCK_NUM
    }

    ghost function Contents(): Image
      requires Valid()
      reads this, blocks
    {
      blocks[..]
    }

    constructor ()
      ensures Valid() && fresh(blocks) && forall x | 0 <= x < BLOCK_NUM :: Contents()[x] == Zero()
    {
      blocks := new Block[BLOCK_NUM](i => Zero());
    }

    method ReadBlock(n: nat, buf: Block) returns (buf': Block)
      requires Valid()
      ensures buf' == ReadInto(Contents(), n, buf)
      ensures if n < BLOCK_NUM then buf' == Contents()[n] else buf' == buf
    {
      if n >= BLOCK_NUM {
        return buf;
      }
      buf' := blocks[n];
    }

    method WriteBlock(n: nat, buf: Block)
      requires Valid()
      modifies blocks
      ensures Contents() == Written(old(Contents()), n, buf)
      ensures n < BLOCK_NUM ==> Contents()[n] == buf
      ensures forall x | 0 <= x < BLOCK_NUM && x != n :: Contents()[x] == old(Contents())[x]
    {
      if n >= BLOCK_NUM {
        return;
      }
      blocks[n] := buf;
    }
  }

  class BlockManager {
    const disk: RawDisk

    ghost predicate Valid()
      reads this, disk
    {
      disk.Valid()
    }

    ghost function Contents(): Image
      requires Valid()
      reads this, disk, disk.blocks
    {
      disk.Contents()
    }

    /** Takes the least unmarked block and marks it; 0 stands for a full disk. */
    method AllocBlock() returns (n: nat)
      requires Valid()
      modifies disk.blocks
      ensures n == AllocNumber(old(Contents())) && Contents() == AllocImage(old(Contents()))
    {
      var bnum := 0;
      var buf := Zero();
      while bnum < BLOCK_NUM
        invariant 0 <= bnum <= BLOCK_NUM && bnum % BPB == 0
        invariant Contents() == old(Contents()) && Marked(Contents(), bnum)
        decreases BLOCK_NUM - bnum
      {
        buf := disk.ReadBlock(BBlock(bnum), buf);
        var off := FirstClear(buf);
        SearchStep(Contents(), bnum, off);
        if off < BPB {
          buf := buf[off / 8 := MaskSet(buf[off / 8], off)];
          disk.WriteBlock(BBlock(bnum), buf);
          return bnum + off;
        }
        bnum := bnum + BPB;
      }
      FirstFreeIs(Contents(), BLOCK_NUM);
      n := 0;
    }

    /** The scan through one bitmap block. */
    static method FirstClear(buf: Block) returns (off: nat)
      ensures off <= BPB && (off < BPB ==> !BitAt(buf, off))
      ensures forall j | 0 <= j < off :: BitAt(buf, j)
    {
      off := 0;
      while off < BPB
        invariant 0 <= off <= BPB
        invariant forall j | 0 <= j < off :: BitAt(buf, j)
      {
        if And(buf[off / 8], Mask(off)) == 0 {
          return;
        }
        off := off + 1;
      }
    }

    method FreeBlock(n: nat)
      requires Valid()
      modifies disk.blocks
      ensures Contents() == FreeImage(old(Contents()), n)
    {
      if n <= BBlock(BLOCK_NUM) {
        return;
      }
      var buf := disk.ReadBlock(BBlock(n), Zero());
      var offset := n % BPB;
      buf := buf[offset / 8 := AndNot(buf[offset / 8], Mask(offset))];
      disk.WriteBlock(BBlock(n), buf);
    }

    method ReadBlock(n: nat, buf: Block) returns (buf': Block)
      requires Valid()
      ensures buf' == ReadInto(Contents(), n, buf)
    {
      buf' := disk.ReadBlock(n, buf);
    }

    method WriteBlock(n: nat, buf: Block)
      requires Valid()
      modifies disk.blocks
      ensures Contents() == Written(old(Contents()), n, buf)
    {
      disk.WriteBlock(n, buf);
    }

    constructor ()
      ensures Valid() && fresh(disk) && fresh(disk.blocks)
      ensures Formatted(Contents())
    {
      disk := new RawDisk();
      new;
      assert Blank(Contents());
      Format();
    }

    /** Marks the blocks before the data. */
    method Format()
      requires Valid()
      modifies disk.blocks
      ensures Contents() == AllocTimes(old(Contents()), RESERVED)
    {
      var bnum := 0;
      while bnum < BLOCK_NUM / BPB + INODE_NUM + 2
        invariant 0 <= bnum <= RESERVED && Contents() == AllocTimes(old(Contents()), bnum)
      {
        var _ := AllocBlock();
        bnum := bnum + 1;
      }
    }
  }

  /** The disk after n calls of alloc_block. */
  function AllocTimes(d: Image, n: nat): Image
  {
    if n == 0 then d else AllocImage(AllocTimes(d, n - 1))
  }

  /** The disk after the calls of alloc_block that format it. */
  ghost predicate Formatted(d: Image)
  {
    exists blank: Image :: Blank(blank) && d == AllocTimes(blank, RESERVED)
  }

  ghost predicate Blank(d: Image)
  {
    forall x | 0 <= x < BLOCK_NUM :: d[x] == Zero()
  }
}
