/** Disk images read as stores of files, and the writing stages of write_file on images. */
module Images {
  import opened Bits
  import opened Words
  import opened Disk
  import opened Allocation
  import opened Bitmap
  import opened Inodes
  import opened Files

  ghost function TableOf(d: Image): (t: seq<Inode>)
    ensures |t| == 1023 && forall i | 0 <= i < 1023 :: t[i] == InodeOf(d[IBlock(i)])
  {
    seq(1023, i requires 0 <= i < 1023 => InodeOf(d[IBlock(i)]))
  }

  ghost function PointersOf(d: Image): (p: seq<Pointers>)
    ensures |p| == BLOCK_NUM && forall n | 0 <= n < BLOCK_NUM :: p[n] == WordsOf(d[n], NINDIRECT)
  {
    seq(BLOCK_NUM, n requires 0 <= n < BLOCK_NUM => WordsOf(d[n], NINDIRECT))
  }

  ghost function StoreOf(d: Image): Store
  {
    Parts(Used(d), TableOf(d), PointersOf(d), d)
  }

  /** Bits of the bitmap do not matter to inodes and data. */
  lemma SameDataSame(d: Image, d': Image)
    requires SameData(d, d')
    ensures TableOf(d') == TableOf(d)
    ensures forall b | RESERVED <= b < BLOCK_NUM :: d'[b] == d[b] && PointersOf(d')[b] == PointersOf(d)[b]
  {
    forall i | 0 <= i < 1023 ensures d'[IBlock(i)] == d[IBlock(i)] {
    }
  }

  lemma UsedFramed(d: Image, d': Image)
    requires forall x | 2 <= x < 10 :: d'[x] == d[x]
    ensures Used(d') == Used(d)
  {
    forall b | 0 <= b < BLOCK_NUM ensures Bit(d', b) <==> Bit(d, b) {
      assert 2 <= BBlock(b) < 10;
    }
  }

  function InodePut(d: Image, i: nat, ino: Inode): Image
    requires IsInum(i)
  {
    Written(d, IBlock(i), WithInode(d[IBlock(i)], ino))
  }

  /** Writing an inode's block changes that inode and nothing else. */
  lemma InodeBlockWritten(d: Image, d': Image, i: nat, b: Block)
    requires IsInum(i) && d' == Written(d, IBlock(i), b)
    ensures TableOf(d') == TableOf(d)[i := InodeOf(b)] && Used(d') == Used(d)
    ensures forall b | RESERVED <= b < BLOCK_NUM :: d'[b] == d[b] && PointersOf(d')[b] == PointersOf(d)[b]
  {
    UsedFramed(d, d');
    forall j | 0 <= j < 1023 ensures d'[IBlock(j)] == if j == i then b else d[IBlock(j)] {
    }
  }

  lemma InodePutIs(d: Image, d': Image, i: nat, ino: Inode)
    requires IsInum(i) && d' == InodePut(d, i, ino)
    ensures StoreOf(d').table == StoreOf(d).table[i := ino] && StoreOf(d').used == StoreOf(d).used
    ensures SameBlocksOfData(StoreOf(d), StoreOf(d'))
  {
    InodeBlockWritten(d, d', i, WithInode(d[IBlock(i)], ino));
    InodeRound(d[IBlock(i)], ino);
  }

  lemma WordsPrefix(d: Image, n: nat, m: nat)
    requires n < BLOCK_NUM && m <= NINDIRECT
    ensures WordsOf(d[n], m) == PointersAt(StoreOf(d), n)[..m]
  {
  }

  // ---- the writing loops -----------------------------------------------------------------

  /** The content, block by block. */
  ghost function Chunks(content: seq<U8>, junk: Block): (c: seq<Block>)
    ensures |c| == Blocks(|content|) && forall j | 0 <= j < |c| :: c[j] == Chunk(content, j, junk)
  {
    seq(Blocks(|content|), j requires 0 <= j < Blocks(|content|) => Chunk(content, j, junk))
  }

  /** The first n of these blocks written to the blocks numbered bs. */
  ghost function Filled(d: Image, bs: seq<U32>, chunks: seq<Block>, n: nat): Image
    requires n <= |bs| && n <= |chunks|
  {
    if n == 0 then d else Written(Filled(d, bs, chunks, n - 1), bs[n - 1], chunks[n - 1])
  }

  lemma {:induction false} FilledKeeps(d: Image, bs: seq<U32>, chunks: seq<Block>, n: nat, x: nat)
    requires n <= |bs| && n <= |chunks| && x < BLOCK_NUM && forall j | 0 <= j < n :: bs[j] != x
    ensures Filled(d, bs, chunks, n)[x] == d[x]
  {
    if n > 0 {
      FilledKeeps(d, bs, chunks, n - 1, x);
    }
  }

  lemma {:induction false} FilledHolds(d: Image, bs: seq<U32>, chunks: seq<Block>, n: nat, j: nat)
    requires j < n <= |bs| && n <= |chunks| && Distinct(bs) && bs[j] < BLOCK_NUM
    ensures Filled(d, bs, chunks, n)[bs[j]] == chunks[j]
  {
    if j < n - 1 {
      FilledHolds(d, bs, chunks, n - 1, j);
      assert bs[j] != bs[n - 1];
    }
  }

  lemma FilledNext(d: Image, bs: seq<U32>, chunks: seq<Block>, n: nat, b: U32)
    requires n < |bs| && n < |chunks| && bs[n] == b
    ensures Filled(d, bs, chunks, n + 1) == Written(Filled(d, bs, chunks, n), b, chunks[n])
  {
  }

  lemma {:induction false} FilledPrefix(d: Image, bs: seq<U32>, bs': seq<U32>, chunks: seq<Block>, n: nat)
    requires n <= |bs| && n <= |bs'| && n <= |chunks| && forall j | 0 <= j < n :: bs[j] == bs'[j]
    ensures Filled(d, bs, chunks, n) == Filled(d, bs', chunks, n)
  {
    if n > 0 {
      FilledPrefix(d, bs, bs', chunks, n - 1);
    }
  }

  /** The pointer block, once it is written. */
  function Pointed(d: Image, a: seq<U32>): Image
    requires |a| <= NDIRECT + 1 + NINDIRECT
  {
    if |a| > NDIRECT then Written(d, a[NDIRECT], PutWords(Zero(), 0, a[NDIRECT + 1..])) else d
  }

  /** The blocks that the writing loops fill.  The numbers of the indirect ones are read back from
      the pointer block once the direct blocks are written. */
  ghost function Targets(d3: Image, a: seq<U32>, chunks: seq<Block>): (bs: seq<U32>)
    requires |a| == TotalBlocks(|chunks|) && |chunks| <= NDIRECT + NINDIRECT
    ensures |bs| == |chunks|
  {
    if |a| <= NDIRECT then a
    else a[..NDIRECT] + WordsOf(BlockAt(Filled(d3, a[..NDIRECT], chunks, NDIRECT), a[NDIRECT]), |a| - NDIRECT - 1)
  }

  /** The blocks for each of the two loops. */
  lemma TargetsParts(d3: Image, a: seq<U32>, chunks: seq<Block>, bs: seq<U32>)
    requires |a| == TotalBlocks(|chunks|) && |chunks| <= NDIRECT + NINDIRECT && bs == Targets(d3, a, chunks)
    ensures |a| <= NDIRECT ==> bs[0..|bs|] == a
    ensures |a| > NDIRECT ==> bs[0..NDIRECT] == a[..NDIRECT]
    ensures |a| > NDIRECT ==>
      bs[NDIRECT..|bs|] == WordsOf(BlockAt(Filled(d3, bs, chunks, NDIRECT), a[NDIRECT]), |bs| - NDIRECT)
  {
    if |a| > NDIRECT {
      FilledPrefix(d3, a[..NDIRECT], bs, chunks, NDIRECT);
    }
  }

  /** Read back, they are the numbers handed out, if no direct block overwrote them. */
  lemma TargetsAre(d2: Image, a: seq<U32>, chunks: seq<Block>)
    requires |a| == TotalBlocks(|chunks|) && |chunks| <= NDIRECT + NINDIRECT
    requires |a| > NDIRECT ==> a[NDIRECT] < BLOCK_NUM && forall j | 0 <= j < NDIRECT :: a[j] != a[NDIRECT]
    ensures Targets(Pointed(d2, a), a, chunks) == DataPart(a)
  {
    if |a| > NDIRECT {
      FilledKeeps(Pointed(d2, a), a[..NDIRECT], chunks, NDIRECT, a[NDIRECT]);
      PointersRound(Zero(), a[NDIRECT + 1..]);
    }
  }

  /** The disk after the last loop, from the disk d2 on which the numbers a were allocated. */
  ghost function Stored(d2: Image, a: seq<U32>, chunks: seq<Block>): Image
    requires |a| == TotalBlocks(|chunks|) && |chunks| <= NDIRECT + NINDIRECT
  {
    Filled(Pointed(d2, a), Targets(Pointed(d2, a), a, chunks), chunks, |chunks|)
  }

  lemma StoredPointers(d2: Image, a: seq<U32>, chunks: seq<Block>, p: nat)
    requires |a| == TotalBlocks(|chunks|) && |chunks| <= NDIRECT + NINDIRECT && |a| > NDIRECT
    requires OnlyZeroRepeats(a) && a[NDIRECT] == p != 0 && p < BLOCK_NUM
    ensures Stored(d2, a, chunks)[p] == PutWords(Zero(), 0, a[NDIRECT + 1..])
  {
    TargetsAre(d2, a, chunks);
    FilledKeeps(Pointed(d2, a), DataPart(a), chunks, |chunks|, p);
  }

  lemma DataPartDistinct(a: seq<U32>)
    requires Distinct(a) && DataOnly(a)
    ensures Distinct(DataPart(a)) && DataOnly(DataPart(a))
  {
  }

  lemma StoredChunk(d2: Image, a: seq<U32>, chunks: seq<Block>, j: nat)
    requires |a| == TotalBlocks(|chunks|) && |chunks| <= NDIRECT + NINDIRECT && Distinct(a) && DataOnly(a)
    requires j < |chunks|
    ensures Stored(d2, a, chunks)[DataPart(a)[j]] == chunks[j]
  {
    TargetsAre(d2, a, chunks);
    DataPartDistinct(a);
    FilledHolds(Pointed(d2, a), DataPart(a), chunks, |chunks|, j);
  }

  lemma DataPartMisses(a: seq<U32>, x: nat)
    requires x !in a
    ensures forall j | 0 <= j < |DataPart(a)| :: DataPart(a)[j] != x
  {
  }

  lemma PointedKeeps(d: Image, a: seq<U32>, x: nat)
    requires |a| <= NDIRECT + 1 + NINDIRECT && x < BLOCK_NUM && x !in a
    ensures Pointed(d, a)[x] == d[x]
  {
  }

  lemma StoredKeeps(d2: Image, a: seq<U32>, chunks: seq<Block>, x: nat)
    requires |a| == TotalBlocks(|chunks|) && |chunks| <= NDIRECT + NINDIRECT && Distinct(a) && DataOnly(a)
    requires x < BLOCK_NUM && x !in a
    ensures Stored(d2, a, chunks)[x] == d2[x]
  {
    PointedKeeps(d2, a, x);
    TargetsAre(d2, a, chunks);
    DataPartMisses(a, x);
    FilledKeeps(Pointed(d2, a), DataPart(a), chunks, |chunks|, x);
  }

  /** The stages of write_file, put together: the old blocks are freed and new ones allocated on
      d2, the pointers and the content are stored, and the inode is written. */
  ghost predicate Staged(d: Image, d2: Image, d': Image, i: nat, a: seq<U32>, content: seq<U8>, junk: Block, now: U32)
    requires IsInum(i) && |content| <= MAX_SIZE
  {
    && a == Numbers(StoreOf(d), i, |content|)
    && SameData(d, d2) && Used(d2) == Taken(Rest(StoreOf(d), i), |a|)
    && d' == InodePut(Stored(d2, a, Chunks(content, junk)), i, NewInode(InodeOf(d[IBlock(i)]), a, |content|, now))
  }

  /** The inode that write_file leaves: its size and two of its times are new. */
  lemma StagedInode(d: Image, d2: Image, d': Image, i: nat, a: seq<U32>, content: seq<U8>, junk: Block, now: U32)
    requires IsInum(i) && |content| <= MAX_SIZE && Staged(d, d2, d', i, a, content, junk, now)
    ensures var ino, ino' := InodeOf(d[IBlock(i)]), InodeOf(d'[IBlock(i)]);
            ino' == Inode(ino.typ, |content|, ino.atime, now, now, ino'.blocks)
  {
    var d5 := Stored(d2, a, Chunks(content, junk));
    InodeRound(d5[IBlock(i)], NewInode(InodeOf(d[IBlock(i)]), a, |content|, now));
  }

  lemma StagedSpread(d: Image, d2: Image, d': Image, i: nat, a: seq<U32>, content: seq<U8>, junk: Block, now: U32)
    requires IsInum(i) && |content| <= MAX_SIZE && Staged(d, d2, d', i, a, content, junk, now)
    requires Distinct(a) && DataOnly(a)
    ensures Spread(StoreOf(d), StoreOf(d'), i, a, content, junk)
  {
    var d5, ino' := Stored(d2, a, Chunks(content, junk)), NewInode(InodeOf(d[IBlock(i)]), a, |content|, now);
    InodePutIs(d5, d', i, ino');
    forall x | 0 <= x < BLOCK_NUM && x !in a ensures d5[x] == d2[x] {
      StoredKeeps(d2, a, Chunks(content, junk), x);
    }
    StoredElsewhere(d, d2, d5, a);
    forall j | 0 <= j < Blocks(|content|) ensures d'[DataPart(a)[j]] == Chunk(content, j, junk) {
      StoredChunk(d2, a, Chunks(content, junk), j);
    }
  }

  lemma StoredElsewhere(d: Image, d2: Image, d5: Image, a: seq<U32>)
    requires SameData(d, d2) && DataOnly(a) && forall x | 0 <= x < BLOCK_NUM && x !in a :: d5[x] == d2[x]
    ensures TableOf(d5) == TableOf(d) && Used(d5) == Used(d2)
    ensures forall x | RESERVED <= x < BLOCK_NUM && x !in a :: d5[x] == d[x] && PointersOf(d5)[x] == PointersOf(d)[x]
  {
    forall x | 0 <= x < RESERVED ensures d5[x] == d2[x] {
      assert x !in a;
    }
    UsedFramed(d2, d5);
    forall i | 0 <= i < 1023 ensures d5[IBlock(i)] == d[IBlock(i)] {
    }
  }

  lemma StagedPointers(d5: Image, d': Image, p: nat, ptrs: seq<U32>)
    requires p < BLOCK_NUM && |ptrs| <= NINDIRECT && d'[p] == d5[p] == PutWords(Zero(), 0, ptrs)
    ensures PointersOf(d')[p][..|ptrs|] == ptrs
  {
    PointersRound(Zero(), ptrs);
    WordsPrefix(d', p, |ptrs|);
  }

  /** What the stages do is what write_file is said to do. */
  lemma StagedWrote(d: Image, d2: Image, d': Image, i: nat, a: seq<U32>, content: seq<U8>, junk: Block, now: U32)
    requires IsInum(i) && |content| <= MAX_SIZE && Staged(d, d2, d', i, a, content, junk, now)
    ensures Wrote(StoreOf(d), StoreOf(d'), i, a, content, junk, now)
  {
    var d5, ino' := Stored(d2, a, Chunks(content, junk)), NewInode(InodeOf(d[IBlock(i)]), a, |content|, now);
    InodePutIs(d5, d', i, ino');
    if |a| > NDIRECT && OnlyZeroRepeats(a) && a[NDIRECT] != 0 {
      StoredPointers(d2, a, Chunks(content, junk), a[NDIRECT]);
      StagedPointers(d5, d', a[NDIRECT], a[NDIRECT + 1..]);
    }
    if Distinct(a) && DataOnly(a) {
      StagedSpread(d, d2, d', i, a, content, junk, now);
    }
  }

  // ---- finding a free inode --------------------------------------------------------------

  /** n is the first inode number, from 1 on, whose type field is 0; 1024 when there is none.  The
      search looks at block 1034 for inode 1023. */
  ghost predicate IsFirstDead(d: Image, n: nat)
  {
    && 1 <= n <= INODE_NUM
    && (forall j | 1 <= j < n :: TypeOf(d[IBlock(j)]) != 0)
    && (n < INODE_NUM ==> TypeOf(d[IBlock(n)]) == 0)
  }

  ghost predicate InodeLeft(d: Image)
  {
    exists k: nat :: IsInum(k) && TypeOf(d[IBlock(k)]) == 0
  }

  /** What alloc_inode returns, and the disk it leaves. */
  ghost predicate Born(d: Image, d': Image, inum: nat, t: U16, now: U32)
  {
    || (IsFirstDead(d, inum) && inum < INODE_NUM && d' == Written(d, IBlock(inum), WithBirth(d[IBlock(inum)], t, now)))
    || (IsFirstDead(d, INODE_NUM) && inum == 1 && d' == d)
  }

  /** alloc_inode hands out an inode with storage of its own exactly when one of 1..1022 is free.
      Otherwise it returns the root's number, or takes the first data block for an inode and
      overwrites what it holds. */
  lemma FreshExactlyWhenLeft(d: Image, d': Image, inum: nat, t: U16, now: U32)
    requires Born(d, d', inum, t, now) && t != 0
    ensures IsInum(inum) && TypeOf(d[IBlock(inum)]) == 0 <==> InodeLeft(d)
    ensures !InodeLeft(d) ==> (inum == 1 && d' == d) || (inum == 1023 && d'[RESERVED] != d[RESERVED])
  {
    if InodeLeft(d) {
      var k: nat :| IsInum(k) && TypeOf(d[IBlock(k)]) == 0;
    } else if inum != 1 || d' != d {
      assert IsFirstDead(d, inum) && !IsInum(inum);
      BirthInode(d[RESERVED], t, now);
    }
  }

  lemma BirthRestamps(d: Image, d': Image, inum: nat, t: U16, now: U32, ino: Inode)
    requires IsInum(inum) && d' == Written(d, IBlock(inum), WithBirth(d[IBlock(inum)], t, now))
    requires ino == InodeOf(d[IBlock(inum)]).(typ := t, ctime := now)
    ensures Restamped(StoreOf(d), StoreOf(d'), inum, ino)
  {
    BirthInode(d[IBlock(inum)], t, now);
    InodeBlockWritten(d, d', inum, WithBirth(d[IBlock(inum)], t, now));
  }

  lemma TableType(d: Image, i: nat)
    requires IsInum(i)
    ensures Live(StoreOf(d), i) <==> TypeOf(d[IBlock(i)]) != 0
  {
  }

  lemma InvOf(v: Store, i: nat)
    requires FsInv(v) && IsInum(i)
    ensures InodeInv(v, i)
  {
  }

  /** With an inode left, alloc_inode adds one empty file of the given type, under the least free
      number. */
  lemma AllocInodeCorrect(d: Image, d': Image, inum: nat, t: U16, now: U32)
    requires FsInv(StoreOf(d)) && InodeLeft(d) && t != 0 && Born(d, d', inum, t, now)
    ensures FsInv(StoreOf(d')) && IsInum(inum) && inum !in LiveFiles(StoreOf(d))
    ensures LiveFiles(StoreOf(d')) == LiveFiles(StoreOf(d))[inum := File(t, [])]
  {
    FreshExactlyWhenLeft(d, d', inum, t, now);
    var ino := InodeOf(d[IBlock(inum)]).(typ := t, ctime := now);
    BirthRestamps(d, d', inum, t, now, ino);
    TableType(d, inum);
    BirthAddsFile(StoreOf(d), StoreOf(d'), inum, ino);
  }

  /** The number handed out is the least that is free. */
  lemma LeastFreeInode(d: Image, d': Image, inum: nat, t: U16, now: U32, k: nat)
    requires FsInv(StoreOf(d)) && Born(d, d', inum, t, now) && IsInum(k) && k < inum
    ensures k in LiveFiles(StoreOf(d))
  {
    TableType(d, k);
    InvOf(StoreOf(d), k);
    LiveIsFile(StoreOf(d), k);
  }

  /** The two fields of a formatted disk's inodes that matter. */
  ghost predicate BlankFields(d: Image)
  {
    forall i: nat | IsInum(i) :: TypeOf(d[IBlock(i)]) == 0 && Word(d[IBlock(i)], 1) == 0
  }

  lemma FormattedFields(blank: Image, z: Block, n: nat)
    requires n == RESERVED && forall x | 0 <= x < BLOCK_NUM :: blank[x] == z
    requires forall k | 0 <= k < BLOCK_SIZE :: z[k] == 0
    ensures Used(AllocTimes(blank, n)) == Below(RESERVED) && BlankFields(AllocTimes(blank, n))
  {
    FormattedDisk(blank, z, n);
    var d := AllocTimes(blank, n);
    forall i: nat | IsInum(i) ensures TypeOf(d[IBlock(i)]) == 0 && Word(d[IBlock(i)], 1) == 0 {
      assert d[IBlock(i)] == z;
    }
  }

  /** A formatted disk holds no file. */
  lemma FormattedFs(d: Image)
    requires Used(d) == Below(RESERVED) && BlankFields(d)
    ensures FsInv(StoreOf(d)) && LiveFiles(StoreOf(d)) == map[]
  {
    BlankStore(StoreOf(d));
  }

  lemma FormattedIsFs(d: Image)
    requires Formatted(d)
    ensures FsInv(StoreOf(d)) && LiveFiles(StoreOf(d)) == map[] && TypeOf(d[IBlock(1)]) == 0
  {
    var blank: Image :| Blank(blank) && d == AllocTimes(blank, RESERVED);
    FormattedFields(blank, Zero(), RESERVED);
    FormattedFs(d);
    assert IsInum(1);
  }

  /** Formatting leaves the blocks after the bitmap without inodes. */
  lemma FormattedFirst(d: Image)
    requires Formatted(d)
    ensures TypeOf(d[IBlock(0)]) == 0 && TypeOf(d[RESERVED]) == 0
  {
    var blank: Image :| Blank(blank) && d == AllocTimes(blank, RESERVED);
    FormattedDisk(blank, Zero(), RESERVED);
    assert d[IBlock(0)] == Zero() && d[RESERVED] == Zero();
  }

  /** Freed blocks and a cleared inode: a file removed. */
  lemma RemovedIs(d: Image, d1: Image, d': Image, i: nat)
    requires IsInum(i) && SameData(d, d1) && Used(d1) == Used(d) - OwnedSet(StoreOf(d), i)
    requires d' == InodePut(d1, i, NoInode())
    ensures Removed(StoreOf(d), StoreOf(d'), i)
  {
    SameDataSame(d, d1);
    InodePutIs(d1, d', i, NoInode());
  }

  lemma NoFile(v: Store, i: nat)
    requires IsInum(i) ==> !Live(v, i)
    ensures i !in LiveFiles(v) && LiveFiles(v) - {i} == LiveFiles(v)
  {
  }
}
