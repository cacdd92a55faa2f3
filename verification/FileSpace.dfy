/** How much room the files of a disk take, and when a write fits. */
module FileSpace {
  import opened Bits
  import opened Words
  import opened Disk
  import opened Allocation
  import opened Inodes
  import opened Files

  // ---- conservation --------------------------------------------------------------------

  function Sum(ns: seq<nat>): nat
  {
    if ns == [] then 0 else Sum(ns[..|ns| - 1]) + ns[|ns| - 1]
  }

  ghost function Union(ss: seq<set<nat>>): set<nat>
  {
    if ss == [] then {} else Union(ss[..|ss| - 1]) + ss[|ss| - 1]
  }

  lemma {:induction false} InUnion(ss: seq<set<nat>>, b: nat)
    ensures b in Union(ss) <==> exists k :: 0 <= k < |ss| && b in ss[k]
  {
    if ss != [] {
      var init := ss[..|ss| - 1];
      InUnion(init, b);
      if b in Union(init) {
        var k :| 0 <= k < |init| && b in init[k];
        assert b in ss[k];
      }
      if k :| 0 <= k < |init| && b in ss[k] {
        assert b in init[k];
      }
    }
  }

  lemma {:induction false} UnionSize(ss: seq<set<nat>>, ns: seq<nat>)
    requires |ns| == |ss| && forall k | 0 <= k < |ss| :: |ss[k]| == ns[k]
    requires forall j, k | 0 <= j < k < |ss| :: ss[j] !! ss[k]
    ensures |Union(ss)| == Sum(ns)
  {
    if ss != [] {
      var init, last := ss[..|ss| - 1], ss[|ss| - 1];
      UnionSize(init, ns[..|ns| - 1]);
      forall b | b in Union(init) ensures b !in last {
        InUnion(init, b);
        var k :| 0 <= k < |init| && b in init[k];
        assert ss[k] !! ss[|ss| - 1];
      }
    }
  }

  ghost function OwnedSets(v: Store): (ss: seq<set<nat>>)
    ensures |ss| == 1022 && forall k | 0 <= k < 1022 :: ss[k] == OwnedSet(v, k + 1)
  {
    seq(1022, k requires 0 <= k < 1022 => OwnedSet(v, k + 1))
  }

  /** The blocks inode i accounts for. */
  function BlocksOf(v: Store, i: nat): nat
    requires IsInum(i)
  {
    TotalBlocks(Blocks(v.table[i].size))
  }

  function BlockCounts(v: Store): (ns: seq<nat>)
    ensures |ns| == 1022 && forall k | 0 <= k < 1022 :: ns[k] == BlocksOf(v, k + 1)
  {
    seq(1022, k requires 0 <= k < 1022 => BlocksOf(v, k + 1))
  }

  /** The blocks that all files need together, counted from their sizes. */
  function BlocksOwned(v: Store): nat
  {
    Sum(BlockCounts(v))
  }

  lemma OwnedSize(v: Store, i: nat)
    requires IsInum(i) && InodeInv(v, i)
    ensures |OwnedSet(v, i)| == BlocksOf(v, i)
  {
    DistinctSize(Owned(v, v.table[i]));
  }

  lemma OwnedSetsSize(v: Store)
    requires FsInv(v)
    ensures |Union(OwnedSets(v))| == BlocksOwned(v)
  {
    var ss, ns := OwnedSets(v), BlockCounts(v);
    forall k | 0 <= k < 1022 ensures |ss[k]| == ns[k] {
      OwnedSize(v, k + 1);
    }
    forall j, k | 0 <= j < k < 1022 ensures ss[j] !! ss[k] {
      assert IsInum(j + 1) && IsInum(k + 1);
    }
    UnionSize(ss, ns);
  }

  lemma OwnedInUnion(v: Store, b: nat)
    ensures b in Union(OwnedSets(v)) <==> exists i: nat :: Owner(v, b, i)
  {
    var ss := OwnedSets(v);
    InUnion(ss, b);
    if b in Union(ss) {
      var k :| 0 <= k < |ss| && b in ss[k];
      assert Owner(v, b, k + 1);
    }
    if i: nat :| Owner(v, b, i) {
      assert b in ss[i - 1];
    }
  }

  /** The marked blocks, told apart. */
  lemma UsedSplit(v: Store)
    requires FsInv(v)
    ensures v.used == Below(RESERVED) + Union(OwnedSets(v)) && Below(RESERVED) !! Union(OwnedSets(v))
  {
    forall b | b in Union(OwnedSets(v)) ensures b in v.used && b !in Below(RESERVED) {
      OwnedInUnion(v, b);
      var i: nat :| Owner(v, b, i);
      assert InodeInv(v, i) && OwnedSet(v, i) <= v.used;
      OwnedRange(v, i);
    }
    forall b | b in v.used ensures b in Below(RESERVED) + Union(OwnedSets(v)) {
      OwnedInUnion(v, b);
      assert b < RESERVED ==> Before(b, RESERVED);
    }
  }

  /** No block is lost: the marked blocks are the 1034 reserved ones and those the files need, so
      the number of free blocks is 31734 less the blocks owned. */
  lemma BlocksConserved(v: Store)
    requires FsInv(v) && v.used <= Below(BLOCK_NUM)
    ensures |v.used| == RESERVED + BlocksOwned(v)
    ensures |Below(BLOCK_NUM) - v.used| == 31734 - BlocksOwned(v)
  {
    OwnedSetsSize(v);
    UsedSplit(v);
    BelowSize(RESERVED);
    BelowSize(BLOCK_NUM);
    SubsetSize(v.used, Below(BLOCK_NUM));
  }

  /** Room, as a caller can count it from the sizes of the files. */
  lemma RoomBySizes(v: Store, i: nat, size: nat)
    requires FsInv(v) && v.used <= Below(BLOCK_NUM) && IsInum(i)
    ensures RoomFor(v, i, size) <==> BlocksOwned(v) - BlocksOf(v, i) + TotalBlocks(Blocks(size)) <= 31734
  {
    BlocksConserved(v);
    assert InodeInv(v, i) && OwnedSet(v, i) <= v.used;
    OwnedSize(v, i);
    SubsetSize(OwnedSet(v, i), v.used);
  }

  // ---- a disk that runs out ------------------------------------------------------------

  /** A number 0 handed out last ends up among the blocks the file owns. */
  lemma ZeroIsOwned(v: Store, a: seq<U32>, ino: Inode)
    requires ino.size <= MAX_SIZE && |a| == TotalBlocks(Blocks(ino.size)) && |a| > 0 && a[|a| - 1] == 0
    requires forall k | 0 <= k <= NDIRECT && k < |a| :: ino.blocks[k] == a[k]
    requires |a| > NDIRECT && a[NDIRECT] != 0 ==>
      a[NDIRECT] < BLOCK_NUM && v.words[a[NDIRECT]][..|a| - NDIRECT - 1] == a[NDIRECT + 1..]
    ensures !DataOnly(Owned(v, ino))
  {
    var n := Blocks(ino.size);
    if n <= NDIRECT {
      assert Owned(v, ino)[n - 1] == 0;
    } else if a[NDIRECT] == 0 {
      assert Owned(v, ino)[n] == 0;
    } else {
      NewBlocks(v, ino, a);
      assert Owned(v, ino)[n - 1] == a[n];
    }
  }

  lemma NumbersRunOut(v: Store, i: nat, size: nat, a: seq<U32>)
    requires FsInv(v) && v.used <= Below(BLOCK_NUM) && IsInum(i) && !RoomFor(v, i, size) && a == Numbers(v, i, size)
    ensures |a| > 0 && a[|a| - 1] == 0 && OnlyZeroRepeats(a)
  {
    assert InodeInv(v, i);
    OwnedRange(v, i);
    RunsOut(Rest(v, i), TotalBlocks(Blocks(size)));
  }

  /** write_file keeps the disk sound exactly when there is room for the content; without room the
      file comes to own block 0. */
  lemma WriteSoundExactlyWhenRoom(v: Store, v': Store, i: nat, a: seq<U32>, content: seq<U8>, junk: Block, now: U32)
    requires FsInv(v) && v.used <= Below(BLOCK_NUM) && IsInum(i) && Live(v, i) && |content| <= MAX_SIZE
    requires Wrote(v, v', i, a, content, junk, now)
    ensures FsInv(v') <==> RoomFor(v, i, |content|)
  {
    if RoomFor(v, i, |content|) {
      WriteStoresFile(v, v', i, a, content, junk, now);
    } else {
      NumbersRunOut(v, i, |content|, a);
      ZeroIsOwned(v', a, v'.table[i]);
      assert !InodeInv(v', i);
    }
  }
}
