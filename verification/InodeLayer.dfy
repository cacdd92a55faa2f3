/** The inode_manager class: its methods, loop by loop. */
module InodeLayer {
  import opened Options
  import opened Bits
  import opened Words
  import opened Disk
  import opened Allocation
  import opened Bitmap
  import opened Inodes
  import opened Files
  import opened Images
  import opened FileRuns

  /** The cast of a type to the inode's 16-bit field. */
  function Short(t: U32): (r: U16)
    ensures exists q: nat :: t == 65536 * q + r
  {
    assert t == 65536 * (t / 65536) + t % 65536;
    t % 65536
  }

  function Min(a: nat, b: nat): nat
  {
    if a < b then a else b
  }

  /** Inode 0 and inode 1023 have no storage of their own; they can be asked for while the type field
      found for them is 0. */
  predicate Addressable(d: Image, inum: nat)
  {
    IsInum(inum) || inum >= INODE_NUM || TypeOf(d[IBlock(inum)]) == 0
  }

  // ---- facts the loops need --------------------------------------------------------------

  lemma SameDataMore(d: Image, d1: Image, d2: Image)
    requires SameData(d, d1) && SameData(d1, d2)
    ensures SameData(d, d2)
  {
  }

  /** One more number entered in the block table. */
  lemma EnteredOneMore(blocks: seq<U32>, a: seq<U32>, x: U32)
    requires |blocks| == NDIRECT + 1 && |a| <= NDIRECT
    ensures Entered(blocks, a + [x]) == Entered(blocks, a)[|a| := x]
  {
  }

  /** One more block gathered. */
  lemma GatherOneMore(d: Image, bs: seq<U32>, b: U32, n: nat)
    requires b < BLOCK_NUM && n <= BLOCK_SIZE
    ensures Gather(d, bs + [b], BLOCK_SIZE * |bs| + n) == Gather(d, bs, BLOCK_SIZE * |bs|) + d[b][..n]
  {
    var s, t := Gather(d, bs + [b], BLOCK_SIZE * |bs| + n), Gather(d, bs, BLOCK_SIZE * |bs|) + d[b][..n];
    forall k | 0 <= k < |s| ensures s[k] == t[k] {
      if k < BLOCK_SIZE * |bs| {
        assert k / BLOCK_SIZE < |bs|;
      } else {
        assert k / BLOCK_SIZE == |bs| && k % BLOCK_SIZE == k - BLOCK_SIZE * |bs|;
      }
    }
  }

  lemma GatherMore(d: Image, bs: seq<U32>, more: seq<U32>, n: nat)
    requires Blocks(n) <= |bs|
    ensures Gather(d, bs + more, n) == Gather(d, bs, n)
  {
  }

  /** One more pointer in the block of pointers. */
  lemma PointersOneMore(blank: Block, ptrs: seq<U32>, b: U32)
    requires |ptrs| < NINDIRECT
    ensures PutWords(blank, 0, ptrs + [b]) == PutWord(PutWords(blank, 0, ptrs), |ptrs|, b)
  {
    assert (ptrs + [b])[..|ptrs|] == ptrs;
  }

  /** The pointer block's number is the last one entered in the table. */
  lemma NewTable(blocks: seq<U32>, a0: seq<U32>, p: U32, rest: seq<U32>)
    requires |blocks| == NDIRECT + 1 && |a0| == NDIRECT
    ensures var a := a0 + ([p] + rest);
            && Entered(blocks, a0)[NDIRECT := p] == Entered(blocks, a)
            && a[NDIRECT] == p && a[NDIRECT + 1..] == rest
  {
  }

  lemma SliceAt(bs: seq<U32>, j0: nat, table: seq<U32>, k: nat)
    requires j0 + |table| <= |bs| && bs[j0..j0 + |table|] == table && k < |table|
    ensures bs[j0 + k] == table[k]
  {
  }

  /** A loop has done j blocks' worth of the size and stands at r. */
  predicate Reached(size: nat, j: nat, r: nat)
  {
    r == Min(size, BLOCK_SIZE * j)
  }

  lemma NextSize(size: nat, j: nat, r: nat)
    requires Reached(size, j, r) && r < size
    ensures r == BLOCK_SIZE * j && j < Blocks(size) && Reached(size, j + 1, r + Min(BLOCK_SIZE, size - r))
  {
  }

  lemma AllWritten(size: nat, j: nat, k: nat, r: nat)
    requires Reached(size, j, r) && j <= k <= Blocks(size) && (r >= size || j == k)
    ensures j == k
  {
  }

  /** The direct blocks hold everything exactly when no more are needed. */
  lemma DirectSize(size: nat, n: nat, r: nat)
    requires n == Blocks(size) && Reached(size, Min(n, NDIRECT), r)
    ensures r < size <==> n > NDIRECT
  {
  }

  /** The parts of what a file owns. */
  lemma OwnedIs(d: Image, ino: Inode, direct: seq<U32>, rest: seq<U32>)
    requires ino.size <= MAX_SIZE && Blocks(ino.size) > NDIRECT && ino.blocks[NDIRECT] < BLOCK_NUM
    requires direct == ino.blocks[..NDIRECT] && rest == WordsOf(d[ino.blocks[NDIRECT]], Blocks(ino.size) - NDIRECT)
    ensures DataBlocks(StoreOf(d), ino) == direct + rest
    ensures Owned(StoreOf(d), ino) == direct + rest + [ino.blocks[NDIRECT]]
  {
    WordsPrefix(d, ino.blocks[NDIRECT], Blocks(ino.size) - NDIRECT);
  }

  lemma PointerOnDisk(v: Store, ino: Inode)
    requires ino.size <= MAX_SIZE && Blocks(ino.size) > NDIRECT && DataOnly(Owned(v, ino))
    ensures RESERVED <= ino.blocks[NDIRECT] < BLOCK_NUM && DataOnly(ino.blocks[..NDIRECT])
  {
    var owned := Owned(v, ino);
    assert owned[|owned| - 1] == ino.blocks[NDIRECT];
    forall k | 0 <= k < NDIRECT ensures RESERVED <= ino.blocks[..NDIRECT][k] < BLOCK_NUM {
      assert owned[k] == ino.blocks[k];
    }
  }

  lemma DataOnlyParts(direct: seq<U32>, rest: seq<U32>, p: U32)
    requires DataOnly(direct + rest + [p])
    ensures DataOnly(direct) && DataOnly(rest) && RESERVED <= p < BLOCK_NUM
  {
    var s := direct + rest + [p];
    assert forall k | 0 <= k < |direct| :: s[k] == direct[k];
    assert forall k | 0 <= k < |rest| :: s[|direct| + k] == rest[k];
    assert s[|s| - 1] == p;
  }

  lemma ElemsParts(direct: seq<U32>, rest: seq<U32>, p: U32)
    ensures Elems(direct + rest + [p]) == Elems(direct) + Elems(rest) + {p}
  {
  }

  lemma OwnedParts(d: Image, ino: Inode, direct: seq<U32>, rest: seq<U32>, p: U32)
    requires ino.size <= MAX_SIZE && Blocks(ino.size) > NDIRECT && ino.blocks[NDIRECT] == p < BLOCK_NUM
    requires direct == ino.blocks[..NDIRECT] && rest == WordsOf(d[p], Blocks(ino.size) - NDIRECT)
    requires DataOnly(Owned(StoreOf(d), ino))
    ensures DataOnly(direct) && DataOnly(rest) && RESERVED <= p
    ensures Elems(Owned(StoreOf(d), ino)) == Elems(direct) + Elems(rest) + {p}
  {
    OwnedIs(d, ino, direct, rest);
    DataOnlyParts(direct, rest, p);
    ElemsParts(direct, rest, p);
  }

  class InodeManager {
    const bm: BlockManager

    ghost predicate Valid()
      reads this, bm, bm.disk
    {
      bm.Valid()
    }

    ghost function Contents(): Image
      requires Valid()
      reads this, bm, bm.disk, bm.disk.blocks
    {
      bm.Contents()
    }

    /** What is on the disk, as files. */
    ghost function State(): Store
      requires Valid()
      reads this, bm, bm.disk, bm.disk.blocks
    {
      StoreOf(Contents())
    }

    /** None for a number out of range and for a free inode. */
    method GetInode(inum: nat) returns (r: Option<Inode>)
      requires Valid()
      ensures r == if inum < INODE_NUM && TypeOf(Contents()[IBlock(inum)]) != 0
                   then Some(InodeOf(Contents()[IBlock(inum)])) else None
    {
      if inum >= INODE_NUM {
        return None;
      }
      var buf := bm.ReadBlock(IBlock(inum), Zero());
      var ino := InodeOf(buf);
      if ino.typ == 0 {
        return None;
      }
      r := Some(ino);
    }

    method PutInode(inum: nat, ino: Inode)
      requires Valid() && inum < INODE_NUM
      modifies bm.disk.blocks
      ensures Contents() == Written(old(Contents()), IBlock(inum), WithInode(old(Contents())[IBlock(inum)], ino))
    {
      var buf := bm.ReadBlock(IBlock(inum), Zero());
      buf := WithInode(buf, ino);
      bm.WriteBlock(IBlock(inum), buf);
    }

    /** Takes the first free inode; 1 is returned when there is none. */
    method AllocInode(t: U32, now: U32) returns (inum: nat)
      requires Valid()
      modifies bm.disk.blocks
      ensures Born(old(Contents()), Contents(), inum, Short(t), now)
    {
      inum := 1;
      while inum < INODE_NUM
        invariant 1 <= inum <= INODE_NUM && Contents() == old(Contents())
        invariant forall j | 1 <= j < inum :: TypeOf(Contents()[IBlock(j)]) != 0
      {
        var buf := bm.ReadBlock(IBlock(inum), Zero());
        if TypeOf(buf) == 0 {
          bm.WriteBlock(IBlock(inum), WithBirth(buf, Short(t), now));
          return;
        }
        inum := inum + 1;
      }
      inum := 1;
    }

    /** The source looks at the inode it got without a test, so it must be live. */
    method FreeInode(inum: nat)
      requires Valid() && inum < INODE_NUM && TypeOf(Contents()[IBlock(inum)]) != 0
      modifies bm.disk.blocks
      ensures Contents() == Written(old(Contents()), IBlock(inum), WithInode(old(Contents())[IBlock(inum)], NoInode()))
      ensures InodeOf(Contents()[IBlock(inum)]) == Inode(0, 0, 0, 0, 0, seq(NDIRECT + 1, k => 0))
    {
      InodeRound(Contents()[IBlock(inum)], NoInode());
      PutInode(inum, NoInode());
    }

    // ---- reading -------------------------------------------------------------------------

    /** The loop over one table of blocks; `prev` are the blocks read before. */
    method ReadBlocks(ghost prev: seq<U32>, table: seq<U32>, fsize: nat, res0: seq<U8>) returns (res: seq<U8>)
      requires Valid() && DataOnly(table)
      requires |res0| == Min(fsize, BLOCK_SIZE * |prev|) && res0 == Gather(Contents(), prev, |res0|)
      ensures |res| == Min(fsize, BLOCK_SIZE * (|prev| + |table|)) && res == Gather(Contents(), prev + table, |res|)
    {
      res := res0;
      var bnum := 0;
      assert prev + table[..0] == prev;
      while |res| < fsize && bnum < |table|
        invariant 0 <= bnum <= |table| && |res| == Min(fsize, BLOCK_SIZE * (|prev| + bnum))
        invariant res == Gather(Contents(), prev + table[..bnum], |res|)
        decreases |table| - bnum
      {
        var toread := Min(BLOCK_SIZE, fsize - |res|);
        var buf := bm.ReadBlock(table[bnum], Zero());
        GatherOneMore(Contents(), prev + table[..bnum], table[bnum], toread);
        assert prev + table[..bnum + 1] == prev + table[..bnum] + [table[bnum]];
        res := res + buf[..toread];
        bnum := bnum + 1;
      }
      GatherMore(Contents(), prev + table[..bnum], table[bnum..], |res|);
      assert prev + table == prev + table[..bnum] + table[bnum..];
    }

    /** The second loop, over the blocks that the pointer block lists. */
    method ReadIndirect(ino: Inode, res0: seq<U8>) returns (res: seq<U8>)
      requires Valid() && ino.size <= MAX_SIZE && Blocks(ino.size) > NDIRECT && DataOnly(Owned(State(), ino))
      requires |res0| == BLOCK_SIZE * NDIRECT && res0 == Gather(Contents(), ino.blocks[..NDIRECT], |res0|)
      ensures res == Content(State(), ino)
    {
      PointerOnDisk(State(), ino);
      var indnum := bm.ReadBlock(ino.blocks[NDIRECT], Zero());
      ghost var direct := ino.blocks[..NDIRECT];
      var rest := WordsOf(indnum, Blocks(ino.size) - NDIRECT);
      OwnedIs(Contents(), ino, direct, rest);
      OwnedParts(Contents(), ino, direct, rest, ino.blocks[NDIRECT]);
      DirectSize(ino.size, Blocks(ino.size), |res0|);
      res := ReadBlocks(direct, rest, ino.size, res0);
    }

    /** Both loops. */
    method ReadContent(ino: Inode) returns (res: seq<U8>)
      requires Valid() && ino.size <= MAX_SIZE && DataOnly(Owned(State(), ino))
      ensures res == Content(State(), ino)
    {
      var n := Blocks(ino.size);
      var direct := ino.blocks[..Min(n, NDIRECT)];
      if n > NDIRECT {
        PointerOnDisk(State(), ino);
      } else {
        assert Owned(State(), ino) == direct == DataBlocks(State(), ino);
      }
      res := ReadBlocks([], direct, ino.size, []);
      assert [] + direct == direct;
      DirectSize(ino.size, n, |res|);
      if |res| < ino.size {
        res := ReadIndirect(ino, res);
      }
    }

    method ReadFile(inum: nat, now: U32) returns (r: Option<seq<U8>>)
      requires Valid() && FsInv(State()) && Addressable(Contents(), inum)
      modifies bm.disk.blocks
      ensures inum !in LiveFiles(old(State())) ==> r == None && Contents() == old(Contents())
      ensures inum in LiveFiles(old(State())) ==> r == Some(LiveFiles(old(State()))[inum].data)
      ensures inum in LiveFiles(old(State())) ==> Does(old(Contents()), Contents(), Read(inum))
      ensures FsInv(State()) && LiveFiles(State()) == LiveFiles(old(State()))
      ensures inum in LiveFiles(old(State())) ==>
        && inum < INODE_NUM
        && InodeOf(Contents()[IBlock(inum)]) == old(InodeOf(Contents()[IBlock(inum)])).(atime := now, ctime := now)
    {
      var got := GetInode(inum);
      if got.None? {
        return None;
      }
      var ino := got.value;
      ghost var d := Contents();
      TableType(d, inum);
      InvOf(StoreOf(d), inum);
      LiveIsFile(StoreOf(d), inum);
      var res := ReadContent(ino);
      PutInode(inum, ino.(atime := now, ctime := now));
      InodeRound(d[IBlock(inum)], ino.(atime := now, ctime := now));
      ReadIs(d, Contents(), inum, now);
      ReadDoes(d, Contents(), inum);
      r := Some(res);
    }

    // ---- removing ------------------------------------------------------------------------

    method FreeBlocks(table: seq<U32>)
      requires Valid() && DataOnly(table)
      modifies bm.disk.blocks
      ensures SameData(old(Contents()), Contents()) && Used(Contents()) == Used(old(Contents())) - Elems(table)
    {
      var k := 0;
      ghost var d := Contents();
      while k < |table|
        invariant 0 <= k <= |table| && SameData(d, Contents()) && Used(Contents()) == Used(d) - Elems(table[..k])
      {
        ghost var d1 := Contents();
        bm.FreeBlock(table[k]);
        FreeUsed(d1, table[k]);
        SameDataMore(d, d1, Contents());
        assert table[..k + 1] == table[..k] + [table[k]];
        assert Elems(table[..k + 1]) == Elems(table[..k]) + {table[k]};
        k := k + 1;
      }
      assert table[..k] == table;
    }

    /** Frees indirect blocks and then their pointer block. */
    method FreeTail(rest: seq<U32>, p: U32)
      requires Valid() && DataOnly(rest) && RESERVED <= p < BLOCK_NUM
      modifies bm.disk.blocks
      ensures SameData(old(Contents()), Contents())
      ensures Used(Contents()) == Used(old(Contents())) - Elems(rest) - {p}
    {
      ghost var d := Contents();
      FreeBlocks(rest);
      ghost var d1 := Contents();
      bm.FreeBlock(p);
      FreeUsed(d1, p);
      SameDataMore(d, d1, Contents());
    }

    /** A file with indirect blocks is removed: these, their pointer block, and the direct blocks. */
    method FreeLargeForRemoval(ino: Inode)
      requires Valid() && ino.size <= MAX_SIZE && Blocks(ino.size) > NDIRECT && DataOnly(Owned(State(), ino))
      modifies bm.disk.blocks
      ensures SameData(old(Contents()), Contents())
      ensures Used(Contents()) == Used(old(Contents())) - Elems(Owned(old(State()), ino))
    {
      ghost var d := Contents();
      var direct, p := ino.blocks[..NDIRECT], ino.blocks[NDIRECT];
      PointerOnDisk(State(), ino);
      var indnum := bm.ReadBlock(p, Zero());
      var rest := WordsOf(indnum, Blocks(ino.size) - NDIRECT);
      OwnedParts(d, ino, direct, rest, p);
      FreeTail(rest, p);
      ghost var d1 := Contents();
      FreeBlocks(direct);
      SameDataMore(d, d1, Contents());
    }

    method FreeForRemoval(ino: Inode)
      requires Valid() && ino.size <= MAX_SIZE && DataOnly(Owned(State(), ino))
      modifies bm.disk.blocks
      ensures SameData(old(Contents()), Contents())
      ensures Used(Contents()) == Used(old(Contents())) - Elems(Owned(old(State()), ino))
    {
      var n := Blocks(ino.size);
      if n > NDIRECT {
        FreeLargeForRemoval(ino);
      } else {
        assert Owned(State(), ino) == ino.blocks[..n];
        FreeBlocks(ino.blocks[..n]);
      }
    }

    method RemoveLive(inum: nat, ino: Inode)
      requires Valid() && IsInum(inum) && ino == InodeOf(Contents()[IBlock(inum)]) && ino.typ != 0
      requires ino.size <= MAX_SIZE && DataOnly(Owned(State(), ino))
      modifies bm.disk.blocks
      ensures Does(old(Contents()), Contents(), Remove(inum))
    {
      ghost var d := Contents();
      TableType(d, inum);
      FreeForRemoval(ino);
      ghost var d1 := Contents();
      TableType(d1, inum);
      FreeInode(inum);
      RemoveIs(d, d1, Contents(), inum);
    }

    /** Does nothing to a file that does not exist. */
    method RemoveFile(inum: nat)
      requires Valid() && FsInv(State()) && Addressable(Contents(), inum)
      modifies bm.disk.blocks
      ensures FsInv(State()) && LiveFiles(State()) == LiveFiles(old(State())) - {inum}
      ensures if inum in LiveFiles(old(State())) then Does(old(Contents()), Contents(), Remove(inum))
              else Contents() == old(Contents())
    {
      ghost var d := Contents();
      var got := GetInode(inum);
      if IsInum(inum) {
        TableType(d, inum);
      }
      if got.None? {
        NoFile(StoreOf(d), inum);
        return;
      }
      InvOf(StoreOf(d), inum);
      LiveIsFile(StoreOf(d), inum);
      RemoveLive(inum, got.value);
      RemoveDoes(d, Contents(), inum);
    }

    // ---- writing -------------------------------------------------------------------------

    /** A file with indirect blocks is to be written anew: the direct blocks, the indirect blocks and
        their pointer block are freed, in this order. */
    method FreeLargeOld(ino: Inode)
      requires Valid() && ino.size <= MAX_SIZE && Blocks(ino.size) > NDIRECT && DataOnly(Owned(State(), ino))
      modifies bm.disk.blocks
      ensures SameData(old(Contents()), Contents())
      ensures Used(Contents()) == Used(old(Contents())) - Elems(Owned(old(State()), ino))
    {
      ghost var d := Contents();
      var direct, p := ino.blocks[..NDIRECT], ino.blocks[NDIRECT];
      PointerOnDisk(State(), ino);
      OwnedParts(d, ino, direct, WordsOf(d[p], Blocks(ino.size) - NDIRECT), p);
      FreeBlocks(direct);
      ghost var d1 := Contents();
      var indnum := bm.ReadBlock(p, Zero());
      assert indnum == d[p];
      FreeTail(WordsOf(indnum, Blocks(ino.size) - NDIRECT), p);
      SameDataMore(d, d1, Contents());
    }

    /** The first part of write_file. */
    method FreeOld(ino: Inode)
      requires Valid() && ino.size <= MAX_SIZE && DataOnly(Owned(State(), ino))
      modifies bm.disk.blocks
      ensures SameData(old(Contents()), Contents())
      ensures Used(Contents()) == Used(old(Contents())) - Elems(Owned(old(State()), ino))
    {
      var osize := Blocks(ino.size);
      if osize > NDIRECT {
        FreeLargeOld(ino);
      } else {
        assert Owned(State(), ino) == ino.blocks[..osize];
        FreeBlocks(ino.blocks[..osize]);
      }
    }

    /** alloc_block, as a step on the set of blocks in use. */
    method AllocOne() returns (b: U32)
      requires Valid()
      modifies bm.disk.blocks
      ensures SameData(old(Contents()), Contents())
      ensures b == Next(Used(old(Contents()))) && Used(Contents()) == Grown(Used(old(Contents())))
    {
      AllocUsed(Contents());
      b := bm.AllocBlock();
    }

    method AllocDirect(ino: Inode, n: nat) returns (ino': Inode)
      requires Valid() && n <= NDIRECT
      modifies bm.disk.blocks
      ensures SameData(old(Contents()), Contents()) && Used(Contents()) == Taken(Used(old(Contents())), n)
      ensures ino' == ino.(blocks := Entered(ino.blocks, TakenNumbers(Used(old(Contents())), n)))
    {
      var k := 0;
      ino' := ino;
      ghost var d, u := Contents(), Used(Contents());
      assert Entered(ino.blocks, []) == ino.blocks;
      while k < n
        invariant 0 <= k <= n && SameData(d, Contents()) && Used(Contents()) == Taken(u, k)
        invariant ino' == ino.(blocks := Entered(ino.blocks, TakenNumbers(u, k)))
      {
        ghost var d1 := Contents();
        var b := AllocOne();
        SameDataMore(d, d1, Contents());
        EnteredOneMore(ino.blocks, TakenNumbers(u, k), b);
        ino' := ino'.(blocks := ino'.blocks[k := b]);
        k := k + 1;
      }
    }

    /** The next block's number, entered in the block of pointers. */
    method AllocPointer(ghost blank: Block, ghost ptrs: seq<U32>, k: nat, indnum: Block) returns (indnum': Block)
      requires Valid() && |ptrs| == k < NINDIRECT && indnum == PutWords(blank, 0, ptrs)
      modifies bm.disk.blocks
      ensures SameData(old(Contents()), Contents()) && Used(Contents()) == Grown(Used(old(Contents())))
      ensures indnum' == PutWords(blank, 0, ptrs + [Next(Used(old(Contents())))])
    {
      var b := AllocOne();
      PointersOneMore(blank, ptrs, b);
      indnum' := PutWord(indnum, k, b);
    }

    /** Numbers for the indirect blocks. */
    method AllocIndirect(n: nat, blank: Block) returns (indnum: Block)
      requires Valid() && n <= NINDIRECT
      modifies bm.disk.blocks
      ensures SameData(old(Contents()), Contents()) && Used(Contents()) == Taken(Used(old(Contents())), n)
      ensures indnum == PutWords(blank, 0, TakenNumbers(Used(old(Contents())), n))
    {
      var k := 0;
      indnum := blank;
      ghost var d, u := Contents(), Used(Contents());
      while k < n
        invariant 0 <= k <= n && SameData(d, Contents()) && Used(Contents()) == Taken(u, k)
        invariant indnum == PutWords(blank, 0, TakenNumbers(u, k))
      {
        ghost var d1 := Contents();
        TakenNext(u, k);
        indnum := AllocPointer(blank, TakenNumbers(u, k), k, indnum);
        SameDataMore(d, d1, Contents());
        k := k + 1;
      }
    }

    /** The pointer block and the blocks it points to, after the direct blocks got the numbers a0. */
    method AllocPointers(ghost blocks: seq<U32>, ghost a0: seq<U32>, ino: Inode, n: nat)
      returns (ino': Inode, ghost d2: Image)
      requires Valid() && n <= NINDIRECT && |blocks| == NDIRECT + 1 && |a0| == NDIRECT
      requires ino.blocks == Entered(blocks, a0)
      modifies bm.disk.blocks
      ensures var u := Used(old(Contents()));
              var a := a0 + TakenNumbers(u, 1 + n);
              && ino' == ino.(blocks := Entered(blocks, a))
              && SameData(old(Contents()), d2) && Used(d2) == Taken(u, 1 + n) && Contents() == Pointed(d2, a)
    {
      ghost var d, u := Contents(), Used(Contents());
      var p := AllocOne();
      ino' := ino.(blocks := ino.blocks[NDIRECT := p]);
      ghost var d1 := Contents();
      var indnum := AllocIndirect(n, Zero());
      d2 := Contents();
      SameDataMore(d, d1, d2);
      TakenOne(u, n);
      NewTable(blocks, a0, p, TakenNumbers(Grown(u), n));
      bm.WriteBlock(p, indnum);
    }

    /** The second part: new blocks, and the pointer block. */
    method AllocNew(ino: Inode, nsize: nat) returns (ino': Inode, ghost d2: Image)
      requires Valid() && nsize <= NDIRECT + NINDIRECT
      modifies bm.disk.blocks
      ensures var u := Used(old(Contents()));
              var a := TakenNumbers(u, TotalBlocks(nsize));
              && ino' == ino.(blocks := Entered(ino.blocks, a))
              && SameData(old(Contents()), d2) && Used(d2) == Taken(u, |a|) && Contents() == Pointed(d2, a)
    {
      ghost var d, u := Contents(), Used(Contents());
      ino' := AllocDirect(ino, Min(nsize, NDIRECT));
      d2 := Contents();
      if nsize > NDIRECT {
        ghost var d1 := d2;
        TakenMore(u, NDIRECT, 1 + nsize - NDIRECT);
        ino', d2 := AllocPointers(ino.blocks, TakenNumbers(u, NDIRECT), ino', nsize - NDIRECT);
        SameDataMore(d, d1, d2);
      }
    }

    /** One whole block of the content, or what is left of it in front of old buffer bytes. */
    method WriteChunk(ghost chunks: seq<Block>, ghost j: nat, b: U32, content: seq<U8>, junk: Block, rsize: nat)
      requires Valid() && rsize == BLOCK_SIZE * j && j < |chunks| && chunks == Chunks(content, junk)
      modifies bm.disk.blocks
      ensures Contents() == Written(old(Contents()), b, chunks[j])
    {
      if |content| - rsize > BLOCK_SIZE {
        bm.WriteBlock(b, content[rsize..rsize + BLOCK_SIZE]);
      } else {
        bm.WriteBlock(b, content[rsize..] + junk[|content| - rsize..]);
      }
    }

    /** The disk d with the first j blocks of the content written to the blocks bs. */
    ghost predicate WroteUpTo(d: Image, bs: seq<U32>, chunks: seq<Block>, j: nat)
      requires Valid() && j <= |bs| == |chunks|
      reads this, bm, bm.disk, bm.disk.blocks
    {
      Contents() == Filled(d, bs, chunks, j)
    }

    /** One round of the writing loops. */
    method WriteNext(ghost d: Image, ghost bs: seq<U32>, ghost chunks: seq<Block>, ghost j: nat, b: U32,
                     content: seq<U8>, junk: Block, rsize0: nat)
      returns (rsize: nat)
      requires Valid() && j < |bs| == |chunks| && bs[j] == b && chunks == Chunks(content, junk)
      requires Reached(|content|, j, rsize0) && rsize0 < |content| && WroteUpTo(d, bs, chunks, j)
      modifies bm.disk.blocks
      ensures Reached(|content|, j + 1, rsize) && WroteUpTo(d, bs, chunks, j + 1)
    {
      NextSize(|content|, j, rsize0);
      FilledNext(d, bs, chunks, j, b);
      WriteChunk(chunks, j, b, content, junk, rsize0);
      rsize := rsize0 + Min(BLOCK_SIZE, |content| - rsize0);
    }

    /** The loop over one table of blocks, which are the ones from number j0 on among bs. */
    method WriteBlocks(ghost d: Image, ghost bs: seq<U32>, ghost chunks: seq<Block>, ghost j0: nat, table: seq<U32>,
                       content: seq<U8>, junk: Block, rsize0: nat)
      returns (rsize: nat)
      requires Valid() && j0 + |table| <= |bs| == |chunks| && bs[j0..j0 + |table|] == table
      requires chunks == Chunks(content, junk) && Reached(|content|, j0, rsize0) && WroteUpTo(d, bs, chunks, j0)
      modifies bm.disk.blocks
      ensures Reached(|content|, j0 + |table|, rsize) && WroteUpTo(d, bs, chunks, j0 + |table|)
    {
      var bnum := 0;
      rsize := rsize0;
      while rsize < |content| && bnum < |table|
        invariant 0 <= bnum <= |table| && Reached(|content|, j0 + bnum, rsize)
        invariant WroteUpTo(d, bs, chunks, j0 + bnum)
        decreases |table| - bnum
      {
        SliceAt(bs, j0, table, bnum);
        rsize := WriteNext(d, bs, chunks, j0 + bnum, table[bnum], content, junk, rsize);
        bnum := bnum + 1;
      }
      AllWritten(|content|, j0 + bnum, j0 + |table|, rsize);
    }

    method ReadPointers(p: U32, n: nat) returns (table: seq<U32>)
      requires Valid() && p < BLOCK_NUM && n <= NINDIRECT
      ensures table == WordsOf(Contents()[p], n)
    {
      var indnum := bm.ReadBlock(p, Zero());
      table := WordsOf(indnum, n);
    }

    /** The blocks past the direct ones, whose numbers are read back from block p. */
    method WriteIndirect(ghost d: Image, ghost bs: seq<U32>, ghost chunks: seq<Block>, p: U32, content: seq<U8>,
                         junk: Block, rsize: nat)
      requires Valid() && p < BLOCK_NUM && NDIRECT < |bs| == |chunks| <= NDIRECT + NINDIRECT
      requires chunks == Chunks(content, junk) && Reached(|content|, NDIRECT, rsize)
      requires WroteUpTo(d, bs, chunks, NDIRECT)
      requires bs[NDIRECT..|bs|] == WordsOf(Contents()[p], |bs| - NDIRECT)
      modifies bm.disk.blocks
      ensures WroteUpTo(d, bs, chunks, |bs|)
    {
      var table := ReadPointers(p, Blocks(|content|) - NDIRECT);
      var rsize' := WriteBlocks(d, bs, chunks, NDIRECT, table, content, junk, rsize);
    }

    /** The third part: the content, block by block. */
    method WriteData(ghost a: seq<U32>, ino: Inode, content: seq<U8>, junk: Block)
      requires Valid() && |content| <= MAX_SIZE && |a| == TotalBlocks(Blocks(|content|))
      requires |a| > NDIRECT ==> a[NDIRECT] < BLOCK_NUM
      requires forall k | 0 <= k <= NDIRECT && k < |a| :: ino.blocks[k] == a[k]
      modifies bm.disk.blocks
      ensures var d, chunks := old(Contents()), Chunks(content, junk);
              Contents() == Filled(d, Targets(d, a, chunks), chunks, |chunks|)
    {
      ghost var d, chunks := Contents(), Chunks(content, junk);
      ghost var bs := Targets(d, a, chunks);
      TargetsParts(d, a, chunks, bs);
      var n := Blocks(|content|);
      var direct := ino.blocks[..Min(n, NDIRECT)];
      assert direct == a[..Min(n, NDIRECT)];
      var rsize := WriteBlocks(d, bs, chunks, 0, direct, content, junk, 0);
      DirectSize(|content|, n, rsize);
      if rsize < |content| {
        WriteIndirect(d, bs, chunks, ino.blocks[NDIRECT], content, junk, rsize);
      }
    }

    /** All of write_file but the look at the inode. */
    method WriteLive(inum: nat, ino0: Inode, content: seq<U8>, junk: Block, now: U32)
      returns (ghost d2: Image, ghost a: seq<U32>)
      requires Valid() && IsInum(inum) && ino0 == InodeOf(Contents()[IBlock(inum)]) && |content| <= MAX_SIZE
      requires ino0.size <= MAX_SIZE && DataOnly(Owned(State(), ino0))
      modifies bm.disk.blocks
      ensures Staged(old(Contents()), d2, Contents(), inum, a, content, junk, now)
    {
      ghost var d := Contents();
      FreeOld(ino0);
      ghost var d1 := Contents();
      var ino;
      ino, d2 := AllocNew(ino0, Blocks(|content|));
      a := Numbers(StoreOf(d), inum, |content|);
      SameDataMore(d, d1, d2);
      if |a| > NDIRECT {
        NumbersOnDisk(Rest(StoreOf(d), inum), |a|, NDIRECT);
      }
      WriteData(a, ino, content, junk);
      PutInode(inum, ino.(size := |content|, mtime := now, ctime := now));
    }

    /** Replaces the content of a live file.  The disk it leaves is sound, and holds the file's new
        content beside the other files, exactly when there is room. */
    method WriteFile(inum: nat, content: seq<U8>, junk: Block, now: U32)
      requires Valid() && FsInv(State()) && IsInum(inum) && Live(State(), inum) && |content| <= MAX_SIZE
      modifies bm.disk.blocks
      ensures inum in LiveFiles(old(State()))
      ensures FsInv(State()) <==> RoomFor(old(State()), inum, |content|)
      ensures FsInv(State()) ==>
        LiveFiles(State()) == LiveFiles(old(State()))[inum := File(LiveFiles(old(State()))[inum].typ, content)]
      ensures FsInv(State()) ==> Does(old(Contents()), Contents(), Write(inum, content))
      ensures var ino, ino' := old(InodeOf(Contents()[IBlock(inum)])), InodeOf(Contents()[IBlock(inum)]);
              ino' == Inode(ino.typ, |content|, ino.atime, now, now, ino'.blocks)
    {
      ghost var d := Contents();
      var got := GetInode(inum);
      TableType(d, inum);
      InvOf(StoreOf(d), inum);
      ghost var d2, a := WriteLive(inum, got.value, content, junk, now);
      WriteOutcome(d, d2, Contents(), inum, a, content, junk, now);
      StagedInode(d, d2, Contents(), inum, a, content, junk, now);
    }

    /** The root directory is inode 1 on a formatted disk; the source exits when it is another one. */
    method MakeRoot(now: U32) returns (rootDir: nat)
      requires Valid() && Formatted(Contents())
      modifies bm.disk.blocks
      ensures rootDir == 1 && FreshDisk(Contents())
    {
      ghost var d := Contents();
      rootDir := AllocInode(T_DIR, now);
      FirstFile(d, Contents(), rootDir, now);
    }

    /** A new disk holds the root directory and nothing else. */
    constructor (now: U32)
      ensures Valid() && fresh(bm) && fresh(bm.disk) && fresh(bm.disk.blocks)
      ensures FreshDisk(Contents())
    {
      bm := new BlockManager();
      new;
      var rootDir := MakeRoot(now);
      assert rootDir == 1;
    }
  }
}
