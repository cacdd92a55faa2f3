/** The bitmap as a set of block numbers. */
module Bitmap {
  import opened Disk
  import opened Allocation

  /** The blocks marked as in use. */
  ghost function Used(d: Image): (u: set<nat>)
  {
    set b | 0 <= b < BLOCK_NUM && Bit(d, b)
  }

  /** Only bitmap blocks may differ. */
  ghost predicate SameData(d: Image, d': Image)
  {
    forall x | 0 <= x < BLOCK_NUM && (x < 2 || x >= 10) :: d'[x] == d[x]
  }

  lemma UsedBelow(d: Image)
    ensures Used(d) <= Below(BLOCK_NUM)
  {
    assert forall b | b in Used(d) :: Before(b, BLOCK_NUM);
  }

  lemma MarkUsed(d: Image, n: nat)
    requires n < BLOCK_NUM
    ensures SameData(d, SetBit(d, n)) && Used(SetBit(d, n)) == Used(d) + {n}
  {
    forall x | 0 <= x < BLOCK_NUM
      ensures Bit(SetBit(d, n), x) <==> x == n || Bit(d, x)
      ensures x < 2 || x >= 10 ==> SetBit(d, n)[x] == d[x]
    {
      BitChange(d, n, x);
    }
  }

  lemma UnmarkUsed(d: Image, n: nat)
    requires n < BLOCK_NUM
    ensures SameData(d, ClearBit(d, n)) && Used(ClearBit(d, n)) == Used(d) - {n}
  {
    forall x | 0 <= x < BLOCK_NUM
      ensures Bit(ClearBit(d, n), x) <==> x != n && Bit(d, x)
      ensures x < 2 || x >= 10 ==> ClearBit(d, n)[x] == d[x]
    {
      BitChange(d, n, x);
    }
  }

  /** The scan for a clear bit takes the least unused block and changes exactly its bit; when every
      block is in use it returns 0 and changes nothing. */
  lemma AllocUsed(d: Image)
    ensures AllocNumber(d) == Next(Used(d)) && Used(AllocImage(d)) == Grown(Used(d)) && SameData(d, AllocImage(d))
  {
    var n := FirstFree(d);
    FirstFromFacts(d, 0);
    if n < BLOCK_NUM {
      assert IsNext(Used(d), n) by {
        forall b | 0 <= b < n ensures b in Used(d) {
          assert Bit(d, b);
        }
      }
      NextIs(Used(d), n);
      MarkUsed(d, n);
    } else {
      forall b | b in Below(BLOCK_NUM) ensures b in Used(d) {
        assert Bit(d, b);
      }
      NoNext(Used(d));
    }
  }

  /** free_block unmarks exactly its block; it ignores blocks up to 10. */
  lemma FreeUsed(d: Image, n: nat)
    requires 10 < n < BLOCK_NUM
    ensures SameData(d, FreeImage(d, n)) && Used(FreeImage(d, n)) == Used(d) - {n}
  {
    assert FreeImage(d, n) == ClearBit(d, n);
    UnmarkUsed(d, n);
  }

  // ---- formatting ----------------------------------------------------------------------

  lemma {:induction false} AllocTimesUsed(d: Image, n: nat)
    ensures Used(AllocTimes(d, n)) == Taken(Used(d), n) && SameData(d, AllocTimes(d, n))
  {
    if n > 0 {
      AllocTimesUsed(d, n - 1);
      AllocUsed(AllocTimes(d, n - 1));
    }
  }

  lemma {:induction false} TakenFromNothing(n: nat)
    requires n <= BLOCK_NUM
    ensures Taken({}, n) == Below(n)
  {
    if n == 0 {
      assert Below(0) == {};
    } else {
      TakenFromNothing(n - 1);
      BelowNext(n - 1);
      NextIs(Below(n - 1), n - 1);
    }
  }

  lemma BlankUnused(d: Image, z: Block)
    requires forall x | 0 <= x < BLOCK_NUM :: d[x] == z
    requires forall k | 0 <= k < BLOCK_SIZE :: z[k] == 0
    ensures Used(d) == {}
  {
    forall b | 0 <= b < BLOCK_NUM ensures !Bit(d, b) {
      assert z[b % BPB / 8] == 0;
    }
  }

  /** Formatting marks exactly the blocks before the data and leaves the rest of the disk zero. */
  lemma FormattedDisk(blank: Image, z: Block, n: nat)
    requires n == RESERVED && forall x | 0 <= x < BLOCK_NUM :: blank[x] == z
    requires forall k | 0 <= k < BLOCK_SIZE :: z[k] == 0
    ensures Used(AllocTimes(blank, n)) == Below(RESERVED)
    ensures forall x | 10 <= x < BLOCK_NUM :: AllocTimes(blank, n)[x] == z
  {
    BlankUnused(blank, z);
    AllocTimesUsed(blank, n);
    TakenFromNothing(n);
  }
}
