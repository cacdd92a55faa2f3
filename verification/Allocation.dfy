/** Block allocation on sets of block numbers: what calls of alloc_block hand out. */
module Allocation {
  import opened Words
  import opened Disk

  predicate Before(b: nat, n: nat)
  {
    b < n
  }

  /** The numbers 0 up to but excluding n. */
  ghost function Below(n: nat): set<nat>
  {
    set b | 0 <= b < n && Before(b, n)
  }

  lemma {:induction false} BelowSize(n: nat)
    ensures |Below(n)| == n
  {
    if n > 0 {
      BelowSize(n - 1);
      assert Below(n) == Below(n - 1) + {n - 1} by {
        assert Before(n - 1, n) && forall b | b in Below(n - 1) :: Before(b, n);
        assert forall b | b in Below(n) && b != n - 1 :: Before(b, n - 1);
      }
    } else {
      assert Below(0) == {};
    }
  }

  lemma SubsetSize<T>(a: set<T>, b: set<T>)
    requires a <= b
    ensures |b - a| == |b| - |a| && (|a| == |b| ==> a == b)
  {
    assert b == a + (b - a);
  }

  predicate Distinct(s: seq<nat>)
  {
    forall i, j | 0 <= i < j < |s| :: s[i] != s[j]
  }

  ghost function Elems(s: seq<nat>): set<nat>
  {
    set x | x in s
  }

  lemma {:induction false} DistinctSize(s: seq<nat>)
    requires Distinct(s)
    ensures |Elems(s)| == |s|
  {
    if s != [] {
      var init, last := s[..|s| - 1], s[|s| - 1];
      assert s == init + [last];
      DistinctSize(init);
      assert Elems(s) == Elems(init) + {last} && last !in init;
    }
  }

  // ---- one call ------------------------------------------------------------------------

  /** n is the least block that is not in use. */
  ghost predicate IsNext(u: set<nat>, n: nat)
  {
    n < BLOCK_NUM && n !in u && forall b | 0 <= b < n :: b in u
  }

  lemma BelowNext(n: nat)
    requires n < BLOCK_NUM
    ensures IsNext(Below(n), n) && Below(n + 1) == Below(n) + {n}
  {
    forall b: nat ensures (b in Below(n) <==> b < n) && (b in Below(n + 1) <==> b < n + 1) {
      assert b < n ==> Before(b, n);
      assert b < n + 1 ==> Before(b, n + 1);
    }
  }

  /** What alloc_block returns when the blocks u are in use, and what is in use after it. */
  ghost function Next(u: set<nat>): (n: nat)
    ensures n < BLOCK_NUM
  {
    if exists n: nat :: IsNext(u, n) then
      var n: nat :| IsNext(u, n);
      n
    else 0
  }

  ghost function Grown(u: set<nat>): set<nat>
  {
    if exists n: nat :: IsNext(u, n) then u + {Next(u)} else u
  }

  lemma NextIs(u: set<nat>, n: nat)
    requires IsNext(u, n)
    ensures Next(u) == n && Grown(u) == u + {n}
  {
  }

  lemma NoNext(u: set<nat>)
    requires Below(BLOCK_NUM) <= u
    ensures Next(u) == 0 && Grown(u) == u
  {
    forall n: nat ensures !IsNext(u, n) {
      assert n < BLOCK_NUM ==> Before(n, BLOCK_NUM);
    }
  }

  lemma {:induction false} NextFrom(u: set<nat>, n: nat)
    requires n <= BLOCK_NUM && forall b | 0 <= b < n :: b in u
    ensures (exists m: nat :: IsNext(u, m)) || Below(BLOCK_NUM) <= u
    decreases BLOCK_NUM - n
  {
    if n < BLOCK_NUM {
      if n in u {
        NextFrom(u, n + 1);
      } else {
        assert IsNext(u, n);
      }
    }
  }

  /** While a block is left, alloc_block takes one. */
  lemma NextTakes(u: set<nat>)
    requires |u| < BLOCK_NUM
    ensures Next(u) < BLOCK_NUM && Next(u) !in u && Grown(u) == u + {Next(u)}
  {
    NextFrom(u, 0);
    if Below(BLOCK_NUM) <= u {
      BelowSize(BLOCK_NUM);
      SubsetSize(Below(BLOCK_NUM), u);
      assert false;
    }
  }

  // ---- many calls ----------------------------------------------------------------------

  ghost function Taken(u: set<nat>, n: nat): set<nat>
  {
    if n == 0 then u else Grown(Taken(u, n - 1))
  }

  ghost function TakenNumbers(u: set<nat>, n: nat): (s: seq<U32>)
    ensures |s| == n
  {
    if n == 0 then [] else TakenNumbers(u, n - 1) + [Next(Taken(u, n - 1))]
  }

  lemma TakenNext(u: set<nat>, n: nat)
    ensures Taken(u, n + 1) == Grown(Taken(u, n))
    ensures TakenNumbers(u, n + 1) == TakenNumbers(u, n) + [Next(Taken(u, n))]
  {
  }

  lemma {:induction false} TakenMore(u: set<nat>, m: nat, n: nat)
    ensures Taken(u, m + n) == Taken(Taken(u, m), n)
    ensures TakenNumbers(u, m + n) == TakenNumbers(u, m) + TakenNumbers(Taken(u, m), n)
  {
    if n > 0 {
      TakenMore(u, m, n - 1);
    }
  }

  lemma TakenOne(u: set<nat>, n: nat)
    ensures Taken(u, 1 + n) == Taken(Grown(u), n)
    ensures TakenNumbers(u, 1 + n) == [Next(u)] + TakenNumbers(Grown(u), n)
  {
    TakenMore(u, 1, n);
    assert Taken(u, 1) == Grown(Taken(u, 0));
    assert TakenNumbers(u, 1) == TakenNumbers(u, 0) + [Next(Taken(u, 0))];
  }

  /** Different numbers of unused blocks. */
  ghost predicate Handed(u: set<nat>, s: seq<nat>)
  {
    Distinct(s) && Elems(s) !! u && forall k | 0 <= k < |s| :: s[k] < BLOCK_NUM
  }

  lemma DistinctOneMore(s: seq<nat>, b: nat)
    requires Distinct(s) && b !in s
    ensures Distinct(s + [b])
  {
  }

  lemma HandedOneMore(u: set<nat>, s: seq<nat>, t: set<nat>, b: nat)
    requires Handed(u, s) && t == u + Elems(s) && b !in t && b < BLOCK_NUM
    ensures Handed(u, s + [b]) && t + {b} == u + Elems(s + [b]) && |t + {b}| == |t| + 1
  {
    assert b !in Elems(s);
    DistinctOneMore(s, b);
    assert Elems(s + [b]) == Elems(s) + {b};
  }

  lemma HandedNone(u: set<nat>)
    ensures Handed(u, []) && u == u + Elems([])
  {
  }

  /** While enough blocks are left, that many different unused ones are handed out. */
  lemma {:induction false} TakeMany(u: set<nat>, n: nat)
    requires |u| + n <= BLOCK_NUM
    ensures Handed(u, TakenNumbers(u, n)) && Taken(u, n) == u + Elems(TakenNumbers(u, n)) && |Taken(u, n)| == |u| + n
  {
    if n == 0 {
      HandedNone(u);
    } else {
      TakeMany(u, n - 1);
      var t := Taken(u, n - 1);
      NextTakes(t);
      HandedOneMore(u, TakenNumbers(u, n - 1), t, Next(t));
    }
  }

  lemma {:induction false} NumbersOnDisk(u: set<nat>, n: nat, k: nat)
    requires k < n
    ensures TakenNumbers(u, n)[k] < BLOCK_NUM
  {
    if k < n - 1 {
      NumbersOnDisk(u, n - 1, k);
    }
  }

  // ---- running out ---------------------------------------------------------------------

  /** Once every block is in use, alloc_block returns 0 and changes nothing. */
  lemma {:induction false} FullStaysFull(u: set<nat>, n: nat)
    requires Below(BLOCK_NUM) <= u
    ensures Taken(u, n) == u && forall k | 0 <= k < n :: TakenNumbers(u, n)[k] == 0
  {
    if n > 0 {
      FullStaysFull(u, n - 1);
      NoNext(u);
    }
  }

  /** Numbers among which only 0 may occur twice, and which are data blocks otherwise. */
  ghost predicate OnlyZeroRepeats(a: seq<nat>)
  {
    && (forall j, k | 0 <= j < k < |a| && a[j] == a[k] :: a[j] == 0)
    && (forall k | 0 <= k < |a| && a[k] != 0 :: RESERVED <= a[k] < BLOCK_NUM)
  }

  lemma DataNumbers(u: set<nat>, s: seq<nat>)
    requires Below(RESERVED) <= u && Handed(u, s)
    ensures forall k | 0 <= k < |s| :: RESERVED <= s[k] < BLOCK_NUM
  {
    forall k | 0 <= k < |s| ensures RESERVED <= s[k] {
      assert s[k] in Elems(s);
      assert s[k] < RESERVED ==> Before(s[k], RESERVED);
    }
  }

  lemma ThenZeros(s: seq<nat>, z: seq<nat>)
    requires Distinct(s) && (forall k | 0 <= k < |s| :: RESERVED <= s[k] < BLOCK_NUM)
    requires forall k | 0 <= k < |z| :: z[k] == 0
    ensures OnlyZeroRepeats(s + z)
  {
  }

  /** With more calls than blocks left, the last one returns 0. */
  lemma RunsOut(u: set<nat>, t: nat)
    requires Below(RESERVED) <= u <= Below(BLOCK_NUM) && |u| + t > BLOCK_NUM
    ensures t > 0 && TakenNumbers(u, t)[t - 1] == 0 && OnlyZeroRepeats(TakenNumbers(u, t))
  {
    BelowSize(BLOCK_NUM);
    SubsetSize(u, Below(BLOCK_NUM));
    var m := BLOCK_NUM - |u|;
    TakeMany(u, m);
    DataNumbers(u, TakenNumbers(u, m));
    SpentIsFull(u, m);
    TakenMore(u, m, t - m);
    FullStaysFull(Taken(u, m), t - m);
    ThenZeros(TakenNumbers(u, m), TakenNumbers(Taken(u, m), t - m));
  }

  lemma SpentIsFull(u: set<nat>, m: nat)
    requires u <= Below(BLOCK_NUM) && |u| + m == BLOCK_NUM
    ensures Taken(u, m) == Below(BLOCK_NUM)
  {
    TakeMany(u, m);
    var s := TakenNumbers(u, m);
    forall b | b in u + Elems(s) ensures b in Below(BLOCK_NUM) {
      assert b < BLOCK_NUM ==> Before(b, BLOCK_NUM);
    }
    BelowSize(BLOCK_NUM);
    SubsetSize(Taken(u, m), Below(BLOCK_NUM));
  }
}
