/** Runs that use the disk up: the conditions on a free inode and on room do fail. */
module FullDisk {
  import opened Bits
  import opened Words
  import opened Disk
  import opened Bitmap
  import opened Inodes
  import opened Files
  import opened FileSpace
  import opened Images
  import opened FileRuns
  import opened Extents

  lemma SomeFormatted() returns (d: Image)
    ensures Formatted(d)
  {
    var blank: Image := seq(BLOCK_NUM, x => Zero());
    assert Blank(blank);
    d := AllocTimes(blank, RESERVED);
  }

  /** The files are those numbered 1..n. */
  ghost predicate Numbered(m: map<nat, File>, n: nat)
  {
    forall i: nat :: i in m <==> 1 <= i <= n
  }

  // ---- one more file -----------------------------------------------------------------------

  lemma NextDead(d: Image, n: nat)
    requires FsInv(StoreOf(d)) && Numbered(LiveFiles(StoreOf(d)), n) && n < 1022
    ensures InodeLeft(d) && IsFirstDead(d, n + 1)
  {
    forall j: nat | 1 <= j <= n + 1 ensures TypeOf(d[IBlock(j)]) == 0 <==> j == n + 1 {
      DeadIsNoFile(d, j);
    }
    assert IsInum(n + 1) && TypeOf(d[IBlock(n + 1)]) == 0;
  }

  lemma BirthElsewhere(d: Image, d': Image, i: nat, b: Block)
    requires IsInum(i) && d' == Written(d, IBlock(i), b)
    ensures d'[RESERVED] == d[RESERVED]
  {
  }

  lemma NumberedNext(m: map<nat, File>, n: nat, f: File)
    requires Numbered(m, n)
    ensures Numbered(m[n + 1 := f], n + 1)
  {
  }

  lemma BornNext(d: Image, n: nat, t: U16) returns (d': Image)
    requires IsFirstDead(d, n + 1) && n < 1022
    ensures Born(d, d', n + 1, t, 0) && d'[RESERVED] == d[RESERVED]
  {
    d' := Written(d, IBlock(n + 1), WithBirth(d[IBlock(n + 1)], t, 0));
    BirthElsewhere(d, d', n + 1, WithBirth(d[IBlock(n + 1)], t, 0));
  }

  lemma CreatedNext(d: Image, n: nat, t: U16) returns (d': Image)
    requires InodeLeft(d) && IsFirstDead(d, n + 1) && n < 1022 && t != 0
    ensures Does(d, d', Create(n + 1, t)) && d'[RESERVED] == d[RESERVED]
  {
    d' := BornNext(d, n, t);
    CreateIs(d, d', n + 1, t, 0);
  }

  /** A file can be created while a number is left, and block 1034 is not touched. */
  lemma CreateNext(ds: seq<Image>, ops: seq<Op>, n: nat, t: U16) returns (d': Image)
    requires IsRun(ds, ops) && Numbered(ApplyAll(ops), n) && n < 1022 && t != 0
    ensures IsRun(ds + [d'], ops + [Create(n + 1, t)]) && d'[RESERVED] == ds[|ops|][RESERVED]
    ensures ApplyAll(ops + [Create(n + 1, t)]) == ApplyAll(ops)[n + 1 := File(t, [])]
  {
    RunsKeepFiles(ds, ops);
    NextDead(ds[|ops|], n);
    d' := CreatedNext(ds[|ops|], n, t);
    RunGoesOn(ds, ops, d', Create(n + 1, t));
  }

  // ---- no inode left -----------------------------------------------------------------------

  /** A run that creates the root and n - 1 files. */
  lemma {:induction false} Creates(n: nat) returns (ds: seq<Image>, ops: seq<Op>)
    requires n <= 1022
    ensures IsRun(ds, ops) && Numbered(ApplyAll(ops), n) && TypeOf(ds[|ops|][RESERVED]) == 0
    ensures forall k | 0 <= k < |ops| :: ops[k].Create?
  {
    if n == 0 {
      var d := SomeFormatted();
      FormattedFirst(d);
      ds, ops := [d], [];
    } else {
      var ds0, ops0 := Creates(n - 1);
      var t: U16 := if n == 1 then T_DIR else 2;
      var d' := CreateNext(ds0, ops0, n - 1, t);
      NumberedNext(ApplyAll(ops0), n - 1, File(t, []));
      ds, ops := ds0 + [d'], ops0 + [Create(n, t)];
    }
  }

  lemma NoneLeft(d: Image)
    requires FsInv(StoreOf(d)) && Numbered(LiveFiles(StoreOf(d)), 1022)
    ensures !InodeLeft(d)
  {
    if InodeLeft(d) {
      var k: nat :| IsInum(k) && TypeOf(d[IBlock(k)]) == 0;
      DeadIsNoFile(d, k);
      assert false;
    }
  }

  lemma BornOverData(d: Image, d': Image, inum: nat, t: U16, now: U32)
    requires !InodeLeft(d) && TypeOf(d[RESERVED]) == 0 && t != 0 && Born(d, d', inum, t, now)
    ensures inum == 1023 && d'[RESERVED] != d[RESERVED]
  {
    FreshExactlyWhenLeft(d, d', inum, t, now);
    assert IBlock(1023) == RESERVED;
  }

  /** 1022 creations from a formatted disk use the inodes up; whatever is created next is said to be
      inode 1023 and is written over the first block of data. */
  lemma InodesRunOut() returns (ds: seq<Image>, ops: seq<Op>)
    ensures IsRun(ds, ops) && !InodeLeft(ds[|ops|])
    ensures forall d': Image, inum: nat, t: U16, now: U32 | t != 0 && Born(ds[|ops|], d', inum, t, now) ::
      inum == 1023 && d'[RESERVED] != ds[|ops|][RESERVED]
  {
    ds, ops := Creates(1022);
    var d := ds[|ops|];
    RunsKeepFiles(ds, ops);
    NoneLeft(d);
    forall d': Image, inum: nat, t: U16, now: U32 | t != 0 && Born(d, d', inum, t, now)
      ensures inum == 1023 && d'[RESERVED] != d[RESERVED]
    {
      BornOverData(d, d', inum, t, now);
    }
  }

  // ---- no room -----------------------------------------------------------------------------

  lemma EmptyOwnsNothing(v: Store, i: nat)
    requires IsInum(i) && InodeInv(v, i) && Live(v, i) && LiveFiles(v)[i].data == []
    ensures OwnedSet(v, i) == {}
  {
    LiveIsFile(v, i);
    assert v.table[i].size == 0;
    assert Owned(v, v.table[i]) == [];
  }

  lemma StagedFromEmpty(d: Image, i: nat, content: seq<U8>, junk: Block) returns (d2: Image, d': Image)
    requires IsInum(i) && OwnedSet(StoreOf(d), i) == {} && |content| <= MAX_SIZE
    ensures Staged(d, d2, d', i, Numbers(StoreOf(d), i, |content|), content, junk, 0)
  {
    var a := Numbers(StoreOf(d), i, |content|);
    assert Rest(StoreOf(d), i) == Used(d);
    d2 := AllocTimes(d, |a|);
    AllocTimesUsed(d, |a|);
    d' := InodePut(Stored(d2, a, Chunks(content, junk)), i, NewInode(InodeOf(d[IBlock(i)]), a, |content|, 0));
  }

  /** An empty file can be written while the content fits. */
  lemma WriteNext(ds: seq<Image>, ops: seq<Op>, i: nat, content: seq<U8>) returns (d': Image)
    requires IsRun(ds, ops) && i in ApplyAll(ops) && ApplyAll(ops)[i].data == [] && Fits(ApplyAll(ops), i, |content|)
    ensures IsRun(ds + [d'], ops + [Write(i, content)])
    ensures ApplyAll(ops + [Write(i, content)]) == ApplyAll(ops)[i := File(ApplyAll(ops)[i].typ, content)]
  {
    var d := ds[|ops|];
    RunsKeepFiles(ds, ops);
    WriteReady(ds, ops, i, |content|);
    InvOf(StoreOf(d), i);
    EmptyOwnsNothing(StoreOf(d), i);
    var d2;
    d2, d' := StagedFromEmpty(d, i, content, Zero());
    WriteGoesOn(ds, ops, d', i, content);
  }

  lemma FullBlocks()
    ensures TotalBlocks(Blocks(MAX_SIZE)) == 161 && TotalBlocks(Blocks(0)) == 0
  {
  }

  lemma NeededEmpty(m: map<nat, File>, i: nat, t: nat)
    requires IsInum(i) && i !in m
    ensures BlocksNeeded(m[i := File(t, [])]) == BlocksNeeded(m)
  {
    FullBlocks();
    NeededAfter(m, m[i := File(t, [])], i);
  }

  lemma NeededFull(m: map<nat, File>, i: nat, t: nat, content: seq<U8>)
    requires IsInum(i) && i in m && m[i].data == [] && |content| == MAX_SIZE
    ensures BlocksNeeded(m[i := File(t, content)]) == BlocksNeeded(m) + 161
  {
    FullBlocks();
    NeededAfter(m, m[i := File(t, content)], i);
  }

  lemma NothingNeeded()
    ensures BlocksNeeded(map[]) == 0
  {
    SumOfZeros(Needs(map[]));
  }

  lemma {:induction false} SumOfZeros(ns: seq<nat>)
    requires forall k | 0 <= k < |ns| :: ns[k] == 0
    ensures Sum(ns) == 0
  {
    if ns != [] {
      SumOfZeros(ns[..|ns| - 1]);
    }
  }

  /** The root and n files of the largest size, then one empty file. */
  ghost predicate Stuffed(m: map<nat, File>, n: nat)
  {
    Numbered(m, n + 2) && m[n + 2] == File(2, []) && BlocksNeeded(m) == 161 * n
  }

  /** One more empty file, which takes no block. */
  lemma OneMoreEmpty(ds: seq<Image>, ops: seq<Op>, n: nat, t: U16) returns (ds': seq<Image>, ops': seq<Op>)
    requires IsRun(ds, ops) && Numbered(ApplyAll(ops), n) && n < 1022 && t != 0
    ensures IsRun(ds', ops') && Numbered(ApplyAll(ops'), n + 1) && ApplyAll(ops')[n + 1] == File(t, [])
    ensures BlocksNeeded(ApplyAll(ops')) == BlocksNeeded(ApplyAll(ops))
  {
    var d' := CreateNext(ds, ops, n, t);
    NeededEmpty(ApplyAll(ops), n + 1, t);
    NumberedNext(ApplyAll(ops), n, File(t, []));
    ds', ops' := ds + [d'], ops + [Create(n + 1, t)];
  }

  lemma NothingYet() returns (ds: seq<Image>, ops: seq<Op>)
    ensures IsRun(ds, ops) && Numbered(ApplyAll(ops), 0) && BlocksNeeded(ApplyAll(ops)) == 0
  {
    var d := SomeFormatted();
    NothingNeeded();
    ds, ops := [d], [];
  }

  lemma FirstTwo() returns (ds: seq<Image>, ops: seq<Op>)
    ensures IsRun(ds, ops) && Stuffed(ApplyAll(ops), 0)
  {
    ds, ops := NothingYet();
    ds, ops := OneMoreEmpty(ds, ops, 0, T_DIR);
    ds, ops := OneMoreEmpty(ds, ops, 1, 2);
  }

  lemma StuffMore(ds: seq<Image>, ops: seq<Op>, n: nat, content: seq<U8>) returns (ds': seq<Image>, ops': seq<Op>)
    requires IsRun(ds, ops) && Stuffed(ApplyAll(ops), n) && n < 197 && |content| == MAX_SIZE
    ensures IsRun(ds', ops') && Stuffed(ApplyAll(ops'), n + 1)
  {
    var m, i := ApplyAll(ops), n + 2;
    FullBlocks();
    NeededFull(m, i, 2, content);
    var d1 := WriteNext(ds, ops, i, content);
    ds', ops' := OneMoreEmpty(ds + [d1], ops + [Write(i, content)], i, 2);
  }

  lemma {:induction false} Stuff(n: nat, content: seq<U8>) returns (ds: seq<Image>, ops: seq<Op>)
    requires n <= 197 && |content| == MAX_SIZE
    ensures IsRun(ds, ops) && Stuffed(ApplyAll(ops), n)
  {
    if n == 0 {
      ds, ops := FirstTwo();
    } else {
      var ds0, ops0 := Stuff(n - 1, content);
      ds, ops := StuffMore(ds0, ops0, n - 1, content);
    }
  }

  /** 197 files of the largest size leave no room for another one, though inodes are left; writing it
      spoils the disk. */
  lemma RoomRunsOut() returns (ds: seq<Image>, ops: seq<Op>, i: nat)
    ensures IsRun(ds, ops) && InodeLeft(ds[|ops|])
    ensures IsInum(i) && Live(StoreOf(ds[|ops|]), i) && !RoomFor(StoreOf(ds[|ops|]), i, MAX_SIZE)
    ensures forall d2: Image, d': Image, a: seq<U32>, content: seq<U8>, junk: Block, now: U32
              | |content| == MAX_SIZE && Staged(ds[|ops|], d2, d', i, a, content, junk, now) :: !FsInv(StoreOf(d'))
  {
    ds, ops := Stuff(197, seq(MAX_SIZE, k => 0));
    i := 199;
    var d, m := ds[|ops|], ApplyAll(ops);
    FullBlocks();
    WriteReady(ds, ops, i, MAX_SIZE);
    RunsKeepFiles(ds, ops);
    NextDead(d, 199);
    forall d2: Image, d': Image, a: seq<U32>, content: seq<U8>, junk: Block, now: U32
      | |content| == MAX_SIZE && Staged(d, d2, d', i, a, content, junk, now)
      ensures !FsInv(StoreOf(d'))
    {
      WriteOutcome(d, d2, d', i, a, content, junk, now);
    }
  }
}
