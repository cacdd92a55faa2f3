/** Runs of the inode layer's operations from a freshly formatted disk. */
module FileRuns {
  import opened Bits
  import opened Words
  import opened Disk
  import opened Allocation
  import opened Bitmap
  import opened Inodes
  import opened Files
  import opened FileSpace
  import opened Images

  datatype Op =
    | Create(inum: nat, typ: U16)
    | Write(inum: nat, content: seq<U8>)
    | Read(inum: nat)
    | Remove(inum: nat)

  /** One operation takes disk d to disk d', called as the code expects: a type for a new inode
      while one is left, a live inode to write with room for the content, an inode to read or remove. */
  ghost predicate Does(d: Image, d': Image, op: Op)
  {
    match op
    case Create(inum, typ) => InodeLeft(d) && typ != 0 && exists now: U32 :: Born(d, d', inum, typ, now)
    case Write(inum, content) =>
      && IsInum(inum) && Live(StoreOf(d), inum) && |content| <= MAX_SIZE && RoomFor(StoreOf(d), inum, |content|)
      && exists d2: Image, a: seq<U32>, junk: Block, now: U32 :: Staged(d, d2, d', inum, a, content, junk, now)
    case Read(inum) =>
      && IsInum(inum) && Live(StoreOf(d), inum)
      && exists now: U32 :: d' == InodePut(d, inum, InodeOf(d[IBlock(inum)]).(atime := now, ctime := now))
    case Remove(inum) =>
      && IsInum(inum) && Live(StoreOf(d), inum)
      && exists d1: Image :: Freed(d, d1, inum) && d' == InodePut(d1, inum, NoInode())
  }

  /** The blocks of inode i unmarked. */
  ghost predicate Freed(d: Image, d1: Image, i: nat)
    requires IsInum(i)
  {
    SameData(d, d1) && Used(d1) == Used(d) - OwnedSet(StoreOf(d), i)
  }

  /** What the operations mean to the users of files. */
  function Apply(m: map<nat, File>, op: Op): map<nat, File>
  {
    match op
    case Create(inum, typ) => m[inum := File(typ, [])]
    case Write(inum, content) => if inum in m then m[inum := File(m[inum].typ, content)] else m
    case Read(_) => m
    case Remove(inum) => m - {inum}
  }

  function ApplyAll(ops: seq<Op>): map<nat, File>
  {
    if ops == [] then map[] else Apply(ApplyAll(ops[..|ops| - 1]), ops[|ops| - 1])
  }

  lemma WriteOutcome(d: Image, d2: Image, d': Image, i: nat, a: seq<U32>, content: seq<U8>, junk: Block, now: U32)
    requires FsInv(StoreOf(d)) && IsInum(i) && Live(StoreOf(d), i) && |content| <= MAX_SIZE
    requires Staged(d, d2, d', i, a, content, junk, now)
    ensures i in LiveFiles(StoreOf(d)) && (FsInv(StoreOf(d')) <==> RoomFor(StoreOf(d), i, |content|))
    ensures FsInv(StoreOf(d')) ==>
      LiveFiles(StoreOf(d')) == LiveFiles(StoreOf(d))[i := File(LiveFiles(StoreOf(d))[i].typ, content)]
  {
    var v, v' := StoreOf(d), StoreOf(d');
    StagedWrote(d, d2, d', i, a, content, junk, now);
    UsedBelow(d);
    WriteOutcomeOn(v, v', i, a, content, junk, now);
  }

  /** Both answers at once, on stores. */
  lemma WriteOutcomeOn(v: Store, v': Store, i: nat, a: seq<U32>, content: seq<U8>, junk: Block, now: U32)
    requires FsInv(v) && v.used <= Below(BLOCK_NUM) && IsInum(i) && Live(v, i) && |content| <= MAX_SIZE
    requires Wrote(v, v', i, a, content, junk, now)
    ensures i in LiveFiles(v) && (FsInv(v') <==> RoomFor(v, i, |content|))
    ensures FsInv(v') ==> LiveFiles(v') == LiveFiles(v)[i := File(LiveFiles(v)[i].typ, content)]
  {
    InvOf(v, i);
    LiveIsFile(v, i);
    WriteSoundExactlyWhenRoom(v, v', i, a, content, junk, now);
    if RoomFor(v, i, |content|) {
      WriteStoresFile(v, v', i, a, content, junk, now);
    }
  }

  lemma WriteDoes(d: Image, d': Image, inum: nat, content: seq<U8>)
    requires FsInv(StoreOf(d)) && Does(d, d', Write(inum, content))
    ensures FsInv(StoreOf(d')) && LiveFiles(StoreOf(d')) == Apply(LiveFiles(StoreOf(d)), Write(inum, content))
  {
    var d2: Image, a: seq<U32>, junk: Block, now: U32 :| Staged(d, d2, d', inum, a, content, junk, now);
    WriteOutcome(d, d2, d', inum, a, content, junk, now);
  }

  lemma ReadDoes(d: Image, d': Image, inum: nat)
    requires FsInv(StoreOf(d)) && Does(d, d', Read(inum))
    ensures FsInv(StoreOf(d')) && LiveFiles(StoreOf(d')) == LiveFiles(StoreOf(d))
  {
    var now: U32 :| d' == InodePut(d, inum, InodeOf(d[IBlock(inum)]).(atime := now, ctime := now));
    var ino := InodeOf(d[IBlock(inum)]).(atime := now, ctime := now);
    InodePutIs(d, d', inum, ino);
    ReadKeepsFiles(StoreOf(d), StoreOf(d'), inum, ino);
  }

  lemma RemoveDoes(d: Image, d': Image, inum: nat)
    requires FsInv(StoreOf(d)) && Does(d, d', Remove(inum))
    ensures FsInv(StoreOf(d')) && LiveFiles(StoreOf(d')) == LiveFiles(StoreOf(d)) - {inum}
  {
    var d1: Image :| Freed(d, d1, inum) && d' == InodePut(d1, inum, NoInode());
    RemovedIs(d, d1, d', inum);
    RemovalDropsFile(StoreOf(d), StoreOf(d'), inum);
  }

  lemma CreateDoes(d: Image, d': Image, inum: nat, typ: U16)
    requires FsInv(StoreOf(d)) && Does(d, d', Create(inum, typ))
    ensures FsInv(StoreOf(d')) && LiveFiles(StoreOf(d')) == LiveFiles(StoreOf(d))[inum := File(typ, [])]
    ensures inum !in LiveFiles(StoreOf(d))
  {
    var now: U32 :| Born(d, d', inum, typ, now);
    AllocInodeCorrect(d, d', inum, typ, now);
  }

  // The methods' outcomes, as operations.

  lemma ReadIs(d: Image, d': Image, inum: nat, now: U32)
    requires IsInum(inum) && Live(StoreOf(d), inum)
    requires d' == InodePut(d, inum, InodeOf(d[IBlock(inum)]).(atime := now, ctime := now))
    ensures Does(d, d', Read(inum))
  {
  }

  lemma RemoveIs(d: Image, d1: Image, d': Image, inum: nat)
    requires IsInum(inum) && Live(StoreOf(d), inum) && Freed(d, d1, inum) && d' == InodePut(d1, inum, NoInode())
    ensures Does(d, d', Remove(inum))
  {
  }

  lemma CreateIs(d: Image, d': Image, inum: nat, typ: U16, now: U32)
    requires InodeLeft(d) && typ != 0 && Born(d, d', inum, typ, now)
    ensures Does(d, d', Create(inum, typ))
  {
  }

  lemma OpDoes(d: Image, d': Image, op: Op)
    requires FsInv(StoreOf(d)) && Does(d, d', op)
    ensures FsInv(StoreOf(d')) && LiveFiles(StoreOf(d')) == Apply(LiveFiles(StoreOf(d)), op)
  {
    match op
    case Create(inum, typ) => CreateDoes(d, d', inum, typ);
    case Write(inum, content) => WriteDoes(d, d', inum, content);
    case Read(inum) => ReadDoes(d, d', inum);
    case Remove(inum) => RemoveDoes(d, d', inum);
  }

  /** Operation k takes each disk to the next. */
  ghost predicate Step(ds: seq<Image>, ops: seq<Op>, k: nat)
    requires k < |ops| < |ds|
  {
    forall d: Image, d': Image, op: Op {:trigger Does(d, d', op)}
      | d == ds[k] && d' == ds[k + 1] && op == ops[k] :: Does(d, d', op)
  }

  ghost predicate IsRun(ds: seq<Image>, ops: seq<Op>)
  {
    |ds| == |ops| + 1 && Formatted(ds[0]) && forall k: nat | k < |ops| :: Step(ds, ops, k)
  }

  lemma StepKept(ds: seq<Image>, ops: seq<Op>, d': Image, op: Op, k: nat)
    requires k < |ops| < |ds| && Step(ds, ops, k)
    ensures Step(ds + [d'], ops + [op], k)
  {
    var ds', ops' := ds + [d'], ops + [op];
    assert ds'[k] == ds[k] && ds'[k + 1] == ds[k + 1] && ops'[k] == ops[k];
  }

  lemma LastStep(ds: seq<Image>, ops: seq<Op>, d': Image, op: Op)
    requires |ds| == |ops| + 1 && Does(ds[|ops|], d', op)
    ensures Step(ds + [d'], ops + [op], |ops|)
  {
    var ds', ops' := ds + [d'], ops + [op];
    assert ds'[|ops|] == ds[|ops|] && ds'[|ops| + 1] == d' && ops'[|ops|] == op;
  }

  lemma RunMore(ds: seq<Image>, ops: seq<Op>, d': Image, op: Op)
    requires IsRun(ds, ops) && Step(ds + [d'], ops + [op], |ops|)
    ensures IsRun(ds + [d'], ops + [op])
  {
    var ds', ops' := ds + [d'], ops + [op];
    forall k: nat | k < |ops'| ensures Step(ds', ops', k) {
      if k < |ops| {
        StepKept(ds, ops, d', op, k);
      }
    }
  }

  lemma RunGoesOn(ds: seq<Image>, ops: seq<Op>, d': Image, op: Op)
    requires IsRun(ds, ops) && Does(ds[|ops|], d', op)
    ensures IsRun(ds + [d'], ops + [op]) && ApplyAll(ops + [op]) == Apply(ApplyAll(ops), op)
  {
    LastStep(ds, ops, d', op);
    RunMore(ds, ops, d', op);
    AppliedOneMore(ops, op);
  }

  lemma AppliedOneMore(ops: seq<Op>, op: Op)
    ensures ApplyAll(ops + [op]) == Apply(ApplyAll(ops), op)
  {
    assert (ops + [op])[..|ops|] == ops;
  }

  lemma RunPrefix(ds: seq<Image>, ops: seq<Op>)
    requires IsRun(ds, ops) && ops != []
    ensures IsRun(ds[..|ops|], ops[..|ops| - 1])
  {
    var ds', ops' := ds[..|ops|], ops[..|ops| - 1];
    forall k: nat | k < |ops'| ensures Step(ds', ops', k) {
      assert Step(ds, ops, k);
    }
  }

  /** In every run the disk stays sound and its files are what the operations made them. */
  lemma {:induction false} RunsKeepFiles(ds: seq<Image>, ops: seq<Op>)
    requires IsRun(ds, ops)
    ensures FsInv(StoreOf(ds[|ops|])) && LiveFiles(StoreOf(ds[|ops|])) == ApplyAll(ops)
  {
    var n := |ops|;
    if n == 0 {
      FormattedIsFs(ds[0]);
    } else {
      RunPrefix(ds, ops);
      RunsKeepFiles(ds[..n], ops[..n - 1]);
      assert Step(ds, ops, n - 1) && Does(ds[n - 1], ds[n - 1 + 1], ops[n - 1]);
      OpDoes(ds[n - 1], ds[n], ops[n - 1]);
    }
  }

  lemma StagedKeepsFirst(d: Image, d2: Image, d': Image, i: nat, a: seq<U32>, content: seq<U8>, junk: Block, now: U32)
    requires IsInum(i) && |content| <= MAX_SIZE && Staged(d, d2, d', i, a, content, junk, now)
    requires Distinct(a) && DataOnly(a)
    ensures StoreOf(d').table[0] == StoreOf(d).table[0]
  {
    StagedSpread(d, d2, d', i, a, content, junk, now);
  }

  lemma WriteKeepsFirst(d: Image, d': Image, inum: nat, content: seq<U8>)
    requires FsInv(StoreOf(d)) && Does(d, d', Write(inum, content))
    ensures StoreOf(d').table[0] == StoreOf(d).table[0]
  {
    var d2: Image, a: seq<U32>, junk: Block, now: U32 :| Staged(d, d2, d', inum, a, content, junk, now);
    NumbersFacts(StoreOf(d), inum, |content|, a);
    StagedKeepsFirst(d, d2, d', inum, a, content, junk, now);
  }

  lemma CreateKeepsFirst(d: Image, d': Image, inum: nat, typ: U16)
    requires Does(d, d', Create(inum, typ))
    ensures StoreOf(d').table[0] == StoreOf(d).table[0]
  {
    var now: U32 :| Born(d, d', inum, typ, now);
    FreshExactlyWhenLeft(d, d', inum, typ, now);
    assert d'[IBlock(0)] == d[IBlock(0)];
  }

  lemma ReadKeepsFirst(d: Image, d': Image, inum: nat)
    requires Does(d, d', Read(inum))
    ensures StoreOf(d').table[0] == StoreOf(d).table[0]
  {
    var now: U32 :| d' == InodePut(d, inum, InodeOf(d[IBlock(inum)]).(atime := now, ctime := now));
    InodePutIs(d, d', inum, InodeOf(d[IBlock(inum)]).(atime := now, ctime := now));
  }

  lemma RemoveKeepsFirst(d: Image, d': Image, inum: nat)
    requires Does(d, d', Remove(inum))
    ensures StoreOf(d').table[0] == StoreOf(d).table[0]
  {
    var d1: Image :| Freed(d, d1, inum) && d' == InodePut(d1, inum, NoInode());
    SameDataSame(d, d1);
    InodePutIs(d1, d', inum, NoInode());
  }

  /** No operation touches the block of inode 0. */
  lemma OpKeepsFirst(d: Image, d': Image, op: Op)
    requires FsInv(StoreOf(d)) && Does(d, d', op)
    ensures StoreOf(d').table[0] == StoreOf(d).table[0]
  {
    match op
    case Create(inum, typ) => CreateKeepsFirst(d, d', inum, typ);
    case Write(inum, content) => WriteKeepsFirst(d, d', inum, content);
    case Read(inum) => ReadKeepsFirst(d, d', inum);
    case Remove(inum) => RemoveKeepsFirst(d, d', inum);
  }

  /** In every run inode 0 stays without a type. */
  lemma {:induction false} RunsKeepFirst(ds: seq<Image>, ops: seq<Op>)
    requires IsRun(ds, ops)
    ensures TypeOf(ds[|ops|][IBlock(0)]) == 0
  {
    var n := |ops|;
    if n == 0 {
      FormattedFirst(ds[0]);
    } else {
      RunPrefix(ds, ops);
      RunsKeepFirst(ds[..n], ops[..n - 1]);
      RunsKeepFiles(ds[..n], ops[..n - 1]);
      assert Step(ds, ops, n - 1) && Does(ds[n - 1], ds[n - 1 + 1], ops[n - 1]);
      OpKeepsFirst(ds[n - 1], ds[n], ops[n - 1]);
      assert StoreOf(ds[n]).table[0].typ == StoreOf(ds[n - 1]).table[0].typ;
    }
  }

  /** In every run no block is lost: what is not free is reserved or needed by a file. */
  lemma RunsConserveBlocks(ds: seq<Image>, ops: seq<Op>)
    requires IsRun(ds, ops)
    ensures |Below(BLOCK_NUM) - Used(ds[|ops|])| == 31734 - BlocksOwned(StoreOf(ds[|ops|]))
  {
    RunsKeepFiles(ds, ops);
    UsedBelow(ds[|ops|]);
    BlocksConserved(StoreOf(ds[|ops|]));
  }

  /** A disk as it is when the inode layer starts: formatted, with a root directory. */
  ghost predicate FreshDisk(d: Image)
  {
    exists d0: Image :: IsRun([d0, d], [Create(1, T_DIR)])
  }

  lemma FirstBorn(d0: Image, d: Image, inum: nat, now: U32)
    requires TypeOf(d0[IBlock(1)]) == 0 && Born(d0, d, inum, T_DIR, now)
    ensures inum == 1 && InodeLeft(d0)
  {
    assert IsInum(1);
  }

  /** The first inode handed out is 1. */
  lemma FirstFile(d0: Image, d: Image, inum: nat, now: U32)
    requires Formatted(d0) && Born(d0, d, inum, T_DIR, now)
    ensures inum == 1 && FreshDisk(d)
  {
    FormattedIsFs(d0);
    FirstBorn(d0, d, inum, now);
    CreateIs(d0, d, inum, T_DIR, now);
    assert Step([d0, d], [Create(1, T_DIR)], 0);
    assert IsRun([d0, d], [Create(1, T_DIR)]);
  }

  lemma FreshRun(d: Image) returns (d0: Image)
    requires FreshDisk(d)
    ensures IsRun([d0, d], [Create(1, T_DIR)])
  {
    d0 :| IsRun([d0, d], [Create(1, T_DIR)]);
  }

  /** It holds an empty root directory and nothing else. */
  lemma FreshFiles(d: Image)
    requires FreshDisk(d)
    ensures FsInv(StoreOf(d)) && LiveFiles(StoreOf(d)) == map[1 := File(T_DIR, [])]
  {
    var d0: Image :| IsRun([d0, d], [Create(1, T_DIR)]);
    RunsKeepFiles([d0, d], [Create(1, T_DIR)]);
    FirstApplied();
  }

  lemma FirstApplied()
    ensures ApplyAll([Create(1, T_DIR)]) == map[1 := File(T_DIR, [])]
  {
    assert [Create(1, T_DIR)][..0] == [];
    assert ApplyAll([]) == map[];
  }
}
