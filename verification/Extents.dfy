/** The extent server: files by number, kept by the inode layer. */
module Extents {
  import opened Bits
  import opened Words
  import opened Disk
  import opened Allocation
  import opened Bitmap
  import opened Inodes
  import opened Files
  import opened FileSpace
  import opened Images
  import opened FileRuns
  import opened InodeLayer

  // ---- files as a map --------------------------------------------------------------------

  /** i is the least inode number that no file has. */
  ghost predicate IsLeastFree(m: map<nat, File>, i: nat)
  {
    IsInum(i) && i !in m && forall k: nat | IsInum(k) && k < i :: k in m
  }

  ghost predicate InumLeft(m: map<nat, File>)
  {
    exists i: nat :: IsLeastFree(m, i)
  }

  function NeedOf(m: map<nat, File>, i: nat): nat
  {
    if i in m then TotalBlocks(Blocks(|m[i].data|)) else 0
  }

  function Needs(m: map<nat, File>): (ns: seq<nat>)
    ensures |ns| == 1022 && forall k | 0 <= k < 1022 :: ns[k] == NeedOf(m, k + 1)
  {
    seq(1022, k requires 0 <= k < 1022 => NeedOf(m, k + 1))
  }

  /** The blocks that files with these contents take. */
  function BlocksNeeded(m: map<nat, File>): nat
  {
    Sum(Needs(m))
  }

  /** A content of this size fits, in place of what file i holds now. */
  predicate Fits(m: map<nat, File>, i: nat, size: nat)
  {
    size <= MAX_SIZE && BlocksNeeded(m) - NeedOf(m, i) + TotalBlocks(Blocks(size)) <= 31734
  }

  lemma {:induction false} SumUpdate(ns: seq<nat>, k: nat, n: nat)
    requires k < |ns|
    ensures Sum(ns[k := n]) == Sum(ns) - ns[k] + n
  {
    var last := |ns| - 1;
    if k == last {
      assert ns[k := n][..last] == ns[..last];
    } else {
      SumUpdate(ns[..last], k, n);
      assert ns[k := n][..last] == ns[..last][k := n];
    }
  }

  /** What a change of one file does to the blocks needed. */
  lemma NeededAfter(m: map<nat, File>, m': map<nat, File>, i: nat)
    requires IsInum(i) && forall k: nat | k != i :: NeedOf(m', k) == NeedOf(m, k)
    ensures BlocksNeeded(m') == BlocksNeeded(m) - NeedOf(m, i) + NeedOf(m', i)
  {
    SumUpdate(Needs(m), i - 1, NeedOf(m', i));
    assert Needs(m') == Needs(m)[i - 1 := NeedOf(m', i)];
  }

  lemma SizesOfFiles(v: Store, i: nat)
    requires IsInum(i) && InodeInv(v, i)
    ensures BlocksOf(v, i) == NeedOf(LiveFiles(v), i)
  {
    LiveIsFile(v, i);
  }

  lemma NeededIsOwned(v: Store)
    requires FsInv(v)
    ensures BlocksOwned(v) == BlocksNeeded(LiveFiles(v))
  {
    forall k | 0 <= k < 1022 ensures BlockCounts(v)[k] == Needs(LiveFiles(v))[k] {
      InvOf(v, k + 1);
      SizesOfFiles(v, k + 1);
    }
    assert BlockCounts(v) == Needs(LiveFiles(v));
  }

  /** Files on a disk never need more than the disk has. */
  lemma FilesFit(v: Store)
    requires FsInv(v) && v.used <= Below(BLOCK_NUM)
    ensures BlocksNeeded(LiveFiles(v)) <= 31734
    ensures forall i | i in LiveFiles(v) :: IsInum(i) && |LiveFiles(v)[i].data| <= MAX_SIZE
  {
    BlocksConserved(v);
    NeededIsOwned(v);
    forall i | i in LiveFiles(v) ensures |LiveFiles(v)[i].data| <= MAX_SIZE {
      InvOf(v, i);
      LiveIsFile(v, i);
    }
  }

  /** There is room on the disk exactly when the sizes of the files say so. */
  lemma RoomByFiles(v: Store, i: nat, size: nat)
    requires FsInv(v) && v.used <= Below(BLOCK_NUM) && IsInum(i) && size <= MAX_SIZE
    ensures RoomFor(v, i, size) <==> Fits(LiveFiles(v), i, size)
  {
    RoomBySizes(v, i, size);
    NeededIsOwned(v);
    InvOf(v, i);
    SizesOfFiles(v, i);
  }

  lemma DeadIsNoFile(d: Image, i: nat)
    requires FsInv(StoreOf(d)) && IsInum(i)
    ensures TypeOf(d[IBlock(i)]) == 0 <==> i !in LiveFiles(StoreOf(d))
  {
    InvOf(StoreOf(d), i);
    LiveIsFile(StoreOf(d), i);
    TableType(d, i);
  }

  lemma {:induction false} LeastFreeFrom(m: map<nat, File>, k: nat)
    requires IsInum(k) && k !in m
    ensures InumLeft(m)
  {
    if j: nat :| IsInum(j) && j < k && j !in m {
      LeastFreeFrom(m, j);
    } else {
      assert IsLeastFree(m, k);
    }
  }

  /** An inode is left exactly when some number has no file. */
  lemma InodeLeftByFiles(d: Image)
    requires FsInv(StoreOf(d))
    ensures InodeLeft(d) <==> InumLeft(LiveFiles(StoreOf(d)))
  {
    var m := LiveFiles(StoreOf(d));
    if InodeLeft(d) {
      var k: nat :| IsInum(k) && TypeOf(d[IBlock(k)]) == 0;
      DeadIsNoFile(d, k);
      LeastFreeFrom(m, k);
    } else if InumLeft(m) {
      var i: nat :| IsLeastFree(m, i);
      DeadIsNoFile(d, i);
    }
  }

  lemma LeastFreeByFiles(d: Image, d': Image, inum: nat, t: U16, now: U32)
    requires FsInv(StoreOf(d)) && InodeLeft(d) && t != 0 && Born(d, d', inum, t, now)
    ensures IsLeastFree(LiveFiles(StoreOf(d)), inum)
  {
    AllocInodeCorrect(d, d', inum, t, now);
    forall k: nat | IsInum(k) && k < inum ensures k in LiveFiles(StoreOf(d)) {
      LeastFreeInode(d, d', inum, t, now, k);
    }
  }

  /** The number of the file that an identifier stands for: its low 31 bits. */
  function Masked(id: nat): (r: nat)
    ensures r < 0x8000_0000 && exists q: nat :: id == 0x8000_0000 * q + r
  {
    assert id == 0x8000_0000 * (id / 0x8000_0000) + id % 0x8000_0000;
    id % 0x8000_0000
  }

  lemma MaskedSmall(id: nat)
    requires IsInum(id)
    ensures Masked(id) == id
  {
  }

  datatype Attr = Attr(typ: nat, size: nat, atime: U32, mtime: U32, ctime: U32)

  function AttrOf(ino: Inode): Attr
  {
    Attr(ino.typ, ino.size, ino.atime, ino.mtime, ino.ctime)
  }

  // ---- the server ------------------------------------------------------------------------

  /** Clock readings and what is left over in buffers are arbitrary. */
  class ExtentServer {
    const im: InodeManager
    /** The operations of the inode layer so far, and the disks they left. */
    ghost var log: seq<Op>
    ghost var images: seq<Image>

    ghost predicate Valid()
      reads this, im, im.bm, im.bm.disk, im.bm.disk.blocks
    {
      im.Valid() && IsRun(images, log) && images[|log|] == im.Contents()
    }

    /** The files the server holds. */
    ghost function Held(): map<nat, File>
      reads this
    {
      ApplyAll(log)
    }

    /** What is held always fits the disk. */
    lemma HeldFits()
      requires Valid()
      ensures BlocksNeeded(Held()) <= 31734
      ensures forall i | i in Held() :: IsInum(i) && |Held()[i].data| <= MAX_SIZE
    {
      RunFits(images, log);
    }

    constructor ()
      ensures Valid() && fresh(im) && fresh(im.bm) && fresh(im.bm.disk) && fresh(im.bm.disk.blocks)
      ensures Held() == map[1 := File(T_DIR, [])]
    {
      var now: U32 := *;
      im := new InodeManager(now);
      new;
      ghost var d := FreshRun(im.Contents());
      images, log := [d, im.Contents()], [FileRuns.Create(1, T_DIR)];
      FirstApplied();
    }

    /** Takes the least free number.  With none left the answer is the root's number, or the first data
        block is overwritten. */
    method Create(t: U32) returns (id: nat)
      requires Valid() && Short(t) != 0
      modifies this, im.bm.disk.blocks
      ensures InumLeft(old(Held())) ==>
        Valid() && IsLeastFree(old(Held()), id) && Held() == old(Held())[id := File(Short(t), [])]
      ensures !InumLeft(old(Held())) && id == 1 ==> Valid() && Held() == old(Held())
      ensures !InumLeft(old(Held())) && id != 1 ==>
        id == 1023 && im.Valid() && im.Contents()[RESERVED] != old(im.Contents()[RESERVED])
    {
      var now: U32 := *;
      id := im.AllocInode(t, now);
      if InumLeft(Held()) {
        CreateGoesOn(images, log, im.Contents(), id, Short(t), now);
        images, log := images + [im.Contents()], log + [FileRuns.Create(id, Short(t))];
      } else {
        CreateGoesWrong(images, log, im.Contents(), id, Short(t), now);
      }
    }

    /** Replaces a file's content if it fits; otherwise the disk is not sound any more. */
    method Put(id: nat, buf: seq<U8>)
      requires Valid() && Masked(id) in Held() && |buf| <= MAX_SIZE
      modifies this, im.bm.disk.blocks
      ensures Fits(old(Held()), Masked(id), |buf|) ==>
        Valid() && Held() == old(Held())[Masked(id) := File(old(Held())[Masked(id)].typ, buf)]
      ensures !Fits(old(Held()), Masked(id), |buf|) ==> im.Valid() && !FsInv(im.State())
    {
      var i := Masked(id);
      WriteInRun(images, log, i, buf);
      if Fits(Held(), i, |buf|) {
        images, log := images + [im.Contents()], log + [Write(i, buf)];
      }
    }

    /** The empty text for a file that does not exist. */
    method Get(id: nat) returns (buf: seq<U8>)
      requires Valid() && Masked(id) != INODE_NUM - 1
      modifies this, im.bm.disk.blocks
      ensures Valid() && Held() == old(Held())
      ensures buf == if Masked(id) in Held() then Held()[Masked(id)].data else []
    {
      var i := Masked(id);
      buf := ReadInRun(images, log, i);
      if i in Held() {
        RunGoesOn(images, log, im.Contents(), Read(i));
        images, log := images + [im.Contents()], log + [Read(i)];
      }
    }

    method Remove(id: nat)
      requires Valid() && Masked(id) != INODE_NUM - 1
      modifies this, im.bm.disk.blocks
      ensures Valid() && Held() == old(Held()) - {Masked(id)}
    {
      var i := Masked(id);
      RemoveInRun(images, log, i);
      if i in Held() {
        RunGoesOn(images, log, im.Contents(), FileRuns.Remove(i));
        images, log := images + [im.Contents()], log + [FileRuns.Remove(i)];
      }
    }

    // The calls of the inode layer, at the end of a run.

    method WriteInRun(ghost ds: seq<Image>, ghost ops: seq<Op>, id: nat, buf: seq<U8>)
      requires im.Valid() && IsRun(ds, ops) && ds[|ops|] == im.Contents() && id in ApplyAll(ops) && |buf| <= MAX_SIZE
      modifies im.bm.disk.blocks
      ensures Fits(ApplyAll(ops), id, |buf|) ==>
        && IsRun(ds + [im.Contents()], ops + [Write(id, buf)])
        && ApplyAll(ops + [Write(id, buf)]) == ApplyAll(ops)[id := File(ApplyAll(ops)[id].typ, buf)]
      ensures !Fits(ApplyAll(ops), id, |buf|) ==> !FsInv(im.State())
    {
      WriteReady(ds, ops, id, |buf|);
      var now: U32 := *;
      var junk: Block := *;
      im.WriteFile(id, buf, junk, now);
      if Fits(ApplyAll(ops), id, |buf|) {
        WriteGoesOn(ds, ops, im.Contents(), id, buf);
      }
    }

    method ReadInRun(ghost ds: seq<Image>, ghost ops: seq<Op>, id: nat) returns (buf: seq<U8>)
      requires im.Valid() && IsRun(ds, ops) && ds[|ops|] == im.Contents() && id != INODE_NUM - 1
      modifies im.bm.disk.blocks
      ensures if id in ApplyAll(ops) then Does(old(im.Contents()), im.Contents(), Read(id))
              else im.Contents() == old(im.Contents())
      ensures buf == if id in ApplyAll(ops) then ApplyAll(ops)[id].data else []
    {
      RunAddressable(ds, ops, id);
      var now: U32 := *;
      var r := im.ReadFile(id, now);
      match r
      case None => buf := [];
      case Some(data) => buf := data;
    }

    method RemoveInRun(ghost ds: seq<Image>, ghost ops: seq<Op>, id: nat)
      requires im.Valid() && IsRun(ds, ops) && ds[|ops|] == im.Contents() && id != INODE_NUM - 1
      modifies im.bm.disk.blocks
      ensures if id in ApplyAll(ops) then Does(old(im.Contents()), im.Contents(), FileRuns.Remove(id))
              else im.Contents() == old(im.Contents())
    {
      RunAddressable(ds, ops, id);
      im.RemoveFile(id);
    }

    /** The attributes in the file's inode; zeros for a file that does not exist. */
    method GetAttr(id: nat) returns (a: Attr)
      requires Valid() && Masked(id) != INODE_NUM - 1
      ensures Masked(id) !in Held() ==> a == Attr(0, 0, 0, 0, 0)
      ensures Masked(id) in Held() ==>
        var i := Masked(id);
        && i < INODE_NUM && a.typ == Held()[i].typ && a.size == |Held()[i].data|
        && var ino := InodeOf(im.Contents()[IBlock(i)]);
           a.atime == ino.atime && a.mtime == ino.mtime && a.ctime == ino.ctime
    {
      var i := Masked(id);
      var got := im.GetInode(i);
      RunAddressable(images, log, i);
      if IsInum(i) {
        AttrOfFile(im.Contents(), i);
      }
      match got
      case None => a := Attr(0, 0, 0, 0, 0);
      case Some(ino) => a := AttrOf(ino);
    }
  }

  // ---- what runs mean for the files held ---------------------------------------------------

  lemma RunFits(ds: seq<Image>, ops: seq<Op>)
    requires IsRun(ds, ops)
    ensures BlocksNeeded(ApplyAll(ops)) <= 31734
    ensures forall i | i in ApplyAll(ops) :: IsInum(i) && |ApplyAll(ops)[i].data| <= MAX_SIZE
  {
    RunsKeepFiles(ds, ops);
    UsedBelow(ds[|ops|]);
    FilesFit(StoreOf(ds[|ops|]));
  }

  lemma CreateGoesOn(ds: seq<Image>, ops: seq<Op>, d': Image, inum: nat, t: U16, now: U32)
    requires IsRun(ds, ops) && InumLeft(ApplyAll(ops)) && t != 0 && Born(ds[|ops|], d', inum, t, now)
    ensures IsLeastFree(ApplyAll(ops), inum)
    ensures IsRun(ds + [d'], ops + [FileRuns.Create(inum, t)])
    ensures ApplyAll(ops + [FileRuns.Create(inum, t)]) == ApplyAll(ops)[inum := File(t, [])]
  {
    RunsKeepFiles(ds, ops);
    InodeLeftByFiles(ds[|ops|]);
    LeastFreeByFiles(ds[|ops|], d', inum, t, now);
    CreateIs(ds[|ops|], d', inum, t, now);
    RunGoesOn(ds, ops, d', FileRuns.Create(inum, t));
  }

  lemma CreateGoesWrong(ds: seq<Image>, ops: seq<Op>, d': Image, inum: nat, t: U16, now: U32)
    requires IsRun(ds, ops) && !InumLeft(ApplyAll(ops)) && t != 0 && Born(ds[|ops|], d', inum, t, now)
    ensures (inum == 1 && d' == ds[|ops|]) || (inum == 1023 && d'[RESERVED] != ds[|ops|][RESERVED])
  {
    RunsKeepFiles(ds, ops);
    InodeLeftByFiles(ds[|ops|]);
    FreshExactlyWhenLeft(ds[|ops|], d', inum, t, now);
  }

  lemma FirstAddressable(d: Image, id: nat)
    requires TypeOf(d[IBlock(0)]) == 0 && id != INODE_NUM - 1
    ensures Addressable(d, id)
  {
  }

  lemma RunAddressable(ds: seq<Image>, ops: seq<Op>, id: nat)
    requires IsRun(ds, ops) && id != INODE_NUM - 1
    ensures var d := ds[|ops|];
            FsInv(StoreOf(d)) && LiveFiles(StoreOf(d)) == ApplyAll(ops) && Addressable(d, id)
  {
    RunsKeepFiles(ds, ops);
    RunsKeepFirst(ds, ops);
    FirstAddressable(ds[|ops|], id);
  }

  lemma WriteGoesOn(ds: seq<Image>, ops: seq<Op>, d': Image, id: nat, buf: seq<U8>)
    requires IsRun(ds, ops) && id in ApplyAll(ops) && Does(ds[|ops|], d', Write(id, buf))
    ensures IsRun(ds + [d'], ops + [Write(id, buf)])
    ensures ApplyAll(ops + [Write(id, buf)]) == ApplyAll(ops)[id := File(ApplyAll(ops)[id].typ, buf)]
  {
    RunGoesOn(ds, ops, d', Write(id, buf));
  }

  lemma WriteReady(ds: seq<Image>, ops: seq<Op>, id: nat, size: nat)
    requires IsRun(ds, ops) && id in ApplyAll(ops) && size <= MAX_SIZE
    ensures var v := StoreOf(ds[|ops|]);
            FsInv(v) && IsInum(id) && Live(v, id) && (RoomFor(v, id, size) <==> Fits(ApplyAll(ops), id, size))
  {
    RunsKeepFiles(ds, ops);
    UsedBelow(ds[|ops|]);
    RoomByFiles(StoreOf(ds[|ops|]), id, size);
  }

  lemma AttrOfFile(d: Image, id: nat)
    requires FsInv(StoreOf(d)) && IsInum(id)
    ensures var m, ino := LiveFiles(StoreOf(d)), InodeOf(d[IBlock(id)]);
            && (ino.typ == 0 <==> id !in m)
            && (id in m ==> m[id].typ == ino.typ && |m[id].data| == ino.size)
  {
    DeadIsNoFile(d, id);
    InvOf(StoreOf(d), id);
    LiveIsFile(StoreOf(d), id);
  }
}
