/**
 Files as the inode layer keeps them: what a disk means in terms of marked blocks, inodes and
 blocks of data or pointers, the invariant that ties them together, and what one operation may
 change.
 */
module Files {
  import opened Bits
  import opened Words
  import opened Disk
  import opened Allocation
  import opened Inodes

  /** The blocks whose pointers fill a block. */
  type Pointers = s: seq<U32> | |s| == NINDIRECT witness seq(NINDIRECT, k => 0)

  /** A disk taken apart: the marked blocks, the inodes 0..1022, and every block read both as bytes
      and as pointers. */
  datatype Parts = Parts(used: set<nat>, table: seq<Inode>, words: seq<Pointers>, blocks: Image)

  type Store = v: Parts | |v.table| == 1023 && |v.words| == BLOCK_NUM
    witness Parts({}, seq<Inode>(1023, k => NoInode()), seq<Pointers>(BLOCK_NUM, k => seq(NINDIRECT, j => 0)),
                  seq<Block>(BLOCK_NUM, k => Zero()))

  /** The inodes whose blocks formatting reserves; 1 is the root directory. */
  predicate IsInum(i: nat)
  {
    1 <= i <= 1022
  }

  predicate Live(v: Store, i: nat)
    requires IsInum(i)
  {
    v.table[i].typ != 0
  }

  /** What stands for a block beyond the disk is never looked at. */
  function PointersAt(v: Store, n: nat): Pointers
  {
    if n < BLOCK_NUM then v.words[n] else v.words[0]
  }

  /** The blocks that hold a file's bytes, in order. */
  function DataBlocks(v: Store, ino: Inode): (bs: seq<U32>)
    requires ino.size <= MAX_SIZE
    ensures |bs| == Blocks(ino.size)
  {
    if Blocks(ino.size) <= NDIRECT then ino.blocks[..Blocks(ino.size)]
    else ino.blocks[..NDIRECT] + PointersAt(v, ino.blocks[NDIRECT])[..Blocks(ino.size) - NDIRECT]
  }

  /** All the blocks a file owns: those of its data, and the block of pointers if it has one. */
  function Owned(v: Store, ino: Inode): seq<U32>
    requires ino.size <= MAX_SIZE
  {
    DataBlocks(v, ino) + if Blocks(ino.size) > NDIRECT then [ino.blocks[NDIRECT]] else []
  }

  function ByteAt(d: Image, bs: seq<U32>, k: nat): U8
    requires k / BLOCK_SIZE < |bs|
  {
    BlockAt(d, bs[k / BLOCK_SIZE])[k % BLOCK_SIZE]
  }

  /** The first `size` bytes of the blocks bs. */
  function Gather(d: Image, bs: seq<U32>, size: nat): (s: seq<U8>)
    requires Blocks(size) <= |bs|
    ensures |s| == size
    ensures forall k | 0 <= k < size :: s[k] == ByteAt(d, bs, k)
  {
    seq(size, k requires 0 <= k < size => ByteAt(d, bs, k))
  }

  function Content(v: Store, ino: Inode): (s: seq<U8>)
    requires ino.size <= MAX_SIZE
  {
    Gather(v.blocks, DataBlocks(v, ino), ino.size)
  }

  // ---- the invariant -------------------------------------------------------------------

  ghost function OwnedSet(v: Store, i: nat): set<nat>
    requires IsInum(i)
  {
    if v.table[i].size <= MAX_SIZE then Elems(Owned(v, v.table[i])) else {}
  }

  predicate DataOnly(bs: seq<U32>)
  {
    forall k | 0 <= k < |bs| :: RESERVED <= bs[k] < BLOCK_NUM
  }

  /** An inode owns different data blocks; a free one has size 0. */
  ghost predicate InodeInv(v: Store, i: nat)
    requires IsInum(i)
  {
    && v.table[i].size <= MAX_SIZE
    && (!Live(v, i) ==> v.table[i].size == 0)
    && Distinct(Owned(v, v.table[i]))
    && DataOnly(Owned(v, v.table[i]))
  }

  ghost predicate Owner(v: Store, b: nat, i: nat)
  {
    IsInum(i) && b in OwnedSet(v, i)
  }

  /** Marked are exactly the reserved blocks and the blocks owned by some inode, and no block has
      two owners. */
  ghost predicate FsInv(v: Store)
  {
    && (forall i | IsInum(i) :: InodeInv(v, i))
    && (forall i, j | IsInum(i) && IsInum(j) && i != j :: OwnedSet(v, i) !! OwnedSet(v, j))
    && (forall b | b in v.used :: b < RESERVED || exists i :: Owner(v, b, i))
    && Below(RESERVED) <= v.used
    && (forall i | IsInum(i) :: OwnedSet(v, i) <= v.used)
  }

  lemma OwnedRange(v: Store, i: nat)
    requires IsInum(i) && InodeInv(v, i)
    ensures forall b | b in OwnedSet(v, i) :: RESERVED <= b < BLOCK_NUM
    ensures Below(RESERVED) !! OwnedSet(v, i)
  {
    forall b | b in OwnedSet(v, i) ensures RESERVED <= b < BLOCK_NUM {
      var k :| 0 <= k < |Owned(v, v.table[i])| && Owned(v, v.table[i])[k] == b;
    }
  }

  // ---- what files are to their users ---------------------------------------------------

  /** extent_protocol's type of directories. */
  const T_DIR: nat := 1

  datatype File = File(typ: nat, data: seq<U8>)

  ghost function FileAt(v: Store, i: nat): File
    requires IsInum(i) && v.table[i].size <= MAX_SIZE
  {
    File(v.table[i].typ, Content(v, v.table[i]))
  }

  /** The live files of a disk. */
  ghost function LiveFiles(v: Store): map<nat, File>
  {
    map i | 1 <= i <= 1022 && IsInum(i) && Live(v, i) && v.table[i].size <= MAX_SIZE :: FileAt(v, i)
  }

  lemma LiveIsFile(v: Store, i: nat)
    requires IsInum(i) && InodeInv(v, i)
    ensures i in LiveFiles(v) <==> Live(v, i)
    ensures Live(v, i) ==> LiveFiles(v)[i] == FileAt(v, i)
  {
  }

  // ---- one file changes, the others do not -----------------------------------------------

  /** The two disks agree on the data blocks among these. */
  ghost predicate Agree(v: Store, v': Store, s: set<nat>)
  {
    forall b | b in s && RESERVED <= b < BLOCK_NUM :: v'.blocks[b] == v.blocks[b] && v'.words[b] == v.words[b]
  }

  lemma SameBlocks(v: Store, v': Store, ino: Inode)
    requires ino.size <= MAX_SIZE && DataOnly(Owned(v, ino)) && Agree(v, v', Elems(Owned(v, ino)))
    ensures DataBlocks(v', ino) == DataBlocks(v, ino)
  {
    if Blocks(ino.size) > NDIRECT {
      var owned := Owned(v, ino);
      assert owned[|owned| - 1] == ino.blocks[NDIRECT];
      assert ino.blocks[NDIRECT] in Elems(owned);
    }
  }

  lemma SameBytes(d: Image, d': Image, bs: seq<U32>, size: nat)
    requires Blocks(size) <= |bs|
    requires forall j | 0 <= j < |bs| :: bs[j] < BLOCK_NUM && d'[bs[j]] == d[bs[j]]
    ensures Gather(d', bs, size) == Gather(d, bs, size)
  {
  }

  /** A file keeps its blocks and its bytes when the blocks it owns are not written. */
  lemma SameContent(v: Store, v': Store, ino: Inode)
    requires ino.size <= MAX_SIZE && DataOnly(Owned(v, ino)) && Agree(v, v', Elems(Owned(v, ino)))
    ensures Owned(v', ino) == Owned(v, ino) && Content(v', ino) == Content(v, ino)
  {
    SameBlocks(v, v', ino);
    var bs, owned := DataBlocks(v, ino), Owned(v, ino);
    forall j | 0 <= j < |bs| ensures bs[j] < BLOCK_NUM && v'.blocks[bs[j]] == v.blocks[bs[j]] {
      assert owned[j] == bs[j] && owned[j] in Elems(owned);
    }
    SameBytes(v.blocks, v'.blocks, bs, ino.size);
  }

  /** v' differs from v in inode i, in blocks that were free or owned by i, and in their marks. */
  ghost predicate ChangesOnly(v: Store, v': Store, i: nat)
    requires IsInum(i)
  {
    && InodeInv(v', i)
    && (forall j: nat | IsInum(j) && j != i :: v'.table[j] == v.table[j])
    && Agree(v, v', v.used - OwnedSet(v, i))
    && v'.used == (v.used - OwnedSet(v, i)) + OwnedSet(v', i)
    && OwnedSet(v', i) !! v.used - OwnedSet(v, i)
  }

  lemma OtherFile(v: Store, v': Store, i: nat, j: nat)
    requires IsInum(i) && IsInum(j) && InodeInv(v, j) && OwnedSet(v, j) <= v.used && OwnedSet(v, i) !! OwnedSet(v, j)
    requires v'.table[j] == v.table[j] && Agree(v, v', v.used - OwnedSet(v, i))
    ensures InodeInv(v', j) && OwnedSet(v', j) == OwnedSet(v, j)
    ensures (j in LiveFiles(v') <==> j in LiveFiles(v)) && (j in LiveFiles(v) ==> LiveFiles(v')[j] == LiveFiles(v)[j])
  {
    SameContent(v, v', v.table[j]);
  }

  lemma OneFileChanges(v: Store, v': Store, i: nat)
    requires FsInv(v) && IsInum(i) && ChangesOnly(v, v', i)
    ensures FsInv(v')
  {
    forall j | IsInum(j) ensures InodeInv(v', j) && OwnedSet(v', j) <= v'.used {
      if j != i { OtherFile(v, v', i, j); }
    }
    forall j, k | IsInum(j) && IsInum(k) && j != k ensures OwnedSet(v', j) !! OwnedSet(v', k) {
      if j != i { OtherFile(v, v', i, j); }
      if k != i { OtherFile(v, v', i, k); }
      assert OwnedSet(v, j) !! OwnedSet(v, k);
    }
    forall b | b in v'.used ensures b < RESERVED || exists k :: Owner(v', b, k) {
      if b in OwnedSet(v', i) {
        assert Owner(v', b, i);
      } else if b >= RESERVED {
        var k :| Owner(v, b, k);
        OtherFile(v, v', i, k);
        assert Owner(v', b, k);
      }
    }
    OwnedRange(v, i);
  }

  lemma MapStep<K, V>(m: map<K, V>, m': map<K, V>, i: K)
    requires forall j | j != i :: (j in m' <==> j in m) && (j in m ==> m'[j] == m[j])
    ensures i in m' ==> m' == m[i := m'[i]]
    ensures i !in m' ==> m' == m - {i}
  {
  }

  /** The users' view: file i becomes what the disk now holds for it, and no other file changes. */
  lemma OneFileView(v: Store, v': Store, i: nat)
    requires FsInv(v) && IsInum(i) && ChangesOnly(v, v', i)
    ensures Live(v', i) ==> LiveFiles(v') == LiveFiles(v)[i := FileAt(v', i)]
    ensures !Live(v', i) ==> LiveFiles(v') == LiveFiles(v) - {i}
  {
    var m, m' := LiveFiles(v), LiveFiles(v');
    forall j | j != i
      ensures (j in m' <==> j in m) && (j in m ==> m'[j] == m[j])
    {
      if IsInum(j) {
        assert InodeInv(v, j);
        OtherFile(v, v', i, j);
      }
    }
    LiveIsFile(v', i);
    MapStep(m, m', i);
  }

  // ---- reading, removing and creating ----------------------------------------------------

  /** No data block changes. */
  ghost predicate SameBlocksOfData(v: Store, v': Store)
  {
    forall b | RESERVED <= b < BLOCK_NUM :: v'.blocks[b] == v.blocks[b] && v'.words[b] == v.words[b]
  }

  /** Only inode i changes, and it keeps its table and size. */
  ghost predicate Restamped(v: Store, v': Store, i: nat, ino: Inode)
    requires IsInum(i)
  {
    && v'.table == v.table[i := ino] && ino.blocks == v.table[i].blocks && ino.size == v.table[i].size
    && v'.used == v.used && SameBlocksOfData(v, v')
  }

  lemma RestampedSame(v: Store, v': Store, i: nat, ino: Inode)
    requires IsInum(i) && InodeInv(v, i) && Restamped(v, v', i, ino)
    ensures Owned(v', ino) == Owned(v, v.table[i]) && Content(v', ino) == Content(v, v.table[i])
  {
    OwnedRange(v, i);
    SameContent(v, v', v.table[i]);
  }

  lemma RestampedChanges(v: Store, v': Store, i: nat, ino: Inode)
    requires IsInum(i) && InodeInv(v, i) && OwnedSet(v, i) <= v.used
    requires Restamped(v, v', i, ino) && (ino.typ == 0 ==> ino.size == 0)
    ensures ChangesOnly(v, v', i)
  {
    RestampedSame(v, v', i, ino);
    assert OwnedSet(v', i) == OwnedSet(v, i);
  }

  /** read_file stamps the inode and changes no file. */
  lemma ReadKeepsFiles(v: Store, v': Store, i: nat, ino: Inode)
    requires FsInv(v) && IsInum(i) && Live(v, i) && Restamped(v, v', i, ino) && ino.typ == v.table[i].typ
    ensures FsInv(v') && LiveFiles(v') == LiveFiles(v)
  {
    assert InodeInv(v, i);
    RestampedChanges(v, v', i, ino);
    OneFileChanges(v, v', i);
    OneFileView(v, v', i);
    RestampedSame(v, v', i, ino);
    LiveIsFile(v, i);
  }

  /** alloc_inode gives a free inode a type, and adds an empty file. */
  lemma BirthAddsFile(v: Store, v': Store, i: nat, ino: Inode)
    requires FsInv(v) && IsInum(i) && !Live(v, i) && Restamped(v, v', i, ino) && ino.typ != 0
    ensures FsInv(v') && i !in LiveFiles(v) && LiveFiles(v') == LiveFiles(v)[i := File(ino.typ, [])]
  {
    assert InodeInv(v, i);
    RestampedChanges(v, v', i, ino);
    OneFileChanges(v, v', i);
    OneFileView(v, v', i);
    assert FileAt(v', i) == File(ino.typ, []);
  }

  /** remove_file clears the inode and unmarks the blocks it owned. */
  ghost predicate Removed(v: Store, v': Store, i: nat)
    requires IsInum(i)
  {
    v'.table == v.table[i := NoInode()] && v'.used == v.used - OwnedSet(v, i) && SameBlocksOfData(v, v')
  }

  lemma RemovedChanges(v: Store, v': Store, i: nat)
    requires IsInum(i) && Removed(v, v', i)
    ensures ChangesOnly(v, v', i) && !Live(v', i)
  {
    assert Owned(v', NoInode()) == [];
    assert OwnedSet(v', i) == {};
  }

  /** remove_file gives back exactly the blocks the file owned, and its inode. */
  lemma RemovalDropsFile(v: Store, v': Store, i: nat)
    requires FsInv(v) && IsInum(i) && Removed(v, v', i)
    ensures FsInv(v') && LiveFiles(v') == LiveFiles(v) - {i}
  {
    RemovedChanges(v, v', i);
    OneFileChanges(v, v', i);
    OneFileView(v, v', i);
  }

  // ---- writing a file ------------------------------------------------------------------

  /** The blocks a file of n data blocks needs. */
  function TotalBlocks(n: nat): nat
  {
    if n > NDIRECT then n + 1 else n
  }

  /** The numbers handed out for a file go to its direct blocks, then to its pointer block, then
      to its indirect blocks. */
  function DataPart(a: seq<U32>): (bs: seq<U32>)
    ensures |bs| == if |a| <= NDIRECT then |a| else |a| - 1
    ensures forall j | 0 <= j < |bs| :: bs[j] == if j < NDIRECT then a[j] else a[j + 1]
  {
    if |a| <= NDIRECT then a else a[..NDIRECT] + a[NDIRECT + 1..]
  }

  /** The inode's block table once these numbers are entered; other slots keep what they held. */
  function Entered(blocks: seq<U32>, a: seq<U32>): (r: seq<U32>)
    requires |blocks| == NDIRECT + 1
    ensures |r| == NDIRECT + 1
    ensures forall k | 0 <= k <= NDIRECT :: r[k] == if k < |a| then a[k] else blocks[k]
  {
    seq(NDIRECT + 1, k requires 0 <= k <= NDIRECT => if k < |a| then a[k] else blocks[k])
  }

  function NewInode(ino: Inode, a: seq<U32>, size: U32, now: U32): Inode
  {
    ino.(blocks := Entered(ino.blocks, a), size := size, mtime := now, ctime := now)
  }

  /** The j-th block of a content; what follows the end of the content is left over in the buffer. */
  function Chunk(content: seq<U8>, j: nat, junk: Block): Block
    requires j < Blocks(|content|)
  {
    if |content| - BLOCK_SIZE * j > BLOCK_SIZE then content[BLOCK_SIZE * j..BLOCK_SIZE * j + BLOCK_SIZE]
    else content[BLOCK_SIZE * j..] + junk[|content| - BLOCK_SIZE * j..]
  }

  lemma ChunkByte(content: seq<U8>, k: nat, junk: Block)
    requires k < |content|
    ensures k / BLOCK_SIZE < Blocks(|content|)
    ensures Chunk(content, k / BLOCK_SIZE, junk)[k % BLOCK_SIZE] == content[k]
  {
    assert k == BLOCK_SIZE * (k / BLOCK_SIZE) + k % BLOCK_SIZE;
  }

  /** What was cut into blocks is gathered from them again. */
  lemma GatherChunks(d: Image, bs: seq<U32>, content: seq<U8>, junk: Block)
    requires |bs| == Blocks(|content|)
    requires forall j | 0 <= j < |bs| :: bs[j] < BLOCK_NUM && d[bs[j]] == Chunk(content, j, junk)
    ensures Gather(d, bs, |content|) == content
  {
    forall k | 0 <= k < |content| ensures ByteAt(d, bs, k) == content[k] {
      ChunkByte(content, k, junk);
    }
  }

  /** The blocks left in use when inode i gives up its own. */
  ghost function Rest(v: Store, i: nat): set<nat>
    requires IsInum(i)
  {
    v.used - OwnedSet(v, i)
  }

  /** The numbers that write_file gets for a content of this size. */
  ghost function Numbers(v: Store, i: nat, size: nat): seq<U32>
    requires IsInum(i)
  {
    TakenNumbers(Rest(v, i), TotalBlocks(Blocks(size)))
  }

  /** What write_file leaves when it got the numbers a.  A 0 among them means that the disk was
      full; then only the inode and the pointers it wrote are known. */
  ghost predicate Wrote(v: Store, v': Store, i: nat, a: seq<U32>, content: seq<U8>, junk: Block, now: U32)
    requires IsInum(i) && |content| <= MAX_SIZE
  {
    && a == Numbers(v, i, |content|)
    && v'.table[i] == NewInode(v.table[i], a, |content|, now)
    && (|a| > NDIRECT && OnlyZeroRepeats(a) && a[NDIRECT] != 0 ==>
          v'.words[a[NDIRECT]][..|a| - NDIRECT - 1] == a[NDIRECT + 1..])
    && (Distinct(a) && DataOnly(a) ==> Spread(v, v', i, a, content, junk))
  }

  /** The content stands in the new blocks and nothing else is touched. */
  ghost predicate Spread(v: Store, v': Store, i: nat, a: seq<U32>, content: seq<U8>, junk: Block)
    requires IsInum(i) && |a| == TotalBlocks(Blocks(|content|)) && DataOnly(a)
  {
    && v'.table == v.table[i := v'.table[i]]
    && v'.used == Taken(Rest(v, i), |a|)
    && (forall j | 0 <= j < Blocks(|content|) :: v'.blocks[DataPart(a)[j]] == Chunk(content, j, junk))
    && (forall b | RESERVED <= b < BLOCK_NUM && b !in a :: v'.blocks[b] == v.blocks[b] && v'.words[b] == v.words[b])
  }

  /** Enough blocks are unmarked, counting those the file gives up first. */
  ghost predicate RoomFor(v: Store, i: nat, size: nat)
    requires IsInum(i)
  {
    |Rest(v, i)| + TotalBlocks(Blocks(size)) <= BLOCK_NUM
  }

  lemma NumbersFacts(v: Store, i: nat, size: nat, a: seq<U32>)
    requires FsInv(v) && IsInum(i) && RoomFor(v, i, size) && a == Numbers(v, i, size)
    ensures Handed(Rest(v, i), a) && DataOnly(a) && Taken(Rest(v, i), |a|) == Rest(v, i) + Elems(a)
  {
    TakeMany(Rest(v, i), TotalBlocks(Blocks(size)));
    assert InodeInv(v, i);
    OwnedRange(v, i);
    DataNumbers(Rest(v, i), a);
  }

  /** The new inode finds the blocks it was given. */
  lemma NewBlocks(v: Store, ino: Inode, a: seq<U32>)
    requires ino.size <= MAX_SIZE && |a| == TotalBlocks(Blocks(ino.size))
    requires forall k | 0 <= k <= NDIRECT && k < |a| :: ino.blocks[k] == a[k]
    requires |a| > NDIRECT ==> a[NDIRECT] < BLOCK_NUM && v.words[a[NDIRECT]][..|a| - NDIRECT - 1] == a[NDIRECT + 1..]
    ensures DataBlocks(v, ino) == DataPart(a)
    ensures Owned(v, ino) == DataPart(a) + if |a| > NDIRECT then [a[NDIRECT]] else []
  {
  }

  lemma NewOwned(a: seq<U32>, owned: seq<U32>)
    requires Distinct(a) && DataOnly(a)
    requires owned == DataPart(a) + if |a| > NDIRECT then [a[NDIRECT]] else []
    ensures Distinct(owned) && DataOnly(owned) && Elems(owned) == Elems(a)
  {
    if |a| > NDIRECT {
      assert a == a[..NDIRECT] + [a[NDIRECT]] + a[NDIRECT + 1..];
    }
  }

  lemma WroteOwn(v: Store, v': Store, i: nat, a: seq<U32>, content: seq<U8>, junk: Block, now: U32)
    requires IsInum(i) && Live(v, i) && |content| <= MAX_SIZE && Wrote(v, v', i, a, content, junk, now)
    requires Distinct(a) && DataOnly(a)
    ensures InodeInv(v', i) && OwnedSet(v', i) == Elems(a) && FileAt(v', i) == File(v.table[i].typ, content)
  {
    var ino' := v'.table[i];
    NewBlocks(v', ino', a);
    NewOwned(a, Owned(v', ino'));
    GatherChunks(v'.blocks, DataPart(a), content, junk);
  }

  lemma WroteChanges(v: Store, v': Store, i: nat, a: seq<U32>, content: seq<U8>, junk: Block, now: U32)
    requires IsInum(i) && Live(v, i) && |content| <= MAX_SIZE && Wrote(v, v', i, a, content, junk, now)
    requires Handed(Rest(v, i), a) && DataOnly(a) && Taken(Rest(v, i), |a|) == Rest(v, i) + Elems(a)
    ensures ChangesOnly(v, v', i)
  {
    WroteOwn(v, v', i, a, content, junk, now);
    forall b | b in Rest(v, i) ensures b !in a {
      assert b in a ==> b in Elems(a);
    }
  }

  /** With room, write_file stores exactly the content, whatever the file held before, keeps its
      type, leaves every other file as it was, and keeps marks and ownership in step. */
  lemma WriteStoresFile(v: Store, v': Store, i: nat, a: seq<U32>, content: seq<U8>, junk: Block, now: U32)
    requires FsInv(v) && IsInum(i) && Live(v, i) && |content| <= MAX_SIZE && RoomFor(v, i, |content|)
    requires Wrote(v, v', i, a, content, junk, now)
    ensures FsInv(v') && i in LiveFiles(v)
    ensures LiveFiles(v') == LiveFiles(v)[i := File(LiveFiles(v)[i].typ, content)]
  {
    assert InodeInv(v, i);
    LiveIsFile(v, i);
    NumbersFacts(v, i, |content|, a);
    WroteOwn(v, v', i, a, content, junk, now);
    WroteChanges(v, v', i, a, content, junk, now);
    OneFileChanges(v, v', i);
    OneFileView(v, v', i);
  }

  // ---- a new disk ------------------------------------------------------------------------

  /** A formatted disk has no files and every data block free. */
  lemma BlankStore(v: Store)
    requires v.used == Below(RESERVED) && forall i: nat | IsInum(i) :: v.table[i].typ == 0 && v.table[i].size == 0
    ensures FsInv(v) && LiveFiles(v) == map[]
  {
    forall i: nat | IsInum(i) ensures OwnedSet(v, i) == {} && InodeInv(v, i) {
      assert Owned(v, v.table[i]) == [];
    }
    forall b | b in v.used ensures b < RESERVED {
      assert Before(b, RESERVED);
    }
  }
}
