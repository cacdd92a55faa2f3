/** The inode structure and the array of block numbers, laid over the bytes of a block. */
module Inodes {
  import opened Words
  import opened Disk

  const NDIRECT: nat := 32
  const NINDIRECT: nat := 128
  /** The largest file: 32 direct and 128 indirect blocks. */
  const MAX_SIZE: nat := 81920

  /** Blocks needed to hold n bytes. */
  function Blocks(n: nat): nat
  {
    (n + BLOCK_SIZE - 1) / BLOCK_SIZE
  }

  type U16 = v: nat | v < 65536

  datatype InodeData = Inode(typ: U16, size: U32, atime: U32, mtime: U32, ctime: U32, blocks: seq<U32>)

  type Inode = ino: InodeData | |ino.blocks| == NDIRECT + 1
    witness Inode(0, 0, 0, 0, 0, seq(NDIRECT + 1, k => 0))

  // ---- consecutive words ---------------------------------------------------------------

  /** The words vs written from word i on. */
  function PutWords(b: Block, i: nat, vs: seq<U32>): (b': Block)
    requires 4 * (i + |vs|) <= BLOCK_SIZE
    ensures forall k | 0 <= k < BLOCK_SIZE && !(i <= k / 4 < i + |vs|) :: b'[k] == b[k]
  {
    if vs == [] then b
    else
      var n := |vs| - 1;
      PutWord(PutWords(b, i, vs[..n]), i + n, vs[n])
  }

  lemma {:induction false} WordsPut(b: Block, i: nat, vs: seq<U32>, j: nat)
    requires 4 * (i + |vs|) <= BLOCK_SIZE && j < NINDIRECT
    ensures Word(PutWords(b, i, vs), j) == if i <= j < i + |vs| then vs[j - i] else Word(b, j)
  {
    if vs != [] {
      var n := |vs| - 1;
      WordsPut(b, i, vs[..n], j);
      WordPut(PutWords(b, i, vs[..n]), i + n, vs[n], j);
    }
  }

  /** The first m words of a block. */
  function WordsOf(b: Block, m: nat): (s: seq<U32>)
    requires m <= NINDIRECT
    ensures |s| == m && forall k | 0 <= k < m :: s[k] == Word(b, k)
  {
    if m == 0 then [] else WordsOf(b, m - 1) + [Word(b, m - 1)]
  }

  lemma WordsAre(b: Block, vs: seq<U32>)
    requires |vs| <= NINDIRECT && forall k | 0 <= k < |vs| :: Word(b, k) == vs[k]
    ensures WordsOf(b, |vs|) == vs
  {
  }

  lemma PointersPut(b: Block, ptrs: seq<U32>, b': Block)
    requires |ptrs| <= NINDIRECT && b' == PutWords(b, 0, ptrs)
    ensures forall k | 0 <= k < |ptrs| :: Word(b', k) == ptrs[k]
  {
    forall k | 0 <= k < |ptrs| ensures Word(b', k) == ptrs[k] {
      WordsPut(b, 0, ptrs, k);
    }
  }

  lemma PointersRound(b: Block, ptrs: seq<U32>)
    requires |ptrs| <= NINDIRECT
    ensures WordsOf(PutWords(b, 0, ptrs), |ptrs|) == ptrs
  {
    var b' := PutWords(b, 0, ptrs);
    PointersPut(b, ptrs, b');
    WordsAre(b', ptrs);
  }

  // ---- the inode -----------------------------------------------------------------------

  function TypeOf(b: Block): U16
  {
    var low: nat, high: nat := b[0], b[1];
    low + 256 * high
  }

  function PutType(b: Block, t: U16): Block
  {
    b[0 := t % 256][1 := t / 256]
  }

  function InodeOf(b: Block): Inode
  {
    Inode(TypeOf(b), Word(b, 1), Word(b, 2), Word(b, 3), Word(b, 4), WordsOf(b, 38)[5..])
  }

  function Fields(ino: Inode): (vs: seq<U32>)
    ensures |vs| == 37
  {
    [ino.size, ino.atime, ino.mtime, ino.ctime] + ino.blocks
  }

  function WithInode(b: Block, ino: Inode): Block
  {
    PutWords(PutType(b, ino.typ), 1, Fields(ino))
  }

  lemma TypePut(b: Block, t: U16)
    ensures TypeOf(PutType(b, t)) == t
    ensures forall j | 1 <= j < NINDIRECT :: Word(PutType(b, t), j) == Word(b, j)
  {
  }

  /** What put_inode writes is what get_inode reads. */
  lemma InodeRound(b: Block, ino: Inode)
    ensures InodeOf(WithInode(b, ino)) == ino
  {
    var b1 := PutType(b, ino.typ);
    TypePut(b, ino.typ);
    forall j | 1 <= j < 38 ensures Word(WithInode(b, ino), j) == Fields(ino)[j - 1] {
      WordsPut(b1, 1, Fields(ino), j);
    }
    forall k | 0 <= k <= NDIRECT ensures Word(WithInode(b, ino), 5 + k) == ino.blocks[k] {
      assert Fields(ino)[4 + k] == ino.blocks[k];
    }
    assert InodeOf(WithInode(b, ino)).blocks == ino.blocks;
  }

  /** Where the fields of the structure lie; bytes 2, 3 and those from 152 on are left alone. */
  lemma InodeLayout(b: Block, ino: Inode, k: nat)
    requires k < BLOCK_SIZE
    ensures var b' := WithInode(b, ino);
      && TypeOf(b') == ino.typ && Word(b', 1) == ino.size
      && Word(b', 2) == ino.atime && Word(b', 3) == ino.mtime && Word(b', 4) == ino.ctime
      && (5 <= k < 38 ==> Word(b', k) == ino.blocks[k - 5])
      && (k == 2 || k == 3 || k >= 152 ==> b'[k] == b[k])
  {
    InodeRound(b, ino);
    var b', b1 := WithInode(b, ino), PutType(b, ino.typ);
    assert InodeOf(b') == ino;
    if 5 <= k < 38 {
      WordsPut(b1, 1, Fields(ino), k);
    }
  }

  /** alloc_inode sets the type and the change time and nothing else. */
  function WithBirth(b: Block, t: U16, now: U32): Block
  {
    PutWord(PutType(b, t), 4, now)
  }

  lemma BirthInode(b: Block, t: U16, now: U32)
    ensures InodeOf(WithBirth(b, t, now)) == InodeOf(b).(typ := t, ctime := now)
  {
    TypePut(b, t);
    forall j | 1 <= j < 38 ensures Word(WithBirth(b, t, now), j) == if j == 4 then now else Word(b, j) {
      WordPut(PutType(b, t), 4, now, j);
    }
    assert InodeOf(WithBirth(b, t, now)).blocks == InodeOf(b).blocks;
  }

  /** What free_inode leaves. */
  function NoInode(): Inode
  {
    Inode(0, 0, 0, 0, 0, seq(NDIRECT + 1, k => 0))
  }
}
