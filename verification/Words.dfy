/** Unsigned integers laid over bytes. */
module Words {
  import opened Bits

  type U32 = v: nat | v < 0x1_0000_0000

  /** Byte j (0 is the least significant) of a 32-bit unsigned integer. */
  function Byte(v: U32, j: nat): U8
    requires j < 4
  {
    match j
    case 0 => v % 256
    case 1 => v / 256 % 256
    case 2 => v / 65536 % 256
    case _ => v / 16777216
  }

  /** The integer with these bytes, least significant first. */
  function Join(b0: U8, b1: U8, b2: U8, b3: U8): U32
  {
    b0 + 256 * b1 + 65536 * b2 + 16777216 * b3
  }

  lemma Digits(v: U32)
    ensures v == v % 256 + 256 * (v / 256 % 256) + 65536 * (v / 65536 % 256) + 16777216 * (v / 16777216)
    ensures v / 16777216 < 256
  {
  }

  lemma JoinBytes(v: U32)
    ensures Join(Byte(v, 0), Byte(v, 1), Byte(v, 2), Byte(v, 3)) == v
  {
    Digits(v);
  }

  /** Word i of a little-endian array of 32-bit integers. */
  function Word(b: seq<U8>, i: nat): U32
    requires 4 * i + 4 <= |b|
  {
    Join(b[4 * i], b[4 * i + 1], b[4 * i + 2], b[4 * i + 3])
  }

  function PutWord(b: seq<U8>, i: nat, v: U32): (b': seq<U8>)
    requires 4 * i + 4 <= |b|
    ensures |b'| == |b|
    ensures forall k | 0 <= k < |b| && k / 4 != i :: b'[k] == b[k]
  {
    b[4 * i := Byte(v, 0)][4 * i + 1 := Byte(v, 1)][4 * i + 2 := Byte(v, 2)][4 * i + 3 := Byte(v, 3)]
  }

  lemma WordPut(b: seq<U8>, i: nat, v: U32, j: nat)
    requires 4 * i + 4 <= |b| && 4 * j + 4 <= |b|
    ensures Word(PutWord(b, i, v), j) == if j == i then v else Word(b, j)
  {
    JoinBytes(v);
  }
}
