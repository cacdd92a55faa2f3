/** The marshall and unmarshall classes of rpc/marshall.h and rpc/rpc.cc. */
module Marshalling {
  import opened Bits
  import opened Words
  import opened Wire

  /** Room at the front of a buffer: the size of the packet and the larger of the two headers. */
  const HEADER: nat := 24
  const SIZE_FIELD: nat := 4
  const DEFAULT_SIZE: nat := 1024

  /** The fields of struct req_header and struct reply_header, as unsigned numbers. */
  datatype ReqHeader = ReqHeader(xid: U32, proc: U32, cltNonce: U32, srvNonce: U32, xidRep: U32)
  datatype ReplyHeader = ReplyHeader(xid: U32, ret: U32)

  function ReqBytes(h: ReqHeader): (s: Bytes)
    ensures |s| == 20
  {
    BigEndian(h.xid, 4) + BigEndian(h.proc, 4) + BigEndian(h.cltNonce, 4) + BigEndian(h.srvNonce, 4)
    + BigEndian(h.xidRep, 4)
  }

  function ReplyBytes(h: ReplyHeader): (s: Bytes)
    ensures |s| == 8
  {
    BigEndian(h.xid, 4) + BigEndian(h.ret, 4)
  }

  /** The number in four bytes from position i. */
  function WordAt(s: Bytes, i: nat): U32
    requires i + 4 <= |s|
  {
    Join(s[i + 3], s[i + 2], s[i + 1], s[i])
  }

  function ReqOf(s: Bytes): ReqHeader
    requires |s| == 20
  {
    ReqHeader(WordAt(s, 0), WordAt(s, 4), WordAt(s, 8), WordAt(s, 12), WordAt(s, 16))
  }

  function ReplyOf(s: Bytes): ReplyHeader
    requires |s| == 8
  {
    ReplyHeader(WordAt(s, 0), WordAt(s, 4))
  }

  lemma WordRound(s: Bytes, i: nat, x: U32)
    requires i + 4 <= |s| && s[i..i + 4] == BigEndian(x, 4)
    ensures WordAt(s, i) == x
  {
    var b := s[i..i + 4];
    assert b[0] == s[i] && b[1] == s[i + 1] && b[2] == s[i + 2] && b[3] == s[i + 3];
    FourBytes(x);
    JoinBytes(x);
  }

  /** A request's header is read back as it was written. */
  lemma ReqRound(h: ReqHeader)
    ensures ReqOf(ReqBytes(h)) == h
  {
    var s := ReqBytes(h);
    assert s[0..4] == BigEndian(h.xid, 4) && s[4..8] == BigEndian(h.proc, 4) && s[8..12] == BigEndian(h.cltNonce, 4);
    assert s[12..16] == BigEndian(h.srvNonce, 4) && s[16..20] == BigEndian(h.xidRep, 4);
    WordRound(s, 0, h.xid);
    WordRound(s, 4, h.proc);
    WordRound(s, 8, h.cltNonce);
    WordRound(s, 12, h.srvNonce);
    WordRound(s, 16, h.xidRep);
  }

  lemma ReplyRound(h: ReplyHeader)
    ensures ReplyOf(ReplyBytes(h)) == h
  {
    var s := ReplyBytes(h);
    assert s[0..4] == BigEndian(h.xid, 4) && s[4..8] == BigEndian(h.ret, 4);
    WordRound(s, 0, h.xid);
    WordRound(s, 4, h.ret);
  }

  /** The types that have operators: numbers of 1, 2, 4 or 8 bytes. */
  predicate WireType(t: Type)
  {
    match t
    case TBool => true
    case TNum(w) => w == 1 || w == 2 || w == 4 || w == 8
    case TSigned(w) => w == 1 || w == 2 || w == 4
    case TString => true
    case TVector(e) => WireType(e)
    case TMap(kt, vt) => WireType(kt) && WireType(vt)
  }

  /** Where the most significant of n bytes stand. */
  lemma FourBytes(x: U32)
    ensures BigEndian(x, 4) == [Byte(x, 3), Byte(x, 2), Byte(x, 1), Byte(x, 0)]
  {
    assert BigEndian(x / 16777216, 1) == BigEndian(x / 16777216 / 256, 0) + [x / 16777216 % 256];
    assert BigEndian(x / 65536, 2) == BigEndian(x / 65536 / 256, 1) + [x / 65536 % 256];
    assert BigEndian(x / 256, 3) == BigEndian(x / 256 / 256, 2) + [x / 256 % 256];
  }

  lemma TwoBytes(x: nat)
    ensures BigEndian(x, 2) == [x / 256 % 256, x % 256] && BigEndian(x, 1) == [x % 256]
  {
    assert BigEndian(x / 256, 1) == BigEndian(x / 256 / 256, 0) + [x / 256 % 256];
  }

  lemma EightBytes(hi: U32, lo: U32)
    ensures BigEndian(hi * 0x1_0000_0000 + lo, 8) == BigEndian(hi, 4) + BigEndian(lo, 4)
  {
    assert Pow256(4) == 0x1_0000_0000;
    BigEndianParts(hi, lo, 4, 4);
  }

  class Marshall {
    var buf: array?<U8>
    var capa: nat
    var ind: nat

    /** The capacity is the buffer's, and covers the write position. */
    ghost predicate Valid()
      reads this
    {
      buf != null && buf.Length == capa >= DEFAULT_SIZE && ind <= capa
    }

    /** All bytes up to the write position, the header's first. */
    ghost function Content(): Bytes
      requires Valid()
      reads this, buf
    {
      buf[..ind]
    }

    /** Only the buffer may have moved. */
    twostate predicate Kept()
      reads this
    {
      Valid() && (buf == old(buf) || fresh(buf))
    }

    constructor ()
      ensures Valid() && fresh(buf) && ind == HEADER
    {
      buf := new U8[DEFAULT_SIZE];
      capa := DEFAULT_SIZE;
      ind := HEADER;
    }

    /** realloc: a larger buffer with the old bytes in front. */
    method Grow(n: nat)
      requires Valid() && n >= capa
      modifies this
      ensures Valid() && capa == n && ind == old(ind) && fresh(buf)
      ensures forall k | 0 <= k < old(capa) :: buf[k] == old(buf[k])
    {
      var a := new U8[n];
      forall k | 0 <= k < capa {
        a[k] := buf[k];
      }
      buf, capa := a, n;
    }

    /** Doubling is always enough for one byte. */
    method RawByte(x: U8)
      requires Valid()
      modifies this, buf
      ensures Kept() && ind == old(ind) + 1 && Content() == old(Content()) + [x]
      ensures capa == if old(ind) < old(capa) then old(capa) else 2 * old(capa)
      ensures forall k | ind <= k < old(capa) :: buf[k] == old(buf[k])
    {
      if ind >= capa {
        Grow(2 * capa);
      }
      buf[ind] := x;
      ind := ind + 1;
    }

    /** memcpy to the write position. */
    method CopyIn(p: Bytes)
      requires Valid() && ind + |p| <= capa
      modifies buf
      ensures buf[..ind + |p|] == old(Content()) + p
    {
      ghost var before := Content();
      forall k | 0 <= k < |p| {
        buf[ind + k] := p[k];
      }
      assert buf[..ind] == before;
      assert buf[ind..ind + |p|] == p;
    }

    /** Doubling a buffer larger than the bytes, or adding their number to it, is enough for them. */
    method RawBytes(p: Bytes)
      requires Valid()
      modifies this, buf
      ensures Kept() && ind == old(ind) + |p| && Content() == old(Content()) + p
      ensures capa == if old(ind) + |p| <= old(capa) then old(capa)
                      else if old(capa) > |p| then 2 * old(capa) else old(capa) + |p|
    {
      var n := |p|;
      ghost var before := Content();
      if ind + n > capa {
        Grow(if capa > n then 2 * capa else capa + n);
      }
      assert Content() == before;
      CopyIn(p);
      ind := ind + n;
    }

    /** operator<< for unsigned int, and pack: most significant byte first. */
    method PutU32(x: U32)
      requires Valid()
      modifies this, buf
      ensures Kept() && ind == old(ind) + 4 && capa >= old(capa) && Content() == old(Content()) + BigEndian(x, 4)
      ensures forall k | ind <= k < old(capa) :: buf[k] == old(buf[k])
    {
      FourBytes(x);
      RawByte(Byte(x, 3));
      RawByte(Byte(x, 2));
      RawByte(Byte(x, 1));
      RawByte(Byte(x, 0));
    }

    method PutTwo(h: U32, l: U32)
      requires Valid()
      modifies this, buf
      ensures Kept() && ind == old(ind) + 8 && capa >= old(capa)
      ensures Content() == old(Content()) + (BigEndian(h, 4) + BigEndian(l, 4))
      ensures forall k | ind <= k < old(capa) :: buf[k] == old(buf[k])
    {
      ghost var before := Content();
      PutU32(h);
      PutU32(l);
      Regroup(before, BigEndian(h, 4), BigEndian(l, 4));
    }

    /** operator<< for unsigned long long: the high word, then the low word. */
    method PutU64(v: nat)
      requires Valid() && v < Pow256(8)
      modifies this, buf
      ensures Kept() && ind == old(ind) + 8 && Content() == old(Content()) + BigEndian(v, 8)
    {
      Halves(v);
      PutTwo(High(v), Low(v));
    }

    /** operator<< for the unsigned types. */
    method PutNum(v: nat, w: nat)
      requires Valid() && (w == 1 || w == 2 || w == 4 || w == 8) && v < Pow256(w)
      modifies this, buf
      ensures Kept() && ind == old(ind) + w && Content() == old(Content()) + BigEndian(v, w)
    {
      if w == 1 {
        TwoBytes(v);
        RawByte(v % 256);
      } else if w == 2 {
        TwoBytes(v);
        RawByte(v / 256 % 256);
        RawByte(v % 256);
      } else if w == 4 {
        assert Pow256(4) == 0x1_0000_0000;
        PutU32(v);
      } else {
        PutU64(v);
      }
    }

    /** operator<< for std::string. */
    method PutString(s: Bytes)
      requires Valid() && |s| < MAX_COUNT
      modifies this, buf
      ensures Kept() && ind == old(ind) + 4 + |s| && Content() == old(Content()) + (BigEndian(|s|, 4) + s)
    {
      PutU32(|s|);
      RawBytes(s);
    }

    /** The operator for a value's type. */
    method Put(v: Value, t: Type)
      requires Valid() && WireType(t) && HasType(v, t)
      modifies this, buf
      ensures Kept() && ind >= old(ind) && Content() == old(Content()) + Encode(v, t)
      decreases t, 1
    {
      match t
      case TBool => RawByte(if v.b then 1 else 0);
      case TNum(w) => PutNum(v.v, w);
      case TSigned(w) =>
        SignedRound(v.x, w);
        PutNum(Unsigned(v.x, w), w);
      case TString => PutString(v.s);
      case TVector(e) => PutVector(v.elems, e);
      case TMap(kt, vt) => PutMap(v.keys, v.vals, kt, vt);
    }

    /** operator<< for std::vector. */
    method PutVector(vs: seq<Value>, e: Type)
      requires Valid() && WireType(e) && |vs| < MAX_COUNT && forall k | 0 <= k < |vs| :: HasType(vs[k], e)
      modifies this, buf
      ensures Kept() && ind >= old(ind) && Content() == old(Content()) + (BigEndian(|vs|, 4) + EncodeElems(vs, e))
      decreases e, 3
    {
      ghost var before := Content();
      PutU32(|vs|);
      PutElems(vs, e);
      Regroup(before, BigEndian(|vs|, 4), EncodeElems(vs, e));
    }

    method PutElems(vs: seq<Value>, e: Type)
      requires Valid() && WireType(e) && forall k | 0 <= k < |vs| :: HasType(vs[k], e)
      modifies this, buf
      ensures Kept() && ind >= old(ind) && Content() == old(Content()) + EncodeElems(vs, e)
      decreases e, 2
    {
      ghost var goal := Content() + EncodeElems(vs, e);
      var i := 0;
      while i < |vs|
        invariant 0 <= i <= |vs| && Kept() && ind >= old(ind)
        invariant Content() + EncodeElems(vs[i..], e) == goal
      {
        ElemsHead(vs, e, i);
        ghost var done, rest := Content(), EncodeElems(vs[i + 1..], e);
        Put(vs[i], e);
        Regroup(done, Encode(vs[i], e), rest);
        i := i + 1;
      }
      assert Content() + [] == Content();
    }

    method PutPair(k: Value, v: Value, kt: Type, vt: Type)
      requires Valid() && WireType(kt) && WireType(vt) && HasType(k, kt) && HasType(v, vt)
      modifies this, buf
      ensures Kept() && ind >= old(ind) && Content() == old(Content()) + Encode(k, kt) + Encode(v, vt)
      decreases TMap(kt, vt), 0, 0
    {
      Put(k, kt);
      Put(v, vt);
    }

    /** operator<< for std::map, in the order of iteration. */
    method PutMap(ks: seq<Value>, vs: seq<Value>, kt: Type, vt: Type)
      requires Valid() && WireType(kt) && WireType(vt) && |ks| == |vs| < MAX_COUNT
      requires forall k | 0 <= k < |ks| :: HasType(ks[k], kt)
      requires forall k | 0 <= k < |vs| :: HasType(vs[k], vt)
      modifies this, buf
      ensures Kept() && ind >= old(ind)
      ensures Content() == old(Content()) + (BigEndian(|ks|, 4) + EncodePairs(ks, vs, kt, vt))
      decreases TMap(kt, vt), 0, 3
    {
      ghost var before := Content();
      PutU32(|ks|);
      PutPairs(ks, vs, kt, vt);
      Regroup(before, BigEndian(|ks|, 4), EncodePairs(ks, vs, kt, vt));
    }

    /** One round of its loop. */
    method PutNext(ks: seq<Value>, vs: seq<Value>, kt: Type, vt: Type, i: nat, ghost goal: Bytes)
      requires Valid() && WireType(kt) && WireType(vt) && i < |ks| == |vs|
      requires forall k | 0 <= k < |ks| :: HasType(ks[k], kt)
      requires forall k | 0 <= k < |vs| :: HasType(vs[k], vt)
      requires Content() + PairsFrom(ks, vs, kt, vt, i) == goal
      modifies this, buf
      ensures Kept() && ind >= old(ind) && Content() + PairsFrom(ks, vs, kt, vt, i + 1) == goal
      decreases TMap(kt, vt), 0, 1
    {
      PairsHead(ks, vs, kt, vt, i);
      ghost var done, rest := Content(), EncodePairs(ks[i + 1..], vs[i + 1..], kt, vt);
      PutPair(ks[i], vs[i], kt, vt);
      RegroupPair(done, Encode(ks[i], kt), Encode(vs[i], vt), rest);
    }

    method PutPairs(ks: seq<Value>, vs: seq<Value>, kt: Type, vt: Type)
      requires Valid() && WireType(kt) && WireType(vt) && |ks| == |vs|
      requires forall k | 0 <= k < |ks| :: HasType(ks[k], kt)
      requires forall k | 0 <= k < |vs| :: HasType(vs[k], vt)
      modifies this, buf
      ensures Kept() && ind >= old(ind) && Content() == old(Content()) + EncodePairs(ks, vs, kt, vt)
      decreases TMap(kt, vt), 0, 2
    {
      ghost var goal := Content() + PairsFrom(ks, vs, kt, vt, 0);
      var i := 0;
      while i < |ks|
        invariant 0 <= i <= |ks| && Kept() && ind >= old(ind)
        invariant Content() + PairsFrom(ks, vs, kt, vt, i) == goal
      {
        PutNext(ks, vs, kt, vt, i, goal);
        i := i + 1;
      }
    }

    /** Writes the header into the space kept for it; the body and the write position stay. */
    method PackReqHeader(h: ReqHeader)
      requires Valid() && ind >= HEADER
      modifies this, buf
      ensures Kept() && ind == old(ind)
      ensures Content()[SIZE_FIELD..HEADER] == ReqBytes(h) && Content()[HEADER..] == old(Content()[HEADER..])
    {
      var saved := ind;
      ghost var before := Content();
      ind := SIZE_FIELD;
      ghost var first := Content();
      PutTwo(h.xid, h.proc);
      PutTwo(h.cltNonce, h.srvNonce);
      PutU32(h.xidRep);
      ghost var packed := Content();
      FiveWords(first, BigEndian(h.xid, 4), BigEndian(h.proc, 4), BigEndian(h.cltNonce, 4), BigEndian(h.srvNonce, 4),
                BigEndian(h.xidRep, 4));
      assert packed[SIZE_FIELD..] == ReqBytes(h);
      ind := saved;
      assert Content()[..HEADER] == packed;
      assert forall k | HEADER <= k < ind :: Content()[k] == before[k];
    }

    method PackReplyHeader(h: ReplyHeader)
      requires Valid() && ind >= HEADER
      modifies this, buf
      ensures Kept() && ind == old(ind)
      ensures Content()[SIZE_FIELD..SIZE_FIELD + 8] == ReplyBytes(h) && Content()[HEADER..] == old(Content()[HEADER..])
    {
      var saved := ind;
      ghost var before := Content();
      ind := SIZE_FIELD;
      PutU32(h.xid);
      PutU32(h.ret);
      ghost var packed := Content();
      assert packed[SIZE_FIELD..] == ReplyBytes(h);
      ind := saved;
      assert Content()[..SIZE_FIELD + 8] == packed;
      assert forall k | HEADER <= k < ind :: Content()[k] == before[k];
    }

    /** Gives the buffer away. */
    method TakeBuf() returns (b: array<U8>, s: nat)
      requires Valid()
      modifies this
      ensures b == old(buf) && s == old(ind) <= b.Length && b[..s] == old(Content()) && buf == null && ind == 0
    {
      b, s := buf, ind;
      buf, ind := null, 0;
    }
  }

  lemma ElemsHead(vs: seq<Value>, e: Type, i: nat)
    requires i < |vs| && forall k | 0 <= k < |vs| :: HasType(vs[k], e)
    ensures EncodeElems(vs[i..], e) == Encode(vs[i], e) + EncodeElems(vs[i + 1..], e)
  {
    assert vs[i..][1..] == vs[i + 1..];
  }

  lemma PairsHead(ks: seq<Value>, vs: seq<Value>, kt: Type, vt: Type, i: nat)
    requires i < |ks| == |vs|
    requires forall k | 0 <= k < |ks| :: HasType(ks[k], kt)
    requires forall k | 0 <= k < |vs| :: HasType(vs[k], vt)
    ensures EncodePairs(ks[i..], vs[i..], kt, vt)
         == Encode(ks[i], kt) + Encode(vs[i], vt) + EncodePairs(ks[i + 1..], vs[i + 1..], kt, vt)
  {
    assert ks[i..][1..] == ks[i + 1..] && vs[i..][1..] == vs[i + 1..];
  }

  /** The pairs from number i on. */
  function PairsFrom(ks: seq<Value>, vs: seq<Value>, kt: Type, vt: Type, i: nat): (s: Bytes)
    requires i <= |ks| == |vs|
    requires forall k | 0 <= k < |ks| :: HasType(ks[k], kt)
    requires forall k | 0 <= k < |vs| :: HasType(vs[k], vt)
    ensures i == 0 ==> s == EncodePairs(ks, vs, kt, vt)
    ensures i == |ks| ==> s == []
  {
    assert ks[0..] == ks && vs[0..] == vs;
    EncodePairs(ks[i..], vs[i..], kt, vt)
  }

  lemma RegroupPair(a: Bytes, b: Bytes, c: Bytes, d: Bytes)
    ensures a + (b + c + d) == a + b + c + d
  {
  }

  function High(v: nat): U32
    requires v < Pow256(8)
  {
    assert Pow256(8) == 0x1_0000_0000_0000_0000;
    v / 0x1_0000_0000
  }

  function Low(v: nat): U32
  {
    v % 0x1_0000_0000
  }

  lemma Halves(v: nat)
    requires v < Pow256(8)
    ensures BigEndian(v, 8) == BigEndian(High(v), 4) + BigEndian(Low(v), 4)
  {
    EightBytes(High(v), Low(v));
  }

  lemma FiveWords(a: Bytes, b: Bytes, c: Bytes, d: Bytes, e: Bytes, f: Bytes)
    ensures a + (b + c) + (d + e) + f == a + (b + c + d + e + f)
  {
  }

  // ---- unmarshalling -------------------------------------------------------------------

  /** A read that should yield `want` did so; or failed, if it had to or failed before. */
  predicate Follows<T(==)>(ok0: bool, want: Read<T>, ok1: bool, v: T, rest1: Bytes)
  {
    if ok0 && want.Got? then ok1 && v == want.value && rest1 == want.rest else !ok1
  }

  /** More elements in front of what a read yields. */
  function Prepended(vs: seq<Value>, r: Read<seq<Value>>): Read<seq<Value>>
  {
    match r
    case Failed => Failed
    case Got(ws, rest) => Got(vs + ws, rest)
  }

  /** A count and that many elements. */
  function VectorRead(e: Type, s: Bytes): Read<seq<Value>>
  {
    match DecodeNum(4, s)
    case Failed => Failed
    case Got(n, r) => DecodeElems(e, n, r)
  }

  class Unmarshall {
    const buf: array<U8>
    const sz: nat
    var ind: nat
    var ok: bool

    ghost predicate Sized()
      reads this
    {
      sz <= buf.Length
    }

    ghost predicate Valid()
      reads this
    {
      Sized() && (ok ==> ind <= sz)
    }

    /** The bytes not yet read. */
    ghost function Rest(): Bytes
      requires Sized()
      reads this, buf
    {
      if ind <= sz then buf[ind..sz] else []
    }

    constructor (b: array<U8>, size: nat)
      requires size <= b.Length
      ensures Valid() && buf == b && sz == size && ind == 0 && ok
    {
      buf, sz, ind, ok := b, size, 0, true;
    }

    method OkDone() returns (done: bool)
      requires Valid()
      ensures done <==> ok && Rest() == []
    {
      done := ok && ind == sz;
    }

    /** 0 where nothing is left, and from then on the object is not ok. */
    method RawByte() returns (c: U8)
      requires Sized()
      modifies this
      ensures Valid()
      ensures Follows(old(ok), if old(Rest()) == [] then Failed else Got(old(Rest())[0], old(Rest())[1..]),
                      ok, c, Rest())
      ensures ok ==> ind == old(ind) + 1 <= sz
    {
      c := 0;
      if ind >= sz {
        ok := false;
      } else {
        c := buf[ind];
        ind := ind + 1;
      }
    }

    method TwoRawBytes() returns (b1: U8, b0: U8)
      requires Sized()
      modifies this
      ensures Valid()
      ensures Follows(old(ok),
                      if |old(Rest())| < 2 then Failed else Got((old(Rest())[0], old(Rest())[1]), old(Rest())[2..]),
                      ok, (b1, b0), Rest())
      ensures ok ==> ind == old(ind) + 2 <= sz
    {
      b1 := RawByte();
      b0 := RawByte();
    }

    /** operator>> for unsigned int, and unpack. */
    method GetU32() returns (x: U32)
      requires Sized()
      modifies this
      ensures Valid() && Follows(old(ok), DecodeNum(4, old(Rest())), ok, x, Rest())
      ensures ok ==> x == WordAt(old(Rest()), 0) && ind == old(ind) + 4 <= sz
    {
      ghost var s := Rest();
      var b3, b2 := TwoRawBytes();
      var b1, b0 := TwoRawBytes();
      WordRead(s);
      x := Join(b0, b1, b2, b3);
    }

    /** operator>> for the unsigned types. */
    method GetNum(w: nat) returns (x: nat)
      requires Valid() && (w == 1 || w == 2 || w == 4 || w == 8)
      modifies this
      ensures Valid() && Follows(old(ok), DecodeNum(w, old(Rest())), ok, x, Rest())
    {
      ghost var s := Rest();
      if w == 1 {
        x := RawByte();
        if |s| >= 1 { OneByteBack(s[0]); assert s[..1] == [s[0]]; }
      } else if w == 2 {
        var b1: nat := RawByte();
        var b0: nat := RawByte();
        if |s| >= 2 { TwoBytesBack(s[0], s[1]); assert s[..2] == [s[0], s[1]]; }
        x := 256 * b1 + b0;
      } else if w == 4 {
        x := GetU32();
      } else {
        var h: nat := GetU32();
        var l: nat := GetU32();
        HighThenLow(s);
        x := 0x1_0000_0000 * h + l;
      }
    }

    /** Replaces the string ss by the next n bytes if there are that many, on any object. */
    method RawBytes(ss: Bytes, n: nat) returns (str: Bytes)
      requires Sized()
      modifies this
      ensures ind <= sz || !ok ==> Valid()
      ensures old(ind) + n <= sz ==>
        ok == old(ok) && ind == old(ind) + n && str == old(Rest())[..n] && Rest() == old(Rest())[n..]
      ensures old(ind) + n > sz ==> !ok && ind == old(ind) && str == ss
    {
      str := ss;
      if ind + n > sz {
        ok := false;
      } else {
        ghost var s := Rest();
        str := buf[ind..ind + n];
        assert str == s[..n];
        ind := ind + n;
        assert Rest() == s[n..];
      }
    }

    /** operator>> for std::string. */
    method GetString() returns (str: Bytes)
      requires Valid()
      modifies this
      ensures Valid() && Follows(old(ok), Decode(TString, old(Rest())), ok, String(str), Rest())
    {
      str := [];
      var n := GetU32();
      if ok {
        str := RawBytes(str, n);
      }
    }

    /** The operator for a type. */
    method Get(t: Type) returns (v: Value)
      requires Valid() && WireType(t)
      modifies this
      ensures Valid() && Follows(old(ok), Decode(t, old(Rest())), ok, v, Rest())
      decreases t, 1
    {
      ghost var s := Rest();
      match t
      case TBool =>
        var c := RawByte();
        v := Bool(c != 0);
      case TNum(w) =>
        var n := GetNum(w);
        v := Num(n);
      case TSigned(w) =>
        var n := GetNum(w);
        v := Int(Signed(n, w));
      case TString =>
        var str := GetString();
        v := String(str);
      case TVector(e) =>
        var vs := GetVector(e, []);
        PrependedNothing(VectorRead(e, s));
        v := Vector(vs);
      case TMap(kt, vt) =>
        v := GetMap(kt, vt);
    }

    /** operator>> for std::vector, which appends to the vector vs0. */
    method GetVector(e: Type, vs0: seq<Value>) returns (vs: seq<Value>)
      requires Valid() && WireType(e)
      modifies this
      ensures Valid() && Follows(old(ok), Prepended(vs0, VectorRead(e, old(Rest()))), ok, vs, Rest())
      decreases e, 4
    {
      var n := GetU32();
      vs := GetElems(e, n, vs0);
    }

    /** Its loop, which goes on reading when a read has failed. */
    method GetElems(e: Type, n: nat, vs0: seq<Value>) returns (vs: seq<Value>)
      requires Valid() && WireType(e)
      modifies this
      ensures Valid() && Follows(old(ok), Prepended(vs0, DecodeElems(e, n, old(Rest()))), ok, vs, Rest())
      decreases e, 3
    {
      ghost var ok1, want := ok, Prepended(vs0, DecodeElems(e, n, Rest()));
      vs := vs0;
      var i := 0;
      while i < n
        invariant 0 <= i <= n && Valid()
        invariant Onward(ok1, want, ok, vs, e, n - i, Rest())
      {
        vs := GetNextElem(e, vs, ok1, want, n - i);
        i := i + 1;
      }
      assert vs + [] == vs;
    }

    /** One round of it, with n elements to come. */
    method GetNextElem(e: Type, vs: seq<Value>, ghost ok1: bool, ghost want: Read<seq<Value>>, ghost n: nat)
      returns (vs': seq<Value>)
      requires Valid() && WireType(e) && n > 0 && Onward(ok1, want, ok, vs, e, n, Rest())
      modifies this
      ensures Valid() && Onward(ok1, want, ok, vs', e, n - 1, Rest())
      decreases e, 2
    {
      if ok {
        OneElem(want, vs, e, n, Rest());
      }
      var z := Get(e);
      vs' := vs + [z];
    }

    /** operator>> for std::map. */
    method GetMap(kt: Type, vt: Type) returns (v: Value)
      requires Valid() && WireType(kt) && WireType(vt)
      modifies this
      ensures Valid() && Follows(old(ok), Decode(TMap(kt, vt), old(Rest())), ok, v, Rest())
      decreases TMap(kt, vt), 0, 4
    {
      var n := GetU32();
      v := GetPairs(kt, vt, n);
    }

    method GetPairs(kt: Type, vt: Type, n: nat) returns (v: Value)
      requires Valid() && WireType(kt) && WireType(vt)
      modifies this
      ensures Valid() && Follows(old(ok), DecodePairs(kt, vt, n, old(Rest()), [], []), ok, v, Rest())
      decreases TMap(kt, vt), 0, 3
    {
      ghost var ok1, want := ok, DecodePairs(kt, vt, n, Rest(), [], []);
      var ks, vs := [], [];
      var i := 0;
      while i < n
        invariant 0 <= i <= n && Valid() && |ks| == |vs|
        invariant OnwardPairs(ok1, want, ok, ks, vs, kt, vt, n - i, Rest())
      {
        ks, vs := GetNext(kt, vt, ks, vs, ok1, want, n - i);
        i := i + 1;
      }
      v := Map(ks, vs);
    }

    /** One round of its loop, with n pairs to come. */
    method GetNext(kt: Type, vt: Type, ks: seq<Value>, vs: seq<Value>, ghost ok1: bool, ghost want: Read<Value>,
                   ghost n: nat)
      returns (ks': seq<Value>, vs': seq<Value>)
      requires Valid() && WireType(kt) && WireType(vt) && |ks| == |vs| && n > 0
      requires OnwardPairs(ok1, want, ok, ks, vs, kt, vt, n, Rest())
      modifies this
      ensures Valid() && |ks'| == |vs'| && OnwardPairs(ok1, want, ok, ks', vs', kt, vt, n - 1, Rest())
      decreases TMap(kt, vt), 0, 2
    {
      if ok {
        OnePair(want, ks, vs, kt, vt, n, Rest());
      }
      ks', vs' := GetInto(kt, vt, ks, vs);
    }

    /** d[a] = b for the next pair. */
    method GetInto(kt: Type, vt: Type, ks: seq<Value>, vs: seq<Value>) returns (ks': seq<Value>, vs': seq<Value>)
      requires Valid() && WireType(kt) && WireType(vt) && |ks| == |vs|
      modifies this
      ensures Valid() && |ks'| == |vs'|
      ensures Follows(old(ok), DecodeInto(kt, vt, old(Rest()), ks, vs), ok, (ks', vs'), Rest())
      decreases TMap(kt, vt), 0, 1
    {
      var a, b := GetPair(kt, vt);
      var d := Inserted(ks, vs, a, b);
      ks', vs' := d.0, d.1;
    }

    method GetPair(kt: Type, vt: Type) returns (a: Value, b: Value)
      requires Valid() && WireType(kt) && WireType(vt)
      modifies this
      ensures Valid() && Follows(old(ok), DecodePair(kt, vt, old(Rest())), ok, (a, b), Rest())
      decreases TMap(kt, vt), 0, 0
    {
      a := Get(kt);
      b := Get(vt);
    }

    /** The three words after the first two of a request header. */
    method ThreeMore() returns (clt: U32, srv: U32, rep: U32)
      requires Sized()
      modifies this
      ensures Valid() && (ok <==> old(ok) && |old(Rest())| >= 12)
      ensures ok ==> clt == WordAt(old(Rest()), 0) && srv == WordAt(old(Rest()), 4) && rep == WordAt(old(Rest()), 8)
    {
      ghost var s := Rest();
      clt := GetU32();
      srv := GetU32();
      rep := GetU32();
      TwoMoreWords(s);
    }

    /** Reads the header and goes to the body. */
    method UnpackReqHeader() returns (h: ReqHeader)
      requires Sized()
      modifies this
      ensures Valid() && ind == HEADER && (ok <==> old(ok) && sz >= HEADER)
      ensures ok ==> h == ReqOf(buf[SIZE_FIELD..HEADER])
    {
      ind := SIZE_FIELD;
      ghost var s := Rest();
      var xid := GetU32();
      var proc := GetU32();
      ghost var s' := Rest();
      var clt, srv, rep := ThreeMore();
      h := ReqHeader(xid, proc, clt, srv, rep);
      if ok {
        DropTwice(s, 4, 4);
        assert s' == s[8..] && buf[SIZE_FIELD..HEADER] == s[..20];
        HeaderWords(s, buf[SIZE_FIELD..HEADER], h);
      }
      ind := HEADER;
    }

    method UnpackReplyHeader() returns (h: ReplyHeader)
      requires Sized()
      modifies this
      ensures Sized() && ind == HEADER && (ok <==> old(ok) && sz >= SIZE_FIELD + 8)
      ensures ok ==> h == ReplyOf(buf[SIZE_FIELD..SIZE_FIELD + 8])
    {
      ind := SIZE_FIELD;
      var xid := GetU32();
      var ret := GetU32();
      h := ReplyHeader(xid, ret);
      ind := HEADER;
    }
  }

  // ---- facts about reading -------------------------------------------------------------

  /** How far a loop over elements has come: what is wanted is what was read and what is to come. */
  predicate Onward(ok1: bool, want: Read<seq<Value>>, ok: bool, vs: seq<Value>, e: Type, n: nat, rest: Bytes)
  {
    if ok then ok1 && want == Prepended(vs, DecodeElems(e, n, rest)) else !ok1 || want.Failed?
  }

  function DecodePair(kt: Type, vt: Type, s: Bytes): Read<(Value, Value)>
  {
    match Decode(kt, s)
    case Failed => Failed
    case Got(a, r) =>
      match Decode(vt, r)
      case Failed => Failed
      case Got(b, r') => Got((a, b), r')
  }

  predicate OnwardPairs(ok1: bool, want: Read<Value>, ok: bool, ks: seq<Value>, vs: seq<Value>, kt: Type, vt: Type,
                        n: nat, rest: Bytes)
    requires |ks| == |vs|
  {
    if ok then ok1 && want == DecodePairs(kt, vt, n, rest, ks, vs) else !ok1 || want.Failed?
  }

  /** The map with the next pair in it. */
  function DecodeInto(kt: Type, vt: Type, s: Bytes, ks: seq<Value>, vs: seq<Value>): (r: Read<(seq<Value>, seq<Value>)>)
    requires |ks| == |vs|
    ensures r.Got? ==> |r.value.0| == |r.value.1|
  {
    match DecodePair(kt, vt, s)
    case Failed => Failed
    case Got(p, r) => Got(Inserted(ks, vs, p.0, p.1), r)
  }

  lemma OnePair(want: Read<Value>, ks: seq<Value>, vs: seq<Value>, kt: Type, vt: Type, n: nat, s: Bytes)
    requires |ks| == |vs| && n > 0 && want == DecodePairs(kt, vt, n, s, ks, vs)
    ensures var d := DecodeInto(kt, vt, s, ks, vs);
            if d.Failed? then want.Failed? else want == DecodePairs(kt, vt, n - 1, d.rest, d.value.0, d.value.1)
  {
  }

  lemma PrependedNothing(r: Read<seq<Value>>)
    ensures Prepended([], r) == r
  {
    if r.Got? { assert [] + r.value == r.value; }
  }

  lemma OneElem(want: Read<seq<Value>>, vs: seq<Value>, e: Type, n: nat, s: Bytes)
    requires n > 0 && want == Prepended(vs, DecodeElems(e, n, s))
    ensures Decode(e, s).Failed? ==> want.Failed?
    ensures Decode(e, s).Got? ==> want == Prepended(vs + [Decode(e, s).value], DecodeElems(e, n - 1, Decode(e, s).rest))
  {
    var r := Decode(e, s);
    if r.Got? && DecodeElems(e, n - 1, r.rest).Got? {
      var ws := DecodeElems(e, n - 1, r.rest).value;
      assert vs + ([r.value] + ws) == vs + [r.value] + ws;
    }
  }

  lemma WordLater(s: Bytes, i: nat, j: nat)
    requires i + j + 4 <= |s|
    ensures WordAt(s[i..], j) == WordAt(s, i + j)
  {
  }

  lemma DropTwice(s: Bytes, i: nat, j: nat)
    requires i + j <= |s|
    ensures s[i..][j..] == s[i + j..]
  {
  }

  /** Where the words after the first are. */
  lemma TwoMoreWords(s: Bytes)
    ensures |s| >= 8 ==> WordAt(s[4..], 0) == WordAt(s, 4)
    ensures |s| >= 12 ==> WordAt(s[4..][4..], 0) == WordAt(s, 8)
  {
    if |s| >= 12 {
      DropTwice(s, 4, 4);
      WordLater(s, 8, 0);
    }
  }

  lemma HeaderWords(s: Bytes, t: Bytes, h: ReqHeader)
    requires |s| >= 20 && t == s[..20] && h.xid == WordAt(s, 0) && h.proc == WordAt(s[4..], 0)
    requires h.cltNonce == WordAt(s[8..], 0) && h.srvNonce == WordAt(s[8..], 4) && h.xidRep == WordAt(s[8..], 8)
    ensures h == ReqOf(t)
  {
    WordLater(s, 4, 0);
    WordLater(s, 8, 0);
    WordLater(s, 8, 4);
    WordLater(s, 8, 8);
  }

  lemma WordRead(s: Bytes)
    ensures |s| >= 4 ==> FromBytes(s[..4]) == WordAt(s, 0) && s[2..][2..] == s[4..]
  {
    if |s| >= 4 {
      FourBytesBack(s[0], s[1], s[2], s[3]);
      assert s[..4] == [s[0], s[1], s[2], s[3]];
    }
  }

  lemma FourBytesBack(b3: U8, b2: U8, b1: U8, b0: U8)
    ensures FromBytes([b3, b2, b1, b0]) == Join(b0, b1, b2, b3)
  {
    assert [b3, b2, b1, b0][..3] == [b3, b2, b1];
    assert [b3, b2, b1][..2] == [b3, b2];
    TwoBytesBack(b3, b2);
  }

  lemma OneByteBack(b: U8)
    ensures FromBytes([b]) == b
  {
    assert [b][..0] == [];
  }

  lemma TwoBytesBack(b1: U8, b0: U8)
    ensures FromBytes([b1, b0]) == 256 * b1 as nat + b0
  {
    assert [b1, b0][..1] == [b1];
    OneByteBack(b1);
  }

  lemma {:induction false} FromBytesParts(s: Bytes, t: Bytes)
    ensures FromBytes(s + t) == FromBytes(s) * Pow256(|t|) + FromBytes(t)
  {
    if t == [] {
      assert s + t == s;
    } else {
      var n := |t| - 1;
      FromBytesParts(s, t[..n]);
      assert (s + t)[..|s + t| - 1] == s + t[..n];
      var low: nat := t[n];
      Shift(FromBytes(s), Pow256(n), FromBytes(t[..n]), low);
    }
  }

  lemma Shift(a: nat, p: nat, x: nat, low: nat)
    ensures 256 * (a * p + x) + low == a * (256 * p) + (256 * x + low)
  {
    assert a * (256 * p) == 256 * (a * p);
  }

  lemma HighThenLow(s: Bytes)
    ensures |s| >= 8 ==> FromBytes(s[..8]) == 0x1_0000_0000 * FromBytes(s[..4]) + FromBytes(s[4..][..4])
  {
    if |s| >= 8 {
      assert s[..8] == s[..4] + s[4..][..4];
      FromBytesParts(s[..4], s[4..][..4]);
      assert Pow256(4) == 0x1_0000_0000;
    }
  }

  // ---- a request on its way --------------------------------------------------------------

  /** The arguments and the header of a call, marshalled by the client and unmarshalled by the
      server, arrive as they were sent. */
  method Sent(h: ReqHeader, vs: seq<Value>, ts: seq<Type>) returns (h': ReqHeader, us: seq<Value>, done: bool)
    requires HaveTypes(vs, ts) && forall k | 0 <= k < |ts| :: WireType(ts[k])
    ensures h' == h && us == vs && done
  {
    var m := new Marshall();
    PutAll(m, vs, ts);
    m.PackReqHeader(h);
    ghost var content := m.Content();
    var b, s := m.TakeBuf();
    var u := new Unmarshall(b, s);
    h' := u.UnpackReqHeader();
    ReqRound(h);
    assert b[SIZE_FIELD..HEADER] == content[SIZE_FIELD..HEADER];
    assert u.Rest() == content[HEADER..] == EncodeAll(vs, ts) + [];
    RoundAll(vs, ts, []);
    us := GetAll(u, ts);
    done := u.OkDone();
  }

  method PutAll(m: Marshall, vs: seq<Value>, ts: seq<Type>)
    requires m.Valid() && m.ind == HEADER && HaveTypes(vs, ts) && forall k | 0 <= k < |ts| :: WireType(ts[k])
    modifies m, m.buf
    ensures m.Valid() && (m.buf == old(m.buf) || fresh(m.buf)) && m.ind >= HEADER
    ensures m.Content()[HEADER..] == EncodeAll(vs, ts)
  {
    var i := 0;
    while i < |vs|
      invariant 0 <= i <= |vs| && m.Valid() && (m.buf == old(m.buf) || fresh(m.buf)) && m.ind >= HEADER
      invariant m.Content()[HEADER..] == EncodeAll(vs[..i], ts[..i])
    {
      ghost var before := m.Content();
      EncodeAllNext(vs, ts, i);
      m.Put(vs[i], ts[i]);
      BodyGrows(before, Encode(vs[i], ts[i]));
      i := i + 1;
    }
    assert vs[..i] == vs && ts[..i] == ts;
  }

  lemma EncodeAllNext(vs: seq<Value>, ts: seq<Type>, i: nat)
    requires HaveTypes(vs, ts) && i < |vs|
    ensures EncodeAll(vs[..i + 1], ts[..i + 1]) == EncodeAll(vs[..i], ts[..i]) + Encode(vs[i], ts[i])
  {
    assert vs[..i + 1][..i] == vs[..i] && ts[..i + 1][..i] == ts[..i];
  }

  lemma BodyGrows(s: Bytes, x: Bytes)
    requires |s| >= HEADER
    ensures (s + x)[HEADER..] == s[HEADER..] + x
  {
  }

  method GetAll(u: Unmarshall, ts: seq<Type>) returns (vs: seq<Value>)
    requires u.Valid() && u.ok && forall k | 0 <= k < |ts| :: WireType(ts[k])
    modifies u
    ensures u.Valid() && Follows(true, DecodeAll(ts, old(u.Rest())), u.ok, vs, u.Rest())
  {
    vs := [];
    ghost var want := DecodeAll(ts, u.Rest());
    PrependedNothing(want);
    var i := 0;
    while i < |ts|
      invariant 0 <= i <= |ts| && u.Valid()
      invariant if u.ok then want == Prepended(vs, DecodeAll(ts[i..], u.Rest())) else want.Failed?
    {
      vs := GetOne(u, ts, i, vs, want);
      i := i + 1;
    }
    assert vs + [] == vs;
  }

  method GetOne(u: Unmarshall, ts: seq<Type>, i: nat, vs: seq<Value>, ghost want: Read<seq<Value>>)
    returns (vs': seq<Value>)
    requires u.Valid() && i < |ts| && WireType(ts[i])
    requires if u.ok then want == Prepended(vs, DecodeAll(ts[i..], u.Rest())) else want.Failed?
    modifies u
    ensures u.Valid() && if u.ok then want == Prepended(vs', DecodeAll(ts[i + 1..], u.Rest())) else want.Failed?
  {
    if u.ok {
      OneMore(want, vs, ts, i, u.Rest());
    }
    var v := u.Get(ts[i]);
    vs' := vs + [v];
  }

  lemma OneMore(want: Read<seq<Value>>, vs: seq<Value>, ts: seq<Type>, i: nat, s: Bytes)
    requires i < |ts| && want == Prepended(vs, DecodeAll(ts[i..], s))
    ensures Decode(ts[i], s).Failed? ==> want.Failed?
    ensures Decode(ts[i], s).Got? ==>
      want == Prepended(vs + [Decode(ts[i], s).value], DecodeAll(ts[i + 1..], Decode(ts[i], s).rest))
  {
    var r := Decode(ts[i], s);
    assert ts[i..][1..] == ts[i + 1..];
    if r.Got? && DecodeAll(ts[i + 1..], r.rest).Got? {
      var ws := DecodeAll(ts[i + 1..], r.rest).value;
      assert vs + ([r.value] + ws) == vs + [r.value] + ws;
    }
  }
}
