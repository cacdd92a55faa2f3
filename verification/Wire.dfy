/** The byte format of marshalled values (rpc/marshall.h and the operators of rpc/rpc.cc). */
module Wire {
  import opened Bits

  type Bytes = seq<U8>

  // ---- numbers, most significant byte first ---------------------------------------------

  function Pow256(w: nat): nat
  {
    if w == 0 then 1 else 256 * Pow256(w - 1)
  }

  function BigEndian(v: nat, w: nat): (s: Bytes)
    ensures |s| == w
  {
    if w == 0 then [] else BigEndian(v / 256, w - 1) + [v % 256]
  }

  function FromBytes(s: Bytes): nat
  {
    if s == [] then 0
    else
      var low: nat := s[|s| - 1];
      256 * FromBytes(s[..|s| - 1]) + low
  }

  lemma {:induction false} BigEndianRound(v: nat, w: nat)
    requires v < Pow256(w)
    ensures FromBytes(BigEndian(v, w)) == v
  {
    if w > 0 {
      BigEndianRound(v / 256, w - 1);
      assert BigEndian(v, w)[..w - 1] == BigEndian(v / 256, w - 1);
    }
  }

  /** The high part, then the low part. */
  lemma {:induction false} BigEndianParts(a: nat, b: nat, j: nat, k: nat)
    requires b < Pow256(k)
    ensures BigEndian(a * Pow256(k) + b, j + k) == BigEndian(a, j) + BigEndian(b, k)
  {
    if k > 0 {
      Quotient(a, b, k);
      BigEndianParts(a, b / 256, j, k - 1);
    } else {
      assert BigEndian(b, 0) == [];
    }
  }

  lemma Quotient(a: nat, b: nat, k: nat)
    requires k > 0
    ensures (a * Pow256(k) + b) / 256 == a * Pow256(k - 1) + b / 256 && (a * Pow256(k) + b) % 256 == b % 256
  {
    var q := a * Pow256(k - 1);
    assert a * Pow256(k) == a * (256 * Pow256(k - 1)) == 256 * q;
  }

  /** Two's complement in w bytes. */
  predicate FitsSigned(x: int, w: nat)
  {
    -(Pow256(w) as int) <= 2 * x < Pow256(w)
  }

  function Unsigned(x: int, w: nat): nat
    requires FitsSigned(x, w)
  {
    if x < 0 then x + Pow256(w) else x
  }

  function Signed(v: nat, w: nat): int
  {
    if 2 * v < Pow256(w) then v else v - Pow256(w)
  }

  lemma SignedRound(x: int, w: nat)
    requires FitsSigned(x, w)
    ensures Unsigned(x, w) < Pow256(w) && Signed(Unsigned(x, w), w) == x
  {
  }

  /** Two's complement: the number itself, or 2 to the 8w more, whichever is in range. */
  lemma UnsignedWraps(x: int, w: nat)
    requires FitsSigned(x, w)
    ensures Unsigned(x, w) < Pow256(w) && (Unsigned(x, w) == x || Unsigned(x, w) == x + Pow256(w))
  {
  }

  // ---- values --------------------------------------------------------------------------

  /** Types with an encoding: numbers of w bytes, strings, vectors, and maps. */
  datatype Type = TBool | TNum(w: nat) | TSigned(w: nat) | TString | TVector(elem: Type) | TMap(key: Type, val: Type)

  /** A map is the list of its keys in the order of iteration, with the value of each. */
  datatype Value =
    | Bool(b: bool)
    | Num(v: nat)
    | Int(x: int)
    | String(s: Bytes)
    | Vector(elems: seq<Value>)
    | Map(keys: seq<Value>, vals: seq<Value>)

  predicate DistinctKeys(keys: seq<Value>)
  {
    forall i, j | 0 <= i < j < |keys| :: keys[i] != keys[j]
  }

  const MAX_COUNT: nat := 0x1_0000_0000

  predicate HasType(v: Value, t: Type)
    decreases t
  {
    match (v, t)
    case (Bool(_), TBool) => true
    case (Num(n), TNum(w)) => n < Pow256(w)
    case (Int(x), TSigned(w)) => FitsSigned(x, w)
    case (String(s), TString) => |s| < MAX_COUNT
    case (Vector(vs), TVector(e)) => |vs| < MAX_COUNT && forall k | 0 <= k < |vs| :: HasType(vs[k], e)
    case (Map(ks, vs), TMap(kt, vt)) =>
      && |ks| == |vs| < MAX_COUNT && DistinctKeys(ks)
      && (forall k | 0 <= k < |ks| :: HasType(ks[k], kt))
      && (forall k | 0 <= k < |vs| :: HasType(vs[k], vt))
    case _ => false
  }

  /** Bytes of a value of type t. */
  function Encode(v: Value, t: Type): Bytes
    requires HasType(v, t)
    decreases t, 1
  {
    match t
    case TBool => [if v.b then 1 else 0]
    case TNum(w) => BigEndian(v.v, w)
    case TSigned(w) => BigEndian(Unsigned(v.x, w), w)
    case TString => BigEndian(|v.s|, 4) + v.s
    case TVector(e) => BigEndian(|v.elems|, 4) + EncodeElems(v.elems, e)
    case TMap(kt, vt) => BigEndian(|v.keys|, 4) + EncodePairs(v.keys, v.vals, kt, vt)
  }

  function EncodeElems(vs: seq<Value>, e: Type): Bytes
    requires forall k | 0 <= k < |vs| :: HasType(vs[k], e)
    decreases e, 2, |vs|
  {
    if vs == [] then [] else Encode(vs[0], e) + EncodeElems(vs[1..], e)
  }

  function EncodePairs(ks: seq<Value>, vs: seq<Value>, kt: Type, vt: Type): Bytes
    requires |ks| == |vs|
    requires forall k | 0 <= k < |ks| :: HasType(ks[k], kt)
    requires forall k | 0 <= k < |vs| :: HasType(vs[k], vt)
    decreases TMap(kt, vt), 0, |ks|
  {
    if ks == [] then [] else Encode(ks[0], kt) + Encode(vs[0], vt) + EncodePairs(ks[1..], vs[1..], kt, vt)
  }

  // ---- decoding ------------------------------------------------------------------------

  /** What a read yields: a value and the bytes after it, or failure. */
  datatype Read<T> = Failed | Got(value: T, rest: Bytes)

  function DecodeNum(w: nat, s: Bytes): Read<nat>
  {
    if w <= |s| then Got(FromBytes(s[..w]), s[w..]) else Failed
  }

  function Decode(t: Type, s: Bytes): Read<Value>
    decreases t, 1
  {
    match t
    case TBool => if s == [] then Failed else Got(Bool(s[0] != 0), s[1..])
    case TNum(w) => (match DecodeNum(w, s) case Failed => Failed case Got(n, r) => Got(Num(n), r))
    case TSigned(w) => (match DecodeNum(w, s) case Failed => Failed case Got(n, r) => Got(Int(Signed(n, w)), r))
    case TString =>
      (match DecodeNum(4, s)
       case Failed => Failed
       case Got(n, r) => if n <= |r| then Got(String(r[..n]), r[n..]) else Failed)
    case TVector(e) =>
      (match DecodeNum(4, s)
       case Failed => Failed
       case Got(n, r) =>
         match DecodeElems(e, n, r)
         case Failed => Failed
         case Got(vs, r') => Got(Vector(vs), r'))
    case TMap(kt, vt) =>
      (match DecodeNum(4, s)
       case Failed => Failed
       case Got(n, r) => DecodePairs(kt, vt, n, r, [], []))
  }

  function DecodeElems(e: Type, n: nat, s: Bytes): Read<seq<Value>>
    decreases e, 2, n
  {
    if n == 0 then Got([], s)
    else
      match Decode(e, s)
      case Failed => Failed
      case Got(v, r) =>
        match DecodeElems(e, n - 1, r)
        case Failed => Failed
        case Got(vs, r') => Got([v] + vs, r')
  }

  /** d[key] = val: replaces the value of a key that is there, and adds one that is not. */
  function Inserted(ks: seq<Value>, vs: seq<Value>, key: Value, val: Value): (r: (seq<Value>, seq<Value>))
    requires |ks| == |vs|
    ensures |r.0| == |r.1|
  {
    if ks == [] then ([key], [val])
    else if ks[0] == key then (ks, [val] + vs[1..])
    else
      var r := Inserted(ks[1..], vs[1..], key, val);
      ([ks[0]] + r.0, [vs[0]] + r.1)
  }

  function DecodePairs(kt: Type, vt: Type, n: nat, s: Bytes, ks: seq<Value>, vs: seq<Value>): Read<Value>
    requires |ks| == |vs|
    decreases TMap(kt, vt), 0, n
  {
    if n == 0 then Got(Map(ks, vs), s)
    else
      match Decode(kt, s)
      case Failed => Failed
      case Got(a, r) =>
        match Decode(vt, r)
        case Failed => Failed
        case Got(b, r') =>
          var d := Inserted(ks, vs, a, b);
          DecodePairs(kt, vt, n - 1, r', d.0, d.1)
  }

  // ---- round trip ----------------------------------------------------------------------

  lemma NumRound(n: nat, w: nat, rest: Bytes)
    requires n < Pow256(w)
    ensures DecodeNum(w, BigEndian(n, w) + rest) == Got(n, rest)
  {
    BigEndianRound(n, w);
    assert (BigEndian(n, w) + rest)[..w] == BigEndian(n, w);
  }

  lemma CountRound(n: nat, rest: Bytes)
    requires n < MAX_COUNT
    ensures DecodeNum(4, BigEndian(n, 4) + rest) == Got(n, rest)
  {
    assert Pow256(4) == MAX_COUNT;
    NumRound(n, 4, rest);
  }

  lemma {:induction false} InsertedNew(ks: seq<Value>, vs: seq<Value>, key: Value, val: Value)
    requires |ks| == |vs| && key !in ks
    ensures Inserted(ks, vs, key, val) == (ks + [key], vs + [val])
  {
    if ks == [] {
      assert ks + [key] == [key] && vs + [val] == [val];
    } else {
      InsertedNew(ks[1..], vs[1..], key, val);
      assert [ks[0]] + (ks[1..] + [key]) == ks + [key] && [vs[0]] + (vs[1..] + [val]) == vs + [val];
    }
  }

  /** Whatever follows it, an encoded value decodes to itself. */
  lemma {:induction false} Round(v: Value, t: Type, rest: Bytes)
    requires HasType(v, t)
    ensures Decode(t, Encode(v, t) + rest) == Got(v, rest)
    decreases t, 1
  {
    match t
    case TBool =>
    case TNum(w) => NumRound(v.v, w, rest);
    case TSigned(w) =>
      SignedRound(v.x, w);
      NumRound(Unsigned(v.x, w), w, rest);
    case TString => StringRound(v.s, rest);
    case TVector(e) =>
      var body := EncodeElems(v.elems, e);
      Regroup(BigEndian(|v.elems|, 4), body, rest);
      CountRound(|v.elems|, body + rest);
      ElemsRound(v.elems, e, rest);
    case TMap(kt, vt) =>
      var body := EncodePairs(v.keys, v.vals, kt, vt);
      Regroup(BigEndian(|v.keys|, 4), body, rest);
      assert [] + v.keys == v.keys;
      CountRound(|v.keys|, body + rest);
      PairsRound([], [], v.keys, v.vals, kt, vt, rest);
      assert [] + v.keys == v.keys && [] + v.vals == v.vals;
  }

  lemma Regroup(a: Bytes, b: Bytes, c: Bytes)
    ensures a + b + c == a + (b + c)
  {
  }

  lemma StringRound(s: Bytes, rest: Bytes)
    requires |s| < MAX_COUNT
    ensures Decode(TString, BigEndian(|s|, 4) + s + rest) == Got(String(s), rest)
  {
    Regroup(BigEndian(|s|, 4), s, rest);
    CountRound(|s|, s + rest);
    assert (s + rest)[..|s|] == s && (s + rest)[|s|..] == rest;
  }

  lemma {:induction false} ElemsRound(vs: seq<Value>, e: Type, rest: Bytes)
    requires forall k | 0 <= k < |vs| :: HasType(vs[k], e)
    ensures DecodeElems(e, |vs|, EncodeElems(vs, e) + rest) == Got(vs, rest)
    decreases e, 2, |vs|
  {
    if vs != [] {
      Regroup(Encode(vs[0], e), EncodeElems(vs[1..], e), rest);
      Round(vs[0], e, EncodeElems(vs[1..], e) + rest);
      ElemsRound(vs[1..], e, rest);
      assert [vs[0]] + vs[1..] == vs;
    }
  }

  lemma PairStep(kt: Type, vt: Type, n: nat, s: Bytes, a: Value, r: Bytes, b: Value, r': Bytes, ks: seq<Value>,
                 vs: seq<Value>)
    requires |ks| == |vs| && a !in ks && Decode(kt, s) == Got(a, r) && Decode(vt, r) == Got(b, r')
    ensures DecodePairs(kt, vt, n + 1, s, ks, vs) == DecodePairs(kt, vt, n, r', ks + [a], vs + [b])
  {
    InsertedNew(ks, vs, a, b);
  }

  /** The pairs still to come, with those before them already in the map. */
  lemma {:induction false} PairsRound(ks0: seq<Value>, vs0: seq<Value>, ks: seq<Value>, vs: seq<Value>, kt: Type,
                                      vt: Type, rest: Bytes)
    requires |ks0| == |vs0| && |ks| == |vs| && DistinctKeys(ks0 + ks)
    requires forall k | 0 <= k < |ks| :: HasType(ks[k], kt)
    requires forall k | 0 <= k < |vs| :: HasType(vs[k], vt)
    ensures DecodePairs(kt, vt, |ks|, EncodePairs(ks, vs, kt, vt) + rest, ks0, vs0)
            == Got(Map(ks0 + ks, vs0 + vs), rest)
    decreases TMap(kt, vt), 0, |ks|
  {
    if ks == [] {
      assert ks0 + ks == ks0 && vs0 + vs == vs0 && EncodePairs(ks, vs, kt, vt) + rest == rest;
    } else {
      var a, b, c := Encode(ks[0], kt), Encode(vs[0], vt), EncodePairs(ks[1..], vs[1..], kt, vt);
      RegroupFour(a, b, c, rest);
      Round(ks[0], kt, b + (c + rest));
      Round(vs[0], vt, c + rest);
      NewKey(ks0, ks);
      PairStep(kt, vt, |ks| - 1, a + (b + (c + rest)), ks[0], b + (c + rest), vs[0], c + rest, ks0, vs0);
      Moved(ks0, ks);
      Moved(vs0, vs);
      PairsRound(ks0 + [ks[0]], vs0 + [vs[0]], ks[1..], vs[1..], kt, vt, rest);
    }
  }

  lemma RegroupFour(a: Bytes, b: Bytes, c: Bytes, d: Bytes)
    ensures a + b + c + d == a + (b + (c + d))
  {
  }

  lemma NewKey(ks0: seq<Value>, ks: seq<Value>)
    requires ks != [] && DistinctKeys(ks0 + ks)
    ensures ks[0] !in ks0
  {
    var all := ks0 + ks;
    forall i | 0 <= i < |ks0| ensures ks0[i] != ks[0] {
      assert all[i] != all[|ks0|];
    }
  }

  lemma Moved(xs: seq<Value>, ys: seq<Value>)
    requires ys != []
    ensures xs + [ys[0]] + ys[1..] == xs + ys
  {
  }

  // ---- several values ------------------------------------------------------------------

  predicate HaveTypes(vs: seq<Value>, ts: seq<Type>)
  {
    |vs| == |ts| && forall k | 0 <= k < |vs| :: HasType(vs[k], ts[k])
  }

  function EncodeAll(vs: seq<Value>, ts: seq<Type>): Bytes
    requires HaveTypes(vs, ts)
  {
    if vs == [] then []
    else EncodeAll(vs[..|vs| - 1], ts[..|ts| - 1]) + Encode(vs[|vs| - 1], ts[|ts| - 1])
  }

  function DecodeAll(ts: seq<Type>, s: Bytes): Read<seq<Value>>
  {
    if ts == [] then Got([], s)
    else
      match Decode(ts[0], s)
      case Failed => Failed
      case Got(v, r) =>
        match DecodeAll(ts[1..], r)
        case Failed => Failed
        case Got(vs, r') => Got([v] + vs, r')
  }

  lemma {:induction false} EncodeAllFirst(vs: seq<Value>, ts: seq<Type>)
    requires HaveTypes(vs, ts) && vs != []
    ensures EncodeAll(vs, ts) == Encode(vs[0], ts[0]) + EncodeAll(vs[1..], ts[1..])
  {
    var n := |vs| - 1;
    if n == 0 {
      assert EncodeAll(vs[..0], ts[..0]) == [] && EncodeAll(vs[1..], ts[1..]) == [];
    } else {
      EncodeAllFirst(vs[..n], ts[..n]);
      assert vs[..n][1..] == vs[1..][..n - 1] && ts[..n][1..] == ts[1..][..n - 1];
      Regroup(Encode(vs[0], ts[0]), EncodeAll(vs[1..][..n - 1], ts[1..][..n - 1]), Encode(vs[n], ts[n]));
    }
  }

  /** Any sequence of marshalled values unmarshals to the same sequence, with nothing left over. */
  lemma {:induction false} RoundAll(vs: seq<Value>, ts: seq<Type>, rest: Bytes)
    requires HaveTypes(vs, ts)
    ensures DecodeAll(ts, EncodeAll(vs, ts) + rest) == Got(vs, rest)
  {
    if vs != [] {
      EncodeAllFirst(vs, ts);
      Regroup(Encode(vs[0], ts[0]), EncodeAll(vs[1..], ts[1..]), rest);
      Round(vs[0], ts[0], EncodeAll(vs[1..], ts[1..]) + rest);
      RoundAll(vs[1..], ts[1..], rest);
      assert [vs[0]] + vs[1..] == vs;
    }
  }
}
