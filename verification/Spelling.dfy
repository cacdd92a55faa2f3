/** Which bytes are read as which values: a grammar of the wire format, and reading as its exact parser. */
module Spelling {
  import opened Bits
  import opened Wire

  // ---- the grammar -----------------------------------------------------------------------

  /** The bytes s spell the value v.  Any byte but 0 spells true, and a map is spelled by any writes to
      it, in order. */
  ghost predicate Spells(s: Bytes, v: Value, t: Type)
    decreases t, 1
  {
    match t
    case TBool => |s| == 1 && v == Bool(s[0] != 0)
    case TVector(e) =>
      && v.Vector? && |v.elems| < MAX_COUNT
      && |s| >= 4 && s[..4] == BigEndian(|v.elems|, 4) && SpellElems(s[4..], v.elems, e)
    case TMap(kt, vt) =>
      |s| >= 4 && exists ks, vs :: |ks| < MAX_COUNT && s[..4] == BigEndian(|ks|, 4)
                                   && SpellPairs(s[4..], ks, vs, kt, vt) && v == MapOf(ks, vs)
    case _ => HasType(v, t) && s == Encode(v, t)
  }

  ghost predicate SpellElems(s: Bytes, vs: seq<Value>, e: Type)
    decreases e, 2, |vs|
  {
    if vs == [] then s == []
    else exists k: nat :: k <= |s| && Spells(s[..k], vs[0], e) && SpellElems(s[k..], vs[1..], e)
  }

  ghost predicate SpellPairs(s: Bytes, ks: seq<Value>, vs: seq<Value>, kt: Type, vt: Type)
    decreases TMap(kt, vt), 0, |ks|
  {
    && |ks| == |vs|
    && if ks == [] then s == []
       else exists j: nat, k: nat :: j <= k <= |s| && Spells(s[..j], ks[0], kt) && Spells(s[j..k], vs[0], vt)
                                     && SpellPairs(s[k..], ks[1..], vs[1..], kt, vt)
  }

  /** The map (keys, vals) after the writes d[ks[i]] = vs[i], in order. */
  function Writes(keys: seq<Value>, vals: seq<Value>, ks: seq<Value>, vs: seq<Value>): (r: (seq<Value>, seq<Value>))
    requires |keys| == |vals| && |ks| == |vs|
    ensures |r.0| == |r.1|
    decreases |ks|
  {
    if ks == [] then (keys, vals)
    else
      var d := Inserted(keys, vals, ks[0], vs[0]);
      Writes(d.0, d.1, ks[1..], vs[1..])
  }

  function MapOf(ks: seq<Value>, vs: seq<Value>): Value
    requires |ks| == |vs|
  {
    Map(Writes([], [], ks, vs).0, Writes([], [], ks, vs).1)
  }

  // ---- what a write does -----------------------------------------------------------------

  /** A write to a key that is there replaces its value, in its place; InsertedNew has the other case. */
  lemma {:induction false} InsertedAt(ks: seq<Value>, vs: seq<Value>, key: Value, val: Value, i: nat)
    requires |ks| == |vs| && i < |ks| && ks[i] == key && forall j | 0 <= j < i :: ks[j] != key
    ensures Inserted(ks, vs, key, val) == (ks, vs[i := val])
  {
    if i == 0 {
      assert [val] + vs[1..] == vs[0 := val];
    } else {
      InsertedAt(ks[1..], vs[1..], key, val, i - 1);
      Reattach(ks, vs, i, val);
    }
  }

  lemma Reattach(ks: seq<Value>, vs: seq<Value>, i: nat, val: Value)
    requires 0 < i < |ks| == |vs|
    ensures [ks[0]] + ks[1..] == ks && [vs[0]] + vs[1..][i - 1 := val] == vs[i := val]
  {
  }

  /** The key is listed with this value. */
  predicate Holds(keys: seq<Value>, vals: seq<Value>, key: Value, val: Value)
    requires |keys| == |vals|
  {
    exists i :: 0 <= i < |keys| && keys[i] == key && vals[i] == val
  }

  /** The key is listed with this value and no other. */
  ghost predicate HoldsJust(keys: seq<Value>, vals: seq<Value>, key: Value, val: Value)
    requires |keys| == |vals|
  {
    forall v :: Holds(keys, vals, key, v) <==> v == val
  }

  /** What a write keeps: the keys stay distinct, the key written gets its value, and the others keep theirs. */
  lemma WriteHolds(keys: seq<Value>, vals: seq<Value>, key: Value, val: Value)
    requires |keys| == |vals| && DistinctKeys(keys)
    ensures var d := Inserted(keys, vals, key, val);
            && DistinctKeys(d.0) && HoldsJust(d.0, d.1, key, val) && |d.0| <= |keys| + 1
            && (forall k, v | k != key :: Holds(d.0, d.1, k, v) <==> Holds(keys, vals, k, v))
  {
    var d := Inserted(keys, vals, key, val);
    if key in keys {
      var i :| 0 <= i < |keys| && keys[i] == key;
      InsertedAt(keys, vals, key, val, i);
      WrittenAt(keys, vals, i, val);
    } else {
      InsertedNew(keys, vals, key, val);
      AddedAt(keys, vals, key, val);
    }
  }

  lemma WrittenAt(keys: seq<Value>, vals: seq<Value>, i: nat, val: Value)
    requires |keys| == |vals| && DistinctKeys(keys) && i < |keys|
    ensures HoldsJust(keys, vals[i := val], keys[i], val)
    ensures forall k, v | k != keys[i] :: Holds(keys, vals[i := val], k, v) <==> Holds(keys, vals, k, v)
  {
    var vals' := vals[i := val];
    assert vals'[i] == val;
    forall k, v | k != keys[i] ensures Holds(keys, vals', k, v) <==> Holds(keys, vals, k, v) {
      if j :| 0 <= j < |keys| && keys[j] == k && vals[j] == v {
        assert vals'[j] == v;
      }
      if j :| 0 <= j < |keys| && keys[j] == k && vals'[j] == v {
        assert vals[j] == v;
      }
    }
  }

  lemma AddedAt(keys: seq<Value>, vals: seq<Value>, key: Value, val: Value)
    requires |keys| == |vals| && DistinctKeys(keys) && key !in keys
    ensures DistinctKeys(keys + [key]) && HoldsJust(keys + [key], vals + [val], key, val)
    ensures forall k, v | k != key :: Holds(keys + [key], vals + [val], k, v) <==> Holds(keys, vals, k, v)
  {
    var keys', vals' := keys + [key], vals + [val];
    assert keys'[|keys|] == key && vals'[|keys|] == val;
    forall k, v | k != key ensures Holds(keys', vals', k, v) <==> Holds(keys, vals, k, v) {
      if j :| 0 <= j < |keys| && keys[j] == k && vals[j] == v {
        assert keys'[j] == k && vals'[j] == v;
      }
      if j :| 0 <= j < |keys'| && keys'[j] == k && vals'[j] == v {
        assert keys[j] == k && vals[j] == v;
      }
    }
  }

  /** Write i is the last one to its key. */
  predicate LastWrite(ks: seq<Value>, i: nat)
  {
    i < |ks| && forall j | i < j < |ks| :: ks[j] != ks[i]
  }

  /** A map holds what the last write to each key put there, and what it held before for keys not written. */
  ghost predicate Amounts(keys: seq<Value>, vals: seq<Value>, ks: seq<Value>, vs: seq<Value>, keys': seq<Value>,
                          vals': seq<Value>)
    requires |keys| == |vals| && |ks| == |vs| && |keys'| == |vals'|
  {
    && DistinctKeys(keys')
    && (forall i: nat | LastWrite(ks, i) :: HoldsJust(keys', vals', ks[i], vs[i]))
    && (forall k, v | k !in ks :: Holds(keys', vals', k, v) <==> Holds(keys, vals, k, v))
  }

  lemma {:induction false} WritesAmount(keys: seq<Value>, vals: seq<Value>, ks: seq<Value>, vs: seq<Value>)
    requires |keys| == |vals| && |ks| == |vs| && DistinctKeys(keys)
    ensures var r := Writes(keys, vals, ks, vs); Amounts(keys, vals, ks, vs, r.0, r.1) && |r.0| <= |keys| + |ks|
    decreases |ks|
  {
    if ks != [] {
      var d, r := Inserted(keys, vals, ks[0], vs[0]), Writes(keys, vals, ks, vs);
      WriteHolds(keys, vals, ks[0], vs[0]);
      WritesAmount(d.0, d.1, ks[1..], vs[1..]);
      FirstOfWrites(keys, vals, d.0, d.1, ks, vs, r.0, r.1);
    }
  }

  lemma FirstOfWrites(keys: seq<Value>, vals: seq<Value>, keys1: seq<Value>, vals1: seq<Value>, ks: seq<Value>,
                      vs: seq<Value>, keys': seq<Value>, vals': seq<Value>)
    requires |keys| == |vals| && |keys1| == |vals1| && |keys'| == |vals'| && |ks| == |vs| && ks != []
    requires HoldsJust(keys1, vals1, ks[0], vs[0])
    requires forall k, v | k != ks[0] :: Holds(keys1, vals1, k, v) <==> Holds(keys, vals, k, v)
    requires Amounts(keys1, vals1, ks[1..], vs[1..], keys', vals')
    ensures Amounts(keys, vals, ks, vs, keys', vals')
  {
    forall i: nat | LastWrite(ks, i) ensures HoldsJust(keys', vals', ks[i], vs[i]) {
      if i == 0 {
        assert ks[0] !in ks[1..];
      } else {
        assert LastWrite(ks[1..], i - 1);
      }
    }
    forall k, v | k !in ks ensures Holds(keys', vals', k, v) <==> Holds(keys, vals, k, v) {
      assert k !in ks[1..] && k != ks[0];
    }
  }

  /** A map read from writes lists each key written once, with what the last write to it put there. */
  lemma MapOfWrites(ks: seq<Value>, vs: seq<Value>)
    requires |ks| == |vs|
    ensures var m := MapOf(ks, vs);
            && |m.keys| == |m.vals| <= |ks| && DistinctKeys(m.keys)
            && (forall i: nat | LastWrite(ks, i) :: HoldsJust(m.keys, m.vals, ks[i], vs[i]))
            && (forall k, v | k !in ks :: !Holds(m.keys, m.vals, k, v))
  {
    WritesAmount([], [], ks, vs);
  }

  // ---- numbers ---------------------------------------------------------------------------

  lemma {:induction false} FromBytesRound(s: Bytes)
    ensures FromBytes(s) < Pow256(|s|) && BigEndian(FromBytes(s), |s|) == s
  {
    if s != [] {
      var n := |s| - 1;
      FromBytesRound(s[..n]);
      var low: nat := s[n];
      LastByte(FromBytes(s[..n]), low);
      assert s == s[..n] + [s[n]];
    }
  }

  lemma LastByte(high: nat, low: nat)
    requires low < 256
    ensures (256 * high + low) / 256 == high && (256 * high + low) % 256 == low
  {
  }

  lemma SignedBack(n: nat, w: nat)
    requires n < Pow256(w)
    ensures FitsSigned(Signed(n, w), w) && Unsigned(Signed(n, w), w) == n
  {
  }

  /** Byte k of a number, most significant first. */
  lemma {:induction false} BigEndianByte(v: nat, w: nat, k: nat)
    requires k < w
    ensures Pow256(w - 1 - k) > 0 && BigEndian(v, w)[k] == v / Pow256(w - 1 - k) % 256
  {
    if k == w - 1 {
      assert Pow256(0) == 1;
    } else {
      BigEndianByte(v / 256, w - 1, k);
      var p := Pow256(w - 2 - k);
      DivideTwice(v, p);
      assert Pow256(w - 1 - k) == 256 * p;
    }
  }

  lemma DivideTwice(v: nat, p: nat)
    requires p > 0
    ensures v / 256 / p == v / (256 * p)
  {
    var q, r := v / 256 / p, v / 256 % p;
    assert v / 256 == q * p + r;
    assert v == 256 * (q * p + r) + v % 256;
    var low := 256 * r + v % 256;
    assert 0 <= low < 256 * p;
    assert v == q * (256 * p) + low;
    QuotientIs(v, 256 * p, q, low);
  }

  lemma QuotientIs(v: nat, d: nat, q: nat, r: nat)
    requires d > 0 && v == q * d + r && r < d
    ensures v / d == q
  {
    var x := v / d - q;
    assert x * d == r - v % d;
    if x > 0 {
      MoreThanOne(x, d);
      assert false;
    } else if x < 0 {
      MoreThanOne(-x, d);
      assert false;
    }
  }

  lemma MoreThanOne(x: int, d: nat)
    requires x > 0
    ensures x * d >= d
  {
  }

  // ---- what is read is spelled -------------------------------------------------------------

  lemma NumParsed(w: nat, s: Bytes)
    requires DecodeNum(w, s).Got?
    ensures DecodeNum(w, s).value < Pow256(w)
    ensures s == BigEndian(DecodeNum(w, s).value, w) + DecodeNum(w, s).rest
  {
    FromBytesRound(s[..w]);
    Halved(s, w);
  }

  lemma Halved(s: Bytes, w: nat)
    requires w <= |s|
    ensures |s[..w]| == w && s == s[..w] + s[w..]
  {
  }

  lemma CountParsed(s: Bytes)
    requires DecodeNum(4, s).Got?
    ensures DecodeNum(4, s).value < MAX_COUNT && s == BigEndian(DecodeNum(4, s).value, 4) + DecodeNum(4, s).rest
  {
    NumParsed(4, s);
    assert Pow256(4) == MAX_COUNT;
  }

  lemma ElemsJoin(u1: Bytes, v: Value, u2: Bytes, vs: seq<Value>, e: Type)
    requires Spells(u1, v, e) && SpellElems(u2, vs, e)
    ensures SpellElems(u1 + u2, [v] + vs, e)
  {
    var s, k := u1 + u2, |u1|;
    assert s[..k] == u1 && s[k..] == u2 && ([v] + vs)[1..] == vs;
  }

  lemma ThreeParts(u1: Bytes, u2: Bytes, u3: Bytes)
    ensures var s, j, k := u1 + (u2 + u3), |u1|, |u1| + |u2|; s[..j] == u1 && s[j..k] == u2 && s[k..] == u3
  {
  }

  lemma TailIs(a: Value, vs: seq<Value>)
    ensures ([a] + vs)[1..] == vs
  {
  }

  lemma PairsFromParts(s: Bytes, ks: seq<Value>, vs: seq<Value>, kt: Type, vt: Type, j: nat, k: nat)
    requires j <= k <= |s| && |ks| == |vs| > 0 && Spells(s[..j], ks[0], kt) && Spells(s[j..k], vs[0], vt)
    requires SpellPairs(s[k..], ks[1..], vs[1..], kt, vt)
    ensures SpellPairs(s, ks, vs, kt, vt)
  {
  }

  lemma PairsJoin(u1: Bytes, a: Value, u2: Bytes, b: Value, u3: Bytes, ks: seq<Value>, vs: seq<Value>, kt: Type,
                  vt: Type)
    requires Spells(u1, a, kt) && Spells(u2, b, vt) && SpellPairs(u3, ks, vs, kt, vt)
    ensures SpellPairs(u1 + (u2 + u3), [a] + ks, [b] + vs, kt, vt)
  {
    ThreeParts(u1, u2, u3);
    TailIs(a, ks);
    TailIs(b, vs);
    PairsFromParts(u1 + (u2 + u3), [a] + ks, [b] + vs, kt, vt, |u1|, |u1| + |u2|);
  }

  lemma VectorJoin(u: Bytes, vs: seq<Value>, e: Type)
    requires |vs| < MAX_COUNT && SpellElems(u, vs, e)
    ensures Spells(BigEndian(|vs|, 4) + u, Vector(vs), TVector(e))
  {
    var s := BigEndian(|vs|, 4) + u;
    assert s[..4] == BigEndian(|vs|, 4) && s[4..] == u;
  }

  lemma MapJoin(u: Bytes, ks: seq<Value>, vs: seq<Value>, kt: Type, vt: Type)
    requires |ks| < MAX_COUNT && SpellPairs(u, ks, vs, kt, vt)
    ensures Spells(BigEndian(|ks|, 4) + u, MapOf(ks, vs), TMap(kt, vt))
  {
    var s := BigEndian(|ks|, 4) + u;
    assert s[..4] == BigEndian(|ks|, 4) && s[4..] == u;
  }

  lemma StringParsed(s: Bytes) returns (u: Bytes)
    requires Decode(TString, s).Got?
    ensures s == u + Decode(TString, s).rest && Spells(u, Decode(TString, s).value, TString)
  {
    CountParsed(s);
    var n, r := DecodeNum(4, s).value, DecodeNum(4, s).rest;
    u := BigEndian(n, 4) + r[..n];
    Regroup(BigEndian(n, 4), r[..n], r[n..]);
    Halved(r, n);
  }

  lemma {:induction false} Parsed(t: Type, s: Bytes) returns (u: Bytes)
    requires Decode(t, s).Got?
    ensures s == u + Decode(t, s).rest && Spells(u, Decode(t, s).value, t)
    decreases t, 1
  {
    match t
    case TBool =>
      u := s[..1];
    case TNum(w) =>
      NumParsed(w, s);
      u := BigEndian(DecodeNum(w, s).value, w);
    case TSigned(w) =>
      NumParsed(w, s);
      SignedBack(DecodeNum(w, s).value, w);
      u := BigEndian(DecodeNum(w, s).value, w);
    case TString =>
      u := StringParsed(s);
    case TVector(e) =>
      CountParsed(s);
      var n, r := DecodeNum(4, s).value, DecodeNum(4, s).rest;
      var w := ElemsParsed(e, n, r);
      var d := DecodeElems(e, n, r);
      VectorJoin(w, d.value, e);
      Regroup(BigEndian(n, 4), w, d.rest);
      u := BigEndian(n, 4) + w;
    case TMap(kt, vt) =>
      CountParsed(s);
      var n, r := DecodeNum(4, s).value, DecodeNum(4, s).rest;
      var w, ks, vs := PairsParsed(kt, vt, n, r, [], []);
      MapJoin(w, ks, vs, kt, vt);
      Regroup(BigEndian(n, 4), w, DecodePairs(kt, vt, n, r, [], []).rest);
      u := BigEndian(n, 4) + w;
  }

  lemma {:induction false} ElemsParsed(e: Type, n: nat, s: Bytes) returns (u: Bytes)
    requires DecodeElems(e, n, s).Got?
    ensures var d := DecodeElems(e, n, s); |d.value| == n && s == u + d.rest && SpellElems(u, d.value, e)
    decreases e, 2, n
  {
    if n == 0 {
      u := [];
    } else {
      var first := Decode(e, s);
      var u1 := Parsed(e, s);
      var u2 := ElemsParsed(e, n - 1, first.rest);
      var more := DecodeElems(e, n - 1, first.rest);
      ElemsJoin(u1, first.value, u2, more.value, e);
      Regroup(u1, u2, more.rest);
      u := u1 + u2;
    }
  }

  /** One pair of a map is read. */
  lemma OnePairRead(kt: Type, vt: Type, n: nat, s: Bytes, keys: seq<Value>, vals: seq<Value>, a: Value, r: Bytes,
                    b: Value, r': Bytes)
    requires n > 0 && |keys| == |vals| && Decode(kt, s) == Got(a, r) && Decode(vt, r) == Got(b, r')
    ensures var d := Inserted(keys, vals, a, b);
            DecodePairs(kt, vt, n, s, keys, vals) == DecodePairs(kt, vt, n - 1, r', d.0, d.1)
  {
  }

  lemma PairIsRead(kt: Type, vt: Type, n: nat, s: Bytes, keys: seq<Value>, vals: seq<Value>)
    requires n > 0 && |keys| == |vals| && DecodePairs(kt, vt, n, s, keys, vals).Got?
    ensures Decode(kt, s).Got? && Decode(vt, Decode(kt, s).rest).Got?
  {
  }

  lemma OneWrite(keys: seq<Value>, vals: seq<Value>, a: Value, b: Value, ks: seq<Value>, vs: seq<Value>)
    requires |keys| == |vals| && |ks| == |vs|
    ensures var d := Inserted(keys, vals, a, b);
            Writes(keys, vals, [a] + ks, [b] + vs) == Writes(d.0, d.1, ks, vs)
  {
    assert ([a] + ks)[1..] == ks && ([b] + vs)[1..] == vs;
  }

  lemma {:induction false} PairsParsed(kt: Type, vt: Type, n: nat, s: Bytes, keys: seq<Value>, vals: seq<Value>)
    returns (u: Bytes, ks: seq<Value>, vs: seq<Value>)
    requires |keys| == |vals| && DecodePairs(kt, vt, n, s, keys, vals).Got?
    ensures |ks| == |vs| == n && SpellPairs(u, ks, vs, kt, vt)
    ensures var d, m := DecodePairs(kt, vt, n, s, keys, vals), Writes(keys, vals, ks, vs);
            s == u + d.rest && d.value == Map(m.0, m.1)
    decreases TMap(kt, vt), 0, n
  {
    if n == 0 {
      u, ks, vs := [], [], [];
    } else {
      PairIsRead(kt, vt, n, s, keys, vals);
      var a := Decode(kt, s);
      var b := Decode(vt, a.rest);
      var d := Inserted(keys, vals, a.value, b.value);
      OnePairRead(kt, vt, n, s, keys, vals, a.value, a.rest, b.value, b.rest);
      var u1 := Parsed(kt, s);
      var u2 := Parsed(vt, a.rest);
      var u3, ks1, vs1 := PairsParsed(kt, vt, n - 1, b.rest, d.0, d.1);
      PairsJoin(u1, a.value, u2, b.value, u3, ks1, vs1, kt, vt);
      RegroupAll(u1, u2, u3, DecodePairs(kt, vt, n - 1, b.rest, d.0, d.1).rest);
      OneWrite(keys, vals, a.value, b.value, ks1, vs1);
      u, ks, vs := u1 + (u2 + u3), [a.value] + ks1, [b.value] + vs1;
    }
  }

  lemma RegroupAll(a: Bytes, b: Bytes, c: Bytes, d: Bytes)
    ensures a + (b + (c + d)) == a + (b + c) + d
  {
  }

  // ---- what is spelled is read -------------------------------------------------------------

  lemma {:induction false} Unparsed(u: Bytes, v: Value, t: Type, rest: Bytes)
    requires Spells(u, v, t)
    ensures Decode(t, u + rest) == Got(v, rest)
    decreases t, 1
  {
    match t
    case TBool =>
    case TNum(w) => Round(v, t, rest);
    case TSigned(w) => Round(v, t, rest);
    case TString => Round(v, t, rest);
    case TVector(e) =>
      var n := |v.elems|;
      HeadAndBody(u, rest);
      CountRound(n, u[4..] + rest);
      ElemsUnparsed(u[4..], v.elems, e, rest);
    case TMap(kt, vt) =>
      var ks, vs :| |ks| < MAX_COUNT && u[..4] == BigEndian(|ks|, 4)
                    && SpellPairs(u[4..], ks, vs, kt, vt) && v == MapOf(ks, vs);
      HeadAndBody(u, rest);
      CountRound(|ks|, u[4..] + rest);
      PairsUnparsed(u[4..], ks, vs, kt, vt, [], [], rest);
  }

  lemma HeadAndBody(u: Bytes, rest: Bytes)
    requires |u| >= 4
    ensures u + rest == u[..4] + (u[4..] + rest)
  {
  }

  lemma CutAt(u: Bytes, k: nat, rest: Bytes)
    requires k <= |u|
    ensures u + rest == u[..k] + (u[k..] + rest)
  {
  }

  lemma NothingBefore(u: Bytes, rest: Bytes)
    requires u == []
    ensures u + rest == rest
  {
  }

  lemma OneElemRead(e: Type, vs: seq<Value>, s: Bytes, r: Bytes, r': Bytes)
    requires vs != [] && Decode(e, s) == Got(vs[0], r) && DecodeElems(e, |vs| - 1, r) == Got(vs[1..], r')
    ensures DecodeElems(e, |vs|, s) == Got(vs, r')
  {
    assert [vs[0]] + vs[1..] == vs;
  }

  lemma {:induction false} ElemsUnparsed(u: Bytes, vs: seq<Value>, e: Type, rest: Bytes)
    requires SpellElems(u, vs, e)
    ensures DecodeElems(e, |vs|, u + rest) == Got(vs, rest)
    decreases e, 2, |vs|
  {
    if vs != [] {
      var k: nat :| k <= |u| && Spells(u[..k], vs[0], e) && SpellElems(u[k..], vs[1..], e);
      CutAt(u, k, rest);
      Unparsed(u[..k], vs[0], e, u[k..] + rest);
      ElemsUnparsed(u[k..], vs[1..], e, rest);
      OneElemRead(e, vs, u + rest, u[k..] + rest, rest);
    } else {
      NothingBefore(u, rest);
    }
  }

  lemma {:induction false} PairsUnparsed(u: Bytes, ks: seq<Value>, vs: seq<Value>, kt: Type, vt: Type, keys: seq<Value>,
                                         vals: seq<Value>, rest: Bytes)
    requires |keys| == |vals| && SpellPairs(u, ks, vs, kt, vt)
    ensures var m := Writes(keys, vals, ks, vs);
            DecodePairs(kt, vt, |ks|, u + rest, keys, vals) == Got(Map(m.0, m.1), rest)
    decreases TMap(kt, vt), 0, |ks|
  {
    if ks != [] {
      var j: nat, k: nat :| j <= k <= |u| && Spells(u[..j], ks[0], kt) && Spells(u[j..k], vs[0], vt)
                            && SpellPairs(u[k..], ks[1..], vs[1..], kt, vt);
      CutTwice(u, j, k, rest);
      Unparsed(u[..j], ks[0], kt, u[j..k] + (u[k..] + rest));
      Unparsed(u[j..k], vs[0], vt, u[k..] + rest);
      var d := Inserted(keys, vals, ks[0], vs[0]);
      OnePairRead(kt, vt, |ks|, u + rest, keys, vals, ks[0], u[j..k] + (u[k..] + rest), vs[0], u[k..] + rest);
      PairsUnparsed(u[k..], ks[1..], vs[1..], kt, vt, d.0, d.1, rest);
    } else {
      NothingBefore(u, rest);
    }
  }

  lemma CutTwice(u: Bytes, j: nat, k: nat, rest: Bytes)
    requires j <= k <= |u|
    ensures u + rest == u[..j] + (u[j..k] + (u[k..] + rest))
  {
  }

  // ---- exactly -----------------------------------------------------------------------------

  /** A read succeeds, with a value and the bytes after it, exactly when the bytes before those spell the
      value. */
  lemma ReadsExactly(t: Type, s: Bytes, v: Value, rest: Bytes)
    ensures Decode(t, s) == Got(v, rest) <==> exists u :: s == u + rest && Spells(u, v, t)
  {
    if Decode(t, s) == Got(v, rest) {
      var u := Parsed(t, s);
    }
    if u :| s == u + rest && Spells(u, v, t) {
      Unparsed(u, v, t, rest);
    }
  }

  /** What follows a value does not matter to its reading. */
  lemma ReadsOn(t: Type, s: Bytes, more: Bytes)
    requires Decode(t, s).Got?
    ensures Decode(t, s + more) == Got(Decode(t, s).value, Decode(t, s).rest + more)
  {
    var u := Parsed(t, s);
    Unparsed(u, Decode(t, s).value, t, Decode(t, s).rest + more);
    Regroup(u, Decode(t, s).rest, more);
  }

  /** A value cut short is not read. */
  lemma CutShort(s: Bytes, v: Value, t: Type, k: nat)
    requires Spells(s, v, t) && k < |s|
    ensures Decode(t, s[..k]).Failed?
  {
    Unparsed(s, v, t, []);
    assert s[..k] + s[k..] == s && s + [] == s;
    if Decode(t, s[..k]).Got? {
      ReadsOn(t, s[..k], s[k..]);
      assert false;
    }
  }

  // ---- typed values ------------------------------------------------------------------------

  predicate AllTyped(vs: seq<Value>, t: Type)
  {
    forall k | 0 <= k < |vs| :: HasType(vs[k], t)
  }

  lemma WriteTyped(keys: seq<Value>, vals: seq<Value>, key: Value, val: Value, kt: Type, vt: Type)
    requires |keys| == |vals| && AllTyped(keys, kt) && AllTyped(vals, vt) && HasType(key, kt) && HasType(val, vt)
    ensures var d := Inserted(keys, vals, key, val); AllTyped(d.0, kt) && AllTyped(d.1, vt)
  {
    if key in keys {
      var i := FirstAt(keys, key);
      InsertedAt(keys, vals, key, val, i);
    } else {
      InsertedNew(keys, vals, key, val);
    }
  }

  lemma {:induction false} FirstAt(keys: seq<Value>, key: Value) returns (i: nat)
    requires key in keys
    ensures i < |keys| && keys[i] == key && forall j | 0 <= j < i :: keys[j] != key
  {
    if keys[0] == key {
      i := 0;
    } else {
      var j := FirstAt(keys[1..], key);
      i := j + 1;
    }
  }

  lemma {:induction false} WritesTyped(keys: seq<Value>, vals: seq<Value>, ks: seq<Value>, vs: seq<Value>, kt: Type,
                                       vt: Type)
    requires |keys| == |vals| && |ks| == |vs|
    requires AllTyped(keys, kt) && AllTyped(vals, vt) && AllTyped(ks, kt) && AllTyped(vs, vt)
    ensures var r := Writes(keys, vals, ks, vs); AllTyped(r.0, kt) && AllTyped(r.1, vt)
    decreases |ks|
  {
    if ks != [] {
      var d := Inserted(keys, vals, ks[0], vs[0]);
      WriteTyped(keys, vals, ks[0], vs[0], kt, vt);
      WritesTyped(d.0, d.1, ks[1..], vs[1..], kt, vt);
    }
  }

  lemma MapTyped(ks: seq<Value>, vs: seq<Value>, kt: Type, vt: Type)
    requires |ks| == |vs| < MAX_COUNT && AllTyped(ks, kt) && AllTyped(vs, vt)
    ensures HasType(MapOf(ks, vs), TMap(kt, vt))
  {
    MapOfWrites(ks, vs);
    WritesTyped([], [], ks, vs, kt, vt);
  }

  /** What is spelled, and so what is read, has the type asked for. */
  lemma {:induction false} SpelledTyped(u: Bytes, v: Value, t: Type)
    requires Spells(u, v, t)
    ensures HasType(v, t)
    decreases t, 1
  {
    match t
    case TBool =>
    case TNum(_) =>
    case TSigned(_) =>
    case TString =>
    case TVector(e) => ElemsTyped(u[4..], v.elems, e);
    case TMap(kt, vt) =>
      var ks, vs :| |ks| < MAX_COUNT && u[..4] == BigEndian(|ks|, 4)
                    && SpellPairs(u[4..], ks, vs, kt, vt) && v == MapOf(ks, vs);
      PairsTyped(u[4..], ks, vs, kt, vt);
      MapTyped(ks, vs, kt, vt);
  }

  lemma {:induction false} ElemsTyped(u: Bytes, vs: seq<Value>, e: Type)
    requires SpellElems(u, vs, e)
    ensures AllTyped(vs, e)
    decreases e, 2, |vs|
  {
    if vs != [] {
      var k: nat :| k <= |u| && Spells(u[..k], vs[0], e) && SpellElems(u[k..], vs[1..], e);
      SpelledTyped(u[..k], vs[0], e);
      ElemsTyped(u[k..], vs[1..], e);
      FirstTyped(vs, e);
    }
  }

  lemma {:induction false} PairsTyped(u: Bytes, ks: seq<Value>, vs: seq<Value>, kt: Type, vt: Type)
    requires SpellPairs(u, ks, vs, kt, vt)
    ensures AllTyped(ks, kt) && AllTyped(vs, vt)
    decreases TMap(kt, vt), 0, |ks|
  {
    if ks != [] {
      var j: nat, k: nat :| j <= k <= |u| && Spells(u[..j], ks[0], kt) && Spells(u[j..k], vs[0], vt)
                            && SpellPairs(u[k..], ks[1..], vs[1..], kt, vt);
      SpelledTyped(u[..j], ks[0], kt);
      SpelledTyped(u[j..k], vs[0], vt);
      PairsTyped(u[k..], ks[1..], vs[1..], kt, vt);
      FirstTyped(ks, kt);
      FirstTyped(vs, vt);
    }
  }

  lemma FirstTyped(vs: seq<Value>, t: Type)
    requires vs != [] && HasType(vs[0], t) && AllTyped(vs[1..], t)
    ensures AllTyped(vs, t)
  {
    assert forall i | 0 < i < |vs| :: vs[i] == vs[1..][i - 1];
  }

  /** What is marshalled is one of the spellings. */
  lemma EncodeSpells(v: Value, t: Type)
    requires HasType(v, t)
    ensures Spells(Encode(v, t), v, t)
  {
    Round(v, t, []);
    var u := Parsed(t, Encode(v, t) + []);
    assert u + [] == u && Encode(v, t) + [] == Encode(v, t);
  }

  /** Of the spellings of a bool, the bytes 0 and 1 are marshalled. */
  lemma BoolByte(b: bool)
    ensures Encode(Bool(b), TBool)[0] <= 1
  {
    EncodeSpells(Bool(b), TBool);
  }

  /** Types whose values have one spelling each. */
  predicate OneSpelling(t: Type)
  {
    match t
    case TBool => false
    case TMap(_, _) => false
    case TVector(e) => OneSpelling(e)
    case _ => true
  }

  lemma {:induction false} ElemsAreEncoded(u: Bytes, vs: seq<Value>, e: Type)
    requires OneSpelling(e) && SpellElems(u, vs, e) && AllTyped(vs, e)
    ensures u == EncodeElems(vs, e)
    decreases e, 2, |vs|
  {
    if vs != [] {
      var k: nat :| k <= |u| && Spells(u[..k], vs[0], e) && SpellElems(u[k..], vs[1..], e);
      SpelledOnce(u[..k], vs[0], e);
      ElemsAreEncoded(u[k..], vs[1..], e);
      Halved(u, k);
    }
  }

  /** Without bool and map, the bytes read are those that marshalling the value gives. */
  lemma {:induction false} SpelledOnce(u: Bytes, v: Value, t: Type)
    requires OneSpelling(t) && Spells(u, v, t)
    ensures HasType(v, t) && u == Encode(v, t)
    decreases t, 1
  {
    SpelledTyped(u, v, t);
    match t
    case TVector(e) =>
      ElemsAreEncoded(u[4..], v.elems, e);
      Halved(u, 4);
    case TNum(_) =>
    case TSigned(_) =>
    case TString =>
  }

  /** For these types a read succeeds exactly when the bytes start with the encoding of a value. */
  lemma ReadsEncodings(t: Type, s: Bytes, v: Value, rest: Bytes)
    requires OneSpelling(t)
    ensures Decode(t, s) == Got(v, rest) <==> HasType(v, t) && s == Encode(v, t) + rest
  {
    if Decode(t, s) == Got(v, rest) {
      var u := Parsed(t, s);
      SpelledOnce(u, v, t);
    }
    if HasType(v, t) && s == Encode(v, t) + rest {
      Round(v, t, rest);
    }
  }

  // ---- several values ----------------------------------------------------------------------

  lemma {:induction false} AllReadOn(ts: seq<Type>, s: Bytes, more: Bytes)
    requires DecodeAll(ts, s).Got?
    ensures DecodeAll(ts, s + more) == Got(DecodeAll(ts, s).value, DecodeAll(ts, s).rest + more)
  {
    if ts != [] {
      ReadsOn(ts[0], s, more);
      AllReadOn(ts[1..], Decode(ts[0], s).rest, more);
    }
  }

  lemma CutAgain(s: Bytes, k: nat)
    requires k <= |s|
    ensures s[..k] + s[k..] == s
  {
  }

  lemma NothingAfter(s: Bytes)
    ensures s + [] == s
  {
  }

  lemma AllCutShort(ts: seq<Type>, s: Bytes, vs: seq<Value>, k: nat)
    requires DecodeAll(ts, s) == Got(vs, []) && k < |s|
    ensures DecodeAll(ts, s[..k]).Failed?
  {
    CutAgain(s, k);
    if DecodeAll(ts, s[..k]).Got? {
      AllReadOn(ts, s[..k], s[k..]);
      assert false;
    }
  }

  /** Arguments cut short anywhere are refused. */
  lemma ArgumentsCutShort(vs: seq<Value>, ts: seq<Type>, k: nat)
    requires HaveTypes(vs, ts) && k < |EncodeAll(vs, ts)|
    ensures DecodeAll(ts, EncodeAll(vs, ts)[..k]).Failed?
  {
    RoundAll(vs, ts, []);
    NothingAfter(EncodeAll(vs, ts));
    AllCutShort(ts, EncodeAll(vs, ts), vs, k);
  }
}
