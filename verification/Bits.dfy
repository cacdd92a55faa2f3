/** Bytes, and the bit operators the block allocator uses on them. */
module Bits {

  type U8 = v: nat | v < 256

  function And(x: nat, y: nat): (r: nat)
    ensures r <= x
  {
    if x == 0 then 0 else 2 * And(x / 2, y / 2) + if x % 2 == 1 && y % 2 == 1 then 1 else 0
  }

  /** x with the bits of y cleared. */
  function AndNot(x: nat, y: nat): (r: nat)
    ensures r <= x
  {
    if x == 0 then 0 else 2 * AndNot(x / 2, y / 2) + if x % 2 == 1 && y % 2 == 0 then 1 else 0
  }

  function Or(x: nat, y: nat): nat
    decreases x + y
  {
    if x + y == 0 then 0 else 2 * Or(x / 2, y / 2) + if x % 2 == 1 || y % 2 == 1 then 1 else 0
  }

  function Shifted(k: nat): nat
  {
    if k == 0 then 1 else 2 * Shifted(k - 1)
  }

  predicate HasBit(x: nat, k: nat)
  {
    And(x, Shifted(k)) != 0
  }

  lemma {:induction false} AndNothing(x: nat)
    ensures And(x, 0) == 0
  {
    if x != 0 { AndNothing(x / 2); }
  }

  lemma {:induction false} HasBitIs(x: nat, k: nat)
    ensures HasBit(x, k) <==> if k == 0 then x % 2 == 1 else HasBit(x / 2, k - 1)
  {
    if x != 0 {
      if k == 0 {
        AndNothing(x / 2);
      } else {
        assert Shifted(k) / 2 == Shifted(k - 1) && Shifted(k) % 2 == 0;
      }
    }
  }

  lemma {:induction false} OrNothing(x: nat)
    ensures Or(x, 0) == x
  {
    if x != 0 { OrNothing(x / 2); }
  }

  lemma {:induction false} AndNotNothing(x: nat)
    ensures AndNot(x, 0) == x
  {
    if x != 0 { AndNotNothing(x / 2); }
  }

  lemma OrHalf(x: nat, k: nat)
    ensures Or(x, Shifted(k)) % 2 == (if k == 0 then 1 else x % 2)
    ensures Or(x, Shifted(k)) / 2 == if k == 0 then x / 2 else Or(x / 2, Shifted(k - 1))
  {
    if k == 0 {
      OrNothing(x / 2);
    } else {
      ShiftedPositive(k - 1);
      assert Shifted(k) / 2 == Shifted(k - 1) && Shifted(k) % 2 == 0;
    }
  }

  lemma {:induction false} ShiftedPositive(k: nat)
    ensures Shifted(k) > 0
  {
    if k > 0 { ShiftedPositive(k - 1); }
  }

  lemma AndNotHalf(x: nat, k: nat)
    ensures AndNot(x, Shifted(k)) % 2 == (if k == 0 then 0 else x % 2)
    ensures AndNot(x, Shifted(k)) / 2 == if k == 0 then x / 2 else AndNot(x / 2, Shifted(k - 1))
  {
    if k == 0 {
      AndNotNothing(x / 2);
    } else {
      assert Shifted(k) / 2 == Shifted(k - 1) && Shifted(k) % 2 == 0;
    }
  }

  /** Setting or clearing bit k changes bit k and no other. */
  lemma {:induction false} BitsAfter(x: nat, k: nat, j: nat)
    ensures HasBit(Or(x, Shifted(k)), j) <==> j == k || HasBit(x, j)
    ensures HasBit(AndNot(x, Shifted(k)), j) <==> j != k && HasBit(x, j)
    decreases j
  {
    HasBitIs(x, j);
    HasBitIs(Or(x, Shifted(k)), j);
    HasBitIs(AndNot(x, Shifted(k)), j);
    OrHalf(x, k);
    AndNotHalf(x, k);
    if j > 0 && k > 0 {
      BitsAfter(x / 2, k - 1, j - 1);
    }
  }

  /** Setting one of the low n bits keeps a number below 2 to the n. */
  lemma {:induction false} OrBound(x: nat, k: nat, n: nat)
    requires k < n && x < Shifted(n)
    ensures Or(x, Shifted(k)) < Shifted(n)
  {
    OrHalf(x, k);
    if k == 0 {
      assert Shifted(n) == 2 * Shifted(n - 1);
    } else {
      OrBound(x / 2, k - 1, n - 1);
    }
  }
}
