/**
 The client's window of finished call numbers (rpcc::update_xid_rep): a sorted list whose front
 says that every call up to it is finished.
 */
module XidWindow {

  ghost function Beyond(reported: set<nat>, n: nat): set<nat>
  {
    set x | x in reported && x > n
  }

  lemma BeyondShrinks(reported: set<nat>, n: nat)
    requires n + 1 in reported
    ensures |Beyond(reported, n + 1)| < |Beyond(reported, n)|
  {
    assert Beyond(reported, n) == Beyond(reported, n + 1) + {n + 1};
  }

  /** Counts up from n while the next number has been reported. */
  ghost function FrontFrom(reported: set<nat>, n: nat): (m: nat)
    ensures n <= m && m + 1 !in reported
    ensures forall k | n < k <= m :: k in reported
    decreases |Beyond(reported, n)|
  {
    if n + 1 in reported then
      BeyondShrinks(reported, n);
      FrontFrom(reported, n + 1)
    else n
  }

  /** The largest n such that 1..n have all been reported. */
  ghost function Front(reported: set<nat>): (n: nat)
    ensures n + 1 !in reported
    ensures forall k | 0 < k <= n :: k in reported
  {
    FrontFrom(reported, 0)
  }

  /** The front is the only number with these two properties. */
  lemma FrontUnique(reported: set<nat>, n: nat)
    requires n + 1 !in reported && forall k | 0 < k <= n :: k in reported
    ensures Front(reported) == n
  {
    var m := Front(reported);
    assert m < n ==> m + 1 in reported;
    assert n < m ==> n + 1 in reported;
  }

  lemma FrontGrows(reported: set<nat>, more: set<nat>)
    requires reported <= more
    ensures Front(reported) <= Front(more)
  {
    var m := Front(more);
    assert m < Front(reported) ==> m + 1 in reported;
  }

  predicate Sorted(w: seq<nat>)
  {
    forall i, j | 0 <= i < j < |w| :: w[i] <= w[j]
  }

  /** The window lists every reported number beyond its front, and nothing unreported.  A number
      reported twice may be listed twice. */
  ghost predicate IsWindow(w: seq<nat>, reported: set<nat>)
  {
    && Holds(w, reported)
    && w[0] + 1 !in w
  }

  ghost predicate Holds(w: seq<nat>, reported: set<nat>)
  {
    && w != [] && Sorted(w)
    && (forall k | 0 < k <= w[0] :: k in reported)
    && (forall x | x in w && x > 0 :: x in reported)
    && (forall x | x in reported && x > w[0] :: x in w)
  }

  lemma InsertFacts(w: seq<nat>, k: nat, x: nat)
    requires Sorted(w) && 0 < k <= |w| && (forall j | 0 <= j < k :: w[j] <= x) && (k < |w| ==> x < w[k])
    ensures var w' := w[..k] + [x] + w[k..];
            Sorted(w') && w'[0] == w[0] && forall y :: y in w' <==> y in w || y == x
  {
    var w' := w[..k] + [x] + w[k..];
    assert w == w[..k] + w[k..];
    assert forall i | 0 <= i < |w'| :: w'[i] == if i < k then w[i] else if i == k then x else w[i - 1];
  }

  class Window {
    var window: seq<nat>
    ghost var reported: set<nat>

    ghost predicate Valid()
      reads this
    {
      IsWindow(window, reported)
    }

    constructor ()
      ensures Valid() && reported == {}
    {
      window := [0];
      reported := {};
    }

    method UpdateXidRep(xid: nat)
      requires Valid()
      modifies this
      ensures Valid() && reported == old(reported) + {xid}
      ensures window[0] == Front(reported)
      ensures forall x | x > window[0] :: x in window <==> x in reported
    {
      if xid > window[0] {
        Insert(xid);
        Compress();
      } else {
        reported := reported + {xid};
      }
      FrontUnique(reported, window[0]);
    }

    /** Puts xid before the first larger entry, or at the end. */
    method Insert(xid: nat)
      requires Valid() && xid > window[0]
      modifies this
      ensures Holds(window, reported) && reported == old(reported) + {xid}
    {
      var it := 0;
      while it < |window| && window[it] <= xid
        invariant 0 <= it <= |window| && window == old(window) && reported == old(reported)
        invariant forall j | 0 <= j < it :: window[j] <= xid
      {
        it := it + 1;
      }
      InsertFacts(window, it, xid);
      window := window[..it] + [xid] + window[it..];
      reported := reported + {xid};
    }

    /** Drops the front while its successor is listed.  The iterator is the index `it`; popping
        the front shifts it, and never removes the node it stands on. */
    method Compress()
      requires Holds(window, reported)
      modifies this`window
      ensures IsWindow(window, reported)
    {
      var it := 1;
      while it < |window|
        invariant 1 <= it <= |window| && Holds(window, reported)
        invariant forall j | 0 <= j < it :: window[j] != window[0] + 1
        decreases |window| - it
      {
        ghost var todo := |window| - it;
        while window[0] + 1 == window[it]
          invariant 0 <= it < |window| && Holds(window, reported)
          invariant |window| - it == todo
          invariant forall j | 0 <= j < it :: window[j] != window[0] + 1
          decreases it
        {
          assert it > 0;
          PopFront();
          it := it - 1;
        }
        it := it + 1;
      }
    }

    method PopFront()
      requires |window| > 1
      modifies this`window
      ensures window == old(window)[1..]
    {
      window := window[1..];
    }
  }
}
