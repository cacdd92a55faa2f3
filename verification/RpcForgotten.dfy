/** Exactly which requests the server answers FORGOTTEN, in any run, from the calls it executed. */
module RpcForgotten {
  import opened Options
  import opened ReplyWindow
  import opened RpcSystem
  import opened RpcInvariant

  /** No execution of a call of client n came with an xidRep beyond y. */
  ghost predicate NotTrimmed(execs: seq<Exec>, n: Nonce, y: nat)
  {
    forall k | 0 <= k < |execs| && execs[k].request.nonce == n :: execs[k].request.xidRep <= y
  }

  /** The server executed call y, and no xidRep it has seen lies beyond y. */
  ghost predicate Kept(execs: seq<Exec>, n: Nonce, y: nat)
  {
    Executed(execs, n, y) && NotTrimmed(execs, n, y)
  }

  /** The window of client n lists exactly those calls. */
  ghost predicate ListsKept(S: System, n: Nonce)
  {
    forall y: nat :: Listed(WindowOf(S, n), y) <==> Kept(S.execs, n, y)
  }

  lemma {:induction false} SameRequestsKept(execs: seq<Exec>, execs': seq<Exec>, n: Nonce, y: nat)
    requires |execs'| == |execs| && forall k | 0 <= k < |execs| :: execs'[k].request == execs[k].request
    ensures Kept(execs', n, y) <==> Kept(execs, n, y)
  {
    assert forall k | 0 <= k < |execs| :: IsFor(execs'[k], n, y) <==> IsFor(execs[k], n, y);
  }

  lemma OneMoreKept(execs: seq<Exec>, r: Request, n: Nonce, y: nat)
    ensures Executed(execs + [Exec(r, None)], n, y) <==> Executed(execs, n, y) || (r.nonce == n && r.xid == y)
    ensures NotTrimmed(execs + [Exec(r, None)], n, y) <==> NotTrimmed(execs, n, y) && (r.nonce == n ==> r.xidRep <= y)
  {
    var more := execs + [Exec(r, None)];
    assert more[|execs|] == Exec(r, None) && forall k | 0 <= k < |execs| :: more[k] == execs[k];
    if Executed(execs, n, y) {
      var k :| 0 <= k < |execs| && IsFor(execs[k], n, y);
      assert IsFor(more[k], n, y);
    }
    if r.nonce == n && r.xid == y {
      assert IsFor(more[|execs|], n, y);
    }
  }

  /** A call that the window does not know is not below any xidRep seen. */
  lemma UnknownNotTrimmed(S: System, n: Nonce, x: nat)
    requires WindowOk(S, n) && ListsKept(S, n) && !Knows(WindowOf(S, n), x)
    ensures NotTrimmed(S.execs, n, x)
  {
    var w := WindowOf(S, n);
    if w != [] {
      assert w[0].xid <= x && Listed(w, w[0].xid);
      assert Kept(S.execs, n, w[0].xid);
    }
  }

  lemma NewListsKept(S: System, r: Request, n: Nonce)
    requires Inv(S) && ListsKept(S, n) && r in S.requests && Check(WindowOf(S, r.nonce), r.xid) == New
    ensures ListsKept(Dispatched(S, r), n)
  {
    var S' := Dispatched(S, r);
    var w, w' := WindowOf(S, n), WindowOf(S', n);
    forall y: nat ensures Listed(w', y) <==> Kept(S'.execs, n, y) {
      OneMoreKept(S.execs, r, n, y);
      if n == r.nonce {
        NewEntry(S, r, y);
      }
    }
  }

  lemma NewEntry(S: System, r: Request, y: nat)
    requires Inv(S) && ListsKept(S, r.nonce) && r in S.requests && Check(WindowOf(S, r.nonce), r.xid) == New
    ensures Listed(WindowOf(Dispatched(S, r), r.nonce), y)
       <==> (Kept(S.execs, r.nonce, y) || (y == r.xid && NotTrimmed(S.execs, r.nonce, y))) && r.xidRep <= y
  {
    var w := WindowOf(S, r.nonce);
    var w' := Remember(w, r.xid, r.xidRep);
    assert WindowOk(S, r.nonce) && RequestOk(S, r);
    NewMeansUnknown(w, r.xid);
    RememberKnows(w, r.xid, r.xidRep, y);
    UnknownNotTrimmed(S, r.nonce, r.xid);
    ListedAfter(w, w', r.xid, r.xidRep, y);
  }

  lemma ListedAfter(w: seq<Entry>, w': seq<Entry>, xid: nat, xidRep: nat, y: nat)
    requires forall e :: e in w' <==> (e in w || e == Entry(xid, false, NO_BUF)) && e.xid >= xidRep
    ensures Listed(w', y) <==> (Listed(w, y) || y == xid) && y >= xidRep
  {
    ListedIn(w, y);
    ListedIn(w', y);
    if Listed(w, y) && y >= xidRep {
      var e :| e in w && e.xid == y;
      assert e in w';
    }
    if y == xid && y >= xidRep {
      assert Entry(xid, false, NO_BUF) in w';
    }
  }

  lemma FinishListsKept(S: System, k: nat, p: Payload, n: Nonce)
    requires ListsKept(S, n) && k < |S.execs|
    ensures ListsKept(Finished(S, k, p), n)
  {
    var S', x := Finished(S, k, p), S.execs[k].request.xid;
    forall y: nat ensures Listed(WindowOf(S', n), y) <==> Kept(S'.execs, n, y) {
      SameRequestsKept(S.execs, S'.execs, n, y);
      if n == S.execs[k].request.nonce {
        AnsweredLists(WindowOf(S, n), x, p, y);
      }
    }
  }

  lemma AnsweredLists(w: seq<Entry>, xid: nat, p: Payload, y: nat)
    ensures Listed(Answered(w, xid, p), y) <==> Listed(w, y)
  {
    var w' := Answered(w, xid, p);
    assert forall i | 0 <= i < |w| :: w'[i].xid == w[i].xid;
  }

  lemma NextListsKept(S: System, step: Step, n: Nonce)
    requires Inv(S) && ListsKept(S, n) && Enabled(S, step)
    ensures ListsKept(Apply(S, step), n)
  {
    match step
    case Deliver(r) =>
      if Check(WindowOf(S, r.nonce), r.xid) == New { NewListsKept(S, r, n); }
    case Finish(k, p) => FinishListsKept(S, k, p, n);
    case Issue(_, _, _) =>
    case Receive(_) =>
    case Return(_, _) =>
    case Cancel(_) =>
  }

  lemma {:induction false} RunListsKept(run: seq<System>, i: nat, n: Nonce)
    requires IsRun(run) && i < |run|
    ensures ListsKept(run[i], n)
  {
    if i > 0 {
      RunListsKept(run, i - 1, n);
      RunInv(run, i - 1);
      assert Next(run[i - 1], run[i - 1 + 1]);
      var step :| Enabled(run[i - 1], step) && run[i] == Apply(run[i - 1], step);
      NextListsKept(run[i - 1], step, n);
    } else {
      forall y: nat ensures !Executed(run[0].execs, n, y) {
      }
    }
  }

  /** In every run a request is answered FORGOTTEN exactly when the server has executed a later call
      of the client, and has executed no call up to this one that is not below an xidRep it has seen. */
  lemma ForgottenExactlyWhen(run: seq<System>, i: nat, n: Nonce, x: nat)
    requires IsRun(run) && i < |run|
    ensures Check(WindowOf(run[i], n), x) == Forgotten
       <==> ((exists y: nat :: y > x && Executed(run[i].execs, n, y))
             && (forall y: nat | y <= x :: !Kept(run[i].execs, n, y)))
  {
    var S := run[i];
    var w := WindowOf(S, n);
    RunInv(run, i);
    RunListsKept(run, i, n);
    assert WindowOk(S, n);
    if Check(w, x) == Forgotten {
      assert Listed(w, w[0].xid);
      assert Executed(S.execs, n, w[0].xid);
      forall y: nat | y <= x ensures !Kept(S.execs, n, y) {
        assert !Listed(w, y);
      }
    }
    if (exists y: nat :: y > x && Executed(S.execs, n, y)) && (forall y: nat | y <= x :: !Kept(S.execs, n, y)) {
      var y: nat :| y > x && Executed(S.execs, n, y);
      assert Knows(w, y);
      assert Listed(w, w[0].xid) && !Listed(w, x);
      assert Kept(S.execs, n, w[0].xid);
    }
  }
}
