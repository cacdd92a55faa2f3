/** What every step of the RPC system keeps. */
module RpcInvariant {
  import opened Options
  import opened XidWindow
  import opened ReplyWindow
  import opened RpcSystem

  predicate IsFor(e: Exec, n: Nonce, xid: nat)
  {
    e.request.nonce == n && e.request.xid == xid
  }

  ghost predicate Executed(execs: seq<Exec>, n: Nonce, xid: nat)
  {
    exists k | 0 <= k < |execs| :: IsFor(execs[k], n, xid)
  }

  /** Some execution of this call produced this payload. */
  ghost predicate Produced(execs: seq<Exec>, n: Nonce, xid: nat, p: Payload)
  {
    exists k | 0 <= k < |execs| :: IsFor(execs[k], n, xid) && execs[k].outcome == Some(p)
  }

  ghost predicate RequestOk(S: System, r: Request)
  {
    r.nonce in S.clients && 1 <= r.xid < S.clients[r.nonce].xid && r.xidRep < r.xid
  }

  ghost predicate RequestsOk(S: System)
  {
    && (forall r {:trigger RequestOk(S, r)} | r in S.requests :: RequestOk(S, r))
    && (forall r, r' | r in S.requests && r' in S.requests && r.nonce == r'.nonce && r.xid == r'.xid :: r == r')
  }

  ghost predicate CallOk(S: System, n: Nonce, x: nat, call: Call)
  {
    && call.request in S.requests && call.request.nonce == n && call.request.xid == x
    && (call.done && call.result.ret >= 0 ==> Produced(S.execs, n, x, call.result))
  }

  ghost predicate ClientOk(S: System, n: Nonce, c: Client)
  {
    && c.xid >= 1
    && (forall x | x in c.reported :: x < c.xid)
    && (forall x | x in c.calls :: CallOk(S, n, x, c.calls[x]))
    && (forall x | x in c.returned ::
          CallOk(S, n, x, c.returned[x]) && (c.returned[x].result.ret >= 0 ==> c.returned[x].done))
  }

  ghost predicate ExecsOk(S: System)
  {
    && (forall k | 0 <= k < |S.execs| :: S.execs[k].request in S.requests)
    && (forall j, k | 0 <= j < k < |S.execs| :: !IsFor(S.execs[k], S.execs[j].request.nonce, S.execs[j].request.xid))
  }

  ghost predicate EntryOk(S: System, n: Nonce, e: Entry)
  {
    Executed(S.execs, n, e.xid) && (e.present ==> Produced(S.execs, n, e.xid, e.buf))
  }

  ghost predicate WindowOk(S: System, n: Nonce)
  {
    var w := WindowOf(S, n);
    && Increasing(w)
    && (forall e | e in w :: EntryOk(S, n, e))
    && (forall k | 0 <= k < |S.execs| && S.execs[k].request.nonce == n :: Knows(w, S.execs[k].request.xid))
  }

  ghost predicate ReplyOk(S: System, p: Reply)
  {
    && p.nonce in S.clients && p.xid < S.clients[p.nonce].xid
    && (p.payload.ret >= 0 ==> Produced(S.execs, p.nonce, p.xid, p.payload))
  }

  ghost predicate Inv(S: System)
  {
    && RequestsOk(S)
    && ExecsOk(S)
    && (forall n {:trigger ClientOk(S, n, S.clients[n])} | n in S.clients :: ClientOk(S, n, S.clients[n]))
    && (forall n :: WindowOk(S, n))
    && (forall p {:trigger ReplyOk(S, p)} | p in S.replies :: ReplyOk(S, p))
  }

  lemma InitInv(S: System)
    requires Init(S)
    ensures Inv(S)
  {
  }

  /** Executions are only added, and only get their outcome once. */
  ghost predicate Extends(execs: seq<Exec>, more: seq<Exec>)
  {
    && |execs| <= |more|
    && forall k | 0 <= k < |execs| ::
         more[k].request == execs[k].request && (execs[k].outcome.Some? ==> more[k].outcome == execs[k].outcome)
  }

  lemma ExtendsKeeps(execs: seq<Exec>, more: seq<Exec>, n: Nonce, x: nat, p: Payload)
    requires Extends(execs, more)
    ensures Executed(execs, n, x) ==> Executed(more, n, x)
    ensures Produced(execs, n, x, p) ==> Produced(more, n, x, p)
  {
    if k :| 0 <= k < |execs| && IsFor(execs[k], n, x) {
      assert IsFor(more[k], n, x);
    }
    if k :| 0 <= k < |execs| && IsFor(execs[k], n, x) && execs[k].outcome == Some(p) {
      assert IsFor(more[k], n, x) && more[k].outcome == Some(p);
    }
  }

  // ---- steps of the client -------------------------------------------------------------

  lemma RequestsKept(S: System, S': System)
    requires RequestsOk(S) && S'.requests == S.requests && S'.clients.Keys == S.clients.Keys
    requires forall n | n in S.clients :: S.clients[n].xid <= S'.clients[n].xid
    ensures RequestsOk(S')
  {
    forall r | r in S'.requests ensures RequestOk(S', r) {
      assert RequestOk(S, r);
    }
  }

  lemma RepliesKept(S: System, S': System)
    requires forall p | p in S.replies :: ReplyOk(S, p)
    requires S'.replies == S.replies && S'.execs == S.execs && S'.clients.Keys == S.clients.Keys
    requires forall n | n in S.clients :: S.clients[n].xid <= S'.clients[n].xid
    ensures forall p | p in S'.replies :: ReplyOk(S', p)
  {
    forall p | p in S'.replies ensures ReplyOk(S', p) {
      assert ReplyOk(S, p);
    }
  }

  lemma WindowsKept(S: System, S': System)
    requires (forall n :: WindowOk(S, n)) && S'.windows == S.windows && S'.execs == S.execs
    ensures forall n :: WindowOk(S', n)
  {
    forall n ensures WindowOk(S', n) {
      assert WindowOk(S, n);
      assert forall e :: EntryOk(S', n, e) <==> EntryOk(S, n, e);
    }
  }

  lemma IssueRequests(S: System, step: Step)
    requires RequestsOk(S) && step.Issue? && Enabled(S, step) && ClientOk(S, step.n, S.clients[step.n])
    ensures RequestsOk(Apply(S, step))
  {
    var S', c := Apply(S, step), S.clients[step.n];
    var m := Front(c.reported);
    assert m > 0 ==> m in c.reported;
    forall r | r in S'.requests ensures RequestOk(S', r) {
      assert r in S.requests ==> RequestOk(S, r);
    }
    forall r | r in S.requests && r.nonce == step.n ensures r.xid < c.xid {
      assert RequestOk(S, r);
    }
  }

  lemma IssueClients(S: System, step: Step)
    requires (forall n | n in S.clients :: ClientOk(S, n, S.clients[n])) && step.Issue? && Enabled(S, step)
    ensures var S' := Apply(S, step); forall n | n in S'.clients :: ClientOk(S', n, S'.clients[n])
  {
    var S' := Apply(S, step);
    forall n | n in S'.clients ensures ClientOk(S', n, S'.clients[n]) {
      assert ClientOk(S, n, S.clients[n]);
    }
  }

  lemma IssueInv(S: System, step: Step)
    requires Inv(S) && step.Issue? && Enabled(S, step)
    ensures Inv(Apply(S, step))
  {
    var S' := Apply(S, step);
    assert ClientOk(S, step.n, S.clients[step.n]);
    IssueRequests(S, step);
    IssueClients(S, step);
    WindowsKept(S, S');
    RepliesKept(S, S');
  }

  /** Only one client's record changes, and it stays sound. */
  lemma ClientStepInv(S: System, S': System, n: Nonce, c: Client)
    requires Inv(S) && n in S.clients && S' == S.(clients := S.clients[n := c])
    requires c.xid == S.clients[n].xid && ClientOk(S, n, c)
    ensures Inv(S')
  {
    forall m | m in S'.clients ensures ClientOk(S', m, S'.clients[m]) {
      assert ClientOk(S, m, S'.clients[m]);
    }
    RequestsKept(S, S');
    WindowsKept(S, S');
    RepliesKept(S, S');
  }

  lemma ReceiveInv(S: System, step: Step)
    requires Inv(S) && step.Receive? && Enabled(S, step)
    ensures Inv(Apply(S, step))
  {
    var n := step.reply.nonce;
    assert ClientOk(S, n, S.clients[n]) && ReplyOk(S, step.reply);
    ClientStepInv(S, Apply(S, step), n, Received(S.clients[n], step.reply.xid, step.reply.payload));
  }

  lemma ReturnInv(S: System, step: Step)
    requires Inv(S) && step.Return? && Enabled(S, step)
    ensures Inv(Apply(S, step))
  {
    var n := step.n;
    assert ClientOk(S, n, S.clients[n]);
    assert RequestOk(S, S.clients[n].calls[step.xid].request);
    ClientStepInv(S, Apply(S, step), n, Returned(S.clients[n], step.xid));
  }

  lemma CancelInv(S: System, step: Step)
    requires Inv(S) && step.Cancel? && Enabled(S, step)
    ensures Inv(Apply(S, step))
  {
    assert ClientOk(S, step.n, S.clients[step.n]);
    ClientStepInv(S, Apply(S, step), step.n, Cancelled(S.clients[step.n]));
  }

  // ---- steps of the server -------------------------------------------------------------

  lemma ServerStepKeeps(S: System, S': System)
    requires Inv(S) && S'.clients == S.clients && S'.requests == S.requests && Extends(S.execs, S'.execs)
    ensures forall n | n in S'.clients :: ClientOk(S', n, S'.clients[n])
    ensures forall p | p in S.replies :: ReplyOk(S', p)
    ensures forall n, e | EntryOk(S, n, e) :: EntryOk(S', n, e)
  {
    forall n, x, p: Payload
      ensures Executed(S.execs, n, x) ==> Executed(S'.execs, n, x)
      ensures Produced(S.execs, n, x, p) ==> Produced(S'.execs, n, x, p)
    {
      ExtendsKeeps(S.execs, S'.execs, n, x, p);
    }
    forall n | n in S'.clients ensures ClientOk(S', n, S'.clients[n]) {
      assert ClientOk(S, n, S.clients[n]);
    }
    forall p | p in S.replies ensures ReplyOk(S', p) {
      assert ReplyOk(S, p);
    }
  }

  /** A new request is one that was never executed, so the log gets no second entry for it. */
  lemma NewIsFirst(S: System, r: Request)
    requires Inv(S) && r in S.requests && Check(WindowOf(S, r.nonce), r.xid) == New
    ensures !Executed(S.execs, r.nonce, r.xid)
  {
    NewMeansUnknown(WindowOf(S, r.nonce), r.xid);
    assert WindowOk(S, r.nonce);
  }

  /** The window in which a new call was entered. */
  lemma NewOwnWindow(S: System, S': System, r: Request)
    requires WindowOk(S, r.nonce) && r.xidRep < r.xid && Check(WindowOf(S, r.nonce), r.xid) == New
    requires S' == Dispatched(S, r)
    requires forall e | EntryOk(S, r.nonce, e) :: EntryOk(S', r.nonce, e)
    ensures WindowOk(S', r.nonce)
  {
    var n := r.nonce;
    var w, w' := WindowOf(S, n), WindowOf(S', n);
    NewMeansUnknown(w, r.xid);
    RememberKnows(w, r.xid, r.xidRep, r.xid);
    assert IsFor(S'.execs[|S.execs|], n, r.xid);
    forall e | e in w' ensures EntryOk(S', n, e) {
      if e in w { assert EntryOk(S, n, e); }
    }
    forall k | 0 <= k < |S'.execs| && S'.execs[k].request.nonce == n ensures Knows(w', S'.execs[k].request.xid) {
      RememberKnows(w, r.xid, r.xidRep, S'.execs[k].request.xid);
    }
  }

  /** A window that another client's call does not touch. */
  lemma OtherWindow(S: System, S': System, r: Request, n: Nonce)
    requires WindowOk(S, n) && n != r.nonce && WindowOf(S', n) == WindowOf(S, n)
    requires S'.execs == S.execs || S'.execs == S.execs + [Exec(r, None)]
    requires forall e | EntryOk(S, n, e) :: EntryOk(S', n, e)
    ensures WindowOk(S', n)
  {
    forall e | e in WindowOf(S', n) ensures EntryOk(S', n, e) {
      assert EntryOk(S, n, e);
    }
  }

  lemma NewWindow(S: System, S': System, r: Request, n: Nonce)
    requires Inv(S) && r in S.requests && Check(WindowOf(S, r.nonce), r.xid) == New && S' == Dispatched(S, r)
    requires forall m, e | EntryOk(S, m, e) :: EntryOk(S', m, e)
    ensures WindowOk(S', n)
  {
    assert WindowOk(S, n) && RequestOk(S, r);
    if n == r.nonce {
      NewOwnWindow(S, S', r);
    } else {
      OtherWindow(S, S', r, n);
    }
  }

  lemma NewExecs(S: System, S': System, r: Request)
    requires ExecsOk(S) && r in S.requests && !Executed(S.execs, r.nonce, r.xid)
    requires S'.requests == S.requests && S'.execs == S.execs + [Exec(r, None)]
    ensures ExecsOk(S')
  {
    assert forall k | 0 <= k < |S.execs| :: !IsFor(S.execs[k], r.nonce, r.xid);
  }

  lemma DeliverNewInv(S: System, r: Request)
    requires Inv(S) && r in S.requests && Check(WindowOf(S, r.nonce), r.xid) == New
    ensures Inv(Dispatched(S, r))
  {
    var S' := Dispatched(S, r);
    ServerStepKeeps(S, S');
    NewIsFirst(S, r);
    NewExecs(S, S', r);
    RequestsKept(S, S');
    forall n ensures WindowOk(S', n) {
      NewWindow(S, S', r, n);
    }
  }

  /** The reply to a request that is not new. */
  lemma OldReply(S: System, r: Request)
    requires WindowOk(S, r.nonce) && RequestOk(S, r) && Check(WindowOf(S, r.nonce), r.xid) != New
    ensures forall p | p in Dispatched(S, r).replies && p !in S.replies :: ReplyOk(S, p)
  {
    var w := WindowOf(S, r.nonce);
    if Check(w, r.xid).Done? {
      assert w[Find(w, r.xid)] in w;
      assert EntryOk(S, r.nonce, w[Find(w, r.xid)]);
    }
  }

  lemma OldIs(S: System, r: Request)
    requires Check(WindowOf(S, r.nonce), r.xid) != New
    ensures var S' := Dispatched(S, r);
            && S'.clients == S.clients && S'.requests == S.requests && S'.execs == S.execs
            && forall n :: WindowOf(S', n) == WindowOf(S, n)
  {
  }

  lemma OldWindows(S: System, S': System)
    requires forall n :: WindowOk(S, n) && WindowOf(S', n) == WindowOf(S, n)
    requires S'.execs == S.execs
    ensures forall n :: WindowOk(S', n)
  {
    forall n ensures WindowOk(S', n) {
      assert WindowOk(S, n);
      assert forall e :: EntryOk(S', n, e) <==> EntryOk(S, n, e);
    }
  }

  lemma DeliverOldInv(S: System, r: Request)
    requires Inv(S) && r in S.requests && Check(WindowOf(S, r.nonce), r.xid) != New
    ensures Inv(Dispatched(S, r))
  {
    var S' := Dispatched(S, r);
    assert WindowOk(S, r.nonce) && RequestOk(S, r);
    OldIs(S, r);
    OldReply(S, r);
    ServerStepKeeps(S, S');
    RequestsKept(S, S');
    OldWindows(S, S');
    forall p | p in S'.replies ensures ReplyOk(S', p) {
      assert ReplyOk(S, p);
    }
  }

  lemma FinishWindow(S: System, k: nat, p: Payload, n: Nonce)
    requires Inv(S) && k < |S.execs| && S.execs[k].outcome == None
    requires forall m, e | EntryOk(S, m, e) :: EntryOk(Finished(S, k, p), m, e)
    ensures WindowOk(Finished(S, k, p), n)
  {
    var S', r := Finished(S, k, p), S.execs[k].request;
    assert WindowOk(S, n);
    var w, w' := WindowOf(S, n), WindowOf(S', n);
    if n == r.nonce {
      assert IsFor(S'.execs[k], n, r.xid) && S'.execs[k].outcome == Some(p);
      forall e | e in w' ensures EntryOk(S', n, e) {
        var i :| 0 <= i < |w'| && w'[i] == e;
        assert EntryOk(S, n, w[i]);
      }
      forall j | 0 <= j < |S'.execs| && S'.execs[j].request.nonce == n ensures Knows(w', S'.execs[j].request.xid) {
        AnsweredKnows(w, r.xid, p, S.execs[j].request.xid);
      }
    } else {
      forall e | e in w' ensures EntryOk(S', n, e) {
        assert EntryOk(S, n, e);
      }
    }
  }

  lemma AnsweredKnows(w: seq<Entry>, xid: nat, p: Payload, x: nat)
    requires Knows(w, x)
    ensures Knows(Answered(w, xid, p), x)
  {
    if Listed(w, x) {
      var i :| 0 <= i < |w| && w[i].xid == x;
      assert Answered(w, xid, p)[i].xid == x;
    }
  }

  lemma FinishInv(S: System, step: Step)
    requires Inv(S) && step.Finish? && Enabled(S, step)
    ensures Inv(Apply(S, step))
  {
    var S', r := Apply(S, step), S.execs[step.k].request;
    ServerStepKeeps(S, S');
    forall n ensures WindowOk(S', n) {
      FinishWindow(S, step.k, step.payload, n);
    }
    RequestsKept(S, S');
    assert RequestOk(S, r);
    assert IsFor(S'.execs[step.k], r.nonce, r.xid) && S'.execs[step.k].outcome == Some(step.payload);
    forall j, k | 0 <= j < k < |S'.execs|
      ensures !IsFor(S'.execs[k], S'.execs[j].request.nonce, S'.execs[j].request.xid)
    {
      assert !IsFor(S.execs[k], S.execs[j].request.nonce, S.execs[j].request.xid);
    }
  }

  lemma NextInv(S: System, step: Step)
    requires Inv(S) && Enabled(S, step)
    ensures Inv(Apply(S, step))
  {
    match step
    case Issue(_, _, _) => IssueInv(S, step);
    case Deliver(r) =>
      if Check(WindowOf(S, r.nonce), r.xid) == New { DeliverNewInv(S, r); } else { DeliverOldInv(S, r); }
    case Finish(_, _) => FinishInv(S, step);
    case Receive(_) => ReceiveInv(S, step);
    case Return(_, _) => ReturnInv(S, step);
    case Cancel(_) => CancelInv(S, step);
  }

  lemma {:induction false} RunInv(run: seq<System>, i: nat)
    requires IsRun(run) && i < |run|
    ensures Inv(run[i])
  {
    if i == 0 {
      InitInv(run[0]);
    } else {
      RunInv(run, i - 1);
      assert Next(run[i - 1], run[i - 1 + 1]);
      var step :| Enabled(run[i - 1], step) && run[i] == Apply(run[i - 1], step);
      NextInv(run[i - 1], step);
    }
  }

  // ---- the guarantees ------------------------------------------------------------------

  /** For every client and call number the handler runs at most once in any run. */
  lemma AtMostOnce(run: seq<System>, i: nat, j: nat, k: nat)
    requires IsRun(run) && i < |run| && j < |run[i].execs| && k < |run[i].execs|
    requires run[i].execs[j].request.nonce == run[i].execs[k].request.nonce
    requires run[i].execs[j].request.xid == run[i].execs[k].request.xid
    ensures j == k
  {
    RunInv(run, i);
  }

  /** A call that returned a non-negative status was executed, once and with its own arguments,
      and its status and results are those that this execution produced. */
  lemma ReturnedMeansExecutedOnce(run: seq<System>, i: nat, n: Nonce, x: nat) returns (k: nat)
    requires IsRun(run) && i < |run| && n in run[i].clients && x in run[i].clients[n].returned
    requires run[i].clients[n].returned[x].result.ret >= 0
    ensures k < |run[i].execs|
    ensures run[i].execs[k] == Exec(run[i].clients[n].returned[x].request, Some(run[i].clients[n].returned[x].result))
    ensures forall j | 0 <= j < |run[i].execs| && IsFor(run[i].execs[j], n, x) :: j == k
  {
    RunInv(run, i);
    var S := run[i];
    assert ClientOk(S, n, S.clients[n]);
    k :| 0 <= k < |S.execs| && IsFor(S.execs[k], n, x) && S.execs[k].outcome == Some(S.clients[n].returned[x].result);
  }
}
