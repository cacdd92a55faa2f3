/** What the server does with every request and sends back, told from its executions alone. */
module RpcReplies {
  import opened Options
  import opened ReplyWindow
  import opened RpcSystem
  import opened RpcInvariant
  import opened RpcForgotten

  // ---- the window tells how far each execution is --------------------------------------------

  function OutcomeIn(e: Entry): Option<Payload>
  {
    if e.present then Some(e.buf) else None
  }

  /** An entry of the window of client n holds the outcome of its call's execution, once there is one. */
  ghost predicate TellsOutcomes(execs: seq<Exec>, n: Nonce, w: seq<Entry>)
  {
    forall e, k | e in w && 0 <= k < |execs| && IsFor(execs[k], n, e.xid) :: execs[k].outcome == OutcomeIn(e)
  }

  ghost predicate Tells(S: System, n: Nonce)
  {
    TellsOutcomes(S.execs, n, WindowOf(S, n))
  }

  lemma NewTells(execs: seq<Exec>, r: Request, w: seq<Entry>)
    requires TellsOutcomes(execs, r.nonce, w) && Increasing(w) && !Knows(w, r.xid) && r.xidRep < r.xid
    requires !Executed(execs, r.nonce, r.xid)
    ensures TellsOutcomes(execs + [Exec(r, None)], r.nonce, Remember(w, r.xid, r.xidRep))
  {
    var more, w' := execs + [Exec(r, None)], Remember(w, r.xid, r.xidRep);
    RememberKnows(w, r.xid, r.xidRep, r.xid);
    assert forall k | 0 <= k < |execs| :: !IsFor(execs[k], r.nonce, r.xid);
    forall e, k | e in w' && 0 <= k < |more| && IsFor(more[k], r.nonce, e.xid) ensures more[k].outcome == OutcomeIn(e) {
      if e in w {
        ListedIn(w, r.xid);
        assert k < |execs| && IsFor(execs[k], r.nonce, e.xid);
      }
    }
  }

  lemma OthersTell(execs: seq<Exec>, more: seq<Exec>, n: Nonce, w: seq<Entry>)
    requires TellsOutcomes(execs, n, w) && |execs| <= |more|
    requires forall k | 0 <= k < |more| && more[k].request.nonce == n :: k < |execs| && more[k] == execs[k]
    ensures TellsOutcomes(more, n, w)
  {
    forall e, k | e in w && 0 <= k < |more| && IsFor(more[k], n, e.xid) ensures more[k].outcome == OutcomeIn(e) {
      assert IsFor(execs[k], n, e.xid);
    }
  }

  lemma AnsweredTells(execs: seq<Exec>, k: nat, p: Payload, w: seq<Entry>)
    requires k < |execs|
    requires TellsOutcomes(execs, execs[k].request.nonce, w)
    requires forall j | 0 <= j < |execs| && IsFor(execs[j], execs[k].request.nonce, execs[k].request.xid) :: j == k
    ensures var r := execs[k].request;
            TellsOutcomes(execs[k := Exec(r, Some(p))], r.nonce, Answered(w, r.xid, p))
  {
    var r := execs[k].request;
    var more, w' := execs[k := Exec(r, Some(p))], Answered(w, r.xid, p);
    forall e, j | e in w' && 0 <= j < |more| && IsFor(more[j], r.nonce, e.xid) ensures more[j].outcome == OutcomeIn(e) {
      var i :| 0 <= i < |w'| && w'[i] == e;
      assert w[i] in w && IsFor(execs[j], r.nonce, w[i].xid);
    }
  }

  lemma OnlyExecution(S: System, k: nat)
    requires ExecsOk(S) && k < |S.execs|
    ensures var r := S.execs[k].request;
            forall j | 0 <= j < |S.execs| && IsFor(S.execs[j], r.nonce, r.xid) :: j == k
  {
  }

  lemma FinishTells(S: System, k: nat, p: Payload, n: Nonce)
    requires ExecsOk(S) && Tells(S, n) && k < |S.execs|
    ensures Tells(Finished(S, k, p), n)
  {
    var r := S.execs[k].request;
    if n == r.nonce {
      OnlyExecution(S, k);
      AnsweredTells(S.execs, k, p, WindowOf(S, n));
    } else {
      OthersTell(S.execs, S.execs[k := Exec(r, Some(p))], n, WindowOf(S, n));
    }
  }

  lemma DeliverTells(S: System, r: Request, n: Nonce)
    requires Inv(S) && Tells(S, n) && r in S.requests
    ensures Tells(Dispatched(S, r), n)
  {
    var w := WindowOf(S, n);
    if Check(WindowOf(S, r.nonce), r.xid) != New {
      OldIs(S, r);
    } else if n == r.nonce {
      assert WindowOk(S, n) && RequestOk(S, r);
      NewMeansUnknown(w, r.xid);
      NewIsFirst(S, r);
      NewTells(S.execs, r, w);
    } else {
      OthersTell(S.execs, S.execs + [Exec(r, None)], n, w);
    }
  }

  lemma NextTells(S: System, step: Step, n: Nonce)
    requires Inv(S) && Tells(S, n) && Enabled(S, step)
    ensures Tells(Apply(S, step), n)
  {
    match step
    case Deliver(r) => DeliverTells(S, r, n);
    case Finish(k, p) => FinishTells(S, k, p, n);
    case Issue(_, _, _) =>
    case Receive(_) =>
    case Return(_, _) =>
    case Cancel(_) =>
  }

  lemma {:induction false} RunTells(run: seq<System>, i: nat, n: Nonce)
    requires IsRun(run) && i < |run|
    ensures Tells(run[i], n)
  {
    if i > 0 {
      RunTells(run, i - 1, n);
      RunInv(run, i - 1);
      assert Next(run[i - 1], run[i - 1 + 1]);
      var step :| Enabled(run[i - 1], step) && run[i] == Apply(run[i - 1], step);
      NextTells(run[i - 1], step, n);
    }
  }

  // ---- the answer to every request -----------------------------------------------------------

  /** The answer to a request that is too old. */
  const REFUSAL := Payload(ATMOSTONCE_FAILURE, [])

  /** The server has executed a later call of client n, and has executed no call up to x that is not
      below an xidRep it has seen. */
  ghost predicate PassedBy(execs: seq<Exec>, n: Nonce, x: nat)
  {
    (exists y: nat :: y > x && Executed(execs, n, y)) && (forall y: nat | y <= x :: !Kept(execs, n, y))
  }

  /** The replies that a request with this outcome so far is answered with. */
  function Resent(r: Request, outcome: Option<Payload>): set<Reply>
  {
    match outcome
    case None => {}
    case Some(p) => {Reply(r.nonce, r.xid, p)}
  }

  /** A step that runs nothing and sends these replies. */
  ghost predicate OnlySends(S: System, S': System, sent: set<Reply>)
  {
    && S'.clients == S.clients && S'.requests == S.requests && S'.execs == S.execs
    && S'.replies == S.replies + sent
  }

  /** A step that starts the handler for a request and sends nothing. */
  ghost predicate OnlyRuns(S: System, S': System, r: Request)
  {
    && S'.clients == S.clients && S'.requests == S.requests && S'.replies == S.replies
    && S'.execs == S.execs + [Exec(r, None)]
  }

  lemma ListedVerdict(w: seq<Entry>, xid: nat)
    requires Listed(w, xid)
    ensures exists e :: e in w && e.xid == xid && Check(w, xid) == (if e.present then Done(e.buf) else InProgress)
  {
    var e := w[Find(w, xid)];
    assert e in w;
  }

  lemma KeptAnswered(S: System, r: Request, k: nat)
    requires ListsKept(S, r.nonce) && Tells(S, r.nonce) && Kept(S.execs, r.nonce, r.xid)
    requires k < |S.execs| && IsFor(S.execs[k], r.nonce, r.xid)
    ensures OnlySends(S, Dispatched(S, r), Resent(r, S.execs[k].outcome))
  {
    var w := WindowOf(S, r.nonce);
    assert Listed(w, r.xid);
    ListedVerdict(w, r.xid);
    var e :| e in w && e.xid == r.xid && Check(w, r.xid) == (if e.present then Done(e.buf) else InProgress);
    assert S.execs[k].outcome == OutcomeIn(e);
  }

  /** In every run, the delivery of a request whose call was executed, and is not below an xidRep seen,
      sends the outcome of that execution if there is one, and nothing otherwise; that of a request the
      server has passed by sends the failure -4; and that of any other request runs the handler.
      Nothing else happens. */
  lemma DeliveryExactly(run: seq<System>, i: nat, r: Request)
    requires IsRun(run) && i < |run| && r in run[i].requests
    ensures var S, S' := run[i], Apply(run[i], Deliver(r));
            && (Kept(S.execs, r.nonce, r.xid) ==>
                  forall k | 0 <= k < |S.execs| && IsFor(S.execs[k], r.nonce, r.xid) ::
                    OnlySends(S, S', Resent(r, S.execs[k].outcome)))
            && (PassedBy(S.execs, r.nonce, r.xid) ==> OnlySends(S, S', {Reply(r.nonce, r.xid, REFUSAL)}))
            && (!Kept(S.execs, r.nonce, r.xid) && !PassedBy(S.execs, r.nonce, r.xid) ==> OnlyRuns(S, S', r))
  {
    var S := run[i];
    RunInv(run, i);
    RunListsKept(run, i, r.nonce);
    RunTells(run, i, r.nonce);
    ForgottenExactlyWhen(run, i, r.nonce, r.xid);
    if Kept(S.execs, r.nonce, r.xid) {
      forall k | 0 <= k < |S.execs| && IsFor(S.execs[k], r.nonce, r.xid)
        ensures OnlySends(S, Dispatched(S, r), Resent(r, S.execs[k].outcome))
      {
        KeptAnswered(S, r, k);
      }
    } else {
      assert !Listed(WindowOf(S, r.nonce), r.xid);
    }
  }

  // ---- the replies in the network ------------------------------------------------------------

  /** Every outcome was sent, and nothing else but refusals. */
  ghost predicate SentExactly(S: System)
  {
    && (forall k | 0 <= k < |S.execs| && S.execs[k].outcome.Some? ::
          Reply(S.execs[k].request.nonce, S.execs[k].request.xid, S.execs[k].outcome.value) in S.replies)
    && (forall p | p in S.replies :: p.payload == REFUSAL || Produced(S.execs, p.nonce, p.xid, p.payload))
    && (forall k | 0 <= k < |S.execs| && S.execs[k].outcome.Some? :: S.execs[k].outcome.value.ret >= 0)
  }

  lemma ProducedMore(S: System, S': System)
    requires SentExactly(S) && Extends(S.execs, S'.execs)
    ensures forall p | p in S.replies :: p.payload == REFUSAL || Produced(S'.execs, p.nonce, p.xid, p.payload)
  {
    forall p | p in S.replies ensures p.payload == REFUSAL || Produced(S'.execs, p.nonce, p.xid, p.payload) {
      ExtendsKeeps(S.execs, S'.execs, p.nonce, p.xid, p.payload);
    }
  }

  lemma FinishSent(S: System, k: nat, p: Payload)
    requires SentExactly(S) && k < |S.execs| && S.execs[k].outcome == None && p.ret >= 0
    ensures SentExactly(Finished(S, k, p))
  {
    var S', r := Finished(S, k, p), S.execs[k].request;
    ProducedMore(S, S');
    assert IsFor(S'.execs[k], r.nonce, r.xid) && S'.execs[k].outcome == Some(p);
  }

  lemma DeliverSent(S: System, r: Request)
    requires Inv(S) && SentExactly(S) && r in S.requests
    ensures SentExactly(Dispatched(S, r))
  {
    var S', w := Dispatched(S, r), WindowOf(S, r.nonce);
    ProducedMore(S, S');
    assert WindowOk(S, r.nonce);
    if Check(w, r.xid).Done? {
      assert EntryOk(S, r.nonce, w[Find(w, r.xid)]);
    }
  }

  lemma NextSent(S: System, step: Step)
    requires Inv(S) && SentExactly(S) && Enabled(S, step)
    ensures SentExactly(Apply(S, step))
  {
    match step
    case Deliver(r) => DeliverSent(S, r);
    case Finish(k, p) => FinishSent(S, k, p);
    case Issue(_, _, _) =>
    case Receive(_) =>
    case Return(_, _) =>
    case Cancel(_) =>
  }

  /** In every run each execution that has ended has its reply in the network, and every reply there is
      an execution's outcome or the failure -4. */
  lemma {:induction false} RunSendsExactly(run: seq<System>, i: nat)
    requires IsRun(run) && i < |run|
    ensures SentExactly(run[i])
  {
    if i > 0 {
      RunSendsExactly(run, i - 1);
      RunInv(run, i - 1);
      assert Next(run[i - 1], run[i - 1 + 1]);
      var step :| Enabled(run[i - 1], step) && run[i] == Apply(run[i - 1], step);
      NextSent(run[i - 1], step);
    }
  }
}
