/**
 Runs in which bind is called once and no call times out or is cancelled: there the server never
 forgets a call whose client still waits for it.  A single timeout is enough to break this.
 */
module RpcCalm {
  import opened Options
  import opened XidWindow
  import opened ReplyWindow
  import opened RpcSystem
  import opened RpcInvariant

  predicate Calm(S: System, step: Step)
  {
    && !step.Cancel?
    && (step.Issue? && step.bind && step.n in S.clients ==> S.clients[step.n].xid == 1)
    && (step.Return? && step.n in S.clients && step.xid in S.clients[step.n].calls ==>
          S.clients[step.n].calls[step.xid].done)
  }

  ghost predicate CalmNext(S: System, S': System)
  {
    exists step :: Enabled(S, step) && Calm(S, step) && S' == Apply(S, step)
  }

  ghost predicate IsCalmRun(run: seq<System>)
  {
    && run != []
    && Init(run[0])
    && forall i | 0 <= i < |run| - 1 :: CalmNext(run[i], run[i + 1])
  }

  ghost predicate CalmClient(S: System, n: Nonce, c: Client)
  {
    && (forall x | x in c.reported :: Executed(S.execs, n, x))
    && (forall x | x in c.calls && c.calls[x].done :: x in c.reported)
    && (c.bound ==> Executed(S.execs, n, 1))
  }

  ghost predicate CalmRequest(S: System, r: Request)
  {
    && r.nonce in S.clients
    && r.xidRep <= Front(S.clients[r.nonce].reported)
    && (r.bind ==> r.xid == 1)
    && (r.xid >= 2 ==> Executed(S.execs, r.nonce, 1))
  }

  predicate Applied(execs: seq<Exec>, n: Nonce, k: nat)
  {
    k < |execs| && execs[k].request.nonce == n
  }

  /** The front is the larger of 1 and the greatest xidRep applied so far. */
  ghost predicate FrontOk(execs: seq<Exec>, n: Nonce, w: seq<Entry>)
  {
    && (w == [] ==> forall k: nat :: !Applied(execs, n, k))
    && (w != [] ==>
          && w[0].xid >= 1
          && (forall k: nat | Applied(execs, n, k) :: execs[k].request.xidRep <= w[0].xid)
          && (w[0].xid == 1 || exists k: nat :: Applied(execs, n, k) && execs[k].request.xidRep == w[0].xid))
  }

  ghost predicate CalmInv(S: System)
  {
    && (forall n {:trigger CalmClient(S, n, S.clients[n])} | n in S.clients :: CalmClient(S, n, S.clients[n]))
    && (forall r {:trigger CalmRequest(S, r)} | r in S.requests :: CalmRequest(S, r))
    && (forall p | p in S.replies :: Executed(S.execs, p.nonce, p.xid))
    && (forall n :: FrontOk(S.execs, n, WindowOf(S, n)))
  }

  lemma InitCalm(S: System)
    requires Init(S)
    ensures CalmInv(S)
  {
  }

  /** Whatever the window has moved past has been executed. */
  lemma PastIsExecuted(S: System, n: Nonce, x: nat)
    requires Inv(S) && CalmInv(S) && n in S.clients
    requires 1 <= x && WindowOf(S, n) != [] && x < WindowOf(S, n)[0].xid
    ensures x in S.clients[n].reported && Executed(S.execs, n, x)
  {
    var w := WindowOf(S, n);
    assert FrontOk(S.execs, n, w);
    var k: nat :| Applied(S.execs, n, k) && S.execs[k].request.xidRep == w[0].xid;
    assert CalmRequest(S, S.execs[k].request);
    assert CalmClient(S, n, S.clients[n]);
  }

  /** A request whose call is still waiting for its first reply is never answered FORGOTTEN. */
  lemma PendingNotForgotten(S: System, r: Request)
    requires Inv(S) && CalmInv(S) && r in S.requests && r.nonce in S.clients && r.xid !in S.clients[r.nonce].reported
    ensures Check(WindowOf(S, r.nonce), r.xid) != Forgotten
  {
    assert RequestOk(S, r);
    if Check(WindowOf(S, r.nonce), r.xid) == Forgotten {
      PastIsExecuted(S, r.nonce, r.xid);
    }
  }

  // ---- preservation --------------------------------------------------------------------

  lemma ClientStepCalm(S: System, S': System, n: Nonce, c: Client)
    requires CalmInv(S) && n in S.clients && S' == S.(clients := S.clients[n := c])
    requires S.clients[n].reported <= c.reported && CalmClient(S, n, c)
    ensures CalmInv(S')
  {
    FrontGrows(S.clients[n].reported, c.reported);
    forall m | m in S'.clients ensures CalmClient(S', m, S'.clients[m]) {
      assert CalmClient(S, m, S'.clients[m]);
    }
    forall r | r in S'.requests ensures CalmRequest(S', r) {
      assert CalmRequest(S, r);
    }
    forall m ensures FrontOk(S'.execs, m, WindowOf(S', m)) {
      assert FrontOk(S.execs, m, WindowOf(S, m));
    }
  }

  lemma IssueCalm(S: System, step: Step)
    requires Inv(S) && CalmInv(S) && step.Issue? && Enabled(S, step) && Calm(S, step)
    ensures CalmInv(Apply(S, step))
  {
    var S', c := Apply(S, step), S.clients[step.n];
    assert CalmClient(S, step.n, c) && ClientOk(S, step.n, c);
    forall m | m in S'.clients ensures CalmClient(S', m, S'.clients[m]) {
      assert CalmClient(S, m, S.clients[m]);
    }
    forall r | r in S'.requests ensures CalmRequest(S', r) {
      if r in S.requests { assert CalmRequest(S, r); }
    }
    forall m ensures FrontOk(S'.execs, m, WindowOf(S', m)) {
      assert FrontOk(S.execs, m, WindowOf(S, m));
    }
  }

  lemma ReturnCalm(S: System, step: Step)
    requires Inv(S) && CalmInv(S) && step.Return? && Enabled(S, step) && Calm(S, step)
    ensures CalmInv(Apply(S, step))
  {
    var c := S.clients[step.n];
    assert CalmClient(S, step.n, c) && ClientOk(S, step.n, c);
    assert CalmRequest(S, c.calls[step.xid].request);
    ClientStepCalm(S, Apply(S, step), step.n, Returned(c, step.xid));
  }

  lemma ReceiveCalm(S: System, step: Step)
    requires CalmInv(S) && step.Receive? && Enabled(S, step)
    ensures CalmInv(Apply(S, step))
  {
    var n := step.reply.nonce;
    assert CalmClient(S, n, S.clients[n]);
    ClientStepCalm(S, Apply(S, step), n, Received(S.clients[n], step.reply.xid, step.reply.payload));
  }

  lemma ServerStepCalm(S: System, S': System)
    requires CalmInv(S) && S'.clients == S.clients && S'.requests == S.requests && Extends(S.execs, S'.execs)
    ensures forall n | n in S'.clients :: CalmClient(S', n, S'.clients[n])
    ensures forall r | r in S'.requests :: CalmRequest(S', r)
    ensures forall p | p in S.replies :: Executed(S'.execs, p.nonce, p.xid)
  {
    forall n, x ensures Executed(S.execs, n, x) ==> Executed(S'.execs, n, x) {
      ExtendsKeeps(S.execs, S'.execs, n, x, NO_BUF);
    }
    forall n | n in S'.clients ensures CalmClient(S', n, S'.clients[n]) {
      assert CalmClient(S, n, S.clients[n]);
    }
    forall r | r in S'.requests ensures CalmRequest(S', r) {
      assert CalmRequest(S, r);
    }
  }

  /** The first call a server hears of is bind, and later ones only report executed calls. */
  lemma NewRequestFacts(S: System, r: Request)
    requires Inv(S) && CalmInv(S) && r in S.requests && Check(WindowOf(S, r.nonce), r.xid) == New
    ensures var w := WindowOf(S, r.nonce);
            && !Knows(w, r.xid) && r.xidRep < r.xid && Increasing(w)
            && (w == [] ==> r.xid == 1)
            && (w != [] ==> w[0].xid >= 1 && (r.xidRep > w[0].xid ==> Listed(w, r.xidRep)))
  {
    var n, w := r.nonce, WindowOf(S, r.nonce);
    NewMeansUnknown(w, r.xid);
    assert RequestOk(S, r) && CalmRequest(S, r) && WindowOk(S, n) && FrontOk(S.execs, n, w);
    if w == [] && r.xid >= 2 {
      var k :| 0 <= k < |S.execs| && IsFor(S.execs[k], n, 1);
      assert Applied(S.execs, n, k);
    }
    if w != [] && r.xidRep > w[0].xid {
      assert r.xidRep in S.clients[n].reported;
      assert CalmClient(S, n, S.clients[n]);
      var k :| 0 <= k < |S.execs| && IsFor(S.execs[k], n, r.xidRep);
    }
  }

  /** Where the front goes when a call is remembered. */
  lemma RememberFront(w: seq<Entry>, xid: nat, xidRep: nat)
    requires Increasing(w) && !Knows(w, xid) && xidRep < xid
    requires w != [] && xidRep > w[0].xid ==> Listed(w, xidRep)
    ensures Remember(w, xid, xidRep) != []
    ensures Remember(w, xid, xidRep)[0].xid == if w == [] then xid else if xidRep > w[0].xid then xidRep else w[0].xid
  {
    var u, w' := Inserted(w, xid), Remember(w, xid, xidRep);
    RememberKnows(w, xid, xidRep, xid);
    InsertedFacts(w, xid);
    TrimmedFacts(u, xidRep);
    assert w'[0] in w';
    if w != [] {
      assert w[0].xid < xid;
      if xidRep > w[0].xid {
        ListedIn(w, xidRep);
        var e :| e in w && e.xid == xidRep;
        assert e in w';
      }
    }
  }

  lemma NewFront(S: System, r: Request, n: Nonce)
    requires Inv(S) && CalmInv(S) && r in S.requests && Check(WindowOf(S, r.nonce), r.xid) == New
    ensures FrontOk(Dispatched(S, r).execs, n, WindowOf(Dispatched(S, r), n))
  {
    var S' := Dispatched(S, r);
    var w, w' := WindowOf(S, n), WindowOf(S', n);
    assert FrontOk(S.execs, n, w);
    assert forall k: nat :: Applied(S'.execs, n, k) <==> Applied(S.execs, n, k) || (k == |S.execs| && r.nonce == n);
    if n == r.nonce {
      NewRequestFacts(S, r);
      RememberFront(w, r.xid, r.xidRep);
      assert Applied(S'.execs, n, |S.execs|) && S'.execs[|S.execs|].request == r;
    }
    if w != [] && w'[0].xid == w[0].xid && w[0].xid != 1 {
      var k: nat :| Applied(S.execs, n, k) && S.execs[k].request.xidRep == w[0].xid;
      assert Applied(S'.execs, n, k) && S'.execs[k].request.xidRep == w'[0].xid;
    }
  }

  lemma DeliverNewCalm(S: System, r: Request)
    requires Inv(S) && CalmInv(S) && r in S.requests && Check(WindowOf(S, r.nonce), r.xid) == New
    ensures CalmInv(Dispatched(S, r))
  {
    ServerStepCalm(S, Dispatched(S, r));
    forall n ensures FrontOk(Dispatched(S, r).execs, n, WindowOf(Dispatched(S, r), n)) {
      NewFront(S, r, n);
    }
  }

  /** What is answered without being run now was run before. */
  lemma OldExecuted(S: System, r: Request)
    requires Inv(S) && CalmInv(S) && r in S.requests && Check(WindowOf(S, r.nonce), r.xid) != New
    ensures Executed(S.execs, r.nonce, r.xid)
  {
    var w := WindowOf(S, r.nonce);
    assert RequestOk(S, r) && WindowOk(S, r.nonce);
    if Check(w, r.xid).Forgotten? {
      PastIsExecuted(S, r.nonce, r.xid);
    } else {
      assert EntryOk(S, r.nonce, w[Find(w, r.xid)]);
    }
  }

  lemma DeliverOldCalm(S: System, r: Request)
    requires Inv(S) && CalmInv(S) && r in S.requests && Check(WindowOf(S, r.nonce), r.xid) != New
    ensures CalmInv(Dispatched(S, r))
  {
    var S' := Dispatched(S, r);
    OldIs(S, r);
    ServerStepCalm(S, S');
    OldExecuted(S, r);
    forall n ensures FrontOk(S'.execs, n, WindowOf(S', n)) {
      assert FrontOk(S.execs, n, WindowOf(S, n));
    }
  }

  lemma FinishCalm(S: System, step: Step)
    requires CalmInv(S) && step.Finish? && Enabled(S, step)
    ensures CalmInv(Apply(S, step))
  {
    var S', r := Apply(S, step), S.execs[step.k].request;
    ServerStepCalm(S, S');
    assert IsFor(S'.execs[step.k], r.nonce, r.xid);
    forall n ensures FrontOk(S'.execs, n, WindowOf(S', n)) {
      var w, w' := WindowOf(S, n), WindowOf(S', n);
      assert FrontOk(S.execs, n, w);
      assert |w'| == |w| && (w != [] ==> w'[0].xid == w[0].xid);
      assert forall k: nat :: Applied(S'.execs, n, k) <==> Applied(S.execs, n, k);
      assert forall k: nat | k < |S.execs| :: S'.execs[k].request == S.execs[k].request;
    }
  }

  lemma NextCalm(S: System, step: Step)
    requires Inv(S) && CalmInv(S) && Enabled(S, step) && Calm(S, step)
    ensures CalmInv(Apply(S, step))
  {
    match step
    case Issue(_, _, _) => IssueCalm(S, step);
    case Deliver(r) =>
      if Check(WindowOf(S, r.nonce), r.xid) == New { DeliverNewCalm(S, r); } else { DeliverOldCalm(S, r); }
    case Finish(_, _) => FinishCalm(S, step);
    case Receive(_) => ReceiveCalm(S, step);
    case Return(_, _) => ReturnCalm(S, step);
  }

  lemma {:induction false} CalmRunInv(run: seq<System>, i: nat)
    requires IsCalmRun(run) && i < |run|
    ensures Inv(run[i]) && CalmInv(run[i])
  {
    if i == 0 {
      InitInv(run[0]);
      InitCalm(run[0]);
    } else {
      CalmRunInv(run, i - 1);
      assert CalmNext(run[i - 1], run[i - 1 + 1]);
      var step :| Enabled(run[i - 1], step) && Calm(run[i - 1], step) && run[i] == Apply(run[i - 1], step);
      NextInv(run[i - 1], step);
      NextCalm(run[i - 1], step);
    }
  }

  /** In a calm run the server's front is the larger of 1 and the greatest xidRep it has applied,
      and it never forgets a call that is still waiting. */
  lemma CalmRunsForgetNothing(run: seq<System>, i: nat, r: Request)
    requires IsCalmRun(run) && i < |run| && r in run[i].requests
    ensures FrontOk(run[i].execs, r.nonce, WindowOf(run[i], r.nonce))
    ensures r.nonce in run[i].clients
    ensures r.xid !in run[i].clients[r.nonce].reported ==> Check(WindowOf(run[i], r.nonce), r.xid) != Forgotten
  {
    CalmRunInv(run, i);
    assert CalmRequest(run[i], r);
    if r.xid !in run[i].clients[r.nonce].reported {
      PendingNotForgotten(run[i], r);
    }
  }

  // ---- one timeout is enough -----------------------------------------------------------

  const BIND := Request(1, 1, 0, true, [])
  const WAITING := Request(1, 3, 1, false, [])
  const LATER := Request(1, 4, 2, false, [])
  const OK_REPLY := Payload(0, [])

  lemma Fronts()
    ensures Front({}) == 0 && Front({1}) == 1 && Front({1, 2}) == 2
  {
    FrontUnique({}, 0);
    FrontUnique({1}, 1);
    FrontUnique({1, 2}, 2);
  }

  lemma OneStep(run: seq<System>, step: Step, S': System)
    requires IsRun(run) && Enabled(run[|run| - 1], step) && S' == Apply(run[|run| - 1], step)
    ensures IsRun(run + [S'])
  {
    var longer := run + [S'];
    forall i | 0 <= i < |longer| - 1 ensures Next(longer[i], longer[i + 1]) {
      if i < |run| - 1 {
        assert Next(run[i], run[i + 1]);
      }
    }
  }

  function BoundClient(): Client
  {
    Client(2, true, false, {1}, map[], map[1 := Call(BIND, true, OK_REPLY)])
  }

  function BoundState(): System
  {
    System(map[1 := BoundClient()], map[1 := [Entry(1, true, OK_REPLY)]], [Exec(BIND, Some(OK_REPLY))],
           {BIND}, {Reply(1, 1, OK_REPLY)})
  }

  /** A client binds. */
  lemma BindRun() returns (run: seq<System>)
    ensures IsRun(run) && run[|run| - 1] == BoundState()
  {
    Fronts();
    var S0 := System(map[1 := FRESH], map[], [], {}, {});
    var S1 := Apply(S0, Issue(1, true, []));
    var S2 := Apply(S1, Deliver(BIND));
    assert WindowOf(S2, 1) == [Entry(1, false, NO_BUF)];
    var S3 := Apply(S2, Finish(0, OK_REPLY));
    assert WindowOf(S3, 1) == [Entry(1, true, OK_REPLY)];
    var S4 := Apply(S3, Receive(Reply(1, 1, OK_REPLY)));
    var S5 := Apply(S4, Return(1, 1));
    OneStep([S0], Issue(1, true, []), S1);
    OneStep([S0] + [S1], Deliver(BIND), S2);
    OneStep([S0] + [S1] + [S2], Finish(0, OK_REPLY), S3);
    OneStep([S0] + [S1] + [S2] + [S3], Receive(Reply(1, 1, OK_REPLY)), S4);
    OneStep([S0] + [S1] + [S2] + [S3] + [S4], Return(1, 1), S5);
    run := [S0] + [S1] + [S2] + [S3] + [S4] + [S5];
    assert S5.execs == BoundState().execs;
    assert S5.clients[1] == BoundClient();
  }

  lemma LaterWindow()
    ensures Check([Entry(1, true, OK_REPLY)], 4) == New
    ensures Remember([Entry(1, true, OK_REPLY)], 4, 2) == [Entry(4, false, NO_BUF)]
    ensures Check([Entry(4, false, NO_BUF)], 3) == Forgotten
  {
    var u := Inserted([Entry(1, true, OK_REPLY)], 4);
    assert u == [Entry(1, true, OK_REPLY), Entry(4, false, NO_BUF)];
    assert u[Position(u, 2, false)..] == [Entry(4, false, NO_BUF)];
  }

  /** Two calls are made, the first times out before its request arrives, and the request of a
      third call carries the news.  The second call still waits, was never executed, and would be
      answered FORGOTTEN. */
  lemma TimeoutForgetsWaitingCall() returns (run: seq<System>)
    ensures IsRun(run)
    ensures var S := run[|run| - 1];
            && WAITING in S.requests && 1 in S.clients
            && 3 in S.clients[1].calls && !S.clients[1].calls[3].done && 3 !in S.clients[1].reported
            && !Executed(S.execs, 1, 3)
            && Check(WindowOf(S, 1), 3) == Forgotten
  {
    Fronts();
    var before := BindRun();
    var S0 := BoundState();
    var S1 := Apply(S0, Issue(1, false, []));
    var S2 := Apply(S1, Issue(1, false, []));
    var S3 := Apply(S2, Return(1, 2));
    assert S3.clients[1].reported == {1, 2};
    var S4 := Apply(S3, Issue(1, false, []));
    var S5 := Apply(S4, Deliver(LATER));
    OneStep(before, Issue(1, false, []), S1);
    OneStep(before + [S1], Issue(1, false, []), S2);
    OneStep(before + [S1] + [S2], Return(1, 2), S3);
    OneStep(before + [S1] + [S2] + [S3], Issue(1, false, []), S4);
    OneStep(before + [S1] + [S2] + [S3] + [S4], Deliver(LATER), S5);
    run := before + [S1] + [S2] + [S3] + [S4] + [S5];
    LaterWindow();
  }
}
