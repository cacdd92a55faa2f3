/**
 What the lock protocol guarantees in every run: mutual exclusion, no failed VERIFY, no lost
 wakeup, first-come first-served queues on each client, and termination once no thread calls
 acquire any more.
 */
module LockTheorems {
  import opened Options
  import opened LockServer
  import opened LockSystem
  import opened LockInvariant
  import LC = LockClient

  // ---- safety --------------------------------------------------------------------------

  /** At most one thread anywhere has returned from acquire without calling release, and the
      server knows which client it is on. */
  lemma MutualExclusion(run: seq<System>, i: nat, s: Session, s': Session)
    requires IsRun(run) && i < |run|
    requires s in run[i].pcs && s' in run[i].pcs && run[i].pcs[s] == run[i].pcs[s'] == Holding
    ensures s == s'
    ensures run[i].server.holder == s.client && run[i].server.state in {Locked, Revoking}
  {
    RunsAreSafe(run, i);
    var S, W := run[i], Witness(run[i]);
    HolderOwns(S, W, s);
    HolderOwns(S, W, s');
  }

  ghost function Witness(S: System): (W: Carriers)
    requires Safe(S)
    ensures Inv(S, W)
  {
    var W :| Inv(S, W); W
  }

  lemma HolderOwns(S: System, W: Carriers, s: Session)
    requires Inv(S, W) && s in S.pcs && S.pcs[s] == Holding
    ensures Owner(S.server, s.client) && s.client in S.clients
    ensures S.clients[s.client].queue != [] && S.clients[s.client].queue[0] == s.waiter
  {
    FrontIs(S, s);
    assert ClientAt(S, W, s.client);
  }

  /** No VERIFY fails, no thread falls out of acquire with the mutex held, and retry_handler and
      release never look at the front of an empty queue. */
  lemma NoFault(run: seq<System>, i: nat)
    requires IsRun(run) && i < |run|
    ensures !run[i].fault
  {
    RunsAreSafe(run, i);
  }

  /** The thread's next step is one the code does not provide for: a woken or answered thread finds its
      client in a state it cannot go on from, a VERIFY fails, a message goes to nobody, or the front of an
      empty queue is taken. */
  predicate StepIsFaulty(S: System, s: Session)
    requires CanAdvance(S, s)
  {
    var l := S.clients[s.client];
    match S.pcs[s]
    case FirstWait(_) => false
    case QueueWait(_) => l.state in {LC.Acquiring, LC.Releasing}
    case RetryWait(_) => l.state != LC.Acquiring
    case AcquireSent => AcquireRegion(S.server, s.client).AcquireAborts?
    case RevokePending(_, _) => false
    case RevokeSent(t, _) => t !in S.clients
    case RevokeHandler(t, _, call) => CallIsFaulty(S, t, call) || (call == Replied && t !in S.clients)
    case AcquireReply(granted) => !granted && l.retryEarlier && l.state != LC.Acquiring
    case Holding => !l.revokeLater && l.queue == []
    case Releasing(call) => CallIsFaulty(S, s.client, call) || (call == Replied && l.queue == [])
  }

  predicate CallIsFaulty(S: System, t: ClientId, call: ReleaseCall)
  {
    match call
    case Requested => ReleaseRegion(S.server, t).ReleaseAborts?
    case RetrySent(u) => u !in S.clients || S.clients[u].queue == []
    case _ => false
  }

  /** The fault bit records exactly these steps. */
  lemma FaultsExactly(S: System, s: Session)
    requires CanAdvance(S, s) && !S.fault
    ensures Advance(S, s).fault <==> StepIsFaulty(S, s)
  {
    if InRelease(S.pcs[s]) && S.pcs[s].call != Replied {
      CallIsAdvance(S, s);
    }
  }

  /** The next region or message of a thread at pc does what its code relies on. */
  ghost predicate StepIsSound(S: System, s: Session)
    requires CanAdvance(S, s)
  {
    var l, pc := S.clients[s.client], S.pcs[s];
    && (pc.QueueWait? ==> l.state in {LC.NoLock, LC.Free, LC.Locked})
    && (pc.RetryWait? ==> l.state == LC.Acquiring)
    && (pc.AcquireReply? && !pc.granted ==> l.state == LC.Acquiring)
    && (pc == AcquireSent ==> AcquireRegion(S.server, s.client).Answer?)
    && (pc.RevokeSent? ==> pc.target in S.clients)
    && (InRelease(pc) ==> Releaser(s, pc) in S.clients)
    && (InRelease(pc) && pc.call == Requested ==> ReleaseRegion(S.server, Releaser(s, pc)).Released?)
    && (InRelease(pc) && pc.call.RetrySent? ==> pc.call.to in S.clients && S.clients[pc.call.to].queue != [])
    && (pc == Holding || pc.Releasing? ==> l.queue != [] && l.queue[0] == s.waiter)
  }

  lemma SoundInAcquire(S: System, W: Carriers, s: Session)
    requires Inv(S, W) && CanAdvance(S, s) && !InRelease(S.pcs[s])
    ensures StepIsSound(S, s)
  {
    FrontIs(S, s);
    assert ClientAt(S, W, s.client) && ThreadOk(S.server, W, s, S.pcs[s]);
    if S.pcs[s] == AcquireSent {
      AcquireAnswered(S, W, s);
    } else if S.pcs[s].RevokeSent? {
      RevokeFacts(S, W, s);
    }
  }

  lemma SoundInRelease(S: System, W: Carriers, s: Session)
    requires Inv(S, W) && CanAdvance(S, s) && InRelease(S.pcs[s])
    ensures StepIsSound(S, s)
  {
    FrontIs(S, s);
    CallReady(S, W, s);
    if S.pcs[s].call.RetrySent? {
      assert ClientAt(S, W, S.pcs[s].call.to) && ThreadOk(S.server, W, s, S.pcs[s]);
      RetryFacts(S, W, s);
    }
  }

  /** In every run, whatever thread moves next: a woken thread finds its client in a state from which it
      goes on, the server's VERIFYs hold for the request that arrives, messages go to clients that exist,
      and a queue whose front is taken or signalled is not empty. */
  lemma NextStepIsSound(run: seq<System>, i: nat, s: Session)
    requires IsRun(run) && i < |run| && CanAdvance(run[i], s)
    ensures StepIsSound(run[i], s)
  {
    RunsAreSafe(run, i);
    if InRelease(run[i].pcs[s]) {
      SoundInRelease(run[i], Witness(run[i]), s);
    } else {
      SoundInAcquire(run[i], Witness(run[i]), s);
    }
  }

  /** A client that holds the lock never asks for it again, and a release request always finds
      the lock in state REVOKING and held by the client that sent it. */
  lemma RequestsFindTheirLock(run: seq<System>, i: nat, s: Session)
    requires IsRun(run) && i < |run| && s in run[i].pcs
    ensures run[i].pcs[s] == AcquireSent ==> !Owner(run[i].server, s.client) && s.client !in run[i].server.waiters
    ensures InRelease(run[i].pcs[s]) && run[i].pcs[s].call == Requested ==>
              && run[i].server.state == Revoking && run[i].server.holder == Releaser(s, run[i].pcs[s])
              && run[i].server.waiters != {}
  {
    RunsAreSafe(run, i);
    var S, W := run[i], Witness(run[i]);
    var pc := S.pcs[s];
    FrontOrAsleep(S, s);
    assert ClientAt(S, W, s.client);
    if InRelease(pc) {
      assert ClientAt(S, W, Releaser(s, pc));
      CallFacts(S, W, s, Releaser(s, pc));
    }
  }

  lemma FrontOrAsleep(S: System, s: Session)
    requires QueuesOk(S) && s in S.pcs
    ensures s.client in S.clients && (S.pcs[s] == QueueWait(false) || Front(S, s.client) == Some(S.pcs[s]))
  {
    if S.pcs[s] != QueueWait(false) { FrontIs(S, s); }
  }

  /** The server reads lock.holder and lock.retryer after dropping its mutex, and they still have
      the values decided under it.  At most one revoke and one retry are undelivered. */
  lemma ReadsAfterUnlockAreStable(run: seq<System>, i: nat, s: Session, s': Session)
    requires IsRun(run) && i < |run| && s in run[i].pcs && s' in run[i].pcs
    ensures run[i].pcs[s].RevokePending? ==> run[i].server.holder == run[i].pcs[s].decided
    ensures InRelease(run[i].pcs[s]) && run[i].pcs[s].call.RetryPending? ==>
      run[i].server.retryer == run[i].pcs[s].call.decided
    ensures RevokeDue(run[i].pcs[s]) && RevokeDue(run[i].pcs[s']) ==> s == s'
    ensures RetryDue(run[i].pcs[s]) && RetryDue(run[i].pcs[s']) ==> s == s'
  {
    RunsAreSafe(run, i);
    var W := Witness(run[i]);
    assert ThreadOk(run[i].server, W, s, run[i].pcs[s]) && ThreadOk(run[i].server, W, s', run[i].pcs[s']);
  }

  predicate RevokeDue(pc: Pc)
  {
    pc.RevokePending? || pc.RevokeSent?
  }

  predicate RetryDue(pc: Pc)
  {
    InRelease(pc) && (pc.call.RetryPending? || pc.call.RetrySent?)
  }

  /** On each client the thread that owns the lock or is asking for it is the front of the queue. */
  lemma ActiveThreadIsFront(run: seq<System>, i: nat, s: Session)
    requires IsRun(run) && i < |run| && s in run[i].pcs
    ensures s.client in run[i].clients && s.waiter in run[i].clients[s.client].queue
    ensures run[i].pcs[s] != QueueWait(false) ==> run[i].clients[s.client].queue[0] == s.waiter
  {
    RunsAreSafe(run, i);
    FrontOrAsleep(run[i], s);
  }

  /** A cached free lock has nobody waiting for it. */
  lemma FreeHasNoQueue(run: seq<System>, i: nat, c: ClientId)
    requires IsRun(run) && i < |run| && c in run[i].clients && run[i].clients[c].state == LC.Free
    ensures run[i].clients[c].queue == [] && Owner(run[i].server, c)
  {
    RunsAreSafe(run, i);
    assert ClientAt(run[i], Witness(run[i]), c);
  }

  // ---- no lost wakeup ------------------------------------------------------------------

  /** A thread asleep in acquire_server is in the server's waiting set, or has been chosen and
      some other thread still has its retry to deliver. */
  lemma SleeperWillBeRetried(run: seq<System>, i: nat, s: Session)
    requires IsRun(run) && i < |run| && s in run[i].pcs && run[i].pcs[s] == RetryWait(false)
    ensures s.client in run[i].server.waiters
            || (Chosen(run[i].server, s.client) && exists x :: x in run[i].pcs && RetryDue(run[i].pcs[x]))
  {
    RunsAreSafe(run, i);
    var S, W := run[i], Witness(run[i]);
    FrontIs(S, s);
    assert ClientAt(S, W, s.client);
    if s.client !in S.server.waiters {
      assert ThreadOk(S.server, W, W.retrier.value, S.pcs[W.retrier.value]);
    }
  }

  /** While the server is REVOKING, the holder is going to hear of it or has: a revoke is
      undelivered, or noted for later, or the holder's release is on its way. */
  lemma RevokeIsUnderWay(run: seq<System>, i: nat)
    requires IsRun(run) && i < |run| && run[i].server.state == Revoking
    ensures run[i].server.holder in run[i].clients
    ensures || (exists x :: x in run[i].pcs && RevokeDue(run[i].pcs[x]))
            || run[i].clients[run[i].server.holder].revokeLater
            || (exists x :: x in run[i].pcs && InRelease(run[i].pcs[x]) && run[i].pcs[x].call == Requested
                            && Releaser(x, run[i].pcs[x]) == run[i].server.holder)
  {
    RunsAreSafe(run, i);
    RevokeCarrier(run[i], Witness(run[i]));
  }

  lemma RevokeCarrier(S: System, W: Carriers)
    requires Inv(S, W) && S.server.state == Revoking
    ensures S.server.holder in S.clients
    ensures || (exists x :: x in S.pcs && RevokeDue(S.pcs[x]))
            || S.clients[S.server.holder].revokeLater
            || (exists x :: x in S.pcs && InRelease(S.pcs[x]) && S.pcs[x].call == Requested
                            && Releaser(x, S.pcs[x]) == S.server.holder)
  {
    var h := S.server.holder;
    assert ClientAt(S, W, h);
    if W.revoker.Some? {
      assert RevokeDue(S.pcs[W.revoker.value]);
    } else if !S.clients[h].revokeLater {
      var x := W.releasers[h];
      assert x in S.pcs && InRelease(S.pcs[x]);
    }
  }

  // ---- first come, first served on each client -----------------------------------------

  function Queue(S: System, c: ClientId): seq<Waiter>
  {
    if c in S.clients then S.clients[c].queue else []
  }

  /** The waiters that joined, as a queue went through the contents qs, in order. */
  function Joined(qs: seq<seq<Waiter>>): seq<Waiter>
  {
    if |qs| < 2 then []
    else
      var before, after := qs[|qs| - 2], qs[|qs| - 1];
      Joined(qs[..|qs| - 1]) + if |after| > |before| then after[|after| - 1..] else []
  }

  /** The waiters that left, as a queue went through the contents qs, in order. */
  function Left(qs: seq<seq<Waiter>>): seq<Waiter>
  {
    if |qs| < 2 then []
    else
      var before, after := qs[|qs| - 2], qs[|qs| - 1];
      Left(qs[..|qs| - 1]) + if |after| < |before| then before[..1] else []
  }

  predicate KeptOrPopped(q: seq<Waiter>, q': seq<Waiter>)
  {
    q' == q || (q != [] && q' == q[1..])
  }

  ghost predicate QueueStep(q: seq<Waiter>, q': seq<Waiter>)
  {
    KeptOrPopped(q, q') || exists w :: q' == q + [w]
  }

  lemma AdvanceQueue(S: System, s: Session, c: ClientId)
    requires CanAdvance(S, s)
    ensures KeptOrPopped(Queue(S, c), Queue(Advance(S, s), c))
  {
    if InRelease(S.pcs[s]) && S.pcs[s].call != Replied {
      CallIsAdvance(S, s);
    }
  }

  lemma StartQueue(S: System, s: Session, c: ClientId)
    requires CanStart(S, s)
    ensures Queue(Start(S, s), c) == if c == s.client then Queue(S, c) + [s.waiter] else Queue(S, c)
  {
  }

  /** One step changes a queue only by adding at the back or removing the front. */
  lemma NextQueue(S: System, S': System, c: ClientId)
    requires Next(S, S')
    ensures QueueStep(Queue(S, c), Queue(S', c))
  {
    if s :| CanStart(S, s) && S' == Start(S, s) {
      StartQueue(S, s, c);
    } else {
      var s :| CanAdvance(S, s) && S' == Advance(S, s);
      AdvanceQueue(S, s, c);
    }
  }

  lemma InOrOut(joined: seq<Waiter>, left: seq<Waiter>, q: seq<Waiter>, q': seq<Waiter>)
    requires joined == left + q && QueueStep(q, q')
    ensures joined + (if |q'| > |q| then q'[|q'| - 1..] else []) == left + (if |q'| < |q| then q[..1] else []) + q'
  {
    if w :| q' == q + [w] {
      assert q'[|q'| - 1..] == [w];
    } else if q' != q {
      assert q == q[..1] + q';
    }
  }

  lemma {:induction false} InAndOut(qs: seq<seq<Waiter>>)
    requires qs != [] && qs[0] == []
    requires forall i | 0 <= i < |qs| - 1 :: QueueStep(qs[i], qs[i + 1])
    ensures Joined(qs) == Left(qs) + qs[|qs| - 1]
  {
    if |qs| >= 2 {
      var n := |qs| - 1;
      var before := qs[..n];
      forall i | 0 <= i < |before| - 1 ensures QueueStep(before[i], before[i + 1]) {
        assert QueueStep(qs[i], qs[i + 1]);
      }
      InAndOut(before);
      assert QueueStep(qs[n - 1], qs[n - 1 + 1]);
      InOrOut(Joined(before), Left(before), qs[n - 1], qs[n]);
    }
  }

  /** On every client, threads leave in the order in which they called acquire. */
  lemma FirstComeFirstServed(run: seq<System>, c: ClientId)
    requires IsRun(run)
    ensures var qs := seq(|run|, i requires 0 <= i < |run| => Queue(run[i], c));
            Joined(qs) == Left(qs) + Queue(run[|run| - 1], c)
  {
    var qs := seq(|run|, i requires 0 <= i < |run| => Queue(run[i], c));
    forall i | 0 <= i < |qs| - 1 ensures QueueStep(qs[i], qs[i + 1]) {
      NextQueue(run[i], run[i + 1], c);
    }
    InAndOut(qs);
  }

  // ---- termination ---------------------------------------------------------------------

  function CallRank(call: ReleaseCall): nat
  {
    match call
    case Requested => 4
    case RetryPending(_) => 3
    case RetrySent(_) => 2
    case Replied => 1
  }

  /** How many more steps a thread has at most; a second acquire request is always granted. */
  function Rank(v: ServerLock, s: Session, pc: Pc): (n: nat)
    ensures 0 < n <= 21
  {
    match pc
    case FirstWait(awake) => if awake then 20 else 21
    case QueueWait(awake) => if awake then 20 else 21
    case AcquireSent => if Chosen(v, s.client) then 9 else 19
    case RevokePending(granted, _) => if granted then 8 else 18
    case RevokeSent(_, granted) => if granted then 7 else 17
    case RevokeHandler(_, _, call) => 12 + CallRank(call)
    case AcquireReply(granted) => if granted then 6 else 12
    case RetryWait(awake) => if awake then 10 else 11
    case Holding => 5
    case Releasing(call) => CallRank(call)
  }

  ghost function Total(v: ServerLock, pcs: map<Session, Pc>): nat
    decreases |pcs|
  {
    if pcs == map[] then 0
    else
      var s :| s in pcs;
      Rank(v, s, pcs[s]) + Total(v, pcs - {s})
  }

  lemma {:induction false} TotalWithout(v: ServerLock, pcs: map<Session, Pc>, s: Session)
    requires s in pcs
    ensures Total(v, pcs) == Rank(v, s, pcs[s]) + Total(v, pcs - {s})
    decreases |pcs|
  {
    var x :| x in pcs && Total(v, pcs) == Rank(v, x, pcs[x]) + Total(v, pcs - {x});
    if x != s {
      TotalWithout(v, pcs - {x}, s);
      TotalWithout(v, pcs - {s}, x);
      assert pcs - {x} - {s} == pcs - {s} - {x};
    }
  }

  lemma {:induction false} TotalDecreases(v: ServerLock, pcs: map<Session, Pc>, v': ServerLock, pcs': map<Session, Pc>)
    requires pcs'.Keys <= pcs.Keys
    requires forall x | x in pcs' :: Rank(v', x, pcs'[x]) <= Rank(v, x, pcs[x])
    ensures Total(v', pcs') <= Total(v, pcs)
    decreases |pcs|
  {
    if pcs != map[] {
      var x :| x in pcs;
      TotalWithout(v, pcs, x);
      if x in pcs' {
        TotalWithout(v', pcs', x);
        TotalDecreases(v, pcs - {x}, v', pcs' - {x});
      } else {
        TotalDecreases(v, pcs - {x}, v', pcs');
      }
    } else {
      assert pcs' == map[];
    }
  }

  lemma {:induction false} TotalBound(v: ServerLock, pcs: map<Session, Pc>)
    ensures Total(v, pcs) <= 21 * |pcs|
    decreases |pcs|
  {
    if pcs != map[] {
      var x :| x in pcs;
      TotalWithout(v, pcs, x);
      TotalBound(v, pcs - {x});
      assert pcs.Keys == (pcs - {x}).Keys + {x};
    }
  }

  /** A step only brings threads closer to their end, and the one that takes it strictly so. */
  ghost predicate Closer(S: System, S': System, s: Session)
  {
    && s in S.pcs
    && S'.pcs.Keys <= S.pcs.Keys
    && (forall x | x in S'.pcs :: Rank(S'.server, x, S'.pcs[x]) <= Rank(S.server, x, S.pcs[x]))
    && (s in S'.pcs ==> Rank(S'.server, s, S'.pcs[s]) < Rank(S.server, s, S.pcs[s]))
  }

  lemma CloserIsLess(S: System, S': System, s: Session)
    requires Closer(S, S', s)
    ensures Total(S'.server, S'.pcs) < Total(S.server, S.pcs)
  {
    TotalWithout(S.server, S.pcs, s);
    if s in S'.pcs {
      TotalWithout(S'.server, S'.pcs, s);
      TotalDecreases(S.server, S.pcs - {s}, S'.server, S'.pcs - {s});
    } else {
      TotalDecreases(S.server, S.pcs - {s}, S'.server, S'.pcs);
    }
  }

  /** Thread s moves to pc and a waiter may be signalled; nobody else's rank grows. */
  lemma MoveCloser(S: System, S': System, s: Session, pc: Pc, c: ClientId, q: seq<Waiter>)
    requires s in S.pcs && (S'.pcs == S.pcs[s := pc] || S'.pcs == SignalFront(S.pcs[s := pc], c, q))
    requires Rank(S'.server, s, pc) < Rank(S.server, s, S.pcs[s])
    requires forall x | x in S.pcs && x != s ::
      S.pcs[x] == AcquireSent && Chosen(S.server, x.client) ==> Chosen(S'.server, x.client)
    ensures Closer(S, S', s)
  {
    forall x | x in S'.pcs && x != s ensures Rank(S'.server, x, S'.pcs[x]) <= Rank(S.server, x, S.pcs[x]) {
      WakingRank(S.server, S'.server, x, S.pcs[x]);
      assert S'.pcs[x] == S.pcs[x] || S'.pcs[x] == Woken(S.pcs[x]);
    }
    WakingRank(S'.server, S'.server, s, pc);
    assert S'.pcs[s] == pc || S'.pcs[s] == Woken(pc);
  }

  lemma WakingRank(v: ServerLock, v': ServerLock, x: Session, pc: Pc)
    requires pc == AcquireSent && Chosen(v, x.client) ==> Chosen(v', x.client)
    ensures Rank(v', x, pc) <= Rank(v, x, pc) && Rank(v', x, Woken(pc)) <= Rank(v, x, pc)
  {
  }

  lemma LeaveCloser(S: System, S': System, s: Session, c: ClientId, q: seq<Waiter>)
    requires s in S.pcs && (S'.pcs == S.pcs - {s} || S'.pcs == SignalFront(S.pcs - {s}, c, q)) && S'.server == S.server
    ensures Closer(S, S', s)
  {
  }

  lemma ResumedRank(v: ServerLock, due: bool, s: Session, l: ClientLock, pc: Pc, carrier: Option<(Session, Pc)>)
    requires ClientOk(v, due, s.client, l, Some(pc), carrier) && InAcquire(pc)
    ensures Rank(v, s, PcAfter(ResumeRegion(l, pc).exit)) < Rank(v, s, pc)
  {
  }

  lemma ResumeCloser(S: System, W: Carriers, s: Session)
    requires QueuesOk(S) && CanAdvance(S, s) && InAcquire(S.pcs[s]) && ClientAt(S, W, s.client)
    ensures Closer(S, Advance(S, s), s)
  {
    FrontIs(S, s);
    var r := ResumeRegion(S.clients[s.client], S.pcs[s]);
    ResumeSelf(S, W, s, r);
    ResumedRank(S.server, W.retrier.Some?, s, S.clients[s.client], S.pcs[s], Carrier(S, W, s.client));
    MoveCloser(S, Advance(S, s), s, PcAfter(r.exit), s.client, []);
  }

  lemma AnswerCloser(S: System, s: Session)
    requires QueuesOk(S) && CanAdvance(S, s) && S.pcs[s] == AcquireSent && AcquireRegion(S.server, s.client).Answer?
    ensures Closer(S, Advance(S, s), s)
  {
    var S' := Advance(S, s);
    forall x | x in S.pcs && x != s && S.pcs[x] == AcquireSent ensures x.client != s.client {
      FrontIs(S, x);
      FrontIs(S, s);
    }
    MoveCloser(S, S', s, S'.pcs[s], s.client, []);
  }

  lemma RevokeCloser(S: System, s: Session)
    requires CanAdvance(S, s) && RevokeDue(S.pcs[s])
    requires S.pcs[s].RevokeSent? ==>
      S.pcs[s].target in S.clients && (S.clients[S.pcs[s].target].state == LC.Free ==> !S.pcs[s].granted)
    ensures Closer(S, Advance(S, s), s)
  {
    MoveCloser(S, Advance(S, s), s, Advance(S, s).pcs[s], s.client, []);
  }

  lemma CallCloser(S: System, s: Session)
    requires s in S.pcs && InRelease(S.pcs[s]) && S.pcs[s].call != Replied
    requires S.pcs[s].call == Requested ==> ReleaseRegion(S.server, Releaser(s, S.pcs[s])).Released?
    requires S.pcs[s].call.RetrySent? ==> S.pcs[s].call.to in S.clients
    ensures Closer(S, AdvanceCall(S, s, S.pcs[s]), s)
  {
    var S', pc := AdvanceCall(S, s, S.pcs[s]), S.pcs[s];
    match pc.call {
      case Requested => MoveCloser(S, S', s, pc.(call := RetryPending(S'.server.retryer)), s.client, []);
      case RetryPending(_) => MoveCloser(S, S', s, pc.(call := RetrySent(S.server.retryer)), s.client, []);
      case RetrySent(u) => MoveCloser(S, S', s, pc.(call := Replied), u, S.clients[u].queue);
    }
  }

  lemma FinishCloser(S: System, s: Session)
    requires CanAdvance(S, s) && (S.pcs[s] == Holding || (InRelease(S.pcs[s]) && S.pcs[s].call == Replied))
    requires S.pcs[s].RevokeHandler? ==> S.pcs[s].target in S.clients && !S.pcs[s].granted
    ensures Closer(S, Advance(S, s), s)
  {
    var S', l := Advance(S, s), S.clients[s.client];
    if S.pcs[s].RevokeHandler? {
      MoveCloser(S, S', s, AcquireReply(false), S.pcs[s].target, S.clients[S.pcs[s].target].queue);
    } else if S.pcs[s] == Holding && l.revokeLater {
      MoveCloser(S, S', s, Releasing(Requested), s.client, []);
    } else {
      LeaveCloser(S, S', s, s.client, S'.clients[s.client].queue);
    }
  }

  lemma CallReady(S: System, W: Carriers, s: Session)
    requires Inv(S, W) && CanAdvance(S, s) && InRelease(S.pcs[s])
    ensures Releaser(s, S.pcs[s]) in S.clients
    ensures S.pcs[s].call == Requested ==> ReleaseRegion(S.server, Releaser(s, S.pcs[s])).Released?
    ensures S.pcs[s].call.RetrySent? ==> S.pcs[s].call.to in S.clients
    ensures S.pcs[s].RevokeHandler? ==> !S.pcs[s].granted
  {
    var t := Releaser(s, S.pcs[s]);
    assert ClientAt(S, W, s.client) && (t in S.clients ==> ClientAt(S, W, t));
    CallFacts(S, W, s, t);
    if S.pcs[s].call == Requested {
      ReleaseRest(S, W, s, t);
    } else if S.pcs[s].call.RetrySent? {
      assert S.server.retryer in S.clients ==> ClientAt(S, W, S.server.retryer);
      RetryFacts(S, W, s);
    }
  }

  lemma AdvanceCloser(S: System, W: Carriers, s: Session)
    requires Inv(S, W) && CanAdvance(S, s)
    ensures Closer(S, Advance(S, s), s)
  {
    var pc := S.pcs[s];
    assert ClientAt(S, W, s.client);
    if InRelease(pc) {
      CallReady(S, W, s);
      if pc.call == Replied {
        FinishCloser(S, s);
      } else {
        CallCloser(S, s);
        CallIsAdvance(S, s);
      }
    } else if pc == Holding {
      FinishCloser(S, s);
    } else if pc.RevokeSent? {
      RevokeFacts(S, W, s);
      RevokeCloser(S, s);
    } else if pc.RevokePending? {
      RevokeCloser(S, s);
    } else if pc == AcquireSent {
      AcquireAnswered(S, W, s);
      AnswerCloser(S, s);
    } else {
      ResumeCloser(S, W, s);
    }
  }

  ghost predicate Advances(S: System, S': System)
  {
    exists s :: CanAdvance(S, s) && S' == Advance(S, s)
  }

  lemma AdvancesIsLess(S: System, S': System)
    requires Safe(S) && Advances(S, S')
    ensures Total(S'.server, S'.pcs) < Total(S.server, S.pcs)
  {
    var s :| CanAdvance(S, s) && S' == Advance(S, s);
    AdvanceCloser(S, Witness(S), s);
    CloserIsLess(S, S', s);
  }

  /** After the last call of acquire every run is short: each thread has at most 21 steps left. */
  lemma {:induction false} Terminates(run: seq<System>, n: nat)
    requires IsRun(run) && n < |run|
    requires forall i | n <= i < |run| - 1 :: Advances(run[i], run[i + 1])
    ensures |run| - 1 - n <= Total(run[n].server, run[n].pcs) <= 21 * |run[n].pcs|
    decreases |run| - n
  {
    TotalBound(run[n].server, run[n].pcs);
    if n < |run| - 1 {
      RunsAreSafe(run, n);
      AdvancesIsLess(run[n], run[n + 1]);
      Terminates(run, n + 1);
    }
  }

  // ---- progress ------------------------------------------------------------------------

  ghost predicate SomeoneCanRun(S: System)
  {
    exists s :: CanAdvance(S, s)
  }

  lemma CarriersRun(S: System, W: Carriers, c: ClientId)
    requires Inv(S, W)
    ensures W.revoker.Some? || W.retrier.Some? ==> SomeoneCanRun(S)
    ensures c in S.clients && S.clients[c].state == LC.Releasing ==> SomeoneCanRun(S)
  {
    if W.revoker.Some? {
      assert CanAdvance(S, W.revoker.value);
    } else if W.retrier.Some? {
      assert CanAdvance(S, W.retrier.value);
    } else if c in S.clients && S.clients[c].state == LC.Releasing {
      assert ClientAt(S, W, c);
      assert CanAdvance(S, W.releasers[c]);
    }
  }

  lemma FrontRuns(S: System, c: ClientId)
    requires QueuesOk(S) && c in S.clients && Front(S, c).Some? && Runnable(Front(S, c).value)
    ensures SomeoneCanRun(S)
  {
    assert CanAdvance(S, Session(c, S.clients[c].queue[0]));
  }

  /** The client whose turn it is at the server can run, or someone is busy on its behalf. */
  lemma TurnRuns(S: System, W: Carriers)
    requires Inv(S, W) && (S.server.waiters != {} || S.server.state == Retrying)
    ensures SomeoneCanRun(S)
  {
    var c := if S.server.state == Retrying then S.server.retryer else S.server.holder;
    assert ClientAt(S, W, c);
    CarriersRun(S, W, c);
    if !SomeoneCanRun(S) {
      FrontRuns(S, c);
    }
  }

  lemma Progress(S: System, W: Carriers)
    requires Inv(S, W) && S.pcs != map[]
    ensures SomeoneCanRun(S)
  {
    var x :| x in S.pcs;
    var c := x.client;
    assert ClientAt(S, W, c);
    CarriersRun(S, W, c);
    var f := Session(c, S.clients[c].queue[0]);
    if Runnable(S.pcs[f]) {
      FrontRuns(S, c);
    } else if S.pcs[f] == RetryWait(false) && !W.retrier.Some? {
      TurnRuns(S, W);
    }
  }

  /** When no thread can take a step, every acquire has been granted and released. */
  lemma QuietMeansDone(run: seq<System>, i: nat)
    requires IsRun(run) && i < |run|
    requires forall s :: !CanAdvance(run[i], s)
    ensures run[i].pcs == map[] && run[i].server.state in {Free, Locked}
    ensures forall c | c in run[i].clients ::
      run[i].clients[c].queue == [] && run[i].clients[c].state in {LC.NoLock, LC.Free}
  {
    RunsAreSafe(run, i);
    var W := Witness(run[i]);
    if run[i].pcs != map[] {
      Progress(run[i], W);
    }
    if run[i].server.state == Retrying || run[i].server.state == Revoking {
      TurnRuns(run[i], W);
    }
    forall c | c in run[i].clients
      ensures run[i].clients[c].queue == [] && run[i].clients[c].state in {LC.NoLock, LC.Free}
    {
      assert ClientAt(run[i], W, c);
    }
  }
}
