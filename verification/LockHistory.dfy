/** What adds up over whole runs of the lock protocol: messages, grants and the order of grants. */
module LockHistory {
  import opened Options
  import opened LockServer
  import opened LockSystem
  import opened LockInvariant
  import opened LockTheorems
  import StringOrder

  // ---- what a step does to the threads -----------------------------------------------------

  /** A thread that does not take the step is at most woken by it. */
  lemma OthersStay(S: System, s: Session, x: Session)
    requires CanAdvance(S, s) && x != s
    ensures x in Advance(S, s).pcs <==> x in S.pcs
    ensures x in S.pcs ==> Advance(S, s).pcs[x] == S.pcs[x] || Advance(S, s).pcs[x] == Woken(S.pcs[x])
  {
    if InRelease(S.pcs[s]) && S.pcs[s].call != Replied {
      CallIsAdvance(S, s);
    }
  }

  /** Where the thread that takes the step goes. */
  lemma OwnMove(S: System, s: Session)
    requires CanAdvance(S, s) && !Advance(S, s).fault
    ensures s !in Advance(S, s).pcs ==> S.pcs[s] == Holding || S.pcs[s] == Releasing(Replied)
    ensures s in Advance(S, s).pcs ==>
      (Advance(S, s).pcs[s].Releasing? <==> S.pcs[s] == Holding || S.pcs[s].Releasing?)
    ensures s in Advance(S, s).pcs ==> S.pcs[s] != Releasing(Replied)
    ensures s in Advance(S, s).pcs && S.pcs[s].Releasing? ==> Advance(S, s).pcs[s] != Holding
  {
    if InRelease(S.pcs[s]) && S.pcs[s].call != Replied {
      CallIsAdvance(S, s);
    }
  }

  /** A queue loses its front exactly when that thread's release ends. */
  lemma QueueAfter(S: System, s: Session, c: ClientId)
    requires CanAdvance(S, s) && !Advance(S, s).fault
    ensures var q, S' := Queue(S, c), Advance(S, s);
            if c == s.client && s !in S'.pcs then q != [] && Queue(S', c) == q[1..] else Queue(S', c) == q
  {
    if InRelease(S.pcs[s]) && S.pcs[s].call != Replied {
      CallIsAdvance(S, s);
    }
  }

  // ---- the order of grants -----------------------------------------------------------------

  /** The thread of client c that has returned from acquire and not yet called release. */
  ghost function Holder(S: System, c: ClientId): seq<Waiter>
  {
    if c in S.clients && Front(S, c) == Some(Holding) then S.clients[c].queue[..1] else []
  }

  /** The thread of client c that has been granted the lock and is not done with release. */
  ghost function Inside(S: System, c: ClientId): seq<Waiter>
  {
    if c in S.clients && Front(S, c).Some? && (Front(S, c).value == Holding || Front(S, c).value.Releasing?)
    then S.clients[c].queue[..1] else []
  }

  /** The waiter whose thread returns from acquire in a step. */
  ghost function Enters(S: System, S': System, c: ClientId): seq<Waiter>
  {
    if Holder(S, c) == Holder(S', c) then [] else Holder(S', c)
  }

  /** The waiter whose thread ends its release in a step. */
  function Leaver(q: seq<Waiter>, q': seq<Waiter>): seq<Waiter>
  {
    if |q'| < |q| then q[..1] else []
  }

  /** Who was inside or enters is who leaves or is still inside. */
  ghost predicate Passes(S: System, S': System, c: ClientId)
  {
    Inside(S, c) + Enters(S, S', c) == Leaver(Queue(S, c), Queue(S', c)) + Inside(S', c)
  }

  lemma StartFront(S: System, s: Session)
    requires QueuesOk(S) && CanStart(S, s)
    ensures var c, S' := s.client, Start(S, s);
            && c in S'.clients && S'.clients[c].queue == S.clients[c].queue + [s.waiter]
            && Front(S', c) == (if S.clients[c].queue == [] then Some(S'.pcs[s]) else Front(S, c))
            && (S.clients[c].queue == [] ==> !S'.pcs[s].Releasing?)
  {
  }

  lemma StartElsewhere(S: System, s: Session, c: ClientId)
    requires CanStart(S, s) && c != s.client && c in S.clients
    ensures c in Start(S, s).clients && Start(S, s).clients[c] == S.clients[c] && Front(Start(S, s), c) == Front(S, c)
  {
  }

  lemma FrontKept(q: seq<Waiter>, w: Waiter)
    requires q != []
    ensures (q + [w])[..1] == q[..1]
  {
  }

  lemma StartPasses(S: System, s: Session, c: ClientId)
    requires QueuesOk(S) && CanStart(S, s)
    ensures Passes(S, Start(S, s), c)
  {
    if c == s.client {
      StartFront(S, s);
      if S.clients[c].queue != [] {
        FrontKept(S.clients[c].queue, s.waiter);
      }
    } else if c in S.clients {
      StartElsewhere(S, s, c);
    }
  }

  lemma ElsewherePasses(S: System, s: Session, c: ClientId)
    requires QueuesOk(S) && CanAdvance(S, s) && !Advance(S, s).fault && c != s.client
    ensures Passes(S, Advance(S, s), c)
  {
    QueueAfter(S, s, c);
    if c in S.clients && S.clients[c].queue != [] {
      OthersStay(S, s, Session(c, S.clients[c].queue[0]));
    }
  }

  lemma StayPasses(S: System, s: Session)
    requires QueuesOk(S) && CanAdvance(S, s) && !Advance(S, s).fault && s in Advance(S, s).pcs
    ensures Passes(S, Advance(S, s), s.client)
  {
    FrontIs(S, s);
    QueueAfter(S, s, s.client);
    OwnMove(S, s);
  }

  lemma GoPasses(S: System, s: Session)
    requires QueuesOk(S) && CanAdvance(S, s) && !Advance(S, s).fault && s !in Advance(S, s).pcs
    ensures Passes(S, Advance(S, s), s.client)
  {
    var q := S.clients[s.client].queue;
    FrontIs(S, s);
    QueueAfter(S, s, s.client);
    OwnMove(S, s);
    if |q| > 1 {
      assert q[1..][0] == q[1] && q[1] in q && q[1] != q[0];
      OthersStay(S, s, Session(s.client, q[1]));
    }
  }

  lemma NextPasses(S: System, S': System, c: ClientId)
    requires Safe(S) && Safe(S') && Next(S, S')
    ensures Passes(S, S', c)
  {
    if s :| CanStart(S, s) && S' == Start(S, s) {
      StartPasses(S, s, c);
    } else {
      var s :| CanAdvance(S, s) && S' == Advance(S, s);
      if c != s.client {
        ElsewherePasses(S, s, c);
      } else if s in S'.pcs {
        StayPasses(S, s);
      } else {
        GoPasses(S, s);
      }
    }
  }

  ghost function Queues(run: seq<System>, c: ClientId): (qs: seq<seq<Waiter>>)
    ensures |qs| == |run| && forall i | 0 <= i < |run| :: qs[i] == Queue(run[i], c)
  {
    seq(|run|, i requires 0 <= i < |run| => Queue(run[i], c))
  }

  /** The waiters of client c whose threads returned from acquire, in this order. */
  ghost function Granted(run: seq<System>, c: ClientId): seq<Waiter>
  {
    if |run| < 2 then []
    else Granted(run[..|run| - 1], c) + Enters(run[|run| - 2], run[|run| - 1], c)
  }

  lemma RunPrefix(run: seq<System>)
    requires IsRun(run) && |run| > 1
    ensures IsRun(run[..|run| - 1]) && Next(run[|run| - 2], run[|run| - 1])
  {
    var n := |run| - 1;
    forall i | 0 <= i < n - 1 ensures Next(run[..n][i], run[..n][i + 1]) {
      assert Next(run[i], run[i + 1]);
    }
    assert Next(run[n - 1], run[n - 1 + 1]);
  }

  lemma Regroup(granted: seq<Waiter>, left: seq<Waiter>, inside: seq<Waiter>, enters: seq<Waiter>, leaver: seq<Waiter>,
                inside': seq<Waiter>)
    requires granted == left + inside && inside + enters == leaver + inside'
    ensures granted + enters == left + leaver + inside'
  {
    assert left + inside + enters == left + (inside + enters);
  }

  lemma {:induction false} GrantedIs(run: seq<System>, c: ClientId)
    requires IsRun(run)
    ensures Granted(run, c) == Left(Queues(run, c)) + Inside(run[|run| - 1], c)
  {
    if |run| > 1 {
      var n := |run| - 1;
      var before := run[..n];
      RunPrefix(run);
      GrantedIs(before, c);
      RunsAreSafe(run, n - 1);
      RunsAreSafe(run, n);
      NextPasses(run[n - 1], run[n], c);
      assert Queues(run, c)[..n] == Queues(before, c);
      Regroup(Granted(before, c), Left(Queues(before, c)), Inside(run[n - 1], c), Enters(run[n - 1], run[n], c),
              Leaver(Queue(run[n - 1], c), Queue(run[n], c)), Inside(run[n], c));
    }
  }

  lemma InsideIsFront(S: System, c: ClientId)
    ensures Inside(S, c) <= Queue(S, c)
  {
  }

  lemma PrefixAfter(a: seq<Waiter>, b: seq<Waiter>, b': seq<Waiter>)
    requires b <= b'
    ensures a + b <= a + b'
  {
  }

  /** On every client, threads return from acquire in the order in which they called it: the grants
      are those of the threads that left and of the one inside, a prefix of the calls. */
  lemma GrantsInOrder(run: seq<System>, c: ClientId)
    requires IsRun(run)
    ensures Granted(run, c) == Left(Queues(run, c)) + Inside(run[|run| - 1], c)
    ensures Granted(run, c) <= Joined(Queues(run, c))
  {
    GrantedIs(run, c);
    FirstComeFirstServed(run, c);
    InsideIsFront(run[|run| - 1], c);
    PrefixAfter(Left(Queues(run, c)), Inside(run[|run| - 1], c), Queue(run[|run| - 1], c));
  }

  // ---- every call is granted -----------------------------------------------------------------

  lemma RunMore(run: seq<System>, S': System)
    requires IsRun(run) && Next(run[|run| - 1], S')
    ensures IsRun(run + [S'])
  {
    var run' := run + [S'];
    forall i | 0 <= i < |run'| - 1 ensures Next(run'[i], run'[i + 1]) {
      if i < |run| - 1 {
        assert Next(run[i], run[i + 1]);
      }
    }
  }

  /** How much is left to do in the last state. */
  ghost function Remaining(run: seq<System>): nat
    requires run != []
  {
    Total(run[|run| - 1].server, run[|run| - 1].pcs)
  }

  lemma SomeoneMoves(S: System) returns (S': System)
    requires Safe(S) && S.pcs != map[]
    ensures Next(S, S') && Total(S'.server, S'.pcs) < Total(S.server, S.pcs)
  {
    Progress(S, Witness(S));
    var s :| CanAdvance(S, s);
    S' := Advance(S, s);
    AdvancesIsLess(S, S');
  }

  lemma OneStepOn(run: seq<System>) returns (run': seq<System>)
    requires IsRun(run) && run[|run| - 1].pcs != map[]
    ensures IsRun(run') && run <= run' && Remaining(run') < Remaining(run)
  {
    RunsAreSafe(run, |run| - 1);
    var S' := SomeoneMoves(run[|run| - 1]);
    RunMore(run, S');
    run' := run + [S'];
  }

  /** Whatever has happened, the threads inside can be run to their end, and then all are out. */
  lemma {:induction false} RunOut(run: seq<System>) returns (run': seq<System>)
    requires IsRun(run)
    ensures IsRun(run') && run <= run' && run'[|run'| - 1].pcs == map[]
    decreases Remaining(run)
  {
    if run[|run| - 1].pcs == map[] {
      run' := run;
    } else {
      var more := OneStepOn(run);
      run' := RunOut(more);
    }
  }

  lemma NobodyMoves(S: System)
    requires S.pcs == map[]
    ensures forall s :: !CanAdvance(S, s)
  {
  }

  lemma OutMeansGranted(run: seq<System>, c: ClientId)
    requires IsRun(run) && run[|run| - 1].pcs == map[]
    ensures Granted(run, c) == Joined(Queues(run, c))
  {
    var S := run[|run| - 1];
    NobodyMoves(S);
    QuietMeansDone(run, |run| - 1);
    GrantsInOrder(run, c);
    FirstComeFirstServed(run, c);
    assert Queue(S, c) == [] && Inside(S, c) == [];
  }

  lemma {:induction false} JoinedGrows(qs: seq<seq<Waiter>>, qs': seq<seq<Waiter>>)
    requires qs != [] && qs <= qs'
    ensures Joined(qs) <= Joined(qs')
    decreases |qs'|
  {
    if |qs| < |qs'| {
      JoinedGrows(qs, qs'[..|qs'| - 1]);
    } else {
      assert qs == qs';
    }
  }

  lemma QueuesOfPrefix(run: seq<System>, run': seq<System>, c: ClientId)
    requires run <= run'
    ensures Queues(run, c) <= Queues(run', c)
  {
    assert forall i | 0 <= i < |run| :: run'[i] == run[i];
  }

  lemma JoinedOneMore(qs: seq<seq<Waiter>>, q: seq<Waiter>, w: Waiter)
    requires qs != [] && qs[|qs| - 1] == q
    ensures Joined(qs + [q + [w]]) == Joined(qs) + [w]
  {
    var qs' := qs + [q + [w]];
    assert qs'[..|qs|] == qs && qs'[|qs| - 1] == q && qs'[|qs|] == q + [w];
    assert (q + [w])[|q|..] == [w];
  }

  lemma QueuesMore(run: seq<System>, S': System, c: ClientId)
    ensures Queues(run + [S'], c) == Queues(run, c) + [Queue(S', c)]
  {
  }

  lemma StartJoins(run: seq<System>, S: System, s: Session)
    requires run != [] && run[|run| - 1] == S && CanStart(S, s)
    ensures Joined(Queues(run + [Start(S, s)], s.client)) == Joined(Queues(run, s.client)) + [s.waiter]
  {
    StartQueue(S, s, s.client);
    JoinedOneMore(Queues(run, s.client), Queue(S, s.client), s.waiter);
    QueuesMore(run, Start(S, s), s.client);
  }

  /** From every state of every run, a thread that is not inside can call acquire on any client, and the
      run can go on until every call made so far, and this one after them, has been granted and released. */
  lemma CallIsGranted(run: seq<System>, s: Session) returns (run': seq<System>)
    requires IsRun(run) && s.client in run[|run| - 1].clients && s !in run[|run| - 1].pcs
    ensures IsRun(run') && run <= run' && run'[|run'| - 1].pcs == map[]
    ensures Joined(Queues(run, s.client)) + [s.waiter] <= Granted(run', s.client)
  {
    var S := run[|run| - 1];
    var more := run + [Start(S, s)];
    RunMore(run, Start(S, s));
    StartJoins(run, S, s);
    run' := RunOut(more);
    QueuesOfPrefix(more, run', s.client);
    JoinedGrows(Queues(more, s.client), Queues(run', s.client));
    OutMeansGranted(run', s.client);
  }

  // ---- one revoke to a grant, one retry to a refusal -----------------------------------------

  datatype Label = Begin(session: Session) | Go(session: Session)

  ghost predicate Does(S: System, S': System, l: Label)
  {
    match l
    case Begin(s) => CanStart(S, s) && S' == Start(S, s)
    case Go(s) => CanAdvance(S, s) && S' == Advance(S, s)
  }

  /** What the server did so far: acquire requests answered OK and RETRY, revokes decided, releases,
      each of which decides one retry, and deliveries of the two. */
  datatype Tally = Tally(grants: nat, refusals: nat, revokes: nat, releases: nat, revoked: nat, retried: nat)

  function One(b: bool): nat
  {
    if b then 1 else 0
  }

  function Plus(t: Tally, u: Tally): Tally
  {
    Tally(t.grants + u.grants, t.refusals + u.refusals, t.revokes + u.revokes, t.releases + u.releases,
          t.revoked + u.revoked, t.retried + u.retried)
  }

  const NOTHING := Tally(0, 0, 0, 0, 0, 0)

  /** The events in one step of thread s. */
  ghost function Events(S: System, l: Label): Tally
  {
    if l.Begin? || l.session !in S.pcs then NOTHING
    else
      var pc, a := S.pcs[l.session], AcquireRegion(S.server, l.session.client);
      if pc == AcquireSent && a.Answer?
      then NOTHING.(grants := One(a.granted), refusals := One(!a.granted), revokes := One(a.revoke))
      else if pc.RevokeSent? then NOTHING.(revoked := 1)
      else if InRelease(pc) && pc.call == Requested then NOTHING.(releases := 1)
      else if InRelease(pc) && pc.call.RetrySent? then NOTHING.(retried := 1)
      else NOTHING
  }

  ghost predicate AnyRevokeDue(S: System)
  {
    exists x :: x in S.pcs && RevokeDue(S.pcs[x])
  }

  ghost predicate AnyRetryDue(S: System)
  {
    exists x :: x in S.pcs && RetryDue(S.pcs[x])
  }

  predicate ServerBalanced(v: ServerLock, t: Tally)
  {
    && t.grants == t.releases + One(v.state == Locked || v.state == Revoking)
    && t.revokes == t.releases + One(v.state == Revoking)
    && t.refusals == t.releases + |v.waiters|
  }

  /** Every grant but the present one was ended by one release; a release was called for by one revoke,
      and chose one of the refused requests, for one retry.  All but those due were delivered. */
  ghost predicate Balanced(S: System, t: Tally)
  {
    && ServerBalanced(S.server, t)
    && t.revokes == t.revoked + One(AnyRevokeDue(S))
    && t.releases == t.retried + One(AnyRetryDue(S))
  }

  lemma AnswerBalanced(v: ServerLock, id: ClientId, t: Tally, e: Tally)
    requires ServerBalanced(v, t) && AcquireRegion(v, id).Answer? && id !in v.waiters
    requires v.state == Locked || v.state == Free ==> v.waiters == {}
    requires var a := AcquireRegion(v, id);
             e == NOTHING.(grants := One(a.granted), refusals := One(!a.granted), revokes := One(a.revoke))
    ensures ServerBalanced(AcquireRegion(v, id).lock, Plus(t, e))
  {
    assert |v.waiters + {id}| == |v.waiters| + 1;
  }

  lemma ReleaseBalanced(v: ServerLock, id: ClientId, t: Tally)
    requires ServerBalanced(v, t) && ReleaseRegion(v, id).Released?
    ensures ServerBalanced(ReleaseRegion(v, id).lock, Plus(t, NOTHING.(releases := 1)))
  {
    var next := StringOrder.Least(v.waiters);
    assert |v.waiters| == |v.waiters - {next}| + 1;
  }

  lemma OthersDue(S: System, s: Session)
    requires CanAdvance(S, s)
    ensures forall x | x != s ::
      && (x in Advance(S, s).pcs <==> x in S.pcs)
      && (x in S.pcs ==> (RevokeDue(Advance(S, s).pcs[x]) <==> RevokeDue(S.pcs[x])))
      && (x in S.pcs ==> (RetryDue(Advance(S, s).pcs[x]) <==> RetryDue(S.pcs[x])))
  {
    forall x | x != s
      ensures x in Advance(S, s).pcs <==> x in S.pcs
      ensures x in S.pcs ==> (RevokeDue(Advance(S, s).pcs[x]) <==> RevokeDue(S.pcs[x]))
      ensures x in S.pcs ==> (RetryDue(Advance(S, s).pcs[x]) <==> RetryDue(S.pcs[x]))
    {
      OthersStay(S, s, x);
    }
  }

  lemma OwnDue(S: System, s: Session)
    requires CanAdvance(S, s) && !S.fault && !Advance(S, s).fault
    ensures var S', pc, e := Advance(S, s), S.pcs[s], Events(S, Go(s));
            && (s in S'.pcs && RevokeDue(S'.pcs[s]) <==> pc.RevokePending? || e.revokes == 1)
            && (s in S'.pcs && RetryDue(S'.pcs[s]) <==> (InRelease(pc) && pc.call.RetryPending?) || e.releases == 1)
  {
    if InRelease(S.pcs[s]) && S.pcs[s].call != Replied {
      CallIsAdvance(S, s);
    }
  }

  /** Who owes a delivery, in terms of the carriers. */
  lemma DueIsCarried(S: System, W: Carriers)
    requires ServerOk(S, W) && ThreadsOk(S, W)
    ensures AnyRevokeDue(S) <==> W.revoker.Some?
    ensures AnyRetryDue(S) <==> W.retrier.Some?
    ensures forall x | x in S.pcs ::
      (RevokeDue(S.pcs[x]) <==> W.revoker == Some(x)) && (RetryDue(S.pcs[x]) <==> W.retrier == Some(x))
  {
    forall x | x in S.pcs
      ensures (RevokeDue(S.pcs[x]) <==> W.revoker == Some(x)) && (RetryDue(S.pcs[x]) <==> W.retrier == Some(x))
    {
      assert ThreadOk(S.server, W, x, S.pcs[x]);
    }
    if W.revoker.Some? {
      assert RevokeDue(S.pcs[W.revoker.value]);
    }
    if W.retrier.Some? {
      assert RetryDue(S.pcs[W.retrier.value]);
    }
  }

  lemma RevokeDueAfter(S: System, W: Carriers, s: Session)
    requires ServerOk(S, W) && ThreadsOk(S, W) && CanAdvance(S, s) && !S.fault && !Advance(S, s).fault
    ensures var e := Events(S, Go(s)); One(AnyRevokeDue(Advance(S, s))) + e.revoked == One(AnyRevokeDue(S)) + e.revokes
  {
    var S', e := Advance(S, s), Events(S, Go(s));
    DueIsCarried(S, W);
    OthersDue(S, s);
    OwnDue(S, s);
    if S.pcs[s].RevokePending? || e.revokes == 1 {
      assert RevokeDue(S'.pcs[s]);
    } else if S.pcs[s].RevokeSent? {
      assert forall x | x in S'.pcs :: !RevokeDue(S'.pcs[x]);
    } else if AnyRevokeDue(S) {
      var x :| x in S.pcs && RevokeDue(S.pcs[x]);
      assert RevokeDue(S'.pcs[x]);
    } else {
      assert forall x | x in S'.pcs :: !RevokeDue(S'.pcs[x]);
    }
  }

  lemma RetryDueAfter(S: System, W: Carriers, s: Session)
    requires ServerOk(S, W) && ThreadsOk(S, W) && CanAdvance(S, s) && !S.fault && !Advance(S, s).fault
    ensures var e := Events(S, Go(s)); One(AnyRetryDue(Advance(S, s))) + e.retried == One(AnyRetryDue(S)) + e.releases
  {
    var S', pc, e := Advance(S, s), S.pcs[s], Events(S, Go(s));
    DueIsCarried(S, W);
    OthersDue(S, s);
    OwnDue(S, s);
    if (InRelease(pc) && pc.call.RetryPending?) || e.releases == 1 {
      assert RetryDue(S'.pcs[s]);
      assert e.releases == 1 ==> S.server.state == Revoking;
    } else if InRelease(pc) && pc.call.RetrySent? {
      assert forall x | x in S'.pcs :: !RetryDue(S'.pcs[x]);
    } else if AnyRetryDue(S) {
      var x :| x in S.pcs && RetryDue(S.pcs[x]);
      assert RetryDue(S'.pcs[x]);
    } else {
      assert forall x | x in S'.pcs :: !RetryDue(S'.pcs[x]);
    }
  }

  /** Only two kinds of steps change the server's record. */
  lemma ServerAfter(S: System, s: Session)
    requires CanAdvance(S, s) && !S.fault && !Advance(S, s).fault
    ensures S.pcs[s] == AcquireSent ==>
      AcquireRegion(S.server, s.client).Answer? && Advance(S, s).server == AcquireRegion(S.server, s.client).lock
    ensures InRelease(S.pcs[s]) && S.pcs[s].call == Requested ==>
      && ReleaseRegion(S.server, Releaser(s, S.pcs[s])).Released?
      && Advance(S, s).server == ReleaseRegion(S.server, Releaser(s, S.pcs[s])).lock
    ensures S.pcs[s] != AcquireSent && !(InRelease(S.pcs[s]) && S.pcs[s].call == Requested) ==>
      Advance(S, s).server == S.server
  {
    if InRelease(S.pcs[s]) && S.pcs[s].call != Replied {
      CallIsAdvance(S, s);
    }
  }

  lemma ServerStaysBalanced(S: System, W: Carriers, s: Session, t: Tally)
    requires QueuesOk(S) && ServerOk(S, W) && CanAdvance(S, s) && ClientAt(S, W, s.client) && !S.fault
    requires !Advance(S, s).fault
    requires ServerBalanced(S.server, t)
    ensures ServerBalanced(Advance(S, s).server, Plus(t, Events(S, Go(s))))
  {
    var pc := S.pcs[s];
    ServerAfter(S, s);
    if pc == AcquireSent {
      AcquireAnswered(S, W, s);
      AnswerBalanced(S.server, s.client, t, Events(S, Go(s)));
    } else if InRelease(pc) && pc.call == Requested {
      ReleaseBalanced(S.server, Releaser(s, pc), t);
    }
  }

  lemma GoBalanced(S: System, W: Carriers, s: Session, t: Tally)
    requires Inv(S, W) && CanAdvance(S, s) && !Advance(S, s).fault && Balanced(S, t)
    ensures Balanced(Advance(S, s), Plus(t, Events(S, Go(s))))
  {
    assert ClientAt(S, W, s.client);
    ServerStaysBalanced(S, W, s, t);
    RevokeDueAfter(S, W, s);
    RetryDueAfter(S, W, s);
  }

  lemma BeginBalanced(S: System, s: Session, t: Tally)
    requires CanStart(S, s) && Balanced(S, t)
    ensures Balanced(Start(S, s), Plus(t, Events(S, Begin(s))))
  {
    var S' := Start(S, s);
    assert !RevokeDue(S'.pcs[s]) && !RetryDue(S'.pcs[s]);
    assert forall x | x in S.pcs :: S'.pcs[x] == S.pcs[x];
    assert AnyRevokeDue(S') <==> AnyRevokeDue(S);
    assert AnyRetryDue(S') <==> AnyRetryDue(S);
  }

  /** A run together with who takes each step. */
  ghost predicate IsLabelled(run: seq<System>, ls: seq<Label>)
  {
    |run| == |ls| + 1 && Init(run[0]) && forall i: nat | i < |ls| :: StepDone(run, ls, i)
  }

  ghost predicate StepDone(run: seq<System>, ls: seq<Label>, i: nat)
    requires i < |ls| < |run|
  {
    Does(run[i], run[i + 1], ls[i])
  }

  lemma LabelledIsRun(run: seq<System>, ls: seq<Label>)
    requires IsLabelled(run, ls)
    ensures IsRun(run)
  {
    forall i | 0 <= i < |run| - 1 ensures Next(run[i], run[i + 1]) {
      assert StepDone(run, ls, i);
    }
  }

  lemma LabelledMore(run: seq<System>, S': System, ls: seq<Label>, l: Label)
    requires IsLabelled(run, ls) && Does(run[|ls|], S', l)
    ensures IsLabelled(run + [S'], ls + [l])
  {
    var run', ls' := run + [S'], ls + [l];
    forall i: nat | i < |ls'| ensures StepDone(run', ls', i) {
      if i < |ls| {
        assert StepDone(run, ls, i);
        assert run'[i] == run[i] && run'[i + 1] == run[i + 1] && ls'[i] == ls[i];
      }
    }
  }

  /** Every run can be seen so. */
  lemma {:induction false} RunIsLabelled(run: seq<System>) returns (ls: seq<Label>)
    requires IsRun(run)
    ensures IsLabelled(run, ls)
  {
    if |run| == 1 {
      ls := [];
    } else {
      var n := |run| - 1;
      RunPrefix(run);
      var before := RunIsLabelled(run[..n]);
      LabelExists(run[n - 1], run[n]);
      var l: Label :| Does(run[n - 1], run[n], l);
      LabelledMore(run[..n], run[n], before, l);
      assert run == run[..n] + [run[n]];
      ls := before + [l];
    }
  }

  lemma LabelExists(S: System, S': System)
    requires Next(S, S')
    ensures exists l: Label :: Does(S, S', l)
  {
    if s :| CanStart(S, s) && S' == Start(S, s) {
      assert Does(S, S', Begin(s));
    } else {
      var s :| CanAdvance(S, s) && S' == Advance(S, s);
      assert Does(S, S', Go(s));
    }
  }

  /** The events of the first n steps. */
  ghost function Count(run: seq<System>, ls: seq<Label>, n: nat): Tally
    requires n <= |ls| < |run|
  {
    if n == 0 then NOTHING else Plus(Count(run, ls, n - 1), Events(run[n - 1], ls[n - 1]))
  }

  lemma StepBalanced(S: System, S': System, l: Label, t: Tally)
    requires Safe(S) && Safe(S') && Does(S, S', l) && Balanced(S, t)
    ensures Balanced(S', Plus(t, Events(S, l)))
  {
    match l
    case Begin(s) => BeginBalanced(S, s, t);
    case Go(s) => GoBalanced(S, Witness(S), s, t);
  }

  /** In every run there is exactly one revoke to each grant that ended or is being recalled, and
      exactly one retry to each request that was refused and is not waiting any more. */
  lemma {:induction false} MessagesBalance(run: seq<System>, ls: seq<Label>, n: nat)
    requires IsLabelled(run, ls) && n <= |ls|
    ensures Balanced(run[n], Count(run, ls, n))
  {
    if n > 0 {
      MessagesBalance(run, ls, n - 1);
      LabelledIsRun(run, ls);
      RunsAreSafe(run, n - 1);
      RunsAreSafe(run, n);
      assert StepDone(run, ls, n - 1);
      StepBalanced(run[n - 1], run[n], ls[n - 1], Count(run, ls, n - 1));
    }
  }
}
