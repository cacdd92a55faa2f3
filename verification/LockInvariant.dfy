/**
 The inductive invariant of the lock protocol.  It is stated over a state and a record of
 which threads carry the pending revoke, the pending retry and each client's release.
 */
module LockInvariant {
  import opened Options
  import opened LockServer
  import opened LockSystem
  import LC = LockClient

  /** revoker: the thread whose server handler still has its revoke to deliver;
      retrier: the thread whose server handler still has its retry to deliver;
      releasers: for each client in state RELEASING, the thread carrying that release. */
  datatype Carriers = Carriers(revoker: Option<Session>, retrier: Option<Session>, releasers: map<ClientId, Session>)

  predicate Owner(v: ServerLock, c: ClientId)
  {
    (v.state == Locked || v.state == Revoking) && v.holder == c
  }

  predicate Chosen(v: ServerLock, c: ClientId)
  {
    v.state == Retrying && v.retryer == c
  }

  predicate Outside(v: ServerLock, c: ClientId)
  {
    !Owner(v, c) && !Chosen(v, c) && c !in v.waiters
  }

  // ---- the queues ----------------------------------------------------------------------

  predicate Distinct(q: seq<Waiter>)
  {
    forall i, j | 0 <= i < j < |q| :: q[i] != q[j]
  }

  /** A thread is in its client's queue, and unless it is at the front it sleeps at line 90. */
  predicate PlaceOk(q: seq<Waiter>, w: Waiter, pc: Pc)
  {
    w in q && (pc != QueueWait(false) ==> w == q[0])
  }

  ghost predicate QueuesOk(S: System)
  {
    && (forall s | s in S.pcs :: s.client in S.clients && PlaceOk(S.clients[s.client].queue, s.waiter, S.pcs[s]))
    && (forall c | c in S.clients :: Distinct(S.clients[c].queue))
    && (forall c, w | c in S.clients && w in S.clients[c].queue :: Session(c, w) in S.pcs)
  }

  // ---- each client ---------------------------------------------------------------------

  /** The answer to the front thread's acquire is RETRY and has not been seen yet. */
  predicate RetryComing(pc: Pc)
  {
    (pc.RevokePending? || pc.RevokeSent? || pc.RevokeHandler? || pc.AcquireReply?) && !pc.granted
  }

  /** The answer to the front thread's acquire is OK and has not been seen yet. */
  predicate GrantComing(pc: Pc)
  {
    (pc.RevokePending? || pc.RevokeSent? || pc.AcquireReply?) && pc.granted
  }

  /** A client in state ACQUIRING, with the front of its queue at pc. */
  predicate AcquiringOk(v: ServerLock, retryDue: bool, c: ClientId, l: ClientLock, pc: Pc)
  {
    || (pc == AcquireSent && (Outside(v, c) || (Chosen(v, c) && !retryDue)) && !l.retryEarlier && !l.revokeLater)
    || (RetryComing(pc) && !l.revokeLater
        && ((c in v.waiters && !l.retryEarlier) || (Chosen(v, c) && (l.retryEarlier <==> !retryDue))))
    || (pc == RetryWait(false) && !l.revokeLater && !l.retryEarlier && (c in v.waiters || (Chosen(v, c) && retryDue)))
    || (pc == RetryWait(true) && !l.revokeLater && l.retryEarlier && Chosen(v, c) && !retryDue)
    || (GrantComing(pc) && Owner(v, c) && !l.retryEarlier)
  }

  /** A client in state RELEASING, with thread s at pc carrying the release. */
  predicate ReleasingOk(v: ServerLock, c: ClientId, l: ClientLock, s: Session, pc: Pc)
  {
    && InRelease(pc)
    && Releaser(s, pc) == c
    && !l.retryEarlier
    && (pc.call == Requested ==> Owner(v, c))
    && (pc.call != Requested ==> Outside(v, c))
    && (l.revokeLater <==> pc.Releasing?)
    && (pc.Releasing? ==> l.queue != [] && l.queue[0] == s.waiter)
  }

  /** Client c, given the Pc of the front of its queue and the thread carrying its release. */
  predicate ClientOk(v: ServerLock, retryDue: bool, c: ClientId, l: ClientLock, front: Option<Pc>,
                     carrier: Option<(Session, Pc)>)
  {
    && (front.None? <==> l.queue == [])
    && (carrier.Some? <==> l.state == LC.Releasing)
    && match l.state
       case NoLock => Outside(v, c) && !l.revokeLater && !l.retryEarlier
                      && (front == None || front == Some(FirstWait(true)) || front == Some(QueueWait(true)))
       case Free => Owner(v, c) && !l.revokeLater && !l.retryEarlier && front == None
       case Locked => Owner(v, c) && !l.retryEarlier && (front == Some(Holding) || front == Some(QueueWait(true)))
       case Acquiring => front.Some? && AcquiringOk(v, retryDue, c, l, front.value)
       case Releasing => carrier.Some? && ReleasingOk(v, c, l, carrier.value.0, carrier.value.1)
                         && (if carrier.value.1.Releasing? then front == Some(carrier.value.1)
                             else front == None || front == Some(FirstWait(false)))
  }

  // ---- each thread ---------------------------------------------------------------------

  predicate ThreadOk(v: ServerLock, W: Carriers, s: Session, pc: Pc)
  {
    && (W.revoker == Some(s) <==> pc.RevokePending? || pc.RevokeSent?)
    && (W.retrier == Some(s) <==> InRelease(pc) && (pc.call.RetryPending? || pc.call.RetrySent?))
    && (pc.RevokePending? ==> pc.decided == v.holder)
    && (pc.RevokeSent? ==> pc.target == v.holder)
    && (pc.RevokeHandler? ==> !pc.granted)
    && (InRelease(pc) ==> Releaser(s, pc) in W.releasers && W.releasers[Releaser(s, pc)] == s)
    && (InRelease(pc) && pc.call.RetryPending? ==> pc.call.decided == v.retryer)
    && (InRelease(pc) && pc.call.RetrySent? ==> pc.call.to == v.retryer)
  }

  // ---- the server ----------------------------------------------------------------------

  ghost predicate ServerOk(S: System, W: Carriers)
  {
    var v := S.server;
    && "" !in S.clients
    && v.waiters <= S.clients.Keys
    && W.releasers.Keys <= S.clients.Keys
    && (forall c | c in W.releasers :: W.releasers[c] in S.pcs)
    && (W.revoker.Some? ==> v.state == Revoking && W.revoker.value in S.pcs)
    && (W.retrier.Some? ==> v.state == Retrying && W.retrier.value in S.pcs)
    && match v.state
       case Free => v.waiters == {}
       case Locked => v.waiters == {} && v.holder in S.clients
                      && !S.clients[v.holder].revokeLater && S.clients[v.holder].state != LC.Releasing
       case Revoking => v.waiters != {} && v.holder in S.clients && v.holder !in v.waiters
                        && (W.revoker.Some? <==>
                              !S.clients[v.holder].revokeLater && S.clients[v.holder].state != LC.Releasing)
       case Retrying => v.retryer in S.clients && v.retryer !in v.waiters
  }

  function Front(S: System, c: ClientId): Option<Pc>
    requires c in S.clients
  {
    var q := S.clients[c].queue;
    if q == [] || Session(c, q[0]) !in S.pcs then None else Some(S.pcs[Session(c, q[0])])
  }

  function Carrier(S: System, W: Carriers, c: ClientId): Option<(Session, Pc)>
  {
    if c !in W.releasers || W.releasers[c] !in S.pcs then None
    else Some((W.releasers[c], S.pcs[W.releasers[c]]))
  }

  /** The invariant of one client, looked up in a state. */
  ghost predicate ClientAt(S: System, W: Carriers, c: ClientId)
    requires c in S.clients
  {
    ClientOk(S.server, W.retrier.Some?, c, S.clients[c], Front(S, c), Carrier(S, W, c))
  }

  ghost predicate ClientsOk(S: System, W: Carriers)
  {
    forall c {:trigger ClientAt(S, W, c)} | c in S.clients :: ClientAt(S, W, c)
  }

  ghost predicate ThreadsOk(S: System, W: Carriers)
  {
    forall s | s in S.pcs :: ThreadOk(S.server, W, s, S.pcs[s])
  }

  ghost predicate Inv(S: System, W: Carriers)
  {
    !S.fault && QueuesOk(S) && ServerOk(S, W) && ThreadsOk(S, W) && ClientsOk(S, W)
  }

  lemma InitEstablishes(S: System)
    requires Init(S)
    ensures Inv(S, Carriers(None, None, map[]))
  {
  }

  // ---- frames --------------------------------------------------------------------------

  lemma PushFacts(q: seq<Waiter>, w: Waiter)
    requires Distinct(q) && w !in q
    ensures Distinct(q + [w])
    ensures forall x :: x in q + [w] <==> x in q || x == w
    ensures (q + [w])[0] == if q == [] then w else q[0]
  {
  }

  lemma PopFacts(q: seq<Waiter>)
    requires Distinct(q) && q != []
    ensures Distinct(q[1..])
    ensures forall x :: x in q[1..] <==> x in q && x != q[0]
  {
    assert q == [q[0]] + q[1..];
  }

  /** A thread that is not asleep behind another is the front of its queue. */
  lemma FrontIs(S: System, s: Session)
    requires QueuesOk(S) && s in S.pcs && S.pcs[s] != QueueWait(false)
    ensures s.client in S.clients && S.clients[s.client].queue != [] && S.clients[s.client].queue[0] == s.waiter
    ensures Front(S, s.client) == Some(S.pcs[s])
  {
  }

  /** Queues stay, and only threads at the front of a queue move. */
  lemma QueuesKept(S: System, S': System)
    requires QueuesOk(S)
    requires S'.clients.Keys == S.clients.Keys && S'.pcs.Keys == S.pcs.Keys
    requires forall c | c in S.clients :: S'.clients[c].queue == S.clients[c].queue
    requires forall t | t in S.pcs :: S'.pcs[t] == S.pcs[t] || t.waiter == S.clients[t.client].queue[0]
    ensures QueuesOk(S')
  {
  }

  lemma QueuesPushed(S: System, S': System, s: Session, q: seq<Waiter>)
    requires QueuesOk(S) && s.client in S.clients && s !in S.pcs
    requires q == S.clients[s.client].queue
    requires s.client in S'.clients && S'.clients == S.clients[s.client := S'.clients[s.client]]
    requires s in S'.pcs && S'.pcs == S.pcs[s := S'.pcs[s]]
    requires S'.clients[s.client].queue == q + [s.waiter]
    requires q != [] ==> S'.pcs[s] == QueueWait(false)
    ensures QueuesOk(S')
  {
    PushFacts(q, s.waiter);
  }

  /** What a step may do to a client outside A: change its role at the server. */
  ghost predicate StableOutside(S: System, S': System, W: Carriers, W': Carriers, A: set<ClientId>)
  {
    forall c | c in S.clients && c !in A && ClientAt(S, W, c) ::
      ClientOk(S'.server, W'.retrier.Some?, c, S.clients[c], Front(S, c), Carrier(S, W, c))
  }

  /** Clients outside A are framed: only threads in `moved` changed, and they are about A. */
  lemma ClientsFramed(S: System, S': System, W: Carriers, W': Carriers, A: set<ClientId>, moved: set<Session>)
    requires ClientsOk(S, W) && S'.clients.Keys == S.clients.Keys
    requires forall c | c in S.clients && c !in A :: S'.clients[c] == S.clients[c]
    requires forall c | c !in A ::
      (c in W'.releasers <==> c in W.releasers) && (c in W.releasers ==> W'.releasers[c] == W.releasers[c])
    requires forall t | t !in moved :: (t in S'.pcs <==> t in S.pcs) && (t in S.pcs ==> S'.pcs[t] == S.pcs[t])
    requires forall t | t in moved ::
      t.client in A && (t in S.pcs && InRelease(S.pcs[t]) ==> Releaser(t, S.pcs[t]) in A)
    requires forall c | c in W.releasers :: W.releasers[c] in S.pcs
    requires StableOutside(S, S', W, W', A)
    requires forall c | c in S.clients && c in A :: ClientAt(S', W', c)
    ensures ClientsOk(S', W')
  {
    forall c | c in S'.clients
      ensures ClientAt(S', W', c)
    {
      if c !in A {
        assert ClientAt(S, W, c);
        assert Front(S', c) == Front(S, c) && Carrier(S', W', c) == Carrier(S, W, c);
      }
    }
  }

  // ---- acquire -------------------------------------------------------------------------

  lemma StartedClient(v: ServerLock, due: bool, c: ClientId, l: ClientLock, front: Option<Pc>,
                      carrier: Option<(Session, Pc)>, w: Waiter)
    requires ClientOk(v, due, c, l, front, carrier)
    ensures var r := LC.EnterAcquire(l, w);
            ClientOk(v, due, c, r.lock, if l.queue == [] then Some(PcAfter(r.exit)) else front, carrier)
  {
  }

  lemma StartClient(S: System, W: Carriers, s: Session)
    requires QueuesOk(S) && CanStart(S, s) && ClientAt(S, W, s.client)
    requires forall c | c in W.releasers :: W.releasers[c] in S.pcs
    ensures ClientAt(Start(S, s), W, s.client)
  {
    var S', c := Start(S, s), s.client;
    assert Carrier(S', W, c) == Carrier(S, W, c);
    assert Front(S', c) == if S.clients[c].queue == [] then Some(S'.pcs[s]) else Front(S, c);
    StartedClient(S.server, W.retrier.Some?, c, S.clients[c], Front(S, c), Carrier(S, W, c), s.waiter);
  }

  lemma StartRest(S: System, W: Carriers, s: Session)
    requires ServerOk(S, W) && ThreadsOk(S, W) && CanStart(S, s)
    ensures ServerOk(Start(S, s), W) && ThreadsOk(Start(S, s), W)
  {
  }

  lemma StartClients(S: System, W: Carriers, s: Session)
    requires QueuesOk(S) && ClientsOk(S, W) && CanStart(S, s)
    requires forall c | c in W.releasers :: W.releasers[c] in S.pcs
    ensures ClientsOk(Start(S, s), W)
  {
    StartClient(S, W, s);
    ClientsFramed(S, Start(S, s), W, W, {s.client}, {s});
  }

  lemma StartPreserves(S: System, W: Carriers, s: Session)
    requires Inv(S, W) && CanStart(S, s)
    ensures Inv(Start(S, s), W)
  {
    QueuesPushed(S, Start(S, s), s, S.clients[s.client].queue);
    StartRest(S, W, s);
    StartClients(S, W, s);
  }

  /** How a thread inside acquire goes on when it has the mutex again. */
  predicate InAcquire(pc: Pc)
  {
    pc == FirstWait(true) || pc == QueueWait(true) || pc == RetryWait(true) || pc.AcquireReply?
  }

  function ResumeRegion(l: ClientLock, pc: Pc): Region
    requires InAcquire(pc)
  {
    match pc
    case FirstWait(_) => LC.AfterFirstWait(l)
    case QueueWait(_) => LC.AfterQueueWait(l)
    case RetryWait(_) => LC.AfterRetryWait(l)
    case AcquireReply(granted) => LC.AfterReply(l, granted)
  }

  predicate ResumesWell(l: ClientLock, r: Region)
  {
    && r.exit in {LC.Return, LC.CallAcquire, LC.SleepRetry} && !r.signal
    && r.lock.queue == l.queue && r.lock.revokeLater == l.revokeLater
    && l.state != LC.Releasing && r.lock.state != LC.Releasing
  }

  lemma ResumedClient(v: ServerLock, due: bool, c: ClientId, l: ClientLock, pc: Pc, carrier: Option<(Session, Pc)>)
    requires ClientOk(v, due, c, l, Some(pc), carrier) && InAcquire(pc)
    ensures var r := ResumeRegion(l, pc);
            ResumesWell(l, r) && ClientOk(v, due, c, r.lock, Some(PcAfter(r.exit)), carrier)
  {
  }

  lemma ResumeRest(S: System, W: Carriers, s: Session, r: Region)
    requires ServerOk(S, W) && ThreadsOk(S, W) && CanAdvance(S, s)
    requires InAcquire(S.pcs[s]) && ResumesWell(S.clients[s.client], r)
    ensures ServerOk(Resume(S, s, r), W) && ThreadsOk(Resume(S, s, r), W)
  {
  }

  lemma ResumeAffected(S: System, W: Carriers, s: Session, r: Region)
    requires QueuesOk(S) && CanAdvance(S, s)
    requires InAcquire(S.pcs[s]) && ResumesWell(S.clients[s.client], r) && ClientAt(S, W, s.client)
    requires ClientOk(S.server, W.retrier.Some?, s.client, r.lock, Some(PcAfter(r.exit)), Carrier(S, W, s.client))
    ensures ClientAt(Resume(S, s, r), W, s.client)
  {
    FrontIs(S, s);
    assert Carrier(Resume(S, s, r), W, s.client) == Carrier(S, W, s.client);
  }

  lemma ResumeClients(S: System, W: Carriers, s: Session, r: Region)
    requires ClientsOk(S, W) && CanAdvance(S, s) && ClientAt(Resume(S, s, r), W, s.client)
    requires InAcquire(S.pcs[s]) && ResumesWell(S.clients[s.client], r)
    requires forall c | c in W.releasers :: W.releasers[c] in S.pcs
    ensures ClientsOk(Resume(S, s, r), W)
  {
    ClientsFramed(S, Resume(S, s, r), W, W, {s.client}, {s});
  }

  lemma ResumeQueues(S: System, s: Session, r: Region)
    requires QueuesOk(S) && CanAdvance(S, s)
    requires InAcquire(S.pcs[s]) && ResumesWell(S.clients[s.client], r)
    ensures QueuesOk(Resume(S, s, r))
  {
    QueuesKept(S, Resume(S, s, r));
  }

  lemma ResumeSelf(S: System, W: Carriers, s: Session, r: Region)
    requires QueuesOk(S) && CanAdvance(S, s) && ClientAt(S, W, s.client)
    requires InAcquire(S.pcs[s]) && r == ResumeRegion(S.clients[s.client], S.pcs[s])
    ensures ResumesWell(S.clients[s.client], r)
    ensures ClientOk(S.server, W.retrier.Some?, s.client, r.lock, Some(PcAfter(r.exit)), Carrier(S, W, s.client))
  {
    FrontIs(S, s);
    ResumedClient(S.server, W.retrier.Some?, s.client, S.clients[s.client], S.pcs[s], Carrier(S, W, s.client));
  }

  lemma ResumeIs(S: System, s: Session)
    requires CanAdvance(S, s) && InAcquire(S.pcs[s])
    ensures Advance(S, s) == Resume(S, s, ResumeRegion(S.clients[s.client], S.pcs[s]))
  {
  }

  lemma ResumePreserves(S: System, W: Carriers, s: Session)
    requires Inv(S, W) && CanAdvance(S, s) && InAcquire(S.pcs[s])
    ensures Inv(Advance(S, s), W)
  {
    var r := ResumeRegion(S.clients[s.client], S.pcs[s]);
    assert ClientAt(S, W, s.client);
    ResumeIs(S, s);
    ResumeSelf(S, W, s, r);
    ResumeQueues(S, s, r);
    ResumeRest(S, W, s, r);
    ResumeAffected(S, W, s, r);
    ResumeClients(S, W, s, r);
  }

  // ---- the acquire RPC -----------------------------------------------------------------

  /** S' is S with thread s at pc, and possibly another server record. */
  ghost predicate MovesTo(S: System, S': System, s: Session, pc: Pc)
  {
    s in S.pcs && S' == S.(server := S'.server, pcs := S.pcs[s := pc])
  }

  lemma MoveQueues(S: System, S': System, s: Session, pc: Pc)
    requires QueuesOk(S) && MovesTo(S, S', s, pc) && S.pcs[s] != QueueWait(false)
    ensures QueuesOk(S')
  {
    QueuesKept(S, S');
  }

  /** What a thread's move changes about the clients' views. */
  lemma MoveViews(S: System, S': System, W: Carriers, s: Session, pc: Pc)
    requires QueuesOk(S) && MovesTo(S, S', s, pc) && S.pcs[s] != QueueWait(false)
    ensures Front(S', s.client) == Some(pc)
    ensures forall c | c in S.clients && c != s.client :: Front(S', c) == Front(S, c)
    ensures forall c ::
      Carrier(S', W, c) == if c in W.releasers && W.releasers[c] == s then Some((s, pc)) else Carrier(S, W, c)
  {
    FrontIs(S, s);
  }

  lemma AnsweredClient(v: ServerLock, due: bool, c: ClientId, l: ClientLock, carrier: Option<(Session, Pc)>)
    requires ClientOk(v, due, c, l, Some(AcquireSent), carrier) && AcquireRegion(v, c).Answer?
    ensures var a := AcquireRegion(v, c);
            var pc := if a.revoke then RevokePending(a.granted, a.lock.holder) else AcquireReply(a.granted);
            ClientOk(a.lock, due, c, l, Some(pc), carrier)
  {
  }

  lemma AnsweredOther(v: ServerLock, due: bool, c: ClientId, d: ClientId, l: ClientLock, front: Option<Pc>,
                      carrier: Option<(Session, Pc)>)
    requires ClientOk(v, due, d, l, front, carrier) && AcquireRegion(v, c).Answer? && d != c
    ensures ClientOk(AcquireRegion(v, c).lock, due, d, l, front, carrier)
  {
  }

  /** None of the VERIFYs of acquire fails. */
  lemma AcquireAnswered(S: System, W: Carriers, s: Session)
    requires QueuesOk(S) && ServerOk(S, W) && s in S.pcs && S.pcs[s] == AcquireSent && s.client in S.clients
    requires ClientAt(S, W, s.client)
    ensures AcquireRegion(S.server, s.client).Answer?
    ensures !Owner(S.server, s.client) && s.client !in S.server.waiters
    ensures !S.clients[s.client].revokeLater && S.clients[s.client].state == LC.Acquiring
    ensures W.retrier.Some? ==> !Chosen(S.server, s.client)
  {
    FrontIs(S, s);
  }

  function AfterAnswer(S: System, W: Carriers, s: Session): Carriers
    requires AcquireRegion(S.server, s.client).Answer?
  {
    if AcquireRegion(S.server, s.client).revoke then W.(revoker := Some(s)) else W
  }

  lemma AnswerServer(S: System, W: Carriers, s: Session)
    requires QueuesOk(S) && ServerOk(S, W) && s in S.pcs && S.pcs[s] == AcquireSent
    requires s.client in S.clients && ClientAt(S, W, s.client) && AcquireRegion(S.server, s.client).Answer?
    ensures ServerOk(ServerAcquire(S, s), AfterAnswer(S, W, s))
  {
    AcquireAnswered(S, W, s);
  }

  /** What the answer does to a thread's part of the invariant. */
  lemma AnsweredThread(v: ServerLock, W: Carriers, s: Session, x: Session, pc: Pc)
    requires ThreadOk(v, W, x, pc) && AcquireRegion(v, s.client).Answer? && x != s
    requires v.state != Revoking ==> W.revoker == None
    requires v.state != Retrying || v.retryer == s.client ==> W.retrier == None
    ensures var a := AcquireRegion(v, s.client);
            ThreadOk(a.lock, if a.revoke then W.(revoker := Some(s)) else W, x, pc)
  {
  }

  lemma AnswerThreads(S: System, W: Carriers, s: Session)
    requires QueuesOk(S) && ServerOk(S, W) && ThreadsOk(S, W) && s in S.pcs && S.pcs[s] == AcquireSent
    requires s.client in S.clients && ClientAt(S, W, s.client) && AcquireRegion(S.server, s.client).Answer?
    ensures ThreadsOk(ServerAcquire(S, s), AfterAnswer(S, W, s))
  {
    AcquireAnswered(S, W, s);
    var S', W' := ServerAcquire(S, s), AfterAnswer(S, W, s);
    forall x | x in S'.pcs && x != s ensures ThreadOk(S'.server, W', x, S'.pcs[x]) {
      AnsweredThread(S.server, W, s, x, S.pcs[x]);
    }
    assert ThreadOk(S.server, W, s, S.pcs[s]);
  }

  lemma AnswerClients(S: System, W: Carriers, s: Session)
    requires QueuesOk(S) && ClientsOk(S, W) && s in S.pcs && S.pcs[s] == AcquireSent
    requires s.client in S.clients && AcquireRegion(S.server, s.client).Answer?
    requires forall c | c in W.releasers :: W.releasers[c] in S.pcs
    ensures ClientsOk(ServerAcquire(S, s), AfterAnswer(S, W, s))
  {
    var S', W', c := ServerAcquire(S, s), AfterAnswer(S, W, s), s.client;
    FrontIs(S, s);
    assert ClientAt(S, W, c);
    AnsweredClient(S.server, W.retrier.Some?, c, S.clients[c], Carrier(S, W, c));
    MoveViews(S, S', W, s, S'.pcs[s]);
    forall d | d in S.clients && d !in {c} && ClientAt(S, W, d)
      ensures ClientOk(S'.server, W'.retrier.Some?, d, S.clients[d], Front(S, d), Carrier(S, W, d))
    {
      AnsweredOther(S.server, W.retrier.Some?, c, d, S.clients[d], Front(S, d), Carrier(S, W, d));
    }
    ClientsFramed(S, S', W, W', {c}, {s});
  }

  lemma AnswerPreserves(S: System, W: Carriers, s: Session)
    requires Inv(S, W) && CanAdvance(S, s) && S.pcs[s] == AcquireSent
    ensures AcquireRegion(S.server, s.client).Answer?
    ensures Inv(Advance(S, s), AfterAnswer(S, W, s))
  {
    assert ClientAt(S, W, s.client);
    AcquireAnswered(S, W, s);
    MoveQueues(S, ServerAcquire(S, s), s, ServerAcquire(S, s).pcs[s]);
    AnswerServer(S, W, s);
    AnswerThreads(S, W, s);
    AnswerClients(S, W, s);
  }

  /** The answer on its way to a client stays the same. */
  lemma SameAnswer(v: ServerLock, due: bool, c: ClientId, l: ClientLock, pc: Pc, pc': Pc,
                   carrier: Option<(Session, Pc)>)
    requires ClientOk(v, due, c, l, Some(pc), carrier)
    requires (RetryComing(pc) && RetryComing(pc')) || (GrantComing(pc) && GrantComing(pc'))
    ensures ClientOk(v, due, c, l, Some(pc'), carrier)
    ensures l.state == LC.Acquiring && carrier == None
  {
  }

  lemma SendRevokeRest(S: System, W: Carriers, s: Session)
    requires ServerOk(S, W) && ThreadsOk(S, W) && CanAdvance(S, s) && S.pcs[s].RevokePending?
    ensures ServerOk(Advance(S, s), W) && ThreadsOk(Advance(S, s), W)
  {
  }

  lemma SendRevokeClients(S: System, W: Carriers, s: Session)
    requires QueuesOk(S) && ClientsOk(S, W) && CanAdvance(S, s) && S.pcs[s].RevokePending?
    requires forall c | c in W.releasers :: W.releasers[c] in S.pcs
    ensures ClientsOk(Advance(S, s), W)
  {
    var S', c := Advance(S, s), s.client;
    FrontIs(S, s);
    assert ClientAt(S, W, c);
    SameAnswer(S.server, W.retrier.Some?, c, S.clients[c], S.pcs[s], S'.pcs[s], Carrier(S, W, c));
    MoveViews(S, S', W, s, S'.pcs[s]);
    ClientsFramed(S, S', W, W, {c}, {s});
  }

  lemma SendRevokePreserves(S: System, W: Carriers, s: Session)
    requires Inv(S, W) && CanAdvance(S, s) && S.pcs[s].RevokePending?
    ensures Inv(Advance(S, s), W)
  {
    MoveQueues(S, Advance(S, s), s, Advance(S, s).pcs[s]);
    SendRevokeRest(S, W, s);
    SendRevokeClients(S, W, s);
  }

  // ---- a revoke arrives ----------------------------------------------------------------

  function AfterRevoke(S: System, W: Carriers, s: Session, t: ClientId): Carriers
    requires t in S.clients
  {
    if S.clients[t].state == LC.Free then W.(revoker := None, releasers := W.releasers[t := s]) else W.(revoker := None)
  }

  function PcAfterRevoke(l: ClientLock, t: ClientId, granted: bool): Pc
  {
    if l.state == LC.Free then RevokeHandler(t, granted, Requested) else AcquireReply(granted)
  }

  /** The revoked client; `self` says the thread belongs to it and is the front of its queue. */
  lemma RevokedClient(v: ServerLock, c: ClientId, l: ClientLock, front: Option<Pc>, s: Session, granted: bool,
                      self: bool)
    requires ClientOk(v, false, c, l, front, None) && Owner(v, c) && c !in v.waiters && !l.revokeLater
    requires self ==> front == Some(RevokeSent(c, granted)) && granted
    ensures self ==> l.state != LC.Free
    ensures var pc := PcAfterRevoke(l, c, granted);
            ClientOk(v, false, c, LC.HandleRevoke(l).lock, if self then Some(pc) else front,
                     if l.state == LC.Free then Some((s, pc)) else None)
  {
  }

  /** What is known when the revoke is delivered. */
  lemma RevokeFacts(S: System, W: Carriers, s: Session)
    requires QueuesOk(S) && ServerOk(S, W) && s in S.pcs && S.pcs[s].RevokeSent? && ThreadOk(S.server, W, s, S.pcs[s])
    requires s.client in S.clients && ClientAt(S, W, s.client)
    ensures W.revoker == Some(s) && W.retrier == None && S.pcs[s].target == S.server.holder
    ensures S.server.holder in S.clients
    ensures var t := S.server.holder;
            Owner(S.server, t) && !S.clients[t].revokeLater && S.clients[t].state != LC.Releasing
            && (S.pcs[s].granted <==> s.client == t)
            && S.clients[s.client].state == LC.Acquiring
  {
    FrontIs(S, s);
  }

  lemma DeliverRevokeRest(S: System, W: Carriers, s: Session, t: ClientId)
    requires ServerOk(S, W) && ThreadsOk(S, W) && CanAdvance(S, s) && S.pcs[s].RevokeSent?
    requires W.revoker == Some(s) && t == S.pcs[s].target == S.server.holder && t in S.clients
    requires Owner(S.server, t) && t !in W.releasers && (S.pcs[s].granted <==> s.client == t)
    requires S.clients[s.client].state == LC.Acquiring
    ensures ServerOk(Advance(S, s), AfterRevoke(S, W, s, t)) && ThreadsOk(Advance(S, s), AfterRevoke(S, W, s, t))
  {
  }

  lemma DeliverRevokeIs(S: System, s: Session, t: ClientId)
    requires CanAdvance(S, s) && S.pcs[s].RevokeSent? && t == S.pcs[s].target && t in S.clients
    ensures Advance(S, s).clients == S.clients[t := LC.HandleRevoke(S.clients[t]).lock]
    ensures Advance(S, s).pcs == S.pcs[s := PcAfterRevoke(S.clients[t], t, S.pcs[s].granted)]
  {
  }

  lemma QueuesMoved(S: System, S': System, s: Session, pc: Pc, t: ClientId, l: ClientLock)
    requires QueuesOk(S) && s in S.pcs && S.pcs[s] != QueueWait(false)
    requires t in S.clients && l.queue == S.clients[t].queue && S'.clients == S.clients[t := l]
    requires S'.pcs == S.pcs[s := pc]
    ensures QueuesOk(S')
  {
    QueuesKept(S, S');
  }

  lemma DeliverRevokeQueues(S: System, s: Session, t: ClientId)
    requires QueuesOk(S) && CanAdvance(S, s) && S.pcs[s].RevokeSent? && t == S.pcs[s].target && t in S.clients
    ensures QueuesOk(Advance(S, s))
  {
    DeliverRevokeIs(S, s, t);
    QueuesMoved(S, Advance(S, s), s, PcAfterRevoke(S.clients[t], t, S.pcs[s].granted), t,
                LC.HandleRevoke(S.clients[t]).lock);
  }

  /** The clients' views once the revoke is delivered. */
  lemma DeliverRevokeViews(S: System, W: Carriers, s: Session, t: ClientId)
    requires QueuesOk(S) && CanAdvance(S, s) && S.pcs[s].RevokeSent? && t == S.pcs[s].target && t in S.clients
    requires t !in W.releasers && s.client !in W.releasers
    ensures var S', W' := Advance(S, s), AfterRevoke(S, W, s, t);
            var pc := PcAfterRevoke(S.clients[t], t, S.pcs[s].granted);
            && S'.clients == S.clients[t := LC.HandleRevoke(S.clients[t]).lock]
            && S'.pcs == S.pcs[s := pc]
            && Front(S', s.client) == Some(pc)
            && Front(S', t) == (if t == s.client then Some(pc) else Front(S, t))
            && Carrier(S', W', t) == (if S.clients[t].state == LC.Free then Some((s, pc)) else None)
            && (s.client != t ==> Carrier(S', W', s.client) == None)
  {
    FrontIs(S, s);
  }

  lemma DeliverRevokeAffected(S: System, W: Carriers, s: Session, t: ClientId)
    requires QueuesOk(S) && CanAdvance(S, s) && S.pcs[s].RevokeSent?
    requires W.retrier == None && t == S.pcs[s].target == S.server.holder && t in S.clients
    requires Owner(S.server, t) && t !in S.server.waiters && !S.clients[t].revokeLater && t !in W.releasers
    requires s.client !in W.releasers
    requires S.pcs[s].granted <==> s.client == t
    requires ClientAt(S, W, t) && ClientAt(S, W, s.client)
    ensures ClientAt(Advance(S, s), AfterRevoke(S, W, s, t), t)
    ensures ClientAt(Advance(S, s), AfterRevoke(S, W, s, t), s.client)
  {
    var granted := S.pcs[s].granted;
    FrontIs(S, s);
    RevokedClient(S.server, t, S.clients[t], Front(S, t), s, granted, s.client == t);
    if s.client != t {
      SameAnswer(S.server, false, s.client, S.clients[s.client], S.pcs[s], PcAfterRevoke(S.clients[t], t, granted),
                 None);
    }
    DeliverRevokeViews(S, W, s, t);
  }

  lemma DeliverRevokeClients(S: System, W: Carriers, s: Session, t: ClientId)
    requires ClientsOk(S, W) && CanAdvance(S, s) && S.pcs[s].RevokeSent? && t == S.pcs[s].target && t in S.clients
    requires ClientAt(Advance(S, s), AfterRevoke(S, W, s, t), t)
    requires ClientAt(Advance(S, s), AfterRevoke(S, W, s, t), s.client)
    requires W.retrier == None && forall c | c in W.releasers :: W.releasers[c] in S.pcs
    ensures ClientsOk(Advance(S, s), AfterRevoke(S, W, s, t))
  {
    ClientsFramed(S, Advance(S, s), W, AfterRevoke(S, W, s, t), {t, s.client}, {s});
  }

  lemma DeliverRevokePreserves(S: System, W: Carriers, s: Session)
    requires Inv(S, W) && CanAdvance(S, s) && S.pcs[s].RevokeSent?
    ensures S.pcs[s].target in S.clients
    ensures Inv(Advance(S, s), AfterRevoke(S, W, s, S.pcs[s].target))
  {
    assert ClientAt(S, W, s.client);
    RevokeFacts(S, W, s);
    var t := S.pcs[s].target;
    assert ClientAt(S, W, t);
    DeliverRevokeRest(S, W, s, t);
    DeliverRevokeAffected(S, W, s, t);
    DeliverRevokeClients(S, W, s, t);
    DeliverRevokeQueues(S, s, t);
  }

  // ---- the release RPC -----------------------------------------------------------------

  /** The client giving up the lock, as its release call moves from pc to pc'. */
  lemma CarriedClient(v: ServerLock, v': ServerLock, due: bool, due': bool, c: ClientId, l: ClientLock,
                      front: Option<Pc>, s: Session, pc: Pc, pc': Pc)
    requires ClientOk(v, due, c, l, front, Some((s, pc))) && InRelease(pc)
    requires InRelease(pc') && pc' == pc.(call := pc'.call) && pc'.call != Requested && Outside(v', c)
    ensures ClientOk(v', due', c, l, if pc.Releasing? then Some(pc') else front, Some((s, pc')))
  {
  }

  /** What is known of a thread inside a release call. */
  lemma CallFacts(S: System, W: Carriers, s: Session, t: ClientId)
    requires QueuesOk(S) && s in S.pcs && InRelease(S.pcs[s]) && t == Releaser(s, S.pcs[s])
    requires ThreadOk(S.server, W, s, S.pcs[s]) && W.releasers.Keys <= S.clients.Keys
    requires s.client in S.clients && ClientAt(S, W, s.client) && (t in S.clients ==> ClientAt(S, W, t))
    ensures t in S.clients && Carrier(S, W, t) == Some((s, S.pcs[s])) && S.clients[t].state == LC.Releasing
    ensures S.pcs[s].call == Requested ==> Owner(S.server, t)
    ensures S.pcs[s].call != Requested ==> Outside(S.server, t)
    ensures t == s.client <==> S.pcs[s].Releasing?
    ensures S.pcs[s].Releasing? ==> Front(S, t) == Some(S.pcs[s])
    ensures S.pcs[s].RevokeHandler? ==> S.clients[s.client].state == LC.Acquiring
  {
    FrontIs(S, s);
  }

  /** Thread s moves inside its release call: its own client and the releasing one are affected. */
  lemma CallClients(S: System, S': System, W: Carriers, W': Carriers, s: Session, t: ClientId, pc: Pc)
    requires ClientsOk(S, W) && MovesTo(S, S', s, pc) && InRelease(S.pcs[s]) && t == Releaser(s, S.pcs[s])
    requires W'.releasers == W.releasers && forall c | c in W.releasers :: W.releasers[c] in S.pcs
    requires StableOutside(S, S', W, W', {t, s.client})
    requires t in S.clients && s.client in S.clients && ClientAt(S', W', t) && ClientAt(S', W', s.client)
    ensures ClientsOk(S', W')
  {
    ClientsFramed(S, S', W, W', {t, s.client}, {s});
  }

  lemma ReleasedOther(v: ServerLock, c: ClientId, d: ClientId, l: ClientLock, front: Option<Pc>,
                      carrier: Option<(Session, Pc)>)
    requires ClientOk(v, false, d, l, front, carrier) && ReleaseRegion(v, c).Released? && d != c
    ensures ClientOk(ReleaseRegion(v, c).lock, true, d, l, front, carrier)
  {
  }

  lemma ReleaseRest(S: System, W: Carriers, s: Session, t: ClientId)
    requires ServerOk(S, W) && ThreadsOk(S, W) && s in S.pcs && InRelease(S.pcs[s]) && t == Releaser(s, S.pcs[s])
    requires S.pcs[s].call == Requested && Owner(S.server, t) && S.clients[t].state == LC.Releasing
    ensures ReleaseRegion(S.server, t).Released? && W.retrier == None && t !in S.server.waiters
    ensures var S', W' := ServerRelease(S, s, S.pcs[s]), W.(retrier := Some(s));
            ServerOk(S', W') && ThreadsOk(S', W')
  {
  }

  lemma ReleaseAffected(S: System, W: Carriers, s: Session, t: ClientId)
    requires QueuesOk(S) && s in S.pcs && InRelease(S.pcs[s]) && t == Releaser(s, S.pcs[s])
    requires S.pcs[s].call == Requested
    requires t in S.clients && s.client in S.clients && ClientAt(S, W, t) && ClientAt(S, W, s.client)
    requires Carrier(S, W, t) == Some((s, S.pcs[s])) && (t == s.client <==> S.pcs[s].Releasing?)
    requires ReleaseRegion(S.server, t).Released? && W.retrier == None && t !in S.server.waiters
    requires ThreadOk(S.server, W, s, S.pcs[s])
    ensures var S', W' := ServerRelease(S, s, S.pcs[s]), W.(retrier := Some(s));
            ClientAt(S', W', t) && ClientAt(S', W', s.client)
  {
    var S', W', pc := ServerRelease(S, s, S.pcs[s]), W.(retrier := Some(s)), S.pcs[s];
    FrontIs(S, s);
    MoveViews(S, S', W, s, S'.pcs[s]);
    CarriedClient(S.server, S'.server, false, true, t, S.clients[t], Front(S, t), s, pc, S'.pcs[s]);
    if t != s.client {
      ReleasedOther(S.server, t, s.client, S.clients[s.client], Front(S, s.client), Carrier(S, W, s.client));
      SameAnswer(S'.server, true, s.client, S.clients[s.client], pc, S'.pcs[s], Carrier(S, W, s.client));
    }
  }

  lemma ReleaseStable(S: System, W: Carriers, s: Session, t: ClientId)
    requires s in S.pcs && InRelease(S.pcs[s]) && t == Releaser(s, S.pcs[s]) && S.pcs[s].call == Requested
    requires ReleaseRegion(S.server, t).Released? && W.retrier == None
    ensures StableOutside(S, ServerRelease(S, s, S.pcs[s]), W, W.(retrier := Some(s)), {t, s.client})
  {
    forall d | d in S.clients && d !in {t, s.client} && ClientAt(S, W, d)
      ensures ClientOk(ServerRelease(S, s, S.pcs[s]).server, true, d, S.clients[d], Front(S, d), Carrier(S, W, d))
    {
      ReleasedOther(S.server, t, d, S.clients[d], Front(S, d), Carrier(S, W, d));
    }
  }

  lemma ReleasePreserves(S: System, W: Carriers, s: Session)
    requires Inv(S, W) && CanAdvance(S, s) && InRelease(S.pcs[s]) && S.pcs[s].call == Requested
    ensures Inv(ServerRelease(S, s, S.pcs[s]), W.(retrier := Some(s)))
  {
    var t, S' := Releaser(s, S.pcs[s]), ServerRelease(S, s, S.pcs[s]);
    assert ClientAt(S, W, s.client) && (t in S.clients ==> ClientAt(S, W, t));
    CallFacts(S, W, s, t);
    ReleaseRest(S, W, s, t);
    ReleaseAffected(S, W, s, t);
    ReleaseStable(S, W, s, t);
    MoveQueues(S, S', s, S'.pcs[s]);
    CallClients(S, S', W, W.(retrier := Some(s)), s, t, S'.pcs[s]);
  }

  // ---- sending the retry ---------------------------------------------------------------

  function RetryOnItsWay(S: System, s: Session): System
    requires s in S.pcs && InRelease(S.pcs[s])
  {
    S.(pcs := S.pcs[s := S.pcs[s].(call := RetrySent(S.server.retryer))])
  }

  lemma SendRetryRest(S: System, W: Carriers, s: Session)
    requires ServerOk(S, W) && ThreadsOk(S, W) && s in S.pcs && InRelease(S.pcs[s]) && S.pcs[s].call.RetryPending?
    ensures ServerOk(RetryOnItsWay(S, s), W) && ThreadsOk(RetryOnItsWay(S, s), W)
  {
  }

  lemma SendRetryAffected(S: System, W: Carriers, s: Session, t: ClientId)
    requires QueuesOk(S) && s in S.pcs && InRelease(S.pcs[s]) && t == Releaser(s, S.pcs[s])
    requires S.pcs[s].call.RetryPending?
    requires t in S.clients && s.client in S.clients && ClientAt(S, W, t) && ClientAt(S, W, s.client)
    requires Carrier(S, W, t) == Some((s, S.pcs[s])) && (t == s.client <==> S.pcs[s].Releasing?)
    requires Outside(S.server, t) && ThreadOk(S.server, W, s, S.pcs[s])
    ensures ClientAt(RetryOnItsWay(S, s), W, t) && ClientAt(RetryOnItsWay(S, s), W, s.client)
  {
    var S', pc := RetryOnItsWay(S, s), S.pcs[s];
    FrontIs(S, s);
    MoveViews(S, S', W, s, S'.pcs[s]);
    CarriedClient(S.server, S.server, W.retrier.Some?, W.retrier.Some?, t, S.clients[t], Front(S, t), s, pc, S'.pcs[s]);
    if t != s.client {
      SameAnswer(S.server, W.retrier.Some?, s.client, S.clients[s.client], pc, S'.pcs[s], Carrier(S, W, s.client));
    }
  }

  lemma SendRetryPreserves(S: System, W: Carriers, s: Session)
    requires Inv(S, W) && CanAdvance(S, s) && InRelease(S.pcs[s]) && S.pcs[s].call.RetryPending?
    ensures Inv(RetryOnItsWay(S, s), W)
  {
    var t, S' := Releaser(s, S.pcs[s]), RetryOnItsWay(S, s);
    assert ClientAt(S, W, s.client) && (t in S.clients ==> ClientAt(S, W, t));
    CallFacts(S, W, s, t);
    SendRetryRest(S, W, s);
    SendRetryAffected(S, W, s, t);
    MoveQueues(S, S', s, S'.pcs[s]);
    CallClients(S, S', W, W, s, t, S'.pcs[s]);
  }

  // ---- a retry arrives -----------------------------------------------------------------

  /** S' is S after thread s moved to pc and client u changed its record and signalled its front. */
  ghost predicate Signals(S: System, S': System, s: Session, pc: Pc, u: ClientId)
  {
    && s in S.pcs && u in S.clients && u in S'.clients
    && S'.clients == S.clients[u := S'.clients[u]] && S'.clients[u].queue == S.clients[u].queue
    && S'.pcs == SignalFront(S.pcs[s := pc], u, S.clients[u].queue)
  }

  lemma SignalViews(S: System, S': System, s: Session, pc: Pc, u: ClientId)
    requires QueuesOk(S) && Signals(S, S', s, pc, u) && S.pcs[s] != QueueWait(false)
    ensures Front(S', u) == if u == s.client then Some(Woken(pc))
                            else if Front(S, u) == None then None else Some(Woken(Front(S, u).value))
    ensures s.client != u ==> Front(S', s.client) == Some(pc)
    ensures S'.pcs.Keys == S.pcs.Keys
    ensures !pc.FirstWait? && !pc.QueueWait? && !pc.RetryWait? ==> S'.pcs[s] == pc
  {
    FrontIs(S, s);
  }

  lemma SignalQueues(S: System, S': System, s: Session, pc: Pc, u: ClientId)
    requires QueuesOk(S) && Signals(S, S', s, pc, u) && S.pcs[s] != QueueWait(false)
    ensures QueuesOk(S')
  {
    FrontIs(S, s);
    QueuesKept(S, S');
  }

  /** The front thread of a client, if it can be woken. */
  function SleepingFront(S: System, u: ClientId): set<Session>
    requires u in S.clients
  {
    match Front(S, u)
    case Some(FirstWait(_)) => {Session(u, S.clients[u].queue[0])}
    case Some(QueueWait(_)) => {Session(u, S.clients[u].queue[0])}
    case Some(RetryWait(_)) => {Session(u, S.clients[u].queue[0])}
    case _ => {}
  }

  lemma SignalMoves(S: System, S': System, s: Session, pc: Pc, u: ClientId)
    requires Signals(S, S', s, pc, u)
    ensures forall x | x !in {s} + SleepingFront(S, u) ::
      (x in S'.pcs <==> x in S.pcs) && (x in S.pcs ==> S'.pcs[x] == S.pcs[x])
    ensures forall x | x in SleepingFront(S, u) :: x.client == u && x in S.pcs && !InRelease(S.pcs[x])
  {
  }

  lemma SignalClients(S: System, S': System, W: Carriers, W': Carriers, s: Session, pc: Pc, u: ClientId,
                      A: set<ClientId>)
    requires ClientsOk(S, W) && Signals(S, S', s, pc, u)
    requires u in A && s.client in A && (InRelease(S.pcs[s]) ==> Releaser(s, S.pcs[s]) in A)
    requires forall c | c !in A ::
      (c in W'.releasers <==> c in W.releasers) && (c in W.releasers ==> W'.releasers[c] == W.releasers[c])
    requires forall c | c in W.releasers :: W.releasers[c] in S.pcs
    requires StableOutside(S, S', W, W', A)
    requires forall c | c in S.clients && c in A :: ClientAt(S', W', c)
    ensures ClientsOk(S', W')
  {
    SignalMoves(S, S', s, pc, u);
    ClientsFramed(S, S', W, W', A, {s} + SleepingFront(S, u));
  }

  function Delivered(S: System, s: Session): System
    requires s in S.pcs && InRelease(S.pcs[s]) && S.pcs[s].call.RetrySent?
  {
    DeliverRetry(S, s, S.pcs[s], S.pcs[s].call.to)
  }

  /** The client told to retry; `pc` replaces the front thread's Pc if that thread carried the retry. */
  lemma RetriedClient(v: ServerLock, c: ClientId, l: ClientLock, front: Pc, front': Pc, carrier: Option<(Session, Pc)>)
    requires ClientOk(v, true, c, l, Some(front), carrier) && Chosen(v, c) && c !in v.waiters
    requires front' == front || (RetryComing(front) && RetryComing(front'))
    ensures LC.HandleRetry(l) == LC.Region(l.(retryEarlier := true), LC.Return, true) && carrier == None
    ensures ClientOk(v, false, c, l.(retryEarlier := true), Some(Woken(front')), carrier)
  {
  }

  /** A client the server did not choose does not care whether the retry is due. */
  lemma NotChosen(v: ServerLock, due: bool, due': bool, c: ClientId, l: ClientLock, front: Option<Pc>,
                  carrier: Option<(Session, Pc)>)
    requires ClientOk(v, due, c, l, front, carrier) && !Chosen(v, c)
    ensures ClientOk(v, due', c, l, front, carrier)
  {
  }

  lemma RetryFacts(S: System, W: Carriers, s: Session)
    requires ServerOk(S, W) && s in S.pcs && InRelease(S.pcs[s]) && S.pcs[s].call.RetrySent?
    requires ThreadOk(S.server, W, s, S.pcs[s])
    requires S.server.retryer in S.clients ==> ClientAt(S, W, S.server.retryer)
    ensures var u := S.server.retryer;
            && u == S.pcs[s].call.to && u in S.clients && Chosen(S.server, u) && u !in S.server.waiters
            && W.retrier == Some(s)
            && S.clients[u].state == LC.Acquiring && Front(S, u).Some? && u !in W.releasers
  {
    assert ClientAt(S, W, S.server.retryer);
  }

  lemma DeliverRetryRest(S: System, W: Carriers, s: Session, u: ClientId)
    requires ServerOk(S, W) && ThreadsOk(S, W) && s in S.pcs && InRelease(S.pcs[s]) && S.pcs[s].call.RetrySent?
    requires u == S.pcs[s].call.to
    requires u in S.clients && LC.HandleRetry(S.clients[u]).exit == LC.Return && Chosen(S.server, u)
    requires W.retrier == Some(s)
    ensures ServerOk(Delivered(S, s), W.(retrier := None)) && ThreadsOk(Delivered(S, s), W.(retrier := None))
  {
  }

  /** Thread s at its client and the releasing client t carries a retry to client u. */
  ghost predicate CarriesRetry(S: System, W: Carriers, s: Session, t: ClientId, u: ClientId)
  {
    && s in S.pcs && InRelease(S.pcs[s]) && t == Releaser(s, S.pcs[s])
    && S.pcs[s].call.RetrySent? && u == S.pcs[s].call.to
    && t in S.clients && s.client in S.clients && u in S.clients
    && Carrier(S, W, t) == Some((s, S.pcs[s])) && (t == s.client <==> S.pcs[s].Releasing?)
    && Outside(S.server, t) && Chosen(S.server, u) && u !in S.server.waiters && W.retrier == Some(s)
    && Front(S, u).Some? && u !in W.releasers && (s.client != t ==> s.client !in W.releasers)
  }

  lemma DeliverRetryChosen(S: System, W: Carriers, s: Session, t: ClientId, u: ClientId)
    requires QueuesOk(S) && CarriesRetry(S, W, s, t, u) && ClientAt(S, W, u) && ThreadOk(S.server, W, s, S.pcs[s])
    ensures LC.HandleRetry(S.clients[u]) == LC.Region(S.clients[u].(retryEarlier := true), LC.Return, true)
    ensures ClientAt(Delivered(S, s), W.(retrier := None), u)
  {
    var pc := S.pcs[s];
    var pc' := pc.(call := Replied);
    FrontIs(S, s);
    RetriedClient(S.server, u, S.clients[u], Front(S, u).value, if u == s.client then pc' else Front(S, u).value,
                  Carrier(S, W, u));
    SignalViews(S, Delivered(S, s), s, pc', u);
  }

  lemma DeliverRetryOthers(S: System, W: Carriers, s: Session, t: ClientId, u: ClientId)
    requires QueuesOk(S) && CarriesRetry(S, W, s, t, u) && ThreadOk(S.server, W, s, S.pcs[s])
    requires LC.HandleRetry(S.clients[u]) == LC.Region(S.clients[u].(retryEarlier := true), LC.Return, true)
    requires ClientAt(S, W, t) && ClientAt(S, W, s.client)
    ensures ClientAt(Delivered(S, s), W.(retrier := None), t)
    ensures s.client != u ==> ClientAt(Delivered(S, s), W.(retrier := None), s.client)
  {
    var S', pc := Delivered(S, s), S.pcs[s];
    var pc' := pc.(call := Replied);
    FrontIs(S, s);
    SignalViews(S, S', s, pc', u);
    CarriedClient(S.server, S.server, true, false, t, S.clients[t], Front(S, t), s, pc, pc');
    if s.client != t && s.client != u {
      SameAnswer(S.server, true, s.client, S.clients[s.client], pc, pc', Carrier(S, W, s.client));
      NotChosen(S.server, true, false, s.client, S.clients[s.client], Some(pc'), Carrier(S, W, s.client));
    }
    assert Front(S', t) == if t == s.client then Some(pc') else Front(S, t);
  }

  lemma DeliverRetryClients(S: System, W: Carriers, s: Session, t: ClientId, u: ClientId)
    requires ClientsOk(S, W) && s in S.pcs && InRelease(S.pcs[s]) && t == Releaser(s, S.pcs[s])
    requires S.pcs[s].call.RetrySent? && u == S.pcs[s].call.to
    requires forall c | c in W.releasers :: W.releasers[c] in S.pcs
    requires t in S.clients && s.client in S.clients && u in S.clients && Chosen(S.server, u) && W.retrier == Some(s)
    requires LC.HandleRetry(S.clients[u]) == LC.Region(S.clients[u].(retryEarlier := true), LC.Return, true)
    requires var S', W' := Delivered(S, s), W.(retrier := None);
             ClientAt(S', W', t) && ClientAt(S', W', s.client) && ClientAt(S', W', u)
    ensures ClientsOk(Delivered(S, s), W.(retrier := None))
  {
    var A := {t, s.client, u};
    forall d | d in S.clients && d !in A && ClientAt(S, W, d)
      ensures ClientOk(S.server, false, d, S.clients[d], Front(S, d), Carrier(S, W, d))
    {
      NotChosen(S.server, true, false, d, S.clients[d], Front(S, d), Carrier(S, W, d));
    }
    SignalClients(S, Delivered(S, s), W, W.(retrier := None), s, S.pcs[s].(call := Replied), u, A);
  }

  lemma DeliverRetryQueues(S: System, s: Session, u: ClientId)
    requires QueuesOk(S) && s in S.pcs && InRelease(S.pcs[s]) && S.pcs[s].call.RetrySent? && u == S.pcs[s].call.to
    requires u in S.clients
    requires LC.HandleRetry(S.clients[u]) == LC.Region(S.clients[u].(retryEarlier := true), LC.Return, true)
    ensures QueuesOk(Delivered(S, s)) && Delivered(S, s).fault == S.fault
  {
    SignalQueues(S, Delivered(S, s), s, S.pcs[s].(call := Replied), u);
  }

  lemma DeliverRetryPreserves(S: System, W: Carriers, s: Session)
    requires Inv(S, W) && CanAdvance(S, s) && InRelease(S.pcs[s]) && S.pcs[s].call.RetrySent?
    ensures Inv(Delivered(S, s), W.(retrier := None))
  {
    var t, u := Releaser(s, S.pcs[s]), S.server.retryer;
    assert ClientAt(S, W, s.client) && (t in S.clients ==> ClientAt(S, W, t)) && (u in S.clients ==> ClientAt(S, W, u));
    CallFacts(S, W, s, t);
    RetryFacts(S, W, s);
    DeliverRetryChosen(S, W, s, t, u);
    DeliverRetryOthers(S, W, s, t, u);
    DeliverRetryRest(S, W, s, u);
    DeliverRetryClients(S, W, s, t, u);
    DeliverRetryQueues(S, s, u);
  }

  // ---- the revoke handler is done ------------------------------------------------------

  lemma HandlerDoneClient(v: ServerLock, due: bool, t: ClientId, l: ClientLock, front: Option<Pc>, s: Session, pc: Pc)
    requires ClientOk(v, due, t, l, front, Some((s, pc))) && pc.RevokeHandler? && pc.call == Replied
    ensures ClientOk(v, due, t, LC.AfterRevokeRelease(l).lock,
                     if front == None then None else Some(Woken(front.value)), None)
    ensures front == None <==> l.queue == []
  {
  }

  lemma HandlerDoneServer(S: System, W: Carriers, s: Session, t: ClientId)
    requires ServerOk(S, W) && CanAdvance(S, s) && S.pcs[s].RevokeHandler? && S.pcs[s].call == Replied
    requires t == S.pcs[s].target && t in S.clients && Outside(S.server, t)
    ensures ServerOk(Advance(S, s), W.(releasers := W.releasers - {t}))
  {
  }

  lemma HandledThread(v: ServerLock, W: Carriers, s: Session, t: ClientId, x: Session, pc: Pc)
    requires ThreadOk(v, W, x, pc) && x != s && t in W.releasers && W.releasers[t] == s
    ensures ThreadOk(v, W.(releasers := W.releasers - {t}), x, pc)
    ensures ThreadOk(v, W.(releasers := W.releasers - {t}), x, Woken(pc))
  {
  }

  lemma HandlerDoneMoves(S: System, s: Session, x: Session)
    requires CanAdvance(S, s) && S.pcs[s].RevokeHandler? && S.pcs[s].call == Replied && S.pcs[s].target in S.clients
    requires x in Advance(S, s).pcs
    ensures x in S.pcs && Advance(S, s).server == S.server
    ensures x == s ==> Advance(S, s).pcs[x] == AcquireReply(S.pcs[s].granted)
    ensures x != s ==> Advance(S, s).pcs[x] == S.pcs[x] || Advance(S, s).pcs[x] == Woken(S.pcs[x])
  {
  }

  lemma HandlerDoneThreads(S: System, W: Carriers, s: Session, t: ClientId)
    requires ThreadsOk(S, W) && CanAdvance(S, s) && S.pcs[s].RevokeHandler? && S.pcs[s].call == Replied
    requires t == S.pcs[s].target && t in S.clients
    ensures ThreadsOk(Advance(S, s), W.(releasers := W.releasers - {t}))
  {
    var S', W' := Advance(S, s), W.(releasers := W.releasers - {t});
    assert ThreadOk(S.server, W, s, S.pcs[s]);
    forall x | x in S'.pcs ensures ThreadOk(S'.server, W', x, S'.pcs[x]) {
      HandlerDoneMoves(S, s, x);
      if x != s {
        HandledThread(S.server, W, s, t, x, S.pcs[x]);
      }
    }
  }

  lemma HandlerDoneRest(S: System, W: Carriers, s: Session, t: ClientId)
    requires ServerOk(S, W) && ThreadsOk(S, W) && CanAdvance(S, s) && S.pcs[s].RevokeHandler?
    requires S.pcs[s].call == Replied
    requires t == S.pcs[s].target && t in S.clients && Outside(S.server, t)
    ensures ServerOk(Advance(S, s), W.(releasers := W.releasers - {t}))
    ensures ThreadsOk(Advance(S, s), W.(releasers := W.releasers - {t}))
  {
    HandlerDoneServer(S, W, s, t);
    HandlerDoneThreads(S, W, s, t);
  }

  /** The handler's last step, seen as a move with a signal. */
  lemma HandlerDoneSignals(S: System, s: Session, t: ClientId)
    requires QueuesOk(S) && CanAdvance(S, s) && S.pcs[s].RevokeHandler? && S.pcs[s].call == Replied
    requires t == S.pcs[s].target && t in S.clients
    ensures Signals(S, Advance(S, s), s, AcquireReply(S.pcs[s].granted), t)
    ensures Advance(S, s).fault == S.fault && Advance(S, s).clients[t] == LC.AfterRevokeRelease(S.clients[t]).lock
    ensures Advance(S, s).server == S.server
    ensures QueuesOk(Advance(S, s))
  {
    SignalQueues(S, Advance(S, s), s, AcquireReply(S.pcs[s].granted), t);
  }

  lemma HandlerDoneAffected(S: System, W: Carriers, s: Session, t: ClientId)
    requires QueuesOk(S) && CanAdvance(S, s) && S.pcs[s].RevokeHandler? && S.pcs[s].call == Replied
    requires t == S.pcs[s].target && t in S.clients && t != s.client && ClientAt(S, W, t) && ClientAt(S, W, s.client)
    requires Carrier(S, W, t) == Some((s, S.pcs[s])) && !S.pcs[s].granted && s.client !in W.releasers
    ensures var S', W' := Advance(S, s), W.(releasers := W.releasers - {t});
            t in S'.clients && s.client in S'.clients && ClientAt(S', W', t) && ClientAt(S', W', s.client)
  {
    FrontIs(S, s);
    HandlerDoneSignals(S, s, t);
    HandlerDoneClient(S.server, W.retrier.Some?, t, S.clients[t], Front(S, t), s, S.pcs[s]);
    SameAnswer(S.server, W.retrier.Some?, s.client, S.clients[s.client], S.pcs[s], AcquireReply(false),
               Carrier(S, W, s.client));
    HandlerDoneViews(S, Advance(S, s), W, s, t);
  }

  lemma HandlerDoneViews(S: System, S': System, W: Carriers, s: Session, t: ClientId)
    requires QueuesOk(S) && Signals(S, S', s, AcquireReply(false), t) && S.pcs[s] != QueueWait(false) && t != s.client
    requires S'.server == S.server && s.client !in W.releasers
    requires ClientOk(S.server, W.retrier.Some?, t, S'.clients[t],
                      if Front(S, t) == None then None else Some(Woken(Front(S, t).value)), None)
    requires s.client in S.clients
    requires ClientOk(S.server, W.retrier.Some?, s.client, S.clients[s.client], Some(AcquireReply(false)), None)
    ensures var W' := W.(releasers := W.releasers - {t}); ClientAt(S', W', t) && ClientAt(S', W', s.client)
  {
    SignalViews(S, S', s, AcquireReply(false), t);
  }

  lemma HandlerDoneClients(S: System, W: Carriers, s: Session, t: ClientId)
    requires QueuesOk(S) && ClientsOk(S, W) && CanAdvance(S, s) && S.pcs[s].RevokeHandler? && S.pcs[s].call == Replied
    requires t == S.pcs[s].target && t in S.clients
    requires forall c | c in W.releasers :: W.releasers[c] in S.pcs
    requires var S', W' := Advance(S, s), W.(releasers := W.releasers - {t});
             t in S'.clients && s.client in S'.clients && ClientAt(S', W', t) && ClientAt(S', W', s.client)
    ensures ClientsOk(Advance(S, s), W.(releasers := W.releasers - {t}))
  {
    HandlerDoneSignals(S, s, t);
    SignalClients(S, Advance(S, s), W, W.(releasers := W.releasers - {t}), s, AcquireReply(S.pcs[s].granted), t,
                  {t, s.client});
  }

  lemma HandlerDonePreserves(S: System, W: Carriers, s: Session)
    requires Inv(S, W) && CanAdvance(S, s) && S.pcs[s].RevokeHandler? && S.pcs[s].call == Replied
    ensures Inv(Advance(S, s), W.(releasers := W.releasers - {S.pcs[s].target}))
  {
    var t := S.pcs[s].target;
    assert ClientAt(S, W, s.client) && (t in S.clients ==> ClientAt(S, W, t));
    CallFacts(S, W, s, t);
    HandlerDoneRest(S, W, s, t);
    HandlerDoneAffected(S, W, s, t);
    HandlerDoneClients(S, W, s, t);
    HandlerDoneSignals(S, s, t);
  }

  // ---- release -------------------------------------------------------------------------

  lemma CallReleaseRest(S: System, W: Carriers, s: Session)
    requires ServerOk(S, W) && ThreadsOk(S, W) && CanAdvance(S, s) && S.pcs[s] == Holding
    requires S.clients[s.client].revokeLater
    requires s.client !in W.releasers
    ensures var W' := W.(releasers := W.releasers[s.client := s]);
            ServerOk(Advance(S, s), W') && ThreadsOk(Advance(S, s), W')
  {
  }

  lemma CallReleaseQueues(S: System, s: Session)
    requires QueuesOk(S) && CanAdvance(S, s) && S.pcs[s] == Holding && S.clients[s.client].revokeLater
    ensures QueuesOk(Advance(S, s)) && Front(Advance(S, s), s.client) == Some(Releasing(Requested))
  {
    FrontIs(S, s);
    QueuesKept(S, Advance(S, s));
  }

  lemma CallReleaseClients(S: System, W: Carriers, s: Session)
    requires ClientsOk(S, W) && CanAdvance(S, s) && S.pcs[s] == Holding && S.clients[s.client].revokeLater
    requires Front(S, s.client) == Some(Holding) && Front(Advance(S, s), s.client) == Some(Releasing(Requested))
    requires S.clients[s.client].queue != [] && S.clients[s.client].queue[0] == s.waiter
    requires forall c | c in W.releasers :: W.releasers[c] in S.pcs
    ensures ClientsOk(Advance(S, s), W.(releasers := W.releasers[s.client := s]))
  {
    var S', W', c := Advance(S, s), W.(releasers := W.releasers[s.client := s]), s.client;
    assert ClientAt(S, W, c);
    assert Carrier(S', W', c) == Some((s, Releasing(Requested)));
    assert ClientAt(S', W', c);
    ClientsFramed(S, S', W, W', {c}, {s});
  }

  lemma CallReleasePreserves(S: System, W: Carriers, s: Session)
    requires Inv(S, W) && CanAdvance(S, s) && S.pcs[s] == Holding && S.clients[s.client].revokeLater
    ensures Inv(Advance(S, s), W.(releasers := W.releasers[s.client := s]))
  {
    FrontIs(S, s);
    assert ClientAt(S, W, s.client);
    CallReleaseRest(S, W, s);
    CallReleaseQueues(S, s);
    CallReleaseClients(S, W, s);
  }

  /** S' is S after thread s left the front of its client's queue and the next one was signalled. */
  ghost predicate Leaves(S: System, S': System, s: Session, rest: seq<Waiter>)
  {
    && s in S.pcs && s.client in S.clients && s.client in S'.clients
    && S'.clients == S.clients[s.client := S'.clients[s.client]] && S'.clients[s.client].queue == rest
    && S'.pcs == SignalFront(S.pcs - {s}, s.client, rest)
    && S.clients[s.client].queue == [s.waiter] + rest
  }

  /** The thread that moves to the front when s leaves. */
  function NextUp(s: Session, rest: seq<Waiter>): set<Session>
  {
    if rest == [] then {} else {Session(s.client, rest[0])}
  }

  lemma LeaveFacts(S: System, s: Session, rest: seq<Waiter>)
    requires QueuesOk(S) && s in S.pcs && s.client in S.clients && S.clients[s.client].queue == [s.waiter] + rest
    ensures Distinct(rest) && (forall x :: x in rest <==> x in S.clients[s.client].queue && x != s.waiter)
    ensures forall x | x in NextUp(s, rest) :: x in S.pcs && x != s && x.waiter in rest && S.pcs[x] == QueueWait(false)
  {
    PopFacts(S.clients[s.client].queue);
    assert S.clients[s.client].queue[1..] == rest;
  }

  lemma LeaveMoves(S: System, S': System, s: Session, rest: seq<Waiter>)
    requires Leaves(S, S', s, rest)
    requires forall x | x in NextUp(s, rest) :: x in S.pcs && x != s && S.pcs[x] == QueueWait(false)
    ensures s !in S'.pcs && forall x | x in NextUp(s, rest) :: x in S'.pcs && S'.pcs[x] == QueueWait(true)
    ensures forall x | x !in {s} + NextUp(s, rest) ::
      (x in S'.pcs <==> x in S.pcs) && (x in S.pcs ==> S'.pcs[x] == S.pcs[x])
    ensures Front(S', s.client) == if rest == [] then None else Some(QueueWait(true))
  {
    assert rest != [] ==> Session(s.client, rest[0]) in NextUp(s, rest);
  }

  lemma LeaveQueues(S: System, S': System, s: Session, rest: seq<Waiter>)
    requires QueuesOk(S) && Leaves(S, S', s, rest)
    ensures QueuesOk(S')
  {
    LeaveFacts(S, s, rest);
    LeaveMoves(S, S', s, rest);
    forall x | x in S'.pcs
      ensures x.client in S'.clients && PlaceOk(S'.clients[x.client].queue, x.waiter, S'.pcs[x])
    {
      if x !in NextUp(s, rest) { assert x in S.pcs && S'.pcs[x] == S.pcs[x]; }
    }
  }

  lemma LeaveClients(S: System, S': System, W: Carriers, W': Carriers, s: Session, rest: seq<Waiter>)
    requires ClientsOk(S, W) && Leaves(S, S', s, rest)
    requires forall x | x in NextUp(s, rest) :: x in S.pcs && x != s && S.pcs[x] == QueueWait(false)
    requires forall c | c != s.client ::
      (c in W'.releasers <==> c in W.releasers) && (c in W.releasers ==> W'.releasers[c] == W.releasers[c])
    requires forall c | c in W.releasers :: W.releasers[c] in S.pcs
    requires S'.server == S.server && W'.retrier == W.retrier && (InRelease(S.pcs[s]) ==> S.pcs[s].Releasing?)
    requires ClientAt(S', W', s.client)
    ensures ClientsOk(S', W')
  {
    LeaveMoves(S, S', s, rest);
    ClientsFramed(S, S', W, W', {s.client}, {s} + NextUp(s, rest));
  }

  /** The client once its front thread has left, with or without the lock. */
  lemma LeftClient(v: ServerLock, due: bool, c: ClientId, l: ClientLock, pc: Pc, carrier: Option<(Session, Pc)>,
                   r: Region)
    requires ClientOk(v, due, c, l, Some(pc), carrier)
    requires || (pc == Holding && !l.revokeLater && r == LC.EnterRelease(l))
             || (pc == Releasing(Replied) && r == LC.AfterRelease(l))
    ensures r.exit == LC.Return && r.lock.queue == l.queue[1..] && (r.signal <==> r.lock.queue != [])
    ensures !r.lock.revokeLater
    ensures r.lock.state != LC.Releasing && (pc == Holding ==> l.state != LC.Releasing && carrier == None)
    ensures pc.Releasing? ==> Outside(v, c)
    ensures ClientOk(v, due, c, r.lock, if l.queue[1..] == [] then None else Some(QueueWait(true)), None)
  {
  }

  /** A thread carries only the release it is working on. */
  lemma CarriesOnlyItsOwn(S: System, W: Carriers, s: Session)
    requires ClientsOk(S, W) && W.releasers.Keys <= S.clients.Keys && s in S.pcs && !S.pcs[s].RevokeHandler?
    ensures forall c | c in W.releasers && W.releasers[c] == s :: c == s.client
  {
    forall c | c in W.releasers && W.releasers[c] == s ensures c == s.client {
      assert ClientAt(S, W, c);
    }
  }

  /** Thread s leaves, with or without the lock, and W' is what W becomes. */
  ghost predicate LeavesAs(S: System, W: Carriers, W': Carriers, s: Session)
  {
    s in S.pcs && s.client in S.clients
    && (|| (S.pcs[s] == Holding && W' == W && !S.clients[s.client].revokeLater
            && S.clients[s.client].state != LC.Releasing && s.client !in W.releasers)
        || (S.pcs[s] == Releasing(Replied) && W' == W.(releasers := W.releasers - {s.client})
            && Outside(S.server, s.client)))
  }

  lemma LeaveServer(S: System, S': System, W: Carriers, W': Carriers, s: Session, rest: seq<Waiter>)
    requires ServerOk(S, W) && ThreadsOk(S, W) && Leaves(S, S', s, rest) && S'.server == S.server
    requires forall x | x in NextUp(s, rest) :: x in S.pcs && x != s && S.pcs[x] == QueueWait(false)
    requires S'.clients[s.client].state != LC.Releasing && !S'.clients[s.client].revokeLater
    requires forall c | c in W.releasers && W.releasers[c] == s :: c == s.client
    requires LeavesAs(S, W, W', s)
    ensures ServerOk(S', W')
  {
    LeaveMoves(S, S', s, rest);
  }

  lemma LeaveThreads(S: System, S': System, W: Carriers, W': Carriers, s: Session, rest: seq<Waiter>)
    requires ThreadsOk(S, W) && Leaves(S, S', s, rest) && S'.server == S.server
    requires forall x | x in NextUp(s, rest) :: x in S.pcs && x != s && S.pcs[x] == QueueWait(false)
    requires LeavesAs(S, W, W', s)
    ensures ThreadsOk(S', W')
  {
    LeaveMoves(S, S', s, rest);
    assert ThreadOk(S.server, W, s, S.pcs[s]);
  }

  /** release ends here, with r the last region it runs. */
  ghost predicate Departs(S: System, s: Session, r: Region)
  {
    CanAdvance(S, s)
    && (|| (S.pcs[s] == Holding && !S.clients[s.client].revokeLater && r == LC.EnterRelease(S.clients[s.client]))
        || (S.pcs[s] == Releasing(Replied) && r == LC.AfterRelease(S.clients[s.client])))
  }

  /** The last step of release, seen as a departure. */
  lemma LeaveShape(S: System, W: Carriers, s: Session, r: Region)
    requires QueuesOk(S) && Departs(S, s, r) && ClientAt(S, W, s.client)
    ensures r.exit == LC.Return && !r.lock.revokeLater && r.lock.state != LC.Releasing
    ensures Leaves(S, FinishOrCall(S, s, r), s, r.lock.queue)
    ensures S.pcs[s] == Holding ==> S.clients[s.client].state != LC.Releasing && Carrier(S, W, s.client) == None
    ensures S.pcs[s].Releasing? ==> Outside(S.server, s.client)
    ensures ClientOk(S.server, W.retrier.Some?, s.client, r.lock,
                     if r.lock.queue == [] then None else Some(QueueWait(true)), None)
  {
    FrontIs(S, s);
    var q := S.clients[s.client].queue;
    assert q == [q[0]] + q[1..];
    LeftClient(S.server, W.retrier.Some?, s.client, S.clients[s.client], S.pcs[s], Carrier(S, W, s.client), r);
  }

  function AfterLeaving(S: System, W: Carriers, s: Session): Carriers
    requires s in S.pcs
  {
    if S.pcs[s] == Holding then W else W.(releasers := W.releasers - {s.client})
  }

  /** All that the departure of s relies on. */
  ghost predicate MayLeave(S: System, W: Carriers, s: Session, r: Region)
  {
    && s in S.pcs && r.exit == LC.Return && !r.lock.revokeLater && r.lock.state != LC.Releasing
    && Leaves(S, FinishOrCall(S, s, r), s, r.lock.queue)
    && (forall x | x in NextUp(s, r.lock.queue) :: x in S.pcs && x != s && S.pcs[x] == QueueWait(false))
    && (forall c | c in W.releasers && W.releasers[c] == s :: c == s.client)
    && (|| (S.pcs[s] == Holding && !S.clients[s.client].revokeLater && S.clients[s.client].state != LC.Releasing
            && s.client !in W.releasers)
        || (S.pcs[s] == Releasing(Replied) && Outside(S.server, s.client)))
    && ClientOk(S.server, W.retrier.Some?, s.client, r.lock,
                if r.lock.queue == [] then None else Some(QueueWait(true)), None)
  }

  lemma LeaveAllowed(S: System, W: Carriers, s: Session, r: Region)
    requires QueuesOk(S) && ClientsOk(S, W) && Departs(S, s, r)
    requires W.releasers.Keys <= S.clients.Keys && forall c | c in W.releasers :: W.releasers[c] in S.pcs
    ensures MayLeave(S, W, s, r)
  {
    assert ClientAt(S, W, s.client);
    LeaveShape(S, W, s, r);
    LeaveFacts(S, s, r.lock.queue);
    CarriesOnlyItsOwn(S, W, s);
  }

  lemma LeaveAffected(S: System, W: Carriers, s: Session, r: Region)
    requires MayLeave(S, W, s, r) && (s.client in W.releasers ==> W.releasers[s.client] in S.pcs)
    ensures ClientAt(FinishOrCall(S, s, r), AfterLeaving(S, W, s), s.client)
  {
    LeaveMoves(S, FinishOrCall(S, s, r), s, r.lock.queue);
  }

  lemma LeavePreservesRest(S: System, W: Carriers, s: Session, r: Region)
    requires ServerOk(S, W) && ThreadsOk(S, W) && MayLeave(S, W, s, r)
    ensures ServerOk(FinishOrCall(S, s, r), AfterLeaving(S, W, s))
    ensures ThreadsOk(FinishOrCall(S, s, r), AfterLeaving(S, W, s))
  {
    LeaveServer(S, FinishOrCall(S, s, r), W, AfterLeaving(S, W, s), s, r.lock.queue);
    LeaveThreads(S, FinishOrCall(S, s, r), W, AfterLeaving(S, W, s), s, r.lock.queue);
  }

  lemma LeavePreservesClients(S: System, W: Carriers, s: Session, r: Region)
    requires ClientsOk(S, W) && MayLeave(S, W, s, r) && forall c | c in W.releasers :: W.releasers[c] in S.pcs
    ensures ClientsOk(FinishOrCall(S, s, r), AfterLeaving(S, W, s))
  {
    LeaveAffected(S, W, s, r);
    LeaveClients(S, FinishOrCall(S, s, r), W, AfterLeaving(S, W, s), s, r.lock.queue);
  }

  lemma LeavePreserves(S: System, W: Carriers, s: Session, r: Region)
    requires Inv(S, W) && MayLeave(S, W, s, r)
    ensures Inv(FinishOrCall(S, s, r), AfterLeaving(S, W, s))
  {
    LeavePreservesRest(S, W, s, r);
    LeaveQueues(S, FinishOrCall(S, s, r), s, r.lock.queue);
    LeavePreservesClients(S, W, s, r);
  }

  // ---- every step ----------------------------------------------------------------------

  lemma AcquirePathPreserves(S: System, W: Carriers, s: Session) returns (W': Carriers)
    requires Inv(S, W) && CanAdvance(S, s) && !InRelease(S.pcs[s]) && S.pcs[s] != Holding
    ensures Inv(Advance(S, s), W')
  {
    W' := W;
    match S.pcs[s] {
      case AcquireSent =>
        AnswerPreserves(S, W, s);
        W' := AfterAnswer(S, W, s);
      case RevokePending(_, _) => SendRevokePreserves(S, W, s);
      case RevokeSent(t, _) =>
        DeliverRevokePreserves(S, W, s);
        W' := AfterRevoke(S, W, s, t);
      case _ => ResumePreserves(S, W, s);
    }
  }

  lemma CallPreserves(S: System, W: Carriers, s: Session) returns (W': Carriers)
    requires Inv(S, W) && CanAdvance(S, s) && InRelease(S.pcs[s]) && S.pcs[s].call != Replied
    ensures Inv(AdvanceCall(S, s, S.pcs[s]), W')
  {
    match S.pcs[s].call {
      case Requested =>
        ReleasePreserves(S, W, s);
        W' := W.(retrier := Some(s));
      case RetryPending(_) =>
        SendRetryPreserves(S, W, s);
        W' := W;
      case RetrySent(_) =>
        DeliverRetryPreserves(S, W, s);
        W' := W.(retrier := None);
    }
  }

  lemma DepartureIs(S: System, s: Session, r: Region)
    requires Departs(S, s, r)
    ensures Advance(S, s) == FinishOrCall(S, s, r)
  {
  }

  lemma DeparturePreserves(S: System, W: Carriers, s: Session, r: Region)
    requires Inv(S, W) && Departs(S, s, r)
    ensures Inv(Advance(S, s), AfterLeaving(S, W, s))
  {
    LeaveAllowed(S, W, s, r);
    LeavePreserves(S, W, s, r);
    DepartureIs(S, s, r);
  }

  lemma FinishPreserves(S: System, W: Carriers, s: Session) returns (W': Carriers)
    requires Inv(S, W) && CanAdvance(S, s)
    requires S.pcs[s] == Holding || (InRelease(S.pcs[s]) && S.pcs[s].call == Replied)
    ensures Inv(Advance(S, s), W')
  {
    var l := S.clients[s.client];
    if S.pcs[s].RevokeHandler? {
      HandlerDonePreserves(S, W, s);
      W' := W.(releasers := W.releasers - {S.pcs[s].target});
    } else if S.pcs[s] == Holding && l.revokeLater {
      CallReleasePreserves(S, W, s);
      W' := W.(releasers := W.releasers[s.client := s]);
    } else {
      DeparturePreserves(S, W, s, if S.pcs[s] == Holding then LC.EnterRelease(l) else LC.AfterRelease(l));
      W' := AfterLeaving(S, W, s);
    }
  }

  lemma CallIsAdvance(S: System, s: Session)
    requires CanAdvance(S, s) && InRelease(S.pcs[s]) && S.pcs[s].call != Replied
    ensures Advance(S, s) == AdvanceCall(S, s, S.pcs[s])
  {
  }

  lemma AdvancePreserves(S: System, W: Carriers, s: Session) returns (W': Carriers)
    requires Inv(S, W) && CanAdvance(S, s)
    ensures Inv(Advance(S, s), W')
  {
    if !InRelease(S.pcs[s]) && S.pcs[s] != Holding {
      W' := AcquirePathPreserves(S, W, s);
    } else if S.pcs[s] == Holding || S.pcs[s].call == Replied {
      W' := FinishPreserves(S, W, s);
    } else {
      CallIsAdvance(S, s);
      W' := CallPreserves(S, W, s);
    }
  }

  /** The invariant with its carriers hidden: it holds of every state of every run. */
  ghost predicate Safe(S: System)
  {
    exists W :: Inv(S, W)
  }

  lemma NextPreserves(S: System, S': System)
    requires Safe(S) && Next(S, S')
    ensures Safe(S')
  {
    var W :| Inv(S, W);
    if s :| CanStart(S, s) && S' == Start(S, s) {
      StartPreserves(S, W, s);
    } else {
      var s :| CanAdvance(S, s) && S' == Advance(S, s);
      var W' := AdvancePreserves(S, W, s);
    }
  }

  lemma {:induction false} RunsAreSafe(run: seq<System>, i: nat)
    requires IsRun(run) && i < |run|
    ensures Safe(run[i])
  {
    if i == 0 {
      InitEstablishes(run[0]);
    } else {
      RunsAreSafe(run, i - 1);
      NextPreserves(run[i - 1], run[i]);
    }
  }
}
