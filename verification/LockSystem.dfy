/**
 The whole lock protocol for one lock: one server, any number of clients, and any number of
 threads on each client.  RPCs are synchronous, so a thread together with the chain of RPC
 handlers working on its behalf is at exactly one place at a time; that place is its Pc.
 Messages in flight are the Pcs named after them, and they may be delivered in any order.
 Every step is one stretch of code executed under one mutex, or one send made without it.

 Each RPC is taken to execute exactly once and to return, and a condition wait to return
 only when signalled.
 */
module LockSystem {
  import opened LockServer
  import LC = LockClient

  type Waiter = LC.Waiter
  type ClientLock = LC.ClientLock
  type Region = LC.Region

  /** One call of acquire on one client, until the matching release returns. */
  datatype Session = Session(client: ClientId, waiter: Waiter)

  /** Progress of an RPC to the server's release, including the retry RPC it makes. */
  datatype ReleaseCall =
    | Requested                        // the request is in flight
    | RetryPending(decided: ClientId)  // mutex dropped; lock.retryer is about to be read
    | RetrySent(to: ClientId)          // the retry request is in flight
    | Replied                          // the retry is handled and the reply is in flight

  datatype Pc =
    | FirstWait(awake: bool)           // lock_client_cache.cc:85
    | QueueWait(awake: bool)           // lock_client_cache.cc:90
    | RetryWait(awake: bool)           // lock_client_cache.cc:54
    | AcquireSent                      // the acquire request is in flight
    | RevokePending(granted: bool, decided: ClientId)  // mutex dropped; lock.holder is about to be read
    | RevokeSent(target: ClientId, granted: bool)      // the revoke request is in flight
    | RevokeHandler(target: ClientId, granted: bool, call: ReleaseCall)  // the handler at target is releasing
    | AcquireReply(granted: bool)      // OK or RETRY is in flight
    | Holding                          // acquire has returned
    | Releasing(call: ReleaseCall)     // release is waiting for its RPC

  /** fault: a VERIFY failed, front() was taken of an empty queue, a request went to a client
      that does not exist, or a thread returned with the mutex held. */
  datatype System = System(
    server: ServerLock,
    clients: map<ClientId, ClientLock>,
    pcs: map<Session, Pc>,
    fault: bool)

  ghost predicate Init(S: System)
  {
    && S.server == LockServer.FRESH
    && "" !in S.clients
    && (forall c | c in S.clients :: S.clients[c] == LC.FRESH)
    && S.pcs == map[]
    && !S.fault
  }

  predicate Runnable(pc: Pc)
  {
    pc != FirstWait(false) && pc != QueueWait(false) && pc != RetryWait(false)
  }

  function Woken(pc: Pc): Pc
  {
    match pc
    case FirstWait(_) => FirstWait(true)
    case QueueWait(_) => QueueWait(true)
    case RetryWait(_) => RetryWait(true)
    case _ => pc
  }

  /** pthread_cond_signal on the waiter at the front of a queue; lost unless its owner sleeps. */
  function SignalFront(pcs: map<Session, Pc>, c: ClientId, queue: seq<Waiter>): map<Session, Pc>
  {
    if queue == [] || Session(c, queue[0]) !in pcs then pcs
    else pcs[Session(c, queue[0]) := Woken(pcs[Session(c, queue[0])])]
  }

  function PcAfter(exit: LC.Exit): Pc
  {
    match exit
    case CallAcquire => AcquireSent
    case CallRelease => Releasing(Requested)
    case SleepFirst => FirstWait(false)
    case SleepQueued => QueueWait(false)
    case SleepRetry => RetryWait(false)
    case _ => Holding
  }

  /** Client c has run region r, after which the threads are at pcs. */
  function AfterRegion(S: System, c: ClientId, r: Region, pcs: map<Session, Pc>): System
  {
    S.(clients := S.clients[c := r.lock],
       pcs := if r.signal then SignalFront(pcs, c, r.lock.queue) else pcs,
       fault := S.fault || r.exit == LC.FallThrough || r.exit == LC.EmptyFront)
  }

  // ---- the steps -----------------------------------------------------------------------

  predicate CanStart(S: System, s: Session)
  {
    s.client in S.clients && s !in S.pcs
  }

  /** A thread calls acquire. */
  function Start(S: System, s: Session): System
    requires CanStart(S, s)
  {
    var r := LC.EnterAcquire(S.clients[s.client], s.waiter);
    AfterRegion(S, s.client, r, S.pcs[s := PcAfter(r.exit)])
  }

  predicate CanAdvance(S: System, s: Session)
  {
    s in S.pcs && Runnable(S.pcs[s]) && s.client in S.clients
  }

  /** The thread re-enters its client's mutex inside acquire, through region r. */
  function Resume(S: System, s: Session, r: Region): System
  {
    AfterRegion(S, s.client, r, S.pcs[s := PcAfter(r.exit)])
  }

  /** The acquire request reaches the server. */
  function ServerAcquire(S: System, s: Session): System
  {
    match AcquireRegion(S.server, s.client)
    case AcquireAborts => S.(fault := true)
    case Answer(l, granted, revoke) =>
      S.(server := l,
         pcs := S.pcs[s := if revoke then RevokePending(granted, l.holder) else AcquireReply(granted)])
  }

  /** The revoke request reaches client t. */
  function DeliverRevoke(S: System, s: Session, t: ClientId, granted: bool): System
  {
    if t !in S.clients then S.(fault := true)
    else
      var r := LC.HandleRevoke(S.clients[t]);
      AfterRegion(S, t, r, S.pcs[s := if r.exit == LC.CallRelease then RevokeHandler(t, granted, Requested)
                                      else AcquireReply(granted)])
  }

  predicate InRelease(pc: Pc)
  {
    pc.Releasing? || pc.RevokeHandler?
  }

  /** The client giving up the lock in a release RPC. */
  function Releaser(s: Session, pc: Pc): ClientId
    requires InRelease(pc)
  {
    if pc.Releasing? then s.client else pc.target
  }

  /** The release request reaches the server. */
  function ServerRelease(S: System, s: Session, pc: Pc): System
    requires InRelease(pc)
  {
    match ReleaseRegion(S.server, Releaser(s, pc))
    case ReleaseAborts => S.(fault := true)
    case Released(l) => S.(server := l, pcs := S.pcs[s := pc.(call := RetryPending(l.retryer))])
  }

  /** The retry request reaches client u. */
  function DeliverRetry(S: System, s: Session, pc: Pc, u: ClientId): System
    requires InRelease(pc)
  {
    if u !in S.clients then S.(fault := true)
    else AfterRegion(S, u, LC.HandleRetry(S.clients[u]), S.pcs[s := pc.(call := Replied)])
  }

  /** One step of a release RPC, up to its reply being in flight. */
  function AdvanceCall(S: System, s: Session, pc: Pc): System
    requires InRelease(pc) && !pc.call.Replied?
  {
    match pc.call
    case Requested => ServerRelease(S, s, pc)
    case RetryPending(_) => S.(pcs := S.pcs[s := pc.(call := RetrySent(S.server.retryer))])
    case RetrySent(u) => DeliverRetry(S, s, pc, u)
  }

  /** The thread calls release, or its release RPC returns: in the latter case it is done. */
  function FinishOrCall(S: System, s: Session, r: Region): System
  {
    AfterRegion(S, s.client, r, if r.exit == LC.CallRelease then S.pcs[s := Releasing(Requested)] else S.pcs - {s})
  }

  /** The one step open to a thread that is not asleep. */
  function Advance(S: System, s: Session): System
    requires CanAdvance(S, s)
  {
    var l := S.clients[s.client];
    match S.pcs[s]
    case FirstWait(_) => Resume(S, s, LC.AfterFirstWait(l))
    case QueueWait(_) => Resume(S, s, LC.AfterQueueWait(l))
    case RetryWait(_) => Resume(S, s, LC.AfterRetryWait(l))
    case AcquireSent => ServerAcquire(S, s)
    case RevokePending(granted, _) => S.(pcs := S.pcs[s := RevokeSent(S.server.holder, granted)])
    case RevokeSent(t, granted) => DeliverRevoke(S, s, t, granted)
    case RevokeHandler(t, granted, call) =>
      if call != Replied then AdvanceCall(S, s, S.pcs[s])
      else if t !in S.clients then S.(fault := true)
      else AfterRegion(S, t, LC.AfterRevokeRelease(S.clients[t]), S.pcs[s := AcquireReply(granted)])
    case AcquireReply(granted) => Resume(S, s, LC.AfterReply(l, granted))
    case Holding => FinishOrCall(S, s, LC.EnterRelease(l))
    case Releasing(call) =>
      if call != Replied then AdvanceCall(S, s, S.pcs[s])
      else FinishOrCall(S, s, LC.AfterRelease(l))
  }

  ghost predicate Next(S: System, S': System)
  {
    || (exists s :: CanStart(S, s) && S' == Start(S, s))
    || (exists s :: CanAdvance(S, s) && S' == Advance(S, s))
  }

  ghost predicate IsRun(run: seq<System>)
  {
    && run != []
    && Init(run[0])
    && forall i | 0 <= i < |run| - 1 :: Next(run[i], run[i + 1])
  }
}
