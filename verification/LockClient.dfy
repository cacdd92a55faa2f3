/**
 The caching lock client (lock_client_cache.cc), one lock at a time.  The client drops its
 mutex around every RPC and every condition wait; each stretch in between is a function
 from the lock's record to its new record and to where the thread goes next.
 */
module LockClient {
  import LockServer

  type LockId = LockServer.LockId

  /** The condition variable allocated by one call of acquire. */
  type Waiter = nat

  datatype ClientState = NoLock | Acquiring | Free | Releasing | Locked

  datatype ClientLock = ClientLock(state: ClientState, revokeLater: bool, retryEarlier: bool, queue: seq<Waiter>)

  const FRESH := ClientLock(NoLock, false, false, [])

  /** Where a thread is when it gives up the mutex. */
  datatype Exit =
    | Return         // the call is over
    | CallAcquire    // sending an acquire request to the server
    | CallRelease    // sending a release request to the server
    | SleepFirst     // waiting at the head of the queue for a revoke handler to finish
    | SleepQueued    // waiting behind another thread
    | SleepRetry     // waiting for the server's retry
    | FallThrough    // returned without giving up the mutex
    | EmptyFront     // front() of an empty queue

  datatype Region = Region(lock: ClientLock, exit: Exit, signal: bool)

  function EnterAcquire(l: ClientLock, w: Waiter): Region
  {
    if l.queue == [] then
      match l.state
      case NoLock => Region(l.(queue := [w], state := Acquiring), CallAcquire, false)
      case Free => Region(l.(queue := [w], state := Locked), Return, false)
      case _ => Region(l.(queue := [w]), SleepFirst, false)
    else
      Region(l.(queue := l.queue + [w]), SleepQueued, false)
  }

  /** Waking at line 85: straight into acquire_server. */
  function AfterFirstWait(l: ClientLock): Region
  {
    Region(l.(state := Acquiring), CallAcquire, false)
  }

  /** Waking at line 90. */
  function AfterQueueWait(l: ClientLock): Region
  {
    match l.state
    case NoLock => Region(l.(state := Acquiring), CallAcquire, false)
    case Free => Region(l.(state := Locked), Return, false)
    case Locked => Region(l, Return, false)
    case _ => Region(l, FallThrough, false)
  }

  /** The loop test of acquire_server. */
  function AgainWhileAcquiring(l: ClientLock): Region
  {
    Region(l, if l.state == Acquiring then CallAcquire else FallThrough, false)
  }

  function AfterReply(l: ClientLock, granted: bool): Region
  {
    if granted then Region(l.(state := Locked), Return, false)
    else if l.retryEarlier then AgainWhileAcquiring(l.(retryEarlier := false))
    else Region(l, SleepRetry, false)
  }

  /** Waking at line 54. */
  function AfterRetryWait(l: ClientLock): Region
  {
    AgainWhileAcquiring(l.(retryEarlier := false))
  }

  function EnterRelease(l: ClientLock): Region
  {
    if l.revokeLater then Region(l.(state := Releasing), CallRelease, false)
    else Dequeue(l.(state := Free))
  }

  function AfterRelease(l: ClientLock): Region
  {
    Dequeue(l.(state := NoLock))
  }

  function Dequeue(l: ClientLock): Region
  {
    if l.queue == [] then Region(l, EmptyFront, false)
    else
      var rest := l.queue[1..];
      var state := if rest != [] && !l.revokeLater then Locked else l.state;
      Region(l.(queue := rest, state := state, revokeLater := false), Return, rest != [])
  }

  function HandleRevoke(l: ClientLock): Region
  {
    if l.state == Free then Region(l.(state := Releasing), CallRelease, false)
    else Region(l.(revokeLater := true), Return, false)
  }

  function AfterRevokeRelease(l: ClientLock): Region
  {
    Region(l.(state := NoLock), Return, l.queue != [])
  }

  function HandleRetry(l: ClientLock): Region
  {
    if l.queue == [] then Region(l.(retryEarlier := true), EmptyFront, false)
    else Region(l.(retryEarlier := true), Return, true)
  }

  // ---- what the regions promise, whatever the record ---------------------------------------

  /** Only the state may differ. */
  predicate SameBut(l: ClientLock, l': ClientLock)
  {
    l' == l.(state := l'.state)
  }

  /** acquire returns at once exactly when a free lock is cached and nobody waits, and calls the server
      exactly when nothing is cached and nobody waits. */
  lemma EnterMeans(l: ClientLock, w: Waiter)
    ensures var r := EnterAcquire(l, w);
      && SameBut(l.(queue := l.queue + [w]), r.lock) && !r.signal
      && (r.exit == Return <==> l.queue == [] && l.state == Free)
      && (r.exit == CallAcquire <==> l.queue == [] && l.state == NoLock)
      && (r.exit == SleepFirst <==> l.queue == [] && l.state !in {Free, NoLock})
      && (r.exit == SleepQueued <==> l.queue != [])
      && r.lock.state == (if r.exit == Return then Locked else if r.exit == CallAcquire then Acquiring else l.state)
  {
  }

  /** A thread woken in the queue returns exactly when its client has the lock, and then it is locked. */
  lemma QueueWaitMeans(l: ClientLock)
    ensures var r := AfterQueueWait(l);
      && SameBut(l, r.lock) && !r.signal
      && (r.exit == Return <==> l.state in {Free, Locked})
      && (r.exit == CallAcquire <==> l.state == NoLock)
      && (r.exit == FallThrough <==> l.state in {Acquiring, Releasing})
      && r.lock.state == (if r.exit == Return then Locked else if r.exit == CallAcquire then Acquiring else l.state)
  {
  }

  /** The answer OK locks, and RETRY sleeps unless a retry came first; the retry is used up. */
  lemma ReplyMeans(l: ClientLock, granted: bool)
    ensures var r := AfterReply(l, granted);
      && r.lock.queue == l.queue && r.lock.revokeLater == l.revokeLater && !r.signal
      && (r.exit == Return <==> granted)
      && (r.exit == SleepRetry <==> !granted && !l.retryEarlier)
      && (r.exit == CallAcquire <==> !granted && l.retryEarlier && l.state == Acquiring)
      && r.lock.state == (if granted then Locked else l.state)
      && r.lock.retryEarlier == (granted && l.retryEarlier)
    ensures AfterRetryWait(l) == Region(l.(retryEarlier := false),
                                        if l.state == Acquiring then CallAcquire else FallThrough, false)
    ensures AfterFirstWait(l) == Region(l.(state := Acquiring), CallAcquire, false)
  {
  }

  /** A release that was asked for gives the lock back first; any other leaves it to the next in the queue,
      or cached. */
  lemma ReleaseMeans(l: ClientLock)
    ensures var r := EnterRelease(l);
      && (r.exit == CallRelease <==> l.revokeLater)
      && (r.exit == CallRelease ==> r.lock == l.(state := Releasing) && !r.signal)
      && (r.exit == EmptyFront <==> !l.revokeLater && l.queue == [])
      && (r.exit == Return ==>
            r.lock == ClientLock(if |l.queue| > 1 then Locked else Free, false, l.retryEarlier, l.queue[1..])
            && (r.signal <==> |l.queue| > 1))
    ensures var r := AfterRelease(l);
      && (r.exit == EmptyFront <==> l.queue == [])
      && (r.exit == Return <==> l.queue != [])
      && (r.exit == Return ==>
            r.lock == ClientLock(if |l.queue| > 1 && !l.revokeLater then Locked else NoLock, false, l.retryEarlier,
                                 l.queue[1..])
            && (r.signal <==> |l.queue| > 1))
  {
  }

  /** A revoke takes a cached lock away at once, and any other at its release; a retry is noted for the
      front of the queue, who is woken. */
  lemma HandlersMean(l: ClientLock)
    ensures var r := HandleRevoke(l);
      && (r.exit == CallRelease <==> l.state == Free) && (r.exit == Return <==> l.state != Free) && !r.signal
      && (r.exit == CallRelease ==> r.lock == l.(state := Releasing))
      && (r.exit == Return ==> r.lock == l.(revokeLater := true))
    ensures var r := AfterRevokeRelease(l);
      r.exit == Return && r.lock == l.(state := NoLock) && (r.signal <==> l.queue != [])
    ensures var r := HandleRetry(l);
      && r.lock == l.(retryEarlier := true) && (r.signal <==> l.queue != [])
      && (r.exit == Return <==> l.queue != []) && (r.exit == EmptyFront <==> l.queue == [])
  {
  }

  /** The client's pool of locks, with one method for each stretch of code under the mutex. */
  class LockClientCache {
    var lockPool: map<LockId, ClientLock>

    constructor ()
      ensures lockPool == map[]
    {
      lockPool := map[];
    }

    function Lock(lid: LockId): ClientLock
      reads this
    {
      if lid in lockPool then lockPool[lid] else FRESH
    }

    method Acquire(lid: LockId, waiter: Waiter) returns (exit: Exit)
      modifies this
      ensures EnterAcquire(old(Lock(lid)), waiter) == Region(Lock(lid), exit, false)
      ensures lockPool == old(lockPool)[lid := Lock(lid)]
    {
      if lid !in lockPool {
        lockPool := lockPool[lid := FRESH];
      }
      var lock := lockPool[lid];
      if lock.queue == [] {
        lock := lock.(queue := lock.queue + [waiter]);
        if lock.state == NoLock {
          lock := lock.(state := Acquiring);
          exit := CallAcquire;
        } else if lock.state == Free {
          lock := lock.(state := Locked);
          exit := Return;
        } else {
          exit := SleepFirst;
        }
      } else {
        lock := lock.(queue := lock.queue + [waiter]);
        exit := SleepQueued;
      }
      lockPool := lockPool[lid := lock];
    }

    method WakeFirst(lid: LockId) returns (exit: Exit)
      requires lid in lockPool
      modifies this
      ensures AfterFirstWait(old(Lock(lid))) == Region(Lock(lid), exit, false)
      ensures lockPool == old(lockPool)[lid := Lock(lid)]
    {
      var lock := lockPool[lid];
      lock := lock.(state := Acquiring);
      exit := CallAcquire;
      lockPool := lockPool[lid := lock];
    }

    method WakeQueued(lid: LockId) returns (exit: Exit)
      requires lid in lockPool
      modifies this
      ensures AfterQueueWait(old(Lock(lid))) == Region(Lock(lid), exit, false)
      ensures lockPool == old(lockPool)[lid := Lock(lid)]
    {
      var lock := lockPool[lid];
      if lock.state == NoLock {
        lock := lock.(state := Acquiring);
        exit := CallAcquire;
      } else if lock.state == Free {
        lock := lock.(state := Locked);
        exit := Return;
      } else if lock.state == Locked {
        exit := Return;
      } else {
        exit := FallThrough;
      }
      lockPool := lockPool[lid := lock];
    }

    method Reply(lid: LockId, granted: bool) returns (exit: Exit)
      requires lid in lockPool
      modifies this
      ensures AfterReply(old(Lock(lid)), granted) == Region(Lock(lid), exit, false)
      ensures lockPool == old(lockPool)[lid := Lock(lid)]
    {
      var lock := lockPool[lid];
      if granted {
        lock := lock.(state := Locked);
        lockPool := lockPool[lid := lock];
        return Return;
      }
      if !lock.retryEarlier {
        return SleepRetry;
      }
      lock := lock.(retryEarlier := false);
      lockPool := lockPool[lid := lock];
      exit := if lock.state == Acquiring then CallAcquire else FallThrough;
    }

    method WakeRetry(lid: LockId) returns (exit: Exit)
      requires lid in lockPool
      modifies this
      ensures AfterRetryWait(old(Lock(lid))) == Region(Lock(lid), exit, false)
      ensures lockPool == old(lockPool)[lid := Lock(lid)]
    {
      var lock := lockPool[lid];
      lock := lock.(retryEarlier := false);
      lockPool := lockPool[lid := lock];
      exit := if lock.state == Acquiring then CallAcquire else FallThrough;
    }

    /** The tail shared by both ways through release; `wake` is the waiter signalled. */
    method DequeueWaiter(lid: LockId) returns (exit: Exit, signal: bool)
      requires lid in lockPool
      modifies this
      ensures Dequeue(old(Lock(lid))) == Region(Lock(lid), exit, signal)
      ensures lockPool == old(lockPool)[lid := Lock(lid)]
    {
      var lock := lockPool[lid];
      exit, signal := Return, false;
      if lock.queue == [] {
        exit := EmptyFront;
        return;
      }
      lock := lock.(queue := lock.queue[1..]);
      if lock.queue != [] {
        if !lock.revokeLater {
          lock := lock.(state := Locked);
        }
        signal := true;
      }
      lock := lock.(revokeLater := false);
      lockPool := lockPool[lid := lock];
    }

    /** release up to its RPC, or to its end when there is none; NOENT for an unknown lock. */
    method Release(lid: LockId) returns (known: bool, exit: Exit, signal: bool)
      modifies this
      ensures known <==> lid in old(lockPool)
      ensures !known ==> lockPool == old(lockPool)
      ensures known ==> EnterRelease(old(Lock(lid))) == Region(Lock(lid), exit, signal)
      ensures known ==> lockPool == old(lockPool)[lid := Lock(lid)]
    {
      known, exit, signal := true, CallRelease, false;
      if lid !in lockPool {
        known := false;
        return;
      }
      if lockPool[lid].revokeLater {
        lockPool := lockPool[lid := lockPool[lid].(state := Releasing)];
      } else {
        lockPool := lockPool[lid := lockPool[lid].(state := Free)];
        exit, signal := DequeueWaiter(lid);
      }
    }

    method ReleaseReturned(lid: LockId) returns (exit: Exit, signal: bool)
      requires lid in lockPool
      modifies this
      ensures AfterRelease(old(Lock(lid))) == Region(Lock(lid), exit, signal)
      ensures lockPool == old(lockPool)[lid := Lock(lid)]
    {
      lockPool := lockPool[lid := lockPool[lid].(state := NoLock)];
      exit, signal := DequeueWaiter(lid);
    }

    method Revoke(lid: LockId) returns (exit: Exit)
      modifies this
      ensures HandleRevoke(old(Lock(lid))) == Region(Lock(lid), exit, false)
      ensures lockPool == old(lockPool)[lid := Lock(lid)]
    {
      var lock := Lock(lid);
      if lock.state == Free {
        lock := lock.(state := Releasing);
        exit := CallRelease;
      } else {
        lock := lock.(revokeLater := true);
        exit := Return;
      }
      lockPool := lockPool[lid := lock];
    }

    method RevokeReleaseReturned(lid: LockId) returns (exit: Exit, signal: bool)
      requires lid in lockPool
      modifies this
      ensures AfterRevokeRelease(old(Lock(lid))) == Region(Lock(lid), exit, signal)
      ensures lockPool == old(lockPool)[lid := Lock(lid)]
    {
      var lock := lockPool[lid].(state := NoLock);
      exit, signal := Return, lock.queue != [];
      lockPool := lockPool[lid := lock];
    }

    method Retry(lid: LockId) returns (exit: Exit, signal: bool)
      modifies this
      ensures HandleRetry(old(Lock(lid))) == Region(Lock(lid), exit, signal)
      ensures lockPool == old(lockPool)[lid := Lock(lid)]
    {
      var lock := Lock(lid);
      lock := lock.(retryEarlier := true);
      exit, signal := if lock.queue == [] then EmptyFront else Return, lock.queue != [];
      lockPool := lockPool[lid := lock];
    }
  }
}
