/**
 The caching lock server (lock_server_cache.cc), one lock at a time.  Each region the
 server executes under its mutex is a function from the lock's record to its new record.
 */
module LockServer {
  import StringOrder

  /** Clients name themselves "host:port"; "" stands for no client. */
  type ClientId = string
  type LockId = nat

  datatype ServerState = Free | Locked | Revoking | Retrying

  datatype ServerLock = ServerLock(state: ServerState, holder: ClientId, retryer: ClientId, waiters: set<ClientId>)

  const FRESH := ServerLock(Free, "", "", {})

  /** A failed VERIFY aborts the server. */
  datatype AcquireOutcome = AcquireAborts | Answer(lock: ServerLock, granted: bool, revoke: bool)

  function AcquireRegion(l: ServerLock, id: ClientId): AcquireOutcome
  {
    match l.state
    case Free =>
      if l.waiters != {} then AcquireAborts
      else Answer(l.(state := Locked, holder := id), true, false)
    case Locked =>
      if l.waiters != {} || l.holder == "" || id == "" || l.holder == id then AcquireAborts
      else Answer(l.(state := Revoking, waiters := l.waiters + {id}), false, true)
    case Revoking =>
      if l.waiters == {} || l.holder == "" || id == "" || l.holder == id then AcquireAborts
      else Answer(l.(waiters := l.waiters + {id}), false, false)
    case Retrying =>
      if l.retryer == id then
        var granted := l.(retryer := "", holder := id);
        if l.waiters != {} then Answer(granted.(state := Revoking), true, true)
        else Answer(granted.(state := Locked), true, false)
      else
        Answer(l.(waiters := l.waiters + {id}), false, false)
  }

  datatype ReleaseOutcome = ReleaseAborts | Released(lock: ServerLock)

  /** `*waiter.begin()` of an empty set is undefined behaviour, so it counts as an abort. */
  function ReleaseRegion(l: ServerLock, id: ClientId): ReleaseOutcome
  {
    if l.state != Revoking || id != l.holder || l.waiters == {} then ReleaseAborts
    else
      var next := StringOrder.Least(l.waiters);
      Released(l.(state := Retrying, retryer := next, waiters := l.waiters - {next}, holder := ""))
  }

  /** What an answer to acquire means: the lock is the client's, or the client waits for it.  A VERIFY
      fails exactly when the record is out of step with its state, or the holder asks again. */
  lemma AcquireMeans(l: ServerLock, id: ClientId)
    ensures AcquireRegion(l, id).AcquireAborts? <==>
      || (l.state in {Free, Locked} && l.waiters != {})
      || (l.state == Revoking && l.waiters == {})
      || (l.state in {Locked, Revoking} && (l.holder == "" || id == "" || id == l.holder))
    ensures var a := AcquireRegion(l, id);
      a.Answer? ==>
        && (a.granted <==> l.state == Free || (l.state == Retrying && l.retryer == id))
        && (a.granted ==> a.lock.holder == id && a.lock.waiters == l.waiters && a.lock.state in {Locked, Revoking})
        && (!a.granted ==> a.lock.holder == l.holder && a.lock.waiters == l.waiters + {id})
        && (a.lock.state == Locked <==> a.lock.state != Retrying && a.lock.waiters == {})
        && (a.lock.state == Retrying <==> l.state == Retrying && !a.granted)
        && (a.revoke <==> a.lock.state == Revoking && l.state != Revoking)
        && a.lock.retryer == (if a.granted && l.state == Retrying then "" else l.retryer)
  {
  }

  /** A release passes the lock on to the first of those who wait. */
  lemma ReleaseMeans(l: ServerLock, id: ClientId)
    ensures ReleaseRegion(l, id).Released? <==> l.state == Revoking && l.holder == id && l.waiters != {}
    ensures var r := ReleaseRegion(l, id);
      r.Released? ==>
        && r.lock.state == Retrying && r.lock.holder == "" && StringOrder.IsLeast(r.lock.retryer, l.waiters)
        && r.lock.waiters == l.waiters - {r.lock.retryer}
  {
  }

  datatype Status = Ok | Retry | NoEnt

  class LockServerCache {
    var lockPool: map<LockId, ServerLock>

    constructor ()
      ensures lockPool == map[]
    {
      lockPool := map[];
    }

    /** The record `lock_pool[lid]` denotes, which is created on first use. */
    function Lock(lid: LockId): ServerLock
      reads this
    {
      if lid in lockPool then lockPool[lid] else FRESH
    }

    /** The part of acquire that holds the mutex; `aborted` reports a failed VERIFY. */
    method Acquire(lid: LockId, id: ClientId) returns (aborted: bool, ret: Status, needRevoke: bool)
      modifies this
      ensures aborted <==> AcquireRegion(old(Lock(lid)), id).AcquireAborts?
      ensures !aborted ==> AcquireRegion(old(Lock(lid)), id) == Answer(Lock(lid), ret == Ok, needRevoke)
      ensures !aborted ==> ret != NoEnt && lockPool.Keys == old(lockPool.Keys) + {lid}
      ensures forall other | other != lid :: Lock(other) == old(Lock(other))
    {
      if lid !in lockPool {
        lockPool := lockPool[lid := FRESH];
      }
      var lock := lockPool[lid];
      aborted, ret, needRevoke := false, Ok, false;
      match lock.state {
        case Free =>
          if lock.waiters != {} { aborted := true; return; }
          lock := lock.(state := Locked);
          lock := lock.(holder := id);
        case Locked =>
          if lock.waiters != {} { aborted := true; return; }
          if lock.holder == "" || id == "" || lock.holder == id { aborted := true; return; }
          lock := lock.(state := Revoking);
          lock := lock.(waiters := lock.waiters + {id});
          needRevoke := true;
          ret := Retry;
        case Revoking =>
          if lock.waiters == {} { aborted := true; return; }
          if lock.holder == "" || id == "" || lock.holder == id { aborted := true; return; }
          lock := lock.(waiters := lock.waiters + {id});
          ret := Retry;
        case Retrying =>
          if lock.retryer == id {
            lock := lock.(retryer := "");
            lock := lock.(holder := id);
            if lock.waiters != {} {
              lock := lock.(state := Revoking);
              needRevoke := true;
            } else {
              lock := lock.(state := Locked);
            }
          } else {
            lock := lock.(waiters := lock.waiters + {id});
            ret := Retry;
          }
      }
      lockPool := lockPool[lid := lock];
    }

    /** The part of release that holds the mutex. */
    method Release(lid: LockId, id: ClientId) returns (aborted: bool, ret: Status)
      modifies this
      ensures lid !in old(lockPool) ==> !aborted && ret == NoEnt && lockPool == old(lockPool)
      ensures lid in old(lockPool) ==>
                (aborted <==> ReleaseRegion(old(lockPool[lid]), id).ReleaseAborts?)
      ensures lid in old(lockPool) && !aborted ==>
                ret == Ok && lid in lockPool
                && ReleaseRegion(old(lockPool[lid]), id) == Released(lockPool[lid])
                && lockPool == old(lockPool)[lid := lockPool[lid]]
                && StringOrder.IsLeast(lockPool[lid].retryer, old(lockPool[lid]).waiters)
    {
      aborted, ret := false, Ok;
      if lid !in lockPool {
        ret := NoEnt;
        return;
      }
      var lock := lockPool[lid];
      if lock.state != Revoking || id != lock.holder || lock.waiters == {} {
        aborted := true;
        return;
      }
      lock := lock.(state := Retrying);
      lock := lock.(retryer := StringOrder.Least(lock.waiters));
      lock := lock.(waiters := lock.waiters - {lock.retryer});
      lock := lock.(holder := "");
      lockPool := lockPool[lid := lock];
    }
  }
}
