/**
 The server's window of remembered calls for one client (rpcs::checkduplicate_and_update and
 rpcs::add_reply): a list of call numbers in increasing order, each with its reply once there is
 one.
 */
module ReplyWindow {

  type Nonce = nat

  /** A packed reply: the handler's status and the marshalled results. */
  datatype Payload = Payload(ret: int, body: seq<bv8>)

  datatype Entry = Entry(xid: nat, present: bool, buf: Payload)

  const NO_BUF := Payload(0, [])

  datatype Verdict = New | InProgress | Done(buf: Payload) | Forgotten

  predicate Increasing(w: seq<Entry>)
  {
    forall i, j | 0 <= i < j < |w| :: w[i].xid < w[j].xid
  }

  predicate Listed(w: seq<Entry>, xid: nat)
  {
    exists i | 0 <= i < |w| :: w[i].xid == xid
  }

  /** The index of the first entry that is at least (or, if strict, beyond) xid. */
  function Position(w: seq<Entry>, xid: nat, strict: bool): (k: nat)
    ensures k <= |w|
    ensures forall j | 0 <= j < k :: if strict then w[j].xid <= xid else w[j].xid < xid
    ensures k < |w| ==> if strict then w[k].xid > xid else w[k].xid >= xid
  {
    if w == [] || (if strict then w[0].xid > xid else w[0].xid >= xid) then 0
    else 1 + Position(w[1..], xid, strict)
  }

  function Inserted(w: seq<Entry>, xid: nat): seq<Entry>
  {
    var k := Position(w, xid, true);
    w[..k] + [Entry(xid, false, NO_BUF)] + w[k..]
  }

  function Trimmed(w: seq<Entry>, xidRep: nat): seq<Entry>
  {
    w[Position(w, xidRep, false)..]
  }

  /** Remember a new call, then drop every entry strictly below xidRep. */
  function Remember(w: seq<Entry>, xid: nat, xidRep: nat): seq<Entry>
  {
    Trimmed(Inserted(w, xid), xidRep)
  }

  function Find(w: seq<Entry>, xid: nat): (k: nat)
    ensures k <= |w| && (k < |w| <==> Listed(w, xid)) && (k < |w| ==> w[k].xid == xid)
    ensures forall j | 0 <= j < k :: w[j].xid != xid
  {
    if w == [] then 0
    else if w[0].xid == xid then assert Listed(w, xid); 0
    else
      var k := Find(w[1..], xid);
      assert Listed(w, xid) <==> Listed(w[1..], xid) by {
        if i :| 0 <= i < |w| && w[i].xid == xid { assert w[1..][i - 1].xid == xid; }
      }
      1 + k
  }

  function Check(w: seq<Entry>, xid: nat): Verdict
  {
    var k := Find(w, xid);
    if k < |w| then (if w[k].present then Done(w[k].buf) else InProgress)
    else if w != [] && xid < w[0].xid then Forgotten
    else New
  }

  function AfterCheck(w: seq<Entry>, xid: nat, xidRep: nat): seq<Entry>
  {
    if Check(w, xid) == New then Remember(w, xid, xidRep) else w
  }

  function Answered(w: seq<Entry>, xid: nat, buf: Payload): (w': seq<Entry>)
    ensures |w'| == |w|
    ensures forall i | 0 <= i < |w| :: w'[i] == if w[i].xid == xid then Entry(xid, true, buf) else w[i]
  {
    seq(|w|, i requires 0 <= i < |w| => if w[i].xid == xid then Entry(xid, true, buf) else w[i])
  }

  class ReplyWindows {
    var replyWindow: map<Nonce, seq<Entry>>

    constructor ()
      ensures replyWindow == map[]
    {
      replyWindow := map[];
    }

    function Of(nonce: Nonce): seq<Entry>
      reads this
    {
      if nonce in replyWindow then replyWindow[nonce] else []
    }

    method CheckDuplicateAndUpdate(nonce: Nonce, xid: nat, xidRep: nat) returns (v: Verdict)
      modifies this
      ensures v == Check(old(Of(nonce)), xid)
      ensures replyWindow == old(replyWindow)[nonce := AfterCheck(old(Of(nonce)), xid, xidRep)]
    {
      var rlist := Of(nonce);
      replyWindow := replyWindow[nonce := rlist];
      var it := Search(rlist, xid);
      if it < |rlist| {
        return if rlist[it].present then Done(rlist[it].buf) else InProgress;
      }
      if |rlist| > 0 && xid < rlist[0].xid {
        return Forgotten;
      }
      it := Scan(rlist, xid, true);
      rlist := rlist[..it] + [Entry(xid, false, NO_BUF)] + rlist[it..];
      it := Scan(rlist, xidRep, false);
      rlist := rlist[it..];
      replyWindow := replyWindow[nonce := rlist];
      v := New;
    }

    /** The first loop: stop at the entry of this call. */
    static method Search(rlist: seq<Entry>, xid: nat) returns (it: nat)
      ensures it == Find(rlist, xid)
    {
      it := 0;
      while it < |rlist|
        invariant 0 <= it <= |rlist|
        invariant forall j | 0 <= j < it :: rlist[j].xid != xid
      {
        if rlist[it].xid == xid {
          return;
        }
        it := it + 1;
      }
    }

    /** The loops that look for where to insert and up to where to erase. */
    static method Scan(rlist: seq<Entry>, xid: nat, strict: bool) returns (it: nat)
      ensures it == Position(rlist, xid, strict)
    {
      it := 0;
      while it < |rlist|
        invariant 0 <= it <= |rlist|
        invariant forall j | 0 <= j < it :: if strict then rlist[j].xid <= xid else rlist[j].xid < xid
      {
        if if strict then rlist[it].xid > xid else rlist[it].xid >= xid {
          break;
        }
        it := it + 1;
      }
    }

    method AddReply(nonce: Nonce, xid: nat, buf: Payload)
      modifies this
      ensures replyWindow == old(replyWindow)[nonce := Answered(old(Of(nonce)), xid, buf)]
    {
      var rlist := Of(nonce);
      var it := 0;
      while it < |rlist|
        invariant 0 <= it <= |rlist| == |old(Of(nonce))|
        invariant forall j | 0 <= j < it :: rlist[j] == Answered(old(Of(nonce)), xid, buf)[j]
        invariant forall j | it <= j < |rlist| :: rlist[j] == old(Of(nonce))[j]
      {
        if rlist[it].xid == xid {
          rlist := rlist[it := Entry(xid, true, buf)];
        }
        it := it + 1;
      }
      assert rlist == Answered(old(Of(nonce)), xid, buf);
      replyWindow := replyWindow[nonce := rlist];
    }
  }

  // ---- what the window remembers -------------------------------------------------------

  /** The window has heard of the call: it lists it, or has moved past it. */
  predicate Knows(w: seq<Entry>, xid: nat)
  {
    Listed(w, xid) || (w != [] && xid < w[0].xid)
  }

  /** A call is New exactly when the window does not know it. */
  lemma NewMeansUnknown(w: seq<Entry>, xid: nat)
    ensures Check(w, xid) == New <==> !Knows(w, xid)
  {
  }

  /** What the verdicts say about a window in order. */
  lemma VerdictMeans(w: seq<Entry>, xid: nat)
    requires Increasing(w)
    ensures forall buf :: Check(w, xid) == Done(buf) <==> Entry(xid, true, buf) in w
    ensures Check(w, xid) == InProgress <==> exists buf :: Entry(xid, false, buf) in w
    ensures Check(w, xid) == Forgotten <==> !Listed(w, xid) && w != [] && xid < w[0].xid
  {
    var k := Find(w, xid);
    forall e | e in w && e.xid == xid ensures k < |w| && e == w[k] {
      var i :| 0 <= i < |w| && w[i] == e;
    }
    if k < |w| {
      assert w[k] in w && w[k] == Entry(xid, w[k].present, w[k].buf);
    }
  }

  lemma InsertedOrder(w: seq<Entry>, xid: nat)
    requires Increasing(w) && !Listed(w, xid)
    ensures Increasing(Inserted(w, xid))
    ensures w != [] && w[0].xid < xid ==> Inserted(w, xid)[0] == w[0]
  {
    var k, w' := Position(w, xid, true), Inserted(w, xid);
    forall i, j | 0 <= i < j < |w'| ensures w'[i].xid < w'[j].xid {
      assert w'[i] == if i < k then w[i] else if i == k then Entry(xid, false, NO_BUF) else w[i - 1];
      assert w'[j] == if j < k then w[j] else if j == k then Entry(xid, false, NO_BUF) else w[j - 1];
    }
  }

  lemma InsertedFacts(w: seq<Entry>, xid: nat)
    requires Increasing(w) && !Listed(w, xid)
    ensures var w' := Inserted(w, xid);
            && Increasing(w') && w' != []
            && (forall e :: e in w' <==> e in w || e == Entry(xid, false, NO_BUF))
            && (w != [] && w[0].xid < xid ==> w'[0] == w[0])
  {
    InsertedOrder(w, xid);
    var k := Position(w, xid, true);
    assert w == w[..k] + w[k..];
  }

  /** Which entries are cut off. */
  lemma TrimmedAt(w: seq<Entry>, xidRep: nat, k: nat)
    requires Increasing(w) && k == Position(w, xidRep, false)
    ensures k <= |w| && Trimmed(w, xidRep) == w[k..]
    ensures forall i | 0 <= i < |w| :: i < k <==> w[i].xid < xidRep
  {
  }

  lemma InTail(w: seq<Entry>, k: nat, e: Entry)
    requires k <= |w|
    ensures e in w[k..] <==> exists i :: k <= i < |w| && w[i] == e
  {
    if i :| k <= i < |w| && w[i] == e {
      assert w[k..][i - k] == e;
    }
  }

  lemma TrimmedFacts(w: seq<Entry>, xidRep: nat)
    requires Increasing(w)
    ensures var w' := Trimmed(w, xidRep);
            && Increasing(w')
            && (forall e :: e in w' <==> e in w && e.xid >= xidRep)
            && (w' != [] ==> w[0].xid <= w'[0].xid && w'[0].xid >= xidRep)
            && (w != [] && w[0].xid >= xidRep ==> w' == w)
  {
    var k := Position(w, xidRep, false);
    TrimmedAt(w, xidRep, k);
    forall e ensures e in w[k..] <==> e in w && e.xid >= xidRep {
      InTail(w, k, e);
    }
  }

  /** Membership of a call number, by entry. */
  lemma ListedIn(w: seq<Entry>, xid: nat)
    ensures Listed(w, xid) <==> exists e :: e in w && e.xid == xid
  {
    if Listed(w, xid) {
      var i :| 0 <= i < |w| && w[i].xid == xid;
      assert w[i] in w;
    }
  }

  /** Remembering a call loses no knowledge, because the call itself is never below xidRep and
      stays behind as a sentinel. */
  lemma RememberKnows(w: seq<Entry>, xid: nat, xidRep: nat, x: nat)
    requires Increasing(w) && !Knows(w, xid) && xidRep <= xid
    ensures var w' := Remember(w, xid, xidRep);
            && Increasing(w') && w' != []
            && (forall e :: e in w' <==> (e in w || e == Entry(xid, false, NO_BUF)) && e.xid >= xidRep)
            && w'[0].xid >= xidRep && (w != [] ==> w[0].xid <= w'[0].xid)
            && (Knows(w, x) || x == xid ==> Knows(w', x))
  {
    var u, w' := Inserted(w, xid), Remember(w, xid, xidRep);
    InsertedFacts(w, xid);
    TrimmedFacts(u, xidRep);
    assert Entry(xid, false, NO_BUF) in w';
    ListedIn(w, x);
    ListedIn(w', x);
  }
}
