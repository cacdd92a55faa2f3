/** What every call returns, told from the steps of a run. */
module RpcCalls {
  import opened Options
  import opened XidWindow
  import opened ReplyWindow
  import opened RpcSystem
  import opened RpcInvariant
  import opened RpcForgotten
  import opened RpcReplies

  // ---- runs with their steps -----------------------------------------------------------------

  ghost predicate StepAt(run: seq<System>, steps: seq<Step>, i: nat)
    requires i < |steps| < |run|
  {
    Enabled(run[i], steps[i]) && run[i + 1] == Apply(run[i], steps[i])
  }

  ghost predicate IsTaken(run: seq<System>, steps: seq<Step>)
  {
    |run| == |steps| + 1 && Init(run[0]) && forall i: nat | i < |steps| :: StepAt(run, steps, i)
  }

  lemma TakenIsRun(run: seq<System>, steps: seq<Step>)
    requires IsTaken(run, steps)
    ensures IsRun(run)
  {
    forall i | 0 <= i < |run| - 1 ensures Next(run[i], run[i + 1]) {
      assert StepAt(run, steps, i);
    }
  }

  lemma TakenMore(run: seq<System>, S': System, steps: seq<Step>, step: Step)
    requires IsTaken(run, steps) && Enabled(run[|steps|], step) && S' == Apply(run[|steps|], step)
    ensures IsTaken(run + [S'], steps + [step])
  {
    var run', steps' := run + [S'], steps + [step];
    forall i: nat | i < |steps'| ensures StepAt(run', steps', i) {
      if i < |steps| {
        assert StepAt(run, steps, i);
        assert run'[i] == run[i] && run'[i + 1] == run[i + 1] && steps'[i] == steps[i];
      }
    }
  }

  /** Every run can be seen so. */
  lemma {:induction false} RunIsTaken(run: seq<System>) returns (steps: seq<Step>)
    requires IsRun(run)
    ensures IsTaken(run, steps)
  {
    var n := |run| - 1;
    if n == 0 {
      steps := [];
    } else {
      forall i | 0 <= i < n - 1 ensures Next(run[..n][i], run[..n][i + 1]) {
        assert Next(run[i], run[i + 1]);
      }
      var before := RunIsTaken(run[..n]);
      assert Next(run[n - 1], run[n - 1 + 1]);
      var step :| Enabled(run[n - 1], step) && run[n] == Apply(run[n - 1], step);
      TakenMore(run[..n], run[n], before, step);
      assert run == run[..n] + [run[n]];
      steps := before + [step];
    }
  }

  lemma ClientsAfter(S: System, step: Step)
    requires Enabled(S, step)
    ensures Apply(S, step).clients.Keys == S.clients.Keys
  {
  }

  lemma {:induction false} SameClients(run: seq<System>, steps: seq<Step>, i: nat)
    requires IsTaken(run, steps) && i <= |steps|
    ensures run[i].clients.Keys == run[0].clients.Keys
  {
    if i > 0 {
      SameClients(run, steps, i - 1);
      assert StepAt(run, steps, i - 1);
      ClientsAfter(run[i - 1], steps[i - 1]);
    }
  }

  // ---- what happens to a call ----------------------------------------------------------------

  /** Step a makes call x of client n. */
  ghost predicate Makes(run: seq<System>, steps: seq<Step>, n: Nonce, x: nat, a: nat)
  {
    && a < |steps| < |run| && steps[a].Issue? && steps[a].n == n
    && n in run[a].clients && run[a].clients[n].xid == x
  }

  /** A reply to call x of client n arrives. */
  predicate Arrives(step: Step, n: Nonce, x: nat)
  {
    step.Receive? && step.reply.nonce == n && step.reply.xid == x
  }

  /** The calls of client n are cancelled between steps a and b. */
  ghost predicate CancelledIn(steps: seq<Step>, n: Nonce, a: nat, b: nat)
    requires b <= |steps|
  {
    exists c: nat :: a < c < b && steps[c] == Cancel(n)
  }

  /** Step j is the first between a and b at which a reply to call x of client n arrives. */
  ghost predicate FirstReply(steps: seq<Step>, n: Nonce, x: nat, a: nat, b: nat, j: nat)
    requires b <= |steps|
  {
    a < j < b && Arrives(steps[j], n, x) && forall k: nat | a < k < j :: !Arrives(steps[k], n, x)
  }

  ghost predicate NoReply(steps: seq<Step>, n: Nonce, x: nat, a: nat, b: nat)
    requires b <= |steps|
  {
    forall k: nat | a < k < b :: !Arrives(steps[k], n, x)
  }

  /** The record of a call made at step a, when step i is about to be taken. */
  ghost predicate StandsAs(run: seq<System>, steps: seq<Step>, n: Nonce, x: nat, a: nat, i: nat, call: Call)
  {
    && Makes(run, steps, n, x, a) && a < i <= |steps|
    && call.request == Request(n, x, Front(run[a].clients[n].reported), steps[a].bind, steps[a].args)
    && (call.done <==> CancelledIn(steps, n, a, i) || !NoReply(steps, n, x, a, i))
    && (CancelledIn(steps, n, a, i) ==> call.result.ret == CANCEL_FAILURE)
    && (!CancelledIn(steps, n, a, i) ==>
          forall j: nat | FirstReply(steps, n, x, a, i, j) :: call.result == steps[j].reply.payload)
  }

  lemma OneMoreCancel(steps: seq<Step>, n: Nonce, a: nat, i: nat)
    requires a < i < |steps|
    ensures CancelledIn(steps, n, a, i + 1) <==> CancelledIn(steps, n, a, i) || steps[i] == Cancel(n)
  {
    if c: nat :| a < c < i + 1 && steps[c] == Cancel(n) {
      assert c < i ==> CancelledIn(steps, n, a, i);
    }
    if c: nat :| a < c < i && steps[c] == Cancel(n) {
      assert a < c < i + 1;
    }
  }

  lemma OneMoreReply(steps: seq<Step>, n: Nonce, x: nat, a: nat, i: nat, j: nat)
    requires a < i < |steps|
    ensures NoReply(steps, n, x, a, i + 1) <==> NoReply(steps, n, x, a, i) && !Arrives(steps[i], n, x)
    ensures FirstReply(steps, n, x, a, i + 1, j) <==>
            FirstReply(steps, n, x, a, i, j) || (j == i && Arrives(steps[i], n, x) && NoReply(steps, n, x, a, i))
  {
  }

  lemma ReplyHasFirst(steps: seq<Step>, n: Nonce, x: nat, a: nat, b: nat, k: nat)
    requires a < k < b <= |steps| && Arrives(steps[k], n, x)
    ensures exists j: nat :: FirstReply(steps, n, x, a, b, j)
    decreases k
  {
    if j: nat :| a < j < k && Arrives(steps[j], n, x) {
      ReplyHasFirst(steps, n, x, a, b, j);
    } else {
      assert FirstReply(steps, n, x, a, b, k);
    }
  }

  /** What one step does to the record of a call. */
  function Touched(call: Call, step: Step, n: Nonce, x: nat): Call
  {
    if step == Cancel(n) then call.(done := true, result := call.result.(ret := CANCEL_FAILURE))
    else if Arrives(step, n, x) && !call.done then call.(done := true, result := step.reply.payload)
    else call
  }

  lemma TouchedIs(S: System, step: Step, n: Nonce, x: nat)
    requires Enabled(S, step) && n in S.clients && x in Apply(S, step).clients[n].calls
    requires !(step.Issue? && step.n == n && S.clients[n].xid == x)
    ensures x in S.clients[n].calls
    ensures Apply(S, step).clients[n].calls[x] == Touched(S.clients[n].calls[x], step, n, x)
  {
  }

  lemma TouchedStands(run: seq<System>, steps: seq<Step>, n: Nonce, x: nat, a: nat, i: nat, call: Call)
    requires StandsAs(run, steps, n, x, a, i, call) && i < |steps|
    ensures StandsAs(run, steps, n, x, a, i + 1, Touched(call, steps[i], n, x))
  {
    OneMoreCancel(steps, n, a, i);
    OneMoreReply(steps, n, x, a, i, i);
    var call' := Touched(call, steps[i], n, x);
    if !CancelledIn(steps, n, a, i + 1) {
      forall j: nat | FirstReply(steps, n, x, a, i + 1, j) ensures call'.result == steps[j].reply.payload {
        OneMoreReply(steps, n, x, a, i, j);
        if FirstReply(steps, n, x, a, i, j) {
          assert !NoReply(steps, n, x, a, i);
        }
      }
    }
  }

  /** In every run a call that is waiting stands as the steps since it was made have left it. */
  lemma {:induction false} WaitingStands(run: seq<System>, steps: seq<Step>, i: nat, n: Nonce, x: nat) returns (a: nat)
    requires IsTaken(run, steps) && i <= |steps| && n in run[i].clients && x in run[i].clients[n].calls
    ensures StandsAs(run, steps, n, x, a, i, run[i].clients[n].calls[x])
  {
    if i == 0 {
      assert false;
    } else {
      SameClients(run, steps, i);
      SameClients(run, steps, i - 1);
      assert StepAt(run, steps, i - 1);
      var S, step := run[i - 1], steps[i - 1];
      if step.Issue? && step.n == n && S.clients[n].xid == x {
        a := i - 1;
      } else {
        TouchedIs(S, step, n, x);
        a := WaitingStands(run, steps, i - 1, n, x);
        TouchedStands(run, steps, n, x, a, i - 1, S.clients[n].calls[x]);
      }
    }
  }

  // ---- what a call returns -------------------------------------------------------------------

  /** What the call made at step a returns at step b: -7 if it was cancelled, otherwise the payload of the
      first reply that arrived for it, and -1 if there was none. */
  ghost predicate ReturnsAs(run: seq<System>, steps: seq<Step>, n: Nonce, x: nat, a: nat, b: nat, call: Call)
  {
    && Makes(run, steps, n, x, a) && a < b < |steps| && steps[b] == Return(n, x)
    && call.request == Request(n, x, Front(run[a].clients[n].reported), steps[a].bind, steps[a].args)
    && (CancelledIn(steps, n, a, b) ==> call.result.ret == CANCEL_FAILURE)
    && (!CancelledIn(steps, n, a, b) ==>
          forall j: nat | FirstReply(steps, n, x, a, b, j) :: call.result == steps[j].reply.payload)
    && (!CancelledIn(steps, n, a, b) && NoReply(steps, n, x, a, b) ==> call.result == Payload(TIMEOUT_FAILURE, []))
  }

  lemma ReturnStep(run: seq<System>, steps: seq<Step>, b: nat, n: Nonce, x: nat) returns (a: nat)
    requires IsTaken(run, steps) && b < |steps| && steps[b] == Return(n, x)
    ensures n in run[b + 1].clients && x in run[b + 1].clients[n].returned
    ensures ReturnsAs(run, steps, n, x, a, b, run[b + 1].clients[n].returned[x])
  {
    assert StepAt(run, steps, b);
    a := WaitingStands(run, steps, b, n, x);
    var call := run[b].clients[n].calls[x];
    assert run[b + 1].clients[n].returned[x] == ReturnedCall(call);
    if !NoReply(steps, n, x, a, b) {
      var k: nat :| a < k < b && Arrives(steps[k], n, x);
      ReplyHasFirst(steps, n, x, a, b, k);
    }
  }

  lemma ReturnedBefore(S: System, step: Step, n: Nonce, x: nat)
    requires Enabled(S, step) && n in S.clients && x in Apply(S, step).clients[n].returned && step != Return(n, x)
    ensures x in S.clients[n].returned && Apply(S, step).clients[n].returned[x] == S.clients[n].returned[x]
  {
  }

  lemma {:induction false} ReturnedOnce(run: seq<System>, steps: seq<Step>, i: nat, n: Nonce, x: nat)
    returns (a: nat, b: nat)
    requires IsTaken(run, steps) && i <= |steps| && n in run[i].clients && x in run[i].clients[n].returned
    ensures b < i && ReturnsAs(run, steps, n, x, a, b, run[i].clients[n].returned[x])
  {
    if i == 0 {
      assert false;
    } else {
      SameClients(run, steps, i);
      SameClients(run, steps, i - 1);
      assert StepAt(run, steps, i - 1);
      if steps[i - 1] == Return(n, x) {
        b := i - 1;
        a := ReturnStep(run, steps, b, n, x);
      } else {
        ReturnedBefore(run[i - 1], steps[i - 1], n, x);
        a, b := ReturnedOnce(run, steps, i - 1, n, x);
      }
    }
  }

  /** What arrives is the outcome of an execution or the failure -4. */
  lemma ArrivedStatus(run: seq<System>, steps: seq<Step>, j: nat)
    requires IsTaken(run, steps) && j < |steps| && steps[j].Receive?
    ensures steps[j].reply.payload.ret >= 0 || steps[j].reply.payload == REFUSAL
  {
    TakenIsRun(run, steps);
    RunSendsExactly(run, j);
    assert StepAt(run, steps, j);
    var p := steps[j].reply;
    if p.payload != REFUSAL {
      var execs := run[j].execs;
      var k :| 0 <= k < |execs| && IsFor(execs[k], p.nonce, p.xid) && execs[k].outcome == Some(p.payload);
    }
  }

  /** In every run a call has returned the payload of the first reply that arrived while it was waiting,
      unless it was cancelled; its status is -7 exactly when it was cancelled, and -1 exactly when it was
      not and no reply arrived. */
  lemma CallReturns(run: seq<System>, steps: seq<Step>, i: nat, n: Nonce, x: nat) returns (a: nat, b: nat)
    requires IsTaken(run, steps) && i <= |steps| && n in run[i].clients && x in run[i].clients[n].returned
    ensures b < i && ReturnsAs(run, steps, n, x, a, b, run[i].clients[n].returned[x])
    ensures var ret := run[i].clients[n].returned[x].result.ret;
            && (ret == CANCEL_FAILURE <==> CancelledIn(steps, n, a, b))
            && (ret == TIMEOUT_FAILURE <==> !CancelledIn(steps, n, a, b) && NoReply(steps, n, x, a, b))
  {
    a, b := ReturnedOnce(run, steps, i, n, x);
    if !CancelledIn(steps, n, a, b) && !NoReply(steps, n, x, a, b) {
      var k: nat :| a < k < b && Arrives(steps[k], n, x);
      ReplyHasFirst(steps, n, x, a, b, k);
      var j: nat :| FirstReply(steps, n, x, a, b, j);
      ArrivedStatus(run, steps, j);
    }
  }

  // ---- reports, binding and closing ----------------------------------------------------------

  /** A step at which client n learns that call x needs no reply any more. */
  predicate Reports(step: Step, n: Nonce, x: nat)
  {
    Arrives(step, n, x) || step == Return(n, x)
  }

  /** One of the first i steps did so. */
  ghost predicate ReportedBy(steps: seq<Step>, n: Nonce, x: nat, i: nat)
    requires i <= |steps|
  {
    exists j: nat :: j < i && Reports(steps[j], n, x)
  }

  lemma OneMoreReport(steps: seq<Step>, n: Nonce, x: nat, i: nat)
    requires i < |steps|
    ensures ReportedBy(steps, n, x, i + 1) <==> ReportedBy(steps, n, x, i) || Reports(steps[i], n, x)
  {
    if j: nat :| j < i && Reports(steps[j], n, x) {
      assert j < i + 1;
    }
    if Reports(steps[i], n, x) {
      assert i < i + 1;
    }
  }

  lemma ReportedAfter(S: System, step: Step, n: Nonce, x: nat)
    requires Enabled(S, step) && n in S.clients
    ensures n in Apply(S, step).clients
    ensures x in Apply(S, step).clients[n].reported <==> x in S.clients[n].reported || Reports(step, n, x)
  {
  }

  /** In every run the calls reported are those for which a reply arrived or which returned. */
  lemma {:induction false} ReportedExactly(run: seq<System>, steps: seq<Step>, i: nat, n: Nonce, x: nat)
    requires IsTaken(run, steps) && i <= |steps| && n in run[i].clients
    ensures x in run[i].clients[n].reported <==> ReportedBy(steps, n, x, i)
  {
    if i == 0 {
      assert run[0].clients[n] == FRESH;
    } else {
      SameClients(run, steps, i);
      SameClients(run, steps, i - 1);
      assert StepAt(run, steps, i - 1);
      ReportedExactly(run, steps, i - 1, n, x);
      ReportedAfter(run[i - 1], steps[i - 1], n, x);
      OneMoreReport(steps, n, x, i - 1);
    }
  }

  lemma RequestBefore(S: System, step: Step, r: Request)
    requires Enabled(S, step) && r in Apply(S, step).requests
    ensures r in S.requests || (step.Issue? && r == NewRequest(S.clients[step.n], step.n, step.bind, step.args))
  {
  }

  /** In every run each request was made by a call, with the call's number and arguments, and
      acknowledges exactly the calls reported without a gap by then. */
  lemma {:induction false} RequestsAcknowledge(run: seq<System>, steps: seq<Step>, i: nat, r: Request) returns (a: nat)
    requires IsTaken(run, steps) && i <= |steps| && r in run[i].requests
    ensures a < i && Makes(run, steps, r.nonce, r.xid, a) && r.bind == steps[a].bind && r.args == steps[a].args
    ensures forall x: nat | 1 <= x <= r.xidRep :: ReportedBy(steps, r.nonce, x, a)
    ensures !ReportedBy(steps, r.nonce, r.xidRep + 1, a)
  {
    if i == 0 {
      assert false;
    } else {
      assert StepAt(run, steps, i - 1);
      RequestBefore(run[i - 1], steps[i - 1], r);
      if r in run[i - 1].requests {
        a := RequestsAcknowledge(run, steps, i - 1, r);
      } else {
        a := i - 1;
        forall x: nat | 1 <= x <= r.xidRep ensures ReportedBy(steps, r.nonce, x, a) {
          ReportedExactly(run, steps, a, r.nonce, x);
        }
        ReportedExactly(run, steps, a, r.nonce, r.xidRep + 1);
      }
    }
  }

  /** At step b a call of bind returns 0. */
  ghost predicate BindReturns(run: seq<System>, steps: seq<Step>, n: Nonce, b: nat)
  {
    && b < |steps| && b + 1 < |run| && steps[b].Return? && steps[b].n == n && n in run[b + 1].clients
    && steps[b].xid in run[b + 1].clients[n].returned
    && run[b + 1].clients[n].returned[steps[b].xid].request.bind
    && run[b + 1].clients[n].returned[steps[b].xid].result.ret == 0
  }

  lemma BoundAfter(run: seq<System>, steps: seq<Step>, i: nat, n: Nonce)
    requires i < |steps| < |run| && StepAt(run, steps, i) && n in run[i].clients
    ensures n in run[i + 1].clients
    ensures run[i + 1].clients[n].bound <==> run[i].clients[n].bound || BindReturns(run, steps, n, i)
  {
  }

  /** In every run a client is bound exactly when a call of bind has returned 0. */
  lemma {:induction false} BoundExactly(run: seq<System>, steps: seq<Step>, i: nat, n: Nonce)
    requires IsTaken(run, steps) && i <= |steps| && n in run[i].clients
    ensures run[i].clients[n].bound <==> exists b: nat :: b < i && BindReturns(run, steps, n, b)
  {
    if i == 0 {
      assert run[0].clients[n] == FRESH;
    } else {
      SameClients(run, steps, i);
      SameClients(run, steps, i - 1);
      assert StepAt(run, steps, i - 1);
      BoundExactly(run, steps, i - 1, n);
      BoundAfter(run, steps, i - 1, n);
      if b: nat :| b < i - 1 && BindReturns(run, steps, n, b) {
        assert b < i;
      }
      if BindReturns(run, steps, n, i - 1) {
        assert i - 1 < i;
      }
    }
  }

  /** At step c calls of client n that wait are cancelled. */
  ghost predicate CancelsCalls(run: seq<System>, steps: seq<Step>, n: Nonce, c: nat)
  {
    c < |steps| && c < |run| && steps[c] == Cancel(n) && n in run[c].clients && run[c].clients[n].calls != map[]
  }

  lemma ClosingAfter(run: seq<System>, steps: seq<Step>, i: nat, n: Nonce)
    requires i < |steps| < |run| && StepAt(run, steps, i) && n in run[i].clients
    ensures n in run[i + 1].clients
    ensures run[i + 1].clients[n].closing <==> run[i].clients[n].closing || CancelsCalls(run, steps, n, i)
  {
  }

  /** In every run a client is closing exactly when calls of it that waited have been cancelled. */
  lemma {:induction false} ClosingExactly(run: seq<System>, steps: seq<Step>, i: nat, n: Nonce)
    requires IsTaken(run, steps) && i <= |steps| && n in run[i].clients
    ensures run[i].clients[n].closing <==> exists c: nat :: c < i && CancelsCalls(run, steps, n, c)
  {
    if i == 0 {
      assert run[0].clients[n] == FRESH;
    } else {
      SameClients(run, steps, i);
      SameClients(run, steps, i - 1);
      assert StepAt(run, steps, i - 1);
      ClosingExactly(run, steps, i - 1, n);
      ClosingAfter(run, steps, i - 1, n);
      if c: nat :| c < i - 1 && CancelsCalls(run, steps, n, c) {
        assert c < i;
      }
      if CancelsCalls(run, steps, n, i - 1) {
        assert i - 1 < i;
      }
    }
  }

  /** In every run a client can make a call exactly when bind has returned 0 before, and call bind exactly
      when it has not; and neither once calls of it that waited have been cancelled. */
  lemma CanCallExactly(run: seq<System>, steps: seq<Step>, i: nat, n: Nonce, bind: bool, args: Bytes)
    requires IsTaken(run, steps) && i <= |steps| && n in run[i].clients
    ensures Enabled(run[i], Issue(n, bind, args)) <==>
      && (bind <==> forall b: nat | b < i :: !BindReturns(run, steps, n, b))
      && (forall c: nat | c < i :: !CancelsCalls(run, steps, n, c))
  {
    BoundExactly(run, steps, i, n);
    ClosingExactly(run, steps, i, n);
  }

  // ---- a waiting call can always be answered -------------------------------------------------

  /** These steps lead from S to S'. */
  ghost predicate Leads(S: System, steps: seq<Step>, S': System)
    decreases |steps|
  {
    if steps == [] then S' == S
    else Enabled(S, steps[0]) && Leads(Apply(S, steps[0]), steps[1..], S')
  }

  lemma LeadsOne(S: System, step: Step, steps: seq<Step>, S': System)
    requires Enabled(S, step) && Leads(Apply(S, step), steps, S')
    ensures Leads(S, [step] + steps, S')
  {
    assert ([step] + steps)[1..] == steps;
  }

  /** Call x of client n waits and nothing has come for it. */
  ghost predicate Waits(S: System, n: Nonce, x: nat)
  {
    n in S.clients && x in S.clients[n].calls && !S.clients[n].calls[x].done
  }

  /** A reply in the network can arrive, and the call returns it. */
  lemma ReplyCompletes(S: System, n: Nonce, x: nat, p: Payload) returns (steps: seq<Step>, S': System)
    requires Waits(S, n, x) && Reply(n, x, p) in S.replies
    ensures Leads(S, steps, S') && n in S'.clients && x in S'.clients[n].returned
    ensures S'.clients[n].returned[x].result == p
  {
    var S1 := Apply(S, Receive(Reply(n, x, p)));
    S' := Apply(S1, Return(n, x));
    LeadsOne(S1, Return(n, x), [], S');
    LeadsOne(S, Receive(Reply(n, x, p)), [Return(n, x)] + [], S');
    steps := [Receive(Reply(n, x, p))] + ([Return(n, x)] + []);
  }

  /** The handler can end, and then the call returns what it produced. */
  lemma FinishCompletes(S: System, n: Nonce, x: nat, k: nat, p: Payload) returns (steps: seq<Step>, S': System)
    requires Waits(S, n, x) && k < |S.execs| && IsFor(S.execs[k], n, x) && S.execs[k].outcome == None && p.ret >= 0
    ensures Leads(S, steps, S') && n in S'.clients && x in S'.clients[n].returned
    ensures S'.clients[n].returned[x].result == p
  {
    var S1 := Apply(S, Finish(k, p));
    var more;
    more, S' := ReplyCompletes(S1, n, x, p);
    LeadsOne(S, Finish(k, p), more, S');
    steps := [Finish(k, p)] + more;
  }

  lemma RunCompletes(S: System, n: Nonce, x: nat, r: Request) returns (steps: seq<Step>, S': System)
    requires Waits(S, n, x) && r in S.requests && r.nonce == n && r.xid == x
    requires OnlyRuns(S, Apply(S, Deliver(r)), r)
    ensures Leads(S, steps, S') && n in S'.clients && x in S'.clients[n].returned
    ensures S'.clients[n].returned[x].result.ret >= 0
  {
    var S1 := Apply(S, Deliver(r));
    var more;
    more, S' := FinishCompletes(S1, n, x, |S.execs|, Payload(0, []));
    LeadsOne(S, Deliver(r), more, S');
    steps := [Deliver(r)] + more;
  }

  lemma SendCompletes(S: System, n: Nonce, x: nat, r: Request, p: Payload) returns (steps: seq<Step>, S': System)
    requires Waits(S, n, x) && r in S.requests && r.nonce == n && r.xid == x
    requires OnlySends(S, Apply(S, Deliver(r)), {Reply(n, x, p)})
    ensures Leads(S, steps, S') && n in S'.clients && x in S'.clients[n].returned
    ensures S'.clients[n].returned[x].result == p
  {
    var S1 := Apply(S, Deliver(r));
    var more;
    more, S' := ReplyCompletes(S1, n, x, p);
    LeadsOne(S, Deliver(r), more, S');
    steps := [Deliver(r)] + more;
  }

  /** From every state of every run, a call that waits can still return: with a status that its
      execution produced, or with the failure -4 if the server has passed it by. */
  lemma WaitingCanReturn(run: seq<System>, i: nat, n: Nonce, x: nat) returns (steps: seq<Step>, S': System)
    requires IsRun(run) && i < |run| && Waits(run[i], n, x)
    ensures Leads(run[i], steps, S') && n in S'.clients && x in S'.clients[n].returned
    ensures if PassedBy(run[i].execs, n, x) then S'.clients[n].returned[x].result == REFUSAL
            else S'.clients[n].returned[x].result.ret >= 0
  {
    var S := run[i];
    RunInv(run, i);
    RunSendsExactly(run, i);
    assert ClientOk(S, n, S.clients[n]);
    var r := S.clients[n].calls[x].request;
    DeliveryExactly(run, i, r);
    if PassedBy(S.execs, n, x) {
      steps, S' := SendCompletes(S, n, x, r, REFUSAL);
    } else if Kept(S.execs, n, x) {
      var k :| 0 <= k < |S.execs| && IsFor(S.execs[k], n, x);
      if S.execs[k].outcome == None {
        steps, S' := FinishCompletes(S, n, x, k, Payload(0, []));
      } else {
        steps, S' := SendCompletes(S, n, x, r, S.execs[k].outcome.value);
      }
    } else {
      steps, S' := RunCompletes(S, n, x, r);
    }
  }

  /** A call that waits can also time out, or be cancelled, at any time. */
  lemma WaitingCanFail(S: System, n: Nonce, x: nat)
    requires Waits(S, n, x)
    ensures exists S' :: Leads(S, [Return(n, x)], S') && n in S'.clients && x in S'.clients[n].returned
                         && S'.clients[n].returned[x].result == Payload(TIMEOUT_FAILURE, [])
    ensures exists S' :: Leads(S, [Cancel(n)] + [Return(n, x)], S') && n in S'.clients && x in S'.clients[n].returned
                         && S'.clients[n].returned[x].result.ret == CANCEL_FAILURE
  {
    var S1 := Apply(S, Return(n, x));
    LeadsOne(S, Return(n, x), [], S1);
    assert [Return(n, x)] + [] == [Return(n, x)];
    var S2 := Apply(S, Cancel(n));
    var S3 := Apply(S2, Return(n, x));
    LeadsOne(S2, Return(n, x), [], S3);
    LeadsOne(S, Cancel(n), [Return(n, x)], S3);
    assert S3.clients[n].returned[x].result.ret == CANCEL_FAILURE;
  }

  /** The network delivers what was sent whenever it likes, and again. */
  lemma MessagesCanArrive(S: System, step: Step)
    requires Enabled(S, step)
    ensures forall r | r in S.requests :: Enabled(Apply(S, step), Deliver(r))
    ensures forall p | p in S.replies && p.nonce in S.clients :: Enabled(Apply(S, step), Receive(p))
  {
    ClientsAfter(S, step);
  }
}
