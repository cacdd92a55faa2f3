/**
 At-most-once RPC: any number of clients (rpcc) calling one server (rpcs) over a network that may
 lose, delay, duplicate and reorder.  A message once sent stays in the network for ever, so every
 message may be delivered at any later time, any number of times, or never.

 Call numbers do not wrap around, client nonces are distinct and nonzero, and the server does not
 restart.
 */
module RpcSystem {
  import opened Options
  import opened XidWindow
  import opened ReplyWindow

  type Bytes = seq<bv8>

  const ATMOSTONCE_FAILURE := -4
  const CANCEL_FAILURE := -7
  const TIMEOUT_FAILURE := -1

  /** A packed request; xidRep is the front of the client's window when the call was made. */
  datatype Request = Request(nonce: Nonce, xid: nat, xidRep: nat, bind: bool, args: Bytes)

  datatype Reply = Reply(nonce: Nonce, xid: nat, payload: Payload)

  /** A call in calls_, with what got_pdu stored in it. */
  datatype Call = Call(request: Request, done: bool, result: Payload)

  /** `returned` records what call1 returned for each finished call. */
  datatype Client = Client(xid: nat, bound: bool, closing: bool, reported: set<nat>,
                           calls: map<nat, Call>, returned: map<nat, Call>)

  /** One execution of a handler; its outcome once the handler has returned. */
  datatype Exec = Exec(request: Request, outcome: Option<Payload>)

  datatype System = System(
    clients: map<Nonce, Client>,
    windows: map<Nonce, seq<Entry>>,
    execs: seq<Exec>,
    requests: set<Request>,
    replies: set<Reply>)

  const FRESH := Client(1, false, false, {}, map[], map[])

  ghost predicate Init(S: System)
  {
    && (forall n | n in S.clients :: n != 0 && S.clients[n] == FRESH)
    && S.windows == map[] && S.execs == [] && S.requests == {} && S.replies == {}
  }

  function WindowOf(S: System, n: Nonce): seq<Entry>
  {
    if n in S.windows then S.windows[n] else []
  }

  datatype Step =
    | Issue(n: Nonce, bind: bool, args: Bytes)  // call1 up to sending its request
    | Deliver(request: Request)                 // dispatch, up to running the handler or answering
    | Finish(k: nat, payload: Payload)          // the handler returns; its reply is saved and sent
    | Receive(reply: Reply)                     // got_pdu at the client
    | Return(n: Nonce, xid: nat)                // call1 returns, with its result or timed out
    | Cancel(n: Nonce)

  ghost predicate Enabled(S: System, step: Step)
  {
    match step
    case Issue(n, bind, _) => n in S.clients && S.clients[n].bound == !bind && !S.clients[n].closing
    case Deliver(request) => request in S.requests
    case Finish(k, payload) => k < |S.execs| && S.execs[k].outcome == None && payload.ret >= 0
    case Receive(reply) => reply in S.replies && reply.nonce in S.clients
    case Return(n, xid) => n in S.clients && xid in S.clients[n].calls
    case Cancel(n) => n in S.clients
  }

  ghost function NewRequest(c: Client, n: Nonce, bind: bool, args: Bytes): Request
  {
    Request(n, c.xid, Front(c.reported), bind, args)
  }

  ghost function Issued(c: Client, r: Request): Client
  {
    c.(xid := c.xid + 1, calls := c.calls[c.xid := Call(r, false, NO_BUF)])
  }

  function Received(c: Client, xid: nat, payload: Payload): Client
  {
    var c' := c.(reported := c.reported + {xid});
    if xid in c.calls && !c.calls[xid].done
    then c'.(calls := c.calls[xid := c.calls[xid].(done := true, result := payload)])
    else c'
  }

  function ReturnedCall(call: Call): Call
  {
    if call.done then call else call.(result := Payload(TIMEOUT_FAILURE, []))
  }

  function Returned(c: Client, xid: nat): Client
    requires xid in c.calls
  {
    var call := c.calls[xid];
    c.(calls := c.calls - {xid},
       reported := c.reported + {xid},
       returned := c.returned[xid := ReturnedCall(call)],
       bound := c.bound || (call.request.bind && call.done && call.result.ret == 0))
  }

  function Cancelled(c: Client): Client
  {
    c.(closing := c.closing || c.calls != map[],
       calls := map x | x in c.calls :: c.calls[x].(done := true, result := c.calls[x].result.(ret := CANCEL_FAILURE)))
  }

  /** dispatch: run the handler for a new request, otherwise answer as the window says. */
  function Dispatched(S: System, r: Request): System
  {
    var w := WindowOf(S, r.nonce);
    var S' := S.(windows := S.windows[r.nonce := AfterCheck(w, r.xid, r.xidRep)]);
    match Check(w, r.xid)
    case New => S'.(execs := S.execs + [Exec(r, None)])
    case InProgress => S'
    case Done(buf) => S'.(replies := S.replies + {Reply(r.nonce, r.xid, buf)})
    case Forgotten => S'.(replies := S.replies + {Reply(r.nonce, r.xid, Payload(ATMOSTONCE_FAILURE, []))})
  }

  function Finished(S: System, k: nat, payload: Payload): System
    requires k < |S.execs|
  {
    var r := S.execs[k].request;
    S.(execs := S.execs[k := Exec(r, Some(payload))],
       windows := S.windows[r.nonce := Answered(WindowOf(S, r.nonce), r.xid, payload)],
       replies := S.replies + {Reply(r.nonce, r.xid, payload)})
  }

  ghost function Apply(S: System, step: Step): System
    requires Enabled(S, step)
  {
    match step
    case Issue(n, bind, args) =>
      var r := NewRequest(S.clients[n], n, bind, args);
      S.(clients := S.clients[n := Issued(S.clients[n], r)], requests := S.requests + {r})
    case Deliver(request) => Dispatched(S, request)
    case Finish(k, payload) => Finished(S, k, payload)
    case Receive(reply) =>
      var n := reply.nonce;
      S.(clients := S.clients[n := Received(S.clients[n], reply.xid, reply.payload)])
    case Return(n, xid) => S.(clients := S.clients[n := Returned(S.clients[n], xid)])
    case Cancel(n) => S.(clients := S.clients[n := Cancelled(S.clients[n])])
  }

  ghost predicate Next(S: System, S': System)
  {
    exists step :: Enabled(S, step) && S' == Apply(S, step)
  }

  ghost predicate IsRun(run: seq<System>)
  {
    && run != []
    && Init(run[0])
    && forall i | 0 <= i < |run| - 1 :: Next(run[i], run[i + 1])
  }
}
