/**
The JSON-RPC client of the container: a table of pending requests, settled by whichever callback comes first.

Callbacks run one at a time, in any order the event loop and the network produce.  A promise keeps
its first settlement and ignores later ones.  What settles a request is specified by a scan of the
event trace that knows nothing of the table: the first event after the request was issued that
concerns it.
*/
module BridgeClient {
  import opened Options

  datatype Outcome =
    | Resolved(result: string)
    | RpcError(code: int, message: string)
    | ConnectionFailed(message: string)
    | SendFailed(message: string)
    | TimedOut
    | ClientClosed

  /** A chunk of data from a socket, as far as it parses; an id that is no number matches nothing. */
  datatype Chunk = Unparsable | Response(id: Option<nat>, error: Option<(int, string)>, result: string)

  /** A response with an error member rejects, any other resolves. */
  function Reply(r: Chunk): Outcome
    requires r.Response?
  {
    if r.error.Some? then RpcError(r.error.value.0, r.error.value.1) else Resolved(r.result)
  }

  datatype Event =
    | Issue // sendRequest is called
    | Data(chunk: Chunk) // some socket delivers a chunk
    | SocketError(id: nat, message: string) // the socket opened for request `id` fails
    | SendFailure(id: nat, message: string) // sending request `id` throws
    | Timeout(id: nat) // the timer of request `id` fires
    | Close

  datatype Client = Client(requestId: nat, pending: set<nat>, timers: set<nat>, settled: map<nat, Outcome>)

  /** Settling a promise that is already settled has no effect. */
  function Settle(settled: map<nat, Outcome>, id: nat, o: Outcome): map<nat, Outcome> {
    if id in settled then settled else settled[id := o]
  }

  /** Timers fire only while active; a socket or a send belongs to a request that was issued. */
  predicate Possible(c: Client, e: Event) {
    match e
    case Timeout(id) => id in c.timers
    case SocketError(id, _) => 1 <= id <= c.requestId
    case SendFailure(id, _) => 1 <= id <= c.requestId
    case _ => true
  }

  function Finish(c: Client, id: nat, o: Outcome): Client {
    c.(pending := c.pending - {id}, timers := c.timers - {id}, settled := Settle(c.settled, id, o))
  }

  function FinishIfPending(c: Client, id: nat, o: Outcome): Client {
    if id in c.pending then Finish(c, id, o) else c
  }

  function Next(c: Client, e: Event): Client {
    match e
    case Issue =>
      var id := c.requestId + 1;
      c.(requestId := id, pending := c.pending + {id}, timers := c.timers + {id})
    case Data(r) => if r.Response? && r.id.Some? then FinishIfPending(c, r.id.value, Reply(r)) else c
    case SocketError(id, m) => FinishIfPending(c, id, ConnectionFailed(m))
    case SendFailure(id, m) => Finish(c, id, SendFailed(m))
    case Timeout(id) => Finish(c, id, TimedOut)
    case Close =>
      Client(c.requestId, {}, c.timers - c.pending,
             map id | id in c.settled.Keys + c.pending :: if id in c.settled then c.settled[id] else ClientClosed)
  }

  class ArmorClawBridgeClient {
    var requestId: nat
    var pendingRequests: set<nat>
    var activeTimers: set<nat>
    var settled: map<nat, Outcome> // what the promises handed out have settled to

    function Model(): Client
      reads this
    {
      Client(requestId, pendingRequests, activeTimers, settled)
    }

    constructor ()
      ensures Model() == Client(0, {}, {}, map[])
    {
      requestId, pendingRequests, activeTimers, settled := 0, {}, {}, map[];
    }

    method SendRequest() returns (id: nat)
      modifies this
      ensures Model() == Next(old(Model()), Issue)
      ensures id == old(requestId) + 1
    {
      requestId := requestId + 1;
      id := requestId;
      activeTimers := activeTimers + {id};
      pendingRequests := pendingRequests + {id};
    }

    method OnTimeout(id: nat)
      modifies this
      ensures Model() == Next(old(Model()), Timeout(id))
    {
      activeTimers := activeTimers - {id}; // a timer that fires is spent
      pendingRequests := pendingRequests - {id};
      settled := Settle(settled, id, TimedOut);
    }

    method OnSendFailure(id: nat, message: string)
      modifies this
      ensures Model() == Next(old(Model()), SendFailure(id, message))
    {
      activeTimers := activeTimers - {id};
      pendingRequests := pendingRequests - {id};
      settled := Settle(settled, id, SendFailed(message));
    }

    method OnSocketError(id: nat, message: string)
      modifies this
      ensures Model() == Next(old(Model()), SocketError(id, message))
    {
      if id in pendingRequests {
        activeTimers := activeTimers - {id};
        pendingRequests := pendingRequests - {id};
        settled := Settle(settled, id, ConnectionFailed(message));
      }
    }

    method OnData(chunk: Chunk)
      modifies this
      ensures Model() == Next(old(Model()), Data(chunk))
    {
      if chunk.Response? && chunk.id.Some? && chunk.id.value in pendingRequests {
        var id := chunk.id.value;
        activeTimers := activeTimers - {id};
        pendingRequests := pendingRequests - {id};
        if chunk.error.Some? {
          settled := Settle(settled, id, RpcError(chunk.error.value.0, chunk.error.value.1));
        } else {
          settled := Settle(settled, id, Resolved(chunk.result));
        }
      }
    }

    /** Every pending request is rejected, in whatever order the table is walked; then the table is emptied. */
    method CloseClient()
      modifies this
      ensures Model() == Next(old(Model()), Close)
    {
      var todo := pendingRequests;
      while todo != {}
        invariant todo <= pendingRequests
        invariant requestId == old(requestId) && pendingRequests == old(pendingRequests)
        invariant activeTimers == old(activeTimers) - (pendingRequests - todo)
        invariant settled.Keys == old(settled).Keys + (pendingRequests - todo)
        invariant forall id :: id in settled ==> settled[id] == if id in old(settled) then old(settled)[id] else ClientClosed
      {
        var id :| id in todo;
        activeTimers := activeTimers - {id};
        settled := Settle(settled, id, ClientClosed);
        todo := todo - {id};
      }
      pendingRequests := {};
    }
  }

  // ---------- The trace alone decides ----------

  /** Requests issued; the k-th issued request carries id k. */
  function Issued(trace: seq<Event>): nat {
    if trace == [] then 0 else Issued(trace[..|trace| - 1]) + if trace[|trace| - 1].Issue? then 1 else 0
  }

  /** The settlement an event offers to request `id`. */
  function Offers(e: Event, id: nat): Option<Outcome> {
    match e
    case Issue => None
    case Data(Response(i, Some((code, message)), _)) => if i == Some(id) then Some(RpcError(code, message)) else None
    case Data(Response(i, None, result)) => if i == Some(id) then Some(Resolved(result)) else None
    case Data(Unparsable) => None
    case SocketError(i, m) => if i == id then Some(ConnectionFailed(m)) else None
    case SendFailure(i, m) => if i == id then Some(SendFailed(m)) else None
    case Timeout(i) => if i == id then Some(TimedOut) else None
    case Close => Some(ClientClosed)
  }

  /** The first settlement offered to request `id` after it was issued. */
  function Fate(trace: seq<Event>, id: nat): Option<Outcome> {
    if trace == [] then None
    else
      var earlier := trace[..|trace| - 1];
      if Fate(earlier, id).Some? then Fate(earlier, id)
      else if 1 <= id <= Issued(earlier) then Offers(trace[|trace| - 1], id)
      else None
  }

  function Run(trace: seq<Event>): Client {
    if trace == [] then Client(0, {}, {}, map[]) else Next(Run(trace[..|trace| - 1]), trace[|trace| - 1])
  }

  ghost predicate Feasible(trace: seq<Event>) {
    trace == [] || (Feasible(trace[..|trace| - 1]) && Possible(Run(trace[..|trace| - 1]), trace[|trace| - 1]))
  }

  /** Where the table and the promises have request `id`. */
  ghost predicate Agrees(c: Client, trace: seq<Event>, id: nat) {
    && (id in c.pending <==> 1 <= id <= Issued(trace) && Fate(trace, id).None?)
    && (id in c.timers <==> id in c.pending)
    && (id in c.settled <==> Fate(trace, id).Some?)
    && (id in c.settled ==> c.settled[id] == Fate(trace, id).value)
  }

  lemma FateIsIssued(trace: seq<Event>, id: nat)
    requires Fate(trace, id).Some?
    ensures 1 <= id <= Issued(trace)
  {
    if Fate(trace[..|trace| - 1], id).Some? { FateIsIssued(trace[..|trace| - 1], id); }
  }

  /**
  Under every interleaving: ids are handed out 1, 2, 3, ...; the table holds exactly the issued requests nothing
  has concerned yet, each with a live timer; and every other issued request has settled to what the
  first event concerning it offered, whatever came later.
  */
  lemma {:induction false} TableMatchesTrace(trace: seq<Event>, id: nat)
    requires Feasible(trace)
    ensures Run(trace).requestId == Issued(trace)
    ensures Agrees(Run(trace), trace, id)
  {
    if trace != [] {
      var earlier, e := trace[..|trace| - 1], trace[|trace| - 1];
      TableMatchesTrace(earlier, id);
      if Fate(earlier, id).Some? { FateIsIssued(earlier, id); }
      if e.Timeout? { TableMatchesTrace(earlier, e.id); }
    }
  }

  /** A settled request stays settled, with the same outcome, whatever happens next. */
  lemma {:induction false} SettlesOnce(trace: seq<Event>, more: seq<Event>, id: nat)
    requires Feasible(trace + more) && Feasible(trace) && id in Run(trace).settled
    ensures id in Run(trace + more).settled && Run(trace + more).settled[id] == Run(trace).settled[id]
  {
    TableMatchesTrace(trace, id);
    TableMatchesTrace(trace + more, id);
    FateStays(trace, more, id);
  }

  lemma {:induction false} FateStays(trace: seq<Event>, more: seq<Event>, id: nat)
    requires Fate(trace, id).Some?
    ensures Fate(trace + more, id) == Fate(trace, id)
  {
    if more == [] {
      assert trace + more == trace;
    } else {
      FateStays(trace, more[..|more| - 1], id);
      assert (trace + more)[..|trace + more| - 1] == trace + more[..|more| - 1];
    }
  }

  /** A response settles no request but the one whose id it carries, and none at all once that one is settled. */
  lemma ResponseReachesOnlyItsOwn(trace: seq<Event>, chunk: Chunk, id: nat)
    requires Feasible(trace) && (chunk.Response? ==> chunk.id != Some(id) || id in Run(trace).settled)
    ensures id in Run(trace + [Data(chunk)]).settled <==> id in Run(trace).settled
    ensures id in Run(trace).settled ==> Run(trace + [Data(chunk)]).settled[id] == Run(trace).settled[id]
    ensures id in Run(trace + [Data(chunk)]).pending <==> id in Run(trace).pending
  {
    assert (trace + [Data(chunk)])[..|trace|] == trace;
    TableMatchesTrace(trace, id);
  }

  /**
  What the next event makes of a pending request, whatever came before.  A response carrying its id rejects it with the
  response's error if there is one and resolves it with the result otherwise; each kind of failure rejects it as that
  kind; anything else leaves it pending, with its timer.
  */
  lemma PendingSettlesTo(trace: seq<Event>, e: Event, id: nat)
    requires Feasible(trace + [e]) && Feasible(trace) && id in Run(trace).pending
    ensures var c := Run(trace + [e]);
      match e
      case Data(Response(Some(i), error, result)) =>
        if i != id then id in c.pending && id !in c.settled
        else
          && id !in c.pending && id !in c.timers && id in c.settled
          && (forall code, message :: c.settled[id] == RpcError(code, message) <==> error == Some((code, message)))
          && (forall r :: c.settled[id] == Resolved(r) <==> error == None && result == r)
      case SocketError(i, m) => if i == id then SettledAs(c, id, ConnectionFailed(m)) else id in c.pending && id !in c.settled
      case SendFailure(i, m) => if i == id then SettledAs(c, id, SendFailed(m)) else id in c.pending && id !in c.settled
      case Timeout(i) => if i == id then SettledAs(c, id, TimedOut) else id in c.pending && id !in c.settled
      case Close => SettledAs(c, id, ClientClosed)
      case _ => id in c.pending && id !in c.settled && id in c.timers
  {
    assert (trace + [e])[..|trace|] == trace;
    TableMatchesTrace(trace, id);
    TableMatchesTrace(trace + [e], id);
  }

  /** Request `id` is out of the table, its timer stopped, its promise settled to `o`. */
  ghost predicate SettledAs(c: Client, id: nat, o: Outcome) {
    id !in c.pending && id !in c.timers && id in c.settled && c.settled[id] == o
  }

  /** After close nothing is pending and no timer is left. */
  lemma NothingPendingAfterClose(trace: seq<Event>)
    requires Feasible(trace)
    ensures Run(trace + [Close]).pending == {} && Run(trace + [Close]).timers == {}
    ensures forall id :: 1 <= id <= Issued(trace) ==> id in Run(trace + [Close]).settled
  {
    assert (trace + [Close])[..|trace|] == trace;
    forall id: nat ensures Agrees(Run(trace), trace, id) { TableMatchesTrace(trace, id); }
    forall id: nat | id in Run(trace).timers ensures id in Run(trace).pending { assert Agrees(Run(trace), trace, id); }
    forall id | 1 <= id <= Issued(trace) ensures id in Run(trace + [Close]).settled { assert Agrees(Run(trace), trace, id); }
  }
}
