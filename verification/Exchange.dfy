/** The exchange as a whole: one engine per ticker, requests served one at a time, everything sent kept in a log. */
module Exchange {
  import opened Types
  import opened Matching
  import opened Replica

  datatype Venue = Venue(engines: seq<Engine>, responses: seq<ClientResponse>, updates: seq<MarketUpdate>)

  function Opened(): Venue {
    Venue(seq(ME_MAX_TICKERS, _ => Engine(map[], 1)), [], [])
  }

  ghost predicate Sound(v: Venue) {
    |v.engines| == ME_MAX_TICKERS && forall i :: 0 <= i < |v.engines| ==> Good(v.engines[i])
  }

  /** What an engine asks of a request: a known client, a real side, a key that is not live. */
  ghost predicate Accepts(e: Engine, req: Request) {
    Known(req) && (req.New? ==> FreshKey(e.book, ClientKey(req.client, req.oid)))
  }

  predicate Known(req: Request) {
    req.New? ==> req.side != INVALID && req.client < ME_MAX_NUM_CLIENTS
  }

  ghost predicate Admissible(v: Venue, req: Request) {
    req.ticker < |v.engines| && Accepts(v.engines[req.ticker], req)
  }

  /** `processClientRequest` for the engine of the request's ticker. */
  ghost function Serve(e: Engine, req: Request): Step
    requires Good(e)
  {
    match req
    case New(client, ticker, oid, side, price, qty) => Add(e, ticker, client, oid, side, price, qty)
    case Cancel(client, ticker, oid) => CancelOrder(e, ticker, client, oid)
  }

  lemma ServeKeepsGood(e: Engine, req: Request)
    requires Good(e) && Accepts(e, req)
    ensures Good(Serve(e, req).engine)
  {
    match req
    case New(client, ticker, oid, side, price, qty) => AddKeepsGood(e, ticker, client, oid, side, price, qty);
    case Cancel(client, ticker, oid) => CancelKeepsGood(e, ticker, client, oid);
  }

  ghost function Process(v: Venue, req: Request): (w: Venue)
    requires Sound(v) && Admissible(v, req)
    ensures Sound(w)
  {
    ServeKeepsGood(v.engines[req.ticker], req);
    var s := Serve(v.engines[req.ticker], req);
    Venue(v.engines[req.ticker := s.engine], v.responses + s.responses, v.updates + s.updates)
  }

  /** The exchange after a sequence of requests, if each was admissible when it came. */
  ghost function After(reqs: seq<Request>): (r: Option<Venue>)
    ensures r.Some? ==> Sound(r.value)
  {
    if reqs == [] then
      Some(Opened())
    else
      match After(reqs[..|reqs| - 1])
      case None => None
      case Some(v) => if Admissible(v, reqs[|reqs| - 1]) then Some(Process(v, reqs[|reqs| - 1])) else None
  }

  lemma AfterOneMore(reqs: seq<Request>, req: Request)
    requires After(reqs).Some? && Admissible(After(reqs).value, req)
    ensures After(reqs + [req]) == Some(Process(After(reqs).value, req))
  {
    assert (reqs + [req])[..|reqs + [req]| - 1] == reqs;
  }

  lemma {:induction false} AfterPrefix(requests: seq<Request>, k: nat)
    requires After(requests).Some? && k < |requests|
    ensures After(requests[..k]).Some? && Admissible(After(requests[..k]).value, requests[k])
    ensures After(requests[..k + 1]) == Some(Process(After(requests[..k]).value, requests[k]))
    decreases |requests|
  {
    var n := |requests| - 1;
    if k == n {
      assert requests[..k + 1] == requests;
    } else {
      assert requests[..n][..k] == requests[..k] && requests[..n][..k + 1] == requests[..k + 1];
      AfterPrefix(requests[..n], k);
    }
  }

  function Views(engines: seq<Engine>): Copies {
    seq(|engines|, i requires 0 <= i < |engines| => View(engines[i].book))
  }

  lemma ServeReplicates(copies: Copies, e: Engine, req: Request)
    requires Good(e) && req.ticker < |copies| && copies[req.ticker] == View(e.book)
    requires Accepts(e, req)
    ensures var s := Serve(e, req);
            && ApplyAll(copies, s.updates) == copies[req.ticker := View(s.engine.book)]
            && AllApply(copies, s.updates)
  {
    match req
    case New(client, ticker, oid, side, price, qty) => AddReplicates(copies, e, ticker, client, oid, side, price, qty);
    case Cancel(client, ticker, oid) => CancelReplicates(copies, e, ticker, client, oid);
  }

  ghost predicate Replicated(v: Venue) {
    ApplyAll(NoOrders(), v.updates) == Views(v.engines) && AllApply(NoOrders(), v.updates)
  }

  lemma ProcessReplicates(v: Venue, req: Request)
    requires Sound(v) && Admissible(v, req) && Replicated(v)
    ensures Replicated(Process(v, req))
  {
    hide Good, View, ApplyAll, AllApply, Accepts, Serve;
    var s := Serve(v.engines[req.ticker], req);
    var copies := Views(v.engines);
    ServeReplicates(copies, v.engines[req.ticker], req);
    ApplyConcat(NoOrders(), v.updates, s.updates);
    assert Views(v.engines[req.ticker := s.engine]) == copies[req.ticker := View(s.engine.book)];
  }

  /** After any requests the updates sent so far all apply, and they rebuild the book of every ticker. */
  lemma {:induction false} UpdatesReplicateBooks(reqs: seq<Request>)
    requires After(reqs).Some?
    ensures Replicated(After(reqs).value)
  {
    if reqs == [] {
      assert Views(Opened().engines) == NoOrders();
    } else {
      UpdatesReplicateBooks(reqs[..|reqs| - 1]);
      ProcessReplicates(After(reqs[..|reqs| - 1]).value, reqs[|reqs| - 1]);
    }
  }
}
