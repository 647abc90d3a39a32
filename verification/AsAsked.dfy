/** Over any run, what rests and what is answered is what the requests asked for. */
module AsAsked {
  import opened Types
  import opened BookSpec
  import opened Matching
  import opened Exchange

  /** The resting order comes from this request, with its side, its price and at most its quantity. */
  predicate RestsFor(req: Request, ticker: nat, o: Order<ClientKey>) {
    && req.New? && req.ticker == ticker && o.key == ClientKey(req.client, req.oid)
    && o.side == req.side && o.price == req.price && o.qty <= req.qty
  }

  /** The response is about the order or the cancel that the request asked for, at a price the request agrees to. */
  predicate AnswersTo(req: Request, r: ClientResponse) {
    && r.client == req.client && r.ticker == req.ticker && r.clientOid == req.oid
    && match r.kind
       case ACCEPTED => req.New? && r.side == req.side && r.price == req.price && r.execQty == 0 && r.leavesQty == req.qty
       case FILLED =>
         && req.New? && r.side == req.side && Agreeable(req.side, req.price, r.price)
         && 0 < r.execQty && r.execQty + r.leavesQty <= req.qty
       case CANCELED => req.New? && r.side == req.side && r.price == req.price && 0 < r.leavesQty <= req.qty
       case CANCEL_REJECTED => req.Cancel?
  }

  ghost predicate RestAsAsked(reqs: seq<Request>, ticker: nat, book: Book<ClientKey>) {
    forall id :: id in book ==> exists req :: req in reqs && RestsFor(req, ticker, book[id])
  }

  ghost predicate ToldOf(reqs: seq<Request>, r: ClientResponse) {
    exists req :: req in reqs && AnswersTo(req, r)
  }

  /** Some response tells the client what became of the request itself. */
  ghost predicate Answered(req: Request, rs: seq<ClientResponse>) {
    exists r :: r in rs && r.client == req.client && r.ticker == req.ticker && r.clientOid == req.oid
                && (if req.New? then r.kind == ACCEPTED && AnswersTo(req, r) else r.kind == CANCELED || r.kind == CANCEL_REJECTED)
  }

  /** Every resting order and every response goes back to a request, and every request is answered. */
  ghost predicate AllAsAsked(reqs: seq<Request>, v: Venue) {
    && (forall t :: 0 <= t < |v.engines| ==> RestAsAsked(reqs, t, v.engines[t].book))
    && (forall r :: r in v.responses ==> ToldOf(reqs, r))
    && (forall req :: req in reqs ==> Answered(req, v.responses))
  }

  // ---- One request ----

  /** A fill is told to the taker as its own, or to the owner of a resting order as that order's. */
  ghost predicate PartyTo(t: Taker, book: Book<ClientKey>, leaves: nat, r: ClientResponse) {
    && r.kind == FILLED && r.ticker == t.ticker && 0 < r.execQty
    && (|| (r.client == t.client && r.clientOid == t.oid && r.side == t.side && Agreeable(t.side, t.limit, r.price)
            && r.execQty + r.leavesQty <= leaves)
        || exists id :: id in book && ClientKey(r.client, r.clientOid) == book[id].key && r.side == book[id].side
                        && r.price == book[id].price && r.execQty + r.leavesQty == book[id].qty)
  }

  lemma {:induction false} PairedParties(t: Taker, book: Book<ClientKey>, leaves: nat, rest: nat,
                                         rs: seq<ClientResponse>, us: seq<MarketUpdate>)
    requires Paired(t, book, leaves, rest, rs, us)
    ensures forall r :: r in rs ==> PartyTo(t, book, leaves, r)
    decreases |rs|
  {
    if rs != [] && us != [] {
      assert PartyTo(t, book, leaves, rs[0]) && PartyTo(t, book, leaves, rs[1]);
      PairedParties(t, book, rs[0].leavesQty, rest, rs[2..], us[2..]);
      forall r | r in rs
        ensures PartyTo(t, book, leaves, r)
      {
        assert r == rs[0] || r == rs[1] || r in rs[2..];
      }
    }
  }

  /** What one request leaves at rest and answers goes back to it or to an earlier one. */
  ghost predicate StepAsAsked(reqs: seq<Request>, req: Request, s: Step) {
    && RestAsAsked(reqs + [req], req.ticker, s.engine.book)
    && (forall r :: r in s.responses ==> ToldOf(reqs + [req], r))
    && Answered(req, s.responses)
  }

  lemma NewAsAsked(reqs: seq<Request>, e: Engine, req: Request)
    requires Good(e) && Known(req) && req.New? && RestAsAsked(reqs, req.ticker, e.book)
    ensures StepAsAsked(reqs, req, Serve(e, req))
  {
    hide Good, Add, MatchAll, Paired;
    var s := Serve(e, req);
    AddAsAsked(e, req.ticker, req.client, req.oid, req.side, req.price, req.qty);
    assert req in reqs + [req];
    forall id | id in s.engine.book
      ensures exists q :: q in reqs + [req] && RestsFor(q, req.ticker, s.engine.book[id])
    {
      if id == e.nextId {
        assert RestsFor(req, req.ticker, s.engine.book[id]);
      } else {
        OlderStill(reqs, req, e.book, id, s.engine.book[id]);
      }
    }
    assert AnswersTo(req, s.responses[0]) && s.responses[0] in s.responses;
    FillsToldOf(reqs, e, req);
  }

  lemma OlderStill(reqs: seq<Request>, req: Request, book: Book<ClientKey>, id: nat, o: Order<ClientKey>)
    requires RestAsAsked(reqs, req.ticker, book) && id in book && 0 < o.qty <= book[id].qty && o == book[id].(qty := o.qty)
    ensures exists q :: q in reqs + [req] && RestsFor(q, req.ticker, o)
  {
    var q :| q in reqs && RestsFor(q, req.ticker, book[id]);
    assert q in reqs + [req] && RestsFor(q, req.ticker, o);
  }

  lemma FillsToldOf(reqs: seq<Request>, e: Engine, req: Request)
    requires Good(e) && Known(req) && req.New? && RestAsAsked(reqs, req.ticker, e.book)
    ensures forall r :: r in Serve(e, req).responses ==> ToldOf(reqs + [req], r)
  {
    hide WellFormed, MatchAll, Paired, NextPriority;
    var t := Taker(req.ticker, req.client, req.oid, e.nextId, req.side, req.price);
    var m := MatchAll(t, e.book, req.qty);
    FillsComeInPairs(t, e.book, req.qty);
    PairedParties(t, e.book, req.qty, m.leaves, m.responses, m.updates);
    var rs := Serve(e, req).responses;
    forall r | r in rs
      ensures ToldOf(reqs + [req], r)
    {
      assert req in reqs + [req];
      if r == rs[0] {
        assert AnswersTo(req, r);
      } else {
        assert r in m.responses;
        PartyIsTold(reqs, req, t, e.book, r);
      }
    }
  }

  lemma PartyIsTold(reqs: seq<Request>, req: Request, t: Taker, book: Book<ClientKey>, r: ClientResponse)
    requires req.New? && t.ticker == req.ticker && t.client == req.client && t.oid == req.oid
    requires t.side == req.side && t.limit == req.price && PartyTo(t, book, req.qty, r)
    requires RestAsAsked(reqs, req.ticker, book)
    ensures ToldOf(reqs + [req], r)
  {
    assert req in reqs + [req];
    if !AnswersTo(req, r) {
      var id :| id in book && ClientKey(r.client, r.clientOid) == book[id].key && r.side == book[id].side
                && r.price == book[id].price && r.execQty + r.leavesQty == book[id].qty;
      var q :| q in reqs && RestsFor(q, req.ticker, book[id]);
      assert q in reqs + [req] && AnswersTo(q, r);
    }
  }

  /** A cancel takes out exactly the client's order and tells its side, its price and what was left of it. */
  ghost predicate CanceledFor(e: Engine, ticker: nat, client: nat, oid: nat, id: nat, s: Step)
    requires id in e.book
  {
    var o := e.book[id];
    && s.responses == [ClientResponse(CANCELED, client, ticker, oid, id, o.side, o.price, Qty_INVALID, o.qty)]
    && s.updates == [MarketUpdate(CANCEL, id, ticker, o.side, o.price, 0, o.priority)]
    && id !in s.engine.book
  }

  ghost predicate Refused(ticker: nat, client: nat, oid: nat, s: Step) {
    s.responses == [ClientResponse(CANCEL_REJECTED, client, ticker, oid, OrderId_INVALID, INVALID, Price_INVALID,
                                   Qty_INVALID, Qty_INVALID)]
    && s.updates == []
  }

  /** What serving a request does, in terms of the request and the orders at rest. */
  ghost predicate ServedAsAsked(e: Engine, req: Request, s: Step) {
    match req
    case New(client, ticker, oid, side, price, qty) =>
      && ToldAsAsked(e.nextId, ticker, client, oid, side, price, qty, s)
      && OnlyTraded(e.book, s.engine.book, side, price, e.nextId)
      && s.engine.nextId == e.nextId + 1
      && (e.nextId in s.engine.book ==>
            RestsAsAsked(s.engine.book, s.engine.book[e.nextId], e.nextId, ClientKey(client, oid), side, price, qty))
    case Cancel(client, ticker, oid) =>
      && (forall id :: id in e.book && e.book[id].key == ClientKey(client, oid) ==> CanceledFor(e, ticker, client, oid, id, s))
      && ((forall id :: id in e.book ==> e.book[id].key != ClientKey(client, oid)) ==> Refused(ticker, client, oid, s))
      && (forall id :: id in e.book && e.book[id].key != ClientKey(client, oid) ==> id in s.engine.book)
      && (forall id :: id in s.engine.book ==> id in e.book && s.engine.book[id] == e.book[id])
      && s.engine.nextId == e.nextId
  }

  lemma ServeAsAsked(e: Engine, req: Request)
    requires Good(e) && Known(req)
    ensures ServedAsAsked(e, req, Serve(e, req))
  {
    match req
    case New(client, ticker, oid, side, price, qty) =>
      AddAsAsked(e, ticker, client, oid, side, price, qty);
      hide Good, Add, ToldAsAsked, OnlyTraded, RestsAsAsked;
    case Cancel(client, ticker, oid) =>
      CancelAsAsked(e, ticker, client, oid);
  }

  lemma CancelAsAsked(e: Engine, ticker: nat, client: nat, oid: nat)
    requires Good(e)
    ensures ServedAsAsked(e, Cancel(client, ticker, oid), CancelOrder(e, ticker, client, oid))
  {
    var key := ClientKey(client, oid);
    if id :| id in e.book && e.book[id].key == key {
      assert Live(e.book, key);
    }
  }

  lemma CanceledAsAsked(reqs: seq<Request>, e: Engine, req: Request)
    requires Good(e) && req.Cancel? && RestAsAsked(reqs, req.ticker, e.book)
    ensures StepAsAsked(reqs, req, Serve(e, req))
  {
    hide Good, CancelOrder, RestAsAsked, ToldOf, Answered, ServedAsAsked;
    CancelAsAsked(e, req.ticker, req.client, req.oid);
    RestWithout(reqs, e, req, Serve(e, req));
    CancelTold(reqs, e, req, Serve(e, req));
  }

  lemma RestWithout(reqs: seq<Request>, e: Engine, req: Request, s: Step)
    requires Good(e) && req.Cancel? && ServedAsAsked(e, req, s) && RestAsAsked(reqs, req.ticker, e.book)
    ensures RestAsAsked(reqs + [req], req.ticker, s.engine.book)
  {
    forall id | id in s.engine.book
      ensures exists q :: q in reqs + [req] && RestsFor(q, req.ticker, s.engine.book[id])
    {
      OlderStill(reqs, req, e.book, id, s.engine.book[id]);
    }
  }

  lemma CancelTold(reqs: seq<Request>, e: Engine, req: Request, s: Step)
    requires Good(e) && req.Cancel? && ServedAsAsked(e, req, s) && RestAsAsked(reqs, req.ticker, e.book)
    ensures Answered(req, s.responses) && forall r :: r in s.responses ==> ToldOf(reqs + [req], r)
  {
    assert |s.responses| == 1;
    var r := s.responses[0];
    assert r in s.responses && Answered(req, s.responses);
    if id :| id in e.book && e.book[id].key == ClientKey(req.client, req.oid) {
      var q :| q in reqs && RestsFor(q, req.ticker, e.book[id]);
      assert q in reqs + [req] && AnswersTo(q, r);
    } else {
      assert req in reqs + [req] && AnswersTo(req, r);
    }
  }

  // ---- Whole runs ----

  lemma ProcessAsAsked(reqs: seq<Request>, v: Venue, req: Request)
    requires Sound(v) && Admissible(v, req) && AllAsAsked(reqs, v)
    ensures AllAsAsked(reqs + [req], Process(v, req))
  {
    hide Good, Serve, RestAsAsked, ToldOf, Answered, FreshKey;
    var e := v.engines[req.ticker];
    var s, w := Serve(e, req), Process(v, req);
    if req.New? {
      NewAsAsked(reqs, e, req);
    } else {
      CanceledAsAsked(reqs, e, req);
    }
    forall t | 0 <= t < |w.engines|
      ensures RestAsAsked(reqs + [req], t, w.engines[t].book)
    {
      if t != req.ticker {
        RestLonger(reqs, req, t, v.engines[t].book);
      }
    }
    forall r | r in w.responses
      ensures ToldOf(reqs + [req], r)
    {
      if r in v.responses {
        ToldLonger(reqs, req, r);
      }
    }
    forall q | q in reqs + [req]
      ensures Answered(q, w.responses)
    {
      AnsweredLonger(q, v.responses, s.responses);
    }
  }

  lemma RestLonger(reqs: seq<Request>, req: Request, t: nat, book: Book<ClientKey>)
    requires RestAsAsked(reqs, t, book)
    ensures RestAsAsked(reqs + [req], t, book)
  {
    forall id | id in book
      ensures exists q :: q in reqs + [req] && RestsFor(q, t, book[id])
    {
      var q :| q in reqs && RestsFor(q, t, book[id]);
      assert q in reqs + [req];
    }
  }

  lemma ToldLonger(reqs: seq<Request>, req: Request, r: ClientResponse)
    requires ToldOf(reqs, r)
    ensures ToldOf(reqs + [req], r)
  {
    var q :| q in reqs && AnswersTo(q, r);
    assert q in reqs + [req];
  }

  lemma AnsweredLonger(req: Request, rs: seq<ClientResponse>, more: seq<ClientResponse>)
    ensures Answered(req, rs) || Answered(req, more) ==> Answered(req, rs + more)
  {
  }

  /** In every run, orders rest and responses are sent only as some request asked, and no request stays unanswered. */
  lemma {:induction false} RunAsAsked(reqs: seq<Request>)
    requires After(reqs).Some?
    ensures AllAsAsked(reqs, After(reqs).value)
  {
    if reqs != [] {
      var before, req := reqs[..|reqs| - 1], reqs[|reqs| - 1];
      RunAsAsked(before);
      ProcessAsAsked(before, After(before).value, req);
      assert before + [req] == reqs;
    }
  }

  /** The part of a run that one request is answered by. */
  function Reply(v: Venue, w: Venue, t: nat): Step
    requires t < |w.engines| && |v.responses| <= |w.responses| && |v.updates| <= |w.updates|
  {
    Step(w.engines[t], w.responses[|v.responses|..], w.updates[|v.updates|..])
  }

  /** Every request of a run is served as it asked, by the book of its ticker. */
  lemma EachAsAsked(reqs: seq<Request>, k: nat)
    requires After(reqs).Some? && k < |reqs|
    ensures After(reqs[..k]).Some? && After(reqs[..k + 1]).Some?
    ensures var v, w, req := After(reqs[..k]).value, After(reqs[..k + 1]).value, reqs[k];
            && req.ticker < |v.engines| == |w.engines| && v.responses <= w.responses && v.updates <= w.updates
            && ServedAsAsked(v.engines[req.ticker], req, Reply(v, w, req.ticker))
            && forall t :: 0 <= t < |w.engines| && t != req.ticker ==> w.engines[t] == v.engines[t]
  {
    hide Serve, ServedAsAsked, Good, FreshKey;
    AfterPrefix(reqs, k);
    var v, req := After(reqs[..k]).value, reqs[k];
    ServeAsAsked(v.engines[req.ticker], req);
    var s := Serve(v.engines[req.ticker], req);
    assert (v.responses + s.responses)[|v.responses|..] == s.responses;
    assert (v.updates + s.updates)[|v.updates|..] == s.updates;
  }
}
