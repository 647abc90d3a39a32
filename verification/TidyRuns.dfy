/** Requests within range keep every book, and every copy on the way, within price index and pools. */
module TidyRuns {
  import opened Types
  import opened BookSpec
  import opened Matching
  import opened Replica
  import opened Exchange
  import opened MatchingEngines

  lemma {:induction false} MatchAllAddsNothing(t: Taker, book: Book<ClientKey>, leaves: nat)
    requires WellFormed(book)
    ensures forall u :: u in MatchAll(t, book, leaves).updates ==> u.kind != ADD
    decreases leaves
  {
    if CanMatch(t, book, leaves) {
      var best := BestOpposite(t, book);
      var one := MatchOne(t, book, best, leaves);
      assert forall u :: u in one.updates ==> u.kind != ADD;
      MatchOneKeeps(t, book, best, leaves);
      MatchAllAddsNothing(t, one.book, one.leaves);
    }
  }

  /** Only the last update of a request can be an ADD. */
  lemma AddComesLast(e: Engine, req: Request)
    requires Good(e) && Accepts(e, req)
    ensures var us := Serve(e, req).updates; forall k :: 0 <= k < |us| - 1 ==> us[k].kind != ADD
  {
    match req
    case New(client, ticker, oid, side, price, qty) =>
      var t := Taker(ticker, client, oid, e.nextId, side, price);
      MatchAllAddsNothing(t, e.book, qty);
      var us := MatchAll(t, e.book, qty).updates;
      assert forall k :: 0 <= k < |us| ==> us[k] in us;
    case Cancel(_, _, _) =>
  }

  lemma ViewTidy(book: Book<ClientKey>)
    requires Tidy(book)
    ensures Tidy(View(book))
  {
    TidyPart(View(book), book);
  }

  /** A stretch with an ADD at its end at most, tidy before and after, is tidy throughout. */
  lemma TidyEnds(t: nat, copies: Copies, us: seq<MarketUpdate>)
    requires t < |copies| && Tidy(copies[t]) && Tidy(ApplyAll(copies, us)[t])
    requires forall k :: 0 <= k < |us| - 1 ==> us[k].kind != ADD
    ensures TidyThroughout(t, copies, us)
  {
    hide Tidy, ApplyAll;
    if us == [] {
      NoAddStaysTidy(t, copies, us);
    } else {
      var before := us[..|us| - 1];
      NoAddStaysTidy(t, copies, before);
      forall k | 0 <= k <= |us|
        ensures Tidy(ApplyAll(copies, us[..k])[t])
      {
        if k < |us| {
          assert us[..k] == before[..k];
        } else {
          assert us[..k] == us;
        }
      }
    }
  }

  /** The copy of a ticker stays tidy through the updates of a request that leaves its book tidy. */
  lemma ServeStaysTidy(copies: Copies, e: Engine, req: Request)
    requires Good(e) && req.ticker < |copies| && copies[req.ticker] == View(e.book) && Accepts(e, req)
    requires Tidy(e.book) && Tidy(Serve(e, req).engine.book)
    ensures TidyThroughout(req.ticker, copies, Serve(e, req).updates)
  {
    hide Good, Accepts, Serve, View, Tidy, ApplyAll, AllApply, TidyThroughout;
    AddComesLast(e, req);
    ServeReplicates(copies, e, req);
    ViewTidy(e.book);
    ViewTidy(Serve(e, req).engine.book);
    TidyEnds(req.ticker, copies, Serve(e, req).updates);
  }

  ghost predicate AllTidy(v: Venue) {
    && |v.engines| == ME_MAX_TICKERS
    && (forall t :: 0 <= t < |v.engines| ==> Tidy(v.engines[t].book))
    && (forall t :: 0 <= t < |v.engines| ==> TidyThroughout(t, NoOrders(), v.updates))
  }

  lemma OthersUntouched(e: Engine, req: Request, t: nat)
    requires Good(e) && Accepts(e, req) && t != req.ticker
    ensures forall u :: u in Serve(e, req).updates ==> u.ticker != t
  {
    match req
    case New(client, ticker, oid, side, price, qty) =>
      MatchAllInTicker(Taker(ticker, client, oid, e.nextId, side, price), e.book, qty);
    case Cancel(_, _, _) =>
  }

  lemma {:induction false} MatchAllInTicker(t: Taker, book: Book<ClientKey>, leaves: nat)
    requires WellFormed(book)
    ensures forall u :: u in MatchAll(t, book, leaves).updates ==> u.ticker == t.ticker
    decreases leaves
  {
    if CanMatch(t, book, leaves) {
      var best := BestOpposite(t, book);
      var one := MatchOne(t, book, best, leaves);
      assert forall u :: u in one.updates ==> u.ticker == t.ticker;
      MatchOneKeeps(t, book, best, leaves);
      MatchAllInTicker(t, one.book, one.leaves);
    }
  }

  lemma UpdatesStayTidy(v: Venue, req: Request, t: nat)
    requires Sound(v) && Admissible(v, req) && Replicated(v) && AllTidy(v) && t < ME_MAX_TICKERS
    requires Tidy(Serve(v.engines[req.ticker], req).engine.book)
    ensures TidyThroughout(t, NoOrders(), v.updates + Serve(v.engines[req.ticker], req).updates)
  {
    hide TidyThroughout, Serve, ApplyAll, AllApply, Tidy, Good, Accepts, View, NoOrders;
    var e := v.engines[req.ticker];
    if t == req.ticker {
      ServeStaysTidy(Views(v.engines), e, req);
    } else {
      OthersUntouched(e, req, t);
      TidyEnd(t, NoOrders(), v.updates);
      NoAddStaysTidy(t, Views(v.engines), Serve(e, req).updates);
    }
    TidyConcat(t, NoOrders(), v.updates, Serve(e, req).updates);
  }

  lemma TidyStep(v: Venue, ticker: nat, s: Step)
    requires AllTidy(v) && ticker < ME_MAX_TICKERS && Tidy(s.engine.book)
    requires forall t :: 0 <= t < ME_MAX_TICKERS ==> TidyThroughout(t, NoOrders(), v.updates + s.updates)
    ensures AllTidy(Venue(v.engines[ticker := s.engine], v.responses + s.responses, v.updates + s.updates))
  {
    hide Tidy, TidyThroughout;
  }

  lemma ProcessStaysTidy(v: Venue, req: Request)
    requires Sound(v) && Admissible(v, req) && Replicated(v) && AllTidy(v) && InRange(v.engines[req.ticker], req)
    ensures AllTidy(Process(v, req))
  {
    var step := Serve(v.engines[req.ticker], req);
    hide TidyThroughout, Serve, ApplyAll, Tidy, Good, Accepts, Replicated, Exchange.Sound, AllApply;
    forall t: nat | t < ME_MAX_TICKERS
      ensures TidyThroughout(t, NoOrders(), v.updates + step.updates)
    {
      UpdatesStayTidy(v, req, t);
    }
    TidyStep(v, req.ticker, step);
  }

  lemma EmptyIsTidy<K>()
    ensures Tidy<K>(map[])
  {
    var book: Book<K> := map[];
    assert Prices(book) == {};
  }

  /** Whatever requests in range the exchange served, its books and the copies built of its updates are tidy throughout. */
  lemma {:induction false} RunStaysTidy(reqs: seq<Request>)
    requires After(reqs).Some? && AllInRange(reqs)
    ensures AllTidy(After(reqs).value)
  {
    hide Tidy, TidyThroughout, Good, Accepts, Serve, InRange, Replicated, ApplyAll;
    if reqs == [] {
      EmptyIsTidy<ClientKey>();
      EmptyIsTidy<nat>();
      forall t | 0 <= t < ME_MAX_TICKERS
        ensures TidyThroughout(t, NoOrders(), [])
      {
        NoAddStaysTidy(t, NoOrders(), []);
      }
    } else {
      var before, req := reqs[..|reqs| - 1], reqs[|reqs| - 1];
      assert reqs[..|reqs|] == reqs;
      AfterPrefix(reqs, |reqs| - 1);
      InRangeBefore(reqs);
      RunStaysTidy(before);
      UpdatesReplicateBooks(before);
      ProcessStaysTidy(After(before).value, req);
    }
  }

  lemma InRangeBefore(reqs: seq<Request>)
    requires After(reqs).Some? && AllInRange(reqs) && reqs != []
    ensures var before, req := reqs[..|reqs| - 1], reqs[|reqs| - 1];
            && After(before).Some? && AllInRange(before) && Admissible(After(before).value, req)
            && InRange(After(before).value.engines[req.ticker], req)
            && After(reqs) == Some(Process(After(before).value, req))
  {
    var n := |reqs| - 1;
    hide Admissible, Process, InRange, After, Exchange.Sound;
    AfterPrefix(reqs, n);
    assert reqs[..|reqs|] == reqs;
    forall k | 0 <= k < n
      ensures reqs[..n][..k] == reqs[..k] && reqs[..n][k] == reqs[k]
    {
    }
    assert InRangeIn(After(reqs[..n]).value, reqs[n]);
  }
}
