/** From requests at the exchange to the books of a trading client. */
module EndToEnd {
  import opened Types
  import opened BookSpec
  import opened Matching
  import opened Replica
  import opened Exchange
  import opened Snapshots
  import opened RecoverySafety

  /** What the engine of one ticker sends: incremental updates of its ticker, adding only the next id. */
  ghost predicate FromEngine(us: seq<MarketUpdate>, ticker: nat, id: nat) {
    forall u :: u in us ==> Incremental(u) && u.ticker == ticker && (u.kind == ADD ==> u.orderId == id)
  }

  lemma {:induction false} MatchAllFromEngine(t: Taker, book: Book<ClientKey>, leaves: nat)
    requires WellFormed(book) && t.side != INVALID
    ensures FromEngine(MatchAll(t, book, leaves).updates, t.ticker, t.id)
    decreases leaves
  {
    if CanMatch(t, book, leaves) {
      var best := BestOpposite(t, book);
      var one := MatchOne(t, book, best, leaves);
      MatchOneKeeps(t, book, best, leaves);
      assert FromEngine(one.updates, t.ticker, t.id);
      MatchAllFromEngine(t, one.book, one.leaves);
    }
  }

  lemma ServeFromEngine(e: Engine, req: Request)
    requires Good(e) && Accepts(e, req)
    ensures FromEngine(Serve(e, req).updates, req.ticker, e.nextId)
    ensures Serve(e, req).engine.nextId == if req.New? then e.nextId + 1 else e.nextId
  {
    match req
    case New(client, ticker, oid, side, price, qty) =>
      MatchAllFromEngine(Taker(ticker, client, oid, e.nextId, side, price), e.book, qty);
    case Cancel(_, _, _) =>
  }

  /** All updates so far are incremental, and every id they added has been given out. */
  ghost predicate IdsGivenOut(v: Venue) {
    forall u :: u in v.updates ==>
      Incremental(u) && u.ticker < |v.engines| && (u.kind == ADD ==> u.orderId < v.engines[u.ticker].nextId)
  }

  lemma {:induction false} RunGivesOutIds(reqs: seq<Request>)
    requires After(reqs).Some?
    ensures IdsGivenOut(After(reqs).value)
  {
    if reqs != [] {
      hide Good, Accepts, Serve;
      RunGivesOutIds(reqs[..|reqs| - 1]);
      var v, req := After(reqs[..|reqs| - 1]).value, reqs[|reqs| - 1];
      ServeFromEngine(v.engines[req.ticker], req);
    }
  }

  /** Orders in the copies were added by some update. */
  lemma {:induction false} IdsComeFromAdds(us: seq<MarketUpdate>, hi: nat)
    requires forall u :: u in us && u.kind == ADD ==> u.orderId < hi
    ensures forall t, id :: 0 <= t < ME_MAX_TICKERS && id in ApplyAll(NoOrders(), us)[t] ==> id < hi
  {
    if us != [] {
      IdsComeFromAdds(us[..|us| - 1], hi);
      assert us[|us| - 1] in us;
    }
  }

  /** The id tables are large enough for every order of the run. */
  ghost predicate InCapacity(v: Venue) {
    forall i :: 0 <= i < |v.engines| ==> v.engines[i].nextId <= ME_MAX_ORDER_IDS
  }

  /** Whatever requests the exchange served, its updates and snapshots make a good feed. */
  lemma ExchangeFeedIsGood(reqs: seq<Request>, taken: seq<nat>)
    requires After(reqs).Some? && InCapacity(After(reqs).value)
    requires forall s :: 0 <= s < |taken| ==> taken[s] <= |After(reqs).value.updates|
    ensures GoodFeed(Feed(After(reqs).value.updates, taken))
  {
    hide After, ApplyAll, AllApply, IdsInRange, NoOrders;
    var v := After(reqs).value;
    var f := Feed(v.updates, taken);
    UpdatesReplicateBooks(reqs);
    RunGivesOutIds(reqs);
    forall n | 0 <= n <= |f.us|
      ensures IdsInRange(Books(f, n))
    {
      BooksInRange(v, f, n);
    }
    assert forall k :: 0 <= k < |f.us| ==> f.us[k] in v.updates;
  }

  lemma BooksInRange(v: Venue, f: Feed, n: nat)
    requires IdsGivenOut(v) && InCapacity(v) && f.us == v.updates && n <= |f.us|
    ensures IdsInRange(Books(f, n))
  {
    hide ApplyAll;
    forall u | u in f.us[..n] && u.kind == ADD
      ensures u.orderId < ME_MAX_ORDER_IDS
    {
      assert u in v.updates;
    }
    IdsComeFromAdds(f.us[..n], ME_MAX_ORDER_IDS);
  }

  /**
   * For all requests served, all snapshots taken, and everything the channels may do: outside recovery the
   * client holds the exchange's books as of the updates it has counted, and once it has counted them all
   * it holds the exchange's current book of every ticker.
   */
  lemma ClientHoldsExchangeBooks(reqs: seq<Request>, taken: seq<nat>, arrivals: seq<Arrival>)
    requires After(reqs).Some? && InCapacity(After(reqs).value)
    requires forall s :: 0 <= s < |taken| ==> taken[s] <= |After(reqs).value.updates|
    requires Reached(Feed(After(reqs).value.updates, taken), arrivals).Some?
    ensures var v := After(reqs).value; var (c, link) := Reached(Feed(v.updates, taken), arrivals).value;
            && AllApply(NoOrders(), c.delivered)
            && (!c.inRecovery ==>
                  && 1 <= c.nextExp <= |v.updates| + 1
                  && ApplyAll(NoOrders(), c.delivered) == ApplyAll(NoOrders(), v.updates[..c.nextExp - 1])
                  && (c.nextExp == |v.updates| + 1 ==> ApplyAll(NoOrders(), c.delivered) == Views(v.engines)))
  {
    var v := After(reqs).value;
    var f := Feed(v.updates, taken);
    ExchangeFeedIsGood(reqs, taken);
    UpdatesReplicateBooks(reqs);
    RecoveryIsSafe(f, arrivals);
    assert v.updates[..|v.updates|] == v.updates;
  }
}
