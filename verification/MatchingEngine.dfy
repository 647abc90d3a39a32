/** The matching engine on linked books: requests one at a time, every message in one queue. */
module MatchingEngines {
  import opened Types
  import opened BookSpec
  import opened Matching
  import opened Exchange
  import opened AsAsked
  import opened LinkedBooks
  import opened MEOrderBooks

  /** Order ids index a table. */
  predicate InTables(req: Request) {
    req.oid < ME_MAX_ORDER_IDS
  }

  /**
   * What tables, indexes and pools ask of a request: a book after it with one price per slot of the price index, one
   * order per key of the order index and a block left in both pools.
   */
  ghost predicate InRange(e: Engine, req: Request)
    requires Good(e)
  {
    InTables(req) && Tidy(Serve(e, req).engine.book) && OwnKeys(Serve(e, req).engine.book)
  }

  ghost function Feet(book: MEOrderBook): set<object>
    reads book.lists
  {
    {book, book.lists} + book.lists.Repr
  }

  method OpenBooks() returns (books: seq<MEOrderBook>)
    ensures |books| == ME_MAX_TICKERS
    ensures forall i :: 0 <= i < |books| ==> books[i].ticker == i && books[i].Valid() && books[i].State() == Engine(map[], 1)
    ensures forall i :: 0 <= i < |books| ==> fresh(Feet(books[i]))
    ensures forall i, j :: 0 <= i < j < |books| ==> Feet(books[i]) !! Feet(books[j])
  {
    hide MEOrderBook.Valid, MEOrderBook.State, LinkedBook.Valid;
    books := [];
    for t := 0 to ME_MAX_TICKERS
      invariant |books| == t
      invariant forall i :: 0 <= i < t ==> books[i].ticker == i && books[i].Valid() && books[i].State() == Engine(map[], 1)
      invariant forall i :: 0 <= i < t ==> fresh(Feet(books[i]))
      invariant forall i, j :: 0 <= i < j < t ==> Feet(books[i]) !! Feet(books[j])
    {
      var book := OpenBook(t);
      books := books + [book];
    }
  }

  method OpenBook(ticker: nat) returns (book: MEOrderBook)
    ensures book.ticker == ticker && book.Valid() && book.State() == Engine(map[], 1) && fresh(Feet(book))
  {
    hide MEOrderBook.Valid, LinkedBook.Valid;
    book := new MEOrderBook(ticker);
  }

  class MatchingEngine {
    const tickerOrderBook: seq<MEOrderBook>
    var outgoingResponses: seq<ClientResponse>
    var outgoingUpdates: seq<MarketUpdate>

    /** Eight books that share nothing. */
    constructor ()
      ensures Valid() && State() == Opened()
      ensures forall i :: 0 <= i < ME_MAX_TICKERS ==> fresh(Footprint(i))
    {
      hide MEOrderBook.Valid, MEOrderBook.State, LinkedBook.Valid;
      var books := OpenBooks();
      tickerOrderBook := books;
      outgoingResponses, outgoingUpdates := [], [];
    }

    ghost function Footprint(i: nat): set<object>
      requires i < |tickerOrderBook|
      reads tickerOrderBook[i].lists
    {
      Feet(tickerOrderBook[i])
    }

    ghost predicate Apart()
      reads set i | 0 <= i < |tickerOrderBook| :: tickerOrderBook[i].lists
    {
      && (forall i, j :: 0 <= i < j < |tickerOrderBook| ==> Footprint(i) !! Footprint(j))
      && (forall i :: 0 <= i < |tickerOrderBook| ==> this !in Footprint(i))
    }

    ghost predicate Valid()
      reads set i | 0 <= i < |tickerOrderBook| :: tickerOrderBook[i],
            set i | 0 <= i < |tickerOrderBook| :: tickerOrderBook[i].lists,
            set i, x | 0 <= i < |tickerOrderBook| && x in tickerOrderBook[i].lists.Repr :: x
    {
      && |tickerOrderBook| == ME_MAX_TICKERS && Apart()
      && forall i :: 0 <= i < |tickerOrderBook| ==> tickerOrderBook[i].ticker == i && tickerOrderBook[i].Valid()
    }

    ghost function Engines(): (es: seq<Engine>)
      reads set i | 0 <= i < |tickerOrderBook| :: tickerOrderBook[i],
            set i | 0 <= i < |tickerOrderBook| :: tickerOrderBook[i].lists,
            set i, id | 0 <= i < |tickerOrderBook| && id in tickerOrderBook[i].lists.live :: tickerOrderBook[i].lists.live[id]
      ensures |es| == |tickerOrderBook|
      ensures forall i :: 0 <= i < |es| ==> es[i] == tickerOrderBook[i].State()
    {
      EnginesUpTo(|tickerOrderBook|)
    }

    ghost function EnginesUpTo(n: nat): (es: seq<Engine>)
      requires n <= |tickerOrderBook|
      reads set i | 0 <= i < n :: tickerOrderBook[i],
            set i | 0 <= i < n :: tickerOrderBook[i].lists,
            set i, id | 0 <= i < n && id in tickerOrderBook[i].lists.live :: tickerOrderBook[i].lists.live[id]
      ensures |es| == n
      ensures forall i :: 0 <= i < n ==> es[i] == tickerOrderBook[i].State()
    {
      if n == 0 then [] else EnginesUpTo(n - 1) + [tickerOrderBook[n - 1].State()]
    }

    /** Serving one request on one book. */
    method CallBook(book: MEOrderBook, req: Request)
      returns (responses: seq<ClientResponse>, updates: seq<MarketUpdate>, ok: bool)
      requires book.Valid() && book.ticker == req.ticker && Known(req) && InTables(req)
      modifies book, book.lists.Repr
      ensures fresh(book.lists.Repr - old(book.lists.Repr))
      ensures ok && book.Valid() <==> InRange(old(book.State()), req)
      ensures var s := Serve(old(book.State()), req);
              ok && book.Valid() ==> book.State() == s.engine && responses == s.responses && updates == s.updates
    {
      hide MEOrderBook.State, LinkedBook.Valid, LinkedBook.Orders, Add, CancelOrder, MatchAll, Tidy, FreshKey, Good, OwnKeys;
      IsGood(book);
      var r, u := |book.responses|, |book.updates|;
      match req {
        case New(client, ticker, oid, side, price, qty) =>
          ok := book.Add(client, oid, side, price, qty);
        case Cancel(client, ticker, oid) =>
          book.Cancel(client, oid);
          ok := true;
          BookIsTidy(book);
      }
      responses, updates := book.responses[r..], book.updates[u..];
    }

    lemma IsGood(book: MEOrderBook)
      requires book.Valid()
      ensures Good(book.State()) && book.State() == Engine(book.lists.Orders(), book.nextMarketOrderId)
    {
    }

    lemma BookIsTidy(book: MEOrderBook)
      requires book.Valid()
      ensures Tidy(book.State().book) && OwnKeys(book.State().book)
    {
      hide LinkedBook.Valid, LinkedBook.Orders;
      book.lists.ValidIsTidy();
    }

    /**
     * `processClientRequest`: the book of the request's ticker serves it as specified, and the engine stays sound,
     * exactly when the request is in range; the other books stay as they are.
     */
    method ProcessClientRequest(req: Request) returns (ok: bool)
      requires Valid() && req.ticker < ME_MAX_TICKERS && InTables(req)
      requires Good(Engines()[req.ticker]) && Known(req)
      modifies this`outgoingResponses, this`outgoingUpdates, Footprint(req.ticker)
      ensures fresh(Footprint(req.ticker) - old(Footprint(req.ticker)))
      ensures forall i :: 0 <= i < ME_MAX_TICKERS && i != req.ticker ==> Footprint(i) == old(Footprint(i))
      ensures ok && Valid() <==> InRange(old(Engines()[req.ticker]), req)
      ensures var s := Serve(old(Engines()[req.ticker]), req);
              ok && Valid() ==>
                && Engines() == old(Engines())[req.ticker := s.engine]
                && outgoingResponses == old(outgoingResponses) + s.responses
                && outgoingUpdates == old(outgoingUpdates) + s.updates
    {
      hide MEOrderBook.Valid, MEOrderBook.State, LinkedBook.Valid, LinkedBook.Orders, Serve, Accepts, InRange, Good;
      var book := tickerOrderBook[req.ticker];
      forall i | 0 <= i < ME_MAX_TICKERS
        ensures forall id :: id in tickerOrderBook[i].lists.live ==> tickerOrderBook[i].lists.live[id] in Footprint(i)
      {
        LiveInRepr(tickerOrderBook[i]);
      }
      var responses, updates;
      responses, updates, ok := CallBook(book, req);
      outgoingResponses := outgoingResponses + responses;
      outgoingUpdates := outgoingUpdates + updates;
      assert Footprint(req.ticker) <= old(Footprint(req.ticker)) + (book.lists.Repr - old(book.lists.Repr));
      forall i | 0 <= i < ME_MAX_TICKERS && i != req.ticker
        ensures Footprint(i) == old(Footprint(i)) && Footprint(i) !! Footprint(req.ticker)
        ensures tickerOrderBook[i].Valid() && tickerOrderBook[i].State() == old(tickerOrderBook[i].State())
      {
        assert old(Footprint(i)) !! old(Footprint(req.ticker));
      }
      assert Apart();
    }

    lemma LiveInRepr(book: MEOrderBook)
      requires book.Valid()
      ensures forall id :: id in book.lists.live ==> book.lists.live[id] in book.lists.Repr
    {
    }

    /** Everything the engine holds and has sent. */
    ghost function State(): Venue
      reads this, set i | 0 <= i < |tickerOrderBook| :: tickerOrderBook[i],
            set i | 0 <= i < |tickerOrderBook| :: tickerOrderBook[i].lists,
            set i, id | 0 <= i < |tickerOrderBook| && id in tickerOrderBook[i].lists.live :: tickerOrderBook[i].lists.live[id]
    {
      Venue(Engines(), outgoingResponses, outgoingUpdates)
    }

    /** `run`: from an opened exchange the linked books end up where the set-of-orders exchange does. */
    method Run(requests: seq<Request>)
      requires Valid() && State() == Opened() && After(requests).Some? && AllInRange(requests)
      modifies this`outgoingResponses, this`outgoingUpdates
      modifies set i, x | 0 <= i < ME_MAX_TICKERS && x in Footprint(i) :: x
      ensures Valid() && State() == After(requests).value && AllAsAsked(requests, State())
    {
      hide Valid, Engines, Serve, Accepts, InRange, Good, AllAsAsked;
      for k := 0 to |requests|
        invariant Valid() && After(requests[..k]) == Some(State())
        invariant forall i :: 0 <= i < ME_MAX_TICKERS ==> fresh(Footprint(i) - old(Footprint(i)))
      {
        RunStep(requests, k);
        var ok := ProcessClientRequest(requests[k]);
        assert ok;
      }
      assert requests[..|requests|] == requests;
      RunAsAsked(requests);
    }
  }

  /** The exchange's side: every request served on the linked books. */
  method ServeAll(reqs: seq<Request>) returns (engine: MatchingEngine)
    requires After(reqs).Some? && AllInRange(reqs)
    ensures engine.Valid() && engine.State() == After(reqs).value
  {
    hide After, AllInRange, MatchingEngine.Valid, MatchingEngine.Engines;
    engine := new MatchingEngine();
    engine.Run(reqs);
  }

  ghost predicate AllInRange(requests: seq<Request>)
    requires After(requests).Some?
  {
    forall k :: 0 <= k < |requests| ==>
      (AfterPrefix(requests, k); InRangeIn(After(requests[..k]).value, requests[k]))
  }

  ghost predicate InRangeIn(v: Venue, req: Request)
    requires Sound(v) && Admissible(v, req)
  {
    InRange(v.engines[req.ticker], req)
  }

  lemma RunStep(requests: seq<Request>, k: nat)
    requires After(requests).Some? && AllInRange(requests) && k < |requests|
    ensures After(requests[..k]).Some?
    ensures var v, req := After(requests[..k]).value, requests[k];
            && Sound(v) && req.ticker < |v.engines| == ME_MAX_TICKERS && Good(v.engines[req.ticker])
            && Accepts(v.engines[req.ticker], req) && InRange(v.engines[req.ticker], req)
            && var s := Serve(v.engines[req.ticker], req);
               After(requests[..k + 1]) ==
               Some(Venue(v.engines[req.ticker := s.engine], v.responses + s.responses, v.updates + s.updates))
  {
    AfterPrefix(requests, k);
  }
}
