/** Quantity is conserved: what an order asked for is filled, still resting, or cancelled. */
module Conservation {
  import opened Types
  import opened BookSpec
  import opened Matching
  import opened Exchange

  /** The quantity a response speaks of: the order's size, one execution, or what a cancel gave back. */
  function Amount(r: ClientResponse): nat {
    if r.kind == FILLED then r.execQty else r.leavesQty
  }

  /** All quantity that responses of one kind report for one order. */
  function Tally(rs: seq<ClientResponse>, kind: ResponseType, ticker: nat, id: nat): nat {
    if rs == [] then
      0
    else
      var r := rs[|rs| - 1];
      Tally(rs[..|rs| - 1], kind, ticker, id)
      + if r.kind == kind && r.ticker == ticker && r.marketOid == id then Amount(r) else 0
  }

  /** All quantity executed on one side of a ticker. */
  function Executed(rs: seq<ClientResponse>, ticker: nat, side: Side): nat {
    if rs == [] then
      0
    else
      var r := rs[|rs| - 1];
      Executed(rs[..|rs| - 1], ticker, side)
      + if r.kind == FILLED && r.ticker == ticker && r.side == side then r.execQty else 0
  }

  /** All quantity published as traded in a ticker. */
  function Traded(us: seq<MarketUpdate>, ticker: nat): nat {
    if us == [] then
      0
    else
      var u := us[|us| - 1];
      Traded(us[..|us| - 1], ticker) + if u.kind == TRADE && u.ticker == ticker then u.qty else 0
  }

  lemma {:induction false} TallyConcat(rs: seq<ClientResponse>, ss: seq<ClientResponse>, kind: ResponseType, ticker: nat, id: nat)
    ensures Tally(rs + ss, kind, ticker, id) == Tally(rs, kind, ticker, id) + Tally(ss, kind, ticker, id)
  {
    if ss == [] {
      assert rs + ss == rs;
    } else {
      assert (rs + ss)[..|rs + ss| - 1] == rs + ss[..|ss| - 1];
      TallyConcat(rs, ss[..|ss| - 1], kind, ticker, id);
    }
  }

  lemma {:induction false} ExecutedConcat(rs: seq<ClientResponse>, ss: seq<ClientResponse>, ticker: nat, side: Side)
    ensures Executed(rs + ss, ticker, side) == Executed(rs, ticker, side) + Executed(ss, ticker, side)
  {
    if ss == [] {
      assert rs + ss == rs;
    } else {
      assert (rs + ss)[..|rs + ss| - 1] == rs + ss[..|ss| - 1];
      ExecutedConcat(rs, ss[..|ss| - 1], ticker, side);
    }
  }

  lemma {:induction false} TradedConcat(us: seq<MarketUpdate>, vs: seq<MarketUpdate>, ticker: nat)
    ensures Traded(us + vs, ticker) == Traded(us, ticker) + Traded(vs, ticker)
  {
    if vs == [] {
      assert us + vs == us;
    } else {
      assert (us + vs)[..|us + vs| - 1] == us + vs[..|vs| - 1];
      TradedConcat(us, vs[..|vs| - 1], ticker);
    }
  }

  /** What still rests of order `id`. */
  function Resting(book: Book<ClientKey>, id: nat): nat {
    if id in book then book[id].qty else 0
  }

  lemma MatchOneConserves(t: Taker, book: Book<ClientKey>, best: nat, leaves: nat, id: nat)
    requires WellFormed(book) && best in book && t.id !in book
    ensures var one := MatchOne(t, book, best, leaves);
            Resting(book, id) + (if id == t.id then leaves else 0) ==
            Tally(one.responses, FILLED, t.ticker, id) + Resting(one.book, id) + if id == t.id then one.leaves else 0
  {
    var one := MatchOne(t, book, best, leaves);
    assert one.responses == [one.responses[0]] + [one.responses[1]];
    TallyConcat([one.responses[0]], [one.responses[1]], FILLED, t.ticker, id);
    assert forall r: ClientResponse :: [r][..0] == [];
  }

  /** Matching moves quantity from resting orders and the incoming order into executions, order by order. */
  lemma {:induction false} MatchAllConserves(t: Taker, book: Book<ClientKey>, leaves: nat, id: nat)
    requires WellFormed(book) && t.side != INVALID && t.id !in book
    ensures var m := MatchAll(t, book, leaves);
            Resting(book, id) + (if id == t.id then leaves else 0) ==
            Tally(m.responses, FILLED, t.ticker, id) + Resting(m.book, id) + if id == t.id then m.leaves else 0
    decreases leaves
  {
    if CanMatch(t, book, leaves) {
      var best := BestOpposite(t, book);
      var one := MatchOne(t, book, best, leaves);
      MatchOneKeeps(t, book, best, leaves);
      MatchOneConserves(t, book, best, leaves, id);
      assert t.id !in one.book;
      hide WellFormed, HasSide, IsBest, MatchOne, Resting;
      MatchAllConserves(t, one.book, one.leaves, id);
      TallyConcat(one.responses, MatchAll(t, one.book, one.leaves).responses, FILLED, t.ticker, id);
    }
  }

  /** Matching reports fills only. */
  lemma {:induction false} MatchAllFillsOnly(t: Taker, book: Book<ClientKey>, leaves: nat, kind: ResponseType, ticker: nat, id: nat)
    requires WellFormed(book) && t.side != INVALID && (kind != FILLED || ticker != t.ticker)
    ensures Tally(MatchAll(t, book, leaves).responses, kind, ticker, id) == 0
    decreases leaves
  {
    if CanMatch(t, book, leaves) {
      var best := BestOpposite(t, book);
      var one := MatchOne(t, book, best, leaves);
      assert one.responses == [one.responses[0]] + [one.responses[1]];
      TallyConcat([one.responses[0]], [one.responses[1]], kind, ticker, id);
      MatchOneKeeps(t, book, best, leaves);
      hide WellFormed, HasSide, IsBest;
      MatchAllFillsOnly(t, one.book, one.leaves, kind, ticker, id);
      TallyConcat(one.responses, MatchAll(t, one.book, one.leaves).responses, kind, ticker, id);
    }
  }

  /** Every fill executes the same quantity on both sides and publishes it as one trade. */
  lemma MatchOneBalances(t: Taker, book: Book<ClientKey>, id: nat, leaves: nat, ticker: nat)
    requires id in book && t.side != INVALID && book[id].side == Opposite(t.side)
    ensures var one := MatchOne(t, book, id, leaves);
            Executed(one.responses, ticker, BUY) == Executed(one.responses, ticker, SELL) == Traded(one.updates, ticker)
  {
    var one := MatchOne(t, book, id, leaves);
    var r, p, u, v := one.responses[0], one.responses[1], one.updates[0], one.updates[1];
    assert one.responses == [r] + [p] && one.updates == [u] + [v];
    hide Executed, Traded;
    TallyOne(r, FILLED, ticker, 0);
    TallyOne(p, FILLED, ticker, 0);
    ExecutedConcat([r], [p], ticker, BUY);
    ExecutedConcat([r], [p], ticker, SELL);
    TradedOne(u, ticker);
    TradedOne(v, ticker);
    TradedConcat([u], [v], ticker);
  }

  lemma {:induction false} MatchAllBalances(t: Taker, book: Book<ClientKey>, leaves: nat, ticker: nat)
    requires WellFormed(book) && t.side != INVALID
    ensures var m := MatchAll(t, book, leaves);
            Executed(m.responses, ticker, BUY) == Executed(m.responses, ticker, SELL) == Traded(m.updates, ticker)
    decreases leaves
  {
    if CanMatch(t, book, leaves) {
      var best := BestOpposite(t, book);
      var one := MatchOne(t, book, best, leaves);
      hide WellFormed, HasSide, MatchOne;
      MatchOneBalances(t, book, best, leaves, ticker);
      MatchOneKeeps(t, book, best, leaves);
      var more := MatchAll(t, one.book, one.leaves);
      MatchAllBalances(t, one.book, one.leaves, ticker);
      ExecutedConcat(one.responses, more.responses, ticker, BUY);
      ExecutedConcat(one.responses, more.responses, ticker, SELL);
      TradedConcat(one.updates, more.updates, ticker);
    }
  }

  lemma TallyOne(r: ClientResponse, kind: ResponseType, ticker: nat, id: nat)
    ensures Tally([r], kind, ticker, id) == if r.kind == kind && r.ticker == ticker && r.marketOid == id then Amount(r) else 0
    ensures Executed([r], ticker, BUY) == if r.kind == FILLED && r.ticker == ticker && r.side == BUY then r.execQty else 0
    ensures Executed([r], ticker, SELL) == if r.kind == FILLED && r.ticker == ticker && r.side == SELL then r.execQty else 0
  {
    assert [r][..0] == [];
  }

  lemma AddConserves(e: Engine, ticker: nat, client: nat, oid: nat, side: Side, price: int, qty: nat, id: nat)
    requires Good(e) && side != INVALID
    ensures var s := Add(e, ticker, client, oid, side, price, qty);
            Tally(s.responses, ACCEPTED, ticker, id) + Resting(e.book, id) ==
            Tally(s.responses, FILLED, ticker, id) + Tally(s.responses, CANCELED, ticker, id) + Resting(s.engine.book, id)
  {
    hide WellFormed, MatchAll, Tally, Uncrossed, HasSide, Crosses, NextPriority;
    var t := Taker(ticker, client, oid, e.nextId, side, price);
    var m := MatchAll(t, e.book, qty);
    var accepted := ClientResponse(ACCEPTED, client, ticker, oid, e.nextId, side, price, 0, qty);
    MatchAllConserves(t, e.book, qty, id);
    MatchAllLeaves(t, e.book, qty);
    forall kind
      ensures Tally([accepted] + m.responses, kind, ticker, id) ==
              Tally([accepted], kind, ticker, id) + Tally(m.responses, kind, ticker, id)
      ensures kind != FILLED ==> Tally(m.responses, kind, ticker, id) == 0
    {
      TallyConcat([accepted], m.responses, kind, ticker, id);
      TallyOne(accepted, kind, ticker, id);
      if kind != FILLED {
        MatchAllFillsOnly(t, e.book, qty, kind, ticker, id);
      }
    }
    TallyOne(accepted, ACCEPTED, ticker, id);
    TallyOne(accepted, FILLED, ticker, id);
    TallyOne(accepted, CANCELED, ticker, id);
  }

  lemma CancelConserves(e: Engine, ticker: nat, client: nat, oid: nat, id: nat)
    requires Good(e)
    ensures var s := CancelOrder(e, ticker, client, oid);
            Tally(s.responses, ACCEPTED, ticker, id) + Resting(e.book, id) ==
            Tally(s.responses, FILLED, ticker, id) + Tally(s.responses, CANCELED, ticker, id) + Resting(s.engine.book, id)
  {
    var r := CancelOrder(e, ticker, client, oid).responses[0];
    TallyOne(r, ACCEPTED, ticker, id);
    TallyOne(r, FILLED, ticker, id);
    TallyOne(r, CANCELED, ticker, id);
  }

  /** One request moves quantity between its order's size, executions, cancels and the book, and loses none. */
  lemma ServeConserves(e: Engine, req: Request, id: nat)
    requires Good(e) && Accepts(e, req)
    ensures var s := Serve(e, req);
            Tally(s.responses, ACCEPTED, req.ticker, id) + Resting(e.book, id) ==
            Tally(s.responses, FILLED, req.ticker, id) + Tally(s.responses, CANCELED, req.ticker, id) + Resting(s.engine.book, id)
  {
    match req
    case New(client, ticker, oid, side, price, qty) => AddConserves(e, ticker, client, oid, side, price, qty, id);
    case Cancel(client, ticker, oid) => CancelConserves(e, ticker, client, oid, id);
  }

  /** A request reports nothing about other tickers. */
  lemma ServeStaysInTicker(e: Engine, req: Request, kind: ResponseType, ticker: nat, id: nat)
    requires Good(e) && Accepts(e, req) && ticker != req.ticker
    ensures Tally(Serve(e, req).responses, kind, ticker, id) == 0
  {
    var s := Serve(e, req);
    TallyOne(s.responses[0], kind, ticker, id);
    match req
    case New(client, tk, oid, side, price, qty) =>
      var t := Taker(tk, client, oid, e.nextId, side, price);
      MatchAllFillsOnly(t, e.book, qty, kind, ticker, id);
      TallyConcat([s.responses[0]], MatchAll(t, e.book, qty).responses, kind, ticker, id);
    case Cancel(_, _, _) =>
  }

  ghost predicate Accounted(v: Venue, ticker: nat, id: nat)
    requires ticker < |v.engines|
  {
    Tally(v.responses, ACCEPTED, ticker, id) ==
    Tally(v.responses, FILLED, ticker, id) + Tally(v.responses, CANCELED, ticker, id) + Resting(v.engines[ticker].book, id)
  }

  /** Over any run: accepted quantity = executed quantity + cancelled quantity + resting quantity, for every order. */
  lemma {:induction false} OrdersConserve(reqs: seq<Request>, ticker: nat, id: nat)
    requires After(reqs).Some? && ticker < ME_MAX_TICKERS
    ensures Accounted(After(reqs).value, ticker, id)
  {
    if reqs != [] {
      var before, req := reqs[..|reqs| - 1], reqs[|reqs| - 1];
      OrdersConserve(before, ticker, id);
      var v := After(before).value;
      var e := v.engines[req.ticker];
      hide Good, Accepts, Serve, Tally, Resting;
      if ticker == req.ticker {
        ServeConserves(e, req, id);
      } else {
        ServeStaysInTicker(e, req, ACCEPTED, ticker, id);
        ServeStaysInTicker(e, req, FILLED, ticker, id);
        ServeStaysInTicker(e, req, CANCELED, ticker, id);
      }
      TallyConcat(v.responses, Serve(e, req).responses, ACCEPTED, ticker, id);
      TallyConcat(v.responses, Serve(e, req).responses, FILLED, ticker, id);
      TallyConcat(v.responses, Serve(e, req).responses, CANCELED, ticker, id);
    }
  }

  lemma AddBalances(e: Engine, tk: nat, client: nat, oid: nat, side: Side, price: int, qty: nat, ticker: nat)
    requires Good(e) && side != INVALID
    ensures var s := Add(e, tk, client, oid, side, price, qty);
            Executed(s.responses, ticker, BUY) == Executed(s.responses, ticker, SELL) == Traded(s.updates, ticker)
  {
    var t := Taker(tk, client, oid, e.nextId, side, price);
    var m := MatchAll(t, e.book, qty);
    MatchAllBalances(t, e.book, qty, ticker);
    var s := Add(e, tk, client, oid, side, price, qty);
    hide Good, WellFormed, MatchAll, Executed, Traded;
    TallyOne(s.responses[0], FILLED, ticker, 0);
    ExecutedConcat([s.responses[0]], m.responses, ticker, BUY);
    ExecutedConcat([s.responses[0]], m.responses, ticker, SELL);
    if m.leaves > 0 {
      var added := s.updates[|s.updates| - 1];
      TradedOne(added, ticker);
      TradedConcat(m.updates, [added], ticker);
    }
  }

  lemma TradedOne(u: MarketUpdate, ticker: nat)
    ensures Traded([], ticker) == 0
    ensures Traded([u], ticker) == if u.kind == TRADE && u.ticker == ticker then u.qty else 0
  {
    assert [u][..0] == [];
  }

  lemma CancelBalances(e: Engine, tk: nat, client: nat, oid: nat, ticker: nat)
    ensures var s := CancelOrder(e, tk, client, oid);
            Executed(s.responses, ticker, BUY) == Executed(s.responses, ticker, SELL) == Traded(s.updates, ticker)
  {
    var s := CancelOrder(e, tk, client, oid);
    hide Executed, Traded;
    TallyOne(s.responses[0], FILLED, ticker, 0);
    TradedOne(if s.updates == [] then MarketUpdate(NOTHING, 0, 0, INVALID, 0, 0, 0) else s.updates[0], ticker);
  }

  lemma ServeBalances(e: Engine, req: Request, ticker: nat)
    requires Good(e) && Accepts(e, req)
    ensures var s := Serve(e, req);
            Executed(s.responses, ticker, BUY) == Executed(s.responses, ticker, SELL) == Traded(s.updates, ticker)
  {
    hide Executed, Traded, Good, Add, CancelOrder;
    match req
    case New(client, tk, oid, side, price, qty) => AddBalances(e, tk, client, oid, side, price, qty, ticker);
    case Cancel(client, tk, oid) => CancelBalances(e, tk, client, oid, ticker);
  }

  /** Over any run: executed buys = executed sells = published trades, in every ticker. */
  lemma {:induction false} TradesBalance(reqs: seq<Request>, ticker: nat)
    requires After(reqs).Some?
    ensures var v := After(reqs).value;
            Executed(v.responses, ticker, BUY) == Executed(v.responses, ticker, SELL) == Traded(v.updates, ticker)
  {
    if reqs != [] {
      var before, req := reqs[..|reqs| - 1], reqs[|reqs| - 1];
      TradesBalance(before, ticker);
      var v := After(before).value;
      var e := v.engines[req.ticker];
      hide Good, Accepts, Serve, Executed, Traded;
      ServeBalances(e, req, ticker);
      ExecutedConcat(v.responses, Serve(e, req).responses, ticker, BUY);
      ExecutedConcat(v.responses, Serve(e, req).responses, ticker, SELL);
      TradedConcat(v.updates, Serve(e, req).updates, ticker);
    }
  }
}
