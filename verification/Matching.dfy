/** The matching engine of the exchange on sets of orders: `match`, `checkForMatch`, `add` and `cancel`. */
module Matching {
  import opened Types
  import opened BookSpec

  /** The incoming order of one `add`. */
  datatype Taker = Taker(ticker: nat, client: nat, oid: nat, id: nat, side: Side, limit: int)

  /** A book after some matching, what is left of the incoming order, and what was sent. */
  datatype Outcome = Outcome(book: Book<ClientKey>, leaves: nat,
                             responses: seq<ClientResponse>, updates: seq<MarketUpdate>)

  /** The incoming order accepts the price of a resting order of the other side. */
  predicate Crosses(t: Taker, price: int) {
    if t.side == BUY then price <= t.limit else t.limit <= price
  }

  function Min(a: nat, b: nat): nat {
    if a <= b then a else b
  }

  /** One fill against the resting order `id`, at the resting order's price. */
  function MatchOne(t: Taker, book: Book<ClientKey>, id: nat, leaves: nat): Outcome
    requires id in book
  {
    var o := book[id];
    var fill := Min(leaves, o.qty);
    var rest := o.qty - fill;
    var trade := MarketUpdate(TRADE, OrderId_INVALID, t.ticker, t.side, o.price, fill, Priority_INVALID);
    Outcome(
      if rest == 0 then book - {id} else book[id := o.(qty := rest)],
      leaves - fill,
      [ ClientResponse(FILLED, t.client, t.ticker, t.oid, t.id, t.side, o.price, fill, leaves - fill),
        ClientResponse(FILLED, o.key.client, t.ticker, o.key.oid, o.id, o.side, o.price, fill, rest) ],
      [ trade,
        if rest == 0
        then MarketUpdate(CANCEL, o.id, t.ticker, o.side, o.price, o.qty, Priority_INVALID)
        else MarketUpdate(MODIFY, o.id, t.ticker, o.side, o.price, rest, o.priority) ])
  }

  /** The best opposite order is one the incoming order can trade with. */
  ghost predicate CanMatch(t: Taker, book: Book<ClientKey>, leaves: nat) {
    && 0 < leaves
    && HasSide(book, Opposite(t.side))
    && Crosses(t, book[BestId(book, Opposite(t.side))].price)
  }

  lemma MatchOneKeeps(t: Taker, book: Book<ClientKey>, id: nat, leaves: nat)
    requires WellFormed(book) && id in book && 0 < leaves
    ensures WellFormed(MatchOne(t, book, id, leaves).book) && MatchOne(t, book, id, leaves).leaves < leaves
  {
  }

  /** Best opposite order first, until nothing is left to do. */
  ghost function MatchAll(t: Taker, book: Book<ClientKey>, leaves: nat): Outcome
    requires WellFormed(book)
    decreases leaves
  {
    if CanMatch(t, book, leaves) then
      var one := MatchOne(t, book, BestId(book, Opposite(t.side)), leaves);
      MatchOneKeeps(t, book, BestId(book, Opposite(t.side)), leaves);
      var more := MatchAll(t, one.book, one.leaves);
      Outcome(more.book, more.leaves, one.responses + more.responses, one.updates + more.updates)
    else
      Outcome(book, leaves, [], [])
  }

  datatype Engine = Engine(book: Book<ClientKey>, nextId: nat)

  datatype Step = Step(engine: Engine, responses: seq<ClientResponse>, updates: seq<MarketUpdate>)

  /** The invariant of one ticker's engine between requests. */
  ghost predicate Good(e: Engine) {
    && WellFormed(e.book) && Uncrossed(e.book) && 1 <= e.nextId
    && forall id :: id in e.book ==> 1 <= id < e.nextId && e.book[id].key.client < ME_MAX_NUM_CLIENTS
  }

  /** A client order id is not reused while its order is live. */
  ghost predicate FreshKey(book: Book<ClientKey>, key: ClientKey) {
    forall id :: id in book ==> book[id].key != key
  }

  ghost function Add(e: Engine, ticker: nat, client: nat, oid: nat, side: Side, price: int, qty: nat): Step
    requires WellFormed(e.book)
  {
    var accepted := ClientResponse(ACCEPTED, client, ticker, oid, e.nextId, side, price, 0, qty);
    var m := MatchAll(Taker(ticker, client, oid, e.nextId, side, price), e.book, qty);
    if m.leaves == 0 then
      Step(Engine(m.book, e.nextId + 1), [accepted] + m.responses, m.updates)
    else
      var priority := NextPriority(m.book, price);
      var order := Order(e.nextId, ClientKey(client, oid), side, price, m.leaves, priority);
      var added := MarketUpdate(ADD, e.nextId, ticker, side, price, m.leaves, priority);
      Step(Engine(m.book[e.nextId := order], e.nextId + 1), [accepted] + m.responses, m.updates + [added])
  }

  ghost predicate Live(book: Book<ClientKey>, key: ClientKey) {
    exists id :: id in book && book[id].key == key
  }

  ghost function CancelOrder(e: Engine, ticker: nat, client: nat, oid: nat): Step {
    var key := ClientKey(client, oid);
    if client < ME_MAX_NUM_CLIENTS && Live(e.book, key) then
      var id :| id in e.book && e.book[id].key == key;
      var o := e.book[id];
      Step(e.(book := e.book - {id}),
           [ClientResponse(CANCELED, client, ticker, oid, o.id, o.side, o.price, Qty_INVALID, o.qty)],
           [MarketUpdate(CANCEL, o.id, ticker, o.side, o.price, 0, o.priority)])
    else
      Step(e,
           [ClientResponse(CANCEL_REJECTED, client, ticker, oid, OrderId_INVALID, INVALID, Price_INVALID,
                           Qty_INVALID, Qty_INVALID)],
           [])
  }

  /** `after` is `before` with some crossing opposite orders reduced or gone, all else untouched. */
  ghost predicate Shrunk(t: Taker, before: Book<ClientKey>, after: Book<ClientKey>) {
    && after.Keys <= before.Keys
    && (forall id :: id in after ==> 0 < after[id].qty <= before[id].qty && after[id] == before[id].(qty := after[id].qty))
    && (forall id :: id in before && (before[id].side == t.side || !Crosses(t, before[id].price)) ==>
          id in after && after[id] == before[id])
  }

  lemma ShrunkTransitive(t: Taker, a: Book<ClientKey>, b: Book<ClientKey>, c: Book<ClientKey>)
    requires Shrunk(t, a, b) && Shrunk(t, b, c)
    ensures Shrunk(t, a, c)
  {
  }

  lemma MatchOneShrinks(t: Taker, book: Book<ClientKey>, leaves: nat)
    requires WellFormed(book) && t.side != INVALID && CanMatch(t, book, leaves)
    ensures Shrunk(t, book, MatchOne(t, book, BestId(book, Opposite(t.side)), leaves).book)
  {
    var best := BestId(book, Opposite(t.side));
    assert IsBest(book, Opposite(t.side), best);
  }

  /** If the best opposite order does not cross then no opposite order does. */
  lemma BestBlocks(t: Taker, book: Book<ClientKey>, leaves: nat)
    requires WellFormed(book) && t.side != INVALID && 0 < leaves && !CanMatch(t, book, leaves)
    ensures forall id :: id in book && book[id].side == Opposite(t.side) ==> !Crosses(t, book[id].price)
  {
    if HasSide(book, Opposite(t.side)) {
      assert IsBest(book, Opposite(t.side), BestId(book, Opposite(t.side)));
    }
  }

  /** What matching leaves behind: a shrunk book, and no crossing order unless all is filled. */
  lemma {:induction false} MatchAllLeaves(t: Taker, book: Book<ClientKey>, leaves: nat)
    requires WellFormed(book) && t.side != INVALID
    ensures var m := MatchAll(t, book, leaves);
            && WellFormed(m.book) && Shrunk(t, book, m.book) && m.leaves <= leaves
            && (m.leaves == 0 || forall id :: id in m.book && m.book[id].side == Opposite(t.side) ==> !Crosses(t, m.book[id].price))
    decreases leaves
  {
    hide WellFormed, Shrunk, HasSide, IsBest, MatchOne;
    if CanMatch(t, book, leaves) {
      var best := BestOpposite(t, book);
      var one := MatchOne(t, book, best, leaves);
      MatchOneKeeps(t, book, best, leaves);
      MatchOneShrinks(t, book, leaves);
      MatchAllLeaves(t, one.book, one.leaves);
      ShrunkTransitive(t, book, one.book, MatchAll(t, one.book, one.leaves).book);
    } else {
      ShrunkItself(t, book);
      if leaves > 0 {
        BestBlocks(t, book, leaves);
      }
    }
  }

  lemma ShrunkItself(t: Taker, book: Book<ClientKey>)
    requires WellFormed(book)
    ensures Shrunk(t, book, book)
  {
  }

  lemma BestOpposite(t: Taker, book: Book<ClientKey>) returns (id: nat)
    requires HasSide(book, Opposite(t.side))
    ensures id == BestId(book, Opposite(t.side)) && id in book
    ensures IsBest(book, Opposite(t.side), id)
  {
    id := BestId(book, Opposite(t.side));
  }

  /** Both parties of a fill trade at the price of a resting order that the incoming order accepts. */
  ghost predicate AtRestingPrices(t: Taker, book: Book<ClientKey>, rs: seq<ClientResponse>) {
    forall r :: r in rs ==>
      r.kind == FILLED && 0 < r.execQty && Crosses(t, r.price)
      && exists id :: id in book && book[id].side == Opposite(t.side) && book[id].price == r.price
  }

  lemma {:induction false} FillsAtRestingPrices(t: Taker, book: Book<ClientKey>, leaves: nat)
    requires WellFormed(book) && t.side != INVALID
    ensures AtRestingPrices(t, book, MatchAll(t, book, leaves).responses)
    decreases leaves
  {
    if CanMatch(t, book, leaves) {
      var best := BestOpposite(t, book);
      var one := MatchOne(t, book, best, leaves);
      MatchOneKeeps(t, book, best, leaves);
      assert 0 < book[best].qty && AtRestingPrices(t, book, one.responses);
      var more := MatchAll(t, one.book, one.leaves).responses;
      FillsAtRestingPrices(t, one.book, one.leaves);
      hide WellFormed, HasSide, IsBest, MatchAll;
      forall r | r in more
        ensures exists id :: id in book && book[id].side == Opposite(t.side) && book[id].price == r.price
      {
        var id :| id in one.book && one.book[id].side == Opposite(t.side) && one.book[id].price == r.price;
        assert id in book && book[id].price == r.price;
      }
    }
  }

  /**
   * The messages of one fill against an order of `book`: taker and resting order trade one quantity at the resting
   * order's price, TRADE reports it, and the last update says what is left of the resting order. `leaves` is what the
   * taker wanted before; one of the two is filled completely.
   */
  predicate FillAgrees(t: Taker, book: Book<ClientKey>, leaves: nat, own: ClientResponse, other: ClientResponse,
                       trade: MarketUpdate, change: MarketUpdate) {
    && other.marketOid in book
    && var o, q := book[other.marketOid], trade.qty;
       && 0 < q && q + own.leavesQty == leaves && q + other.leavesQty == o.qty && (own.leavesQty == 0 || other.leavesQty == 0)
       && o.side == Opposite(t.side) && (if t.side == BUY then o.price <= t.limit else t.limit <= o.price)
       && own == ClientResponse(FILLED, t.client, t.ticker, t.oid, t.id, t.side, o.price, q, own.leavesQty)
       && other == ClientResponse(FILLED, o.key.client, t.ticker, o.key.oid, o.id, o.side, o.price, q, other.leavesQty)
       && trade == MarketUpdate(TRADE, OrderId_INVALID, t.ticker, t.side, o.price, q, Priority_INVALID)
       && change == if other.leavesQty == 0
                    then MarketUpdate(CANCEL, o.id, t.ticker, o.side, o.price, q, Priority_INVALID)
                    else MarketUpdate(MODIFY, o.id, t.ticker, o.side, o.price, other.leavesQty, o.priority)
  }

  /** Responses and updates come in pairs, one pair of each for every fill, until `rest` is left of `leaves`. */
  predicate Paired(t: Taker, book: Book<ClientKey>, leaves: nat, rest: nat, rs: seq<ClientResponse>, us: seq<MarketUpdate>)
    decreases |rs|
  {
    if rs == [] || us == [] then
      rs == [] && us == [] && rest == leaves
    else
      && 2 <= |rs| && 2 <= |us| && FillAgrees(t, book, leaves, rs[0], rs[1], us[0], us[1])
      && Paired(t, book, rs[0].leavesQty, rest, rs[2..], us[2..])
  }

  /** Fills against some of the orders are fills against all of them. */
  lemma {:induction false} PairedInMore(t: Taker, part: Book<ClientKey>, book: Book<ClientKey>, leaves: nat, rest: nat,
                                        rs: seq<ClientResponse>, us: seq<MarketUpdate>)
    requires Paired(t, part, leaves, rest, rs, us)
    requires forall id :: id in part ==> id in book && book[id] == part[id]
    ensures Paired(t, book, leaves, rest, rs, us)
    decreases |rs|
  {
    if rs != [] && us != [] {
      PairedInMore(t, part, book, rs[0].leavesQty, rest, rs[2..], us[2..]);
    }
  }

  lemma OneFillAgrees(t: Taker, book: Book<ClientKey>, leaves: nat)
    requires WellFormed(book) && t.side != INVALID && CanMatch(t, book, leaves)
    ensures var one := MatchOne(t, book, BestId(book, Opposite(t.side)), leaves);
            && |one.responses| == |one.updates| == 2 && one.responses[0].leavesQty == one.leaves
            && FillAgrees(t, book, leaves, one.responses[0], one.responses[1], one.updates[0], one.updates[1])
            && (one.leaves == 0 || forall id :: id in one.book ==> id in book && book[id] == one.book[id])
  {
    var best := BestOpposite(t, book);
  }

  /** Every message of a matching run is fixed by the resting orders it meets. */
  lemma {:induction false} FillsComeInPairs(t: Taker, book: Book<ClientKey>, leaves: nat)
    requires WellFormed(book) && t.side != INVALID
    ensures var m := MatchAll(t, book, leaves); Paired(t, book, leaves, m.leaves, m.responses, m.updates)
    decreases leaves
  {
    if CanMatch(t, book, leaves) {
      var best := BestOpposite(t, book);
      var one := MatchOne(t, book, best, leaves);
      MatchOneKeeps(t, book, best, leaves);
      OneFillAgrees(t, book, leaves);
      var more, m := MatchAll(t, one.book, one.leaves), MatchAll(t, book, leaves);
      assert m.responses[2..] == more.responses && m.updates[2..] == more.updates;
      FillsComeInPairs(t, one.book, one.leaves);
      hide WellFormed, HasSide, MatchAll, FillAgrees;
      if one.leaves != 0 {
        PairedInMore(t, one.book, book, one.leaves, more.leaves, more.responses, more.updates);
      }
    }
  }

  /** An order trades only after every order ahead of it has been filled completely. */
  lemma {:induction false} PriceTimePriority(t: Taker, book: Book<ClientKey>, leaves: nat, i: nat, j: nat)
    requires WellFormed(book) && t.side != INVALID && i in book && j in book
    requires book[i].side == book[j].side == Opposite(t.side) && Ahead(book, i, j)
    ensures var m := MatchAll(t, book, leaves);
            (j !in m.book || m.book[j] != book[j]) ==> i !in m.book
    decreases leaves
  {
    if CanMatch(t, book, leaves) {
      var best := BestOpposite(t, book);
      var one := MatchOne(t, book, best, leaves);
      assert best != j && one.book.Keys >= book.Keys - {best} && one.book[j] == book[j];
      hide WellFormed, HasSide, IsBest;
      MatchOneKeeps(t, book, best, leaves);
      MatchAllLeaves(t, one.book, one.leaves);
      if i in one.book {
        PriceTimePriority(t, one.book, one.leaves, i, j);
      }
    }
  }

  /** An order that comes last at its price, under a new id and key, keeps the book well-formed. */
  lemma RestKeepsWellFormed(book: Book<ClientKey>, o: Order<ClientKey>)
    requires WellFormed(book) && o.side != INVALID && 0 < o.qty && FreshKey(book, o.key)
    requires forall id :: id in book ==> id < o.id
    requires forall id :: id in book && book[id].price == o.price ==> book[id].priority < o.priority
    ensures WellFormed(book[o.id := o])
  {
  }

  lemma ShrunkKeepsUncrossed(t: Taker, before: Book<ClientKey>, after: Book<ClientKey>)
    requires Uncrossed(before) && Shrunk(t, before, after)
    ensures Uncrossed(after)
  {
  }

  /**
   * The engine invariant, and with it an uncrossed book, survives every order, unless an order still rests under the
   * key that the remainder would rest under.
   */
  lemma AddKeepsGood(e: Engine, ticker: nat, client: nat, oid: nat, side: Side, price: int, qty: nat)
    requires Good(e) && side != INVALID && client < ME_MAX_NUM_CLIENTS
    ensures var after := Add(e, ticker, client, oid, side, price, qty).engine;
            && (Good(after) <==> OwnKeys(after.book))
            && (FreshKey(e.book, ClientKey(client, oid)) ==> Good(after))
  {
    hide WellFormed, HasPrice, MatchAll, OwnKeys;
    var t := Taker(ticker, client, oid, e.nextId, side, price);
    var m := MatchAll(t, e.book, qty);
    MatchAllLeaves(t, e.book, qty);
    ShrunkKeepsUncrossed(t, e.book, m.book);
    if m.leaves > 0 {
      assert OneSidedAt(m.book, side, price) by { SidesValid(m.book); }
      NextPriorityIsLast(m.book, side, price);
      var o := Order(e.nextId, ClientKey(client, oid), side, price, m.leaves, NextPriority(m.book, price));
      RestKey(m.book, o);
      if FreshKey(m.book, o.key) {
        RestKeepsWellFormed(m.book, o);
      }
    } else {
      KeysInGood(m.book);
    }
    KeysInGood(Add(e, ticker, client, oid, side, price, qty).engine.book);
  }

  lemma KeysInGood(book: Book<ClientKey>)
    ensures WellFormed(book) ==> OwnKeys(book)
  {
  }

  /** A new order has a key of its own exactly when the key is fresh. */
  lemma RestKey(book: Book<ClientKey>, o: Order<ClientKey>)
    requires WellFormed(book) && o.id !in book
    ensures OwnKeys(book[o.id := o]) <==> FreshKey(book, o.key)
  {
    var after := book[o.id := o];
    assert after[o.id] == o && forall id :: id in book ==> after[id] == book[id];
  }

  /** What is left over after matching can rest: same-price orders are on its side, its id is new, and so its key if it was. */
  lemma RestIsSafe(t: Taker, book: Book<ClientKey>, qty: nat)
    requires WellFormed(book) && t.side != INVALID
    requires forall id :: id in book ==> id < t.id
    ensures var m := MatchAll(t, book, qty);
            && WellFormed(m.book) && (forall id :: id in m.book ==> id < t.id)
            && (FreshKey(book, ClientKey(t.client, t.oid)) ==> FreshKey(m.book, ClientKey(t.client, t.oid)))
            && (m.leaves != 0 ==> OneSidedAt(m.book, t.side, t.limit))
  {
    hide WellFormed;
    MatchAllLeaves(t, book, qty);
    SidesValid(MatchAll(t, book, qty).book);
  }

  lemma SidesValid(book: Book<ClientKey>)
    requires WellFormed(book)
    ensures forall id :: id in book ==> book[id].side != INVALID
  {
  }

  lemma CancelKeepsGood(e: Engine, ticker: nat, client: nat, oid: nat)
    requires Good(e)
    ensures Good(CancelOrder(e, ticker, client, oid).engine)
  {
  }

  // ---- What a NEW is answered with, in the terms of the request ----

  /** Someone who asked for `price` on `side` agrees to trade at `at`. */
  predicate Agreeable(side: Side, price: int, at: int) {
    if side == BUY then at <= price else price <= at
  }

  /** An opposite order that an order at `price` has to trade with before it can rest. */
  ghost predicate InTheWay(book: Book<ClientKey>, side: Side, price: int, id: nat) {
    id in book && book[id].side == Opposite(side) && Agreeable(side, price, book[id].price)
  }

  /** Of two orders on one side, `i` comes first for an incoming order on `side`: by price, then by age. */
  predicate ComesFirst(book: Book<ClientKey>, side: Side, i: nat, j: nat)
    requires i in book && j in book
  {
    || (if side == BUY then book[i].price < book[j].price else book[j].price < book[i].price)
    || (book[i].price == book[j].price && i < j)
  }

  /** Of the older orders only those in the way lose quantity, each only after all that come before it are gone. */
  ghost predicate OnlyTraded(before: Book<ClientKey>, after: Book<ClientKey>, side: Side, price: int, new_: nat) {
    && (forall id :: id in after && id != new_ ==>
          id in before && 0 < after[id].qty <= before[id].qty && after[id] == before[id].(qty := after[id].qty))
    && (forall id :: id in before && !InTheWay(before, side, price, id) ==> id in after && after[id] == before[id])
    && (forall i, j :: InTheWay(before, side, price, i) && InTheWay(before, side, price, j) && ComesFirst(before, side, i, j) ==>
          i !in after || (j in after && after[j] == before[j]))
  }

  /** The order that rests is the one asked for, behind the others at its price, and nothing is in its way. */
  ghost predicate RestsAsAsked(book: Book<ClientKey>, o: Order<ClientKey>, id: nat, key: ClientKey, side: Side, price: int, qty: nat) {
    && o.id == id && o.key == key && o.side == side && o.price == price && 0 < o.qty <= qty
    && (forall i :: !InTheWay(book, side, price, i))
    && 1 <= o.priority
    && (forall i :: i in book && i != id && book[i].price == price ==> book[i].priority < o.priority)
    && (o.priority == 1 || exists i :: i in book && book[i].price == price && book[i].priority + 1 == o.priority)
  }

  /** The messages for a NEW: its acceptance, fills at prices it agrees to, and the ADD of what rests. */
  ghost predicate ToldAsAsked(id: nat, ticker: nat, client: nat, oid: nat, side: Side, price: int, qty: nat, s: Step) {
    && s.responses != []
    && s.responses[0] == ClientResponse(ACCEPTED, client, ticker, oid, id, side, price, 0, qty)
    && (forall r :: r in s.responses[1..] ==> r.kind == FILLED && 0 < r.execQty && Agreeable(side, price, r.price))
    && (id in s.engine.book ==>
          var o := s.engine.book[id];
          s.updates != [] && s.updates[|s.updates| - 1] == MarketUpdate(ADD, id, ticker, side, price, o.qty, o.priority))
  }

  lemma MatchedOnlyTraded(t: Taker, book: Book<ClientKey>, qty: nat)
    requires WellFormed(book) && t.side != INVALID
    ensures OnlyTraded(book, MatchAll(t, book, qty).book, t.side, t.limit, t.id)
  {
    hide WellFormed, MatchAll;
    var after := MatchAll(t, book, qty).book;
    MatchAllLeaves(t, book, qty);
    SidesValid(book);
    forall i, j | InTheWay(book, t.side, t.limit, i) && InTheWay(book, t.side, t.limit, j) && ComesFirst(book, t.side, i, j)
      ensures i !in after || (j in after && after[j] == book[j])
    {
      PriceTimePriority(t, book, qty, i, j);
    }
  }

  /** The next priority is 1 at a new price and otherwise one above the highest there. */
  lemma NextPriorityExactly(book: Book<ClientKey>, side: Side, price: int)
    requires WellFormed(book) && side != INVALID
    requires forall id :: id in book && book[id].price == price ==> book[id].side == side
    ensures var p := NextPriority(book, price);
            && 1 <= p && (forall i :: i in book && book[i].price == price ==> book[i].priority < p)
            && (p == 1 || exists i :: i in book && book[i].price == price && book[i].priority + 1 == p)
  {
    NextPriorityIsLast(book, side, price);
  }

  /** What a NEW does, in terms of its side, price and quantity. */
  lemma AddAsAsked(e: Engine, ticker: nat, client: nat, oid: nat, side: Side, price: int, qty: nat)
    requires Good(e) && side != INVALID
    ensures var s := Add(e, ticker, client, oid, side, price, qty);
            && ToldAsAsked(e.nextId, ticker, client, oid, side, price, qty, s)
            && OnlyTraded(e.book, s.engine.book, side, price, e.nextId)
            && s.engine.nextId == e.nextId + 1
            && (e.nextId in s.engine.book ==>
                  RestsAsAsked(s.engine.book, s.engine.book[e.nextId], e.nextId, ClientKey(client, oid), side, price, qty))
  {
    hide WellFormed, MatchAll, NextPriority, OnlyTraded, RestsAsAsked, ToldAsAsked, Uncrossed;
    var t := Taker(ticker, client, oid, e.nextId, side, price);
    var m := MatchAll(t, e.book, qty);
    MatchAllLeaves(t, e.book, qty);
    MatchedOnlyTraded(t, e.book, qty);
    if m.leaves > 0 {
      RestedAsAsked(e, t, qty);
      RestedTraded(e.book, m.book, side, price, Add(e, ticker, client, oid, side, price, qty).engine.book[e.nextId]);
    }
    AddTells(e, ticker, client, oid, side, price, qty);
  }

  lemma RestedTraded(before: Book<ClientKey>, after: Book<ClientKey>, side: Side, price: int, o: Order<ClientKey>)
    requires OnlyTraded(before, after, side, price, o.id) && o.id !in before
    ensures OnlyTraded(before, after[o.id := o], side, price, o.id)
  {
  }

  lemma RestedAsAsked(e: Engine, t: Taker, qty: nat)
    requires Good(e) && t.side != INVALID && t.id == e.nextId && MatchAll(t, e.book, qty).leaves > 0
    ensures var m := MatchAll(t, e.book, qty);
            var o := Order(t.id, ClientKey(t.client, t.oid), t.side, t.limit, m.leaves, NextPriority(m.book, t.limit));
            RestsAsAsked(m.book[t.id := o], o, t.id, ClientKey(t.client, t.oid), t.side, t.limit, qty)
  {
    hide WellFormed, MatchAll, NextPriority, Uncrossed;
    var book := MatchAll(t, e.book, qty).book;
    MatchAllLeaves(t, e.book, qty);
    SidesValid(book);
    NextPriorityExactly(book, t.side, t.limit);
    assert t.id !in book;
    var o := Order(t.id, ClientKey(t.client, t.oid), t.side, t.limit, MatchAll(t, e.book, qty).leaves, NextPriority(book, t.limit));
    var after := book[t.id := o];
    assert after[t.id] == o && forall i :: i in book ==> after[i] == book[i];
    if o.priority != 1 {
      var i :| i in book && book[i].price == t.limit && book[i].priority + 1 == o.priority;
      assert i in after && after[i].price == t.limit && after[i].priority + 1 == o.priority;
    }
  }

  lemma AddTells(e: Engine, ticker: nat, client: nat, oid: nat, side: Side, price: int, qty: nat)
    requires Good(e) && side != INVALID
    ensures ToldAsAsked(e.nextId, ticker, client, oid, side, price, qty, Add(e, ticker, client, oid, side, price, qty))
  {
    hide WellFormed, MatchAll, NextPriority, Uncrossed;
    var t := Taker(ticker, client, oid, e.nextId, side, price);
    MatchAllLeaves(t, e.book, qty);
    FillsAtRestingPrices(t, e.book, qty);
    var s := Add(e, ticker, client, oid, side, price, qty);
    assert s.responses[1..] == MatchAll(t, e.book, qty).responses;
    assert e.nextId !in MatchAll(t, e.book, qty).book;
  }
}
