/** The trading client's order book of one ticker, on the same linked lists, refining its copy of the orders. */
module MarketOrderBooks {
  import opened Types
  import opened Links
  import opened BookSpec
  import opened Replica
  import opened Snapshots
  import opened Ladders
  import opened LinkedBooks
  import opened LinkedLadders

  /** Price and total quantity at the top of one side. */
  datatype Quote = Quote(price: int, qty: nat)

  datatype BBO = BBO(bid: Quote, ask: Quote)

  function NoQuote(): Quote {
    Quote(Price_INVALID, Qty_INVALID)
  }

  function TotalQty(q: seq<Order<nat>>): nat {
    if q == [] then 0 else TotalQty(q[..|q| - 1]) + q[|q| - 1].qty
  }

  /** Every order of a queue counts once. */
  lemma {:induction false} TotalAdds(p: seq<Order<nat>>, q: seq<Order<nat>>)
    ensures TotalQty(p + q) == TotalQty(p) + TotalQty(q)
    ensures |q| == 1 ==> TotalQty(q) == q[0].qty
  {
    if q == [] {
      assert p + q == p;
    } else {
      assert (p + q)[..|p + q| - 1] == p + q[..|q| - 1];
      TotalAdds(p, q[..|q| - 1]);
    }
  }

  /** What a 32-bit quantity holds of a sum. */
  function AsQty(n: nat): nat {
    n % 0x1_0000_0000
  }

  lemma {:induction false} SumWraps(m: nat, n: nat)
    ensures AsQty(AsQty(m) + n) == AsQty(m + n)
    decreases m
  {
    if 0x1_0000_0000 <= m {
      Turn(m - 0x1_0000_0000);
      SumWraps(m - 0x1_0000_0000, n);
      Turn(m - 0x1_0000_0000 + n);
    }
  }

  lemma Turn(n: nat)
    ensures AsQty(n + 0x1_0000_0000) == AsQty(n)
  {
  }

  /** What the top of a ladder quotes; the sum of the queue's quantities wraps around. */
  function TopOf(ls: seq<Level<nat>>): Quote {
    if ls == [] then NoQuote() else Quote(ls[0].price, AsQty(TotalQty(ls[0].queue)))
  }

  /** Some order of the side is at `price`, and none is at a better one. */
  ghost predicate IsTopPrice(copy: Copy, side: Side, price: int) {
    && (exists id :: id in copy && copy[id].side == side && copy[id].price == price)
    && (forall id :: id in copy && copy[id].side == side ==>
          if side == BUY then copy[id].price <= price else price <= copy[id].price)
  }

  /** What an order counts at one price of one side. */
  function CountsAt(o: Order<nat>, side: Side, price: int): nat {
    if o.side == side && o.price == price then o.qty else 0
  }

  /** The quantities of all orders at one price of one side, in whatever order. */
  ghost function SumAt(copy: Copy, side: Side, price: int): nat
    decreases |copy|
  {
    if copy == map[] then
      0
    else
      var id :| id in copy;
      assert |copy - {id}| < |copy| by { OneLess(copy, id); }
      CountsAt(copy[id], side, price) + SumAt(copy - {id}, side, price)
  }

  lemma OneLess(copy: Copy, id: nat)
    requires id in copy
    ensures |copy - {id}| < |copy|
  {
    assert copy.Keys == (copy - {id}).Keys + {id};
  }

  /** `q` quotes one side of `copy`: the best price, and modulo 2^32 the sum of all quantities at that price. */
  ghost predicate Quotes(copy: Copy, side: Side, q: Quote) {
    if HasSide(copy, side)
    then IsTopPrice(copy, side, q.price) && q.qty == SumAt(copy, side, q.price) % 0x1_0000_0000
    else q == NoQuote()
  }

  /** It does not matter which order is counted first. */
  lemma {:induction false} CountFirst(copy: Copy, side: Side, price: int, id: nat)
    requires id in copy
    ensures SumAt(copy, side, price) == CountsAt(copy[id], side, price) + SumAt(copy - {id}, side, price)
    decreases |copy|
  {
    hide CountsAt;
    var first :| first in copy && SumAt(copy, side, price) == CountsAt(copy[first], side, price) + SumAt(copy - {first}, side, price);
    if first != id {
      OneLess(copy, first);
      OneLess(copy, id);
      CountFirst(copy - {first}, side, price, id);
      CountFirst(copy - {id}, side, price, first);
      assert copy - {first} - {id} == copy - {id} - {first};
    }
  }

  /** An update of one order changes the sum by what that order counts before and after. */
  lemma SumChanges(copy: Copy, after: Copy, side: Side, price: int, id: nat)
    requires after - {id} == copy - {id}
    ensures SumAt(after, side, price) + (if id in copy then CountsAt(copy[id], side, price) else 0)
         == SumAt(copy, side, price) + (if id in after then CountsAt(after[id], side, price) else 0)
  {
    hide CountsAt, SumAt;
    if id in copy {
      CountFirst(copy, side, price, id);
    } else {
      assert copy == copy - {id};
    }
    if id in after {
      CountFirst(after, side, price, id);
    } else {
      assert after == after - {id};
    }
  }

  /** A MODIFY at the quoted price leaves that price and moves the quoted quantity by the difference, modulo 2^32. */
  lemma ModifyMovesQuote(copy: Copy, u: MarketUpdate, q: Quote, r: Quote)
    requires CopyOk(copy) && Applicable(copy, u) && u.kind == MODIFY
    requires Quotes(copy, u.side, q) && u.price == q.price && Quotes(Apply(copy, u), u.side, r)
    ensures r.price == q.price && (r.qty + copy[u.orderId].qty) % 0x1_0000_0000 == (q.qty + u.qty) % 0x1_0000_0000
  {
    hide SumAt;
    var id, side := u.orderId, u.side;
    var after: Copy := copy[id := copy[id].(qty := u.qty)];
    assert forall i :: i in copy ==> after[i].side == copy[i].side && after[i].price == copy[i].price;
    assert IsTopPrice(after, side, q.price);
    assert after - {id} == copy - {id};
    SumChanges(copy, after, side, q.price, id);
    SumWraps(SumAt(copy, side, q.price), u.qty);
    SumWraps(SumAt(after, side, q.price), copy[id].qty);
  }

  /** A queue of all orders at a price adds up to their sum. */
  lemma {:induction false} QueueSum(copy: Copy, side: Side, price: int, queue: seq<Order<nat>>)
    requires IsQueue(side, price, queue)
    requires forall o :: o in queue <==> o.id in copy && copy[o.id] == o && o.side == side && o.price == price
    requires forall id :: id in copy ==> copy[id].id == id
    ensures TotalQty(queue) == SumAt(copy, side, price)
    decreases |queue|
  {
    if queue == [] {
      NothingThere(copy, side, price);
    } else {
      var before, o := queue[..|queue| - 1], queue[|queue| - 1];
      assert o in queue;
      forall x
        ensures x in before <==> x.id in copy - {o.id} && (copy - {o.id})[x.id] == x && x.side == side && x.price == price
      {
        assert x in queue <==> x in before || x == o;
      }
      QueueSum(copy - {o.id}, side, price, before);
      CountFirst(copy, side, price, o.id);
    }
  }

  lemma {:induction false} NothingThere(copy: Copy, side: Side, price: int)
    requires forall id :: id in copy ==> !(copy[id].side == side && copy[id].price == price)
    ensures SumAt(copy, side, price) == 0
    decreases |copy|
  {
    if copy != map[] {
      var id :| id in copy;
      OneLess(copy, id);
      NothingThere(copy - {id}, side, price);
      CountFirst(copy, side, price, id);
    }
  }

  ghost predicate QuotesBoth(copy: Copy, bbo: BBO) {
    Quotes(copy, BUY, bbo.bid) && Quotes(copy, SELL, bbo.ask)
  }

  /** A ladder whose orders down to the top price of another are the same has the same top level. */
  lemma SameTopLevel(side: Side, a: seq<Level<nat>>, b: seq<Level<nat>>)
    requires IsLadder(side, a) && IsLadder(side, b) && a != [] && side != INVALID
    requires forall o: Order<nat> :: !Better(side, a[0].price, o.price) ==> (InLadder(a, o) <==> InLadder(b, o))
    ensures b != [] && a[0] == b[0]
  {
    var o := a[0].queue[0];
    assert InLadder(a, o);
    var i :| 0 <= i < |b| && o in b[i].queue;
    var p := b[0].queue[0];
    assert InLadder(b, p);
    var j :| 0 <= j < |a| && p in a[j].queue;
    forall x
      ensures x in a[0].queue <==> x in b[0].queue
    {
      LadderSplit(side, a, x);
      LadderSplit(side, b, x);
    }
    QueueUnique(side, a[0].price, a[0].queue, b[0].queue);
  }

  /** The side of an update and whether its price reaches the top: computed before the update is applied. */
  predicate Touches(ls: seq<Level<nat>>, side: Side, u: MarketUpdate) {
    ls != [] && u.side == side && !Better(side, ls[0].price, u.price)
  }

  lemma UntouchedOrders(copy: Copy, u: MarketUpdate, side: Side, ls: seq<Level<nat>>, o: Order<nat>)
    requires CopyOk(copy) && Applicable(copy, u) && u.kind != CLEAR && side != INVALID
    requires LadderFor(copy, side, ls) && ls != [] && !Touches(ls, side, u) && !Better(side, ls[0].price, o.price)
    ensures o.side == side ==>
              (o.id in copy && copy[o.id] == o <==> o.id in Apply(copy, u) && Apply(copy, u)[o.id] == o)
  {
  }

  /** An update that does not touch the top leaves the top level as it is. */
  lemma UntouchedTop(copy: Copy, u: MarketUpdate, side: Side, ls: seq<Level<nat>>, ms: seq<Level<nat>>)
    requires CopyOk(copy) && Applicable(copy, u) && u.kind != CLEAR && side != INVALID
    requires LadderFor(copy, side, ls) && LadderFor(Apply(copy, u), side, ms)
    requires ls != [] && !Touches(ls, side, u)
    ensures TopOf(ms) == TopOf(ls)
  {
    hide CopyOk, Applicable, Apply, IsLadder, TotalQty;
    forall o: Order<nat> | !Better(side, ls[0].price, o.price)
      ensures InLadder(ls, o) <==> InLadder(ms, o)
    {
      UntouchedOrders(copy, u, side, ls, o);
    }
    SameTopLevel(side, ls, ms);
  }

  /** No order carries the price that stands for "no price". */
  ghost predicate RealPrices(copy: Copy) {
    forall id :: id in copy ==> copy[id].price != Price_INVALID
  }

  lemma LadderEmpty(copy: Copy, side: Side, ls: seq<Level<nat>>)
    requires LadderFor(copy, side, ls) && forall id :: id in copy ==> copy[id].id == id
    ensures ls == [] <==> !HasSide(copy, side)
    ensures ls != [] ==> exists id :: id in copy && copy[id].side == side && copy[id].price == ls[0].price
  {
    if HasSide(copy, side) {
      var id :| id in copy && copy[id].side == side;
      assert InLadder(ls, copy[id]);
    }
    if ls != [] {
      assert InLadder(ls, ls[0].queue[0]);
    }
  }

  /** The update makes the flags of `onMarketUpdate` too late: they look at the book before it. */
  ghost predicate LeavesStale(copy: Copy, side: Side, u: MarketUpdate) {
    || (u.kind == ADD && u.side == side && !HasSide(copy, side))
    || (u.kind == CLEAR && HasSide(copy, side))
  }

  /** One side of the BBO, refreshed only when touched, is right afterwards exactly when it is not left stale. */
  lemma SideExactly(copy: Copy, u: MarketUpdate, side: Side, ls: seq<Level<nat>>, ms: seq<Level<nat>>, q: Quote)
    requires CopyOk(copy) && Applicable(copy, u) && (u.kind == CLEAR ==> u.side == INVALID) && side != INVALID
    requires RealPrices(copy) && RealPrices(Apply(copy, u))
    requires LadderFor(copy, side, ls) && LadderFor(Apply(copy, u), side, ms)
    requires q == if Touches(ls, side, u) then TopOf(ms) else TopOf(ls)
    ensures q == TopOf(ms) <==> !LeavesStale(copy, side, u)
  {
    hide LadderFor, IsLadder, TotalQty;
    ApplyKeepsOk(copy, u);
    LadderEmpty(copy, side, ls);
    LadderEmpty(Apply(copy, u), side, ms);
    if ls != [] && u.kind != CLEAR && !Touches(ls, side, u) {
      UntouchedTop(copy, u, side, ls, ms);
    }
    if u.kind == ADD {
      assert Apply(copy, u)[u.orderId].side == u.side;
    }
  }

  /** The first level of a ladder, read off as the book does, is the quote of its side. */
  lemma QuotesIs(copy: Copy, side: Side, ls: seq<Level<nat>>, q: Quote)
    requires LadderFor(copy, side, ls) && side != INVALID && forall id :: id in copy ==> copy[id].id == id
    ensures Quotes(copy, side, q) <==> q == TopOf(ls)
  {
    hide SumAt, TotalQty;
    LadderEmpty(copy, side, ls);
    if ls != [] {
      TopIsBest(copy, side, ls);
      forall o
        ensures o in ls[0].queue <==> o.id in copy && copy[o.id] == o && o.side == side && o.price == ls[0].price
      {
        LadderSplit(side, ls, o);
      }
      QueueSum(copy, side, ls[0].price, ls[0].queue);
    }
  }

  lemma TopIsBest(copy: Copy, side: Side, ls: seq<Level<nat>>)
    requires LadderFor(copy, side, ls) && side != INVALID && ls != [] && forall id :: id in copy ==> copy[id].id == id
    ensures IsTopPrice(copy, side, ls[0].price)
    ensures forall p :: IsTopPrice(copy, side, p) ==> p == ls[0].price
  {
    LadderEmpty(copy, side, ls);
    forall id | id in copy && copy[id].side == side
      ensures if side == BUY then copy[id].price <= ls[0].price else ls[0].price <= copy[id].price
    {
      assert InLadder(ls, copy[id]);
    }
  }

  lemma KeyedById(copy: Copy)
    requires CopyOk(copy)
    ensures forall id :: id in copy ==> copy[id].id == id
  {
  }

  /** The ladders of both sides. */
  ghost predicate LaddersFor(copy: Copy, b: Sides<nat>) {
    LadderFor(copy, BUY, b.bids) && LadderFor(copy, SELL, b.asks)
  }

  /** A BBO that was right and is refreshed by the flags is right again exactly when no side is left stale. */
  lemma BBOExactly(copy: Copy, u: MarketUpdate, b: Sides<nat>, c: Sides<nat>, old_: BBO, new_: BBO)
    requires CopyOk(copy) && Applicable(copy, u) && (u.kind == CLEAR ==> u.side == INVALID)
    requires RealPrices(copy) && RealPrices(Apply(copy, u))
    requires LaddersFor(copy, b) && LaddersFor(Apply(copy, u), c) && QuotesBoth(copy, old_)
    requires new_.bid == if Touches(b.bids, BUY, u) then TopOf(c.bids) else old_.bid
    requires new_.ask == if Touches(b.asks, SELL, u) then TopOf(c.asks) else old_.ask
    ensures QuotesBoth(Apply(copy, u), new_) <==> !LeavesStale(copy, BUY, u) && !LeavesStale(copy, SELL, u)
  {
    hide CopyOk, Applicable, Apply, LadderFor, Quotes, LeavesStale, RealPrices, Touches, TopOf;
    KeyedById(copy);
    ApplyKeepsOk(copy, u);
    KeyedById(Apply(copy, u));
    QuotesIs(copy, BUY, b.bids, old_.bid);
    QuotesIs(copy, SELL, b.asks, old_.ask);
    SideExactly(copy, u, BUY, b.bids, c.bids, new_.bid);
    SideExactly(copy, u, SELL, b.asks, c.asks, new_.ask);
    QuotesIs(Apply(copy, u), BUY, c.bids, new_.bid);
    QuotesIs(Apply(copy, u), SELL, c.asks, new_.ask);
  }

  // ---- The book itself ----

  /** Ids resolve: an ADD brings a new one, MODIFY and CANCEL name one that is there. */
  ghost predicate Resolvable(copy: Copy, u: MarketUpdate) {
    match u.kind
    case ADD => u.orderId !in copy && u.side != INVALID
    case MODIFY => u.orderId in copy
    case CANCEL => u.orderId in copy
    case _ => true
  }

  /** An ADD comes last at its price. */
  ghost predicate Orderly(copy: Copy, u: MarketUpdate) {
    u.kind == ADD ==> InTurn(copy, Posted(u))
  }

  /** A quantity that an order can have. */
  predicate Positive(u: MarketUpdate) {
    u.kind == ADD || u.kind == MODIFY ==> 0 < u.qty
  }

  /** An ADD comes in turn and leaves the book within price index and pools, a CLEAR finds it empty. */
  ghost predicate InBounds(copy: Copy, u: MarketUpdate) {
    && Orderly(copy, u)
    && (u.kind == ADD ==> Tidy(Apply(copy, u)))
    && (u.kind == CLEAR ==> copy == map[])
  }

  lemma ApplicableIsOrderly(copy: Copy, u: MarketUpdate)
    requires CopyOk(copy) && Applicable(copy, u)
    ensures Resolvable(copy, u) && Orderly(copy, u) && Positive(u)
  {
  }

  lemma OrderlyKeepsOk(copy: Copy, u: MarketUpdate)
    requires CopyOk(copy) && Resolvable(copy, u) && Orderly(copy, u) && Positive(u)
    ensures CopyOk(Apply(copy, u))
  {
  }

  class MarketOrderBook {
    const ticker: nat
    const lists: LinkedBook<nat>   // keyed by market order id
    var bbo: BBO

    constructor (ticker: nat)
      ensures Valid() && this.ticker == ticker && lists.Orders() == map[] && fresh(lists.Repr)
      ensures bbo == BBO(NoQuote(), NoQuote())
    {
      this.ticker := ticker;
      lists := new LinkedBook();
      bbo := BBO(NoQuote(), NoQuote());
    }

    ghost predicate Sound()
      reads lists`live, lists.live.Values`qty
    {
      CopyOk(lists.Orders())
    }

    ghost predicate Valid()
      reads this, lists, lists.Repr, lists.live.Values
    {
      lists.Valid() && this !in lists.Repr && Sound()
    }

    /** The loop over the queue of the best level. */
    method QueueQty(first: BookOrder<nat>, ghost orders: seq<BookOrder<nat>>, ghost queue: seq<Order<nat>>)
      returns (total: nat)
      requires 0 < |orders| == |queue| && orders[0] == first && FifoNextRing(orders) && Distinct(orders)
      requires forall j :: 0 <= j < |orders| ==> queue[j].qty == orders[j].qty
      ensures total == AsQty(TotalQty(queue))
    {
      total := AsQty(first.qty);
      assert TotalQty(queue[..1][..0]) == 0;
      var order := first.nextOrder;
      ghost var j := 1;
      while order != first
        invariant 1 <= j <= |orders| && order == orders[if j == |orders| then 0 else j]
        invariant total == AsQty(TotalQty(queue[..j]))
        decreases |orders| - j
      {
        SumWraps(TotalQty(queue[..j]), order.qty);
        total := AsQty(total + order.qty);
        assert order.nextOrder == orders[Succ(j, |orders|)];
        j := j + 1;
        assert queue[..j][..j - 1] == queue[..j - 1];
        order := order.nextOrder;
      }
      assert j == |orders| && queue[..|queue|] == queue;
    }

    lemma TopQueue(side: Side)
      requires lists.Ringed() && side != INVALID && lists.BestLevel(side) != null
      ensures var level := lists.BestLevel(side);
              level in lists.fifo && Ladder(lists, side) != [] && Ladder(lists, side)[0].price == level.price
              && var orders, queue := lists.fifo[level], Ladder(lists, side)[0].queue;
                 && 0 < |orders| == |queue| && orders[0] == level.firstOrder && FifoNextRing(orders) && Distinct(orders)
                 && (forall j :: 0 <= j < |orders| ==> queue[j].qty == orders[j].qty)
    {
      hide LinkedBook.Ringed, Ladder, LinkedBook.Orders, FifoNextRing, Distinct;
      TopLevel(side);
      LadderIs(lists, side);
    }

    /** The best pointer leads to the first listed level and its ring of live orders. */
    lemma TopLevel(side: Side)
      requires lists.Ringed() && side != INVALID && lists.BestLevel(side) != null
      ensures var level := lists.BestLevel(side);
              && lists.Levels(side) != [] && level == lists.Levels(side)[0] && level in lists.fifo
              && var orders := lists.fifo[level];
                 && 0 < |orders| && orders[0] == level.firstOrder && FifoNextRing(orders) && Distinct(orders)
                 && forall j :: 0 <= j < |orders| ==>
                      orders[j].id in lists.Orders() && lists.Orders()[orders[j].id].qty == orders[j].qty
    {
      hide Sorted, Listed;
      var level := lists.BestLevel(side);
      assert level == lists.Levels(side)[0] && level in lists.Levels(side);
      assert level in lists.fifo by { ListedKeys(lists.Levels(side), side, lists.fifo); }
      var orders := lists.fifo[level];
      assert Distinct(orders) && FifoRing(orders);
      assert forall j :: 0 <= j < |orders| ==> orders[j] in orders;
    }

    lemma NoLevel(side: Side)
      requires lists.Ringed() && side != INVALID
      ensures lists.BestLevel(side) == null <==> Ladder(lists, side) == []
      ensures lists.BestLevel(side) != null ==> lists.BestLevel(side).price == Ladder(lists, side)[0].price
    {
      LadderIs(lists, side);
    }

    /** Both ladders as linked. */
    ghost function Ladders(): Sides<nat>
      reads lists`bids, lists`asks, lists`fifo, lists`live, lists.live.Values`qty
    {
      Sides(Ladder(lists, BUY), Ladder(lists, SELL))
    }

    lemma LaddersAreProper()
      requires lists.Valid() || lists.Cleared()
      ensures lists.Ringed() && LaddersFor(lists.Orders(), Ladders())
    {
      hide LinkedBook.Valid, Ladder, LinkedBook.Ringed, LinkedBook.Cleared;
      if lists.Valid() {
        lists.ValidIsRinged();
        LadderIsProper(lists, BUY);
        LadderIsProper(lists, SELL);
      } else {
        NoLadders();
      }
    }

    lemma NoLadders()
      requires lists.Cleared()
      ensures lists.Ringed() && LaddersFor(lists.Orders(), Ladders())
    {
      hide LinkedBook.PoolsApart, LinkedBook.OrdersPooled, LinkedBook.LevelsPooled;
      assert lists.Ringed();
    }

    method LevelQuote(side: Side) returns (q: Quote)
      requires lists.Ringed() && side != INVALID
      ensures q == TopOf(if side == BUY then Ladders().bids else Ladders().asks)
    {
      hide LinkedBook.Ringed, Ladder;
      var level := lists.BestLevel(side);
      NoLevel(side);
      if level == null {
        q := NoQuote();
      } else {
        TopQueue(side);
        var total := QueueQty(level.firstOrder, lists.fifo[level], Ladder(lists, side)[0].queue);
        q := Quote(level.price, total);
      }
    }

    method UpdateBBO(updateBid: bool, updateAsk: bool)
      requires this !in lists.Repr && lists.Ringed()
      modifies this`bbo
      ensures bbo.bid == if updateBid then TopOf(Ladders().bids) else old(bbo.bid)
      ensures bbo.ask == if updateAsk then TopOf(Ladders().asks) else old(bbo.ask)
    {
      hide LinkedBook.Ringed, Ladder, TopOf;
      var bid, ask := bbo.bid, bbo.ask;
      if updateBid {
        bid := LevelQuote(BUY);
      }
      if updateAsk {
        ask := LevelQuote(SELL);
      }
      bbo := BBO(bid, ask);
    }

    /** Looks up an order the copy holds. */
    lemma Lookup(id: nat)
      requires Valid() && id in lists.Orders()
      ensures id in lists.orderIndex
      ensures var o := lists.orderIndex[id];
              o.id == id && o.id in lists.live && lists.live[o.id] == o && lists.Orders()[id] == o.Value() && o in lists.Repr
    {
      hide LinkedBook.Valid, LinkedBook.Orders;
      lists.KeyOf(id);
      assert lists.Orders()[id].key == id;
      lists.OrderOf(lists.orderIndex[id]);
    }

    method OnAdd(u: MarketUpdate) returns (ok: bool)
      requires Valid() && Resolvable(lists.Orders(), u) && u.kind == ADD
      modifies lists.Repr
      ensures fresh(lists.Repr - old(lists.Repr)) && this !in lists.Repr
      ensures ok && lists.Valid() <==> Tidy(Apply(old(lists.Orders()), u)) && Orderly(old(lists.Orders()), u)
      ensures ok ==> lists.Orders() == Apply(old(lists.Orders()), u) && lists.Ringed()
      ensures ok && Orderly(old(lists.Orders()), u) && Positive(u) ==> Sound()
    {
      hide LinkedBook.Valid, LinkedBook.Orders, CopyOk, Tidy, LinkedBook.Ringed, InTurn;
      if Orderly(lists.Orders(), u) && Positive(u) {
        OrderlyKeepsOk(lists.Orders(), u);
      }
      lists.OrdersAreLive();
      ok := lists.NewOrder(u.orderId, u.orderId, u.side, u.price, u.qty, u.priority);
    }

    /** The switch over the update kinds; `ok` says that no assertion of a pool fails. */
    method ApplyUpdate(u: MarketUpdate) returns (ok: bool)
      requires Valid() && Resolvable(lists.Orders(), u)
      modifies lists.Repr
      ensures fresh(lists.Repr - old(lists.Repr)) && this !in lists.Repr
      ensures ok && lists.Valid() <==> InBounds(old(lists.Orders()), u)
      ensures ok ==> lists.Orders() == Apply(old(lists.Orders()), u) && lists.Ringed()
      ensures ok && Orderly(old(lists.Orders()), u) && Positive(u) ==> Sound()
      ensures u.kind == CLEAR ==> ok && lists.Cleared()
    {
      hide LinkedBook.Valid, LinkedBook.Orders, CopyOk, Resolvable, Tidy, LinkedBook.Ringed, LinkedBook.Cleared, InTurn;
      if Orderly(lists.Orders(), u) && Positive(u) {
        OrderlyKeepsOk(lists.Orders(), u);
      }
      ok := true;
      match u.kind {
        case ADD =>
          ok := OnAdd(u);
        case MODIFY =>
          Known(u);
          Lookup(u.orderId);
          lists.SetQty(lists.orderIndex[u.orderId], u.qty);
          lists.ValidIsRinged();
        case CANCEL =>
          Known(u);
          Lookup(u.orderId);
          lists.RemoveOrder(lists.orderIndex[u.orderId]);
          lists.ValidIsRinged();
        case CLEAR =>
          NoOrdersLive();
          lists.IndexSize();
          lists.Clear();
          NoLadders();
        case _ =>
          lists.ValidIsRinged();
      }
    }

    /**
     * `onMarketUpdate`. The update takes effect, and the structural invariant survives exactly when the update is in
     * bounds. With an update that fits the copy, a correct BBO is then correct again exactly when no side was left stale.
     */
    method OnMarketUpdate(u: MarketUpdate) returns (ok: bool)
      requires Valid() && Resolvable(lists.Orders(), u)
      modifies this`bbo, lists.Repr
      ensures fresh(lists.Repr - old(lists.Repr)) && this !in lists.Repr
      ensures ok && lists.Valid() <==> InBounds(old(lists.Orders()), u)
      ensures ok ==> lists.Orders() == Apply(old(lists.Orders()), u)
      ensures ok && Orderly(old(lists.Orders()), u) && Positive(u) ==> Sound()
      ensures u.kind == CLEAR ==> ok && lists.Cleared()
      ensures old(QuotesBoth(lists.Orders(), bbo)) && old(Applicable(lists.Orders(), u)) && ok && (lists.Valid() || u.kind == CLEAR) && (u.kind == CLEAR ==> u.side == INVALID)
              && RealPrices(old(lists.Orders())) && RealPrices(lists.Orders()) ==>
                (QuotesBoth(lists.Orders(), bbo) <==>
                   !LeavesStale(old(lists.Orders()), BUY, u) && !LeavesStale(old(lists.Orders()), SELL, u))
    {
      hide LinkedBook.Valid, LinkedBook.Orders, CopyOk, Applicable, Ladder, QuotesBoth, TopOf, LadderFor, RealPrices,
           LinkedBook.Ringed, LinkedBook.Cleared, InBounds, Tidy, Resolvable, Orderly;
      LaddersAreProper();
      NoLevel(BUY);
      NoLevel(SELL);
      ghost var copy, b, was := lists.Orders(), Ladders(), bbo;
      var bidUpdated := lists.bidsByPrice != null && u.side == BUY && u.price >= lists.bidsByPrice.price;
      var askUpdated := lists.asksByPrice != null && u.side == SELL && u.price <= lists.asksByPrice.price;
      assert bidUpdated == Touches(b.bids, BUY, u) && askUpdated == Touches(b.asks, SELL, u);
      ok := ApplyUpdate(u);
      if !ok || u.kind == TRADE {
        return;
      }
      UpdateBBO(bidUpdated, askUpdated);
      if QuotesBoth(copy, was) && Applicable(copy, u) && (lists.Valid() || u.kind == CLEAR) && (u.kind == CLEAR ==> u.side == INVALID)
         && RealPrices(copy) && RealPrices(lists.Orders()) {
        LaddersAreProper();
        BBOExactly(copy, u, b, Ladders(), was, bbo);
      }
    }

    /**
     * The trade engine's loop over the updates it is handed, as one book sees it, with the price index
     * reset that CLEAR omits.
     */
    method Replay(ghost copies: Copies, us: seq<MarketUpdate>)
      requires Valid() && ticker < |copies| && lists.Orders() == copies[ticker]
      requires AllApply(copies, us) && TidyThroughout(ticker, copies, us)
      modifies this`bbo, lists.Repr
      ensures Valid() && lists.Orders() == ApplyAll(copies, us)[ticker] && fresh(lists.Repr - old(lists.Repr))
    {
      hide LinkedBook.Valid, LinkedBook.Orders, CopyOk, QuotesBoth, LeavesStale, RealPrices, Applicable, Apply, AllApply, ApplyAll,
           LinkedBook.Ringed, LinkedBook.Cleared, Tidy, Resolvable, Orderly;
      ApplyNone(copies);
      for k := 0 to |us|
        invariant Valid() && fresh(lists.Repr - old(lists.Repr))
        invariant lists.Orders() == ApplyAll(copies, us[..k])[ticker]
      {
        var u := us[k];
        StepOfReplay(copies, us, k);
        if u.ticker == ticker {
          assert Tidy(ApplyAll(copies, us[..k + 1])[ticker]);
          ApplicableIsOrderly(lists.Orders(), u);
          var ok := OnMarketUpdate(u);
          assert ok;
          if u.kind == CLEAR {
            ResetAfterClear();
          }
        }
      }
      assert us[..|us|] == us;
    }

    method ResetAfterClear()
      requires lists.Cleared() && this !in lists.Repr && Sound()
      modifies lists.Repr
      ensures Valid() && lists.Orders() == old(lists.Orders()) && lists.Repr == old(lists.Repr)
    {
      hide LinkedBook.PoolsIn, LinkedBook.OrdersPooled, LinkedBook.LevelsPooled, LinkedBook.Valid;
      lists.ResetPriceIndex();
    }

    lemma StepOfReplay(copies: Copies, us: seq<MarketUpdate>, k: nat)
      requires AllApply(copies, us) && k < |us| && ticker < |copies|
      ensures ApplyAll(copies, us[..k + 1]) == ApplyTo(ApplyAll(copies, us[..k]), us[k])
      ensures us[k].ticker == ticker ==> Applicable(ApplyAll(copies, us[..k])[ticker], us[k])
    {
      Prefix(copies, us, k + 1);
      assert us[..k + 1][..k] == us[..k];
    }

    lemma NoOrdersLive()
      ensures lists.live == map[] <==> lists.Orders() == map[]
    {
      assert lists.live.Keys == lists.Orders().Keys;
    }

    lemma Known(u: MarketUpdate)
      requires Resolvable(lists.Orders(), u)
      ensures u.kind == MODIFY || u.kind == CANCEL ==> u.orderId in lists.Orders()
    {
    }
  }
}
