/** What the linked lists of a book spell out, read as ladders. */
module LinkedLadders {
  import opened Types
  import opened Links
  import opened BookSpec
  import opened Replica
  import opened Ladders
  import opened LinkedBooks

  /** Every order of every listed queue is live. */
  ghost predicate Resolves<K>(levels: seq<OrdersAtPrice<K>>, fifo: Queues<K>, book: Book<K>) {
    forall i :: 0 <= i < |levels| ==>
      levels[i] in fifo && forall j :: 0 <= j < |fifo[levels[i]]| ==> fifo[levels[i]][j].id in book
  }

  function QueueOf<K>(q: seq<BookOrder<K>>, book: Book<K>): seq<Order<K>>
    requires forall j :: 0 <= j < |q| ==> q[j].id in book
  {
    seq(|q|, j requires 0 <= j < |q| => book[q[j].id])
  }

  ghost function LadderIn<K>(levels: seq<OrdersAtPrice<K>>, fifo: Queues<K>, book: Book<K>): seq<Level<K>>
    requires Resolves(levels, fifo, book)
  {
    seq(|levels|, i requires 0 <= i < |levels| => Level(levels[i].price, QueueOf(fifo[levels[i]], book)))
  }

  lemma RingedResolves<K>(b: LinkedBook<K>, side: Side)
    requires b.Ringed() && side != INVALID
    ensures Resolves(b.Levels(side), b.fifo, b.Orders())
  {
    hide QueuesLinked, LinkedBook.SidesLinked;
    var levels := b.Levels(side);
    forall i, j | 0 <= i < |levels| && levels[i] in b.fifo && 0 <= j < |b.fifo[levels[i]]|
      ensures b.fifo[levels[i]][j].id in b.Orders()
    {
      assert b.fifo[levels[i]][j] in b.fifo[levels[i]];
    }
    assert forall i :: 0 <= i < |levels| ==> levels[i] in levels;
  }

  /** The levels of one side, best first, each with its queue from the head: what a walk along the lists finds. */
  ghost function Ladder<K>(b: LinkedBook<K>, side: Side): seq<Level<K>>
    reads b`bids, b`asks, b`fifo, b`live, b.live.Values`qty
  {
    if Resolves(b.Levels(side), b.fifo, b.Orders()) then LadderIn(b.Levels(side), b.fifo, b.Orders()) else []
  }

  lemma LadderIs<K>(b: LinkedBook<K>, side: Side)
    requires (b.Valid() || b.Sound() || b.Ringed()) && side != INVALID
    ensures Resolves(b.Levels(side), b.fifo, b.Orders())
    ensures Ladder(b, side) == LadderIn(b.Levels(side), b.fifo, b.Orders())
  {
    hide LinkedBook.Valid, LinkedBook.Ringed, LinkedBook.Sound;
    if b.Valid() {
      b.ValidIsRinged();
    } else if b.Sound() {
      b.SoundIsRinged();
    }
    RingedResolves(b, side);
  }

  /** `ls` is the ladder of one side of a book. */
  ghost predicate LadderFor<K(!new)>(book: Book<K>, side: Side, ls: seq<Level<K>>) {
    && IsLadder(side, ls)
    && forall o :: InLadder(ls, o) <==> o.id in book && book[o.id] == o && o.side == side
  }

  lemma LevelAt<K>(b: LinkedBook<K>, side: Side, i: nat)
    requires (b.Valid() || b.Sound()) && side != INVALID && i < |b.Levels(side)|
    ensures var l := b.Levels(side)[i]; l.side == side && l in b.fifo && Queue(l, b.fifo[l], b.live)
  {
    hide PriceIndexed, OrderIndexed, QueuesLinked, Queue, LinkedBook.PoolsApart, LinkedBook.OrdersPooled, LinkedBook.LevelsPooled;
    assert b.Levels(side)[i] in b.Levels(side);
  }

  lemma QueueIs<K(!new)>(l: OrdersAtPrice<K>, q: seq<BookOrder<K>>, live: map<nat, BookOrder<K>>, book: Book<K>)
    requires Queue(l, q, live) && book.Keys == live.Keys
    requires forall id :: id in live ==> book[id] == live[id].Value()
    ensures var r := QueueOf(q, book); IsQueue(l.side, l.price, r) && r != []
  {
  }

  lemma QueueAt<K(!new)>(b: LinkedBook<K>, side: Side, i: nat)
    requires (b.Valid() || b.Sound()) && side != INVALID && i < |Ladder(b, side)|
    ensures var l := Ladder(b, side)[i]; IsQueue(side, l.price, l.queue) && l.queue != []
  {
    hide LinkedBook.Valid, Queue, IsQueue, Ladder;
    LadderIs(b, side);
    LevelAt(b, side, i);
    var l := b.Levels(side)[i];
    QueueIs(l, b.fifo[l], b.live, b.Orders());
  }

  lemma PricesSorted<K>(b: LinkedBook<K>, side: Side)
    requires (b.Valid() || b.Sound()) && side != INVALID
    ensures var ls := Ladder(b, side); forall i, j :: 0 <= i < j < |ls| ==> Better(side, ls[i].price, ls[j].price)
  {
    LadderIs(b, side);
    hide LinkedBook.PoolsApart, LinkedBook.OrdersPooled, LinkedBook.LevelsPooled, LinkedBook.Contained, PriceIndexed, OrderIndexed, QueuesLinked, Shaped, Listed;
  }

  lemma LadderIsSorted<K(!new)>(b: LinkedBook<K>, side: Side)
    requires (b.Valid() || b.Sound()) && side != INVALID
    ensures IsLadder(side, Ladder(b, side))
  {
    hide LinkedBook.Valid, Ladder, IsQueue;
    PricesSorted(b, side);
    forall i | 0 <= i < |Ladder(b, side)|
      ensures var l := Ladder(b, side)[i]; IsQueue(side, l.price, l.queue) && l.queue != []
    {
      QueueAt(b, side, i);
    }
  }

  lemma ListedIsLive<K>(b: LinkedBook<K>, side: Side, i: nat, o: Order<K>)
    requires (b.Valid() || b.Sound()) && side != INVALID && i < |Ladder(b, side)| && o in Ladder(b, side)[i].queue
    ensures o.id in b.Orders() && b.Orders()[o.id] == o && o.side == side
  {
    hide LinkedBook.Valid, LinkedBook.Sound, Ladder;
    LadderIs(b, side);
    b.OrdersAreLive();
    OrdersById(b);
    var q := Ladder(b, side)[i].queue;
    var j :| 0 <= j < |q| && q[j] == o;
    LevelAt(b, side, i);
  }

  lemma LiveIsListed<K>(b: LinkedBook<K>, id: nat, side: Side) returns (i: nat)
    requires (b.Valid() || b.Sound()) && id in b.Orders() && b.Orders()[id].side == side
    ensures side != INVALID && i < |Ladder(b, side)| && b.Orders()[id] in Ladder(b, side)[i].queue
  {
    hide LinkedBook.Valid, LinkedBook.Sound, Ladder, PriceIndexed, Shaped, Distinct;
    SoundParts(b);
    OwnIds(b.fifo, b.live);
    b.OrdersAreLive();
    hide LinkedBook.Orders;
    var l, k := Locate(b.fifo, b.live, b.priceIndex[..], b.live[id]);
    LadderIs(b, side);
    i :| 0 <= i < |b.Levels(side)| && b.Levels(side)[i] == l;
    assert Ladder(b, side)[i].queue[k] == b.Orders()[id];
  }

  /** The linked lists hold the ladder of the live orders. */
  lemma LadderIsProper<K(!new)>(b: LinkedBook<K>, side: Side)
    requires (b.Valid() || b.Sound()) && side != INVALID
    ensures LadderFor(b.Orders(), side, Ladder(b, side))
  {
    hide LinkedBook.Valid, Ladder;
    LadderIsSorted(b, side);
    var ls, book := Ladder(b, side), b.Orders();
    forall o
      ensures InLadder(ls, o) <==> o.id in book && book[o.id] == o && o.side == side
    {
      if InLadder(ls, o) {
        var i :| 0 <= i < |ls| && o in ls[i].queue;
        ListedIsLive(b, side, i, o);
      }
      if o.id in book && book[o.id] == o && o.side == side {
        var i := LiveIsListed(b, o.id, side);
      }
    }
  }

  function ShownLevel<K>(l: Level<K>): Level<nat> {
    Level(l.price, seq(|l.queue|, j requires 0 <= j < |l.queue| => Shown(l.queue[j])))
  }

  function ShownLadder<K>(ls: seq<Level<K>>): seq<Level<nat>> {
    seq(|ls|, i requires 0 <= i < |ls| => ShownLevel(ls[i]))
  }

  lemma ShownIsLadder<K(!new)>(side: Side, ls: seq<Level<K>>)
    requires IsLadder(side, ls)
    ensures IsLadder(side, ShownLadder(ls))
  {
    forall i | 0 <= i < |ls|
      ensures IsQueue(side, ls[i].price, ShownLevel(ls[i]).queue)
    {
      assert IsQueue(side, ls[i].price, ls[i].queue);
    }
    hide IsQueue;
  }

  lemma ShownLadderFor<K(!new)>(book: Book<K>, side: Side, ls: seq<Level<K>>)
    requires LadderFor(book, side, ls) && forall id :: id in book ==> book[id].id == id
    ensures LadderFor(View(book), side, ShownLadder(ls))
  {
    hide IsLadder, InLadder, ShownLadder;
    ShownIsLadder(side, ls);
    forall o
      ensures InLadder(ShownLadder(ls), o) <==> o.id in book && View(book)[o.id] == o && o.side == side
    {
      if InLadder(ShownLadder(ls), o) {
        var p := FromShown(ls, o);
        assert InLadder(ls, p);
      }
      if o.id in book && View(book)[o.id] == o && o.side == side {
        assert InLadder(ls, book[o.id]);
        InShown(ls, book[o.id]);
      }
    }
  }

  lemma FromShown<K(!new)>(ls: seq<Level<K>>, o: Order<nat>) returns (p: Order<K>)
    requires InLadder(ShownLadder(ls), o)
    ensures InLadder(ls, p) && Shown(p) == o
  {
    var i :| 0 <= i < |ls| && o in ShownLadder(ls)[i].queue;
    var j :| 0 <= j < |ls[i].queue| && ShownLadder(ls)[i].queue[j] == o;
    p := ls[i].queue[j];
  }

  lemma InShown<K(!new)>(ls: seq<Level<K>>, p: Order<K>)
    requires InLadder(ls, p)
    ensures InLadder(ShownLadder(ls), Shown(p))
  {
    var i :| 0 <= i < |ls| && p in ls[i].queue;
    var j :| 0 <= j < |ls[i].queue| && ls[i].queue[j] == p;
    assert ShownLadder(ls)[i].queue[j] == Shown(p);
  }

  /**
   * Exchange and client link the same book: when the client's orders are the view of the exchange's, both
   * pointer structures spell the same levels in the same order, with the same queues.
   */
  lemma SameLists(exchange: LinkedBook<ClientKey>, client: LinkedBook<nat>, side: Side)
    requires exchange.Valid() && client.Valid() && side != INVALID
    requires client.Orders() == View(exchange.Orders())
    ensures Ladder(client, side) == ShownLadder(Ladder(exchange, side))
  {
    hide LinkedBook.Valid;
    LadderIsProper(exchange, side);
    LadderIsProper(client, side);
    OrdersById(exchange);
    ShownLadderFor(exchange.Orders(), side, Ladder(exchange, side));
    LadderUnique(side, Ladder(client, side), ShownLadder(Ladder(exchange, side)));
  }

  lemma OrdersById<K>(b: LinkedBook<K>)
    requires (b.Valid() || b.Sound())
    ensures forall id :: id in b.Orders() ==> b.Orders()[id].id == id
  {
    hide PriceIndexed, OrderIndexed, QueuesLinked, LinkedBook.SidesLinked, Listed, Queue;
  }

  /** The exchange's best bid stays below its best ask, read off the best-level pointers. */
  lemma NeverCrossed(b: LinkedBook<ClientKey>)
    requires b.Valid() && Uncrossed(b.Orders()) && b.bidsByPrice != null && b.asksByPrice != null
    ensures b.bidsByPrice.price < b.asksByPrice.price
  {
    hide LinkedBook.Valid;
    b.FirstIsBest(BUY);
    b.FirstIsBest(SELL);
    HeadPrice(b, BUY);
    HeadPrice(b, SELL);
  }

  lemma HeadPrice<K>(b: LinkedBook<K>, side: Side)
    requires b.Valid() && side != INVALID && b.BestLevel(side) != null
    ensures b.BestLevel(side) == b.Levels(side)[0] && b.BestLevel(side).price == b.BestLevel(side).firstOrder.price
    ensures b.BestLevel(side).firstOrder == b.fifo[b.Levels(side)[0]][0]
  {
    LevelAt(b, side, 0);
  }

  /**
   * The walk of `toString` with the validity check: it stops the program where a level is not strictly
   * worse than the one before. That can only happen at the first level, against the initial bound.
   */
  method StaysSorted<K>(b: LinkedBook<K>, side: Side, bound: int) returns (fatal: bool)
    requires b.Valid() && side != INVALID
    ensures fatal <==> b.BestLevel(side) != null && !Better(side, bound, b.BestLevel(side).price)
  {
    hide PriceIndexed, OrderIndexed, QueuesLinked, Queue, Listed, Shaped;
    fatal := false;
    var itr := b.BestLevel(side);
    var last := bound;
    ghost var s := b.Levels(side);
    ghost var i := 0;
    while itr != null
      invariant i <= |s| && itr == if i == |s| then null else s[i]
      invariant i > 0 ==> last == s[i - 1].price
      invariant fatal <==> i > 0 && !Better(side, bound, s[0].price)
      invariant i == 0 ==> last == bound
      decreases |s| - i
    {
      var next := if itr.nextEntry == b.BestLevel(side) then null else itr.nextEntry;
      if (side == SELL && last >= itr.price) || (side == BUY && last <= itr.price) {
        fatal := true;
      }
      last := itr.price;
      itr := next;
      i := i + 1;
    }
  }

  // ---- Adding through the price index, read as ladders ----

  /** Both sides as linked. */
  ghost function LaddersOf<K>(b: LinkedBook<K>): Sides<K>
    reads b`bids, b`asks, b`fifo, b`live, b.live.Values`qty
  {
    Sides(Ladder(b, BUY), Ladder(b, SELL))
  }

  /** One queue of a side grows by one order; nothing else is read differently. */
  lemma GrownLadder<K(!new)>(levels: seq<OrdersAtPrice<K>>, fifo: Queues<K>, book: Book<K>, l: OrdersAtPrice<K>,
                             node: BookOrder<K>, o: Order<K>, fifo': Queues<K>, book': Book<K>)
    requires Resolves(levels, fifo, book) && l in fifo && node.id == o.id && o.id !in book && Distinct(levels)
    requires fifo' == fifo[l := With(fifo[l], |fifo[l]|, node)] && book' == book[o.id := o]
    ensures Resolves(levels, fifo', book')
    ensures l !in levels ==> LadderIn(levels, fifo', book') == LadderIn(levels, fifo, book)
    ensures forall i :: 0 <= i < |levels| && levels[i] == l ==>
              LadderIn(levels, fifo', book') == Append(LadderIn(levels, fifo, book), i, o)
  {
    forall i | 0 <= i < |levels|
      ensures levels[i] in fifo' && forall j :: 0 <= j < |fifo'[levels[i]]| ==> fifo'[levels[i]][j].id in book'
      ensures QueueOf(fifo'[levels[i]], book') ==
              if levels[i] == l then QueueOf(fifo[levels[i]], book) + [o] else QueueOf(fifo[levels[i]], book)
    {
    }
  }

  /** The ladders show the prices of the listed levels. */
  ghost predicate SamePrices<K(!new)>(levels: seq<OrdersAtPrice<K>>, ls: seq<Level<K>>) {
    |levels| == |ls| && forall i :: 0 <= i < |ls| ==> ls[i].price == levels[i].price
  }

  /** What the price index yields, in terms of the listed levels. */
  lemma SlotsOfLevels<K(!new)>(bids: seq<OrdersAtPrice<K>>, asks: seq<OrdersAtPrice<K>>, fifo: Queues<K>, live: map<nat, BookOrder<K>>,
                               index: seq<OrdersAtPrice?<K>>, b: Sides<K>, price: int)
    requires Listed(bids, BUY, fifo) && Listed(asks, SELL, fifo) && PriceIndexed(index, fifo, live) && Shaped(fifo, live)
    requires Sorted(bids, BUY) && Sorted(asks, SELL) && SamePrices(bids, b.bids) && SamePrices(asks, b.asks)
    ensures SlotsDistinct(b)
    ensures var l := index[PriceToIndex(price)];
            && (l == null ==> forall i: nat :: !HoldsSlot(b.bids, i, price) && !HoldsSlot(b.asks, i, price))
            && (l != null ==>
                  && l in fifo
                  && (if l.side == BUY then l in bids && l !in asks else l in asks && l !in bids)
                  && (forall i :: 0 <= i < |bids| && bids[i] == l ==> HoldsSlot(b.bids, i, price))
                  && (forall i :: 0 <= i < |asks| && asks[i] == l ==> HoldsSlot(b.asks, i, price)))
  {
    hide Shaped;
    assert forall i :: 0 <= i < |bids| ==> bids[i] in bids && index[PriceToIndex(bids[i].price)] == bids[i];
    assert forall i :: 0 <= i < |asks| ==> asks[i] in asks && index[PriceToIndex(asks[i].price)] == asks[i];
    assert forall l :: l in fifo ==> l.side != INVALID by { SidesOfLevels(fifo, live); }
  }

  lemma SidesOfLevels<K>(fifo: Queues<K>, live: map<nat, BookOrder<K>>)
    requires Shaped(fifo, live)
    ensures forall l :: l in fifo ==> l.side != INVALID
  {
  }

  lemma SoundParts<K>(b: LinkedBook<K>)
    requires b.Valid() || b.Sound()
    ensures Listed(b.bids, BUY, b.fifo) && Listed(b.asks, SELL, b.fifo) && Sorted(b.bids, BUY) && Sorted(b.asks, SELL)
    ensures b.priceIndex.Length == ME_MAX_PRICE_LEVELS && PriceIndexed(b.priceIndex[..], b.fifo, b.live) && Shaped(b.fifo, b.live)
    ensures Distinct(b.bids) && Distinct(b.asks)
  {
    hide QueuesLinked, OrderIndexed, Covers, LevelRing, Listed, PriceIndexed, Shaped, LinkedBook.Contained, LinkedBook.PoolsApart,
         LinkedBook.OrdersPooled, LinkedBook.LevelsPooled;
  }

  lemma OwnIds<K>(fifo: Queues<K>, live: map<nat, BookOrder<K>>)
    requires Shaped(fifo, live)
    ensures forall id :: id in live ==> live[id].id == id
  {
  }

  /** What the linked operation finds in a sound book. */
  lemma IndexedLadders<K(!new)>(b: LinkedBook<K>)
    requires b.Sound()
    ensures Resolves(b.bids, b.fifo, b.Orders()) && Resolves(b.asks, b.fifo, b.Orders())
    ensures LaddersOf(b) == Sides(LadderIn(b.bids, b.fifo, b.Orders()), LadderIn(b.asks, b.fifo, b.Orders()))
    ensures SamePrices(b.bids, LaddersOf(b).bids) && SamePrices(b.asks, LaddersOf(b).asks)
  {
    hide LinkedBook.Sound, LinkedBook.Orders, Resolves, Ladder, LinkedBook.Valid, LinkedBook.Ringed;
    LadderIs(b, BUY);
    LadderIs(b, SELL);
  }

  lemma IndexedLevel<K(!new)>(b: LinkedBook<K>, price: int)
    requires b.Sound()
    ensures SlotsDistinct(LaddersOf(b)) && Distinct(b.bids) && Distinct(b.asks) && b.priceIndex.Length == ME_MAX_PRICE_LEVELS
    ensures var l := b.GetOrdersAtPrice(price);
            && (l == null ==> forall i: nat :: !HoldsSlot(LaddersOf(b).bids, i, price) && !HoldsSlot(LaddersOf(b).asks, i, price))
            && (l != null ==>
                  && l in b.fifo
                  && (if l.side == BUY then l in b.bids && l !in b.asks else l in b.asks && l !in b.bids)
                  && (forall i :: 0 <= i < |b.bids| && b.bids[i] == l ==> HoldsSlot(LaddersOf(b).bids, i, price))
                  && (forall i :: 0 <= i < |b.asks| && b.asks[i] == l ==> HoldsSlot(LaddersOf(b).asks, i, price)))
  {
    SoundParts(b);
    IndexedLadders(b);
    hide LinkedBook.Sound, LinkedBook.Orders, Listed, PriceIndexed, Shaped, Sorted, Distinct, SlotsDistinct, Resolves, LaddersOf, SamePrices;
    SlotsOfLevels(b.bids, b.asks, b.fifo, b.live, b.priceIndex[..], LaddersOf(b), price);
  }

  /** The only level in a slot is the one AddByIndex appends to. */
  lemma AppendsThere<K(!new)>(b: Sides<K>, i: nat, o: Order<K>)
    requires SlotsDistinct(b)
    ensures HoldsSlot(b.bids, i, o.price) ==> AddByIndex(b, o) == b.(bids := Append(b.bids, i, o))
    ensures HoldsSlot(b.asks, i, o.price) ==> AddByIndex(b, o) == b.(asks := Append(b.asks, i, o))
  {
  }

  /** With a free slot the ladders after the linked operation are determined by the orders. */
  lemma OpensThere<K(!new)>(before: Sides<K>, after: Sides<K>, book: Book<K>, o: Order<K>)
    requires LadderFor(book, BUY, before.bids) && LadderFor(book, SELL, before.asks) && SlotsDistinct(before)
    requires LadderFor(book[o.id := o], BUY, after.bids) && LadderFor(book[o.id := o], SELL, after.asks)
    requires o.side != INVALID && o.id !in book
    requires forall i: nat :: !HoldsSlot(before.bids, i, o.price) && !HoldsSlot(before.asks, i, o.price)
    requires Ladders.Youngest(before.bids, o) && Ladders.Youngest(before.asks, o)
    ensures after == AddByIndex(before, o)
  {
    AddByIndexExactly(before, o);
    var r := AddByIndex(before, o);
    hide SlotsDistinct, AddByIndex, Ladders.Youngest, IsLadder;
    LadderUnique(BUY, after.bids, r.bids);
    LadderUnique(SELL, after.asks, r.asks);
  }

  /** An order younger than all live ones at its price is younger than all in the ladders. */
  lemma YoungestInLadders<K(!new)>(b: LinkedBook<K>, side: Side, order: BookOrder<K>)
    requires b.Sound() && side != INVALID && LinkedBooks.Youngest(order, b.live)
    ensures Ladders.Youngest(Ladder(b, side), order.Value())
  {
    hide LinkedBook.Sound, Ladder;
    forall i, p | 0 <= i < |Ladder(b, side)| && p in Ladder(b, side)[i].queue && p.price == order.price
      ensures p.id < order.id && p.priority < order.priority
    {
      ListedIsLive(b, side, i, p);
    }
  }

  /**
   * The linked `addOrder`, read as ladders, is AddByIndex, whether or not the level it finds is the order's own; and
   * it keeps the structural invariant exactly when AddByIndex keeps both ladders proper.
   */
  method AddOrderByIndex<K(==,!new)>(b: LinkedBook<K>, order: BookOrder<K>) returns (ok: bool)
    requires b.Sound() && b.PoolsApart() && b.OrdersPooled(b.live.Values + {order}) && b.LevelsPooled(b.fifo.Keys)
    requires order.side != INVALID && LinkedBooks.Youngest(order, b.live)
    requires order !in b.live.Values && order.id !in b.live && order.key !in b.orderIndex
    modifies b.Repr, order`prevOrder, order`nextOrder
    ensures ok ==> LaddersOf(b) == AddByIndex(old(LaddersOf(b)), order.Value())
    ensures ok ==> (b.Valid() <==> LinkedBooks.SlotFits(order, old(b.live)))
  {
    hide LinkedBook.Sound, LinkedBook.Valid, LinkedBook.Ringed, LinkedBooks.Youngest, LinkedBooks.SlotFits, Ladder, Resolves,
         LinkedBook.OrdersPooled, LinkedBook.LevelsPooled, SlotsDistinct, AddByIndex, LadderFor, Append, LinkedBook.Orders;
    IndexedLevel(b, order.price);
    IndexedLadders(b);
    b.OrdersAreLive();
    var level := b.GetOrdersAtPrice(order.price);
    ghost var o, before, book, bids, asks, fifo := order.Value(), LaddersOf(b), b.Orders(), b.bids, b.asks, b.fifo;
    if level == null {
      b.FreeSlotFits(order);
      BothProper(b, order);
    }
    ok := b.AddOrder(order);
    if ok {
      if level == null {
        LadderIsProper(b, BUY);
        LadderIsProper(b, SELL);
        OpensThere(before, LaddersOf(b), book, o);
      } else {
        GrownLadder(bids, fifo, book, level, order, o, b.fifo, b.Orders());
        GrownLadder(asks, fifo, book, level, order, o, b.fifo, b.Orders());
        LadderIs(b, BUY);
        LadderIs(b, SELL);
        ghost var i: nat :| if level.side == BUY then i < |bids| && bids[i] == level else i < |asks| && asks[i] == level;
        AppendsThere(before, i, o);
      }
    }
  }

  lemma BothProper<K(!new)>(b: LinkedBook<K>, order: BookOrder<K>)
    requires b.Sound() && LinkedBooks.Youngest(order, b.live)
    ensures LadderFor(b.Orders(), BUY, LaddersOf(b).bids) && LadderFor(b.Orders(), SELL, LaddersOf(b).asks)
    ensures Ladders.Youngest(LaddersOf(b).bids, order.Value()) && Ladders.Youngest(LaddersOf(b).asks, order.Value())
  {
    hide LinkedBook.Sound, Ladder, LadderFor;
    LadderIsProper(b, BUY);
    LadderIsProper(b, SELL);
    YoungestInLadders(b, BUY, order);
    YoungestInLadders(b, SELL, order);
  }

  /** Two bids at 100 and 356 on an empty book: both are accepted, and the book is no longer sound. */
  method ClashOnTheBook() returns (b: LinkedBook<nat>, ok: bool)
    ensures ok && !b.Valid() && b.Orders().Keys == {1, 2}
    ensures b.Orders()[1].price == 100 && b.Orders()[2].price == 356
  {
    hide LinkedBook.Valid, LinkedBook.Ringed;
    b := new LinkedBook();
    b.OrdersAreLive();
    b.KeyOf(1);
    ghost var first, second := Order(1, 1, BUY, 100, 5, 1), Order(2, 2, BUY, 356, 5, 2);
    OneIsTidy(first);
    ok := b.NewOrder(1, 1, BUY, 100, 5, 1);
    assert b.Orders() == map[1 := first];
    b.OrdersAreLive();
    b.KeyOf(2);
    TwoClash(first, second);
    assert SlotUsed(b.Orders(), 356) by { assert b.Orders()[1].price == 100; }
    ok := b.NewOrder(2, 2, BUY, 356, 5, 2);
  }

  lemma OneIsTidy(o: Order<nat>)
    ensures Tidy(map[][o.id := o]) && map[][o.id := o] == map[o.id := o]
  {
    var book: Book<nat> := map[o.id := o];
    assert o.id in book && Prices(book) == {o.price} by { PricesWith(map[], o); assert Prices<nat>(map[]) == {}; }
  }

  lemma TwoClash(o: Order<nat>, p: Order<nat>)
    requires o.id != p.id && o.price != p.price && PriceToIndex(o.price) == PriceToIndex(p.price)
    ensures !Tidy(map[o.id := o][p.id := p])
  {
    var book: Book<nat> := map[o.id := o][p.id := p];
    assert book[o.id] == o && book[p.id] == p;
  }
}
