/** The linked limit order book: the list operations that exchange and client book share. */
module LinkedBooks {
  import opened Types
  import opened Links
  import opened BookSpec
  import opened MemPools

  /** The levels of one side, best price first. */
  ghost predicate Sorted<K>(levels: seq<OrdersAtPrice<K>>, side: Side) {
    && (forall i :: 0 <= i < |levels| ==> levels[i].side == side)
    && (forall i, j :: 0 <= i < j < |levels| ==> Better(side, levels[i].price, levels[j].price))
  }

  /** The list of one side is a sorted ring entered at its best level. */
  ghost predicate SideLinked<K>(levels: seq<OrdersAtPrice<K>>, best: OrdersAtPrice?<K>, side: Side)
    reads levels`prevEntry, levels`nextEntry
  {
    && Sorted(levels, side)
    && LevelRing(levels)
    && best == if levels == [] then null else levels[0]
  }

  lemma SortedWith<K>(s: seq<OrdersAtPrice<K>>, side: Side, level: OrdersAtPrice<K>, k: nat)
    requires Sorted(s, side) && k <= |s| && level.side == side
    requires k > 0 ==> Better(side, s[k - 1].price, level.price)
    requires k < |s| ==> Better(side, level.price, s[k].price)
    ensures Sorted(With(s, k, level), side) && Distinct(s)
    ensures |s| > 0 ==> (Better(side, level.price, s[0].price) <==> k == 0)
  {
    var t := With(s, k, level);
    forall i, j | 0 <= i < j < |t|
      ensures Better(side, t[i].price, t[j].price)
    {
      if i == k && j > k + 1 {
        assert Better(side, s[k].price, s[j - 1].price);
      }
    }
  }

  lemma SortedWithout<K>(s: seq<OrdersAtPrice<K>>, side: Side, k: nat)
    requires Sorted(s, side) && k < |s|
    ensures Sorted(Without(s, k), side) && Distinct(s)
  {
    var t := Without(s, k);
    forall i, j | 0 <= i < j < |t|
      ensures Better(side, t[i].price, t[j].price)
    {
    }
  }

  /** The order queue of a level: non-empty, one side and price, oldest first. */
  ghost predicate Queue<K>(l: OrdersAtPrice<K>, q: seq<BookOrder<K>>, live: map<nat, BookOrder<K>>) {
    && 0 < |q|
    && (forall i :: 0 <= i < |q| ==> q[i].id in live && live[q[i].id] == q[i])
    && (forall i :: 0 <= i < |q| ==> q[i].side == l.side && q[i].price == l.price)
    && (forall i, j :: 0 <= i < j < |q| ==> q[i].id < q[j].id && q[i].priority < q[j].priority)
  }

  type Queues<K> = map<OrdersAtPrice<K>, seq<BookOrder<K>>>

  /** Every level holds a queue of live orders. */
  ghost predicate Shaped<K>(fifo: Queues<K>, live: map<nat, BookOrder<K>>) {
    && (forall l :: l in fifo ==> l.side != INVALID && Queue(l, fifo[l], live))
    && (forall id :: id in live ==> live[id].id == id)
  }

  /** `levels` lists exactly the levels of one side. */
  ghost predicate Listed<K>(levels: seq<OrdersAtPrice<K>>, side: Side, fifo: Queues<K>) {
    && (forall l :: l in levels ==> l in fifo)
    && (forall l :: l in fifo && l.side == side ==> l in levels)
  }

  ghost predicate InQueue<K>(o: BookOrder<K>, index: seq<OrdersAtPrice?<K>>, fifo: Queues<K>)
    requires |index| == ME_MAX_PRICE_LEVELS
  {
    var l := index[PriceToIndex(o.price)];
    l != null && l in fifo && o in fifo[l]
  }

  /** The price index holds exactly the listed levels and leads to every live order. */
  ghost predicate PriceIndexed<K>(index: seq<OrdersAtPrice?<K>>, fifo: Queues<K>, live: map<nat, BookOrder<K>>) {
    && |index| == ME_MAX_PRICE_LEVELS
    && (forall l :: l in fifo ==> index[PriceToIndex(l.price)] == l)
    && (forall r :: 0 <= r < |index| && index[r] != null ==> index[r] in fifo && PriceToIndex(index[r].price) == r)
    && (forall id :: id in live ==> InQueue(live[id], index, fifo))
  }

  /** The order index holds exactly the live orders. */
  ghost predicate OrderIndexed<K>(index: map<K, BookOrder<K>>, live: map<nat, BookOrder<K>>) {
    && (forall k :: k in index ==> index[k].id in live && live[index[k].id] == index[k] && index[k].key == k)
    && (forall id :: id in live ==> live[id].key in index && index[live[id].key] == live[id])
  }

  /** A new order is younger than every live order at its price, and on their side. */
  ghost predicate Youngest<K>(o: BookOrder<K>, live: map<nat, BookOrder<K>>) {
    forall id :: id in live && live[id].price == o.price ==>
      live[id].side == o.side && id < o.id && live[id].priority < o.priority
  }

  /** No live order uses the order's slot of the price index at another price. */
  ghost predicate SlotFits<K>(o: BookOrder<K>, live: map<nat, BookOrder<K>>) {
    forall id :: id in live && PriceToIndex(live[id].price) == PriceToIndex(o.price) ==> live[id].price == o.price
  }

  /** So it goes behind every live order that shares its slot. */
  ghost predicate GoesLast<K>(o: BookOrder<K>, live: map<nat, BookOrder<K>>) {
    Youngest(o, live) && SlotFits(o, live)
  }

  /** Every queued order is live. */
  ghost predicate Alive<K>(fifo: Queues<K>, live: map<nat, BookOrder<K>>) {
    forall l, o :: l in fifo && o in fifo[l] ==> o.id in live && live[o.id] == o
  }

  ghost function Nodes<K>(fifo: Queues<K>): set<BookOrder<K>> {
    set l, o | l in fifo && o in fifo[l] :: o
  }

  /** No order stands in two queues. */
  ghost predicate Apart<K>(fifo: Queues<K>) {
    forall l, m, o :: l in fifo && m in fifo && o in fifo[l] && o in fifo[m] ==> l == m
  }

  /** Every queue is a closed ring entered at its oldest order. */
  ghost predicate QueuesLinked<K>(fifo: Queues<K>)
    reads fifo.Keys`firstOrder, Nodes(fifo)`prevOrder, Nodes(fifo)`nextOrder
  {
    && Apart(fifo)
    && forall l :: l in fifo ==>
         0 < |fifo[l]| && Distinct(fifo[l]) && l.firstOrder == fifo[l][0] && (InNodes(fifo, l); FifoRing(fifo[l]))
  }

  /** A queue may lose orders and gain orders that stand in no queue. */
  lemma ApartStill<K>(fifo: Queues<K>, l: OrdersAtPrice<K>, t: seq<BookOrder<K>>)
    requires Apart(fifo)
    requires forall o :: o in t ==> o !in Nodes(fifo) || (l in fifo && o in fifo[l])
    ensures Apart(fifo[l := t])
  {
    var fifo' := fifo[l := t];
    forall a, b, o | a in fifo' && b in fifo' && o in fifo'[a] && o in fifo'[b]
      ensures a == b
    {
      if a in fifo && a != l {
        assert o in Nodes(fifo);
      }
      if b in fifo && b != l {
        assert o in Nodes(fifo);
      }
    }
  }

  /** The values of live orders. */
  ghost function BookOf<K>(live: map<nat, BookOrder<K>>): Book<K>
    reads live.Values`qty
  {
    map id | id in live :: live[id].Value()
  }

  lemma BookWith<K>(live: map<nat, BookOrder<K>>, order: BookOrder<K>)
    ensures BookOf(live[order.id := order]) == BookOf(live)[order.id := order.Value()]
  {
  }

  lemma BookWithout<K>(live: map<nat, BookOrder<K>>, order: BookOrder<K>)
    requires order.id in live && live[order.id] == order
    ensures BookOf(live - {order.id}) == BookOf(live) - {order.id}
  {
  }

  ghost predicate AtOrBehind<K>(head: BookOrder<K>, o: BookOrder<K>) {
    o == head || Better(head.side, head.price, o.price) || (head.price == o.price && head.id < o.id)
  }

  /** Every order of a side is the head of its best queue or behind it. */
  lemma HeadLeads<K>(levels: seq<OrdersAtPrice<K>>, side: Side, fifo: Queues<K>, live: map<nat, BookOrder<K>>,
                     index: seq<OrdersAtPrice?<K>>, o: BookOrder<K>)
    requires Listed(levels, side, fifo) && Sorted(levels, side) && Shaped(fifo, live) && PriceIndexed(index, fifo, live)
    requires o.id in live && live[o.id] == o && o.side == side
    ensures levels != [] && levels[0] in fifo && fifo[levels[0]] != [] && AtOrBehind(fifo[levels[0]][0], o)
  {
    var l, k := Locate(fifo, live, index, o);
    hide PriceIndexed;
    var i :| 0 <= i < |levels| && levels[i] == l;
    assert levels[0] in levels && Queue(levels[0], fifo[levels[0]], live) && Queue(l, fifo[l], live);
  }

  lemma HeadIsLive<K>(levels: seq<OrdersAtPrice<K>>, side: Side, fifo: Queues<K>, live: map<nat, BookOrder<K>>)
    requires Listed(levels, side, fifo) && Sorted(levels, side) && Shaped(fifo, live) && levels != []
    ensures levels[0] in fifo && fifo[levels[0]] != []
    ensures var o := fifo[levels[0]][0]; o.side == side && o.id in live && live[o.id] == o
  {
    assert levels[0] in levels && Queue(levels[0], fifo[levels[0]], live);
  }

  lemma LeadsIsBest<K>(live: map<nat, BookOrder<K>>, book: Book<K>, side: Side, head: BookOrder<K>)
    requires book.Keys == live.Keys && (forall id :: id in live ==> book[id] == live[id].Value() && live[id].id == id)
    requires head.id in live && live[head.id] == head && head.side == side
    requires forall id :: id in live && live[id].side == side ==> AtOrBehind(head, live[id])
    ensures IsBest(book, side, head.id)
  {
  }

  lemma InNodes<K>(fifo: Queues<K>, l: OrdersAtPrice<K>)
    requires l in fifo
    ensures forall o :: o in fifo[l] ==> o in Nodes(fifo)
  {
  }

  lemma ShapedNodes<K>(fifo: Queues<K>, live: map<nat, BookOrder<K>>, index: seq<OrdersAtPrice?<K>>)
    requires Shaped(fifo, live) && PriceIndexed(index, fifo, live)
    ensures Nodes(fifo) == live.Values && Apart(fifo)
    ensures forall l, o :: l in fifo && o in fifo[l] ==> o in live.Values
  {
    forall l, m, o | l in fifo && m in fifo && o in fifo[l] && o in fifo[m]
      ensures l == m && o in live.Values
    {
      assert Queue(l, fifo[l], live) && Queue(m, fifo[m], live);
      assert o.price == l.price && o.price == m.price;
    }
    forall o | o in live.Values
      ensures o in Nodes(fifo)
    {
      var id :| id in live && live[id] == o;
      assert InQueue(live[id], index, fifo);
    }
  }

  lemma LastIsBeforeFirst<K>(q: seq<BookOrder<K>>)
    requires q != [] && FifoRing(q)
    ensures q[0].prevOrder == q[|q| - 1]
  {
  }

  lemma HeadOfQueue<K>(fifo: Queues<K>, l: OrdersAtPrice<K>)
    requires QueuesLinked(fifo) && l in fifo
    ensures fifo[l] != [] && l.firstOrder == fifo[l][0]
  {
  }

  /** Links `order` behind the last order of a level; the other queues are untouched. */
  method LinkIntoQueue<K>(order: BookOrder<K>, level: OrdersAtPrice<K>, ghost fifo: Queues<K>)
    requires QueuesLinked(fifo) && level in fifo && order !in Nodes(fifo)
    modifies fifo[level]`prevOrder, fifo[level]`nextOrder, order`prevOrder, order`nextOrder
    ensures QueuesLinked(fifo[level := With(fifo[level], |fifo[level]|, order)])
  {
    hide FifoRing;
    var first := level.firstOrder;
    ghost var q := fifo[level];
    assert order !in q;
    assert first.prevOrder == q[|q| - 1] by { LastIsBeforeFirst(q); }
    LinkFifo(order, first.prevOrder, first, q, |q|);
    ghost var t := With(q, |q|, order);
    ghost var fifo' := fifo[level := t];
    forall m | m in fifo && m != level
      ensures FifoRing(fifo[m])
    {
      var s := fifo[m];
      InNodes(fifo, m);
      assert forall i :: 0 <= i < |s| ==> s[i] in s && s[i] !in q && s[i] != order;
    }
    ApartStill(fifo, level, t);
  }

  /** Starts the queue of a new level with its only order. */
  method LinkAlone<K>(order: BookOrder<K>, level: OrdersAtPrice<K>, ghost fifo: Queues<K>)
    requires QueuesLinked(fifo) && level !in fifo && order !in Nodes(fifo) && level.firstOrder == order
    modifies order`prevOrder, order`nextOrder
    ensures QueuesLinked(fifo[level := [order]])
  {
    order.nextOrder, order.prevOrder := order, order;
    ghost var fifo' := fifo[level := [order]];
    forall m | m in fifo
      ensures FifoRing(fifo[m])
    {
      var s := fifo[m];
      InNodes(fifo, m);
      assert forall i :: 0 <= i < |s| ==> s[i] in s && s[i] != order;
    }
    ApartStill(fifo, level, [order]);
  }

  /** No level has the price of an empty slot. */
  lemma EmptySlot<K>(fifo: Queues<K>, live: map<nat, BookOrder<K>>, index: seq<OrdersAtPrice?<K>>, price: int)
    requires PriceIndexed(index, fifo, live) && index[PriceToIndex(price)] == null
    ensures forall l :: l in fifo ==> l.price != price
  {
  }

  lemma NewLevelShaped<K>(fifo: Queues<K>, live: map<nat, BookOrder<K>>, index: seq<OrdersAtPrice?<K>>,
                          l: OrdersAtPrice<K>, o: BookOrder<K>)
    requires Shaped(fifo, live) && PriceIndexed(index, fifo, live)
    requires index[PriceToIndex(o.price)] == null && o.id !in live
    requires l !in fifo && l.price == o.price && l.side == o.side && l.side != INVALID
    ensures var fifo' := fifo[l := [o]]; var live' := live[o.id := o];
            && Shaped(fifo', live')
            && PriceIndexed(index[PriceToIndex(o.price) := l], fifo', live')
  {
    var fifo', live', index' := fifo[l := [o]], live[o.id := o], index[PriceToIndex(o.price) := l];
    forall m | m in fifo'
      ensures Queue(m, fifo'[m], live')
    {
      if m != l {
        assert Queue(m, fifo[m], live);
      }
    }
    forall id | id in live'
      ensures InQueue(live'[id], index', fifo')
    {
      if id != o.id {
        assert InQueue(live[id], index, fifo);
      }
    }
  }

  lemma ListedWith<K>(levels: seq<OrdersAtPrice<K>>, side: Side, fifo: Queues<K>, l: OrdersAtPrice<K>,
                      q: seq<BookOrder<K>>, k: nat)
    requires Listed(levels, side, fifo) && l !in fifo && k <= |levels|
    ensures l.side == side ==> Listed(With(levels, k, l), side, fifo[l := q])
    ensures l.side != side ==> Listed(levels, side, fifo[l := q])
  {
    var t := With(levels, k, l);
    assert t[k] == l;
    forall m | m in levels
      ensures m in t
    {
      var i :| 0 <= i < |levels| && levels[i] == m;
      assert t[if i < k then i else i + 1] == m;
    }
  }

  lemma AppendQueue<K>(l: OrdersAtPrice<K>, q: seq<BookOrder<K>>, live: map<nat, BookOrder<K>>, o: BookOrder<K>)
    requires Queue(l, q, live) && GoesLast(o, live) && o.id !in live
    requires PriceToIndex(l.price) == PriceToIndex(o.price)
    ensures o !in q && Distinct(q)
    ensures l.price == o.price && l.side == o.side
    ensures Queue(l, With(q, |q|, o), live[o.id := o])
  {
    var t := With(q, |q|, o);
    assert q[0].id in live;
    forall i, j | 0 <= i < j < |t|
      ensures t[i].id < t[j].id && t[i].priority < t[j].priority
    {
      assert q[i].id in live;
    }
  }

  /** An order queued at another price or out of turn breaks the shape. */
  lemma ClashBreaks<K>(fifo: Queues<K>, live: map<nat, BookOrder<K>>, index: seq<OrdersAtPrice?<K>>, l: OrdersAtPrice<K>, o: BookOrder<K>)
    requires Shaped(fifo, live) && PriceIndexed(index, fifo, live) && index[PriceToIndex(o.price)] == l && o.id !in live
    requires !GoesLast(o, live)
    ensures l in fifo && !Shaped(fifo[l := With(fifo[l], |fifo[l]|, o)], live[o.id := o])
  {
    InIndex(fifo, live, index, o.price);
    var q := fifo[l];
    var t := With(q, |q|, o);
    var id :| id in live && PriceToIndex(live[id].price) == PriceToIndex(o.price)
              && (live[id].price != o.price || live[id].side != o.side || id >= o.id || live[id].priority >= o.priority);
    var p := live[id];
    assert InQueue(p, index, fifo) && Queue(l, q, live) && p.id == id;
    var k :| 0 <= k < |q| && q[k] == p;
    assert t[|q|] == o && t[k] == p;
    assert !Queue(l, t, live[o.id := o]);
    assert fifo[l := t][l] == t;
  }

  lemma AliveMore<K>(fifo: Queues<K>, live: map<nat, BookOrder<K>>, l: OrdersAtPrice<K>, o: BookOrder<K>)
    requires Alive(fifo, live) && l in fifo && o.id !in live
    ensures Alive(fifo[l := With(fifo[l], |fifo[l]|, o)], live[o.id := o])
  {
    var q := fifo[l];
    var t := With(q, |q|, o);
    forall p | p in t
      ensures p == o || p in q
    {
      var i :| 0 <= i < |t| && t[i] == p;
    }
  }

  lemma NodesMore<K>(fifo: Queues<K>, l: OrdersAtPrice<K>, o: BookOrder<K>)
    requires l in fifo
    ensures Nodes(fifo[l := With(fifo[l], |fifo[l]|, o)]) <= Nodes(fifo) + {o}
  {
    var q := fifo[l];
    var t := With(q, |q|, o);
    forall p | p in t
      ensures p == o || p in q
    {
      var i :| 0 <= i < |t| && t[i] == p;
    }
  }

  lemma NodesWith<K>(fifo: Queues<K>, l: OrdersAtPrice<K>, o: BookOrder<K>)
    requires l !in fifo
    ensures Nodes(fifo[l := [o]]) <= Nodes(fifo) + {o} && fifo[l := [o]].Keys == fifo.Keys + {l}
  {
  }

  lemma ShapedAlive<K>(fifo: Queues<K>, live: map<nat, BookOrder<K>>)
    requires Shaped(fifo, live)
    ensures Alive(fifo, live)
  {
    forall l, o | l in fifo && o in fifo[l]
      ensures o.id in live && live[o.id] == o
    {
      assert Queue(l, fifo[l], live);
    }
  }

  lemma AppendShaped<K>(fifo: Queues<K>, live: map<nat, BookOrder<K>>, index: seq<OrdersAtPrice?<K>>, l: OrdersAtPrice<K>, o: BookOrder<K>)
    requires Shaped(fifo, live) && PriceIndexed(index, fifo, live)
    requires index[PriceToIndex(o.price)] == l && GoesLast(o, live) && o.id !in live
    ensures l in fifo
    ensures var q := fifo[l]; var fifo' := fifo[l := With(q, |q|, o)]; var live' := live[o.id := o];
            && o !in q && Distinct(q)
            && Shaped(fifo', live')
            && PriceIndexed(index, fifo', live')
  {
    InIndex(fifo, live, index, o.price);
    var q := fifo[l];
    hide PriceIndexed, Queue, GoesLast, With, Distinct;
    assert Queue(l, q, live);
    AppendQueue(l, q, live, o);
    var t := With(q, |q|, o);
    var fifo', live' := fifo[l := t], live[o.id := o];
    forall m | m in fifo'
      ensures Queue(m, fifo'[m], live')
    {
      if m != l {
        assert Queue(m, fifo[m], live);
        QueueMore(m, fifo[m], live, o);
      }
    }
    JoinedBy(q, o);
    FoundByPrice(fifo, live, index, fifo', l, o);
  }

  /** An order went to the end of the queue of one level. */
  ghost predicate Joined<K>(fifo: Queues<K>, fifo': Queues<K>, l: OrdersAtPrice<K>, o: BookOrder<K>) {
    l in fifo && fifo' == fifo[l := With(fifo[l], |fifo[l]|, o)]
  }

  lemma JoinedBy<T>(q: seq<T>, o: T)
    ensures o in With(q, |q|, o) && forall p :: p in q ==> p in With(q, |q|, o)
  {
  }

  lemma QueueMore<K>(l: OrdersAtPrice<K>, q: seq<BookOrder<K>>, live: map<nat, BookOrder<K>>, o: BookOrder<K>)
    requires Queue(l, q, live) && o.id !in live
    ensures Queue(l, q, live[o.id := o])
  {
  }

  /** Lookups by price find an order that joined the queue of its slot, and all they found before. */
  lemma FoundByPrice<K>(fifo: Queues<K>, live: map<nat, BookOrder<K>>, index: seq<OrdersAtPrice?<K>>, fifo': Queues<K>,
                        l: OrdersAtPrice<K>, o: BookOrder<K>)
    requires PriceIndexed(index, fifo, live) && fifo'.Keys == fifo.Keys && o.id !in live
    requires index[PriceToIndex(o.price)] == l && l in fifo && o in fifo'[l]
    requires forall m, p :: m in fifo && p in fifo[m] ==> p in fifo'[m]
    ensures PriceIndexed(index, fifo', live[o.id := o])
  {
    var live' := live[o.id := o];
    forall id | id in live'
      ensures InQueue(live'[id], index, fifo')
    {
      if id != o.id {
        assert InQueue(live[id], index, fifo);
      }
    }
  }

  /** Where a live order stands. */
  lemma Locate<K>(fifo: Queues<K>, live: map<nat, BookOrder<K>>, index: seq<OrdersAtPrice?<K>>, o: BookOrder<K>)
    returns (l: OrdersAtPrice<K>, k: nat)
    requires Shaped(fifo, live) && PriceIndexed(index, fifo, live) && o.id in live && live[o.id] == o
    ensures l == index[PriceToIndex(o.price)] && l in fifo && l.side == o.side && l.price == o.price && l.side != INVALID
    ensures k < |fifo[l]| && fifo[l][k] == o && Distinct(fifo[l])
  {
    assert InQueue(live[o.id], index, fifo);
    l := index[PriceToIndex(o.price)];
    k :| 0 <= k < |fifo[l]| && fifo[l][k] == o;
    assert Queue(l, fifo[l], live);
  }

  lemma NextInRing<K>(q: seq<BookOrder<K>>, k: nat)
    requires FifoRing(q) && k < |q|
    ensures q[k].nextOrder == q[Succ(k, |q|)]
  {
  }

  /** Unlinks the k-th order of a queue; the head moves on when it was the head. */
  method UnlinkAt<K>(order: BookOrder<K>, level: OrdersAtPrice<K>, ghost q: seq<BookOrder<K>>, ghost k: nat)
    requires 1 < |q| && k < |q| && q[k] == order && Distinct(q) && FifoRing(q) && level.firstOrder == q[0]
    modifies level`firstOrder, q`prevOrder, q`nextOrder
    ensures FifoRing(Without(q, k)) && Distinct(Without(q, k)) && level.firstOrder == Without(q, k)[0]
    ensures forall o :: o in Without(q, k) ==> o in q
  {
    hide FifoRing;
    var after := order.nextOrder;
    NextInRing(q, k);
    UnlinkFifo(order, q, k);
    if level.firstOrder == order {
      assert k == 0;
      level.firstOrder := after;
    }
    ghost var t := Without(q, k);
    forall o | o in t
      ensures o in q
    {
      var i :| 0 <= i < |t| && t[i] == o;
    }
  }

  /** Unlinks an order of a level that holds more than one; the other queues are untouched. */
  method UnlinkFromQueue<K>(order: BookOrder<K>, level: OrdersAtPrice<K>, ghost fifo: Queues<K>, ghost k: nat)
    requires QueuesLinked(fifo) && level in fifo && k < |fifo[level]| && fifo[level][k] == order
    requires |fifo[level]| > 1
    modifies level`firstOrder, fifo[level]`prevOrder, fifo[level]`nextOrder
    ensures QueuesLinked(fifo[level := Without(fifo[level], k)])
  {
    hide FifoRing, Distinct;
    ghost var q := fifo[level];
    UnlinkAt(order, level, q, k);
    forall m | m in fifo && m != level
      ensures FifoRing(fifo[m])
    {
      var s := fifo[m];
      assert forall i :: 0 <= i < |s| ==> s[i] in s && s[i] !in q;
    }
    ApartStill(fifo, level, Without(q, k));
  }

  lemma KeepQueue<K>(l: OrdersAtPrice<K>, q: seq<BookOrder<K>>, live: map<nat, BookOrder<K>>, o: BookOrder<K>)
    requires Queue(l, q, live) && o.id in live && live[o.id] == o && o !in q
    ensures Queue(l, q, live - {o.id})
  {
    assert forall i :: 0 <= i < |q| ==> q[i] in q;
  }

  lemma ShrinkQueue<K>(l: OrdersAtPrice<K>, q: seq<BookOrder<K>>, live: map<nat, BookOrder<K>>, k: nat)
    requires Queue(l, q, live) && 1 < |q| && k < |q|
    ensures Queue(l, Without(q, k), live - {q[k].id})
    ensures forall p :: p in q && p != q[k] ==> p in Without(q, k)
  {
    var t := Without(q, k);
    forall p | p in q && p != q[k]
      ensures p in t
    {
      var i :| 0 <= i < |q| && q[i] == p;
      assert t[if i < k then i else i - 1] == p;
    }
  }

  lemma RemoveShaped<K>(fifo: Queues<K>, live: map<nat, BookOrder<K>>, index: seq<OrdersAtPrice?<K>>,
                        l: OrdersAtPrice<K>, k: nat)
    requires Shaped(fifo, live) && PriceIndexed(index, fifo, live)
    requires l in fifo && 1 < |fifo[l]| && k < |fifo[l]|
    ensures var fifo' := fifo[l := Without(fifo[l], k)]; var live' := live - {fifo[l][k].id};
            Shaped(fifo', live') && PriceIndexed(index, fifo', live')
  {
    hide Queue, PriceIndexed, Without;
    var q, o, t := fifo[l], fifo[l][k], Without(fifo[l], k);
    var fifo', live' := fifo[l := t], live - {o.id};
    ShapedNodes(fifo, live, index);
    assert o in q && Queue(l, q, live);
    QueueLive(l, q, live, k);
    ShrinkQueue(l, q, live, k);
    forall m | m in fifo'
      ensures Queue(m, fifo'[m], live')
    {
      if m != l {
        assert Queue(m, fifo[m], live);
        KeepQueue(m, fifo[m], live, o);
      }
    }
    StillInQueue(fifo, live, index, fifo', o);
  }

  lemma QueueLive<K>(l: OrdersAtPrice<K>, q: seq<BookOrder<K>>, live: map<nat, BookOrder<K>>, k: nat)
    requires Queue(l, q, live) && k < |q|
    ensures q[k].id in live && live[q[k].id] == q[k]
  {
  }

  /** Lookups by price survive the removal of one order from its queue. */
  lemma StillInQueue<K>(fifo: Queues<K>, live: map<nat, BookOrder<K>>, index: seq<OrdersAtPrice?<K>>,
                        fifo': Queues<K>, o: BookOrder<K>)
    requires PriceIndexed(index, fifo, live) && (forall id :: id in live ==> live[id].id == id)
    requires fifo'.Keys == fifo.Keys && o.id in live && live[o.id] == o
    requires forall l, p :: l in fifo && p in fifo[l] && p != o ==> p in fifo'[l]
    ensures PriceIndexed(index, fifo', live - {o.id})
  {
    forall id | id in live - {o.id}
      ensures InQueue(live[id], index, fifo')
    {
      assert InQueue(live[id], index, fifo);
    }
  }

  lemma DropShaped<K>(fifo: Queues<K>, live: map<nat, BookOrder<K>>, index: seq<OrdersAtPrice?<K>>, l: OrdersAtPrice<K>)
    requires Shaped(fifo, live) && PriceIndexed(index, fifo, live)
    requires l in fifo && |fifo[l]| == 1
    ensures var fifo' := fifo - {l}; var live' := live - {fifo[l][0].id};
            Shaped(fifo', live') && PriceIndexed(index[PriceToIndex(l.price) := null], fifo', live')
  {
    var q, o := fifo[l], fifo[l][0];
    var fifo', live' := fifo - {l}, live - {o.id};
    ShapedNodes(fifo, live, index);
    assert o in q;
    assert Shaped(fifo', live') by {
      hide Queue, PriceIndexed;
      forall m | m in fifo'
        ensures Queue(m, fifo'[m], live')
      {
        assert Queue(m, fifo[m], live) && Queue(l, q, live);
        QueueLive(l, q, live, 0);
        KeepQueue(m, fifo[m], live, o);
      }
    }
    DropSlot(fifo, live, index, l);
  }

  lemma DropSlot<K>(fifo: Queues<K>, live: map<nat, BookOrder<K>>, index: seq<OrdersAtPrice?<K>>, l: OrdersAtPrice<K>)
    requires Shaped(fifo, live) && PriceIndexed(index, fifo, live)
    requires l in fifo && |fifo[l]| == 1
    ensures PriceIndexed(index[PriceToIndex(l.price) := null], fifo - {l}, live - {fifo[l][0].id})
  {
    var fifo', live', index' := fifo - {l}, live - {fifo[l][0].id}, index[PriceToIndex(l.price) := null];
    forall id | id in live'
      ensures InQueue(live'[id], index', fifo')
    {
      assert InQueue(live[id], index, fifo);
    }
  }

  lemma DropLinked<K>(fifo: Queues<K>, l: OrdersAtPrice<K>)
    requires QueuesLinked(fifo)
    ensures QueuesLinked(fifo - {l})
  {
  }

  lemma ListedKeys<K>(levels: seq<OrdersAtPrice<K>>, side: Side, fifo: Queues<K>)
    requires Listed(levels, side, fifo)
    ensures forall l :: l in levels ==> l in fifo
  {
  }

  lemma ListedKept<K>(levels: seq<OrdersAtPrice<K>>, side: Side, fifo: Queues<K>, l: OrdersAtPrice<K>, q: seq<BookOrder<K>>)
    requires Listed(levels, side, fifo) && l in fifo
    ensures Listed(levels, side, fifo[l := q])
  {
  }

  lemma ListedWithout<K>(levels: seq<OrdersAtPrice<K>>, side: Side, fifo: Queues<K>, l: OrdersAtPrice<K>)
    returns (k: nat)
    requires Listed(levels, side, fifo) && l in fifo && Sorted(levels, side)
    ensures l.side == side ==> k < |levels| && levels[k] == l && Listed(Without(levels, k), side, fifo - {l})
    ensures l.side != side ==> Listed(levels, side, fifo - {l})
  {
    k := 0;
    if l.side == side {
      k :| 0 <= k < |levels| && levels[k] == l;
      var t := Without(levels, k);
      SortedWithout(levels, side, k);
      forall m | m in levels && m != l
        ensures m in t
      {
        var i :| 0 <= i < |levels| && levels[i] == m;
        assert t[if i < k then i else i - 1] == m;
      }
    }
  }

  lemma RemoveIndexed<K>(index: map<K, BookOrder<K>>, live: map<nat, BookOrder<K>>, o: BookOrder<K>)
    requires OrderIndexed(index, live) && o.id in live && live[o.id] == o
    requires forall id :: id in live ==> live[id].id == id
    ensures OrderIndexed(index - {o.key}, live - {o.id})
  {
  }

  lemma SlotHasAll<K>(fifo: Queues<K>, live: map<nat, BookOrder<K>>, index: seq<OrdersAtPrice?<K>>, price: int)
    requires PriceIndexed(index, fifo, live) && Shaped(fifo, live)
    ensures var l := index[PriceToIndex(price)];
            && (l != null ==> l in fifo && Queue(l, fifo[l], live) && PriceToIndex(l.price) == PriceToIndex(price))
            && (forall id :: id in live && PriceToIndex(live[id].price) == PriceToIndex(price) ==>
                  live[id].id == id && l != null && live[id] in fifo[l])
  {
    forall id | id in live && PriceToIndex(live[id].price) == PriceToIndex(price)
      ensures InQueue(live[id], index, fifo)
    {
    }
  }

  lemma LastOfQueue<K>(l: OrdersAtPrice<K>, q: seq<BookOrder<K>>, live: map<nat, BookOrder<K>>)
    requires Queue(l, q, live)
    ensures 0 < |q|
    ensures var o := q[|q| - 1];
            && o.id in live && live[o.id] == o && o.price == l.price
            && forall p :: p in q ==> p.id <= o.id
  {
  }

  lemma InIndex<K>(fifo: Queues<K>, live: map<nat, BookOrder<K>>, index: seq<OrdersAtPrice?<K>>, price: int)
    requires PriceIndexed(index, fifo, live)
    ensures index[PriceToIndex(price)] != null ==> index[PriceToIndex(price)] in fifo
  {
  }

  /** An index by key loses one order with one key. */
  lemma WithoutKey<K>(index: map<K, BookOrder<K>>, k: K)
    requires k in index && forall j :: j in index ==> index[j].key == j
    ensures (index - {k}).Values == index.Values - {index[k]}
  {
    forall o | o in index.Values && o != index[k]
      ensures o in (index - {k}).Values
    {
      var j :| j in index && index[j] == o;
      assert (index - {k})[j] == o;
    }
  }

  function LevelPrice<K>(l: OrdersAtPrice<K>): int {
    l.price
  }

  function OrderId<K>(o: BookOrder<K>): int {
    o.id
  }

  /** An injective image has as many elements. */
  lemma {:induction false} ImageSize<N>(s: set<N>, f: N -> int, t: set<int>)
    requires (forall x, y :: x in s && y in s && f(x) == f(y) ==> x == y)
    requires (forall x :: x in s ==> f(x) in t) && (forall z :: z in t ==> exists x :: x in s && f(x) == z)
    ensures |t| == |s|
    decreases s
  {
    if s == {} {
      assert forall z :: z !in t;
    } else {
      var x :| x in s;
      ImageSize(s - {x}, f, t - {f(x)});
    }
  }

  /** A book shows the live orders at their prices. */
  ghost predicate ShowsPrices<K>(book: Book<K>, live: map<nat, BookOrder<K>>) {
    book.Keys == live.Keys && forall id :: id in live ==> book[id].price == live[id].price
  }

  lemma CountLevels<K>(fifo: Queues<K>, live: map<nat, BookOrder<K>>, index: seq<OrdersAtPrice?<K>>, book: Book<K>)
    requires Shaped(fifo, live) && PriceIndexed(index, fifo, live) && ShowsPrices(book, live)
    ensures |fifo.Keys| == |Prices(book)| && OneSlotEach(book)
  {
    OneLevelEach(fifo, live, index);
    hide Shaped, PriceIndexed;
    forall z | z in Prices(book)
      ensures exists l :: l in fifo.Keys && LevelPrice(l) == z
    {
      var id :| id in book && book[id].price == z;
      var l :| l in fifo && l.price == live[id].price;
      assert LevelPrice(l) == z;
    }
    forall l | l in fifo.Keys
      ensures LevelPrice(l) in Prices(book)
    {
      var id :| id in live && live[id].price == l.price;
      assert book[id].price == l.price;
    }
    ImageSize(fifo.Keys, LevelPrice, Prices(book));
  }

  lemma CountOrders<K>(live: map<nat, BookOrder<K>>)
    requires forall id :: id in live ==> live[id].id == id
    ensures |live.Values| == |live|
  {
    var ids := set id | id in live :: id as int;
    forall z | z in ids
      ensures exists o :: o in live.Values && OrderId(o) == z
    {
      assert live[z] in live.Values && OrderId(live[z]) == z;
    }
    ImageSize(live.Values, OrderId, ids);
    SameSize(live.Keys, ids);
  }

  lemma {:induction false} SameSize(a: set<nat>, b: set<int>)
    requires (forall x :: x in a ==> x in b) && forall y :: y in b ==> 0 <= y && y in a
    ensures |a| == |b|
    decreases a
  {
    if a == {} {
      assert forall y :: y !in b;
    } else {
      var x :| x in a;
      SameSize(a - {x}, b - {x});
    }
  }

  /** With a fitting order the book keeps one price per slot, and one price more if its slot was free. */
  lemma PricesAfter<K>(fifo: Queues<K>, live: map<nat, BookOrder<K>>, index: seq<OrdersAtPrice?<K>>, book: Book<K>,
                       order: BookOrder<K>, o: Order<K>)
    requires Shaped(fifo, live) && PriceIndexed(index, fifo, live) && ShowsPrices(book, live)
    requires o.id == order.id && o.id !in live && o.price == order.price
    ensures SlotFits(order, live) <==> OneSlotEach(book[o.id := o])
    ensures SlotFits(order, live) ==>
              |Prices(book[o.id := o])| == if index[PriceToIndex(o.price)] != null then |fifo.Keys| else |fifo.Keys| + 1
  {
    hide Shaped, PriceIndexed, SlotFits, Prices, OneSlotEach;
    CountLevels(fifo, live, index, book);
    PricesWith(book, o);
    SlotsWith(live, book, order, o);
    if SlotFits(order, live) {
      PriceListed(fifo, live, index, order);
      InPrices(live, book, o.price);
      assert o.price in Prices(book) ==> Prices(book) + {o.price} == Prices(book);
    }
  }

  lemma InPrices<K>(live: map<nat, BookOrder<K>>, book: Book<K>, price: int)
    requires ShowsPrices(book, live)
    ensures price in Prices(book) <==> exists id :: id in live && live[id].price == price
  {
    if id :| id in live && live[id].price == price {
      assert book[id].price == price;
    }
  }

  lemma SlotsWith<K>(live: map<nat, BookOrder<K>>, book: Book<K>, order: BookOrder<K>, o: Order<K>)
    requires ShowsPrices(book, live) && OneSlotEach(book) && o.id !in live && o.price == order.price
    ensures SlotFits(order, live) <==> OneSlotEach(book[o.id := o])
  {
    var after := book[o.id := o];
    assert after[o.id].price == order.price;
    assert forall id :: id in live ==> id in after && after[id].price == live[id].price;
  }

  /** Every live price has one level, in a slot of its own. */
  lemma OneLevelEach<K>(fifo: Queues<K>, live: map<nat, BookOrder<K>>, index: seq<OrdersAtPrice?<K>>)
    requires Shaped(fifo, live) && PriceIndexed(index, fifo, live)
    ensures forall l, m :: l in fifo && m in fifo && l.price == m.price ==> l == m
    ensures forall l :: l in fifo ==> exists id :: id in live && live[id].price == l.price
    ensures forall id :: id in live ==> exists l :: l in fifo && l.price == live[id].price
    ensures forall i, j :: i in live && j in live && PriceToIndex(live[i].price) == PriceToIndex(live[j].price) ==>
              live[i].price == live[j].price
  {
    forall id | id in live
      ensures var l := index[PriceToIndex(live[id].price)]; l != null && l in fifo && l.price == live[id].price
    {
      assert InQueue(live[id], index, fifo);
      var l := index[PriceToIndex(live[id].price)];
      assert Queue(l, fifo[l], live);
    }
    forall l | l in fifo
      ensures exists id :: id in live && live[id].price == l.price
    {
      assert Queue(l, fifo[l], live);
      assert fifo[l][0].id in live;
    }
  }

  /** The slot of a fitting order is in use exactly when its price is. */
  lemma PriceListed<K>(fifo: Queues<K>, live: map<nat, BookOrder<K>>, index: seq<OrdersAtPrice?<K>>, o: BookOrder<K>)
    requires Shaped(fifo, live) && PriceIndexed(index, fifo, live) && SlotFits(o, live)
    ensures index[PriceToIndex(o.price)] != null <==> exists id :: id in live && live[id].price == o.price
  {
    var l := index[PriceToIndex(o.price)];
    if l != null {
      OneLevelEach(fifo, live, index);
      var id :| id in live && live[id].price == l.price;
    }
    SlotHasAll(fifo, live, index, o.price);
  }

  lemma PricesWith<K>(book: Book<K>, o: Order<K>)
    requires o.id !in book
    ensures Prices(book[o.id := o]) == Prices(book) + {o.price}
  {
    var after := book[o.id := o];
    assert after[o.id].price == o.price;
    assert forall id :: id in book ==> id in after && after[id] == book[id];
  }

  lemma ValuesWith<K>(live: map<nat, BookOrder<K>>, o: BookOrder<K>)
    requires o.id !in live
    ensures live[o.id := o].Values == live.Values + {o}
  {
    forall p | p in live.Values + {o}
      ensures p in live[o.id := o].Values
    {
      if p != o {
        var id :| id in live && live[id] == p;
        assert live[o.id := o][id] == p;
      } else {
        assert live[o.id := o][o.id] == o;
      }
    }
  }

  lemma ValuesWithout<K>(live: map<nat, BookOrder<K>>, o: BookOrder<K>)
    requires o.id in live && live[o.id] == o && forall id :: id in live ==> live[id].id == id
    ensures (live - {o.id}).Values + {o} == live.Values && o !in (live - {o.id}).Values
  {
    forall p | p in live.Values && p != o
      ensures p in (live - {o.id}).Values
    {
      var id :| id in live && live[id] == p;
      assert id != o.id && (live - {o.id})[id] == p;
    }
  }

  lemma HeadsAreLive<K>(fifo: Queues<K>, live: map<nat, BookOrder<K>>)
    requires Shaped(fifo, live)
    ensures forall l :: l in fifo ==> fifo[l] != [] && fifo[l][0].id in live
  {
  }

  /** Every node of the book is in its representation. */
  ghost predicate Covers<K>(repr: set<object>, fifo: Queues<K>, live: map<nat, BookOrder<K>>) {
    (forall l :: l in fifo ==> l in repr) && (forall id :: id in live ==> live[id] in repr)
  }

  lemma CoversAll<K>(repr: set<object>, fifo: Queues<K>, live: map<nat, BookOrder<K>>)
    requires Covers(repr, fifo, live)
    ensures forall l :: l in fifo ==> l in repr
  {
  }

  lemma CoversMore<K>(repr: set<object>, fifo: Queues<K>, live: map<nat, BookOrder<K>>,
                      l: OrdersAtPrice<K>, q: seq<BookOrder<K>>, o: BookOrder<K>)
    requires Covers(repr, fifo, live)
    ensures Covers(repr + {l, o}, fifo[l := q], live[o.id := o])
  {
  }

  lemma AppendIndexed<K>(index: map<K, BookOrder<K>>, live: map<nat, BookOrder<K>>, o: BookOrder<K>)
    requires OrderIndexed(index, live) && o.id !in live
    ensures OrderIndexed(index[o.key := o], live[o.id := o]) <==> o.key !in index
  {
    var live' := live[o.id := o];
    if o.key in index {
      var p := index[o.key];
      assert p.id in live' && live'[p.id] == p && p != o;
    }
  }

  class LinkedBook<K(==)> {
    const orderPool: MemPool<Option<BookOrder<K>>>
    const levelPool: MemPool<Option<OrdersAtPrice<K>>>
    const priceIndex: array<OrdersAtPrice?<K>>
    var bidsByPrice: OrdersAtPrice?<K>
    var asksByPrice: OrdersAtPrice?<K>
    var orderIndex: map<K, BookOrder<K>>

    ghost var bids: seq<OrdersAtPrice<K>>
    ghost var asks: seq<OrdersAtPrice<K>>
    ghost var fifo: map<OrdersAtPrice<K>, seq<BookOrder<K>>>
    ghost var live: map<nat, BookOrder<K>>
    ghost var Repr: set<object>

    ghost predicate PoolsApart()
      reads this`Repr
    {
      PoolsIn(Repr)
    }

    /** The pools are in `repr` and share nothing with each other and the rest of the book. */
    ghost predicate PoolsIn(repr: set<object>) {
      && {orderPool, orderPool.objects, orderPool.isFree, levelPool, levelPool.objects, levelPool.isFree} <= repr
      && (orderPool.isFree as object) != levelPool.isFree
      && (orderPool as object) != priceIndex && (levelPool as object) != priceIndex && (orderPool as object) != levelPool
      && (orderPool as object) != this && (levelPool as object) != this
      && (levelPool.objects as object) != priceIndex && (orderPool.objects as object) != priceIndex
      && (levelPool.isFree as object) != priceIndex && (orderPool.isFree as object) != priceIndex
      && (orderPool.objects as object) != levelPool.objects
      && (orderPool.objects as object) != levelPool.isFree && (levelPool.objects as object) != orderPool.isFree
      && orderPool.isFree.Length == ME_MAX_ORDER_IDS && levelPool.isFree.Length == ME_MAX_PRICE_LEVELS
    }

    lemma PoolsInMore(repr: set<object>, more: set<object>)
      requires PoolsIn(repr) && repr <= more
      ensures PoolsIn(more)
    {
    }

    /** The parts of the invariant. */
    lemma MakesValid()
      requires Sound() && PoolsApart() && OrdersPooled(live.Values) && LevelsPooled(fifo.Keys)
      ensures Valid() && Ringed()
    {
      hide Sound, PoolsIn, OrdersPooled, LevelsPooled, Contained, Ringed;
      SoundIsContained();
      SoundIsRinged();
    }

    /** The blocks in use are exactly those of the given nodes, and both cursors stand on free blocks. */
    ghost predicate OrdersPooled(nodes: set<BookOrder<K>>)
      reads orderPool`nextFreeIndex, orderPool.objects, orderPool.isFree
    {
      orderPool.Valid() && Pooled(orderPool.objects[..], orderPool.isFree[..], nodes, OrderBlock)
    }

    ghost predicate LevelsPooled(nodes: set<OrdersAtPrice<K>>)
      reads levelPool`nextFreeIndex, levelPool.objects, levelPool.isFree
    {
      levelPool.Valid() && Pooled(levelPool.objects[..], levelPool.isFree[..], nodes, LevelBlock)
    }

    /** The structural invariant: sound lists and indexes, and pools in use exactly by their nodes. */
    lemma ValidIsSound()
      ensures Valid() ==> Sound()
    {
    }

    ghost predicate Valid()
      reads this, Repr
    {
      Contained() && Sound() && PoolsApart() && OrdersPooled(live.Values) && LevelsPooled(fifo.Keys)
    }

    /** Everything the invariant looks at belongs to the book. */
    ghost predicate Contained()
      reads this
    {
      && {this, priceIndex} <= Repr && Nodes(fifo) <= Repr && fifo.Keys <= Repr
      && (forall l :: l in bids ==> l in Repr) && (forall l :: l in asks ==> l in Repr)
    }

    lemma SoundIsContained()
      requires Sound()
      ensures Contained()
    {
      hide Shaped, PriceIndexed, OrderIndexed, QueuesLinked, SidesLinked;
    }

    /** Rings, sortedness, queues and indexes. */
    ghost predicate Sound()
      reads this, priceIndex, fifo.Keys`firstOrder, Nodes(fifo)`prevOrder, Nodes(fifo)`nextOrder
      reads bids`prevEntry, bids`nextEntry, asks`prevEntry, asks`nextEntry
    {
      && {this, priceIndex} <= Repr && Covers(Repr, fifo, live)
      && priceIndex.Length == ME_MAX_PRICE_LEVELS
      && Listed(bids, BUY, fifo) && Listed(asks, SELL, fifo)
      && Shaped(fifo, live)
      && PriceIndexed(priceIndex[..], fifo, live)
      && OrderIndexed(orderIndex, live)
      && Nodes(fifo) <= live.Values
      && QueuesLinked(fifo)
      && SidesLinked()
    }

    /** The live orders by market id: the abstract value of the book. */
    ghost function Orders(): Book<K>
      reads this`live, live.Values`qty
    {
      BookOf(live)
    }

    ghost function Levels(side: Side): seq<OrdersAtPrice<K>>
      reads this`bids, this`asks
    {
      if side == BUY then bids else asks
    }

    function BestLevel(side: Side): OrdersAtPrice?<K>
      reads this`bidsByPrice, this`asksByPrice
    {
      if side == BUY then bidsByPrice else asksByPrice
    }

    /**
     * The search of AddOrdersAtPrice. The new level belongs in front of `target`, at position k,
     * or behind every level when `addAfter` is still set on return to the best level.
     */
    method SeekTarget(level: OrdersAtPrice<K>, best: OrdersAtPrice<K>)
      returns (target: OrdersAtPrice<K>, addAfter: bool, ghost k: nat)
      requires level.side != INVALID && SideLinked(Levels(level.side), BestLevel(level.side), level.side) && best == BestLevel(level.side)
      requires forall l :: l in Levels(level.side) ==> l.price != level.price
      ensures var s := Levels(level.side);
              && k <= |s|
              && (addAfter <==> k == |s|)
              && target == (if addAfter then best else s[k])
              && (k > 0 ==> Better(level.side, s[k - 1].price, level.price))
              && (k < |s| ==> Better(level.side, level.price, s[k].price))
    {
      var side := level.side;
      ghost var s := Levels(side);
      target := best;
      addAfter := Better(side, target.price, level.price);
      k := 0;
      if addAfter {
        target := target.nextEntry;
        k := Succ(k, |s|);
        addAfter := Better(side, target.price, level.price);
      }
      while addAfter && target != best
        invariant k < |s| && target == s[k]
        invariant addAfter ==> Better(side, s[if k == 0 then |s| - 1 else k - 1].price, level.price)
        invariant !addAfter ==> Better(side, level.price, s[k].price)
        invariant !addAfter && k > 0 ==> Better(side, s[k - 1].price, level.price)
        decreases if k == 0 then 0 else |s| - k, addAfter
      {
        addAfter := Better(side, target.price, level.price);
        if addAfter {
          target := target.nextEntry;
          k := Succ(k, |s|);
        }
      }
      if addAfter {
        k := |s|;
      }
    }

    method SetBestLevel(side: Side, level: OrdersAtPrice?<K>)
      modifies this`bidsByPrice, this`asksByPrice
      ensures BestLevel(side) == level
      ensures side != INVALID ==> BestLevel(Opposite(side)) == old(BestLevel(Opposite(side)))
    {
      if side == BUY { bidsByPrice := level; } else { asksByPrice := level; }
    }

    ghost method SetLevels(side: Side, levels: seq<OrdersAtPrice<K>>)
      modifies this`bids, this`asks
      ensures Levels(side) == levels
      ensures side != INVALID ==> Levels(Opposite(side)) == old(Levels(Opposite(side)))
    {
      if side == BUY { bids := levels; } else { asks := levels; }
    }

    /** Makes a linked level the best one; the patch-up of `target.nextEntry` changes nothing. */
    method PromoteBest(level: OrdersAtPrice<K>, best: OrdersAtPrice<K>, target: OrdersAtPrice<K>, ghost t: seq<OrdersAtPrice<K>>)
      requires level.side != INVALID && LevelRing(t) && Distinct(t)
      requires 1 < |t| && t[0] == level && t[1] == target == best
      modifies this`bidsByPrice, this`asksByPrice, target`nextEntry
      ensures LevelRing(t) && target.nextEntry == old(target.nextEntry)
      ensures BestLevel(level.side) == level
      ensures BestLevel(Opposite(level.side)) == old(BestLevel(Opposite(level.side)))
    {
      assert target.nextEntry == t[Succ(1, |t|)];
      assert target.nextEntry != best;
      target.nextEntry := if target.nextEntry == best then level else target.nextEntry;
      SetBestLevel(level.side, level);
    }

    /** Links `level` into a non-empty side, in front of `target` or behind the worst level. */
    method LinkNewLevel(level: OrdersAtPrice<K>, best: OrdersAtPrice<K>, found: OrdersAtPrice<K>,
                        addAfter: bool, ghost s: seq<OrdersAtPrice<K>>, ghost k: nat)
      requires level.side != INVALID && LevelRing(s) && Distinct(s) && level !in s
      requires 0 < |s| && s[0] == best && best == BestLevel(level.side) && k <= |s|
      requires (addAfter <==> k == |s|) && found == if addAfter then best else s[k]
      requires Better(level.side, level.price, best.price) <==> k == 0
      modifies this`bidsByPrice, this`asksByPrice
      modifies s`prevEntry, s`nextEntry, level`prevEntry, level`nextEntry
      ensures LevelRing(With(s, k, level)) && BestLevel(level.side) == With(s, k, level)[0]
      ensures BestLevel(Opposite(level.side)) == old(BestLevel(Opposite(level.side)))
    {
      var target := found;
      if addAfter {
        if target == best {
          target := best.prevEntry;
        }
        LinkLevel(level, target, target.nextEntry, s, k);
      } else {
        LinkLevel(level, target.prevEntry, target, s, k);
        if Better(level.side, level.price, best.price) {
          PromoteBest(level, best, target, With(s, k, level));
        }
      }
    }

    /** Closes the ring of a side that was empty. */
    method LinkOnlyLevel(level: OrdersAtPrice<K>, ghost s: seq<OrdersAtPrice<K>>)
      requires level.side != INVALID && s == []
      modifies this`bidsByPrice, this`asksByPrice, level`prevEntry, level`nextEntry
      ensures var t := With(s, 0, level);
              LevelRing(t) && Sorted(t, level.side) && t != [] && BestLevel(level.side) == t[0]
      ensures BestLevel(Opposite(level.side)) == old(BestLevel(Opposite(level.side)))
    {
      SetBestLevel(level.side, level);
      level.prevEntry, level.nextEntry := level, level;
    }

    /** Links a new level at its sorted position; only a new best level moves the best pointer. */
    method AddOrdersAtPrice(level: OrdersAtPrice<K>) returns (ghost k: nat)
      requires level.side != INVALID && SideLinked(Levels(level.side), BestLevel(level.side), level.side) && priceIndex.Length == ME_MAX_PRICE_LEVELS
      requires forall l :: l in Levels(level.side) ==> l.price != level.price
      modifies this`bidsByPrice, this`asksByPrice, this`bids, this`asks, priceIndex
      modifies Levels(level.side)`prevEntry, Levels(level.side)`nextEntry, level`prevEntry, level`nextEntry
      ensures k <= |old(Levels(level.side))| && Levels(level.side) == With(old(Levels(level.side)), k, level)
      ensures SideLinked(Levels(level.side), BestLevel(level.side), level.side)
      ensures Levels(Opposite(level.side)) == old(Levels(Opposite(level.side)))
      ensures BestLevel(Opposite(level.side)) == old(BestLevel(Opposite(level.side)))
      ensures priceIndex[..] == old(priceIndex[..])[PriceToIndex(level.price) := level]
    {
      hide LevelRing, With, Distinct, Sorted, Better;
      priceIndex[PriceToIndex(level.price)] := level;
      var side := level.side;
      var best := BestLevel(side);
      ghost var s := Levels(side);
      if best == null {
        k := 0;
        LinkOnlyLevel(level, s);
      } else {
        var target, addAfter;
        target, addAfter, k := SeekTarget(level, best);
        SortedWith(s, side, level, k);
        LinkNewLevel(level, best, target, addAfter, s, k);
      }
      SetLevels(side, With(s, k, level));
    }

    /** Takes `level` out of its side; the best pointer moves exactly when it pointed there. */
    method UnlinkOldLevel(side: Side, level: OrdersAtPrice<K>, ghost s: seq<OrdersAtPrice<K>>, ghost k: nat)
      requires side != INVALID && LevelRing(s) && Distinct(s)
      requires k < |s| && s[k] == level && BestLevel(side) == s[0]
      modifies this`bidsByPrice, this`asksByPrice, s`prevEntry, s`nextEntry
      ensures LevelRing(Without(s, k))
      ensures BestLevel(side) == if |s| == 1 then null else Without(s, k)[0]
      ensures BestLevel(Opposite(side)) == old(BestLevel(Opposite(side)))
    {
      var best := BestLevel(side);
      assert level.nextEntry == s[Succ(k, |s|)];
      if level.nextEntry == level {
        assert |s| == 1;
        SetBestLevel(side, null);
      } else {
        var after := level.nextEntry;
        UnlinkLevel(level, s, k);
        if level == best {
          assert k == 0;
          SetBestLevel(side, after);
        }
      }
    }

    method RemoveOrdersAtPrice(side: Side, price: int, ghost k: nat)
      requires side != INVALID && SideLinked(Levels(side), BestLevel(side), side) && priceIndex.Length == ME_MAX_PRICE_LEVELS
      requires k < |Levels(side)| && priceIndex[PriceToIndex(price)] == Levels(side)[k]
      modifies this`bidsByPrice, this`asksByPrice, this`bids, this`asks, priceIndex
      modifies Levels(side)`prevEntry, Levels(side)`nextEntry
      ensures Levels(side) == Without(old(Levels(side)), k) && SideLinked(Levels(side), BestLevel(side), side)
      ensures Levels(Opposite(side)) == old(Levels(Opposite(side)))
      ensures BestLevel(Opposite(side)) == old(BestLevel(Opposite(side)))
      ensures priceIndex[..] == old(priceIndex[..])[PriceToIndex(price) := null]
    {
      ghost var s := Levels(side);
      hide LevelRing, Without;
      SortedWithout(s, side, k);
      UnlinkOldLevel(side, priceIndex[PriceToIndex(price)], s, k);
      SetLevels(side, Without(s, k));
      priceIndex[PriceToIndex(price)] := null;
    }

    ghost predicate SidesLinked()
      reads this`bids, this`asks, this`bidsByPrice, this`asksByPrice
      reads bids`prevEntry, bids`nextEntry, asks`prevEntry, asks`nextEntry
    {
      SideLinked(bids, bidsByPrice, BUY) && SideLinked(asks, asksByPrice, SELL)
    }

    /** AddOrdersAtPrice leaves the list of the other side alone. */
    method InsertLevel(level: OrdersAtPrice<K>) returns (ghost k: nat)
      requires level.side != INVALID && SidesLinked() && priceIndex.Length == ME_MAX_PRICE_LEVELS
      requires forall l :: l in Levels(level.side) ==> l.price != level.price
      modifies this`bidsByPrice, this`asksByPrice, this`bids, this`asks, priceIndex
      modifies Levels(level.side)`prevEntry, Levels(level.side)`nextEntry, level`prevEntry, level`nextEntry
      ensures k <= |old(Levels(level.side))| && SidesLinked()
      ensures bids == if level.side == BUY then With(old(bids), k, level) else old(bids)
      ensures asks == if level.side == BUY then old(asks) else With(old(asks), k, level)
      ensures priceIndex[..] == old(priceIndex[..])[PriceToIndex(level.price) := level]
    {
      hide LevelRing, With;
      ghost var s, t := Levels(level.side), Levels(Opposite(level.side));
      assert forall i :: 0 <= i < |t| ==> t[i] !in s && t[i] != level by {
        assert forall i :: 0 <= i < |t| ==> t[i].side == Opposite(level.side);
        assert forall l :: l in s ==> l.side == level.side;
      }
      k := AddOrdersAtPrice(level);
      assert LevelRing(t);
    }

    /** RemoveOrdersAtPrice leaves the list of the other side alone. */
    method DeleteLevel(side: Side, price: int, ghost k: nat)
      requires side != INVALID && SidesLinked() && priceIndex.Length == ME_MAX_PRICE_LEVELS
      requires k < |Levels(side)| && priceIndex[PriceToIndex(price)] == Levels(side)[k]
      modifies this`bidsByPrice, this`asksByPrice, this`bids, this`asks, priceIndex
      modifies Levels(side)`prevEntry, Levels(side)`nextEntry
      ensures SidesLinked()
      ensures bids == if side == BUY then Without(old(bids), k) else old(bids)
      ensures asks == if side == BUY then old(asks) else Without(old(asks), k)
      ensures priceIndex[..] == old(priceIndex[..])[PriceToIndex(price) := null]
    {
      hide LevelRing, Without;
      ghost var s, t := Levels(side), Levels(Opposite(side));
      assert forall i :: 0 <= i < |t| ==> t[i] !in s by {
        assert forall i :: 0 <= i < |t| ==> t[i].side == Opposite(side);
        assert forall l :: l in s ==> l.side == side;
      }
      RemoveOrdersAtPrice(side, price, k);
      assert LevelRing(t);
    }

    /** The level found through the price index, whatever its own price is. */
    function GetOrdersAtPrice(price: int): OrdersAtPrice?<K>
      requires priceIndex.Length == ME_MAX_PRICE_LEVELS
      reads priceIndex
    {
      priceIndex[PriceToIndex(price)]
    }

    /** What a walk along the lists needs: closed rings of live orders, whatever their prices. */
    ghost predicate Ringed()
      reads this, Repr
    {
      && Contained() && SidesLinked() && QueuesLinked(fifo) && Listed(bids, BUY, fifo) && Listed(asks, SELL, fifo)
      && Alive(fifo, live)
    }

    lemma SoundIsRinged()
      requires Sound()
      ensures Ringed()
    {
      ShapedAlive(fifo, live);
      SoundIsContained();
      hide Contained;
    }

    constructor ()
      ensures Valid() && live == map[]
      ensures fresh(Repr)
    {
      orderPool := new MemPool(ME_MAX_ORDER_IDS, None);
      levelPool := new MemPool(ME_MAX_PRICE_LEVELS, None);
      priceIndex := new OrdersAtPrice?<K>[ME_MAX_PRICE_LEVELS](_ => null);
      new;
      hide Sound, Pooled;
      Repr := {this, priceIndex, orderPool, orderPool.objects, orderPool.isFree, levelPool, levelPool.objects, levelPool.isFree};
      ghost var repr := Repr;
      assert fresh(repr);
      NothingInUse(orderPool, OrderBlock);
      NothingInUse(levelPool, LevelBlock);
      assert PoolsApart() && IndexIsEmpty();
      hide PoolsApart, OrdersPooled, LevelsPooled, IndexIsEmpty, Valid;
      EmptyLists();
    }

    /** Records the new lists; everything the invariant needs has been established piece by piece. */
    ghost method Record(fifo': Queues<K>, live': map<nat, BookOrder<K>>)
      requires priceIndex.Length == ME_MAX_PRICE_LEVELS
      requires Listed(bids, BUY, fifo') && Listed(asks, SELL, fifo')
      requires Shaped(fifo', live') && PriceIndexed(priceIndex[..], fifo', live') && OrderIndexed(orderIndex, live')
      requires QueuesLinked(fifo') && SidesLinked() && {this, priceIndex} <= Repr && Covers(Repr, fifo', live')
      modifies this`fifo, this`live
      ensures Sound() && fifo == fifo' && live == live'
    {
      hide Shaped, Listed, Covers, PriceIndexed, OrderIndexed, QueuesLinked;
      ShapedNodes(fifo', live', priceIndex[..]);
      fifo := fifo';
      live := live';
    }

    /**
     * To the end of the level the index yields. The book stays sound exactly when the order goes last there, at its own
     * price, and no live order is looked up by its key.
     */
    method AddToLevel(order: BookOrder<K>, level: OrdersAtPrice<K>)
      requires Sound() && order.side != INVALID
      requires order !in live.Values && order.id !in live
      requires level == GetOrdersAtPrice(order.price)
      modifies this`fifo, this`live, this`orderIndex, this`Repr, live.Values`prevOrder, live.Values`nextOrder
      modifies order`prevOrder, order`nextOrder
      ensures Sound() <==> GoesLast(order, old(live)) && order.key !in old(orderIndex)
      ensures Ringed() && level in old(fifo)
      ensures fifo == old(fifo)[level := With(old(fifo)[level], |old(fifo)[level]|, order)]
      ensures live == old(live)[order.id := order]
      ensures Repr == old(Repr) + {level, order}
    {
      hide Shaped, Listed, Covers, PriceIndexed, OrderIndexed, QueuesLinked, GoesLast, SideLinked, With, Nodes, Apart, Distinct, Alive;
      ShapedNodes(fifo, live, priceIndex[..]);
      ShapedAlive(fifo, live);
      SoundIsContained();
      ghost var fits, keyed := GoesLast(order, live), order.key !in orderIndex;
      InIndex(fifo, live, priceIndex[..], order.price);
      if fits {
        AppendShaped(fifo, live, priceIndex[..], level, order);
      } else {
        ClashBreaks(fifo, live, priceIndex[..], level, order);
      }
      AppendIndexed(orderIndex, live, order);
      CoversAll(Repr, fifo, live);
      ghost var q := fifo[level];
      ListedKept(bids, BUY, fifo, level, With(q, |q|, order));
      ListedKept(asks, SELL, fifo, level, With(q, |q|, order));
      AliveMore(fifo, live, level, order);
      NodesMore(fifo, level, order);
      ghost var fifo', live' := fifo[level := With(q, |q|, order)], live[order.id := order];
      LinkIntoQueue(order, level, fifo);
      orderIndex := orderIndex[order.key := order];
      CoversMore(Repr, fifo, live, level, With(q, |q|, order), order);
      Repr := Repr + {level, order};
      RecordAppended(fifo', live', fits, keyed);
    }

    /** Records an order appended to a queue, its own or not, under a key of its own or not. */
    ghost method RecordAppended(fifo': Queues<K>, live': map<nat, BookOrder<K>>, fits: bool, keyed: bool)
      requires priceIndex.Length == ME_MAX_PRICE_LEVELS
      requires Listed(bids, BUY, fifo') && Listed(asks, SELL, fifo') && Alive(fifo', live')
      requires OrderIndexed(orderIndex, live') <==> keyed
      requires if fits then Shaped(fifo', live') && PriceIndexed(priceIndex[..], fifo', live') else !Shaped(fifo', live')
      requires QueuesLinked(fifo') && SidesLinked() && {this, priceIndex} <= Repr && Covers(Repr, fifo', live')
      requires Nodes(fifo') <= Repr && (forall l :: l in bids || l in asks ==> l in Repr)
      modifies this`fifo, this`live
      ensures (Sound() <==> fits && keyed) && Ringed() && fifo == fifo' && live == live'
    {
      hide Shaped, Listed, PriceIndexed, OrderIndexed, QueuesLinked, SidesLinked, Alive, Nodes;
      if fits {
        ShapedNodes(fifo', live', priceIndex[..]);
      }
      fifo := fifo';
      live := live';
    }

    /** Links the level of an order whose slot of the price index is empty. */
    method CreateLevel(order: BookOrder<K>, level: OrdersAtPrice<K>)
      requires Sound() && order.side != INVALID && order.id !in live && GetOrdersAtPrice(order.price) == null
      requires level !in fifo && level.side == order.side && level.price == order.price
      modifies this`bidsByPrice, this`asksByPrice, this`bids, this`asks, priceIndex
      modifies bids`prevEntry, bids`nextEntry, asks`prevEntry, asks`nextEntry, level`prevEntry, level`nextEntry
      ensures SidesLinked() && QueuesLinked(fifo)
      ensures var fifo', live' := fifo[level := [order]], live[order.id := order];
              && Listed(bids, BUY, fifo') && Listed(asks, SELL, fifo')
              && Shaped(fifo', live') && PriceIndexed(priceIndex[..], fifo', live')
    {
      hide Shaped, Listed, Covers, PriceIndexed, OrderIndexed, QueuesLinked, SideLinked, With, Nodes, Apart, Distinct;
      EmptySlot(fifo, live, priceIndex[..], order.price);
      ListedKeys(bids, BUY, fifo);
      ListedKeys(asks, SELL, fifo);
      ShapedNodes(fifo, live, priceIndex[..]);
      NewLevelShaped(fifo, live, priceIndex[..], level, order);
      ghost var k := InsertLevel(level);
      ListedWith(old(bids), BUY, fifo, level, [order], if order.side == BUY then k else 0);
      ListedWith(old(asks), SELL, fifo, level, [order], if order.side == SELL then k else 0);
    }

    method AddToNewLevel(order: BookOrder<K>, level: OrdersAtPrice<K>)
      requires Sound() && order.side != INVALID
      requires order !in live.Values && order.id !in live
      requires GetOrdersAtPrice(order.price) == null
      requires level !in fifo && level.side == order.side && level.price == order.price && level.firstOrder == order
      modifies this`bidsByPrice, this`asksByPrice, this`bids, this`asks, this`fifo, this`live, this`orderIndex, this`Repr
      modifies priceIndex, bids`prevEntry, bids`nextEntry, asks`prevEntry, asks`nextEntry, order`prevOrder, order`nextOrder
      modifies level`prevEntry, level`nextEntry
      ensures (Sound() <==> order.key !in old(orderIndex)) && Ringed()
      ensures live == old(live)[order.id := order] && fifo.Keys == old(fifo.Keys) + {level}
      ensures Repr == old(Repr) + {level, order}
    {
      hide Shaped, Listed, Covers, PriceIndexed, OrderIndexed, QueuesLinked, SidesLinked, Nodes;
      ghost var keyed := order.key !in orderIndex;
      ShapedNodes(fifo, live, priceIndex[..]);
      SoundIsContained();
      AppendIndexed(orderIndex, live, order);
      CreateLevel(order, level);
      orderIndex := orderIndex[order.key := order];
      LinkAlone(order, level, fifo);
      CoversMore(Repr, fifo, live, level, [order], order);
      Repr := Repr + {level, order};
      ghost var fifo', live' := fifo[level := [order]], live[order.id := order];
      ShapedAlive(fifo', live');
      NodesWith(fifo, level, order);
      ListedKeys(bids, BUY, fifo');
      ListedKeys(asks, SELL, fifo');
      RecordAppended(fifo', live', true, keyed);
    }

    /** A block of the level pool and the level in it; `ok` says that the pool's assertion holds. */
    method AllocateLevel(order: BookOrder<K>, ghost orders: set<BookOrder<K>>) returns (level: OrdersAtPrice<K>, ok: bool)
      requires Sound() && PoolsApart() && LevelsPooled(fifo.Keys) && OrdersPooled(orders)
      modifies levelPool`nextFreeIndex, levelPool`handedOut, levelPool.objects, levelPool.isFree
      ensures fresh(level) && level !in fifo
      ensures level.side == order.side && level.price == order.price && level.firstOrder == order
      ensures ok <==> |fifo| + 1 < ME_MAX_PRICE_LEVELS
      ensures Sound() && OrdersPooled(orders) && (ok ==> LevelsPooled(fifo.Keys + {level})) && Orders() == old(Orders())
    {
      hide Sound, BookOf, Covers, Nodes, Pooled;
      NodesInRepr();
      SoundIsContained();
      level := new OrdersAtPrice(order.side, order.price, order, levelPool.nextFreeIndex);
      var block;
      PoolMore(levelPool.objects[..], levelPool.isFree[..], fifo.Keys, LevelBlock, level);
      block, ok := levelPool.AllocateWrapping(Some(level));
      PoolCount(levelPool.objects[..], levelPool.isFree[..], fifo.Keys + {level}, LevelBlock);
    }

    /** A block of the order pool and the order in it; `ok` says that the pool's assertion holds. */
    method AllocateOrder(id: nat, key: K, side: Side, price: int, qty: nat, priority: nat)
      returns (order: BookOrder<K>, ok: bool)
      requires Valid()
      modifies orderPool`nextFreeIndex, orderPool`handedOut, orderPool.objects, orderPool.isFree
      ensures fresh(order) && order !in live.Values && order.Value() == Order(id, key, side, price, qty, priority)
      ensures ok <==> |live.Values| + 1 < ME_MAX_ORDER_IDS
      ensures Sound() && PoolsApart() && LevelsPooled(fifo.Keys) && (ok ==> OrdersPooled(live.Values + {order}))
      ensures Orders() == old(Orders())
    {
      hide Sound, BookOf, Covers, Nodes, Pooled;
      NodesInRepr();
      order := new BookOrder(id, key, side, price, qty, priority, orderPool.nextFreeIndex);
      var block;
      PoolMore(orderPool.objects[..], orderPool.isFree[..], live.Values, OrderBlock, order);
      block, ok := orderPool.AllocateWrapping(Some(order));
      PoolCount(orderPool.objects[..], orderPool.isFree[..], live.Values + {order}, OrderBlock);
    }

    /** Links an order and its level, both in their blocks. */
    method LinkAllocated(order: BookOrder<K>, level: OrdersAtPrice<K>)
      requires Sound() && PoolsApart() && OrdersPooled(live.Values + {order}) && LevelsPooled(fifo.Keys + {level})
      requires order.side != INVALID && GetOrdersAtPrice(order.price) == null
      requires order !in live.Values && order.id !in live
      requires level !in fifo && level.side == order.side && level.price == order.price && level.firstOrder == order
      modifies this`bidsByPrice, this`asksByPrice, this`bids, this`asks, this`fifo, this`live, this`orderIndex, this`Repr
      modifies priceIndex, bids`prevEntry, bids`nextEntry, asks`prevEntry, asks`nextEntry, order`prevOrder, order`nextOrder
      modifies level`prevEntry, level`nextEntry
      ensures live == old(live)[order.id := order] && Ringed()
      ensures Valid() <==> order.key !in old(orderIndex)
      ensures Orders() == old(Orders())[order.id := order.Value()]
      ensures Repr == old(Repr) + {level, order}
    {
      hide BookOf, Covers, Sound, OrdersPooled, LevelsPooled, Nodes, Pooled, Valid, Ringed;
      ghost var before := live;
      ValuesWith(live, order);
      AddToNewLevel(order, level);
      assert BookOf(before) == old(BookOf(live));
      BookWith(before, order);
      assert OrdersPooled(old(live.Values) + {order});
      assert LevelsPooled(old(fifo.Keys) + {level});
      hide PoolsIn, Contained;
      PoolsInMore(old(Repr), Repr);
      ValidIsSound();
      if Sound() {
        MakesValid();
      }
    }

    /** The branch of AddOrder for a free slot. */
    method OpenLevel(order: BookOrder<K>) returns (level: OrdersAtPrice<K>, ok: bool)
      requires Sound() && PoolsApart() && OrdersPooled(live.Values + {order}) && LevelsPooled(fifo.Keys)
      requires order.side != INVALID && GetOrdersAtPrice(order.price) == null
      requires order !in live.Values && order.id !in live
      modifies this`bidsByPrice, this`asksByPrice, this`bids, this`asks, this`fifo, this`live, this`orderIndex, this`Repr
      modifies priceIndex, bids`prevEntry, bids`nextEntry, asks`prevEntry, asks`nextEntry, order`prevOrder, order`nextOrder
      modifies levelPool`nextFreeIndex, levelPool`handedOut, levelPool.objects, levelPool.isFree
      ensures ok <==> |old(fifo)| + 1 < ME_MAX_PRICE_LEVELS
      ensures ok ==> live == old(live)[order.id := order] && Ringed()
      ensures ok ==> (Valid() <==> order.key !in old(orderIndex))
      ensures ok ==> Orders() == old(Orders())[order.id := order.Value()]
      ensures fresh(level) && Repr == if ok then old(Repr) + {level, order} else old(Repr)
    {
      hide Sound, OrdersPooled, LevelsPooled, Pooled, Valid, Ringed, Orders, Covers, Nodes;
      SoundIsContained();
      level, ok := AllocateLevel(order, live.Values + {order});
      if ok {
        LinkAllocated(order, level);
      }
    }

    /** The branch of AddOrder for a slot in use. */
    method JoinLevel(order: BookOrder<K>, level: OrdersAtPrice<K>)
      requires Sound() && PoolsApart() && OrdersPooled(live.Values + {order}) && LevelsPooled(fifo.Keys)
      requires order.side != INVALID && level == GetOrdersAtPrice(order.price)
      requires order !in live.Values && order.id !in live
      modifies this`fifo, this`live, this`orderIndex, this`Repr, live.Values`prevOrder, live.Values`nextOrder
      modifies order`prevOrder, order`nextOrder
      ensures live == old(live)[order.id := order] && Ringed() && Joined(old(fifo), fifo, level, order)
      ensures Orders() == old(Orders())[order.id := order.Value()]
      ensures Valid() <==> GoesLast(order, old(live)) && order.key !in old(orderIndex)
      ensures Repr == old(Repr) + {level, order} && level in old(Repr)
    {
      hide BookOf, GoesLast, Covers, Sound, Ringed, OrdersPooled, LevelsPooled, Nodes, Pooled;
      NodesInRepr();
      ghost var before := live;
      ValuesWith(live, order);
      AddToLevel(order, level);
      assert BookOf(before) == old(BookOf(live));
      BookWith(before, order);
      assert fifo.Keys == old(fifo.Keys);
      hide PoolsIn, Contained;
      PoolsInMore(old(Repr), Repr);
      if Sound() {
        MakesValid();
      }
    }

    /**
     * `addOrder` as written: to the end of whatever level the index yields for the price, or to a new level. `ok` says
     * that the level pool's assertion holds; then the invariant holds exactly when the order goes last at its own price, no
     * other price uses the slot, and no live order has its key.
     */
    method AddOrder(order: BookOrder<K>) returns (ok: bool)
      requires Sound() && PoolsApart() && OrdersPooled(live.Values + {order}) && LevelsPooled(fifo.Keys)
      requires order.side != INVALID
      requires order !in live.Values && order.id !in live
      modifies Repr, order`prevOrder, order`nextOrder
      ensures ok <==> old(GetOrdersAtPrice(order.price)) != null || |old(fifo)| + 1 < ME_MAX_PRICE_LEVELS
      ensures ok ==> live == old(live)[order.id := order] && Ringed() && order in Repr
      ensures ok ==> Orders() == old(Orders())[order.id := order.Value()] && order.qty == old(order.qty)
      ensures ok ==> (Valid() <==> GoesLast(order, old(live)) && order.key !in old(orderIndex))
      ensures var level := old(GetOrdersAtPrice(order.price));
              level != null ==> bids == old(bids) && asks == old(asks) && Joined(old(fifo), fifo, level, order)
      ensures old(Repr) <= Repr && fresh(Repr - old(Repr) - {order})
    {
      hide Joined, BookOf, GoesLast, Sound, Ringed, OrdersPooled, LevelsPooled, Valid, Orders, Covers, Nodes, With;
      NodesInRepr();
      SoundIsContained();
      var ordersAtPrice := GetOrdersAtPrice(order.price);
      ok := true;
      if ordersAtPrice == null {
        FreeSlotFits(order);
        var level;
        level, ok := OpenLevel(order);
      } else {
        JoinLevel(order, ordersAtPrice);
      }
    }

    lemma ValidIsRinged()
      requires Valid()
      ensures Ringed()
    {
      hide Sound, Ringed;
      SoundIsRinged();
    }

    /** The order goes to a slot of its own price: then the book after it keeps one price per slot. */
    lemma BookAfter(order: BookOrder<K>)
      requires Sound() && order.id !in live
      ensures var book := Orders()[order.id := order.Value()];
              && (SlotFits(order, live) <==> OneSlotEach(book))
              && |book| == |live.Values| + 1
              && (SlotFits(order, live) ==>
                    |Prices(book)| == if GetOrdersAtPrice(order.price) != null then |fifo.Keys| else |fifo.Keys| + 1)
    {
      hide Listed, OrderIndexed, QueuesLinked, SidesLinked, Queue, Covers, OneSlotEach, Prices, SlotFits, PriceIndexed;
      CountOrders(live);
      assert Orders().Keys == live.Keys && ShowsPrices(Orders(), live);
      PricesAfter(fifo, live, priceIndex[..], Orders(), order, order.Value());
      assert Orders()[order.id := order.Value()].Keys == live.Keys + {order.id};
    }

    /**
     * An order is allocated and added. The pools' assertions hold and the invariant survives exactly when the book
     * with the order is tidy (one price per slot, and a block left in both pools) and the order comes in turn: behind
     * every order at its price, all on its side, and under a key that no live order has.
     */
    method NewOrder(id: nat, key: K, side: Side, price: int, qty: nat, priority: nat) returns (ok: bool)
      requires Valid() && side != INVALID && id !in live
      modifies Repr
      ensures fresh(Repr - old(Repr))
      ensures var o := Order(id, key, side, price, qty, priority);
              && (ok ==> Orders() == old(Orders())[id := o] && Ringed())
              && (ok && Valid() <==> Tidy(old(Orders())[id := o]) && InTurn(old(Orders()), o))
      ensures ok <==> |old(Orders())| + 1 < ME_MAX_ORDER_IDS
                      && (SlotUsed(old(Orders()), price) || |Prices(old(Orders()))| + 1 < ME_MAX_PRICE_LEVELS)
    {
      hide Sound, OrdersPooled, LevelsPooled, Ringed, Orders, Prices, OneSlotEach, SlotFits, SlotUsed, Youngest, InTurn;
      NodesInRepr();
      PoolsNotFull();
      SoundCounts();
      UsedSlot(price);
      var order;
      order, ok := AllocateOrder(id, key, side, price, qty, priority);
      BookAfter(order);
      TurnIs(order);
      if ok {
        ok := AddOrder(order);
      }
    }

    /** Turn and key, told by the set of orders. */
    lemma TurnIs(order: BookOrder<K>)
      requires Sound()
      ensures InTurn(Orders(), order.Value()) <==> Youngest(order, live) && order.key !in orderIndex
    {
      hide Sound, Orders;
      OrdersAreLive();
      KeyOf(order.key);
      NodesInRepr();
    }

    lemma UsedSlot(price: int)
      requires Sound()
      ensures priceIndex.Length == ME_MAX_PRICE_LEVELS && (GetOrdersAtPrice(price) != null <==> SlotUsed(Orders(), price))
    {
      hide Listed, OrderIndexed, QueuesLinked, SidesLinked, Covers, PriceIndexed;
      SlotHasAll(fifo, live, priceIndex[..], price);
      var l := GetOrdersAtPrice(price);
      if l != null {
        assert fifo[l][0].id in Orders() && Orders()[fifo[l][0].id].price == l.price;
      }
    }

    /** A sound pool has a free block. */
    lemma PoolsNotFull()
      requires Valid()
      ensures |live.Values| < ME_MAX_ORDER_IDS && |fifo.Keys| < ME_MAX_PRICE_LEVELS
    {
      hide Sound, Pooled;
      PoolCount(orderPool.objects[..], orderPool.isFree[..], live.Values, OrderBlock);
      PoolCount(levelPool.objects[..], levelPool.isFree[..], fifo.Keys, LevelBlock);
      assert orderPool.isFree[..][orderPool.nextFreeIndex] && levelPool.isFree[..][levelPool.nextFreeIndex];
    }

    lemma OrdersAreLive()
      ensures Orders().Keys == live.Keys && forall id :: id in live ==> Orders()[id] == live[id].Value()
    {
    }

    /** An empty slot is used by no live order. */
    lemma FreeSlotFits(order: BookOrder<K>)
      requires Sound() && GetOrdersAtPrice(order.price) == null
      ensures GoesLast(order, live)
    {
      SlotHasAll(fifo, live, priceIndex[..], order.price);
    }

    method RemoveLastOrder(order: BookOrder<K>, ghost level: OrdersAtPrice<K>)
      requires Sound() && level in fifo && fifo[level] == [order]
      requires order.id in live && live[order.id] == order
      requires level == GetOrdersAtPrice(order.price) && level.side == order.side && level.price == order.price
      requires order.side != INVALID
      modifies this`bidsByPrice, this`asksByPrice, this`bids, this`asks, this`fifo, this`live, this`orderIndex
      modifies priceIndex, fifo.Keys`prevEntry, fifo.Keys`nextEntry
      ensures Sound()
      ensures live == old(live) - {order.id} && fifo.Keys == old(fifo.Keys) - {level}
      ensures Repr == old(Repr)
    {
      hide Listed, PriceIndexed, OrderIndexed, QueuesLinked, SideLinked, Without, Nodes, Apart, Distinct, Queue;
      ShapedNodes(fifo, live, priceIndex[..]);
      RemoveIndexed(orderIndex, live, order);
      DropShaped(fifo, live, priceIndex[..], level);
      ghost var k, k' := Listings(level);
      assert forall l :: l in Levels(order.side) ==> l in fifo by { ListedKeys(Levels(order.side), order.side, fifo); }
      DeleteLevel(order.side, order.price, if order.side == BUY then k else k');
      orderIndex := orderIndex - {order.key};
      assert QueuesLinked(fifo);
      DropLinked(fifo, level);
      Record(fifo - {level}, live - {order.id});
    }

    lemma Listings(level: OrdersAtPrice<K>) returns (k: nat, k': nat)
      requires Listed(bids, BUY, fifo) && Listed(asks, SELL, fifo) && level in fifo && SidesLinked()
      ensures if level.side == BUY
              then k < |bids| && bids[k] == level && Listed(Without(bids, k), BUY, fifo - {level})
              else Listed(bids, BUY, fifo - {level})
      ensures if level.side == SELL
              then k' < |asks| && asks[k'] == level && Listed(Without(asks, k'), SELL, fifo - {level})
              else Listed(asks, SELL, fifo - {level})
    {
      k := ListedWithout(bids, BUY, fifo, level);
      k' := ListedWithout(asks, SELL, fifo, level);
    }

    method RemoveOneOfMany(order: BookOrder<K>, level: OrdersAtPrice<K>, ghost k: nat)
      requires Sound() && level in fifo && k < |fifo[level]| && fifo[level][k] == order && 1 < |fifo[level]|
      requires order.id in live && live[order.id] == order
      modifies this`fifo, this`live, this`orderIndex, fifo.Keys`firstOrder
      modifies live.Values`prevOrder, live.Values`nextOrder
      ensures Sound()
      ensures live == old(live) - {order.id} && fifo.Keys == old(fifo.Keys)
      ensures Repr == old(Repr)
    {
      hide Listed, PriceIndexed, OrderIndexed, QueuesLinked, SideLinked, Without, Nodes, Apart, Distinct, Queue;
      ShapedNodes(fifo, live, priceIndex[..]);
      RemoveIndexed(orderIndex, live, order);
      RemoveShaped(fifo, live, priceIndex[..], level, k);
      ghost var fifo' := fifo[level := Without(fifo[level], k)];
      ListedKept(bids, BUY, fifo, level, Without(fifo[level], k));
      ListedKept(asks, SELL, fifo, level, Without(fifo[level], k));
      orderIndex := orderIndex - {order.key};
      assert QueuesLinked(fifo);
      UnlinkFromQueue(order, level, fifo, k);
      Record(fifo', live - {order.id});
    }

    /** Unlinks an order, and its level with it when it was the last there. */
    method Unlink(order: BookOrder<K>, ghost orders: set<BookOrder<K>>, ghost levels: set<OrdersAtPrice<K>>) returns (last: bool)
      requires Sound() && order.id in live && live[order.id] == order
      requires PoolsApart() && OrdersPooled(orders) && LevelsPooled(levels)
      modifies this`bidsByPrice, this`asksByPrice, this`bids, this`asks, this`fifo, this`live, this`orderIndex
      modifies priceIndex, fifo.Keys`prevEntry, fifo.Keys`nextEntry, fifo.Keys`firstOrder
      modifies live.Values`prevOrder, live.Values`nextOrder
      ensures Sound() && PoolsApart() && OrdersPooled(orders) && LevelsPooled(levels)
      ensures live == old(live) - {order.id} && Orders() == old(Orders()) - {order.id}
      ensures var level := old(GetOrdersAtPrice(order.price));
              level in old(fifo) && fifo.Keys == if last then old(fifo.Keys) - {level} else old(fifo.Keys)
      ensures Repr == old(Repr)
    {
      hide Sound, OrdersPooled, LevelsPooled, BookOf;
      NodesInRepr();
      ghost var before := live;
      var ordersAtPrice := GetOrdersAtPrice(order.price);
      ghost var k := Position(order);
      last := order.prevOrder == order;
      if last {
        RemoveLastOrder(order, ordersAtPrice);
      } else {
        RemoveOneOfMany(order, ordersAtPrice, k);
      }
      assert BookOf(before) == old(BookOf(live));
      BookWithout(before, order);
    }

    /** Gives the blocks of an unlinked order, and of its level if that went with it, back to the pools. */
    method GiveBack(order: BookOrder<K>, level: OrdersAtPrice<K>, last: bool)
      requires Sound() && PoolsApart() && order !in live.Values && (last ==> level !in fifo)
      requires OrdersPooled(live.Values + {order}) && LevelsPooled(if last then fifo.Keys + {level} else fifo.Keys)
      modifies orderPool.isFree, levelPool.isFree
      ensures Valid() && Orders() == old(Orders())
    {
      hide Sound, Covers, Nodes, Pooled;
      SoundIsContained();
      if last {
        BlockInUse(levelPool.objects[..], levelPool.isFree[..], fifo.Keys + {level}, LevelBlock, level);
        PoolLess(levelPool.objects[..], levelPool.isFree[..], fifo.Keys + {level}, LevelBlock, level);
        assert fifo.Keys + {level} - {level} == fifo.Keys;
        var fine := levelPool.Deallocate(level.block);
        assert fine;
      }
      BlockInUse(orderPool.objects[..], orderPool.isFree[..], live.Values + {order}, OrderBlock, order);
      PoolLess(orderPool.objects[..], orderPool.isFree[..], live.Values + {order}, OrderBlock, order);
      assert live.Values + {order} - {order} == live.Values;
      var fine := orderPool.Deallocate(order.block);
      assert fine;
    }

    /** `removeOrder` with the pools; none of their assertions fails. */
    method RemoveOrder(order: BookOrder<K>)
      requires Valid() && order.id in live && live[order.id] == order
      modifies Repr
      ensures Valid()
      ensures live == old(live) - {order.id}
      ensures Orders() == old(Orders()) - {order.id}
      ensures Repr == old(Repr)
    {
      hide Sound, OrdersPooled, LevelsPooled, Orders;
      NodesInRepr();
      var level := GetOrdersAtPrice(order.price);
      ValuesWithout(live, order);
      var last := Unlink(order, live.Values, fifo.Keys);
      assert old(fifo.Keys) == if last then fifo.Keys + {level} else fifo.Keys;
      GiveBack(order, level, last);
    }

    lemma NodesInRepr()
      requires Sound()
      ensures (forall i :: i in live ==> live[i] in Repr) && (forall l :: l in fifo ==> l in Repr)
      ensures priceIndex.Length == ME_MAX_PRICE_LEVELS && {this, priceIndex} <= Repr
      ensures forall i :: i in live ==> live[i].id == i
    {
      hide Listed, PriceIndexed, OrderIndexed, QueuesLinked, SidesLinked, Nodes, Queue;
    }

    /** The level a live order is found under, and whether it is the only order there. */
    lemma Position(order: BookOrder<K>) returns (k: nat)
      requires Sound() && order.id in live && live[order.id] == order
      ensures var l := GetOrdersAtPrice(order.price);
              && l != null && l in fifo && l.side == order.side && l.price == order.price && l.side != INVALID
              && k < |fifo[l]| && fifo[l][k] == order
              && (order.prevOrder == order <==> fifo[l] == [order])
    {
      hide PriceIndexed, OrderIndexed, SidesLinked, Listed, Shaped;
      var l;
      l, k := Locate(fifo, live, priceIndex[..], order);
      assert FifoPrevRing(fifo[l]) && order.prevOrder == fifo[l][Pred(k, |fifo[l]|)];
    }

    /** Changes a resting quantity in place; no link is touched. */
    method SetQty(order: BookOrder<K>, qty: nat)
      requires Valid() && order.id in live && live[order.id] == order
      modifies order`qty
      ensures Valid() && order.qty == qty
      ensures Orders() == old(Orders())[order.id := old(order.Value()).(qty := qty)]
    {
      hide PriceIndexed, OrderIndexed, QueuesLinked, SidesLinked, Listed, Queue;
      order.qty := qty;
    }

    /** What CLEAR leaves behind: no order, no level and empty pools, but whatever the price index held. */
    ghost predicate Cleared()
      reads this, priceIndex, orderPool`nextFreeIndex, orderPool.objects, orderPool.isFree
      reads levelPool`nextFreeIndex, levelPool.objects, levelPool.isFree
    {
      && {this, priceIndex} <= Repr && priceIndex.Length == ME_MAX_PRICE_LEVELS
      && bidsByPrice == null && asksByPrice == null && orderIndex == map[]
      && bids == [] && asks == [] && fifo == map[] && live == map[]
      && PoolsApart() && OrdersPooled({}) && LevelsPooled({})
    }

    /** An empty index is all that a cleared book lacks. */
    lemma ClearedIsValid()
      requires Cleared()
      ensures Valid() <==> IndexIsEmpty()
    {
      hide PoolsApart, Pooled;
      ClearedIsSound();
      assert Nodes(fifo) == {};
      assert live.Values == {} && fifo.Keys == {};
    }

    lemma ClearedIsSound()
      requires Cleared()
      ensures Sound() <==> IndexIsEmpty()
    {
      hide PoolsApart, Pooled;
    }

    /** The price index is empty exactly when no order is live. */
    lemma IndexEmpty()
      requires Sound()
      ensures priceIndex.Length == ME_MAX_PRICE_LEVELS && (live == map[] <==> IndexIsEmpty())
    {
      hide QueuesLinked, OrderIndexed, SidesLinked, Listed;
      if live != map[] {
        var id :| id in live;
        assert InQueue(live[id], priceIndex[..], fifo);
        assert priceIndex[..][PriceToIndex(live[id].price)] == priceIndex[PriceToIndex(live[id].price)];
      }
      HeadsAreLive(fifo, live);
      assert forall r :: 0 <= r < ME_MAX_PRICE_LEVELS ==> priceIndex[r] == priceIndex[..][r];
    }

    /** The loop over the order index that gives every order's block back. */
    method ReleaseOrders()
      requires OrdersPooled(orderIndex.Values) && forall k :: k in orderIndex ==> orderIndex[k].key == k
      modifies orderPool.isFree
      ensures OrdersPooled({})
    {
      hide Pooled;
      var left := orderIndex;
      while left != map[]
        invariant OrdersPooled(left.Values) && forall k :: k in left ==> left[k].key == k
        decreases |left|
      {
        var k :| k in left;
        var order := left[k];
        BlockInUse(orderPool.objects[..], orderPool.isFree[..], left.Values, OrderBlock, order);
        PoolLess(orderPool.objects[..], orderPool.isFree[..], left.Values, OrderBlock, order);
        WithoutKey(left, k);
        var fine := orderPool.Deallocate(order.block);
        assert fine;
        left := left - {k};
      }
    }

    /** The loop over the levels of one side that gives every level's block back. */
    method ReleaseLevels(best: OrdersAtPrice?<K>, ghost s: seq<OrdersAtPrice<K>>, ghost nodes: set<OrdersAtPrice<K>>)
      requires LevelsPooled(nodes) && LevelNextRing(s) && Distinct(s) && best == (if s == [] then null else s[0])
      requires forall l :: l in s ==> l in nodes
      modifies levelPool.isFree
      ensures LevelsPooled(nodes - (set l | l in s))
    {
      hide Pooled;
      if best != null {
        var level := best.nextEntry;
        assert level == s[Succ(0, |s|)];
        ghost var i := 1;
        ghost var left := nodes;
        while level != best
          invariant 1 <= i <= |s| && level == s[if i == |s| then 0 else i]
          invariant LevelsPooled(left) && left == nodes - (set l | l in s[1..i])
          decreases |s| - i
        {
          assert level in s && level !in s[1..i];
          ReleaseLevel(level, left);
          left := left - {level};
          assert s[1..i + 1] == s[1..i] + [level] && s[i].nextEntry == s[Succ(i, |s|)];
          level := level.nextEntry;
          i := i + 1;
        }
        assert i == |s| && s == [best] + s[1..i];
        assert best !in s[1..i];
        ReleaseLevel(best, left);
        assert left - {best} == nodes - (set l | l in s);
      } else {
        assert nodes - (set l | l in s) == nodes;
      }
    }

    method ReleaseLevel(level: OrdersAtPrice<K>, ghost nodes: set<OrdersAtPrice<K>>)
      requires LevelsPooled(nodes) && level in nodes
      modifies levelPool.isFree
      ensures LevelsPooled(nodes - {level})
    {
      hide Pooled;
      BlockInUse(levelPool.objects[..], levelPool.isFree[..], nodes, LevelBlock, level);
      PoolLess(levelPool.objects[..], levelPool.isFree[..], nodes, LevelBlock, level);
      var fine := levelPool.Deallocate(level.block);
      assert fine;
    }

    /** What the release loops need of the lists. */
    lemma AllListed()
      requires Sound()
      ensures orderIndex.Values == live.Values && forall k :: k in orderIndex ==> orderIndex[k].key == k
      ensures forall l :: l in fifo <==> l in bids || l in asks
      ensures LevelNextRing(bids) && Distinct(bids) && bidsByPrice == if bids == [] then null else bids[0]
      ensures LevelNextRing(asks) && Distinct(asks) && asksByPrice == if asks == [] then null else asks[0]
      ensures forall l :: l in bids ==> l !in asks
    {
      hide PriceIndexed, QueuesLinked, Queue;
      forall o | o in live.Values
        ensures o in orderIndex.Values
      {
        assert live[o.id] == o && orderIndex[o.key] == o;
      }
    }

    /**
     * CLEAR as written: all blocks go back to the pools, the order index and both lists are emptied, the price index
     * is not. The book is sound afterwards exactly when it held no order.
     */
    method Clear()
      requires Valid()
      modifies this, orderPool.isFree, levelPool.isFree
      ensures Cleared() && Orders() == map[] && Repr == old(Repr)
      ensures Valid() <==> old(live) == map[]
    {
      hide Sound, Pooled, LevelNextRing, Distinct;
      AllListed();
      IndexSize();
      IndexEmpty();
      hide PoolsApart, OrdersPooled, LevelsPooled, IndexIsEmpty;
      ReleaseOrders();
      ReleaseSides();
      EmptyLists();
    }

    ghost predicate IndexIsEmpty()
      requires priceIndex.Length == ME_MAX_PRICE_LEVELS
      reads priceIndex
    {
      forall r :: 0 <= r < ME_MAX_PRICE_LEVELS ==> priceIndex[r] == null
    }

    method EmptyLists()
      requires {this, priceIndex} <= Repr && priceIndex.Length == ME_MAX_PRICE_LEVELS
      requires PoolsApart() && OrdersPooled({}) && LevelsPooled({})
      modifies this`orderIndex, this`bidsByPrice, this`asksByPrice, this`bids, this`asks, this`fifo, this`live
      ensures Cleared() && Orders() == map[] && Repr == old(Repr)
      ensures Valid() <==> IndexIsEmpty()
    {
      hide PoolsApart, OrdersPooled, LevelsPooled, Sound;
      orderIndex := map[];
      bidsByPrice, asksByPrice := null, null;
      bids, asks, fifo, live := [], [], map[], map[];
      ClearedIsValid();
    }

    method ReleaseSides()
      requires LevelsPooled(fifo.Keys) && forall l :: l in fifo <==> l in bids || l in asks
      requires LevelNextRing(bids) && Distinct(bids) && bidsByPrice == if bids == [] then null else bids[0]
      requires LevelNextRing(asks) && Distinct(asks) && asksByPrice == if asks == [] then null else asks[0]
      requires forall l :: l in bids ==> l !in asks
      modifies levelPool.isFree
      ensures LevelsPooled({})
    {
      hide Pooled, LevelNextRing, Distinct;
      ReleaseLevels(bidsByPrice, bids, fifo.Keys);
      ReleaseLevels(asksByPrice, asks, fifo.Keys - (set l | l in bids));
      assert fifo.Keys - (set l | l in bids) - (set l | l in asks) == {};
    }

    /** The step CLEAR omits. */
    method ResetPriceIndex()
      requires Cleared()
      modifies priceIndex
      ensures Valid() && Cleared()
    {
      for r := 0 to priceIndex.Length
        invariant forall q :: 0 <= q < r ==> priceIndex[q] == null
        invariant Cleared()
      {
        priceIndex[r] := null;
      }
      ClearedIsValid();
    }

    lemma IndexSize()
      requires Valid()
      ensures priceIndex.Length == ME_MAX_PRICE_LEVELS && {this, priceIndex, orderPool.isFree, levelPool.isFree} <= Repr
    {
      hide Covers, Shaped, PriceIndexed, OrderIndexed, QueuesLinked, SidesLinked, OrdersPooled, LevelsPooled;
    }

    lemma OrderOf(o: BookOrder<K>)
      requires Valid() && o.id in live && live[o.id] == o
      ensures o.id in Orders() && Orders()[o.id] == o.Value() && o in Repr
    {
    }

    /** The order index answers by key. */
    lemma KeyOf(k: K)
      requires Valid() || Sound()
      ensures k in orderIndex <==> exists id :: id in Orders() && Orders()[id].key == k
      ensures k in orderIndex ==>
                var o := orderIndex[k];
                o.id in live && live[o.id] == o && forall id :: id in Orders() && Orders()[id].key == k ==> id == o.id
    {
      hide PriceIndexed, Listed, QueuesLinked, SidesLinked, Queue;
      if k in orderIndex {
        var o := orderIndex[k];
        assert o.id in Orders() && Orders()[o.id].key == k;
      }
    }

    /** All live orders in the slot of a price are at one level's price, and the tail of its queue is the youngest of them. */
    lemma YoungestAt(price: int)
      requires Valid()
      ensures var l := GetOrdersAtPrice(price);
              && (l == null ==> forall id :: id in Orders() ==> PriceToIndex(Orders()[id].price) != PriceToIndex(price))
              && (l != null ==>
                    var o := l.firstOrder.prevOrder;
                    && o != null && o.id in live && live[o.id] == o && PriceToIndex(l.price) == PriceToIndex(price)
                    && IsLast(Orders(), l.price, o.id)
                    && forall id :: id in Orders() && PriceToIndex(Orders()[id].price) == PriceToIndex(price) ==>
                         Orders()[id].price == l.price)
    {
      hide OrderIndexed, Listed, SidesLinked, PriceIndexed, Shaped, Queue, Contained, PoolsApart, OrdersPooled, LevelsPooled;
      var l := GetOrdersAtPrice(price);
      SlotHasAll(fifo, live, priceIndex[..], price);
      if l != null {
        var q := fifo[l];
        LastOfQueue(l, q, live);
        assert FifoPrevRing(q) && q[0].prevOrder == q[Pred(0, |q|)];
        var o := q[|q| - 1];
        assert o.price == l.price;
        forall id | id in Orders() && PriceToIndex(Orders()[id].price) == PriceToIndex(price)
          ensures id <= o.id && Orders()[id].price == l.price
        {
          assert live[id] in q;
        }
      }
    }

    lemma SoundCounts()
      requires Sound()
      ensures |Orders()| == |live.Values| && |fifo.Keys| == |Prices(Orders())| && OneSlotEach(Orders())
    {
      hide Listed, OrderIndexed, QueuesLinked, SidesLinked, Queue, Covers, OneSlotEach, Prices, PriceIndexed;
      CountOrders(live);
      assert Orders().Keys == live.Keys && ShowsPrices(Orders(), live);
      CountLevels(fifo, live, priceIndex[..], Orders());
    }

    /** A sound book is tidy. */
    lemma ValidIsTidy()
      requires Valid()
      ensures Tidy(Orders())
    {
      hide Sound, OneSlotEach, Prices, OrdersPooled, LevelsPooled, PoolsApart, Contained, Orders;
      PoolsNotFull();
      SoundCounts();
    }

    /** The head of the first queue is the best order of its side; an empty list is an empty side. */
    lemma FirstIsBest(side: Side)
      requires Valid() && side != INVALID
      ensures BestLevel(side) == null <==> !HasSide(Orders(), side)
      ensures BestLevel(side) != null ==>
                var o := BestLevel(side).firstOrder;
                o.id in live && live[o.id] == o && IsBest(Orders(), side, o.id)
    {
      hide Contained, PoolsApart, OrdersPooled, LevelsPooled, Listed, Shaped, PriceIndexed, OrderIndexed, QueuesLinked, Sorted, LevelRing,
           Orders, Covers, Nodes, IsBest;
      var levels := Levels(side);
      OrdersAreLive();
      assert forall id :: id in live ==> live[id].id == id by { NodesInRepr(); }
      forall id | id in live && live[id].side == side
        ensures levels != [] && levels[0] in fifo && fifo[levels[0]] != [] && AtOrBehind(fifo[levels[0]][0], live[id])
      {
        HeadLeads(levels, side, fifo, live, priceIndex[..], live[id]);
      }
      if levels != [] {
        HeadIsLive(levels, side, fifo, live);
        assert BestLevel(side).firstOrder == fifo[levels[0]][0] by { HeadOfQueue(fifo, levels[0]); }
        LeadsIsBest(live, Orders(), side, fifo[levels[0]][0]);
      }
    }
  }
}
