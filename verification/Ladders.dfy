/** The levels and queues a book shows: determined by its live orders, whatever the history. */
module Ladders {
  import opened Types
  import opened BookSpec

  datatype Level<+K> = Level(price: int, queue: seq<Order<K>>)

  /** Levels best to worst, each with a non-empty queue in arrival order. */
  ghost predicate IsLadder<K(!new)>(side: Side, ls: seq<Level<K>>) {
    && (forall i, j :: 0 <= i < j < |ls| ==> Better(side, ls[i].price, ls[j].price))
    && (forall i :: 0 <= i < |ls| ==> IsQueue(side, ls[i].price, ls[i].queue) && ls[i].queue != [])
  }

  ghost predicate IsQueue<K(!new)>(side: Side, price: int, q: seq<Order<K>>) {
    && (forall i :: 0 <= i < |q| ==> q[i].side == side && q[i].price == price)
    && (forall i, j :: 0 <= i < j < |q| ==> q[i].id < q[j].id && q[i].priority < q[j].priority)
  }

  ghost predicate InLadder<K(!new)>(ls: seq<Level<K>>, o: Order<K>) {
    exists i :: 0 <= i < |ls| && o in ls[i].queue
  }

  /** Queues with the same orders are the same queue. */
  lemma {:induction false} QueueUnique<K(!new)>(side: Side, price: int, p: seq<Order<K>>, q: seq<Order<K>>)
    requires IsQueue(side, price, p) && IsQueue(side, price, q)
    requires forall o :: o in p <==> o in q
    ensures p == q
  {
    assert p == [] || p[0] in p;
    assert q == [] || q[0] in q;
    if p != [] {
      assert p[0] == q[0];
      forall o
        ensures o in p[1..] <==> o in q[1..]
      {
        assert o in p <==> o == p[0] || o in p[1..];
        assert o in q <==> o == q[0] || o in q[1..];
        assert p[0] !in p[1..] && q[0] !in q[1..];
      }
      QueueUnique(side, price, p[1..], q[1..]);
    }
  }

  /** The first level holds exactly the orders at its price, the rest holds the others. */
  lemma LadderSplit<K(!new)>(side: Side, ls: seq<Level<K>>, o: Order<K>)
    requires IsLadder(side, ls) && ls != []
    ensures IsLadder(side, ls[1..])
    ensures o in ls[0].queue <==> InLadder(ls, o) && o.price == ls[0].price
    ensures InLadder(ls[1..], o) <==> InLadder(ls, o) && o.price != ls[0].price
  {
    if InLadder(ls, o) {
      var i :| 0 <= i < |ls| && o in ls[i].queue;
      assert i > 0 ==> o in ls[1..][i - 1].queue;
    }
    if InLadder(ls[1..], o) {
      var i :| 0 <= i < |ls[1..]| && o in ls[1..][i].queue;
      assert o in ls[i + 1].queue;
    }
  }

  lemma SameTop<K(!new)>(side: Side, a: seq<Level<K>>, b: seq<Level<K>>)
    requires IsLadder(side, a) && IsLadder(side, b) && a != [] && b != []
    requires forall o :: InLadder(a, o) <==> InLadder(b, o)
    ensures a[0].price == b[0].price
  {
    var o, p := a[0].queue[0], b[0].queue[0];
    assert InLadder(a, o) && InLadder(b, p);
    var i :| 0 <= i < |b| && o in b[i].queue;
    var j :| 0 <= j < |a| && p in a[j].queue;
  }

  /** Ladders with the same orders are the same ladder: same levels, same queues, same order. */
  lemma {:induction false} LadderUnique<K(!new)>(side: Side, a: seq<Level<K>>, b: seq<Level<K>>)
    requires IsLadder(side, a) && IsLadder(side, b)
    requires forall o :: InLadder(a, o) <==> InLadder(b, o)
    ensures a == b
  {
    assert a == [] || InLadder(a, a[0].queue[0]);
    assert b == [] || InLadder(b, b[0].queue[0]);
    if a != [] {
      SameTop(side, a, b);
      forall o
        ensures o in a[0].queue <==> o in b[0].queue
        ensures InLadder(a[1..], o) <==> InLadder(b[1..], o)
      {
        LadderSplit(side, a, o);
        LadderSplit(side, b, o);
      }
      QueueUnique(side, a[0].price, a[0].queue, b[0].queue);
      LadderSplit(side, a, a[0].queue[0]);
      LadderSplit(side, b, b[0].queue[0]);
      LadderUnique(side, a[1..], b[1..]);
    }
  }

  // ---- The price index ----

  /** Both sides of a book. */
  datatype Sides<+K> = Sides(bids: seq<Level<K>>, asks: seq<Level<K>>)

  ghost predicate IsBook<K(!new)>(b: Sides<K>) {
    IsLadder(BUY, b.bids) && IsLadder(SELL, b.asks)
  }

  /** Level i is the one the price index holds for `price`. */
  predicate HoldsSlot<K(!new)>(ls: seq<Level<K>>, i: nat, price: int) {
    i < |ls| && PriceToIndex(ls[i].price) == PriceToIndex(price)
  }

  /** Every slot of the price index is used by one level at most. */
  ghost predicate SlotsDistinct<K(!new)>(b: Sides<K>) {
    && (forall i, j, p :: HoldsSlot(b.bids, i, p) && HoldsSlot(b.bids, j, p) ==> i == j)
    && (forall i, j, p :: HoldsSlot(b.asks, i, p) && HoldsSlot(b.asks, j, p) ==> i == j)
    && (forall i, j, p :: HoldsSlot(b.bids, i, p) ==> !HoldsSlot(b.asks, j, p))
  }

  function Append<K(!new)>(ls: seq<Level<K>>, i: nat, o: Order<K>): seq<Level<K>>
    requires i < |ls|
  {
    ls[i := ls[i].(queue := ls[i].queue + [o])]
  }

  function InsertLevel<K(!new)>(side: Side, ls: seq<Level<K>>, l: Level<K>): seq<Level<K>> {
    if ls == [] || Better(side, l.price, ls[0].price) then [l] + ls
    else [ls[0]] + InsertLevel(side, ls[1..], l)
  }

  /** `addOrder`: to the end of whichever level the index yields for the price, or to a new level. */
  ghost function AddByIndex<K(!new)>(b: Sides<K>, o: Order<K>): Sides<K> {
    if exists i :: HoldsSlot(b.bids, i, o.price) then
      var i :| HoldsSlot(b.bids, i, o.price);
      b.(bids := Append(b.bids, i, o))
    else if exists i :: HoldsSlot(b.asks, i, o.price) then
      var i :| HoldsSlot(b.asks, i, o.price);
      b.(asks := Append(b.asks, i, o))
    else if o.side == BUY then
      b.(bids := InsertLevel(BUY, b.bids, Level(o.price, [o])))
    else
      b.(asks := InsertLevel(SELL, b.asks, Level(o.price, [o])))
  }

  /** Whatever level uses the slot of the order's price is the order's own level. */
  ghost predicate SlotFits<K(!new)>(b: Sides<K>, o: Order<K>) {
    && (forall i: nat :: HoldsSlot(b.bids, i, o.price) ==> o.side == BUY && b.bids[i].price == o.price)
    && (forall i: nat :: HoldsSlot(b.asks, i, o.price) ==> o.side == SELL && b.asks[i].price == o.price)
  }

  /** The order is younger than every order of its price level. */
  ghost predicate Youngest<K(!new)>(ls: seq<Level<K>>, o: Order<K>) {
    forall i, p :: 0 <= i < |ls| && p in ls[i].queue && p.price == o.price ==> p.id < o.id && p.priority < o.priority
  }

  lemma AppendIsLadder<K(!new)>(side: Side, ls: seq<Level<K>>, i: nat, o: Order<K>)
    requires IsLadder(side, ls) && i < |ls|
    ensures IsLadder(side, Append(ls, i, o)) ==> o.side == side && o.price == ls[i].price
    ensures o.side == side && o.price == ls[i].price && Youngest(ls, o) ==> IsLadder(side, Append(ls, i, o))
    ensures forall p :: InLadder(Append(ls, i, o), p) <==> InLadder(ls, p) || p == o
  {
    var ms := Append(ls, i, o);
    var q := ls[i].queue;
    assert ms[i].queue == q + [o] && ms[i].queue[|q|] == o;
    if o.side == side && o.price == ls[i].price && Youngest(ls, o) {
      forall k | 0 <= k < |q|
        ensures q[k].id < o.id && q[k].priority < o.priority
      {
        assert InLadder(ls, q[k]);
      }
    }
    forall p
      ensures InLadder(ms, p) <==> InLadder(ls, p) || p == o
    {
      if InLadder(ls, p) {
        var j :| 0 <= j < |ls| && p in ls[j].queue;
        assert p in ms[j].queue;
      }
      assert o in ms[i].queue;
    }
  }

  lemma {:induction false} InsertLevelIsLadder<K(!new)>(side: Side, ls: seq<Level<K>>, l: Level<K>)
    requires IsLadder(side, ls) && IsQueue(side, l.price, l.queue) && l.queue != []
    requires forall i :: 0 <= i < |ls| ==> ls[i].price != l.price
    ensures var ms := InsertLevel(side, ls, l);
            && IsLadder(side, ms)
            && (forall m :: m in ms <==> m == l || m in ls)
    decreases |ls|
  {
    if !(ls == [] || Better(side, l.price, ls[0].price)) {
      InsertLevelIsLadder(side, ls[1..], l);
      var rest := InsertLevel(side, ls[1..], l);
      forall i | 0 <= i < |rest|
        ensures Better(side, ls[0].price, rest[i].price)
      {
        assert rest[i] in rest;
        assert rest[i] == l || rest[i] in ls[1..];
      }
    }
  }

  lemma InsertedOrders<K(!new)>(side: Side, ls: seq<Level<K>>, l: Level<K>, ms: seq<Level<K>>)
    requires forall m :: m in ms <==> m == l || m in ls
    ensures forall p :: InLadder(ms, p) <==> InLadder(ls, p) || p in l.queue
  {
    forall p
      ensures InLadder(ms, p) <==> InLadder(ls, p) || p in l.queue
    {
      if InLadder(ls, p) {
        var i :| 0 <= i < |ls| && p in ls[i].queue;
        assert ls[i] in ms;
      }
      assert l in ms;
      if InLadder(ms, p) {
        var i :| 0 <= i < |ms| && p in ms[i].queue;
        assert ms[i] in ms;
      }
    }
  }

  /**
   * The index has one slot for prices equal modulo 256 and is never checked. A new order keeps both
   * ladders proper if and only if the level that uses its slot, if any, is its own level.
   */
  lemma AddByIndexExactly<K(!new)>(b: Sides<K>, o: Order<K>)
    requires IsBook(b) && SlotsDistinct(b) && o.side != INVALID
    requires Youngest(b.bids, o) && Youngest(b.asks, o)
    ensures IsBook(AddByIndex(b, o)) <==> SlotFits(b, o)
    ensures SlotFits(b, o) ==>
              && (forall p :: InLadder(AddByIndex(b, o).bids, p) <==> InLadder(b.bids, p) || (p == o && o.side == BUY))
              && (forall p :: InLadder(AddByIndex(b, o).asks, p) <==> InLadder(b.asks, p) || (p == o && o.side == SELL))
  {
    if i :| HoldsSlot(b.bids, i, o.price) {
      AppendIsLadder(BUY, b.bids, i, o);
    } else if i :| HoldsSlot(b.asks, i, o.price) {
      AppendIsLadder(SELL, b.asks, i, o);
    } else {
      var l := Level(o.price, [o]);
      var ls := if o.side == BUY then b.bids else b.asks;
      forall i | 0 <= i < |ls|
        ensures ls[i].price != o.price
      {
        assert !HoldsSlot(ls, i, o.price);
      }
      InsertLevelIsLadder(o.side, ls, l);
      InsertedOrders(o.side, ls, l, InsertLevel(o.side, ls, l));
    }
  }
}
