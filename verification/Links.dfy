/** The nodes of an order book and the pointer surgery on its circular lists. */
module Links {
  import opened Types

  /** A resting order, linked into the circular FIFO of its price level. */
  class BookOrder<K> {
    const id: nat
    const key: K
    const side: Side
    const price: int
    const priority: nat
    const block: nat   // where it stands in the order pool
    var qty: nat
    var prevOrder: BookOrder?<K>
    var nextOrder: BookOrder?<K>

    constructor (id: nat, key: K, side: Side, price: int, qty: nat, priority: nat, block: nat)
      ensures this.id == id && this.key == key && this.side == side && this.price == price && this.block == block
      ensures this.qty == qty && this.priority == priority && prevOrder == null && nextOrder == null
    {
      this.id, this.key, this.side, this.price, this.block := id, key, side, price, block;
      this.qty, this.priority, prevOrder, nextOrder := qty, priority, null, null;
    }

    function Value(): Order<K>
      reads this`qty
    {
      Order(id, key, side, price, qty, priority)
    }
  }

  /** A price level, linked into the circular list of the levels of its side. */
  class OrdersAtPrice<K> {
    const side: Side
    const price: int
    const block: nat   // where it stands in the level pool
    var firstOrder: BookOrder<K>
    var prevEntry: OrdersAtPrice?<K>
    var nextEntry: OrdersAtPrice?<K>

    constructor (side: Side, price: int, firstOrder: BookOrder<K>, block: nat)
      ensures this.side == side && this.price == price && this.firstOrder == firstOrder && this.block == block
      ensures prevEntry == null && nextEntry == null
    {
      this.side, this.price, this.firstOrder, this.block := side, price, firstOrder, block;
      prevEntry, nextEntry := null, null;
    }
  }

  function OrderBlock<K>(o: BookOrder<K>): nat {
    o.block
  }

  function LevelBlock<K>(l: OrdersAtPrice<K>): nat {
    l.block
  }

  function Succ(i: nat, n: nat): nat {
    if i + 1 == n then 0 else i + 1
  }

  function Pred(i: nat, n: nat): int {
    if i == 0 then n - 1 else i - 1
  }

  ghost predicate Distinct<T>(s: seq<T>) {
    forall i, j :: 0 <= i < j < |s| ==> s[i] != s[j]
  }

  /** `s` with `x` inserted at position k. */
  ghost function With<T>(s: seq<T>, k: nat, x: T): (t: seq<T>)
    requires k <= |s|
    ensures |t| == |s| + 1
    ensures forall i :: 0 <= i < |t| ==> t[i] == if i < k then s[i] else if i == k then x else s[i - 1]
  {
    s[..k] + [x] + s[k..]
  }

  /** `s` without its element at position k. */
  ghost function Without<T>(s: seq<T>, k: nat): (t: seq<T>)
    requires k < |s|
    ensures |t| == |s| - 1
    ensures forall i :: 0 <= i < |t| ==> t[i] == if i < k then s[i] else s[i + 1]
  {
    s[..k] + s[k + 1..]
  }

  /** The `nextOrder`/`prevOrder` pointers of `s` close it into a circular doubly linked list. */
  ghost predicate FifoRing<K>(s: seq<BookOrder<K>>)
    reads s`prevOrder, s`nextOrder
  {
    FifoNextRing(s) && FifoPrevRing(s)
  }

  ghost predicate FifoNextRing<K>(s: seq<BookOrder<K>>)
    reads s`nextOrder
  {
    forall i {:trigger s[i].nextOrder} :: 0 <= i < |s| ==> s[i].nextOrder == s[Succ(i, |s|)]
  }

  ghost predicate FifoPrevRing<K>(s: seq<BookOrder<K>>)
    reads s`prevOrder
  {
    forall i {:trigger s[i].prevOrder} :: 0 <= i < |s| ==> s[i].prevOrder == s[Pred(i, |s|)]
  }

  lemma JoinFifo<K>(x: BookOrder<K>, s: seq<BookOrder<K>>, k: nat)
    requires 0 < |s| && k <= |s|
    requires x.nextOrder == s[if k == |s| then 0 else k] && x.prevOrder == s[Pred(k, |s|)]
    requires forall j {:trigger s[j].nextOrder} :: 0 <= j < |s| ==>
               s[j].nextOrder == if j == Pred(k, |s|) then x else s[Succ(j, |s|)]
    requires forall j {:trigger s[j].prevOrder} :: 0 <= j < |s| ==>
               s[j].prevOrder == if j == Succ(Pred(k, |s|), |s|) then x else s[Pred(j, |s|)]
    ensures FifoRing(With(s, k, x))
  {
    var t := With(s, k, x);
    forall i | 0 <= i < |t|
      ensures t[i].nextOrder == t[Succ(i, |t|)]
    {
      var j := if i < k then i else i - 1;
      assert i != k ==> t[i] == s[j];
    }
    forall i | 0 <= i < |t|
      ensures t[i].prevOrder == t[Pred(i, |t|)]
    {
      var j := if i < k then i else i - 1;
      assert i != k ==> t[i] == s[j];
    }
  }

  /** Links `x` into the ring between the neighbours at positions k - 1 and k (mod |s|). */
  method LinkFifo<K>(x: BookOrder<K>, before: BookOrder<K>, after: BookOrder<K>, ghost s: seq<BookOrder<K>>, ghost k: nat)
    requires 0 < |s| && k <= |s| && Distinct(s) && x !in s && FifoRing(s)
    requires before == s[Pred(k, |s|)] && after == s[if k == |s| then 0 else k]
    modifies s`prevOrder, s`nextOrder, x`prevOrder, x`nextOrder
    ensures FifoRing(With(s, k, x))
  {
    x.prevOrder := before;
    x.nextOrder := after;
    before.nextOrder := x;
    after.prevOrder := x;
    JoinFifo(x, s, k);
  }

  lemma SkipFifo<K>(s: seq<BookOrder<K>>, k: nat)
    requires |s| > 1 && k < |s|
    requires forall j {:trigger s[j].nextOrder} :: 0 <= j < |s| && j != k ==>
               s[j].nextOrder == s[Succ(if Succ(j, |s|) == k then k else j, |s|)]
    requires forall j {:trigger s[j].prevOrder} :: 0 <= j < |s| && j != k ==>
               s[j].prevOrder == s[Pred(if Pred(j, |s|) == k then k else j, |s|)]
    ensures FifoRing(Without(s, k))
  {
    var t := Without(s, k);
    forall i | 0 <= i < |t|
      ensures t[i].nextOrder == t[Succ(i, |t|)]
    {
      var j := if i < k then i else i + 1;
      assert t[i] == s[j] && j != k;
      assert t[Succ(i, |t|)] == s[Succ(if Succ(j, |s|) == k then k else j, |s|)];
    }
    forall i | 0 <= i < |t|
      ensures t[i].prevOrder == t[Pred(i, |t|)]
    {
      var j := if i < k then i else i + 1;
      assert t[i] == s[j] && j != k;
      assert t[Pred(i, |t|)] == s[Pred(if Pred(j, |s|) == k then k else j, |s|)];
    }
  }

  method UnlinkFifo<K>(x: BookOrder<K>, ghost s: seq<BookOrder<K>>, ghost k: nat)
    requires |s| > 1 && k < |s| && s[k] == x && Distinct(s) && FifoRing(s)
    modifies s`prevOrder, s`nextOrder
    ensures FifoRing(Without(s, k))
  {
    var before := x.prevOrder;
    var after := x.nextOrder;
    before.nextOrder := after;
    after.prevOrder := before;
    x.prevOrder, x.nextOrder := null, null;
    SkipFifo(s, k);
  }

  /** The `nextEntry`/`prevEntry` pointers of `s` close it into a circular doubly linked list. */
  ghost predicate LevelRing<K>(s: seq<OrdersAtPrice<K>>)
    reads s`prevEntry, s`nextEntry
  {
    LevelNextRing(s) && LevelPrevRing(s)
  }

  ghost predicate LevelNextRing<K>(s: seq<OrdersAtPrice<K>>)
    reads s`nextEntry
  {
    forall i {:trigger s[i].nextEntry} :: 0 <= i < |s| ==> s[i].nextEntry == s[Succ(i, |s|)]
  }

  ghost predicate LevelPrevRing<K>(s: seq<OrdersAtPrice<K>>)
    reads s`prevEntry
  {
    forall i {:trigger s[i].prevEntry} :: 0 <= i < |s| ==> s[i].prevEntry == s[Pred(i, |s|)]
  }

  lemma JoinLevelRing<K>(x: OrdersAtPrice<K>, s: seq<OrdersAtPrice<K>>, k: nat)
    requires 0 < |s| && k <= |s|
    requires x.nextEntry == s[if k == |s| then 0 else k] && x.prevEntry == s[Pred(k, |s|)]
    requires forall j {:trigger s[j].nextEntry} :: 0 <= j < |s| ==>
               s[j].nextEntry == if j == Pred(k, |s|) then x else s[Succ(j, |s|)]
    requires forall j {:trigger s[j].prevEntry} :: 0 <= j < |s| ==>
               s[j].prevEntry == if j == Succ(Pred(k, |s|), |s|) then x else s[Pred(j, |s|)]
    ensures LevelRing(With(s, k, x))
  {
    var t := With(s, k, x);
    forall i | 0 <= i < |t|
      ensures t[i].nextEntry == t[Succ(i, |t|)]
    {
      var j := if i < k then i else i - 1;
      assert i != k ==> t[i] == s[j];
    }
    forall i | 0 <= i < |t|
      ensures t[i].prevEntry == t[Pred(i, |t|)]
    {
      var j := if i < k then i else i - 1;
      assert i != k ==> t[i] == s[j];
    }
  }

  /** Links `x` into the ring between the neighbours at positions k - 1 and k (mod |s|). */
  method LinkLevel<K>(x: OrdersAtPrice<K>, before: OrdersAtPrice<K>, after: OrdersAtPrice<K>, ghost s: seq<OrdersAtPrice<K>>, ghost k: nat)
    requires 0 < |s| && k <= |s| && Distinct(s) && x !in s && LevelRing(s)
    requires before == s[Pred(k, |s|)] && after == s[if k == |s| then 0 else k]
    modifies s`prevEntry, s`nextEntry, x`prevEntry, x`nextEntry
    ensures LevelRing(With(s, k, x))
  {
    x.prevEntry := before;
    x.nextEntry := after;
    before.nextEntry := x;
    after.prevEntry := x;
    JoinLevelRing(x, s, k);
  }

  lemma SkipLevelRing<K>(s: seq<OrdersAtPrice<K>>, k: nat)
    requires |s| > 1 && k < |s|
    requires forall j {:trigger s[j].nextEntry} :: 0 <= j < |s| && j != k ==>
               s[j].nextEntry == s[Succ(if Succ(j, |s|) == k then k else j, |s|)]
    requires forall j {:trigger s[j].prevEntry} :: 0 <= j < |s| && j != k ==>
               s[j].prevEntry == s[Pred(if Pred(j, |s|) == k then k else j, |s|)]
    ensures LevelRing(Without(s, k))
  {
    var t := Without(s, k);
    forall i | 0 <= i < |t|
      ensures t[i].nextEntry == t[Succ(i, |t|)]
    {
      var j := if i < k then i else i + 1;
      assert t[i] == s[j] && j != k;
      assert t[Succ(i, |t|)] == s[Succ(if Succ(j, |s|) == k then k else j, |s|)];
    }
    forall i | 0 <= i < |t|
      ensures t[i].prevEntry == t[Pred(i, |t|)]
    {
      var j := if i < k then i else i + 1;
      assert t[i] == s[j] && j != k;
      assert t[Pred(i, |t|)] == s[Pred(if Pred(j, |s|) == k then k else j, |s|)];
    }
  }

  method UnlinkLevel<K>(x: OrdersAtPrice<K>, ghost s: seq<OrdersAtPrice<K>>, ghost k: nat)
    requires |s| > 1 && k < |s| && s[k] == x && Distinct(s) && LevelRing(s)
    modifies s`prevEntry, s`nextEntry
    ensures LevelRing(Without(s, k))
  {
    var before := x.prevEntry;
    var after := x.nextEntry;
    before.nextEntry := after;
    after.prevEntry := before;
    x.prevEntry, x.nextEntry := null, null;
    SkipLevelRing(s, k);
  }
}
