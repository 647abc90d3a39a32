/** Books as sets of live orders: price-time order, independent of how a book links them. */
module BookSpec {
  import opened Types

  /** The live orders by market id. */
  type Book<+K> = map<nat, Order<K>>

  /** Price `p` stands in front of price `q` on side `s`. */
  predicate Better(s: Side, p: int, q: int) {
    if s == BUY then p > q else p < q
  }

  /** Price-time order of two orders of one side: ids are given out in arrival order. */
  predicate Ahead<K>(book: Book<K>, i: nat, j: nat)
    requires i in book && j in book
  {
    Better(book[i].side, book[i].price, book[j].price) || (book[i].price == book[j].price && i < j)
  }

  ghost predicate HasSide<K>(book: Book<K>, side: Side) {
    exists id :: id in book && book[id].side == side
  }

  /** Order `id` is in front of every other order of its side. */
  ghost predicate IsBest<K>(book: Book<K>, side: Side, id: nat) {
    && id in book && book[id].side == side
    && forall j :: j in book && book[j].side == side && j != id ==> Ahead(book, id, j)
  }

  /** No two orders have the same key. */
  ghost predicate OwnKeys<K>(book: Book<K>) {
    forall i, j :: i in book && j in book && book[i].key == book[j].key ==> i == j
  }

  /** What both books keep: ids and sides make sense and queues are in arrival order. */
  ghost predicate WellFormed<K>(book: Book<K>) {
    && (forall id :: id in book ==> book[id].id == id && book[id].side != INVALID && 0 < book[id].qty)
    && (forall i, j :: i in book && j in book && i < j && book[i].price == book[j].price && book[i].side == book[j].side ==>
          book[i].priority < book[j].priority)
    && OwnKeys(book)
  }

  /** Every bid is below every ask. */
  ghost predicate Uncrossed<K>(book: Book<K>) {
    forall i, j :: i in book && j in book && book[i].side == BUY && book[j].side == SELL ==>
      book[i].price < book[j].price
  }

  lemma {:induction false} BestExists<K>(book: Book<K>, side: Side)
    requires HasSide(book, side)
    ensures exists id :: IsBest(book, side, id)
    decreases |book|
  {
    var id :| id in book && book[id].side == side;
    var rest := book - {id};
    assert |rest| < |book| by {
      assert book.Keys == rest.Keys + {id};
    }
    if HasSide(rest, side) {
      BestExists(rest, side);
      var b :| IsBest(rest, side, b);
      assert IsBest(book, side, if Ahead(book, id, b) then id else b);
    } else {
      assert IsBest(book, side, id);
    }
  }

  lemma BestUnique<K>(book: Book<K>, side: Side, i: nat, j: nat)
    requires IsBest(book, side, i) && IsBest(book, side, j)
    ensures i == j
  {
  }

  ghost function BestId<K>(book: Book<K>, side: Side): (id: nat)
    requires HasSide(book, side)
    ensures IsBest(book, side, id)
  {
    BestExists(book, side);
    var id :| IsBest(book, side, id);
    id
  }

  /** The youngest order at a price, whichever side it rests on. */
  ghost predicate IsLast<K>(book: Book<K>, price: int, id: nat) {
    && id in book && book[id].price == price
    && forall j :: j in book && book[j].price == price ==> j <= id
  }

  ghost predicate HasPrice<K>(book: Book<K>, price: int) {
    exists id :: id in book && book[id].price == price
  }

  lemma {:induction false} LastExists<K>(book: Book<K>, price: int)
    requires HasPrice(book, price)
    ensures exists id :: IsLast(book, price, id)
    decreases |book|
  {
    var id :| id in book && book[id].price == price;
    var rest := book - {id};
    assert |rest| < |book| by {
      assert book.Keys == rest.Keys + {id};
    }
    if HasPrice(rest, price) {
      LastExists(rest, price);
      var b :| IsLast(rest, price, b);
      assert IsLast(book, price, if b < id then id else b);
    } else {
      assert IsLast(book, price, id);
    }
  }

  /** One more than the priority of the youngest order at the price, or 1. */
  ghost function NextPriority<K>(book: Book<K>, price: int): (p: nat)
  {
    if HasPrice(book, price) then
      LastExists(book, price);
      var id :| IsLast(book, price, id);
      book[id].priority + 1
    else
      1
  }

  lemma NextPriorityIs<K>(book: Book<K>, price: int, last: nat)
    requires IsLast(book, price, last)
    ensures NextPriority(book, price) == book[last].priority + 1
  {
  }

  /** Exactly the books in which a new order at `price` can go to the end of one queue. */
  ghost predicate OneSidedAt<K>(book: Book<K>, side: Side, price: int) {
    forall id :: id in book && book[id].price == price ==> book[id].side == side
  }

  lemma NextPriorityIsLast<K>(book: Book<K>, side: Side, price: int)
    requires WellFormed(book) && OneSidedAt(book, side, price)
    ensures forall id :: id in book && book[id].price == price ==> book[id].priority < NextPriority(book, price)
  {
    if HasPrice(book, price) {
      LastExists(book, price);
      var last :| IsLast(book, price, last) && NextPriority(book, price) == book[last].priority + 1;
      forall id | id in book && book[id].price == price
        ensures book[id].priority < NextPriority(book, price)
      {
        assert id == last || book[id].priority < book[last].priority;
      }
    }
  }

  /** An order comes last at its price, on the side of the others there, and no order has its key. */
  ghost predicate InTurn<K>(book: Book<K>, o: Order<K>) {
    forall i :: i in book ==>
      && book[i].key != o.key
      && (book[i].price == o.price ==> book[i].side == o.side && i < o.id && book[i].priority < o.priority)
  }

  // ---- What the tables of a book can hold ----

  ghost function Prices<K>(book: Book<K>): set<int> {
    set id | id in book :: book[id].price
  }

  /** No two prices share a slot of the price index. */
  ghost predicate OneSlotEach<K>(book: Book<K>) {
    forall i, j :: i in book && j in book && PriceToIndex(book[i].price) == PriceToIndex(book[j].price) ==>
      book[i].price == book[j].price
  }

  /** Some order uses the slot of `price`, at whatever price. */
  ghost predicate SlotUsed<K>(book: Book<K>, price: int) {
    exists id :: id in book && PriceToIndex(book[id].price) == PriceToIndex(price)
  }

  /** The book fits the price index, and both pools keep a free block. */
  ghost predicate Tidy<K>(book: Book<K>) {
    OneSlotEach(book) && |book| < ME_MAX_ORDER_IDS && |Prices(book)| < ME_MAX_PRICE_LEVELS
  }

  /** A book with fewer orders at the same prices fits as well. */
  lemma TidyPart<J, K>(part: Book<J>, book: Book<K>)
    requires Tidy(book) && part.Keys <= book.Keys && forall id :: id in part ==> part[id].price == book[id].price
    ensures Tidy(part)
  {
    assert Prices(part) <= Prices(book);
    SubsetSize(Prices(part), Prices(book));
    SubsetSize(part.Keys, book.Keys);
  }

  lemma {:induction false} SubsetSize<T>(a: set<T>, b: set<T>)
    requires a <= b
    ensures |a| <= |b|
    decreases a
  {
    if a != {} {
      var x :| x in a;
      SubsetSize(a - {x}, b - {x});
    }
  }
}
