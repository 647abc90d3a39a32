/** What market updates do to a replica of the books, and why the engine's updates rebuild its books. */
module Replica {
  import opened Types
  import opened BookSpec
  import opened Matching

  /** Market data looks an order up by its market id. */
  type Copy = Book<nat>

  function Posted(u: MarketUpdate): Order<nat> {
    Order(u.orderId, u.orderId, u.side, u.price, u.qty, u.priority)
  }

  /** The effect of one update on the copy of its ticker's book. */
  function Apply(copy: Copy, u: MarketUpdate): Copy {
    match u.kind
    case ADD => copy[u.orderId := Posted(u)]
    case MODIFY => if u.orderId in copy then copy[u.orderId := copy[u.orderId].(qty := u.qty)] else copy
    case CANCEL => copy - {u.orderId}
    case CLEAR => map[]
    case _ => copy
  }

  /** An update the receiver can process: ids resolve, and a new order goes last at its price. */
  ghost predicate Applicable(copy: Copy, u: MarketUpdate) {
    match u.kind
    case ADD =>
      && u.orderId !in copy && u.side != INVALID && 0 < u.qty
      && forall id :: id in copy && copy[id].price == u.price ==>
           copy[id].side == u.side && id < u.orderId && copy[id].priority < u.priority
    case MODIFY => u.orderId in copy && copy[u.orderId].side == u.side && copy[u.orderId].price == u.price && 0 < u.qty
    case CANCEL => u.orderId in copy && copy[u.orderId].side == u.side && copy[u.orderId].price == u.price
    case _ => true
  }

  /** One copy per ticker. */
  type Copies = seq<Copy>

  function NoOrders(): Copies {
    seq(ME_MAX_TICKERS, _ => map[])
  }

  function ApplyTo(copies: Copies, u: MarketUpdate): Copies {
    if u.ticker < |copies| then copies[u.ticker := Apply(copies[u.ticker], u)] else copies
  }

  function ApplyAll(copies: Copies, us: seq<MarketUpdate>): (r: Copies)
    ensures |r| == |copies|
  {
    if us == [] then copies else ApplyTo(ApplyAll(copies, us[..|us| - 1]), us[|us| - 1])
  }

  ghost predicate CanApply(copies: Copies, u: MarketUpdate) {
    u.ticker < |copies| && Applicable(copies[u.ticker], u)
  }

  /** Every update of the stream finds the copies in a state it fits. */
  ghost predicate AllApply(copies: Copies, us: seq<MarketUpdate>) {
    us == [] || (AllApply(copies, us[..|us| - 1]) && CanApply(ApplyAll(copies, us[..|us| - 1]), us[|us| - 1]))
  }

  lemma {:induction false} ApplyConcat(copies: Copies, us: seq<MarketUpdate>, vs: seq<MarketUpdate>)
    ensures ApplyAll(copies, us + vs) == ApplyAll(ApplyAll(copies, us), vs)
    ensures AllApply(copies, us) && AllApply(ApplyAll(copies, us), vs) ==> AllApply(copies, us + vs)
  {
    if vs == [] {
      assert us + vs == us;
    } else {
      var n := |vs| - 1;
      assert (us + vs)[..|us + vs| - 1] == us + vs[..n];
      assert (us + vs)[|us + vs| - 1] == vs[n];
      ApplyConcat(copies, us, vs[..n]);
    }
  }

  /** The book of ticker t is tidy after every update of the stream. */
  ghost predicate TidyThroughout(t: nat, copies: Copies, us: seq<MarketUpdate>)
    requires t < |copies|
  {
    forall k :: 0 <= k <= |us| ==> Tidy(ApplyAll(copies, us[..k])[t])
  }

  lemma TidyConcat(t: nat, copies: Copies, us: seq<MarketUpdate>, vs: seq<MarketUpdate>)
    requires t < |copies| && TidyThroughout(t, copies, us) && TidyThroughout(t, ApplyAll(copies, us), vs)
    ensures TidyThroughout(t, copies, us + vs)
  {
    hide Tidy, AllApply;
    forall k | 0 <= k <= |us + vs|
      ensures Tidy(ApplyAll(copies, (us + vs)[..k])[t])
    {
      if k <= |us| {
        assert (us + vs)[..k] == us[..k];
      } else {
        assert (us + vs)[..k] == us + vs[..k - |us|];
        ApplyConcat(copies, us, vs[..k - |us|]);
      }
    }
  }

  /** The end of a tidy stretch. */
  lemma TidyEnd(t: nat, copies: Copies, us: seq<MarketUpdate>)
    requires t < |copies| && TidyThroughout(t, copies, us)
    ensures Tidy(ApplyAll(copies, us)[t])
  {
    assert us[..|us|] == us;
  }

  /** Without an ADD for its ticker, a tidy book stays tidy. */
  lemma {:induction false} NoAddStaysTidy(t: nat, copies: Copies, us: seq<MarketUpdate>)
    requires t < |copies| && Tidy(copies[t]) && forall u :: u in us && u.ticker == t ==> u.kind != ADD
    ensures TidyThroughout(t, copies, us)
  {
    if us == [] {
      assert us[..0] == [];
    } else {
      var before, u := us[..|us| - 1], us[|us| - 1];
      NoAddStaysTidy(t, copies, before);
      TidyEnd(t, copies, before);
      var copy := ApplyAll(copies, before)[t];
      assert u in us;
      if u.ticker == t {
        ApplyStaysTidy(copy, u);
      }
      hide Tidy, Apply, TidyThroughout;
      assert Tidy(ApplyAll(copies, us)[t]);
      TidyMore(t, copies, us);
    }
  }

  lemma ApplyStaysTidy(copy: Copy, u: MarketUpdate)
    requires Tidy(copy) && u.kind != ADD
    ensures Tidy(Apply(copy, u))
  {
    hide Tidy;
    TidyPart(Apply(copy, u), copy);
  }

  lemma TidyMore(t: nat, copies: Copies, us: seq<MarketUpdate>)
    requires t < |copies| && us != []
    requires TidyThroughout(t, copies, us[..|us| - 1]) && Tidy(ApplyAll(copies, us)[t])
    ensures TidyThroughout(t, copies, us)
  {
    hide Tidy, ApplyAll;
    assert forall k :: 0 <= k < |us| ==> us[..k] == us[..|us| - 1][..k];
    assert us[..|us|] == us;
  }

  /** What market data shows of an order. */
  function Shown<K>(o: Order<K>): Order<nat> {
    Order(o.id, o.id, o.side, o.price, o.qty, o.priority)
  }

  /** What market data shows of a book. */
  function View<K>(book: Book<K>): Copy {
    map id | id in book :: Shown(book[id])
  }

  lemma ViewOf(book: Book<ClientKey>, o: Order<ClientKey>)
    ensures View(book - {o.id}) == View(book) - {o.id}
    ensures View(book[o.id := o]) == View(book)[o.id := Shown(o)]
  {
  }

  lemma ApplyNone(copies: Copies)
    ensures ApplyAll(copies, []) == copies && AllApply(copies, [])
  {
  }

  lemma ApplyOne(copies: Copies, u: MarketUpdate)
    ensures ApplyAll(copies, [u]) == ApplyTo(copies, u)
    ensures AllApply(copies, [u]) <==> CanApply(copies, u)
  {
    assert [u][..0] == [];
  }

  /** A TRADE in front of another update changes nothing. */
  lemma ApplyAfterTrade(copies: Copies, trade: MarketUpdate, u: MarketUpdate)
    requires trade.kind == TRADE && trade.ticker < |copies|
    ensures ApplyAll(copies, [trade, u]) == ApplyTo(copies, u)
    ensures AllApply(copies, [trade, u]) <==> CanApply(copies, u)
  {
    ApplyOne(copies, trade);
    assert [trade, u][..1] == [trade];
    assert ApplyTo(copies, trade) == copies;
  }

  /** The second update of a fill turns the view of the book before into the view after. */
  lemma FillReplicates(t: Taker, book: Book<ClientKey>, id: nat, leaves: nat)
    requires WellFormed(book) && id in book
    ensures var one := MatchOne(t, book, id, leaves);
            && Apply(View(book), one.updates[1]) == View(one.book)
            && Applicable(View(book), one.updates[1])
  {
    var o, rest := book[id], book[id].qty - Min(leaves, book[id].qty);
    hide *;
    ViewAt(book, id);
    FillCases(t, book, id, leaves);
    ViewOf(book, o.(qty := rest));
    ShownRest(o, rest);
    KnownOrderFits(View(book), MatchOne(t, book, id, leaves).updates[1]);
  }

  /** CANCEL and MODIFY of an order the copy has. */
  lemma KnownOrderFits(copy: Copy, u: MarketUpdate)
    requires u.orderId in copy && copy[u.orderId].side == u.side && copy[u.orderId].price == u.price
    requires u.kind == CANCEL || (u.kind == MODIFY && 0 < u.qty)
    ensures Applicable(copy, u)
    ensures Apply(copy, u) ==
            if u.kind == CANCEL then copy - {u.orderId} else copy[u.orderId := copy[u.orderId].(qty := u.qty)]
  {
  }

  lemma ShownRest(o: Order<ClientKey>, rest: nat)
    ensures Shown(o.(qty := rest)) == Shown(o).(qty := rest)
    ensures Shown(o).side == o.side && Shown(o).price == o.price
  {
  }

  lemma ViewAt(book: Book<ClientKey>, id: nat)
    requires WellFormed(book) && id in book
    ensures book[id].id == id && id in View(book) && View(book)[id] == Shown(book[id])
  {
  }

  /** A fill takes the resting order out or leaves it with the rest of its quantity. */
  lemma FillCases(t: Taker, book: Book<ClientKey>, id: nat, leaves: nat)
    requires id in book
    ensures var one := MatchOne(t, book, id, leaves);
            |one.updates| == 2 &&
            var o, u := book[id], one.updates[1];
            var rest := o.qty - Min(leaves, o.qty);
            && u.ticker == t.ticker && u.orderId == o.id && u.side == o.side && u.price == o.price
            && if rest == 0 then u.kind == CANCEL && one.book == book - {id}
               else u.kind == MODIFY && u.qty == rest && 0 < rest && one.book == book[id := o.(qty := rest)]
  {
  }

  /** One fill: TRADE leaves the copy alone, CANCEL or MODIFY follows the resting order. */
  lemma MatchOneReplicates(t: Taker, copies: Copies, book: Book<ClientKey>, id: nat, leaves: nat)
    requires WellFormed(book) && id in book && t.ticker < |copies| && copies[t.ticker] == View(book)
    ensures var one := MatchOne(t, book, id, leaves);
            && ApplyAll(copies, one.updates) == copies[t.ticker := View(one.book)]
            && AllApply(copies, one.updates)
  {
    FillReplicates(t, book, id, leaves);
    var one := MatchOne(t, book, id, leaves);
    var u, v := one.updates[0], one.updates[1];
    assert one.updates == [u, v] && u.kind == TRADE && u.ticker == v.ticker == t.ticker;
    hide WellFormed, View, Apply, Applicable, MatchOne;
    ApplyAfterTrade(copies, u, v);
  }

  lemma {:induction false} MatchAllReplicates(t: Taker, copies: Copies, book: Book<ClientKey>, leaves: nat)
    requires WellFormed(book) && t.side != INVALID && t.ticker < |copies| && copies[t.ticker] == View(book)
    ensures var m := MatchAll(t, book, leaves);
            && ApplyAll(copies, m.updates) == copies[t.ticker := View(m.book)]
            && AllApply(copies, m.updates)
    decreases leaves
  {
    hide WellFormed, HasSide, IsBest, MatchOne, View, ApplyAll, AllApply;
    if CanMatch(t, book, leaves) {
      var best := BestOpposite(t, book);
      var one := MatchOne(t, book, best, leaves);
      MatchOneKeeps(t, book, best, leaves);
      MatchOneReplicates(t, copies, book, best, leaves);
      var more := MatchAll(t, one.book, one.leaves);
      var mid := copies[t.ticker := View(one.book)];
      MatchAllReplicates(t, mid, one.book, one.leaves);
      ApplyConcat(copies, one.updates, more.updates);
      assert mid[t.ticker := View(more.book)] == copies[t.ticker := View(more.book)];
    } else {
      ApplyNone(copies);
    }
  }

  /** An order that comes last at its price can be added to the copy. */
  lemma AddFits(book: Book<ClientKey>, u: MarketUpdate)
    requires WellFormed(book) && u.kind == ADD && u.side != INVALID && 0 < u.qty
    requires OneSidedAt(book, u.side, u.price) && u.priority == NextPriority(book, u.price)
    requires forall id :: id in book ==> id < u.orderId
    ensures Applicable(View(book), u)
  {
    NextPriorityIsLast(book, u.side, u.price);
  }

  lemma RestReplicates(copies: Copies, ticker: nat, book: Book<ClientKey>, o: Order<ClientKey>)
    requires ticker < |copies| && copies[ticker] == View(book)
    requires var u := MarketUpdate(ADD, o.id, ticker, o.side, o.price, o.qty, o.priority); Applicable(View(book), u)
    ensures var u := MarketUpdate(ADD, o.id, ticker, o.side, o.price, o.qty, o.priority);
            && ApplyAll(copies, [u]) == copies[ticker := View(book[o.id := o])]
            && AllApply(copies, [u])
  {
    hide View, Applicable;
    ViewOf(book, o);
    ApplyOne(copies, MarketUpdate(ADD, o.id, ticker, o.side, o.price, o.qty, o.priority));
  }

  /** The updates of one `add` take the copy from the book before to the book after. */
  lemma AddReplicates(copies: Copies, e: Engine, ticker: nat, client: nat, oid: nat, side: Side, price: int, qty: nat)
    requires Good(e) && side != INVALID && FreshKey(e.book, ClientKey(client, oid))
    requires ticker < |copies| && copies[ticker] == View(e.book)
    ensures var s := Add(e, ticker, client, oid, side, price, qty);
            && ApplyAll(copies, s.updates) == copies[ticker := View(s.engine.book)]
            && AllApply(copies, s.updates)
  {
    hide WellFormed, Uncrossed, View, Applicable, FreshKey, OneSidedAt, MatchAll, ApplyAll, AllApply;
    var t := Taker(ticker, client, oid, e.nextId, side, price);
    var m := MatchAll(t, e.book, qty);
    MatchAllReplicates(t, copies, e.book, qty);
    RestIsSafe(t, e.book, qty);
    if m.leaves > 0 {
      var p := NextPriority(m.book, price);
      var u := MarketUpdate(ADD, e.nextId, ticker, side, price, m.leaves, p);
      AddFits(m.book, u);
      RestReplicates(copies[ticker := View(m.book)], ticker, m.book, Order(e.nextId, ClientKey(client, oid), side, price, m.leaves, p));
      ApplyConcat(copies, m.updates, [u]);
    }
  }

  lemma CancelReplicates(copies: Copies, e: Engine, ticker: nat, client: nat, oid: nat)
    requires Good(e) && ticker < |copies| && copies[ticker] == View(e.book)
    ensures var s := CancelOrder(e, ticker, client, oid);
            && ApplyAll(copies, s.updates) == copies[ticker := View(s.engine.book)]
            && AllApply(copies, s.updates)
  {
    var s := CancelOrder(e, ticker, client, oid);
    if s.updates != [] {
      var u := s.updates[0];
      var o :| o in e.book.Values && s.engine.book == e.book - {o.id} && o.id in e.book && e.book[o.id] == o
               && u.orderId == o.id && u.kind == CANCEL && u.side == o.side && u.ticker == ticker && s.updates == [u];
      ViewAt(e.book, o.id);
      hide Good, WellFormed, View, CancelOrder, Apply, Applicable;
      ViewOf(e.book, o);
      KnownOrderFits(View(e.book), u);
      ApplyOne(copies, u);
    }
  }
}
