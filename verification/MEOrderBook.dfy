/** The order book of one ticker at the exchange, on linked lists, refining the matching of sets of orders. */
module MEOrderBooks {
  import opened Types
  import opened BookSpec
  import opened Matching
  import opened Links
  import opened LinkedBooks

  class MEOrderBook {
    const ticker: nat
    const lists: LinkedBook<ClientKey>
    var nextMarketOrderId: nat
    var responses: seq<ClientResponse>   // sent to the order server
    var updates: seq<MarketUpdate>       // sent to the market data publisher

    constructor (ticker: nat)
      ensures Valid() && this.ticker == ticker && State() == Engine(map[], 1)
      ensures responses == [] && updates == [] && fresh(lists) && fresh(lists.Repr)
    {
      this.ticker := ticker;
      lists := new LinkedBook();
      nextMarketOrderId, responses, updates := 1, [], [];
    }

    ghost function State(): Engine
      reads this`nextMarketOrderId, lists`live, lists.live.Values`qty
    {
      Engine(lists.Orders(), nextMarketOrderId)
    }

    ghost predicate Linked()
      reads lists, lists.Repr
    {
      lists.Valid() && this !in lists.Repr
    }

    ghost predicate Valid()
      reads this, lists, lists.Repr
    {
      Linked() && Good(State())
    }

    /** One fill of the incoming order against the head of the best opposite queue. */
    method Match(t: Taker, order: BookOrder<ClientKey>, leavesQty: nat) returns (leaves: nat)
      requires Linked() && order.id in lists.live && lists.live[order.id] == order
      modifies this`responses, this`updates, lists.Repr
      ensures Linked() && fresh(lists.Repr - old(lists.Repr))
      ensures var one := MatchOne(t, old(lists.Orders()), order.id, leavesQty);
              && lists.Orders() == one.book && leaves == one.leaves
              && responses == old(responses) + one.responses
              && updates == old(updates) + one.updates
    {
      hide LinkedBook.Valid, LinkedBook.Orders;
      lists.OrderOf(order);
      ghost var o := order.Value();
      var orderQty := order.qty;
      var fillQty := Min(leavesQty, orderQty);
      leaves := leavesQty - fillQty;
      lists.SetQty(order, orderQty - fillQty);
      SendClientResponse(ClientResponse(FILLED, t.client, t.ticker, t.oid, t.id, t.side, order.price, fillQty, leaves));
      SendClientResponse(ClientResponse(FILLED, order.key.client, t.ticker, order.key.oid, order.id, order.side,
                                        order.price, fillQty, order.qty));
      SendMarketUpdate(MarketUpdate(TRADE, OrderId_INVALID, t.ticker, t.side, order.price, fillQty, Priority_INVALID));
      if order.qty == 0 {
        SendMarketUpdate(MarketUpdate(CANCEL, order.id, t.ticker, order.side, order.price, orderQty, Priority_INVALID));
        assert lists.Orders() - {order.id} == old(lists.Orders()) - {order.id};
        lists.RemoveOrder(order);
      } else {
        SendMarketUpdate(MarketUpdate(MODIFY, order.id, t.ticker, order.side, order.price, order.qty, order.priority));
      }
    }

    /** What is left to do from here leads to `goal`, the state and messages after all matching. */
    ghost predicate Toward(goal: Outcome, t: Taker, leaves: nat)
      reads this`responses, this`updates, lists`live, lists.live.Values`qty
    {
      && WellFormed(lists.Orders())
      && var m := MatchAll(t, lists.Orders(), leaves);
         && m.book == goal.book && m.leaves == goal.leaves
         && responses + m.responses == goal.responses
         && updates + m.updates == goal.updates
    }

    /** The head of the best opposite queue is the order price-time priority asks for. */
    lemma HeadIsNext(t: Taker, leaves: nat)
      requires Linked() && t.side != INVALID && 0 < leaves
      ensures var level := lists.BestLevel(Opposite(t.side));
              && (level == null ==> !CanMatch(t, lists.Orders(), leaves))
              && (level != null ==>
                    var o := level.firstOrder;
                    && o.id in lists.live && lists.live[o.id] == o
                    && HasSide(lists.Orders(), Opposite(t.side))
                    && o.id == BestId(lists.Orders(), Opposite(t.side))
                    && (CanMatch(t, lists.Orders(), leaves) <==> Crosses(t, o.price)))
    {
      hide LinkedBook.Valid, LinkedBook.Orders;
      lists.FirstIsBest(Opposite(t.side));
      var level := lists.BestLevel(Opposite(t.side));
      if level != null {
        var id := BestOpposite(t, lists.Orders());
        BestUnique(lists.Orders(), Opposite(t.side), id, level.firstOrder.id);
        lists.OrderOf(level.firstOrder);
      }
    }

    lemma Depart(t: Taker, qty: nat)
      requires WellFormed(lists.Orders())
      ensures var m := MatchAll(t, lists.Orders(), qty);
              Toward(Outcome(m.book, m.leaves, responses + m.responses, updates + m.updates), t, qty)
    {
    }

    lemma Arrived(goal: Outcome, t: Taker, leaves: nat)
      requires Toward(goal, t, leaves) && (leaves == 0 || !CanMatch(t, lists.Orders(), leaves))
      ensures goal == Outcome(lists.Orders(), leaves, responses, updates)
    {
    }

    /** One pass of the matching loop. */
    method MatchHead(t: Taker, order: BookOrder<ClientKey>, leavesQty: nat, ghost goal: Outcome) returns (leaves: nat)
      requires Linked() && t.side != INVALID && Toward(goal, t, leavesQty) && 0 < leavesQty
      requires order.id in lists.live && lists.live[order.id] == order
      requires CanMatch(t, lists.Orders(), leavesQty) && order.id == BestId(lists.Orders(), Opposite(t.side))
      modifies this`responses, this`updates, lists.Repr
      ensures Linked() && fresh(lists.Repr - old(lists.Repr))
      ensures Toward(goal, t, leaves) && leaves < leavesQty
    {
      hide LinkedBook.Valid, LinkedBook.Orders, MatchOne, WellFormed, CanMatch;
      lists.OrderOf(order);
      MatchOneKeeps(t, lists.Orders(), order.id, leavesQty);
      leaves := Match(t, order, leavesQty);
    }

    method CheckForMatch(t: Taker, qty: nat) returns (leaves: nat)
      requires Linked() && WellFormed(lists.Orders()) && t.side != INVALID
      modifies this`responses, this`updates, lists.Repr
      ensures Linked() && fresh(lists.Repr - old(lists.Repr))
      ensures var m := MatchAll(t, old(lists.Orders()), qty);
              && lists.Orders() == m.book && leaves == m.leaves
              && responses == old(responses) + m.responses
              && updates == old(updates) + m.updates
    {
      hide LinkedBook.Valid, LinkedBook.Orders, WellFormed, CanMatch, HasSide, Toward, MatchAll;
      leaves := qty;
      ghost var m := MatchAll(t, lists.Orders(), qty);
      ghost var goal := Outcome(m.book, m.leaves, responses + m.responses, updates + m.updates);
      assert Toward(goal, t, qty) by { Depart(t, qty); }
      if t.side == BUY {
        while leaves != 0 && lists.asksByPrice != null
          invariant Linked() && fresh(lists.Repr - old(lists.Repr)) && Toward(goal, t, leaves)
          decreases leaves
        {
          var askItr := lists.asksByPrice.firstOrder;
          HeadIsNext(t, leaves);
          if t.limit < askItr.price {
            break;
          }
          leaves := MatchHead(t, askItr, leaves, goal);
        }
      }
      if t.side == SELL {
        while leaves != 0 && lists.bidsByPrice != null
          invariant Linked() && fresh(lists.Repr - old(lists.Repr)) && Toward(goal, t, leaves)
          decreases leaves
        {
          var bidItr := lists.bidsByPrice.firstOrder;
          HeadIsNext(t, leaves);
          if t.limit > bidItr.price {
            break;
          }
          leaves := MatchHead(t, bidItr, leaves, goal);
        }
      }
      if leaves != 0 {
        HeadIsNext(t, leaves);
      }
      Arrived(goal, t, leaves);
    }

    /** All live orders that share the slot of `price` are at price p. */
    ghost predicate SlotAt(price: int, p: int)
      reads lists`live, lists.live.Values`qty
    {
      forall id :: id in lists.Orders() && PriceToIndex(lists.Orders()[id].price) == PriceToIndex(price) ==>
        lists.Orders()[id].price == p
    }

    /** The next priority at whatever price uses the slot; with no order there, at any price. */
    method GetNextPriority(price: int) returns (priority: nat)
      requires Linked()
      ensures exists p :: SlotAt(price, p)
      ensures forall p :: SlotAt(price, p) && PriceToIndex(p) == PriceToIndex(price) ==> priority == NextPriority(lists.Orders(), p)
    {
      hide LinkedBook.Valid, LinkedBook.Orders;
      lists.IndexSize();
      lists.YoungestAt(price);
      var ordersAtPrice := lists.GetOrdersAtPrice(price);
      if ordersAtPrice == null {
        assert SlotAt(price, price);
        priority := 1;
      } else {
        var last := ordersAtPrice.firstOrder.prevOrder;
        assert SlotAt(price, ordersAtPrice.price);
        NextPriorityIs(lists.Orders(), ordersAtPrice.price, last.id);
        lists.OrderOf(last);
        priority := last.priority + 1;
      }
    }

    /** What the priority is good for: it is above all others at the price, whether or not the slot is shared. */
    lemma PriorityIsLast(side: Side, price: int, priority: nat)
      requires WellFormed(lists.Orders()) && OneSidedAt(lists.Orders(), side, price)
      requires exists p :: SlotAt(price, p)
      requires forall p :: SlotAt(price, p) && PriceToIndex(p) == PriceToIndex(price) ==> priority == NextPriority(lists.Orders(), p)
      ensures forall id :: id in lists.Orders() && lists.Orders()[id].price == price ==> lists.Orders()[id].priority < priority
    {
      hide LinkedBook.Orders;
      forall id | id in lists.Orders() && lists.Orders()[id].price == price
        ensures lists.Orders()[id].priority < priority
      {
        var p :| SlotAt(price, p);
        assert p == price;
        NextPriorityIsLast(lists.Orders(), side, price);
      }
    }

    /**
     * Rests what matching left over, at the end of the queue the index yields. The pools' assertions hold and the book
     * stays sound exactly when it is tidy with the order and no live order has its key; then the order has the next
     * priority at its price.
     */
    method RestOrder(t: Taker, leaves: nat) returns (ok: bool)
      requires Linked() && WellFormed(lists.Orders()) && t.side != INVALID && OneSidedAt(lists.Orders(), t.side, t.limit)
      requires forall id :: id in lists.Orders() ==> id < t.id
      modifies this`updates, lists.Repr
      ensures fresh(lists.Repr - old(lists.Repr)) && old(updates) <= updates
      ensures var p := NextPriority(old(lists.Orders()), t.limit);
              var book := old(lists.Orders())[t.id := Order(t.id, ClientKey(t.client, t.oid), t.side, t.limit, leaves, p)];
              && (ok && Linked() <==> Tidy(book) && FreshKey(old(lists.Orders()), ClientKey(t.client, t.oid)))
              && (ok && Linked() ==>
                    && lists.Orders() == book
                    && updates == old(updates) + [MarketUpdate(ADD, t.id, t.ticker, t.side, t.limit, leaves, p)])
    {
      hide LinkedBook.Valid, LinkedBook.Orders, LinkedBook.Ringed, WellFormed, Tidy, OneSidedAt, FreshKey, SlotAt, NextPriority, HasPrice, IsLast;
      var priority := GetNextPriority(t.limit);
      ghost var book, o := lists.Orders(), Order(t.id, ClientKey(t.client, t.oid), t.side, t.limit, leaves, priority);
      CanRest(o);
      PriorityDoesNotMatter(book, o, NextPriority(book, t.limit));
      PriorityIsNext(o);
      ok := lists.NewOrder(t.id, ClientKey(t.client, t.oid), t.side, t.limit, leaves, priority);
      if ok {
        SendMarketUpdate(MarketUpdate(ADD, t.id, t.ticker, t.side, t.limit, leaves, priority));
      }
    }

    /** What NewOrder asks for. */
    lemma CanRest(o: Order<ClientKey>)
      requires Linked() && WellFormed(lists.Orders()) && OneSidedAt(lists.Orders(), o.side, o.price)
      requires forall id :: id in lists.Orders() ==> id < o.id
      requires exists p :: SlotAt(o.price, p)
      requires forall p :: SlotAt(o.price, p) && PriceToIndex(p) == PriceToIndex(o.price) ==> o.priority == NextPriority(lists.Orders(), p)
      ensures o.id !in lists.live && o.id !in lists.Orders()
      ensures InTurn(lists.Orders(), o) <==> FreshKey(lists.Orders(), o.key)
    {
      hide LinkedBook.Valid, LinkedBook.Orders, WellFormed;
      PriorityIsLast(o.side, o.price, o.priority);
      lists.OrdersAreLive();
    }

    /** In a book with one price per slot the priority is the next at the order's own price. */
    lemma PriorityIsNext(o: Order<ClientKey>)
      requires o.id !in lists.Orders()
      requires forall p :: SlotAt(o.price, p) && PriceToIndex(p) == PriceToIndex(o.price) ==> o.priority == NextPriority(lists.Orders(), p)
      ensures Tidy(lists.Orders()[o.id := o]) ==> o.priority == NextPriority(lists.Orders(), o.price)
    {
      hide LinkedBook.Orders;
      if OneSlotEach(lists.Orders()[o.id := o]) {
        FitsAtOwnPrice(lists.Orders(), o);
      }
    }

    lemma FitsAtOwnPrice(before: Book<ClientKey>, o: Order<ClientKey>)
      requires before == lists.Orders() && o.id !in before && OneSlotEach(before[o.id := o])
      ensures SlotAt(o.price, o.price)
    {
      hide LinkedBook.Orders;
      var after := before[o.id := o];
      assert after[o.id].price == o.price;
      assert forall id :: id in before ==> id in after && after[id] == before[id];
    }

    lemma PriorityDoesNotMatter(before: Book<ClientKey>, o: Order<ClientKey>, p: nat)
      ensures Tidy(before[o.id := o]) <==> Tidy(before[o.id := o.(priority := p)])
    {
      var a, b := before[o.id := o], before[o.id := o.(priority := p)];
      assert a.Keys == b.Keys && forall id :: id in a ==> a[id].price == b[id].price;
      if Tidy(a) {
        TidyPart(b, a);
      }
      if Tidy(b) {
        TidyPart(a, b);
      }
    }

    /**
     * `add`. What it does is the specified step exactly when the book after it is tidy and its keys are unique: otherwise
     * an order is queued at another price, an order can no longer be looked up, or a pool stops the program.
     */
    method Add(client: nat, oid: nat, side: Side, price: int, qty: nat) returns (ok: bool)
      requires Valid() && side != INVALID && client < ME_MAX_NUM_CLIENTS && oid < ME_MAX_ORDER_IDS
      modifies this, lists.Repr
      ensures fresh(lists.Repr - old(lists.Repr)) && old(responses) <= responses && old(updates) <= updates
      ensures var s := Matching.Add(old(State()), ticker, client, oid, side, price, qty);
              && (ok && Linked() <==> Tidy(s.engine.book) && OwnKeys(s.engine.book))
              && (ok && Linked() ==>
                    && Valid() && State() == s.engine
                    && responses == old(responses) + s.responses
                    && updates == old(updates) + s.updates)
    {
      hide LinkedBook.Valid, LinkedBook.Orders, WellFormed, CanMatch, HasSide, MatchAll, Uncrossed, Tidy, OwnKeys, FreshKey;
      AddKeepsGood(State(), ticker, client, oid, side, price, qty);
      var id := nextMarketOrderId;
      nextMarketOrderId := nextMarketOrderId + 1;
      var t := Taker(ticker, client, oid, id, side, price);
      RestIsSafe(t, lists.Orders(), qty);
      SendClientResponse(ClientResponse(ACCEPTED, client, ticker, oid, id, side, price, 0, qty));
      var leaves := CheckForMatch(t, qty);
      ok := true;
      if leaves != 0 {
        ghost var book := lists.Orders();
        RestKey(book, Order(id, ClientKey(client, oid), side, price, leaves, NextPriority(book, price)));
        ok := RestOrder(t, leaves);
      } else {
        KeysInGood(lists.Orders());
        lists.ValidIsTidy();
      }
    }

    method Cancel(client: nat, oid: nat)
      requires Valid() && oid < ME_MAX_ORDER_IDS
      modifies this, lists.Repr
      ensures Valid() && fresh(lists.Repr - old(lists.Repr))
      ensures var s := CancelOrder(old(State()), ticker, client, oid);
              && State() == s.engine
              && responses == old(responses) + s.responses
              && updates == old(updates) + s.updates
    {
      hide LinkedBook.Valid, LinkedBook.Orders, WellFormed, Good;
      CancelKeepsGood(State(), ticker, client, oid);
      var key := ClientKey(client, oid);
      lists.KeyOf(key);
      if client < ME_MAX_NUM_CLIENTS && key in lists.orderIndex {
        var order := lists.orderIndex[key];
        lists.OrderOf(order);
        var response := ClientResponse(CANCELED, client, ticker, oid, order.id, order.side, order.price, Qty_INVALID, order.qty);
        var update := MarketUpdate(CANCEL, order.id, ticker, order.side, order.price, 0, order.priority);
        lists.RemoveOrder(order);
        SendMarketUpdate(update);
        SendClientResponse(response);
      } else {
        SendClientResponse(ClientResponse(CANCEL_REJECTED, client, ticker, oid, OrderId_INVALID, INVALID, Price_INVALID,
                                          Qty_INVALID, Qty_INVALID));
      }
    }

    method SendClientResponse(response: ClientResponse)
      modifies this`responses
      ensures responses == old(responses) + [response]
    {
      responses := responses + [response];
    }

    method SendMarketUpdate(update: MarketUpdate)
      modifies this`updates
      ensures updates == old(updates) + [update]
    {
      updates := updates + [update];
    }
  }
}
