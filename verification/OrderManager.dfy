/** The order manager and the part of the trade engine that feeds it, on arrays and objects, step by step the protocol's functions. */
module OrderManagers {
  import opened Types
  import opened RiskManagement
  import opened PositionKeeping
  import opened OrderProtocol

  type PositionInfos = seq<PositionInfo>

  class OrderManager {
    const clientId: nat
    const cfgs: seq<RiskCfg>
    const positions: PositionInfos
    const tickerSideOrder: array2<OMOrder>
    var nextOrderId: nat
    var sent: seq<Request>   // handed to the order gateway

    ghost predicate Valid() {
      && tickerSideOrder.Length0 == ME_MAX_TICKERS && tickerSideOrder.Length1 == 3
      && |cfgs| == |positions| == ME_MAX_TICKERS
    }

    constructor (clientId: nat, cfgs: seq<RiskCfg>, positions: PositionInfos)
      requires |cfgs| == |positions| == ME_MAX_TICKERS
      ensures Valid() && this.clientId == clientId && this.cfgs == cfgs && this.positions == positions
      ensures State() == OrderProtocol.Start().manager && sent == [] && fresh(tickerSideOrder)
    {
      this.clientId, this.cfgs, this.positions := clientId, cfgs, positions;
      tickerSideOrder := new OMOrder[ME_MAX_TICKERS, 3]((_, _) => Blank());
      nextOrderId, sent := 1, [];
    }

    ghost function Row(t: nat): seq<OMOrder>
      requires Valid() && t < ME_MAX_TICKERS
      reads tickerSideOrder
    {
      [tickerSideOrder[t, 0], tickerSideOrder[t, 1], tickerSideOrder[t, 2]]
    }

    ghost function State(): (m: Manager)
      requires Valid()
      reads this`nextOrderId, tickerSideOrder
      ensures Shaped(m)
    {
      Manager(seq(ME_MAX_TICKERS, t requires 0 <= t < ME_MAX_TICKERS reads tickerSideOrder => Row(t)), nextOrderId)
    }

    method SetSlot(t: nat, side: Side, o: OMOrder)
      requires Valid() && t < ME_MAX_TICKERS
      modifies tickerSideOrder
      ensures State() == WithSlot(old(State()), t, side, o)
    {
      tickerSideOrder[t, SideToIndex(side)] := o;
      forall u | 0 <= u < ME_MAX_TICKERS
        ensures Row(u) == if u == t then old(Row(t))[SideToIndex(side) := o] else old(Row(u))
      {
      }
    }

    method NewOrder(ticker: nat, price: int, side: Side, qty: nat)
      requires Valid() && ticker < ME_MAX_TICKERS
      modifies this, tickerSideOrder
      ensures var moved := OrderProtocol.NewOrder(old(State()), clientId, ticker, price, side, qty);
              State() == moved.manager && sent == old(sent) + moved.sent
    {
      sent := sent + [New(clientId, ticker, nextOrderId, side, price, qty)];
      SetSlot(ticker, side, OMOrder(ticker, nextOrderId, side, price, qty, PENDING_NEW));
      nextOrderId := nextOrderId + 1;
    }

    method CancelOrder(ticker: nat, side: Side)
      requires Valid() && ticker < ME_MAX_TICKERS
      modifies this, tickerSideOrder
      ensures var moved := CancelSlot(old(State()), clientId, ticker, side);
              State() == moved.manager && sent == old(sent) + moved.sent
    {
      var order := tickerSideOrder[ticker, SideToIndex(side)];
      sent := sent + [Cancel(clientId, order.ticker, order.oid)];
      SetSlot(ticker, side, order.(state := PENDING_CANCEL));
    }

    /** The risk manager's answer for the position as it is now. */
    function Risk(ticker: nat, side: Side, qty: nat): RiskCheckResult
      requires Valid() && ticker < ME_MAX_TICKERS
      reads positions[ticker]
    {
      CheckPreTradeRisk(cfgs[ticker], positions[ticker].position, positions[ticker].totalPnl, side, qty)
    }

    /** A new order would be within the limits, with position and profit as they are now. */
    predicate Permits(ticker: nat, side: Side, qty: nat)
      requires Valid() && ticker < ME_MAX_TICKERS
      reads positions[ticker]
    {
      Permitted(cfgs[ticker], positions[ticker].position, positions[ticker].totalPnl, side, qty)
    }

    lemma SlotIs(t: nat, side: Side)
      requires Valid() && t < ME_MAX_TICKERS
      ensures tickerSideOrder[t, SideToIndex(side)] == Slot(State(), t, side)
    {
    }

    lemma Moves(ticker: nat, price: int, side: Side, qty: nat)
      requires Valid() && ticker < ME_MAX_TICKERS
      ensures CfgFits(cfgs[ticker]) && Abs(positions[ticker].position) <= cfgs[ticker].maxPosition ==>
                var moved := OrderProtocol.MoveOrder(State(), clientId, ticker, price, side, qty, Risk(ticker, side, qty));
                MovesExactly(State(), clientId, ticker, side, price, qty, Permits(ticker, side, qty), moved.manager, moved.sent)
    {
      hide CheckPreTradeRisk, Permitted, OrderManager.State, MovesExactly, OrderProtocol.MoveOrder;
      var position := positions[ticker];
      if CfgFits(cfgs[ticker]) && Abs(position.position) <= cfgs[ticker].maxPosition {
        MoveExactly(State(), clientId, ticker, side, price, qty, cfgs[ticker], position.position, position.totalPnl);
      }
    }

    method MoveOrder(ticker: nat, price: int, side: Side, qty: nat)
      requires Valid() && ticker < ME_MAX_TICKERS
      modifies this, tickerSideOrder
      ensures var moved := OrderProtocol.MoveOrder(old(State()), clientId, ticker, price, side, qty, old(Risk(ticker, side, qty)));
              State() == moved.manager && sent == old(sent) + moved.sent
      ensures CfgFits(cfgs[ticker]) && Abs(positions[ticker].position) <= cfgs[ticker].maxPosition ==>
                && old(sent) <= sent
                && MovesExactly(old(State()), clientId, ticker, side, price, qty, Permits(ticker, side, qty), State(), sent[|old(sent)|..])
    {
      hide CheckPreTradeRisk, Permitted, OrderManager.State;
      Moves(ticker, price, side, qty);
      var order := tickerSideOrder[ticker, SideToIndex(side)];
      SlotIs(ticker, side);
      match order.state {
        case LIVE =>
          if order.price != price {
            CancelOrder(ticker, side);
          }
        case UNUSED =>
          if price != Price_INVALID {
            NewIfAllowed(ticker, price, side, qty);
          }
        case DEAD =>
          if price != Price_INVALID {
            NewIfAllowed(ticker, price, side, qty);
          }
        case PENDING_NEW =>
        case PENDING_CANCEL =>
      }
    }

    method NewIfAllowed(ticker: nat, price: int, side: Side, qty: nat)
      requires Valid() && ticker < ME_MAX_TICKERS
      modifies this, tickerSideOrder
      ensures old(Risk(ticker, side, qty)) == ALLOWED ==>
                var moved := OrderProtocol.NewOrder(old(State()), clientId, ticker, price, side, qty);
                State() == moved.manager && sent == old(sent) + moved.sent
      ensures old(Risk(ticker, side, qty)) != ALLOWED ==> State() == old(State()) && sent == old(sent)
    {
      var riskResult := Risk(ticker, side, qty);
      if riskResult == ALLOWED {
        NewOrder(ticker, price, side, qty);
      }
    }

    /** Both sides in turn, each checked against the same position. */
    method MoveOrders(ticker: nat, bidPrice: int, askPrice: int, clip: nat)
      requires Valid() && ticker < ME_MAX_TICKERS
      modifies this, tickerSideOrder
      ensures var bid := OrderProtocol.MoveOrder(old(State()), clientId, ticker, bidPrice, BUY, clip, old(Risk(ticker, BUY, clip)));
              Shaped(bid.manager)
              && var ask := OrderProtocol.MoveOrder(bid.manager, clientId, ticker, askPrice, SELL, clip, old(Risk(ticker, SELL, clip)));
                 State() == ask.manager && sent == old(sent) + bid.sent + ask.sent
    {
      MoveOrder(ticker, bidPrice, BUY, clip);
      MoveOrder(ticker, askPrice, SELL, clip);
    }

    method OnOrderUpdate(r: ClientResponse)
      requires Valid() && r.ticker < ME_MAX_TICKERS
      modifies tickerSideOrder
      ensures State() == OrderProtocol.OnOrderUpdate(old(State()), r)
    {
      var order := tickerSideOrder[r.ticker, SideToIndex(r.side)];
      assert order == Slot(State(), r.ticker, r.side);
      match r.kind {
        case ACCEPTED =>
          SetSlot(r.ticker, r.side, order.(state := LIVE));
        case CANCELED =>
          SetSlot(r.ticker, r.side, order.(state := DEAD));
        case FILLED =>
          order := order.(qty := r.leavesQty);
          if order.qty == 0 {
            order := order.(state := DEAD);
          }
          SetSlot(r.ticker, r.side, order);
        case CANCEL_REJECTED =>
          SameSlot(State(), r.ticker, r.side);
      }
    }
  }

  class TradeEngine {
    const orderManager: OrderManager

    constructor (orderManager: OrderManager)
      ensures this.orderManager == orderManager
    {
      this.orderManager := orderManager;
    }

    /** A fill reaches the position before the response reaches its slot. */
    method OnOrderUpdate(r: ClientResponse)
      requires orderManager.Valid() && r.ticker < ME_MAX_TICKERS && (r.kind == FILLED ==> r.side != INVALID)
      requires orderManager.positions[r.ticker].Valid()
      modifies orderManager.tickerSideOrder, orderManager.positions[r.ticker], orderManager.positions[r.ticker].openVwap
      ensures orderManager.State() == OrderProtocol.OnOrderUpdate(old(orderManager.State()), r)
      ensures var position := orderManager.positions[r.ticker];
              && position.Valid()
              && position.ledger == if r.kind == FILLED then Filled(old(position.ledger), Fill(r.side, r.price, r.execQty))
                                    else old(position.ledger)
    {
      if r.kind == FILLED {
        orderManager.positions[r.ticker].AddFill(Fill(r.side, r.price, r.execQty));
      }
      orderManager.OnOrderUpdate(r);
    }
  }
}
