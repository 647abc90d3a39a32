/** Order slots of one client, its requests in flight and the exchange, step by step in every interleaving. */
module OrderProtocol {
  import opened Types
  import opened Exchange
  import opened RiskManagement

  // UNUSED is the initial state, in which the slot has held no order.
  datatype OMOrderState = UNUSED | PENDING_NEW | LIVE | PENDING_CANCEL | DEAD

  datatype OMOrder = OMOrder(ticker: nat, oid: nat, side: Side, price: int, qty: nat, state: OMOrderState)

  function Blank(): OMOrder {
    OMOrder(TickerId_INVALID, OrderId_INVALID, INVALID, Price_INVALID, Qty_INVALID, UNUSED)
  }

  type Slots = seq<seq<OMOrder>>

  datatype Manager = Manager(slots: Slots, nextOid: nat)

  predicate Shaped(m: Manager) {
    |m.slots| == ME_MAX_TICKERS && forall t :: 0 <= t < |m.slots| ==> |m.slots[t]| == 3
  }

  function Slot(m: Manager, t: nat, side: Side): OMOrder
    requires Shaped(m) && t < ME_MAX_TICKERS
  {
    m.slots[t][SideToIndex(side)]
  }

  function WithSlot(m: Manager, t: nat, side: Side, o: OMOrder): (r: Manager)
    requires Shaped(m) && t < ME_MAX_TICKERS
    ensures Shaped(r) && r.nextOid == m.nextOid
    ensures forall u: nat, x :: u < ME_MAX_TICKERS ==> Slot(r, u, x) == if u == t && x == side then o else Slot(m, u, x)
  {
    m.(slots := m.slots[t := m.slots[t][SideToIndex(side) := o]])
  }

  lemma SameSlot(m: Manager, t: nat, side: Side)
    requires Shaped(m) && t < ME_MAX_TICKERS
    ensures WithSlot(m, t, side, Slot(m, t, side)) == m
  {
    var i := SideToIndex(side);
    assert m.slots[t][i := m.slots[t][i]] == m.slots[t];
    assert m.slots[t := m.slots[t]] == m.slots;
  }

  /** A manager after one call and the requests the call sent. */
  datatype Moved = Moved(manager: Manager, sent: seq<Request>)

  function NewOrder(m: Manager, client: nat, ticker: nat, price: int, side: Side, qty: nat): Moved
    requires Shaped(m) && ticker < ME_MAX_TICKERS
  {
    Moved(WithSlot(m, ticker, side, OMOrder(ticker, m.nextOid, side, price, qty, PENDING_NEW)).(nextOid := m.nextOid + 1),
          [New(client, ticker, m.nextOid, side, price, qty)])
  }

  function CancelSlot(m: Manager, client: nat, ticker: nat, side: Side): Moved
    requires Shaped(m) && ticker < ME_MAX_TICKERS
  {
    var o := Slot(m, ticker, side);
    Moved(WithSlot(m, ticker, side, o.(state := PENDING_CANCEL)), [Cancel(client, o.ticker, o.oid)])
  }

  /** `moveOrder`: cancel a live order at another price, send a new one into a free slot if risk allows. */
  function MoveOrder(m: Manager, client: nat, ticker: nat, price: int, side: Side, qty: nat, risk: RiskCheckResult): Moved
    requires Shaped(m) && ticker < ME_MAX_TICKERS
  {
    var o := Slot(m, ticker, side);
    match o.state
    case LIVE => if o.price != price then CancelSlot(m, client, ticker, side) else Moved(m, [])
    case UNUSED => if price != Price_INVALID && risk == ALLOWED then NewOrder(m, client, ticker, price, side, qty) else Moved(m, [])
    case DEAD => if price != Price_INVALID && risk == ALLOWED then NewOrder(m, client, ticker, price, side, qty) else Moved(m, [])
    case _ => Moved(m, [])
  }

  /** A live order at another price is cancelled. */
  predicate Cancels(m: Manager, client: nat, t: nat, side: Side, price: int, n: Manager, sent: seq<Request>)
    requires Shaped(m) && t < ME_MAX_TICKERS
  {
    var o := Slot(m, t, side);
    && o.state == LIVE && o.price != price
    && sent == [Cancel(client, o.ticker, o.oid)] && n == WithSlot(m, t, side, o.(state := PENDING_CANCEL))
  }

  /** A free slot takes a new order at the price, with the next id. */
  predicate Opens(m: Manager, client: nat, t: nat, side: Side, price: int, qty: nat, n: Manager, sent: seq<Request>)
    requires Shaped(m) && t < ME_MAX_TICKERS
  {
    var o := Slot(m, t, side);
    && (o.state == UNUSED || o.state == DEAD) && price != Price_INVALID
    && sent == [New(client, t, m.nextOid, side, price, qty)]
    && n == WithSlot(m, t, side, OMOrder(t, m.nextOid, side, price, qty, PENDING_NEW)).(nextOid := m.nextOid + 1)
  }

  /** What a move has to do: `may` says that a new order is within the limits. */
  predicate MovesExactly(m: Manager, client: nat, t: nat, side: Side, price: int, qty: nat, may: bool, n: Manager, sent: seq<Request>)
    requires Shaped(m) && t < ME_MAX_TICKERS
  {
    var o := Slot(m, t, side);
    && (o.state == LIVE && o.price != price ==> Cancels(m, client, t, side, price, n, sent))
    && ((o.state == UNUSED || o.state == DEAD) && price != Price_INVALID && may ==> Opens(m, client, t, side, price, qty, n, sent))
    && (o.state == LIVE && o.price == price ==> sent == [] && n == m)
    && (o.state == PENDING_NEW || o.state == PENDING_CANCEL ==> sent == [] && n == m)
    && ((o.state == UNUSED || o.state == DEAD) && (price == Price_INVALID || !may) ==> sent == [] && n == m)
  }

  lemma MoveExactly(m: Manager, client: nat, t: nat, side: Side, price: int, qty: nat, cfg: RiskCfg, position: int, totalPnl: real)
    requires Shaped(m) && t < ME_MAX_TICKERS && CfgFits(cfg) && Abs(position) <= cfg.maxPosition
    ensures var moved := MoveOrder(m, client, t, price, side, qty, CheckPreTradeRisk(cfg, position, totalPnl, side, qty));
            MovesExactly(m, client, t, side, price, qty, Permitted(cfg, position, totalPnl, side, qty), moved.manager, moved.sent)
  {
    AllowedExactly(cfg, position, totalPnl, side, qty);
    hide CheckPreTradeRisk, Permitted;
  }

  /** What a response does to the slot it is routed to. */
  function Updated(o: OMOrder, r: ClientResponse): OMOrder {
    match r.kind
    case ACCEPTED => o.(state := LIVE)
    case CANCELED => o.(state := DEAD)
    case FILLED => o.(qty := r.leavesQty, state := if r.leavesQty == 0 then DEAD else o.state)
    case CANCEL_REJECTED => o
  }

  /** `onOrderUpdate` */
  function OnOrderUpdate(m: Manager, r: ClientResponse): (n: Manager)
    requires Shaped(m) && r.ticker < ME_MAX_TICKERS
    ensures Shaped(n) && n.nextOid == m.nextOid
    ensures forall t: nat, side :: t < ME_MAX_TICKERS && (t != r.ticker || side != r.side) ==> Slot(n, t, side) == Slot(m, t, side)
    ensures r.kind == CANCEL_REJECTED ==> n == m
  {
    SameSlot(m, r.ticker, r.side);
    WithSlot(m, r.ticker, r.side, Updated(Slot(m, r.ticker, r.side), r))
  }

  // ---- The system ----

  /**
   * Exchange, requests in flight (a multiset: they may arrive in any order), how far the client has read the
   * exchange's responses, its slots and positions, and, for the record, the NEW requests it has sent by order id.
   */
  datatype System = System(venue: Venue, pending: multiset<Request>, seen: nat, manager: Manager,
                           positions: seq<int>, orders: map<nat, Request>)

  function Start(): System {
    System(Opened(), multiset{}, 0, Manager(seq(ME_MAX_TICKERS, _ => [Blank(), Blank(), Blank()]), 1),
           seq(ME_MAX_TICKERS, _ => 0), map[])
  }

  datatype Event =
    | Move(ticker: nat, side: Side, price: int, qty: nat, totalPnl: real)   // the strategy moves one order
    | Deliver(req: Request)                                                 // a request in flight reaches the exchange
    | Other(req: Request)                                                   // another client's request does
    | Read                                                                  // the client takes the next response

  /** One client and its risk limits per ticker. */
  datatype Client = Client(id: nat, cfgs: seq<RiskCfg>)

  predicate Fits(c: Client) {
    c.id < ME_MAX_NUM_CLIENTS && |c.cfgs| == ME_MAX_TICKERS && forall t :: 0 <= t < |c.cfgs| ==> CfgFits(c.cfgs[t])
  }

  ghost predicate Formed(s: System) {
    Sound(s.venue) && Shaped(s.manager) && |s.positions| == ME_MAX_TICKERS && s.seen <= |s.venue.responses|
  }

  function AfterMove(c: Client, s: System, e: Event): System
    requires Shaped(s.manager) && |s.positions| == ME_MAX_TICKERS && Fits(c) && e.Move? && e.ticker < ME_MAX_TICKERS
  {
    var risk := CheckPreTradeRisk(c.cfgs[e.ticker], s.positions[e.ticker], e.totalPnl, e.side, e.qty);
    var moved := MoveOrder(s.manager, c.id, e.ticker, e.price, e.side, e.qty, risk);
    s.(manager := moved.manager, pending := s.pending + multiset(moved.sent),
       orders := if moved.sent != [] && moved.sent[0].New? then s.orders[moved.sent[0].oid := moved.sent[0]] else s.orders)
  }

  /** A fill is booked before the slot is updated. */
  function AfterRead(c: Client, s: System): System
    requires Shaped(s.manager) && |s.positions| == ME_MAX_TICKERS && s.seen < |s.venue.responses|
    requires s.venue.responses[s.seen].ticker < ME_MAX_TICKERS
  {
    var r := s.venue.responses[s.seen];
    if r.client != c.id then
      s.(seen := s.seen + 1)
    else
      var booked := if r.kind == FILLED then s.positions[r.ticker := s.positions[r.ticker] + r.execQty * SideToValue(r.side)]
                    else s.positions;
      s.(seen := s.seen + 1, positions := booked, manager := OnOrderUpdate(s.manager, r))
  }

  /** The system after one event, if the event can happen. */
  ghost function Next(c: Client, s: System, e: Event): Option<System>
    requires Formed(s) && Fits(c)
  {
    match e
    case Move(ticker, side, _, _, _) =>
      if ticker < ME_MAX_TICKERS && side != INVALID then Some(AfterMove(c, s, e)) else None
    case Deliver(req) =>
      if req in s.pending && Admissible(s.venue, req)
      then Some(s.(venue := Process(s.venue, req), pending := s.pending - multiset{req})) else None
    case Other(req) =>
      if req.client != c.id && Admissible(s.venue, req) then Some(s.(venue := Process(s.venue, req))) else None
    case Read =>
      if s.seen < |s.venue.responses| && s.venue.responses[s.seen].ticker < ME_MAX_TICKERS
      then Some(AfterRead(c, s)) else None
  }

  lemma NextFormed(c: Client, s: System, e: Event)
    requires Formed(s) && Fits(c) && Next(c, s, e).Some?
    ensures Formed(Next(c, s, e).value)
  {
  }

  /** The state after a sequence of events. */
  ghost function Run(c: Client, events: seq<Event>): (r: Option<System>)
    requires Fits(c)
    ensures r.Some? ==> Formed(r.value)
  {
    if events == [] then
      Some(Start())
    else
      match Run(c, events[..|events| - 1])
      case None => None
      case Some(s) =>
        var e := events[|events| - 1];
        if Next(c, s, e).Some? then NextFormed(c, s, e); Next(c, s, e) else None
  }
}
