/** Whole trading sessions on the client's objects: they follow the protocol, and its bounds hold of the objects. */
module TradingRuns {
  import opened Types
  import opened BookSpec
  import opened Exchange
  import opened RiskManagement
  import opened PositionKeeping
  import opened OrderProtocol
  import opened ProtocolSafety
  import opened ProtocolResults
  import opened OrderPrices
  import opened OrderManagers
  import opened LinkedBooks
  import opened MatchingEngines

  /** What happens in a session: the client's own calls and responses, and the exchange at work. */
  datatype Act =
    | Place(ticker: nat, side: Side, price: int, qty: nat)   // `moveOrder`
    | Quote(ticker: nat, bid: int, ask: int)                 // the position keeper sees a BBO
    | Arrives(req: Request)                                  // a request in flight reaches the exchange
    | Foreign(req: Request)                                  // another client's request does
    | Take(r: ClientResponse)                                // the exchange's next response

  /** The protocol's state, with the ledgers of the positions and the requests that have arrived. */
  datatype Session = Session(system: System, ledgers: seq<Ledger>, arrived: multiset<Request>)

  function Begin(): Session {
    Session(Start(), seq(ME_MAX_TICKERS, _ => Opening()), multiset{})
  }

  /** The profit that the risk check sees. */
  function TotalPnl(l: Ledger): real {
    l.cash + l.position as real * l.mark
  }

  function Booking(c: Client, ls: seq<Ledger>, r: ClientResponse): seq<Ledger> {
    if r.client == c.id && r.kind == FILLED && r.ticker < |ls|
    then ls[r.ticker := Filled(ls[r.ticker], Fill(r.side, r.price, r.execQty))] else ls
  }

  /** The protocol event of an act; quotes are none. */
  function EventOf(s: Session, a: Act): Event
    requires |s.ledgers| == ME_MAX_TICKERS && !a.Quote? && (a.Place? ==> a.ticker < ME_MAX_TICKERS)
  {
    match a
    case Place(t, side, price, qty) => Move(t, side, price, qty, TotalPnl(s.ledgers[t]))
    case Arrives(req) => Deliver(req)
    case Foreign(req) => Other(req)
    case Take(_) => Read
  }

  /** The act can happen: known tickers, and a response only if it is the next one. */
  predicate Possible(s: Session, a: Act) {
    match a
    case Place(t, _, _, _) => t < ME_MAX_TICKERS
    case Quote(t, _, _) => t < ME_MAX_TICKERS
    case Take(r) => s.system.seen < |s.system.venue.responses| && s.system.venue.responses[s.system.seen] == r
    case _ => true
  }

  ghost function AfterAct(c: Client, s: Session, a: Act): Option<Session>
    requires Fits(c) && Formed(s.system) && |s.ledgers| == ME_MAX_TICKERS
  {
    if !Possible(s, a) then None
    else if a.Quote? then Some(s.(ledgers := s.ledgers[a.ticker := Marked(s.ledgers[a.ticker], a.bid, a.ask)]))
    else
      match Next(c, s.system, EventOf(s, a))
      case None => None
      case Some(n) =>
        Some(Session(n, if a.Take? then Booking(c, s.ledgers, a.r) else s.ledgers,
                     if a.Arrives? then s.arrived + multiset{a.req} else s.arrived))
  }

  /** The state after a session, if every act could happen. */
  ghost function Traded(c: Client, acts: seq<Act>): (r: Option<Session>)
    requires Fits(c)
    ensures r.Some? ==> Formed(r.value.system) && |r.value.ledgers| == ME_MAX_TICKERS
  {
    if acts == [] then
      Some(Begin())
    else
      match Traded(c, acts[..|acts| - 1])
      case None => None
      case Some(s) =>
        var a := acts[|acts| - 1];
        if Possible(s, a) && !a.Quote? && Next(c, s.system, EventOf(s, a)).Some? then
          NextFormed(c, s.system, EventOf(s, a)); AfterAct(c, s, a)
        else if a.Quote? then AfterAct(c, s, a) else None
  }

  /** The requests that reach the exchange in a session. */
  function Reaching(acts: seq<Act>): seq<Request> {
    if acts == [] then []
    else
      var a := acts[|acts| - 1];
      Reaching(acts[..|acts| - 1]) +
      match a
      case Arrives(req) => [req]
      case Foreign(req) => [req]
      case _ => []
  }

  /** A session is a run of the protocol. */
  lemma {:induction false} SessionsAreRuns(c: Client, acts: seq<Act>) returns (events: seq<Event>)
    requires Fits(c) && Traded(c, acts).Some?
    ensures Run(c, events) == Some(Traded(c, acts).value.system) && Served(events) == Reaching(acts)
  {
    hide Next, Formed;
    if acts == [] {
      events := [];
    } else {
      var a := acts[|acts| - 1];
      var s := Traded(c, acts[..|acts| - 1]).value;
      events := SessionsAreRuns(c, acts[..|acts| - 1]);
      if !a.Quote? {
        var e := EventOf(s, a);
        RunMore(c, events, e);
        assert (events + [e])[..|events + [e]| - 1] == events;
        events := events + [e];
      }
    }
  }

  /** The ledgers hold the protocol's positions. */
  ghost predicate Agree(s: Session) {
    && |s.ledgers| == |s.system.positions| == ME_MAX_TICKERS
    && forall t :: 0 <= t < ME_MAX_TICKERS ==> s.ledgers[t].position == s.system.positions[t]
  }

  lemma BookingAgrees(c: Client, s: Session, r: ClientResponse)
    requires Fits(c) && Formed(s.system) && Agree(s) && Possible(s, Take(r)) && r.ticker < ME_MAX_TICKERS
    ensures Agree(Session(AfterRead(c, s.system), Booking(c, s.ledgers, r), s.arrived))
  {
  }

  lemma ActAgrees(c: Client, s: Session, a: Act)
    requires Fits(c) && Formed(s.system) && Agree(s) && AfterAct(c, s, a).Some?
    ensures Agree(AfterAct(c, s, a).value)
  {
    hide Process, Admissible, Exchange.Sound, OnOrderUpdate, Filled;
    if a.Take? {
      BookingAgrees(c, s, a.r);
    }
  }

  lemma {:induction false} SessionAgrees(c: Client, acts: seq<Act>)
    requires Fits(c) && Traded(c, acts).Some?
    ensures Agree(Traded(c, acts).value)
  {
    hide Next, Formed;
    if acts != [] {
      SessionAgrees(c, acts[..|acts| - 1]);
      ActAgrees(c, Traded(c, acts[..|acts| - 1]).value, acts[|acts| - 1]);
    }
  }

  /** What the protocol guarantees after a session. */
  lemma SessionIsSafe(c: Client, acts: seq<Act>)
    requires Fits(c) && Traded(c, acts).Some?
    ensures var s := Traded(c, acts).value;
            && Inv(c, s.system) && Agree(s)
            && forall t :: 0 <= t < ME_MAX_TICKERS ==> Abs(s.system.positions[t]) <= c.cfgs[t].maxPosition
  {
    hide Inv, Formed, Traded, Run;
    var events := SessionsAreRuns(c, acts);
    RunInv(c, events);
    SessionAgrees(c, acts);
    forall t | 0 <= t < ME_MAX_TICKERS
      ensures Abs(Traded(c, acts).value.system.positions[t]) <= c.cfgs[t].maxPosition
    {
      PositionAlwaysBounded(c, events, t);
    }
  }

  // ---- Profit, from the session's fills and quotes alone ----

  /** A fill of the client in ticker t that it takes. */
  predicate IsFill(c: Client, a: Act, t: nat) {
    a.Take? && a.r.client == c.id && a.r.kind == FILLED && a.r.ticker == t
  }

  /** Bought less sold. */
  function Held(c: Client, acts: seq<Act>, t: nat): int {
    if acts == [] then 0
    else
      var a := acts[|acts| - 1];
      Held(c, acts[..|acts| - 1], t) + if IsFill(c, a, t) then Signed(a.r.side, a.r.execQty) else 0
  }

  /** Paid less received. */
  function Spent(c: Client, acts: seq<Act>, t: nat): int {
    if acts == [] then 0
    else
      var a := acts[|acts| - 1];
      Spent(c, acts[..|acts| - 1], t) + if IsFill(c, a, t) then Signed(a.r.side, a.r.execQty) * a.r.price else 0
  }

  /** Twice the last price that marked the position: a fill's, or the mid of two quotes that found it open. */
  function TwiceMark(c: Client, acts: seq<Act>, t: nat): int {
    if acts == [] then 0
    else
      var before, a := acts[..|acts| - 1], acts[|acts| - 1];
      if IsFill(c, a, t) then a.r.price + a.r.price
      else if a.Quote? && a.ticker == t && Held(c, before, t) != 0 && a.bid != Price_INVALID && a.ask != Price_INVALID
      then a.bid + a.ask
      else TwiceMark(c, before, t)
  }

  /** The ledger holds what was bought and paid, marked at the last mark. */
  ghost predicate Tells(c: Client, acts: seq<Act>, t: nat, l: Ledger) {
    && l.position == Held(c, acts, t)
    && l.cash == -(Spent(c, acts, t) as real)
    && 2.0 * l.mark == TwiceMark(c, acts, t) as real
  }

  lemma FilledTells(c: Client, acts: seq<Act>, t: nat, l: Ledger)
    requires acts != [] && Tells(c, acts[..|acts| - 1], t, l) && IsFill(c, acts[|acts| - 1], t) && acts[|acts| - 1].r.side != INVALID
    ensures var r := acts[|acts| - 1].r; Tells(c, acts, t, Filled(l, Fill(r.side, r.price, r.execQty)))
  {
    var r := acts[|acts| - 1].r;
    FilledExactly(l, Fill(r.side, r.price, r.execQty));
    hide Filled;
    assert (Signed(r.side, r.execQty) * r.price) as real == Signed(r.side, r.execQty) as real * r.price as real;
  }

  lemma QuotedTells(c: Client, acts: seq<Act>, t: nat, l: Ledger)
    requires acts != [] && Tells(c, acts[..|acts| - 1], t, l) && acts[|acts| - 1].Quote? && acts[|acts| - 1].ticker == t
    ensures Tells(c, acts, t, Marked(l, acts[|acts| - 1].bid, acts[|acts| - 1].ask))
  {
  }

  lemma ElsewhereTells(c: Client, acts: seq<Act>, t: nat, l: Ledger)
    requires acts != [] && Tells(c, acts[..|acts| - 1], t, l) && !IsFill(c, acts[|acts| - 1], t)
    requires acts[|acts| - 1].Quote? ==> acts[|acts| - 1].ticker != t
    ensures Tells(c, acts, t, l)
  {
  }

  /** After any session position, cash and mark are those of its fills and quotes. */
  lemma {:induction false} SessionTells(c: Client, acts: seq<Act>, t: nat)
    requires Fits(c) && Traded(c, acts).Some? && t < ME_MAX_TICKERS
    ensures Tells(c, acts, t, Traded(c, acts).value.ledgers[t])
  {
    hide Next, Formed, Tells, Filled, Marked;
    if acts == [] {
      NothingTold(c, t);
    } else {
      var before, a := acts[..|acts| - 1], acts[|acts| - 1];
      SessionTells(c, before, t);
      var s := Traded(c, before).value;
      if IsFill(c, a, t) {
        TakenHasSide(c, before, a.r);
        FilledTells(c, acts, t, s.ledgers[t]);
      } else if a.Quote? && a.ticker == t {
        QuotedTells(c, acts, t, s.ledgers[t]);
      } else {
        ElsewhereTells(c, acts, t, s.ledgers[t]);
      }
    }
  }

  lemma NothingTold(c: Client, t: nat)
    ensures Tells(c, [], t, Opening())
  {
  }

  /** Twice the total profit is what the position is worth at twice the last mark, less twice what was paid for it. */
  lemma ProfitTold(c: Client, acts: seq<Act>, t: nat, l: Ledger)
    requires Tells(c, acts, t, l)
    ensures 2.0 * TotalPnl(l) == (Held(c, acts, t) * TwiceMark(c, acts, t) - 2 * Spent(c, acts, t)) as real
  {
    hide Held, Spent, TwiceMark;
    MarkedProfit(l, Held(c, acts, t), TwiceMark(c, acts, t), Spent(c, acts, t));
  }

  lemma MarkedProfit(l: Ledger, held: int, twice: int, spent: int)
    requires l.position == held && l.cash == -(spent as real) && 2.0 * l.mark == twice as real
    ensures 2.0 * TotalPnl(l) == (held * twice - 2 * spent) as real
  {
    var h := held as real;
    assert 2.0 * (h * l.mark) == h * (2.0 * l.mark);
    assert h * twice as real == (held * twice) as real;
  }

  // ---- The objects ----

  ghost predicate Apart(positions: PositionInfos) {
    forall i, j :: 0 <= i < j < |positions| ==> positions[i] != positions[j] && positions[i].openVwap != positions[j].openVwap
  }

  /** The positions are booked as the ledgers say. */
  ghost predicate Booked(positions: PositionInfos, ledgers: seq<Ledger>)
    reads set i | 0 <= i < |positions| :: positions[i], set i | 0 <= i < |positions| :: positions[i].openVwap
  {
    |positions| == |ledgers| && forall i :: 0 <= i < |positions| ==> positions[i].Valid() && positions[i].ledger == ledgers[i]
  }

  method OpenPositions() returns (positions: PositionInfos)
    ensures |positions| == ME_MAX_TICKERS && Apart(positions) && Booked(positions, Begin().ledgers)
    ensures forall i :: 0 <= i < |positions| ==> fresh(positions[i]) && fresh(positions[i].openVwap)
  {
    positions := [];
    hide PositionInfo.Valid;
    for t := 0 to ME_MAX_TICKERS
      invariant |positions| == t && Apart(positions)
      invariant forall i :: 0 <= i < t ==> positions[i].Valid() && positions[i].ledger == Opening()
      invariant forall i :: 0 <= i < t ==> fresh(positions[i]) && fresh(positions[i].openVwap)
    {
      var position := new PositionInfo();
      positions := positions + [position];
    }
  }

  /** The objects show the session `s` of client `c`. */
  ghost predicate Shows(om: OrderManager, c: Client, s: Session)
    reads om, om.tickerSideOrder
    reads set i | 0 <= i < |om.positions| :: om.positions[i], set i | 0 <= i < |om.positions| :: om.positions[i].openVwap
  {
    && om.Valid() && om.clientId == c.id && om.cfgs == c.cfgs && Apart(om.positions)
    && om.State() == s.system.manager && Booked(om.positions, s.ledgers)
    && multiset(om.sent) == s.system.pending + s.arrived
  }

  /** The risk check sees position and profit of the ledger. */
  lemma RiskIs(om: OrderManager, c: Client, s: Session, t: nat, side: Side, qty: nat)
    requires Shows(om, c, s) && Agree(s) && t < ME_MAX_TICKERS && Fits(c)
    ensures om.Risk(t, side, qty) == CheckPreTradeRisk(c.cfgs[t], s.system.positions[t], TotalPnl(s.ledgers[t]), side, qty)
  {
    hide PositionInfo.Valid, CheckPreTradeRisk, OrderManager.State, Apart, TotalPnl;
    PositionIs(om.positions[t]);
  }

  lemma PositionIs(p: PositionInfo)
    requires p.Valid()
    ensures p.position == p.ledger.position && p.totalPnl == TotalPnl(p.ledger)
  {
  }

  method PlaceOrder(om: OrderManager, ghost c: Client, ghost s: Session, t: nat, side: Side, price: int, qty: nat)
    requires Fits(c) && Formed(s.system) && Agree(s) && Shows(om, c, s) && AfterAct(c, s, Place(t, side, price, qty)).Some?
    modifies om, om.tickerSideOrder
    ensures Shows(om, c, AfterAct(c, s, Place(t, side, price, qty)).value)
  {
    hide Booked, OrderManager.State, PositionInfo.Valid;
    RiskIs(om, c, s, t, side, qty);
    om.MoveOrder(t, price, side, qty);
  }

  method MarkPosition(om: OrderManager, ghost c: Client, ghost s: Session, t: nat, bid: int, ask: int)
    requires Fits(c) && Formed(s.system) && Shows(om, c, s) && t < ME_MAX_TICKERS && |s.ledgers| == ME_MAX_TICKERS
    modifies om.positions[t]
    ensures Shows(om, c, AfterAct(c, s, Quote(t, bid, ask)).value)
  {
    hide OrderManager.State, PositionInfo.Valid;
    om.positions[t].UpdateBBO(bid, ask);
  }

  method TakeResponse(engine: TradeEngine, ghost c: Client, ghost s: Session, r: ClientResponse)
    requires Fits(c) && Formed(s.system) && Shows(engine.orderManager, c, s) && AfterAct(c, s, Take(r)).Some?
    requires |s.ledgers| == ME_MAX_TICKERS && r.client == c.id && (r.kind == FILLED ==> r.side != INVALID)
    modifies engine.orderManager.tickerSideOrder, engine.orderManager.positions[r.ticker]
    modifies engine.orderManager.positions[r.ticker].openVwap
    ensures Shows(engine.orderManager, c, AfterAct(c, s, Take(r)).value)
  {
    hide OrderManager.State, PositionInfo.Valid, Filled;
    engine.OnOrderUpdate(r);
  }

  /** What happens elsewhere shows in the objects only as requests that have arrived. */
  lemma ElsewhereShows(om: OrderManager, c: Client, s: Session, a: Act)
    requires Fits(c) && Formed(s.system) && Shows(om, c, s) && |s.ledgers| == ME_MAX_TICKERS && AfterAct(c, s, a).Some?
    requires a.Arrives? || a.Foreign? || (a.Take? && a.r.client != c.id)
    ensures Shows(om, c, AfterAct(c, s, a).value)
  {
    hide Booked, OrderManager.State, Process, Admissible, Exchange.Sound, OnOrderUpdate;
    if a.Arrives? {
      var p := s.system.pending;
      assert p - multiset{a.req} + (s.arrived + multiset{a.req}) == p + s.arrived;
    }
  }

  lemma {:induction false} EveryAct(c: Client, acts: seq<Act>, k: nat)
    requires Fits(c) && Traded(c, acts).Some? && k < |acts|
    ensures Traded(c, acts[..k]).Some? && AfterAct(c, Traded(c, acts[..k]).value, acts[k]).Some?
    ensures Traded(c, acts[..k + 1]) == AfterAct(c, Traded(c, acts[..k]).value, acts[k])
    decreases |acts|
  {
    hide Next, Formed;
    var n := |acts| - 1;
    if k == n {
      assert acts[..k + 1] == acts;
    } else {
      assert acts[..n][..k] == acts[..k] && acts[..n][..k + 1] == acts[..k + 1];
      EveryAct(c, acts[..n], k);
    }
  }

  lemma TakenHasSide(c: Client, acts: seq<Act>, r: ClientResponse)
    requires Fits(c) && Traded(c, acts).Some? && Possible(Traded(c, acts).value, Take(r)) && r.client == c.id && r.kind == FILLED
    ensures r.side != INVALID
  {
    hide Inv, Traded, BelongsToSlot;
    SessionIsSafe(c, acts);
    ResponseBelongs(c, Traded(c, acts).value.system);
  }

  /**
   * A client trades through its objects, in any session of the protocol. At the end the slots are the protocol's, what
   * was sent is what is in flight and what has arrived, every position is booked as its ledger says and shows the
   * session's fills and quotes, and no position is beyond its limit.
   */
  method Trade(c: Client, acts: seq<Act>) returns (engine: TradeEngine)
    requires Fits(c) && Traded(c, acts).Some?
    ensures var om := engine.orderManager; var s := Traded(c, acts).value;
            && om.Valid() && om.State() == s.system.manager && multiset(om.sent) == s.system.pending + s.arrived
            && forall t :: 0 <= t < ME_MAX_TICKERS ==>
                 && om.positions[t].Valid() && om.positions[t].ledger == s.ledgers[t]
                 && om.positions[t].position == s.system.positions[t] && Abs(om.positions[t].position) <= c.cfgs[t].maxPosition
    ensures forall t :: 0 <= t < ME_MAX_TICKERS ==> ProfitShown(c, acts, t, engine.orderManager.positions[t])
  {
    hide Shows, AfterAct, Traded, Formed, Agree, Possible, ProfitShown;
    var positions := OpenPositions();
    var om := new OrderManager(c.id, c.cfgs, positions);
    engine := new TradeEngine(om);
    StartShows(om, c);
    for k := 0 to |acts|
      invariant fresh(om) && fresh(om.tickerSideOrder) && engine.orderManager == om && om.positions == positions
      invariant forall i :: 0 <= i < |positions| ==> fresh(positions[i]) && fresh(positions[i].openVwap)
      invariant |positions| == ME_MAX_TICKERS
      invariant Traded(c, acts[..k]).Some? && Shows(om, c, Traded(c, acts[..k]).value)
    {
      EveryAct(c, acts, k);
      SessionAgrees(c, acts[..k]);
      ghost var s := Traded(c, acts[..k]).value;
      ActFits(c, s, acts[k]);
      match acts[k] {
        case Place(t, side, price, qty) =>
          PlaceOrder(om, c, s, t, side, price, qty);
        case Quote(t, bid, ask) =>
          MarkPosition(om, c, s, t, bid, ask);
        case Take(r) =>
          if r.client == c.id {
            if r.kind == FILLED {
              TakenHasSide(c, acts[..k], r);
            }
            TakeResponse(engine, c, s, r);
          } else {
            ElsewhereShows(om, c, s, acts[k]);
          }
        case Arrives(_) =>
          ElsewhereShows(om, c, s, acts[k]);
        case Foreign(_) =>
          ElsewhereShows(om, c, s, acts[k]);
      }
    }
    assert acts[..|acts|] == acts;
    SessionIsSafe(c, acts);
    ShownIsBooked(om, c, Traded(c, acts).value);
    forall t | 0 <= t < ME_MAX_TICKERS
      ensures ProfitShown(c, acts, t, om.positions[t])
    {
      ShowsProfit(c, acts, t, om.positions[t]);
    }
  }

  /** The position is what was bought and sold, and its total profit follows from fills and quotes. */
  ghost predicate ProfitShown(c: Client, acts: seq<Act>, t: nat, p: PositionInfo)
    reads p
  {
    && p.position == Held(c, acts, t)
    && 2.0 * p.totalPnl == (Held(c, acts, t) * TwiceMark(c, acts, t) - 2 * Spent(c, acts, t)) as real
  }

  lemma ShowsProfit(c: Client, acts: seq<Act>, t: nat, p: PositionInfo)
    requires Fits(c) && Traded(c, acts).Some? && t < ME_MAX_TICKERS
    requires p.Valid() && p.ledger == Traded(c, acts).value.ledgers[t]
    ensures ProfitShown(c, acts, t, p)
  {
    hide Traded, TotalPnl, Tells;
    SessionTells(c, acts, t);
    ProfitTold(c, acts, t, p.ledger);
    PositionIs(p);
    PositionTold(c, acts, t, p.ledger);
  }

  lemma PositionTold(c: Client, acts: seq<Act>, t: nat, l: Ledger)
    requires Tells(c, acts, t, l)
    ensures l.position == Held(c, acts, t)
  {
  }

  lemma ActFits(c: Client, s: Session, a: Act)
    requires Fits(c) && Formed(s.system) && Agree(s) && AfterAct(c, s, a).Some?
    ensures |s.ledgers| == ME_MAX_TICKERS && Possible(s, a)
    ensures match a
            case Place(t, _, _, _) => t < ME_MAX_TICKERS
            case Quote(t, _, _) => t < ME_MAX_TICKERS
            case Take(r) => r.ticker < ME_MAX_TICKERS
            case _ => true
  {
    hide Formed;
  }

  lemma StartShows(om: OrderManager, c: Client)
    requires om.Valid() && om.clientId == c.id && om.cfgs == c.cfgs && om.State() == Start().manager && om.sent == []
    requires Apart(om.positions) && Booked(om.positions, Begin().ledgers) && Fits(c)
    ensures Traded(c, []).Some? && Shows(om, c, Traded(c, []).value)
  {
    hide Booked, OrderManager.State;
  }

  lemma ShownIsBooked(om: OrderManager, c: Client, s: Session)
    requires Shows(om, c, s) && Agree(s)
    ensures om.Valid() && om.State() == s.system.manager && multiset(om.sent) == s.system.pending + s.arrived
    ensures forall t :: 0 <= t < ME_MAX_TICKERS ==>
              om.positions[t].Valid() && om.positions[t].ledger == s.ledgers[t] && om.positions[t].position == s.system.positions[t]
  {
    hide OrderManager.State;
  }

  // ---- The exchange's books beside them ----

  /** The exchange of a session is where the requests that reached it take it. */
  lemma SessionVenue(c: Client, acts: seq<Act>)
    requires Fits(c) && Traded(c, acts).Some?
    ensures Exchange.After(Reaching(acts)) == Some(Traded(c, acts).value.system.venue)
  {
    hide Traded, Run, Exchange.After;
    var events := SessionsAreRuns(c, acts);
    VenueIsRun(c, events);
  }

  lemma OneEach(c: Client, acts: seq<Act>)
    requires Fits(c) && Traded(c, acts).Some?
    ensures var v := Traded(c, acts).value.system.venue;
            |v.engines| == ME_MAX_TICKERS && forall t :: 0 <= t < ME_MAX_TICKERS ==> OneOnEachSide(v.engines[t].book, c.id)
  {
    hide Traded, Run;
    var events := SessionsAreRuns(c, acts);
    assert |Run(c, events).value.venue.engines| == ME_MAX_TICKERS by { EngineEach(Run(c, events).value); }
    forall t, i, j | 0 <= t < ME_MAX_TICKERS && var book := Traded(c, acts).value.system.venue.engines[t].book;
                     i in book && j in book && book[i].key.client == book[j].key.client == c.id && book[i].side == book[j].side
      ensures i == j
    {
      OneOrderPerSlot(c, events, t, i, j);
    }
  }

  /** At most one order of the client rests on each side of the book. */
  ghost predicate OneOnEachSide(book: Book<ClientKey>, client: nat) {
    forall i, j :: i in book && j in book && book[i].key.client == book[j].key.client == client && book[i].side == book[j].side ==>
      i == j
  }

  /** Every order of the client in the book is the order of its slot, at the slot's price. */
  ghost predicate RestAtSlots(c: Client, m: Manager, t: nat, book: Book<ClientKey>)
    requires OrderProtocol.Shaped(m) && t < ME_MAX_TICKERS
  {
    forall id :: id in book && book[id].key.client == c.id ==> RestsAtSlot(c, m, t, book[id])
  }

  lemma AtSlots(c: Client, acts: seq<Act>)
    requires Fits(c) && Traded(c, acts).Some?
    ensures var s := Traded(c, acts).value.system;
            && |s.venue.engines| == ME_MAX_TICKERS && OrderProtocol.Shaped(s.manager)
            && forall t :: 0 <= t < ME_MAX_TICKERS ==> RestAtSlots(c, s.manager, t, s.venue.engines[t].book)
  {
    hide Traded, Run, RestsAtSlot;
    var events := SessionsAreRuns(c, acts);
    var s := Run(c, events).value;
    EngineEach(s);
    forall t, id | 0 <= t < ME_MAX_TICKERS && id in s.venue.engines[t].book && s.venue.engines[t].book[id].key.client == c.id
      ensures RestsAtSlot(c, s.manager, t, s.venue.engines[t].book[id])
    {
      RestsAtSlotPrice(c, events, t, id);
    }
  }

  /**
   * The matching engine serves what reaches it in a session on its linked books, and the client trades on its objects.
   * Then each linked book holds at most one order of the client per side, it is the order of the client's slot at the
   * price the slot shows, and no position is beyond its limit.
   */
  method TradeOnBooks(c: Client, acts: seq<Act>) returns (engine: MatchingEngine, trader: TradeEngine)
    requires Fits(c) && Traded(c, acts).Some? && Exchange.After(Reaching(acts)).Some? && AllInRange(Reaching(acts))
    ensures engine.Valid() && engine.State() == Traded(c, acts).value.system.venue
    ensures forall t :: 0 <= t < ME_MAX_TICKERS ==> OneOnEachSide(engine.tickerOrderBook[t].lists.Orders(), c.id)
    ensures trader.orderManager.Valid()
    ensures forall t :: 0 <= t < ME_MAX_TICKERS ==>
              RestAtSlots(c, trader.orderManager.State(), t, engine.tickerOrderBook[t].lists.Orders())
    ensures WithinLimits(c, trader.orderManager.positions)
  {
    hide Traded, Exchange.After, AllInRange, Reaching, MatchingEngine.Valid, MatchingEngine.Engines, OneOnEachSide, WithinLimits,
         LinkedBook.Orders, RestAtSlots, OrderManager.State;
    SessionVenue(c, acts);
    OneEach(c, acts);
    AtSlots(c, acts);
    trader := TradeWithin(c, acts);
    engine := ServeAll(Reaching(acts));
    BooksOf(engine);
  }

  /** No position is beyond its limit. */
  ghost predicate WithinLimits(c: Client, positions: PositionInfos)
    reads set i | 0 <= i < |positions| :: positions[i]
  {
    |positions| == |c.cfgs| == ME_MAX_TICKERS
    && forall t :: 0 <= t < ME_MAX_TICKERS ==> Abs(positions[t].position) <= c.cfgs[t].maxPosition
  }

  method TradeWithin(c: Client, acts: seq<Act>) returns (trader: TradeEngine)
    requires Fits(c) && Traded(c, acts).Some?
    ensures trader.orderManager.Valid() && trader.orderManager.State() == Traded(c, acts).value.system.manager
    ensures WithinLimits(c, trader.orderManager.positions)
  {
    hide Traded, OrderManager.State, PositionInfo.Valid, ProfitShown;
    trader := Trade(c, acts);
  }

  lemma BooksOf(engine: MatchingEngine)
    requires engine.Valid()
    ensures |engine.tickerOrderBook| == |engine.State().engines| == ME_MAX_TICKERS
    ensures forall t :: 0 <= t < ME_MAX_TICKERS ==> engine.tickerOrderBook[t].lists.Orders() == engine.State().engines[t].book
  {
    hide LinkedBook.Valid, LinkedBook.Orders;
  }
}
