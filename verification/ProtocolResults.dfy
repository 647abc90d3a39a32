/** Theorems about every reachable state of client, exchange and channels. */
module ProtocolResults {
  import opened Types
  import opened BookSpec
  import opened Matching
  import opened Exchange
  import opened Tracking
  import opened RiskManagement
  import opened OrderProtocol
  import opened ProtocolSafety

  lemma StartInv(c: Client)
    requires Fits(c)
    ensures Inv(c, Start())
  {
    var s := Start();
    assert Formed(s);
    forall t: nat, side | t < ME_MAX_TICKERS
      ensures Slot(s.manager, t, side) == Blank()
    {
    }
    assert VenueAgrees(s.venue, c.id) by {
      forall t | 0 <= t < |s.venue.engines|
        ensures Agrees(s.venue.responses, c.id, t, s.venue.engines[t].book, None)
      {
      }
    }
  }

  lemma NextInv(c: Client, s: System, e: Event)
    requires Fits(c) && Inv(c, s) && Formed(s) && Next(c, s, e).Some?
    ensures Inv(c, Next(c, s, e).value)
  {
    hide Inv, Admissible, Process, FirstUse;
    var s' := Next(c, s, e).value;
    match e
    case Move(_, _, _, _, _) =>
      MoveKeepsInv(c, s, e);
    case Deliver(req) =>
      OwnRequestsAdmissible(c, s, req);
      OwnRequests(c, s, req);
      ServeKeepsInv(c, s, req, s');
    case Other(req) =>
      assert FirstUse(s.venue, req, c.id) by { OtherFirstUse(s.venue, req, c.id); }
      ServeKeepsInv(c, s, req, s');
    case Read =>
      ReadKeepsInv(c, s);
  }

  lemma OwnRequests(c: Client, s: System, req: Request)
    requires Fits(c) && Inv(c, s) && req in s.pending
    ensures req.client == c.id
  {
  }

  lemma OtherFirstUse(v: Venue, req: Request, client: nat)
    requires req.client != client
    ensures FirstUse(v, req, client)
  {
  }

  /** The invariant holds in every reachable state. */
  lemma {:induction false} RunInv(c: Client, events: seq<Event>)
    requires Fits(c) && Run(c, events).Some?
    ensures Inv(c, Run(c, events).value)
  {
    if events == [] {
      StartInv(c);
    } else {
      hide Inv, Next, Formed;
      RunInv(c, events[..|events| - 1]);
      NextInv(c, Run(c, events[..|events| - 1]).value, events[|events| - 1]);
    }
  }

  /** The requests that reached the exchange, in order. */
  function Served(events: seq<Event>): seq<Request> {
    if events == [] then []
    else
      var e := events[|events| - 1];
      Served(events[..|events| - 1]) +
      match e
      case Deliver(req) => [req]
      case Other(req) => [req]
      case _ => []
  }

  /** In every run the exchange is where these requests take it. */
  lemma {:induction false} VenueIsRun(c: Client, events: seq<Event>)
    requires Fits(c) && Run(c, events).Some?
    ensures After(Served(events)) == Some(Run(c, events).value.venue)
  {
    hide After, Process, Admissible, Formed;
    if events == [] {
      NothingServed();
    } else {
      var before, e := events[..|events| - 1], events[|events| - 1];
      VenueIsRun(c, before);
      NextVenue(c, Run(c, before).value, e);
      match e
      case Deliver(req) =>
        AfterOneMore(Served(before), req);
      case Other(req) =>
        AfterOneMore(Served(before), req);
      case _ =>
        assert Served(before) + [] == Served(before);
    }
  }

  lemma NothingServed()
    ensures After([]) == Some(Opened()) && Start().venue == Opened()
  {
  }

  lemma NextVenue(c: Client, s: System, e: Event)
    requires Fits(c) && Formed(s) && Next(c, s, e).Some?
    ensures match e
            case Deliver(req) => Admissible(s.venue, req) && Next(c, s, e).value.venue == Process(s.venue, req)
            case Other(req) => Admissible(s.venue, req) && Next(c, s, e).value.venue == Process(s.venue, req)
            case _ => Next(c, s, e).value.venue == s.venue
  {
  }

  /** Nothing the client sends is ever refused for a reused order id or a bad side. */
  lemma RequestsAlwaysAdmissible(c: Client, events: seq<Event>, req: Request)
    requires Fits(c) && Run(c, events).Some? && req in Run(c, events).value.pending
    ensures Admissible(Run(c, events).value.venue, req)
  {
    RunInv(c, events);
    OwnRequestsAdmissible(c, Run(c, events).value, req);
  }

  /** Every ACCEPTED, FILLED and CANCELED the client will read next is about the order its slot holds, in a state that expects it. */
  lemma ResponsesAlwaysBelong(c: Client, events: seq<Event>)
    requires Fits(c) && Run(c, events).Some? && var s := Run(c, events).value; s.seen < |s.venue.responses|
    ensures var s := Run(c, events).value; var r := s.venue.responses[s.seen];
            && r.ticker < ME_MAX_TICKERS
            && (r.client == c.id && r.kind != CANCEL_REJECTED ==> BelongsToSlot(s, r))
  {
    RunInv(c, events);
    ResponseBelongs(c, Run(c, events).value);
  }

  /** A resting order of the client is the order of its slot, which does not call it dead. */
  lemma RestingIsCurrent(c: Client, s: System, t: nat, id: nat)
    requires Fits(c) && Inv(c, s) && t < ME_MAX_TICKERS && id in s.venue.engines[t].book
    requires s.venue.engines[t].book[id].key.client == c.id
    ensures var o := s.venue.engines[t].book[id];
            o.side != INVALID && Slot(s.manager, t, o.side).oid == o.key.oid && Slot(s.manager, t, o.side).state != DEAD
            && Slot(s.manager, t, o.side).state != UNUSED
  {
    var book := s.venue.engines[t].book;
    var o := book[id];
    var tr := All(c, s, t, o.key.oid);
    assert Good(s.venue.engines[t]) && WellFormed(book);
    assert o.side != INVALID && 0 < o.qty;
    assert tr == Open(o.side, o.qty) by {
      assert Agrees(s.venue.responses, c.id, t, book, None);
      assert Matches(tr, book, ClientKey(c.id, o.key.oid));
    }
    hide TrackOf, Good, WellFormed, Bounded, LogOk, PendingOk, Resolving;
    assert Reached(s, t, o.key.oid);
    SeenThenAll(c, s, t, o.key.oid);
    assert SlotOk(c, s, t, o.side);
  }

  /** At most one order of the client rests on each side of each book. */
  lemma OneOrderPerSlot(c: Client, events: seq<Event>, t: nat, i: nat, j: nat)
    requires Fits(c) && Run(c, events).Some? && t < ME_MAX_TICKERS
    requires var book := Run(c, events).value.venue.engines[t].book;
             i in book && j in book && book[i].key.client == book[j].key.client == c.id && book[i].side == book[j].side
    ensures i == j
  {
    RunInv(c, events);
    var s := Run(c, events).value;
    assert Good(s.venue.engines[t]);
    RestingIsCurrent(c, s, t, i);
    RestingIsCurrent(c, s, t, j);
    var book := s.venue.engines[t].book;
    assert book[i].key == book[j].key;
  }

  /** The position never leaves its limit, although risk is checked when an order is sent and at no other time. */
  lemma PositionAlwaysBounded(c: Client, events: seq<Event>, t: nat)
    requires Fits(c) && Run(c, events).Some? && t < ME_MAX_TICKERS
    ensures Abs(Run(c, events).value.positions[t]) <= c.cfgs[t].maxPosition
    ensures forall side :: side != INVALID ==>
              var s := Run(c, events).value;
              SideToValue(side) * s.positions[t] + OpenQty(Slot(s.manager, t, side)) <= c.cfgs[t].maxPosition
  {
    RunInv(c, events);
    PositionWithinLimit(c, Run(c, events).value, t);
  }

  /** No request and no response of the client is under way. */
  ghost predicate Drained(c: Client, s: System) {
    s.pending == multiset{} && forall k :: s.seen <= k < |s.venue.responses| ==> s.venue.responses[k].client != c.id
  }

  lemma DrainedTracks(c: Client, s: System, t: nat, oid: nat)
    requires Formed(s) && Drained(c, s)
    ensures Seen(c, s, t, oid) == All(c, s, t, oid)
  {
    var rs := s.venue.responses;
    assert rs == rs[..s.seen] + rs[s.seen..];
    NotAbout(rs[..s.seen], rs[s.seen..], c.id, t, oid);
  }

  /** The slot and the exchange hold the same order: same id, same quantity. */
  ghost predicate RestsAs(c: Client, s: System, t: nat, o: OMOrder)
    requires t < |s.venue.engines|
  {
    var book := s.venue.engines[t].book;
    exists id :: id in book && book[id].key == ClientKey(c.id, o.oid) && book[id].side == o.side && book[id].qty == o.qty
  }

  /**
   * Once the channels are drained no slot waits for an acceptance, a cancelled slot is dead exactly when its order
   * asked for something, and a live slot with quantity left is an order resting at the exchange, and no other is.
   */
  lemma DrainedSlots(c: Client, events: seq<Event>, t: nat, side: Side)
    requires Fits(c) && Run(c, events).Some? && t < ME_MAX_TICKERS && side != INVALID
    requires Drained(c, Run(c, events).value)
    ensures var s := Run(c, events).value; var o := Slot(s.manager, t, side);
            && o.state != PENDING_NEW
            && (o.state == PENDING_CANCEL || o.state == DEAD ==>
                  o.oid in s.orders && s.orders[o.oid].New? && (o.state == DEAD <==> 0 < s.orders[o.oid].qty))
            && (RestsAs(c, s, t, o) && o.state != UNUSED <==> o.state == LIVE && 0 < o.qty)
  {
    RunInv(c, events);
    var s := Run(c, events).value;
    var o := Slot(s.manager, t, side);
    DrainedTracks(c, s, t, o.oid);
    assert SlotOk(c, s, t, side);
    RestsExactly(c, s, t, o);
    hide TrackOf, Good, WellFormed, Bounded, LogOk, Owned, Agrees, RestsAs, VenueAgrees;
    if o.state != UNUSED {
      assert !Reached(s, t, o.oid) ==> All(c, s, t, o.oid).Unseen?;
    }
  }

  lemma RestsExactly(c: Client, s: System, t: nat, o: OMOrder)
    requires Fits(c) && Formed(s) && VenueAgrees(s.venue, c.id) && t < ME_MAX_TICKERS
    ensures RestsAs(c, s, t, o) <==> All(c, s, t, o.oid) == Open(o.side, o.qty) && 0 < o.qty
  {
    var book := s.venue.engines[t].book;
    var key := ClientKey(c.id, o.oid);
    assert Good(s.venue.engines[t]) && WellFormed(book);
    assert Agrees(s.venue.responses, c.id, t, book, None);
    assert Matches(All(c, s, t, o.oid), book, key);
    hide TrackOf, Good;
    if Live(book, key) {
      var id :| id in book && book[id].key == key;
    }
  }

  /** An order for nothing is accepted but never filled, never cancelled, and never leaves its slot. */
  lemma ZeroNeverDies(c: Client, events: seq<Event>, t: nat, side: Side)
    requires Fits(c) && Run(c, events).Some? && t < ME_MAX_TICKERS && side != INVALID
    requires var s := Run(c, events).value; var o := Slot(s.manager, t, side);
             o.state != UNUSED && o.oid in s.orders && s.orders[o.oid].New? && s.orders[o.oid].qty == 0
    ensures Slot(Run(c, events).value.manager, t, side).state != DEAD
  {
    RunInv(c, events);
    var s := Run(c, events).value;
    var o := Slot(s.manager, t, side);
    assert SlotOk(c, s, t, side);
    SeenThenAll(c, s, t, o.oid);
    hide TrackOf, Good, WellFormed, Bounded, LogOk, Owned, Agrees, VenueAgrees;
    assert Reached(s, t, o.oid) || All(c, s, t, o.oid).Unseen?;
  }

  lemma RunMore(c: Client, events: seq<Event>, e: Event)
    requires Fits(c) && Run(c, events).Some?
    ensures Run(c, events + [e]) == Next(c, Run(c, events).value, e)
  {
    assert (events + [e])[..|events|] == events;
  }

  /** The exchange's answers to an order for nothing and to its cancel. */
  lemma ZeroAnswers(c: Client)
    requires Fits(c)
    ensures var req := New(c.id, 0, 1, BUY, 100, 0);
            && Admissible(Opened(), req)
            && var v := Process(Opened(), req);
               && v.responses == [ClientResponse(ACCEPTED, c.id, 0, 1, 1, BUY, 100, 0, 0)]
               && Admissible(v, Cancel(c.id, 0, 1))
               && var w := Process(v, Cancel(c.id, 0, 1));
                  |w.responses| == 2 && w.responses[0] == v.responses[0] && w.responses[1].kind == CANCEL_REJECTED
                  && w.responses[1].client == c.id && w.responses[1].ticker == 0
  {
    var e := Engine(map[], 1);
    assert !CanMatch(Taker(0, c.id, 1, 1, BUY, 100), map[], 0);
    assert Add(e, 0, c.id, 1, BUY, 100, 0).engine.book == map[];
    assert !Live(map[], ClientKey(c.id, 1));
  }

  function ZeroOrder(c: Client): Request {
    New(c.id, 0, 1, BUY, 100, 0)
  }

  lemma ZeroAccepted(c: Client) returns (events: seq<Event>)
    requires Fits(c)
    ensures Run(c, events).Some?
    ensures var s := Run(c, events).value; var o := Slot(s.manager, 0, BUY);
            && s.venue == Process(Opened(), ZeroOrder(c)) && s.pending == multiset{} && s.seen == 1
            && o.state == LIVE && o.ticker == 0 && o.oid == 1 && o.price == 100
  {
    ZeroAnswers(c);
    var pnl := c.cfgs[0].maxLoss;
    AllowedExactly(c.cfgs[0], 0, pnl, BUY, 0);
    hide Process, Admissible, Sound, CheckPreTradeRisk, Opened;
    assert Run(c, []) == Some(Start());
    RunMore(c, [], Move(0, BUY, 100, 0, pnl));
    events := [] + [Move(0, BUY, 100, 0, pnl)];
    assert Run(c, events).value.pending == multiset{ZeroOrder(c)};
    RunMore(c, events, Deliver(ZeroOrder(c)));
    events := events + [Deliver(ZeroOrder(c))];
    assert Run(c, events).value.venue.responses[0].kind == ACCEPTED;
    RunMore(c, events, Read);
    events := events + [Read];
  }

  lemma ZeroCancelled(c: Client) returns (events: seq<Event>)
    requires Fits(c)
    ensures Run(c, events).Some?
    ensures var s := Run(c, events).value; var o := Slot(s.manager, 0, BUY);
            && s.venue == Process(Opened(), ZeroOrder(c)) && s.pending == multiset{Cancel(c.id, 0, 1)} && s.seen == 1
            && o.state == PENDING_CANCEL
  {
    events := ZeroAccepted(c);
    hide Process, Admissible, Sound, CheckPreTradeRisk, Opened, Run;
    RunMore(c, events, Move(0, BUY, 101, 0, 0.0));
    events := events + [Move(0, BUY, 101, 0, 0.0)];
  }

  /** A run that leaves the cancel of such an order pending for ever, with nothing under way. */
  lemma ZeroExample(c: Client)
    requires Fits(c)
    ensures exists events :: Run(c, events).Some?
              && Drained(c, Run(c, events).value) && Slot(Run(c, events).value.manager, 0, BUY).state == PENDING_CANCEL
  {
    hide Process, Admissible, Sound, CheckPreTradeRisk, Opened, Run;
    ZeroAnswers(c);
    var events := ZeroCancelled(c);
    RunMore(c, events, Deliver(Cancel(c.id, 0, 1)));
    events := events + [Deliver(Cancel(c.id, 0, 1))];
    RunMore(c, events, Read);
    events := events + [Read];
  }
}
