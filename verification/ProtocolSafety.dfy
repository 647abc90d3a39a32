/** What every interleaving of client, exchange and channels keeps, and what follows for slots and positions. */
module ProtocolSafety {
  import opened Types
  import opened Matching
  import opened Exchange
  import opened Tracking
  import opened RiskManagement
  import opened OrderProtocol

  /** An order as all responses tell it, and as the responses read so far tell it. */
  function All(c: Client, s: System, t: nat, oid: nat): Track {
    TrackOf(s.venue.responses, c.id, t, oid)
  }

  function Seen(c: Client, s: System, t: nat, oid: nat): Track
    requires s.seen <= |s.venue.responses|
  {
    TrackOf(s.venue.responses[..s.seen], c.id, t, oid)
  }

  /** The client's NEW requests are on record under fresh ids. */
  ghost predicate OrdersOk(c: Client, s: System) {
    forall oid :: oid in s.orders ==>
      var o := s.orders[oid];
      oid < s.manager.nextOid && o.New? && o.client == c.id && o.oid == oid && o.ticker < ME_MAX_TICKERS && o.side != INVALID
  }

  /** Requests in flight: recorded orders, each once, and cancels of orders the client saw accepted. */
  ghost predicate PendingOk(c: Client, s: System)
    requires s.seen <= |s.venue.responses|
  {
    forall req :: req in s.pending ==>
      && req.client == c.id && req.oid in s.orders && req.ticker == s.orders[req.oid].ticker
      && (req.New? ==> req == s.orders[req.oid] && s.pending[req] == 1)
      && (req.Cancel? ==> !Seen(c, s, req.ticker, req.oid).Unseen?)
  }

  /** ACCEPTED answers a recorded order with its side and quantity. */
  ghost predicate Answers(c: Client, s: System, r: ClientResponse) {
    && r.ticker < ME_MAX_TICKERS
    && (r.client == c.id && r.kind == ACCEPTED ==>
          r.clientOid in s.orders && var o := s.orders[r.clientOid]; o.New? && r.ticker == o.ticker && r.side == o.side && r.leavesQty == o.qty)
  }

  ghost predicate LogOk(c: Client, s: System) {
    forall r :: r in s.venue.responses ==> Answers(c, s, r)
  }

  ghost predicate Reached(s: System, t: nat, oid: nat) {
    oid in s.orders && s.orders[oid].ticker == t && s.orders[oid] !in s.pending
  }

  /** Exactly the orders that reached the exchange have responses, and these continue from side and quantity asked for. */
  ghost predicate TracksOk(c: Client, s: System) {
    forall t: nat, oid: nat :: t < ME_MAX_TICKERS ==>
      && (All(c, s, t, oid).Unseen? <==> !Reached(s, t, oid))
      && (Reached(s, t, oid) && s.orders[oid].New? ==> Later(Open(s.orders[oid].side, s.orders[oid].qty), All(c, s, t, oid)))
  }

  /** The cancel of an order is under way, or it has done its work, or the order asked for nothing. */
  ghost predicate Resolving(c: Client, s: System, t: nat, oid: nat) {
    || Cancel(c.id, t, oid) in s.pending
    || All(c, s, t, oid).Closed?
    || (All(c, s, t, oid).Open? && All(c, s, t, oid).leaves == 0)
  }

  /** State and quantity of a slot say what the track of its order says. */
  predicate Shows(o: OMOrder, tr: Track, asked: nat) {
    match o.state
    case PENDING_NEW => tr.Unseen? && o.qty == asked
    case LIVE => tr == Open(o.side, o.qty)
    case PENDING_CANCEL => tr == Open(o.side, o.qty)
    case _ => tr.Closed?
  }

  /** A slot shows its order as the responses read so far tell it. */
  ghost predicate SlotOk(c: Client, s: System, t: nat, side: Side)
    requires Shaped(s.manager) && s.seen <= |s.venue.responses| && t < ME_MAX_TICKERS
  {
    var o := Slot(s.manager, t, side);
    o.state != UNUSED ==>
      && o.oid in s.orders && s.orders[o.oid].New? && s.orders[o.oid].ticker == o.ticker == t
      && s.orders[o.oid].side == o.side == side
      && Shows(o, Seen(c, s, t, o.oid), s.orders[o.oid].qty)
      && (o.state == PENDING_CANCEL ==> Resolving(c, s, t, o.oid))
  }

  ghost predicate SlotsOk(c: Client, s: System)
    requires Shaped(s.manager) && s.seen <= |s.venue.responses|
  {
    forall t: nat, side :: t < ME_MAX_TICKERS && side != INVALID ==> SlotOk(c, s, t, side)
  }

  /** An order whose end the client has not seen is the order of its slot. */
  ghost predicate Owned(c: Client, s: System)
    requires Shaped(s.manager) && s.seen <= |s.venue.responses|
  {
    forall oid :: oid in s.orders && s.orders[oid].New? && s.orders[oid].ticker < ME_MAX_TICKERS ==>
      var o := Slot(s.manager, s.orders[oid].ticker, s.orders[oid].side);
      (o.state != UNUSED && o.oid == oid) || Seen(c, s, s.orders[oid].ticker, oid).Closed?
  }

  /** What the order of a slot may still add to the position. */
  function OpenQty(o: OMOrder): nat {
    if o.state == UNUSED || o.state == DEAD then 0 else o.qty
  }

  /** Even if every open order fills completely, the position stays within its limit. */
  ghost predicate Bounded(c: Client, s: System)
    requires Shaped(s.manager) && |s.positions| == ME_MAX_TICKERS && Fits(c)
  {
    forall t: nat, side :: t < ME_MAX_TICKERS && side != INVALID ==>
      SideToValue(side) * s.positions[t] + OpenQty(Slot(s.manager, t, side)) <= c.cfgs[t].maxPosition
  }

  ghost predicate Inv(c: Client, s: System)
    requires Fits(c)
  {
    && Formed(s) && VenueAgrees(s.venue, c.id)
    && OrdersOk(c, s) && PendingOk(c, s) && LogOk(c, s) && TracksOk(c, s)
    && SlotsOk(c, s) && Owned(c, s) && Bounded(c, s)
  }

  /** Tracks of prefixes lead up to the tracks of the whole log. */
  lemma SeenThenAll(c: Client, s: System, t: nat, oid: nat)
    requires Formed(s) && VenueAgrees(s.venue, c.id) && t < ME_MAX_TICKERS
    ensures !All(c, s, t, oid).Broken? && Later(Seen(c, s, t, oid), All(c, s, t, oid)) && !Seen(c, s, t, oid).Broken?
  {
    hide TrackOf, Good;
    assert Agrees(s.venue.responses, c.id, t, s.venue.engines[t].book, None);
    assert Matches(All(c, s, t, oid), s.venue.engines[t].book, ClientKey(c.id, oid));
    assert s.venue.responses == s.venue.responses[..s.seen] + s.venue.responses[s.seen..];
    TrackGrows(s.venue.responses[..s.seen], s.venue.responses[s.seen..], c.id, t, oid);
  }

  // ---- A request reaches the exchange ----

  /** Every request of the client that is in flight will be admissible: its order ids are never live twice. */
  lemma OwnRequestsAdmissible(c: Client, s: System, req: Request)
    requires Fits(c) && Inv(c, s) && req in s.pending
    ensures Admissible(s.venue, req) && FirstUse(s.venue, req, c.id)
  {
    hide TrackOf, Good, SlotsOk, Owned, Bounded, LogOk;
    if req.New? {
      var book := s.venue.engines[req.ticker].book;
      assert All(c, s, req.ticker, req.oid).Unseen?;
      assert Agrees(s.venue.responses, c.id, req.ticker, book, None);
      assert Matches(All(c, s, req.ticker, req.oid), book, ClientKey(c.id, req.oid));
    }
  }

  lemma LaterTransitive(a: Track, b: Track, d: Track)
    requires Later(a, b) && Later(b, d)
    ensures Later(a, d)
  {
  }

  /** The exchange serves a request of this client in flight, or of another client. */
  predicate Serves(c: Client, s: System, req: Request, s': System) {
    && s'.pending == (if req.client == c.id then s.pending - multiset{req} else s.pending)
    && s' == s.(venue := s'.venue, pending := s'.pending)
    && (req.client == c.id ==> req in s.pending)
  }

  lemma ServeKeepsTracks(c: Client, s: System, req: Request, s': System)
    requires Fits(c) && Formed(s) && VenueAgrees(s.venue, c.id) && OrdersOk(c, s) && PendingOk(c, s) && TracksOk(c, s)
    requires Admissible(s.venue, req) && FirstUse(s.venue, req, c.id)
    requires Serves(c, s, req, s') && s'.venue == Process(s.venue, req)
    ensures TracksOk(c, s')
  {
    hide TrackOf, Good, Process, Admissible, VenueAgrees, FirstUse;
    forall t: nat, oid: nat | t < ME_MAX_TICKERS
      ensures All(c, s', t, oid).Unseen? <==> !Reached(s', t, oid)
      ensures Reached(s', t, oid) && s'.orders[oid].New? ==> Later(Open(s'.orders[oid].side, s'.orders[oid].qty), All(c, s', t, oid))
    {
      ProcessMoves(s.venue, req, c.id, t, oid);
      if Reached(s, t, oid) && s.orders[oid].New? {
        LaterTransitive(Open(s.orders[oid].side, s.orders[oid].qty), All(c, s, t, oid), All(c, s', t, oid));
      }
    }
  }

  lemma ServeAppends(c: Client, s: System, req: Request, s': System)
    requires Formed(s) && Admissible(s.venue, req) && s'.venue == Process(s.venue, req) && s'.seen == s.seen
    ensures s.seen <= |s'.venue.responses|
    ensures forall t: nat, oid: nat :: Seen(c, s', t, oid) == Seen(c, s, t, oid)
  {
    hide TrackOf, Good, Admissible, Serve;
    assert s'.venue.responses[..s.seen] == s.venue.responses[..s.seen];
  }

  lemma ServeKeepsLog(c: Client, s: System, req: Request, s': System)
    requires Formed(s) && OrdersOk(c, s) && PendingOk(c, s) && LogOk(c, s) && Admissible(s.venue, req)
    requires Serves(c, s, req, s') && s'.venue == Process(s.venue, req)
    ensures LogOk(c, s')
  {
    hide TrackOf, Good, Serve;
    var ss := Serve(s.venue.engines[req.ticker], req).responses;
    ServeAccepts(s.venue.engines[req.ticker], req);
    forall r | r in s'.venue.responses
      ensures Answers(c, s', r)
    {
      if r !in s.venue.responses {
        assert r in ss;
        assert r == ss[0] || r in ss[1..];
      }
    }
  }

  /** A cancel that was under way is still under way, or has done its work. */
  lemma ServeResolves(c: Client, s: System, req: Request, s': System, t: nat, oid: nat)
    requires Fits(c) && Formed(s) && VenueAgrees(s.venue, c.id) && Admissible(s.venue, req) && FirstUse(s.venue, req, c.id)
    requires Serves(c, s, req, s') && s'.venue == Process(s.venue, req) && t < ME_MAX_TICKERS
    requires Resolving(c, s, t, oid) && !Seen(c, s, t, oid).Unseen?
    ensures Resolving(c, s', t, oid)
  {
    hide TrackOf, Good, Process, Admissible, FirstUse;
    SeenThenAll(c, s, t, oid);
    hide VenueAgrees;
    ProcessMoves(s.venue, req, c.id, t, oid);
  }

  lemma ServeKeepsSlots(c: Client, s: System, req: Request, s': System)
    requires Fits(c) && Formed(s) && VenueAgrees(s.venue, c.id) && Admissible(s.venue, req) && FirstUse(s.venue, req, c.id)
    requires Serves(c, s, req, s') && s'.venue == Process(s.venue, req)
    requires SlotsOk(c, s)
    ensures s.seen <= |s'.venue.responses| && SlotsOk(c, s')
  {
    ServeAppends(c, s, req, s');
    forall t: nat, side | t < ME_MAX_TICKERS && side != INVALID
      ensures SlotOk(c, s', t, side)
    {
      hide TrackOf, Good, Process, Admissible, FirstUse, VenueAgrees, Resolving, Seen, Sound;
      assert SlotOk(c, s, t, side);
      var o := Slot(s.manager, t, side);
      if o.state == PENDING_CANCEL {
        ServeResolves(c, s, req, s', t, o.oid);
      }
    }
    hide SlotOk;
  }

  lemma ServeKeepsPending(c: Client, s: System, req: Request, s': System)
    requires Fits(c) && Formed(s) && Admissible(s.venue, req)
    requires Serves(c, s, req, s') && s'.venue == Process(s.venue, req)
    requires PendingOk(c, s)
    ensures s.seen <= |s'.venue.responses| && PendingOk(c, s')
  {
    ServeAppends(c, s, req, s');
    assert s'.orders == s.orders && s'.seen == s.seen;
    FewerPending(c, s, s');
  }

  lemma FewerPending(c: Client, s: System, s': System)
    requires s.seen <= |s.venue.responses| && s.seen <= |s'.venue.responses| && s'.seen == s.seen && s'.orders == s.orders
    requires forall t: nat, oid: nat :: Seen(c, s', t, oid) == Seen(c, s, t, oid)
    requires forall r :: s'.pending[r] <= s.pending[r]
    requires PendingOk(c, s)
    ensures PendingOk(c, s')
  {
    hide Seen;
    forall r | r in s'.pending
      ensures r in s.pending && s'.pending[r] <= s.pending[r]
    {
    }
  }

  lemma ServeKeepsOwned(c: Client, s: System, req: Request, s': System)
    requires Fits(c) && Formed(s) && Admissible(s.venue, req)
    requires Serves(c, s, req, s') && s'.venue == Process(s.venue, req)
    requires Owned(c, s)
    ensures s.seen <= |s'.venue.responses| && Owned(c, s')
  {
    ServeAppends(c, s, req, s');
    hide Good, Process, Admissible, Seen, Sound, Fits;
  }

  lemma ServeKeepsInv(c: Client, s: System, req: Request, s': System)
    requires Fits(c) && Inv(c, s) && Admissible(s.venue, req) && FirstUse(s.venue, req, c.id)
    requires Serves(c, s, req, s') && s'.venue == Process(s.venue, req)
    ensures Inv(c, s')
  {
    ProcessTracks(s.venue, req, c.id);
    ServeKeepsTracks(c, s, req, s');
    ServeKeepsLog(c, s, req, s');
    ServeKeepsSlots(c, s, req, s');
    ServeKeepsOwned(c, s, req, s');
    ServeKeepsPending(c, s, req, s');
    hide TracksOk, LogOk, SlotsOk, Owned, PendingOk, VenueAgrees, Admissible, FirstUse, TrackOf, Good, Process;
  }

  // ---- The client reads a response ----

  /** What reading the next response does to the tracks read so far. */
  lemma ReadMoves(c: Client, s: System, t: nat, oid: nat)
    requires Fits(c) && Formed(s) && s.seen < |s.venue.responses| && s.venue.responses[s.seen].ticker < ME_MAX_TICKERS
    ensures var r, s' := s.venue.responses[s.seen], AfterRead(c, s);
            && All(c, s', t, oid) == All(c, s, t, oid)
            && Seen(c, s', t, oid) == if About(r, c.id, t, oid) then Advance(Seen(c, s, t, oid), r) else Seen(c, s, t, oid)
  {
    assert s.venue.responses[..s.seen + 1] == s.venue.responses[..s.seen] + [s.venue.responses[s.seen]];
    TrackMore(s.venue.responses[..s.seen], s.venue.responses[s.seen], c.id, t, oid);
  }

  /** The order of a slot, and in a state to get this response. */
  predicate Fitting(o: OMOrder, r: ClientResponse) {
    && o.oid == r.clientOid && o.side == r.side
    && match r.kind
       case ACCEPTED => o.state == PENDING_NEW && r.leavesQty == o.qty
       case FILLED => (o.state == LIVE || o.state == PENDING_CANCEL) && 0 < r.execQty && o.qty == r.execQty + r.leavesQty
       case CANCELED => (o.state == LIVE || o.state == PENDING_CANCEL) && 0 < r.leavesQty == o.qty
       case CANCEL_REJECTED => true
  }

  ghost predicate BelongsToSlot(s: System, r: ClientResponse)
    requires Shaped(s.manager) && r.ticker < ME_MAX_TICKERS
  {
    Fitting(Slot(s.manager, r.ticker, r.side), r)
  }

  /** A fitting response moves slot and track alike. */
  lemma FittingMoves(o: OMOrder, r: ClientResponse, tr: Track, asked: nat)
    requires Fitting(o, r) && r.kind != CANCEL_REJECTED && Shows(o, tr, asked)
    ensures Shows(Updated(o, r), Advance(tr, r), asked)
  {
  }

  /** Every ACCEPTED, FILLED and CANCELED that the client takes belongs to the current order of its slot. */
  lemma ResponseBelongs(c: Client, s: System)
    requires Fits(c) && Inv(c, s) && s.seen < |s.venue.responses|
    ensures var r := s.venue.responses[s.seen];
            && r.ticker < ME_MAX_TICKERS
            && (r.client == c.id && r.kind != CANCEL_REJECTED ==> r.side != INVALID && BelongsToSlot(s, r))
  {
    var r := s.venue.responses[s.seen];
    assert Answers(c, s, r);
    if r.client == c.id && r.kind != CANCEL_REJECTED {
      var s' := AfterRead(c, s);
      ReadMoves(c, s, r.ticker, r.clientOid);
      hide TrackOf, Good, Sound, Bounded, Seen;
      SeenThenAll(c, s, r.ticker, r.clientOid);
      SeenThenAll(c, s', r.ticker, r.clientOid);
      assert Reached(s, r.ticker, r.clientOid);
      var o := s.orders[r.clientOid];
      assert SlotOk(c, s, r.ticker, o.side);
    }
  }

  /** Reading a response changes its own slot at most. */
  lemma ReadSlots(c: Client, s: System, t: nat, side: Side)
    requires Fits(c) && Formed(s) && s.seen < |s.venue.responses| && s.venue.responses[s.seen].ticker < ME_MAX_TICKERS
    requires t < ME_MAX_TICKERS
    ensures var r, s' := s.venue.responses[s.seen], AfterRead(c, s);
            var o := Slot(s.manager, t, side);
            && Shaped(s'.manager) && s'.manager.nextOid == s.manager.nextOid
            && Slot(s'.manager, t, side) ==
               if r.client == c.id && t == r.ticker && side == r.side then Updated(o, r) else o
  {
  }

  /** The response moves the track of the slot's order as it moves the slot. */
  lemma SlotFollows(c: Client, s: System, s': System, t: nat, side: Side, r: ClientResponse)
    requires Shaped(s.manager) && Shaped(s'.manager) && s.seen <= |s.venue.responses| && s'.seen <= |s'.venue.responses|
    requires t < ME_MAX_TICKERS && s'.orders == s.orders && SlotOk(c, s, t, side)
    requires var o := Slot(s.manager, t, side);
             var mine := r.client == c.id && t == r.ticker && side == r.side && r.kind != CANCEL_REJECTED;
             && (mine ==> Fitting(o, r))
             && Slot(s'.manager, t, side) == (if mine then Updated(o, r) else o)
             && Seen(c, s', t, o.oid) == (if mine then Advance(Seen(c, s, t, o.oid), r) else Seen(c, s, t, o.oid))
             && (Resolving(c, s', t, o.oid) <==> Resolving(c, s, t, o.oid))
    ensures SlotOk(c, s', t, side)
  {
    var o := Slot(s.manager, t, side);
    hide Seen, Shows, Fitting, Updated, Advance, Resolving;
    if r.client == c.id && t == r.ticker && side == r.side && r.kind != CANCEL_REJECTED {
      OnlyUsed(o, r);
      FittingMoves(o, r, Seen(c, s, t, o.oid), s.orders[o.oid].qty);
    }
  }

  /** A response that tells of the order of a slot is routed to that slot. */
  lemma ToldIsRouted(c: Client, s: System, t: nat, side: Side)
    requires Fits(c) && Inv(c, s) && s.seen < |s.venue.responses| && t < ME_MAX_TICKERS && side != INVALID
    ensures var r, o := s.venue.responses[s.seen], Slot(s.manager, t, side);
            o.state != UNUSED && About(r, c.id, t, o.oid) && r.kind != CANCEL_REJECTED ==> side == r.side
  {
    var r := s.venue.responses[s.seen];
    hide Inv, TrackOf, Good, Sound, Seen, All, Shows, Resolving;
    ResponseBelongs(c, s);
    InvOfSlot(c, s, t, side);
    if r.ticker == t && r.side != INVALID {
      InvOfSlot(c, s, t, r.side);
    }
  }

  /** CANCEL_REJECTED changes neither slots nor tracks. */
  lemma RejectedChangesNothing(o: OMOrder, tr: Track, r: ClientResponse)
    requires r.kind == CANCEL_REJECTED
    ensures Updated(o, r) == o && Advance(tr, r) == tr
  {
  }

  lemma ReadKeepsSlot(c: Client, s: System, t: nat, side: Side)
    requires Fits(c) && Inv(c, s) && s.seen < |s.venue.responses| && s.venue.responses[s.seen].ticker < ME_MAX_TICKERS
    requires t < ME_MAX_TICKERS && side != INVALID
    ensures Shaped(AfterRead(c, s).manager) && SlotOk(c, AfterRead(c, s), t, side)
  {
    hide Inv, TrackOf, Good, Sound, Seen, All, Shows, Updated, Resolving, SlotOk, Advance, Fitting, OnOrderUpdate, Slot;
    InvOfSlot(c, s, t, side);
    var r, s', o := s.venue.responses[s.seen], AfterRead(c, s), Slot(s.manager, t, side);
    ReadSlots(c, s, t, side);
    assert s'.orders == s.orders && s'.pending == s.pending && s'.seen <= |s'.venue.responses|;
    hide AfterRead;
    ReadMoves(c, s, t, o.oid);
    SameResolving(c, s, s', t, o.oid);
    ResponseBelongs(c, s);
    ToldIsRouted(c, s, t, side);
    if r.kind == CANCEL_REJECTED {
      RejectedChangesNothing(o, Seen(c, s, t, o.oid), r);
    }
    if o.state == UNUSED {
      UnusedStays(c, s, s', t, side, r);
    } else {
      if r.client == c.id && t == r.ticker && side == r.side && r.kind != CANCEL_REJECTED {
        FittingIsTold(c, o, r);
      }
      SlotFollows(c, s, s', t, side, r);
    }
  }

  lemma FittingIsTold(c: Client, o: OMOrder, r: ClientResponse)
    requires Fitting(o, r) && r.client == c.id
    ensures About(r, c.id, r.ticker, o.oid)
  {
  }

  /** No response reaches a slot that was never used. */
  lemma UnusedStays(c: Client, s: System, s': System, t: nat, side: Side, r: ClientResponse)
    requires Shaped(s.manager) && Shaped(s'.manager) && s'.seen <= |s'.venue.responses| && t < ME_MAX_TICKERS
    requires var o := Slot(s.manager, t, side);
             && o.state == UNUSED
             && (r.client == c.id && t == r.ticker && side == r.side && r.kind != CANCEL_REJECTED ==> Fitting(o, r))
             && (Slot(s'.manager, t, side) == if r.client == c.id && t == r.ticker && side == r.side then Updated(o, r) else o)
    ensures SlotOk(c, s', t, side)
  {
    hide Seen, Shows, Resolving;
  }

  lemma InvOfSlot(c: Client, s: System, t: nat, side: Side)
    requires Fits(c) && Inv(c, s) && t < ME_MAX_TICKERS && side != INVALID
    ensures Formed(s) && SlotOk(c, s, t, side)
  {
  }

  /** Reading leaves the requests in flight and the whole log as they are. */
  lemma SameResolving(c: Client, s: System, s': System, t: nat, oid: nat)
    requires s'.pending == s.pending && All(c, s', t, oid) == All(c, s, t, oid)
    ensures Resolving(c, s', t, oid) <==> Resolving(c, s, t, oid)
  {
  }

  lemma OnlyUsed(o: OMOrder, r: ClientResponse)
    requires Fitting(o, r) && r.kind != CANCEL_REJECTED
    ensures o.state != UNUSED
    ensures var p := Updated(o, r);
            && p.oid == o.oid && p.ticker == o.ticker && p.side == o.side
            && (p.state == PENDING_CANCEL ==> o.state == PENDING_CANCEL)
  {
  }

  /** Reading on never takes back what was read. */
  lemma ReadForward(c: Client, s: System, t: nat, oid: nat)
    requires Fits(c) && Formed(s) && VenueAgrees(s.venue, c.id) && t < ME_MAX_TICKERS
    requires s.seen < |s.venue.responses| && s.venue.responses[s.seen].ticker < ME_MAX_TICKERS
    ensures Later(Seen(c, s, t, oid), Seen(c, AfterRead(c, s), t, oid))
    ensures !Seen(c, s, t, oid).Unseen? ==> !Seen(c, AfterRead(c, s), t, oid).Unseen?
  {
    ReadMoves(c, s, t, oid);
    var s' := AfterRead(c, s);
    assert Formed(s') by { NextFormed(c, s, Read); }
    hide TrackOf, Good, Sound, Seen, All;
    SeenThenAll(c, s', t, oid);
  }

  lemma ReadKeepsPending(c: Client, s: System)
    requires Fits(c) && Inv(c, s) && s.seen < |s.venue.responses| && s.venue.responses[s.seen].ticker < ME_MAX_TICKERS
    ensures PendingOk(c, AfterRead(c, s)) && OrdersOk(c, AfterRead(c, s))
  {
    var s' := AfterRead(c, s);
    hide TrackOf, Good, Sound, Seen, All, SlotsOk, TracksOk, LogOk, Bounded, Owned, PendingOk, OrdersOk, Slot, OnOrderUpdate;
    ReadSlots(c, s, 0, BUY);
    assert s'.orders == s.orders && s'.pending == s.pending && s'.seen <= |s'.venue.responses|;
    hide AfterRead, VenueAgrees;
    forall t: nat, oid: nat | t < ME_MAX_TICKERS && !Seen(c, s, t, oid).Unseen?
      ensures !Seen(c, s', t, oid).Unseen?
    {
      ReadForward(c, s, t, oid);
    }
    PendingFollows(c, s, s');
  }

  /** Cancels in flight stay cancels of orders that were seen. */
  lemma PendingFollows(c: Client, s: System, s': System)
    requires s.seen <= |s.venue.responses| && s'.seen <= |s'.venue.responses|
    requires s'.orders == s.orders && s'.pending == s.pending && s'.manager.nextOid == s.manager.nextOid
    requires forall t: nat, oid: nat :: t < ME_MAX_TICKERS && !Seen(c, s, t, oid).Unseen? ==> !Seen(c, s', t, oid).Unseen?
    requires OrdersOk(c, s) && PendingOk(c, s)
    ensures OrdersOk(c, s') && PendingOk(c, s')
  {
    hide Seen;
  }

  lemma ReadKeepsOwned(c: Client, s: System)
    requires Fits(c) && Inv(c, s) && s.seen < |s.venue.responses| && s.venue.responses[s.seen].ticker < ME_MAX_TICKERS
    ensures Shaped(AfterRead(c, s).manager) && Owned(c, AfterRead(c, s))
  {
    var r, s' := s.venue.responses[s.seen], AfterRead(c, s);
    ResponseBelongs(c, s);
    ReadSlots(c, s, 0, BUY);
    assert s'.orders == s.orders && s'.seen <= |s'.venue.responses|;
    hide TrackOf, Good, Sound, Seen, All, SlotsOk, TracksOk, LogOk, Bounded, PendingOk, AfterRead;
    forall oid | oid in s.orders && s.orders[oid].New? && s.orders[oid].ticker < ME_MAX_TICKERS
      ensures var o := Slot(s'.manager, s.orders[oid].ticker, s.orders[oid].side);
              (o.state != UNUSED && o.oid == oid) || Seen(c, s', s.orders[oid].ticker, oid).Closed?
    {
      var t, side := s.orders[oid].ticker, s.orders[oid].side;
      ReadSlots(c, s, t, side);
      ReadForward(c, s, t, oid);
    }
  }

  /** What a position becomes by a response. */
  function Booked(position: int, r: ClientResponse): int {
    if r.kind == FILLED then position + r.execQty * SideToValue(r.side) else position
  }

  /** A fill moves as much into the position as it takes from the open quantity of its slot. */
  lemma FillMovesQty(o: OMOrder, r: ClientResponse, position: int, side: Side)
    requires side != INVALID && r.side != INVALID && (side == r.side && r.kind != CANCEL_REJECTED ==> Fitting(o, r))
    ensures SideToValue(side) * Booked(position, r) + OpenQty(if side == r.side then Updated(o, r) else o) <=
            SideToValue(side) * position + OpenQty(o)
  {
  }

  /** Reading moves one position and one slot of its ticker at most. */
  lemma ReadBooks(c: Client, s: System, t: nat, side: Side)
    requires Fits(c) && Formed(s) && s.seen < |s.venue.responses| && s.venue.responses[s.seen].ticker < ME_MAX_TICKERS
    requires t < ME_MAX_TICKERS
    ensures var r, s' := s.venue.responses[s.seen], AfterRead(c, s);
            |s'.positions| == ME_MAX_TICKERS
            && s'.positions[t] == if r.client == c.id && t == r.ticker then Booked(s.positions[t], r) else s.positions[t]
  {
  }

  lemma ReadKeepsBound(c: Client, s: System, t: nat, side: Side)
    requires Fits(c) && Inv(c, s) && s.seen < |s.venue.responses| && s.venue.responses[s.seen].ticker < ME_MAX_TICKERS
    requires t < ME_MAX_TICKERS && side != INVALID
    ensures var s' := AfterRead(c, s);
            && Shaped(s'.manager) && |s'.positions| == ME_MAX_TICKERS
            && SideToValue(side) * s'.positions[t] + OpenQty(Slot(s'.manager, t, side)) <= c.cfgs[t].maxPosition
  {
    var r, s' := s.venue.responses[s.seen], AfterRead(c, s);
    ResponseBelongs(c, s);
    ReadSlots(c, s, t, side);
    ReadBooks(c, s, t, side);
    assert SideToValue(side) * s.positions[t] + OpenQty(Slot(s.manager, t, side)) <= c.cfgs[t].maxPosition;
    hide Inv, Formed, Fits, AfterRead, Fitting, Updated, Booked, OpenQty, SideToValue;
    if r.client == c.id && t == r.ticker {
      if r.kind == CANCEL_REJECTED {
        RejectBooksNothing(Slot(s.manager, t, side), r, s.positions[t]);
      } else {
        FillMovesQty(Slot(s.manager, t, side), r, s.positions[t], side);
      }
    }
  }

  lemma RejectBooksNothing(o: OMOrder, r: ClientResponse, position: int)
    requires r.kind == CANCEL_REJECTED
    ensures Booked(position, r) == position && Updated(o, r) == o
  {
  }

  lemma ReadKeepsBounded(c: Client, s: System)
    requires Fits(c) && Inv(c, s) && s.seen < |s.venue.responses| && s.venue.responses[s.seen].ticker < ME_MAX_TICKERS
    ensures Formed(AfterRead(c, s)) && Bounded(c, AfterRead(c, s))
  {
    assert Formed(AfterRead(c, s)) by { NextFormed(c, s, Read); }
    hide Inv, Formed, Fits, AfterRead, OpenQty, SideToValue;
    forall t: nat, side | t < ME_MAX_TICKERS && side != INVALID
      ensures var s' := AfterRead(c, s);
              SideToValue(side) * s'.positions[t] + OpenQty(Slot(s'.manager, t, side)) <= c.cfgs[t].maxPosition
    {
      ReadKeepsBound(c, s, t, side);
    }
  }

  lemma SameRecords(c: Client, s: System, s': System)
    requires s'.orders == s.orders && s'.pending == s.pending && s'.venue == s.venue
    ensures LogOk(c, s) ==> LogOk(c, s')
    ensures TracksOk(c, s) ==> TracksOk(c, s')
  {
    hide TrackOf;
    assert forall t: nat, oid: nat :: All(c, s', t, oid) == All(c, s, t, oid) && (Reached(s', t, oid) <==> Reached(s, t, oid));
  }

  lemma ReadKeepsInv(c: Client, s: System)
    requires Fits(c) && Inv(c, s) && s.seen < |s.venue.responses| && s.venue.responses[s.seen].ticker < ME_MAX_TICKERS
    ensures Inv(c, AfterRead(c, s))
  {
    var s' := AfterRead(c, s);
    ReadKeepsPending(c, s);
    ReadKeepsOwned(c, s);
    ReadKeepsBounded(c, s);
    hide TrackOf, Good, Sound, Seen, Owned, PendingOk, VenueAgrees, Bounded, OrdersOk;
    assert SlotsOk(c, s') by {
      hide SlotOk, Inv;
      forall t: nat, side | t < ME_MAX_TICKERS && side != INVALID
        ensures SlotOk(c, s', t, side)
      {
        ReadKeepsSlot(c, s, t, side);
      }
    }
    hide SlotsOk;
    SameRecords(c, s, s');
  }

  // ---- The client moves an order ----

  /** A cancel marks the slot and adds one request. */
  predicate SendsCancel(c: Client, s: System, t: nat, side: Side, s': System)
    requires Shaped(s.manager) && t < ME_MAX_TICKERS
  {
    var o := Slot(s.manager, t, side);
    && o.state == LIVE
    && s' == s.(manager := WithSlot(s.manager, t, side, o.(state := PENDING_CANCEL)),
                pending := s.pending + multiset{Cancel(c.id, o.ticker, o.oid)})
  }

  lemma CancelKeepsSlots(c: Client, s: System, t: nat, side: Side, s': System)
    requires Fits(c) && Formed(s) && t < ME_MAX_TICKERS && side != INVALID && SendsCancel(c, s, t, side, s')
    requires SlotsOk(c, s) && Owned(c, s)
    ensures SlotsOk(c, s') && Owned(c, s')
  {
    hide TrackOf, Sound;
    forall u: nat, x | u < ME_MAX_TICKERS && x != INVALID
      ensures SlotOk(c, s', u, x)
    {
      assert SlotOk(c, s, u, x);
      assert Seen(c, s', u, Slot(s.manager, u, x).oid) == Seen(c, s, u, Slot(s.manager, u, x).oid);
    }
  }

  lemma CancelKeepsPending(c: Client, s: System, t: nat, side: Side, s': System)
    requires Fits(c) && Formed(s) && t < ME_MAX_TICKERS && side != INVALID && SendsCancel(c, s, t, side, s')
    requires SlotsOk(c, s) && PendingOk(c, s) && OrdersOk(c, s)
    ensures PendingOk(c, s')
  {
    hide TrackOf, Sound;
    assert SlotOk(c, s, t, side);
    hide SlotsOk;
    assert forall u: nat, oid: nat :: Seen(c, s', u, oid) == Seen(c, s, u, oid);
    hide Seen;
  }

  lemma CancelKeepsInv(c: Client, s: System, t: nat, side: Side, s': System)
    requires Fits(c) && Inv(c, s) && t < ME_MAX_TICKERS && side != INVALID && SendsCancel(c, s, t, side, s')
    ensures Inv(c, s')
  {
    hide TrackOf, Good, Sound, VenueAgrees;
    CancelKeepsSlots(c, s, t, side, s');
    CancelKeepsPending(c, s, t, side, s');
    hide SlotsOk, Owned, PendingOk;
    assert OrdersOk(c, s') && Bounded(c, s');
    hide OrdersOk, Bounded;
    assert LogOk(c, s');
    assert TracksOk(c, s') by {
      assert forall u: nat, oid: nat :: All(c, s', u, oid) == All(c, s, u, oid) && (Reached(s', u, oid) <==> Reached(s, u, oid));
    }
  }

  /** A new order takes a free slot, the next id, and one request. */
  predicate SendsNew(c: Client, s: System, t: nat, side: Side, price: int, qty: nat, s': System)
    requires Shaped(s.manager) && t < ME_MAX_TICKERS
  {
    var id, o := s.manager.nextOid, Slot(s.manager, t, side);
    var req := New(c.id, t, id, side, price, qty);
    && (o.state == UNUSED || o.state == DEAD)
    && s' == s.(manager := WithSlot(s.manager, t, side, OMOrder(t, id, side, price, qty, PENDING_NEW)).(nextOid := id + 1),
                pending := s.pending + multiset{req}, orders := s.orders[id := req])
  }

  lemma NewIsUnseen(c: Client, s: System, t: nat)
    requires Fits(c) && Inv(c, s) && t < ME_MAX_TICKERS
    ensures All(c, s, t, s.manager.nextOid).Unseen? && Seen(c, s, t, s.manager.nextOid).Unseen?
    ensures s.manager.nextOid !in s.orders && forall req :: req in s.pending ==> req.oid in s.orders
  {
    SeenThenAll(c, s, t, s.manager.nextOid);
    hide TrackOf, Good, Sound, VenueAgrees, SlotsOk, Owned, LogOk, Bounded;
    assert !Reached(s, t, s.manager.nextOid);
  }

  lemma NewKeepsSlots(c: Client, s: System, t: nat, side: Side, price: int, qty: nat, s': System)
    requires Fits(c) && Inv(c, s) && t < ME_MAX_TICKERS && side != INVALID && SendsNew(c, s, t, side, price, qty, s')
    ensures SlotsOk(c, s')
  {
    hide Inv, TrackOf, Good, Sound;
    FormedInv(c, s);
    NewIsUnseen(c, s, t);
    forall u: nat, x | u < ME_MAX_TICKERS && x != INVALID
      ensures SlotOk(c, s', u, x)
    {
      InvOfSlot(c, s, u, x);
      assert Slot(s'.manager, u, x) == if u == t && x == side then OMOrder(t, s.manager.nextOid, side, price, qty, PENDING_NEW) else Slot(s.manager, u, x);
    }
  }

  lemma NewKeepsOwned(c: Client, s: System, t: nat, side: Side, price: int, qty: nat, s': System)
    requires Fits(c) && Inv(c, s) && t < ME_MAX_TICKERS && side != INVALID && SendsNew(c, s, t, side, price, qty, s')
    ensures Owned(c, s')
  {
    hide Inv, TrackOf, Good, Sound;
    FormedInv(c, s);
    OwnedInv(c, s);
    InvOfSlot(c, s, t, side);
    forall oid | oid in s'.orders && s'.orders[oid].New? && s'.orders[oid].ticker < ME_MAX_TICKERS
      ensures var o := Slot(s'.manager, s'.orders[oid].ticker, s'.orders[oid].side);
              (o.state != UNUSED && o.oid == oid) || Seen(c, s', s'.orders[oid].ticker, oid).Closed?
    {
      if oid != s.manager.nextOid {
        assert Seen(c, s', s.orders[oid].ticker, oid) == Seen(c, s, s.orders[oid].ticker, oid);
      }
    }
  }

  lemma NewKeepsLog(c: Client, s: System, t: nat, side: Side, price: int, qty: nat, s': System)
    requires Fits(c) && Inv(c, s) && t < ME_MAX_TICKERS && side != INVALID && SendsNew(c, s, t, side, price, qty, s')
    ensures OrdersOk(c, s') && LogOk(c, s')
  {
    NewIsUnseen(c, s, t);
    hide TrackOf, Good, Sound, VenueAgrees, SlotsOk, Owned, Bounded, PendingOk, TracksOk;
  }

  lemma NewKeepsPending(c: Client, s: System, t: nat, side: Side, price: int, qty: nat, s': System)
    requires Fits(c) && Inv(c, s) && t < ME_MAX_TICKERS && side != INVALID && SendsNew(c, s, t, side, price, qty, s')
    ensures PendingOk(c, s')
  {
    NewIsUnseen(c, s, t);
    var sent := New(c.id, t, s.manager.nextOid, side, price, qty);
    hide Formed, VenueAgrees, SlotsOk, Owned, Bounded, TracksOk, LogOk, OrdersOk, Fits;
    forall req | req in s'.pending
      ensures req.client == c.id && req.oid in s'.orders && req.ticker == s'.orders[req.oid].ticker
      ensures req.New? ==> req == s'.orders[req.oid] && s'.pending[req] == 1
      ensures req.Cancel? ==> !Seen(c, s', req.ticker, req.oid).Unseen?
    {
      hide Seen;
      if req != sent {
        assert req in s.pending && req.oid != s.manager.nextOid;
        assert s'.pending[req] == s.pending[req];
        SameSeen(c, s, s', req.ticker, req.oid);
      }
    }
  }

  lemma SameSeen(c: Client, s: System, s': System, t: nat, oid: nat)
    requires s.seen <= |s.venue.responses| && s'.venue == s.venue && s'.seen == s.seen
    ensures Seen(c, s', t, oid) == Seen(c, s, t, oid)
  {
  }

  lemma NewKeepsTracks(c: Client, s: System, t: nat, side: Side, price: int, qty: nat, s': System)
    requires Fits(c) && Inv(c, s) && t < ME_MAX_TICKERS && side != INVALID && SendsNew(c, s, t, side, price, qty, s')
    ensures TracksOk(c, s')
  {
    var id := s.manager.nextOid;
    forall u: nat, oid: nat | u < ME_MAX_TICKERS
      ensures All(c, s', u, oid) == All(c, s, u, oid)
      ensures Reached(s', u, oid) <==> Reached(s, u, oid)
      ensures Reached(s', u, oid) ==> s'.orders[oid] == s.orders[oid]
    {
      NewIsUnseen(c, s, u);
      hide TrackOf, Good, Sound, VenueAgrees, SlotsOk, Owned, Bounded, TracksOk, LogOk;
      if oid == id {
        assert s'.orders[id] in s'.pending;
      } else if oid in s.orders {
        assert s'.orders[oid] in s'.pending <==> s.orders[oid] in s.pending;
      }
    }
    hide All, Reached, Sound, VenueAgrees, SlotsOk, Owned, Bounded, LogOk;
  }

  /** The check at submission is what keeps the whole run within the limit. */
  lemma NewKeepsBounded(c: Client, s: System, t: nat, side: Side, price: int, qty: nat, totalPnl: real, s': System)
    requires Fits(c) && Inv(c, s) && t < ME_MAX_TICKERS && side != INVALID && SendsNew(c, s, t, side, price, qty, s')
    requires Permitted(c.cfgs[t], s.positions[t], totalPnl, side, qty)
    ensures Bounded(c, s')
  {
    hide TrackOf, Good, Sound, VenueAgrees, SlotsOk, Owned, TracksOk, LogOk, PendingOk, OrdersOk;
    PositionWithinLimit(c, s, t);
    forall u: nat, x | u < ME_MAX_TICKERS && x != INVALID
      ensures SideToValue(x) * s'.positions[u] + OpenQty(Slot(s'.manager, u, x)) <= c.cfgs[u].maxPosition
    {
      assert SideToValue(x) * s.positions[u] + OpenQty(Slot(s.manager, u, x)) <= c.cfgs[u].maxPosition;
      assert Slot(s'.manager, u, x) == if u == t && x == side then OMOrder(t, s.manager.nextOid, side, price, qty, PENDING_NEW) else Slot(s.manager, u, x);
    }
  }

  lemma PositionWithinLimit(c: Client, s: System, t: nat)
    requires Fits(c) && Shaped(s.manager) && |s.positions| == ME_MAX_TICKERS && Bounded(c, s) && t < ME_MAX_TICKERS
    ensures Abs(s.positions[t]) <= c.cfgs[t].maxPosition
  {
    assert SideToValue(BUY) * s.positions[t] + OpenQty(Slot(s.manager, t, BUY)) <= c.cfgs[t].maxPosition;
    assert SideToValue(SELL) * s.positions[t] + OpenQty(Slot(s.manager, t, SELL)) <= c.cfgs[t].maxPosition;
  }

  lemma NewKeepsInv(c: Client, s: System, t: nat, side: Side, price: int, qty: nat, totalPnl: real, s': System)
    requires Fits(c) && Inv(c, s) && t < ME_MAX_TICKERS && side != INVALID && SendsNew(c, s, t, side, price, qty, s')
    requires Permitted(c.cfgs[t], s.positions[t], totalPnl, side, qty)
    ensures Inv(c, s')
  {
    NewKeepsSlots(c, s, t, side, price, qty, s');
    NewKeepsOwned(c, s, t, side, price, qty, s');
    NewKeepsLog(c, s, t, side, price, qty, s');
    NewKeepsPending(c, s, t, side, price, qty, s');
    NewKeepsTracks(c, s, t, side, price, qty, s');
    NewKeepsBounded(c, s, t, side, price, qty, totalPnl, s');
    assert Formed(s') && s'.venue == s.venue by { hide Sound; }
    hide SlotsOk, Owned, LogOk, PendingOk, TracksOk, Bounded, OrdersOk, VenueAgrees, Formed, SendsNew;
  }

  lemma MoveKeepsInv(c: Client, s: System, e: Event)
    requires Fits(c) && Inv(c, s) && e.Move? && e.ticker < ME_MAX_TICKERS && e.side != INVALID
    ensures Inv(c, AfterMove(c, s, e))
  {
    var s', t, side := AfterMove(c, s, e), e.ticker, e.side;
    hide Inv, Permitted, SendsCancel, SendsNew, AfterMove, Formed;
    FormedInv(c, s);
    InvBounds(c, s, t);
    MoveCases(c, s, e);
    var o := Slot(s.manager, t, side);
    if o.state == LIVE && o.price != e.price {
      CancelKeepsInv(c, s, t, side, s');
    } else if s' != s {
      NewKeepsInv(c, s, t, side, e.price, e.qty, e.totalPnl, s');
    }
  }

  /**
   * A move cancels exactly a live order at another price; it sends a new order exactly into a free slot, at a price,
   * within the limits; otherwise it changes nothing.
   */
  lemma MoveCases(c: Client, s: System, e: Event)
    requires Fits(c) && Formed(s) && e.Move? && e.ticker < ME_MAX_TICKERS && e.side != INVALID
    requires Abs(s.positions[e.ticker]) <= c.cfgs[e.ticker].maxPosition
    ensures var s', t, side, o := AfterMove(c, s, e), e.ticker, e.side, Slot(s.manager, e.ticker, e.side);
            var cancels := o.state == LIVE && o.price != e.price;
            var sends := (o.state == UNUSED || o.state == DEAD) && e.price != Price_INVALID
                         && Permitted(c.cfgs[t], s.positions[t], e.totalPnl, side, e.qty);
            && (cancels ==> SendsCancel(c, s, t, side, s'))
            && (sends ==> SendsNew(c, s, t, side, e.price, e.qty, s'))
            && (!cancels && !sends ==> s' == s)
  {
    hide Sound, CheckPreTradeRisk, Permitted, OrderProtocol.MoveOrder;
    var s', t := AfterMove(c, s, e), e.ticker;
    MoveExactly(s.manager, c.id, t, e.side, e.price, e.qty, c.cfgs[t], s.positions[t], e.totalPnl);
    assert s.pending + multiset{} == s.pending;
  }

  lemma InvBounds(c: Client, s: System, t: nat)
    requires Fits(c) && Inv(c, s) && t < ME_MAX_TICKERS
    ensures |s.positions| == ME_MAX_TICKERS && Abs(s.positions[t]) <= c.cfgs[t].maxPosition
  {
    PositionWithinLimit(c, s, t);
  }

  lemma OwnedInv(c: Client, s: System)
    requires Fits(c) && Inv(c, s)
    ensures Formed(s) && Owned(c, s)
  {
  }

  lemma FormedInv(c: Client, s: System)
    requires Fits(c) && Inv(c, s)
    ensures Formed(s) && Shaped(s.manager) && |s.positions| == ME_MAX_TICKERS
  {
  }
}
