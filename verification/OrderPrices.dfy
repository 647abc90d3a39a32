/** A slot's price is the price its order rests and fills at, and the price of the last move that could act. */
module OrderPrices {
  import opened Types
  import opened BookSpec
  import opened Matching
  import opened Exchange
  import opened AsAsked
  import opened RiskManagement
  import opened OrderProtocol
  import opened ProtocolSafety
  import opened ProtocolResults

  // ---- The price of a slot is the price its order was sent with ----

  ghost predicate Priced(s: System, t: nat, side: Side)
    requires Shaped(s.manager) && t < ME_MAX_TICKERS
  {
    var o := Slot(s.manager, t, side);
    o.state != UNUSED ==> o.oid in s.orders && s.orders[o.oid].New? && s.orders[o.oid].price == o.price
  }

  /** A response never changes the price of a slot. */
  lemma ReadPriced(c: Client, s: System, t: nat, side: Side)
    requires Fits(c) && Formed(s) && s.seen < |s.venue.responses| && s.venue.responses[s.seen].ticker < ME_MAX_TICKERS
    requires Inv(c, s) && t < ME_MAX_TICKERS && side != INVALID && Priced(s, t, side)
    ensures Shaped(AfterRead(c, s).manager) && Priced(AfterRead(c, s), t, side)
  {
    hide Inv, Formed, Fitting;
    FormedInv(c, s);
    ReadSlots(c, s, t, side);
    ResponseBelongs(c, s);
    var r, o := s.venue.responses[s.seen], Slot(s.manager, t, side);
    if r.kind != CANCEL_REJECTED && r.client == c.id && t == r.ticker && side == r.side {
      OnlyUsed(o, r);
    }
  }

  lemma MovePriced(c: Client, s: System, e: Event, t: nat, side: Side)
    requires Fits(c) && Inv(c, s) && e.Move? && e.ticker < ME_MAX_TICKERS && e.side != INVALID
    requires Formed(s) && t < ME_MAX_TICKERS && side != INVALID && Priced(s, t, side)
    ensures Shaped(AfterMove(c, s, e).manager) && Priced(AfterMove(c, s, e), t, side)
  {
    hide Inv, Formed, AfterMove, Permitted;
    FormedInv(c, s);
    InvBounds(c, s, e.ticker);
    MoveCases(c, s, e);
    FreshOid(c, s);
  }

  lemma FreshOid(c: Client, s: System)
    requires Fits(c) && Inv(c, s)
    ensures s.manager.nextOid !in s.orders
  {
    NewIsUnseen(c, s, 0);
  }

  lemma {:induction false} RunPriced(c: Client, events: seq<Event>, t: nat, side: Side)
    requires Fits(c) && Run(c, events).Some? && t < ME_MAX_TICKERS && side != INVALID
    ensures Priced(Run(c, events).value, t, side)
  {
    hide Inv, Formed, Process, Admissible, AfterMove, AfterRead, Priced;
    if events == [] {
      StartPriced(t, side);
    } else {
      var before, e := events[..|events| - 1], events[|events| - 1];
      RunPriced(c, before, t, side);
      RunInv(c, before);
      var s := Run(c, before).value;
      FormedInv(c, s);
      if e.Move? {
        MovePriced(c, s, e, t, side);
      } else if e.Read? {
        ReadPriced(c, s, t, side);
      } else {
        SamePriced(s, Run(c, events).value, t, side);
      }
    }
  }

  lemma SamePriced(s: System, s': System, t: nat, side: Side)
    requires Shaped(s.manager) && t < ME_MAX_TICKERS && s'.manager == s.manager && s'.orders == s.orders && Priced(s, t, side)
    ensures Priced(s', t, side)
  {
  }

  lemma StartPriced(t: nat, side: Side)
    requires t < ME_MAX_TICKERS
    ensures Shaped(Start().manager) && Priced(Start(), t, side)
  {
  }

  // ---- What reaches the exchange is what is on record ----

  /** Every NEW of the client that was served is on record as it was sent. */
  ghost predicate OnRecord(c: Client, s: System, reqs: seq<Request>) {
    forall req :: req in reqs && req.client == c.id && req.New? ==> req.oid in s.orders && s.orders[req.oid] == req
  }

  lemma {:induction false} ServedOnRecord(c: Client, events: seq<Event>)
    requires Fits(c) && Run(c, events).Some?
    ensures OnRecord(c, Run(c, events).value, Served(events))
  {
    hide Inv, Formed, Process, Admissible, AfterMove, AfterRead;
    if events != [] {
      var before, e := events[..|events| - 1], events[|events| - 1];
      ServedOnRecord(c, before);
      RunInv(c, before);
      var s := Run(c, before).value;
      RecordGrows(c, s, e);
      if e.Deliver? && e.req.New? {
        PendingOnRecord(c, s, e.req);
      }
    }
  }

  lemma PendingOnRecord(c: Client, s: System, req: Request)
    requires Fits(c) && Inv(c, s) && req in s.pending && req.New?
    ensures req.oid in s.orders && s.orders[req.oid] == req
  {
  }

  lemma RecordGrows(c: Client, s: System, e: Event)
    requires Fits(c) && Inv(c, s) && Formed(s) && Next(c, s, e).Some?
    ensures forall oid :: oid in s.orders ==> var s' := Next(c, s, e).value; oid in s'.orders && s'.orders[oid] == s.orders[oid]
  {
    hide Inv, Formed, Process, Admissible, AfterMove, AfterRead, Permitted;
    FormedInv(c, s);
    if e.Move? {
      InvBounds(c, s, e.ticker);
      MoveCases(c, s, e);
      FreshOid(c, s);
    } else if e.Read? {
      ReadRecords(c, s);
    }
  }

  lemma ReadRecords(c: Client, s: System)
    requires Shaped(s.manager) && |s.positions| == ME_MAX_TICKERS && s.seen < |s.venue.responses|
    requires s.venue.responses[s.seen].ticker < ME_MAX_TICKERS
    ensures AfterRead(c, s).orders == s.orders
  {
  }

  // ---- The exchange holds and fills the client's orders at the prices of its slots ----

  /** In every reachable state, what the exchange holds and has sent goes back to what reached it. */
  lemma VenueAsAsked(c: Client, events: seq<Event>)
    requires Fits(c) && Run(c, events).Some?
    ensures AllAsAsked(Served(events), Run(c, events).value.venue)
  {
    hide After, Run, AllAsAsked, Served;
    VenueIsRun(c, events);
    RunAsAsked(Served(events));
  }

  lemma EngineEach(s: System)
    requires Formed(s)
    ensures |s.venue.engines| == ME_MAX_TICKERS
  {
  }

  /** The client's order at rest is the order of its slot, at the slot's price. */
  ghost predicate RestsAtSlot(c: Client, m: Manager, t: nat, o: Order<ClientKey>)
    requires Shaped(m) && t < ME_MAX_TICKERS
  {
    o.side != INVALID && Slot(m, t, o.side).oid == o.key.oid && Slot(m, t, o.side).price == o.price
  }

  /** At any time, not only once the channels are drained, an order of the client rests at the price its slot shows. */
  lemma RestsAtSlotPrice(c: Client, events: seq<Event>, t: nat, id: nat)
    requires Fits(c) && Run(c, events).Some? && t < ME_MAX_TICKERS
    requires var book := Run(c, events).value.venue.engines[t].book; id in book && book[id].key.client == c.id
    ensures var s := Run(c, events).value; var o := s.venue.engines[t].book[id];
            && RestsAtSlot(c, s.manager, t, o)
            && o.key.oid in s.orders && s.orders[o.key.oid].New? && o.qty <= s.orders[o.key.oid].qty
  {
    hide Inv, Formed, Run, Served, ToldOf, Answered;
    RunInv(c, events);
    var s := Run(c, events).value;
    EngineEach(s);
    RestingIsCurrent(c, s, t, id);
    VenueAsAsked(c, events);
    ServedOnRecord(c, events);
    var o := s.venue.engines[t].book[id];
    assert RestAsAsked(Served(events), t, s.venue.engines[t].book);
    var req :| req in Served(events) && RestsFor(req, t, o);
    RunPriced(c, events, t, o.side);
  }

  /** The next fill that the client reads is at a price that its slot agrees to, or better. */
  lemma FillsAtSlotPrice(c: Client, events: seq<Event>)
    requires Fits(c) && Run(c, events).Some?
    requires var s := Run(c, events).value; s.seen < |s.venue.responses| && s.venue.responses[s.seen].client == c.id
    requires var s := Run(c, events).value; s.venue.responses[s.seen].kind == FILLED
    ensures var s := Run(c, events).value; var r := s.venue.responses[s.seen];
            r.ticker < ME_MAX_TICKERS && r.side != INVALID && Agreeable(r.side, Slot(s.manager, r.ticker, r.side).price, r.price)
  {
    hide Inv, Formed, Run, Served, RestAsAsked, Answered;
    RunInv(c, events);
    var s := Run(c, events).value;
    var r := s.venue.responses[s.seen];
    ResponseBelongs(c, s);
    VenueAsAsked(c, events);
    ServedOnRecord(c, events);
    assert r in s.venue.responses && ToldOf(Served(events), r);
    var req :| req in Served(events) && AnswersTo(req, r);
    RunPriced(c, events, r.ticker, r.side);
  }

  // ---- Moves to one price ----

  /** The slot is at the price, or its order is on the way out, or it holds none. */
  predicate Settling(o: OMOrder, price: int) {
    o.state == UNUSED || o.state == DEAD || o.state == PENDING_CANCEL || o.price == price
  }

  /** The event moves this slot to no other price. */
  predicate SamePrice(e: Event, t: nat, side: Side, price: int) {
    e.Move? && e.ticker == t && e.side == side ==> e.price == price
  }

  /** A move to the price settles every slot that does not wait for its acceptance. */
  lemma MoveSettles(c: Client, s: System, e: Event, t: nat, side: Side, price: int)
    requires Fits(c) && Inv(c, s) && Formed(s) && t < ME_MAX_TICKERS && side != INVALID
    requires e.Move? && e.ticker < ME_MAX_TICKERS && e.side != INVALID && SamePrice(e, t, side, price)
    requires Settling(Slot(s.manager, t, side), price)
             || (e.ticker == t && e.side == side && Slot(s.manager, t, side).state != PENDING_NEW)
    ensures Shaped(AfterMove(c, s, e).manager) && Settling(Slot(AfterMove(c, s, e).manager, t, side), price)
  {
    hide Inv, Formed, AfterMove, Permitted;
    FormedInv(c, s);
    InvBounds(c, s, e.ticker);
    MoveCases(c, s, e);
  }

  lemma ReadSettles(c: Client, s: System, t: nat, side: Side, price: int)
    requires Fits(c) && Inv(c, s) && s.seen < |s.venue.responses| && s.venue.responses[s.seen].ticker < ME_MAX_TICKERS
    requires Formed(s) && t < ME_MAX_TICKERS && side != INVALID && Settling(Slot(s.manager, t, side), price)
    ensures Shaped(AfterRead(c, s).manager) && Settling(Slot(AfterRead(c, s).manager, t, side), price)
  {
    hide Inv, Formed, AfterRead;
    FormedInv(c, s);
    ReadSlots(c, s, t, side);
    ResponseBelongs(c, s);
  }

  lemma NextSettles(c: Client, s: System, e: Event, t: nat, side: Side, price: int)
    requires Fits(c) && Inv(c, s) && Formed(s) && Next(c, s, e).Some? && t < ME_MAX_TICKERS && side != INVALID
    requires SamePrice(e, t, side, price) && Settling(Slot(s.manager, t, side), price)
    ensures Shaped(Next(c, s, e).value.manager) && Settling(Slot(Next(c, s, e).value.manager, t, side), price)
  {
    hide Inv, Formed, Process, Admissible, AfterMove, AfterRead, Settling, SamePrice;
    FormedInv(c, s);
    if e.Move? {
      MoveSettles(c, s, e, t, side, price);
    } else if e.Read? {
      ReadSettles(c, s, t, side, price);
    }
  }

  /**
   * Once a move to a price has found the slot not waiting for an acceptance, and as long as the slot is moved to no other
   * price, it stays settling.
   */
  lemma {:induction false} RunSettles(c: Client, before: seq<Event>, e: Event, after: seq<Event>)
    requires Fits(c) && Run(c, before + [e] + after).Some? && e.Move? && e.ticker < ME_MAX_TICKERS && e.side != INVALID
    requires Run(c, before).Some? && Slot(Run(c, before).value.manager, e.ticker, e.side).state != PENDING_NEW
    requires forall x :: x in after ==> SamePrice(x, e.ticker, e.side, e.price)
    ensures Settling(Slot(Run(c, before + [e] + after).value.manager, e.ticker, e.side), e.price)
    decreases |after|
  {
    hide Inv, Formed, Process, Admissible, AfterMove, AfterRead, Settling;
    var t, side, price := e.ticker, e.side, e.price;
    if after == [] {
      assert before + [e] + after == before + [e];
      RunInv(c, before);
      RunMore(c, before, e);
      MoveSettles(c, Run(c, before).value, e, t, side, price);
    } else {
      var n := |after| - 1;
      var events, x := before + [e] + after[..n], after[n];
      assert before + [e] + after == events + [x];
      assert (events + [x])[..|events + [x]| - 1] == events;
      RunSettles(c, before, e, after[..n]);
      RunInv(c, events);
      RunMore(c, events, x);
      NextSettles(c, Run(c, events).value, x, t, side, price);
    }
  }

  /** After such moves a live slot is at the price, and once drained every order of the client at rest there is too. */
  lemma MovesTakeEffect(c: Client, before: seq<Event>, e: Event, after: seq<Event>)
    requires Fits(c) && Run(c, before + [e] + after).Some? && e.Move? && e.ticker < ME_MAX_TICKERS && e.side != INVALID
    requires Run(c, before).Some? && Slot(Run(c, before).value.manager, e.ticker, e.side).state != PENDING_NEW
    requires forall x :: x in after ==> SamePrice(x, e.ticker, e.side, e.price)
    ensures var s := Run(c, before + [e] + after).value;
            && (Slot(s.manager, e.ticker, e.side).state == LIVE ==> Slot(s.manager, e.ticker, e.side).price == e.price)
            && (Drained(c, s) ==>
                  var book := s.venue.engines[e.ticker].book;
                  forall id :: id in book && book[id].key.client == c.id && book[id].side == e.side ==> book[id].price == e.price)
  {
    hide Inv, Formed, Run, Drained;
    var events := before + [e] + after;
    RunSettles(c, before, e, after);
    var s := Run(c, events).value;
    if Drained(c, s) {
      EngineEach(s);
      var book := s.venue.engines[e.ticker].book;
      forall id | id in book && book[id].key.client == c.id && book[id].side == e.side
        ensures book[id].price == e.price
      {
        RestsAtSlotPrice(c, events, e.ticker, id);
        RestingDrained(c, events, e.ticker, id);
      }
    }
  }

  /** Once drained, the slot of an order at rest is live. */
  lemma RestingDrained(c: Client, events: seq<Event>, t: nat, id: nat)
    requires Fits(c) && Run(c, events).Some? && t < ME_MAX_TICKERS && Drained(c, Run(c, events).value)
    requires var book := Run(c, events).value.venue.engines[t].book; id in book && book[id].key.client == c.id
    ensures var s := Run(c, events).value; var o := s.venue.engines[t].book[id];
            o.side != INVALID && Slot(s.manager, t, o.side).state == LIVE
  {
    hide Inv, Run, Drained;
    RunInv(c, events);
    var s := Run(c, events).value;
    FormedInv(c, s);
    RestingIsCurrent(c, s, t, id);
    var o := s.venue.engines[t].book[id];
    DrainedSlots(c, events, t, o.side);
    RestsAtSlotPrice(c, events, t, id);
    assert 0 < o.qty by { assert Good(s.venue.engines[t]); }
  }
}
