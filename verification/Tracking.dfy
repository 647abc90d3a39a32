/** What a client can tell of its orders from the responses alone, and why it agrees with the exchange's books. */
module Tracking {
  import opened Types
  import opened BookSpec
  import opened Matching
  import opened Exchange

  /** An order as its responses tell it; Broken when no order could have got these responses. */
  datatype Track = Unseen | Open(side: Side, leaves: nat) | Closed | Broken

  /** ACCEPTED comes first, every FILLED continues from the quantity left, nothing follows the end. */
  function Advance(tr: Track, r: ClientResponse): Track {
    match r.kind
    case ACCEPTED => if tr.Unseen? then Open(r.side, r.leavesQty) else Broken
    case FILLED =>
      if tr.Open? && r.side == tr.side && 0 < r.execQty && tr.leaves == r.execQty + r.leavesQty
      then if r.leavesQty == 0 then Closed else Open(tr.side, r.leavesQty)
      else Broken
    case CANCELED => if tr.Open? && r.side == tr.side && 0 < r.leavesQty == tr.leaves then Closed else Broken
    case CANCEL_REJECTED => tr
  }

  predicate About(r: ClientResponse, client: nat, ticker: nat, oid: nat) {
    r.client == client && r.ticker == ticker && r.clientOid == oid
  }

  function TrackOf(rs: seq<ClientResponse>, client: nat, ticker: nat, oid: nat): Track {
    if rs == [] then
      Unseen
    else
      var before := TrackOf(rs[..|rs| - 1], client, ticker, oid);
      if About(rs[|rs| - 1], client, ticker, oid) then Advance(before, rs[|rs| - 1]) else before
  }

  lemma TrackMore(rs: seq<ClientResponse>, r: ClientResponse, client: nat, ticker: nat, oid: nat)
    ensures TrackOf(rs + [r], client, ticker, oid) ==
            if About(r, client, ticker, oid) then Advance(TrackOf(rs, client, ticker, oid), r)
            else TrackOf(rs, client, ticker, oid)
  {
    assert (rs + [r])[..|rs|] == rs;
  }

  /** What a track can become, short of broken. */
  predicate Later(before: Track, after: Track) {
    match before
    case Unseen => true
    case Open(side, leaves) =>
      || (after.Closed? && 0 < leaves)
      || (after.Open? && after.side == side && after.leaves <= leaves && (after.leaves == 0 ==> leaves == 0))
    case Closed => after.Closed?
    case Broken => after.Broken?
  }

  lemma {:induction false} TrackGrows(rs: seq<ClientResponse>, ss: seq<ClientResponse>, client: nat, ticker: nat, oid: nat)
    requires !TrackOf(rs + ss, client, ticker, oid).Broken?
    ensures Later(TrackOf(rs, client, ticker, oid), TrackOf(rs + ss, client, ticker, oid))
  {
    if ss == [] {
      assert rs + ss == rs;
    } else {
      var n := |ss| - 1;
      assert rs + ss == (rs + ss[..n]) + [ss[n]];
      TrackMore(rs + ss[..n], ss[n], client, ticker, oid);
      TrackGrows(rs, ss[..n], client, ticker, oid);
    }
  }

  /** The track of an order and the book say the same. */
  ghost predicate Matches(tr: Track, book: Book<ClientKey>, key: ClientKey) {
    && !tr.Broken?
    && (forall id :: id in book && book[id].key == key ==> tr == Open(book[id].side, book[id].qty))
    && (tr.Open? && 0 < tr.leaves ==> Live(book, key))
  }

  /** The tracks of all orders of one client in one ticker agree with the book, except that of order `busy`. */
  ghost predicate Agrees(rs: seq<ClientResponse>, client: nat, ticker: nat, book: Book<ClientKey>, busy: Option<nat>) {
    forall oid: nat :: busy != Some(oid) ==> Matches(TrackOf(rs, client, ticker, oid), book, ClientKey(client, oid))
  }

  /** The incoming order of one `add`, if it is the client's own. */
  function Busy(t: Taker, client: nat): Option<nat> {
    if t.client == client then Some(t.oid) else None
  }

  function Remaining(side: Side, leaves: nat): Track {
    if leaves == 0 then Closed else Open(side, leaves)
  }

  /** The client's own incoming order has `leaves` left according to its responses. */
  ghost predicate TakerTrack(rs: seq<ClientResponse>, t: Taker, client: nat, leaves: nat) {
    t.client == client ==> TrackOf(rs, client, t.ticker, t.oid) == Remaining(t.side, leaves)
  }

  lemma TwoMore(rs: seq<ClientResponse>, r: ClientResponse, p: ClientResponse, client: nat, ticker: nat, oid: nat)
    requires !About(r, client, ticker, oid)
    ensures TrackOf(rs + [r, p], client, ticker, oid) ==
            if About(p, client, ticker, oid) then Advance(TrackOf(rs, client, ticker, oid), p)
            else TrackOf(rs, client, ticker, oid)
  {
    assert rs + [r, p] == rs + [r] + [p];
    TrackMore(rs, r, client, ticker, oid);
    TrackMore(rs + [r], p, client, ticker, oid);
  }

  /** The resting order of a fill. */
  lemma RestingMatches(tr: Track, t: Taker, book: Book<ClientKey>, id: nat, leaves: nat)
    requires WellFormed(book) && id in book && 0 < leaves && Matches(tr, book, book[id].key)
    ensures var one := MatchOne(t, book, id, leaves);
            Matches(Advance(tr, one.responses[1]), one.book, book[id].key)
  {
    var one := MatchOne(t, book, id, leaves);
    assert id in one.book ==> one.book[id].key == book[id].key;
  }

  /** Any other order of the book. */
  lemma OthersMatch(tr: Track, t: Taker, book: Book<ClientKey>, id: nat, leaves: nat, key: ClientKey)
    requires id in book && Matches(tr, book, key) && book[id].key != key
    ensures Matches(tr, MatchOne(t, book, id, leaves).book, key)
  {
    var one := MatchOne(t, book, id, leaves);
    if Live(book, key) {
      var j :| j in book && book[j].key == key;
      assert j in one.book && one.book[j].key == key;
    }
  }

  lemma FillTracks(rs: seq<ClientResponse>, t: Taker, book: Book<ClientKey>, id: nat, leaves: nat, client: nat, oid: nat)
    requires WellFormed(book) && id in book && 0 < leaves
    requires Busy(t, client) != Some(oid) && Matches(TrackOf(rs, client, t.ticker, oid), book, ClientKey(client, oid))
    ensures var one := MatchOne(t, book, id, leaves);
            Matches(TrackOf(rs + one.responses, client, t.ticker, oid), one.book, ClientKey(client, oid))
  {
    var one := MatchOne(t, book, id, leaves);
    var tr, key := TrackOf(rs, client, t.ticker, oid), ClientKey(client, oid);
    var r, p := one.responses[0], one.responses[1];
    assert one.responses == [r, p];
    hide WellFormed, Matches;
    TwoMore(rs, r, p, client, t.ticker, oid);
    if book[id].key == key {
      RestingMatches(tr, t, book, id, leaves);
    } else {
      OthersMatch(tr, t, book, id, leaves, key);
    }
  }

  /** One fill moves the tracks of both parties as the book moves. */
  lemma MatchOneTracks(rs: seq<ClientResponse>, t: Taker, book: Book<ClientKey>, id: nat, leaves: nat, client: nat)
    requires WellFormed(book) && id in book && 0 < leaves && FreshKey(book, ClientKey(t.client, t.oid))
    requires Agrees(rs, client, t.ticker, book, Busy(t, client)) && TakerTrack(rs, t, client, leaves)
    ensures var one := MatchOne(t, book, id, leaves); var after := rs + one.responses;
            && Agrees(after, client, t.ticker, one.book, Busy(t, client)) && TakerTrack(after, t, client, one.leaves)
            && FreshKey(one.book, ClientKey(t.client, t.oid))
  {
    var one := MatchOne(t, book, id, leaves);
    forall oid: nat | Busy(t, client) != Some(oid)
      ensures Matches(TrackOf(rs + one.responses, client, t.ticker, oid), one.book, ClientKey(client, oid))
    {
      hide MatchOne, Matches;
      FillTracks(rs, t, book, id, leaves, client, oid);
    }
    var r, p := one.responses[0], one.responses[1];
    assert rs + one.responses == rs + [r] + [p];
    hide TrackOf, Agrees;
    TrackMore(rs, r, client, t.ticker, t.oid);
    TrackMore(rs + [r], p, client, t.ticker, t.oid);
    assert book[id].key != ClientKey(t.client, t.oid) && 0 < book[id].qty;
  }

  lemma {:induction false} MatchAllTracks(rs: seq<ClientResponse>, t: Taker, book: Book<ClientKey>, leaves: nat, client: nat)
    requires WellFormed(book) && t.side != INVALID && 0 < leaves && FreshKey(book, ClientKey(t.client, t.oid))
    requires Agrees(rs, client, t.ticker, book, Busy(t, client)) && TakerTrack(rs, t, client, leaves)
    ensures var m := MatchAll(t, book, leaves); var after := rs + m.responses;
            Agrees(after, client, t.ticker, m.book, Busy(t, client)) && TakerTrack(after, t, client, m.leaves)
    decreases leaves
  {
    hide WellFormed, HasSide, IsBest, MatchOne, Agrees, TakerTrack, FreshKey;
    if CanMatch(t, book, leaves) {
      var best := BestOpposite(t, book);
      var one := MatchOne(t, book, best, leaves);
      MatchOneKeeps(t, book, best, leaves);
      MatchOneTracks(rs, t, book, best, leaves, client);
      var more := MatchAll(t, one.book, one.leaves);
      assert rs + (one.responses + more.responses) == rs + one.responses + more.responses;
      if one.leaves > 0 {
        MatchAllTracks(rs + one.responses, t, one.book, one.leaves, client);
      } else {
        assert !CanMatch(t, one.book, 0);
        assert rs + one.responses + [] == rs + one.responses;
      }
    } else {
      assert rs + [] == rs;
    }
  }

  /** A response that answers `add` or `cancel` for one order changes no other track. */
  lemma AcceptTracks(rs: seq<ClientResponse>, r: ClientResponse, client: nat, book: Book<ClientKey>)
    requires Agrees(rs, client, r.ticker, book, None) && r.kind == ACCEPTED
    requires r.client == client ==> TrackOf(rs, client, r.ticker, r.clientOid).Unseen?
    ensures Agrees(rs + [r], client, r.ticker, book, if r.client == client then Some(r.clientOid) else None)
    ensures r.client == client ==> TrackOf(rs + [r], client, r.ticker, r.clientOid) == Open(r.side, r.leavesQty)
  {
    hide Matches, TrackOf;
    forall oid: nat
      ensures TrackOf(rs + [r], client, r.ticker, oid) ==
              if About(r, client, r.ticker, oid) then Advance(TrackOf(rs, client, r.ticker, oid), r)
              else TrackOf(rs, client, r.ticker, oid)
    {
      TrackMore(rs, r, client, r.ticker, oid);
    }
  }

  /** The remainder of the incoming order rests. */
  lemma RestTracks(rs: seq<ClientResponse>, t: Taker, book: Book<ClientKey>, o: Order<ClientKey>, client: nat)
    requires Agrees(rs, client, t.ticker, book, Busy(t, client)) && TakerTrack(rs, t, client, o.qty)
    requires o.key == ClientKey(t.client, t.oid) && o.side == t.side && 0 < o.qty && o.id !in book && FreshKey(book, o.key)
    ensures Agrees(rs, client, t.ticker, book[o.id := o], None)
  {
    hide TrackOf;
    forall oid: nat
      ensures Matches(TrackOf(rs, client, t.ticker, oid), book[o.id := o], ClientKey(client, oid))
    {
      var tr, key := TrackOf(rs, client, t.ticker, oid), ClientKey(client, oid);
      assert book[o.id := o][o.id].key == o.key;
      if key != o.key && Live(book, key) {
        var j :| j in book && book[j].key == key;
        assert book[o.id := o][j].key == key;
      }
    }
  }

  /** Nothing rests: the incoming order was filled, or asked for nothing. */
  lemma NoRestTracks(rs: seq<ClientResponse>, t: Taker, book: Book<ClientKey>, client: nat)
    requires Agrees(rs, client, t.ticker, book, Busy(t, client)) && FreshKey(book, ClientKey(t.client, t.oid))
    requires t.client == client ==> var tr := TrackOf(rs, client, t.ticker, t.oid); tr.Closed? || tr == Open(t.side, 0)
    ensures Agrees(rs, client, t.ticker, book, None)
  {
    hide TrackOf;
  }

  /** After `add` the tracks of a client agree with the book again. */
  lemma AddTracks(rs: seq<ClientResponse>, e: Engine, ticker: nat, client: nat, oid: nat, side: Side, price: int, qty: nat, who: nat)
    requires Good(e) && side != INVALID && FreshKey(e.book, ClientKey(client, oid)) && Agrees(rs, who, ticker, e.book, None)
    requires client == who ==> TrackOf(rs, who, ticker, oid).Unseen?
    ensures var s := Add(e, ticker, client, oid, side, price, qty);
            Agrees(rs + s.responses, who, ticker, s.engine.book, None)
  {
    var t := Taker(ticker, client, oid, e.nextId, side, price);
    var m := MatchAll(t, e.book, qty);
    var accepted := ClientResponse(ACCEPTED, client, ticker, oid, e.nextId, side, price, 0, qty);
    var s := Add(e, ticker, client, oid, side, price, qty);
    assert rs + s.responses == rs + [accepted] + m.responses;
    AcceptTracks(rs, accepted, who, e.book);
    RestIsSafe(t, e.book, qty);
    hide Good, WellFormed, Agrees, FreshKey, TrackOf, OneSidedAt;
    if qty == 0 {
      assert !CanMatch(t, e.book, 0);
      assert rs + [accepted] + [] == rs + [accepted];
      NoRestTracks(rs + [accepted], t, e.book, who);
    } else {
      MatchAllTracks(rs + [accepted], t, e.book, qty, who);
      if m.leaves == 0 {
        NoRestTracks(rs + s.responses, t, m.book, who);
      } else {
        var o := Order(e.nextId, ClientKey(client, oid), side, price, m.leaves, NextPriority(m.book, price));
        RestTracks(rs + s.responses, t, m.book, o, who);
      }
    }
  }

  lemma CancelTracks(rs: seq<ClientResponse>, e: Engine, ticker: nat, client: nat, oid: nat, who: nat)
    requires Good(e) && Agrees(rs, who, ticker, e.book, None)
    ensures var s := CancelOrder(e, ticker, client, oid);
            Agrees(rs + s.responses, who, ticker, s.engine.book, None)
  {
    var s := CancelOrder(e, ticker, client, oid);
    var r := s.responses[0];
    assert s.responses == [r];
    forall x: nat
      ensures Matches(TrackOf(rs + [r], who, ticker, x), s.engine.book, ClientKey(who, x))
    {
      TrackMore(rs, r, who, ticker, x);
      CancelMatches(TrackOf(rs, who, ticker, x), e, ticker, client, oid, ClientKey(who, x));
    }
  }

  lemma CancelMatches(tr: Track, e: Engine, ticker: nat, client: nat, oid: nat, key: ClientKey)
    requires Good(e) && Matches(tr, e.book, key)
    ensures var s := CancelOrder(e, ticker, client, oid);
            Matches(if key == ClientKey(client, oid) then Advance(tr, s.responses[0]) else tr, s.engine.book, key)
  {
    var s := CancelOrder(e, ticker, client, oid);
    if Live(e.book, key) && key != ClientKey(client, oid) {
      var j :| j in e.book && e.book[j].key == key;
      assert j in s.engine.book && s.engine.book[j].key == key;
    }
  }

  // ---- The exchange as a whole ----

  /** Responses that continue orders of one ticker: no ACCEPTED among them. */
  predicate Follows(rs: seq<ClientResponse>, ticker: nat) {
    forall r :: r in rs ==> r.ticker == ticker && r.kind != ACCEPTED
  }

  lemma {:induction false} MatchAllFollows(t: Taker, book: Book<ClientKey>, leaves: nat)
    requires WellFormed(book)
    ensures Follows(MatchAll(t, book, leaves).responses, t.ticker)
    decreases leaves
  {
    if CanMatch(t, book, leaves) {
      var best := BestOpposite(t, book);
      var one := MatchOne(t, book, best, leaves);
      MatchOneKeeps(t, book, best, leaves);
      assert Follows(one.responses, t.ticker);
      MatchAllFollows(t, one.book, one.leaves);
    }
  }

  /** ACCEPTED answers a NEW and stands first; every other response follows. */
  lemma ServeAccepts(e: Engine, req: Request)
    requires Good(e) && Accepts(e, req)
    ensures var rs := Serve(e, req).responses;
            match req
            case New(client, ticker, oid, side, price, qty) =>
              && rs != [] && rs[0] == ClientResponse(ACCEPTED, client, ticker, oid, e.nextId, side, price, 0, qty)
              && Follows(rs[1..], ticker)
            case Cancel(client, ticker, oid) => |rs| == 1 && Follows(rs, ticker) && About(rs[0], client, ticker, oid)
  {
    match req
    case New(client, ticker, oid, side, price, qty) =>
      var t := Taker(ticker, client, oid, e.nextId, side, price);
      MatchAllFollows(t, e.book, qty);
    case Cancel(_, _, _) =>
  }

  lemma {:induction false} UnseenStays(rs: seq<ClientResponse>, ss: seq<ClientResponse>, client: nat, ticker: nat, oid: nat)
    requires TrackOf(rs, client, ticker, oid).Unseen? && !TrackOf(rs + ss, client, ticker, oid).Broken?
    requires forall r :: r in ss && About(r, client, ticker, oid) ==> r.kind != ACCEPTED
    ensures TrackOf(rs + ss, client, ticker, oid).Unseen?
  {
    if ss == [] {
      assert rs + ss == rs;
    } else {
      var n := |ss| - 1;
      assert rs + ss == (rs + ss[..n]) + [ss[n]];
      TrackMore(rs + ss[..n], ss[n], client, ticker, oid);
      UnseenStays(rs, ss[..n], client, ticker, oid);
    }
  }

  lemma {:induction false} NotAbout(rs: seq<ClientResponse>, ss: seq<ClientResponse>, client: nat, ticker: nat, oid: nat)
    requires forall r :: r in ss ==> !About(r, client, ticker, oid)
    ensures TrackOf(rs + ss, client, ticker, oid) == TrackOf(rs, client, ticker, oid)
  {
    if ss == [] {
      assert rs + ss == rs;
    } else {
      var n := |ss| - 1;
      assert rs + ss == (rs + ss[..n]) + [ss[n]];
      TrackMore(rs + ss[..n], ss[n], client, ticker, oid);
      NotAbout(rs, ss[..n], client, ticker, oid);
    }
  }

  ghost predicate VenueAgrees(v: Venue, client: nat) {
    forall ticker :: 0 <= ticker < |v.engines| ==> Agrees(v.responses, client, ticker, v.engines[ticker].book, None)
  }

  predicate IsOwnNew(req: Request, client: nat, ticker: nat, oid: nat) {
    req.New? && req.client == client && req.ticker == ticker && req.oid == oid
  }

  /** A client uses an order id once. */
  predicate FirstUse(v: Venue, req: Request, client: nat) {
    req.New? && req.client == client ==> TrackOf(v.responses, client, req.ticker, req.oid).Unseen?
  }

  /** Whatever request the exchange serves, the responses keep telling every order of a client correctly. */
  lemma ProcessTracks(v: Venue, req: Request, client: nat)
    requires Sound(v) && Admissible(v, req) && VenueAgrees(v, client) && FirstUse(v, req, client)
    ensures VenueAgrees(Process(v, req), client)
  {
    var w := Process(v, req);
    var e := v.engines[req.ticker];
    var s := Serve(e, req);
    ServeAccepts(e, req);
    forall ticker | 0 <= ticker < |w.engines|
      ensures Agrees(w.responses, client, ticker, w.engines[ticker].book, None)
    {
      hide Good, Accepts, Serve, TrackOf, Matches;
      if ticker == req.ticker {
        ServeTracks(v.responses, e, req, client);
      } else {
        forall oid: nat
          ensures TrackOf(w.responses, client, ticker, oid) == TrackOf(v.responses, client, ticker, oid)
        {
          NotAbout(v.responses, s.responses, client, ticker, oid);
        }
      }
    }
  }

  lemma ServeTracks(rs: seq<ClientResponse>, e: Engine, req: Request, who: nat)
    requires Good(e) && Accepts(e, req) && Agrees(rs, who, req.ticker, e.book, None)
    requires req.New? && req.client == who ==> TrackOf(rs, who, req.ticker, req.oid).Unseen?
    ensures Agrees(rs + Serve(e, req).responses, who, req.ticker, Serve(e, req).engine.book, None)
  {
    hide Good, Agrees, TrackOf, Add, CancelOrder;
    match req
    case New(client, ticker, oid, side, price, qty) => AddTracks(rs, e, ticker, client, oid, side, price, qty, who);
    case Cancel(client, ticker, oid) => CancelTracks(rs, e, ticker, client, oid, who);
  }

  lemma AfterMatches(v: Venue, req: Request, client: nat, ticker: nat, oid: nat)
    requires Sound(v) && Admissible(v, req) && VenueAgrees(Process(v, req), client) && ticker < |v.engines|
    ensures var after := TrackOf(Process(v, req).responses, client, ticker, oid);
            && !after.Broken?
            && (req == Cancel(client, ticker, oid) ==> after.Open? ==> after.leaves == 0)
  {
    var w := Process(v, req);
    if req == Cancel(client, ticker, oid) {
      Gone(v.engines[ticker], req);
    }
    hide Serve, Good, Accepts, TrackOf;
    assert Agrees(w.responses, client, ticker, w.engines[ticker].book, None);
    assert Matches(TrackOf(w.responses, client, ticker, oid), w.engines[ticker].book, ClientKey(client, oid));
  }

  /** How the responses to one request move the track of one order. */
  lemma RepliesMove(rs: seq<ClientResponse>, e: Engine, req: Request, client: nat, ticker: nat, oid: nat)
    requires Good(e) && Accepts(e, req) && !TrackOf(rs + Serve(e, req).responses, client, ticker, oid).Broken?
    requires IsOwnNew(req, client, ticker, oid) ==> TrackOf(rs, client, ticker, oid).Unseen?
    ensures var before := TrackOf(rs, client, ticker, oid);
            var after := TrackOf(rs + Serve(e, req).responses, client, ticker, oid);
            && Later(before, after)
            && (IsOwnNew(req, client, ticker, oid) ==> Later(Open(req.side, req.qty), after))
            && (!IsOwnNew(req, client, ticker, oid) && before.Unseen? ==> after.Unseen?)
  {
    var ss := Serve(e, req).responses;
    ServeAccepts(e, req);
    hide Serve, Good, Accepts, TrackOf;
    TrackGrows(rs, ss, client, ticker, oid);
    if IsOwnNew(req, client, ticker, oid) {
      AcceptedFirst(rs, ss, client, ticker, oid);
    } else if TrackOf(rs, client, ticker, oid).Unseen? {
      if req.New? {
        assert forall r :: r in ss ==> r == ss[0] || r in ss[1..];
      }
      UnseenStays(rs, ss, client, ticker, oid);
    }
  }

  lemma AcceptedFirst(rs: seq<ClientResponse>, ss: seq<ClientResponse>, client: nat, ticker: nat, oid: nat)
    requires ss != [] && ss[0].kind == ACCEPTED && About(ss[0], client, ticker, oid)
    requires TrackOf(rs, client, ticker, oid).Unseen? && !TrackOf(rs + ss, client, ticker, oid).Broken?
    ensures Later(Open(ss[0].side, ss[0].leavesQty), TrackOf(rs + ss, client, ticker, oid))
  {
    hide TrackOf;
    TrackMore(rs, ss[0], client, ticker, oid);
    assert rs + ss == (rs + [ss[0]]) + ss[1..];
    TrackGrows(rs + [ss[0]], ss[1..], client, ticker, oid);
  }

  /** How one request moves the track of one order. */
  lemma ProcessMoves(v: Venue, req: Request, client: nat, ticker: nat, oid: nat)
    requires Sound(v) && Admissible(v, req) && VenueAgrees(v, client) && FirstUse(v, req, client) && ticker < |v.engines|
    ensures var before := TrackOf(v.responses, client, ticker, oid);
            var after := TrackOf(Process(v, req).responses, client, ticker, oid);
            && !after.Broken? && Later(before, after)
            && (IsOwnNew(req, client, ticker, oid) ==> Later(Open(req.side, req.qty), after))
            && (!IsOwnNew(req, client, ticker, oid) && before.Unseen? ==> after.Unseen?)
            && (req == Cancel(client, ticker, oid) ==> after.Open? ==> after.leaves == 0)
  {
    hide Serve, Good, Accepts, TrackOf, VenueAgrees;
    ProcessTracks(v, req, client);
    AfterMatches(v, req, client, ticker, oid);
    RepliesMove(v.responses, v.engines[req.ticker], req, client, ticker, oid);
  }

  /** After a cancel the order is not in the book. */
  lemma Gone(e: Engine, req: Request)
    requires Good(e) && req.Cancel?
    ensures !Live(Serve(e, req).engine.book, ClientKey(req.client, req.oid))
  {
  }
}
