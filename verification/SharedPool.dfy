/** The synthesizer's one pool for all tickers, against books that each have a pool of that size to themselves. */
module SharedPool {
  import opened Types
  import opened BookSpec
  import opened Matching
  import opened Replica
  import opened Exchange
  import opened MatchingEngines
  import opened Snapshots
  import opened SnapshotSynthesizers
  import opened TidyRuns
  import opened EndToEnd

  /** How many orders rest in all books. */
  ghost function Resting(engines: seq<Engine>): nat {
    if engines == [] then 0 else Resting(engines[..|engines| - 1]) + |engines[|engines| - 1].book|
  }

  /** At no time do as many orders rest at the exchange as the synthesizer's pool has blocks. */
  ghost predicate RestingFits(reqs: seq<Request>)
    requires After(reqs).Some?
  {
    forall k: nat :: k <= |reqs| ==> FitsAt(reqs, k)
  }

  ghost predicate FitsAt(reqs: seq<Request>, k: nat)
    requires After(reqs).Some? && k <= |reqs|
  {
    PrefixRuns(reqs, k);
    Resting(After(reqs[..k]).value.engines) < ME_MAX_ORDER_IDS
  }

  lemma PrefixRuns(reqs: seq<Request>, k: nat)
    requires After(reqs).Some? && k <= |reqs|
    ensures After(reqs[..k]).Some?
  {
    if k == |reqs| {
      assert reqs[..k] == reqs;
    } else {
      AfterPrefix(reqs, k);
    }
  }

  lemma {:induction false} SameCounts(rs: Records, engines: seq<Engine>)
    requires |rs| == |engines| && forall t :: 0 <= t < |rs| ==> |rs[t]| == |engines[t].book|
    ensures Total(rs) == Resting(engines)
    decreases |rs|
  {
    if rs != [] {
      SameCounts(rs[..|rs| - 1], engines[..|rs| - 1]);
    }
  }

  lemma StoredCount(t: nat, book: Book<ClientKey>)
    ensures |Stored(t, View(book))| == |book|
  {
    var r := Stored(t, View(book));
    assert r.Keys == book.Keys && |r| == |r.Keys| && |book| == |book.Keys|;
  }

  lemma RunIsGoodStream(reqs: seq<Request>)
    requires After(reqs).Some?
    ensures GoodStream(After(reqs).value.updates)
  {
    var us := After(reqs).value.updates;
    UpdatesReplicateBooks(reqs);
    RunGivesOutIds(reqs);
    hide After, AllApply, ApplyAll;
    assert forall k :: 0 <= k < |us| ==> us[k] in us;
  }

  /** Between requests the synthesizer has stored exactly as many orders as rest. */
  lemma TotalIsResting(reqs: seq<Request>)
    requires After(reqs).Some?
    ensures Total(NoteAll(After(reqs).value.updates)) == Resting(After(reqs).value.engines)
  {
    var v := After(reqs).value;
    RunIsGoodStream(reqs);
    UpdatesReplicateBooks(reqs);
    SynthesizerAgrees(v.updates);
    hide After, ApplyAll, AllApply, NoteAll, Stored, View, CopyOk, Good;
    forall t | 0 <= t < ME_MAX_TICKERS
      ensures |NoteAll(v.updates)[t]| == |v.engines[t].book|
    {
      StoredCount(t, v.engines[t].book);
    }
    SameCounts(NoteAll(v.updates), v.engines);
  }

  /** Without an ADD the synthesizer stores no more than before. */
  lemma {:induction false} NoAddNeedsNoBlock(us: seq<MarketUpdate>, vs: seq<MarketUpdate>)
    requires forall k :: 0 <= k < |vs| ==> vs[k].kind != ADD
    ensures Total(NoteAll(us + vs)) <= Total(NoteAll(us))
    decreases |vs|
  {
    if vs == [] {
      assert us + vs == us;
    } else {
      var before, u := vs[..|vs| - 1], vs[|vs| - 1];
      NoAddNeedsNoBlock(us, before);
      assert (us + vs)[..|us + vs| - 1] == us + before;
      hide Total;
      var rs := NoteAll(us + before);
      if u.ticker < |rs| {
        NotedFewer(rs[u.ticker], u);
        TotalAt(rs, u.ticker, Noted(rs[u.ticker], u));
      }
    }
  }

  lemma NotedFewer(r: Record, u: MarketUpdate)
    requires u.kind != ADD
    ensures |Noted(r, u)| <= |r|
  {
    if u.kind == CANCEL && u.orderId in r {
      FewerKeys(r, u.orderId);
    } else if u.kind == CANCEL {
      assert r - {u.orderId} == r;
    } else {
      SameKeys(r, Noted(r, u));
    }
  }

  /** The pool lasts through the updates of one more request exactly when it lasts until and at its end. */
  lemma LastsThrough(us: seq<MarketUpdate>, vs: seq<MarketUpdate>)
    requires forall k :: 0 <= k < |vs| - 1 ==> vs[k].kind != ADD
    ensures PoolLasts([], us + vs) <==> PoolLasts([], us) && Total(NoteAll(us + vs)) < ME_MAX_ORDER_IDS
  {
    hide Total, NoteAll;
    var all := us + vs;
    forall k | 0 <= k <= |all|
      ensures k <= |us| ==> all[..k] == us[..k]
      ensures PoolLasts([], us) && |us| <= k < |all| ==> Total(NoteAll([] + all[..k])) < ME_MAX_ORDER_IDS
    {
      if |us| <= k < |all| {
        assert all[..k] == us + vs[..k - |us|] && [] + all[..k] == all[..k];
        assert [] + us[..|us|] == us;
        NoAddNeedsNoBlock(us, vs[..k - |us|]);
      }
    }
    assert [] + all[..|all|] == all;
  }

  lemma NothingYet()
    ensures After([]).Some? && PoolLasts([], After([]).value.updates) && RestingFits([])
  {
    var none: seq<Request> := [];
    TotalIsResting(none);
    hide Total, Resting, NoteAll;
    assert none[..0] == none && [] + After(none).value.updates[..0] == After(none).value.updates;
    NoneRest(After(none).value.engines);
    LastFit(none);
  }

  lemma {:induction false} NoneRest(engines: seq<Engine>)
    requires forall t :: 0 <= t < |engines| ==> engines[t].book == map[]
    ensures Resting(engines) == 0
    decreases |engines|
  {
    if engines != [] {
      NoneRest(engines[..|engines| - 1]);
    }
  }

  lemma RestingMore(reqs: seq<Request>)
    requires After(reqs).Some? && reqs != [] && After(reqs[..|reqs| - 1]).Some?
    ensures RestingFits(reqs) <==>
            RestingFits(reqs[..|reqs| - 1]) && Resting(After(reqs).value.engines) < ME_MAX_ORDER_IDS
  {
    hide After, Resting, FitsAt;
    var n := |reqs| - 1;
    forall k: nat | k <= n
      ensures FitsAt(reqs, k) <==> FitsAt(reqs[..n], k)
    {
      SameFit(reqs, n, k);
    }
    LastFit(reqs);
  }

  lemma SameFit(reqs: seq<Request>, n: nat, k: nat)
    requires k <= n <= |reqs| && After(reqs).Some? && After(reqs[..n]).Some?
    ensures FitsAt(reqs, k) <==> FitsAt(reqs[..n], k)
  {
    hide After, Resting;
    assert reqs[..n][..k] == reqs[..k];
  }

  lemma LastFit(reqs: seq<Request>)
    requires After(reqs).Some?
    ensures FitsAt(reqs, |reqs|) <==> Resting(After(reqs).value.engines) < ME_MAX_ORDER_IDS
  {
    hide After, Resting;
    assert reqs[..|reqs|] == reqs;
  }

  lemma OneServed(reqs: seq<Request>)
    requires After(reqs).Some? && reqs != []
    ensures var before, req := reqs[..|reqs| - 1], reqs[|reqs| - 1];
            && After(before).Some? && Sound(After(before).value) && Admissible(After(before).value, req)
            && After(reqs).value.updates ==
               After(before).value.updates + Serve(After(before).value.engines[req.ticker], req).updates
  {
  }

  /** The pool lasts through all updates of a run if and only if fewer orders than blocks rest after every request. */
  lemma {:induction false} PoolLastsExactly(reqs: seq<Request>)
    requires After(reqs).Some?
    ensures PoolLasts([], After(reqs).value.updates) <==> RestingFits(reqs)
  {
    hide After, Total, NoteAll, Serve, Accepts, Good, Resting, RestingFits, PoolLasts;
    TotalIsResting(reqs);
    if reqs == [] {
      NothingYet();
    } else {
      var before, req := reqs[..|reqs| - 1], reqs[|reqs| - 1];
      OneServed(reqs);
      PoolLastsExactly(before);
      var v := After(before).value;
      AddComesLast(v.engines[req.ticker], req);
      LastsThrough(v.updates, Serve(v.engines[req.ticker], req).updates);
      RestingMore(reqs);
    }
  }

  // ---- Books in range, and the pool too small ----

  /** A bid for one unit at 100, the next of its ticker. */
  function Bid(ticker: nat, n: nat): Request {
    New(0, ticker, n, BUY, 100, 1)
  }

  /** The engine after n such bids: all rest at one price. */
  function Bids(n: nat): Engine {
    if n == 0 then Engine(map[], 1)
    else Engine(Bids(n - 1).book[n := Order(n, ClientKey(0, n - 1), BUY, 100, 1, n)], n + 1)
  }

  lemma {:induction false} BidsAre(n: nat)
    ensures var b := Bids(n).book;
            && (forall id: nat :: id in b <==> 1 <= id <= n)
            && (forall id: nat :: id in b ==> b[id] == Order(id, ClientKey(0, id - 1), BUY, 100, 1, id))
            && |b| == n && Bids(n).nextId == n + 1
  {
    if n > 0 {
      BidsAre(n - 1);
      OneOrderMore(Bids(n - 1).book, Bids(n).book[n]);
    }
  }

  lemma OneOrderMore<K>(book: Book<K>, o: Order<K>)
    requires o.id !in book
    ensures |book[o.id := o]| == |book| + 1
  {
    assert book[o.id := o].Keys == book.Keys + {o.id} && |book| == |book.Keys| && |book[o.id := o]| == |book[o.id := o].Keys|;
  }

  lemma BidsAreTidy(n: nat)
    requires n < ME_MAX_ORDER_IDS
    ensures Tidy(Bids(n).book)
  {
    BidsAre(n);
    hide Bids;
    SubsetSize(Prices(Bids(n).book), {100});
  }

  /** One more bid meets no ask and rests behind the others. */
  lemma BidRests(ticker: nat, n: nat)
    requires Good(Bids(n))
    ensures Accepts(Bids(n), Bid(ticker, n)) && Serve(Bids(n), Bid(ticker, n)).engine == Bids(n + 1)
  {
    BidsAre(n);
    hide Good;
    var e := Bids(n);
    assert !HasSide(e.book, SELL);
    assert !CanMatch(Taker(ticker, 0, n, n + 1, BUY, 100), e.book, 1);
    assert NextPriority(e.book, 100) == n + 1 by { NextOfBids(n); }
    hide NextPriority;
  }

  lemma NextOfBids(n: nat)
    ensures NextPriority(Bids(n).book, 100) == n + 1
  {
    BidsAre(n);
    if n > 0 {
      NextPriorityIs(Bids(n).book, 100, n);
    }
  }

  lemma AfterMore(reqs: seq<Request>, req: Request)
    requires After(reqs).Some? && AllInRange(reqs) && Admissible(After(reqs).value, req)
    requires InRangeIn(After(reqs).value, req)
    ensures var w := After(reqs + [req]);
            w == Some(Process(After(reqs).value, req)) && AllInRange(reqs + [req])
  {
    hide Admissible, Process, InRangeIn, Exchange.Sound, Opened;
    AfterOneMore(reqs, req);
    var more := reqs + [req];
    hide After;
    forall k | 0 <= k < |more|
      ensures (AfterPrefix(more, k); InRangeIn(After(more[..k]).value, more[k]))
    {
      AfterPrefix(more, k);
      assert more[..k] == reqs[..k];
      if k == |reqs| {
        assert reqs[..k] == reqs;
      } else {
        assert more[k] == reqs[k] && InRangeIn(After(reqs[..k]).value, reqs[k]) by { AfterPrefix(reqs, k); }
      }
    }
  }

  lemma BidServed(v: Venue, t: nat, k: nat)
    requires Exchange.Sound(v) && t < ME_MAX_TICKERS && k + 1 < ME_MAX_ORDER_IDS && v.engines[t] == Bids(k)
    ensures Admissible(v, Bid(t, k)) && InRangeIn(v, Bid(t, k))
    ensures Process(v, Bid(t, k)).engines == v.engines[t := Bids(k + 1)]
  {
    hide Bids, Serve, Tidy, Good, Accepts, OwnKeys;
    assert Good(Bids(k));
    BidRests(t, k);
    BidsAreTidy(k + 1);
    GoodKeys(Process(v, Bid(t, k)).engines[t]);
  }

  lemma GoodKeys(e: Engine)
    requires Good(e)
    ensures OwnKeys(e.book)
  {
  }

  lemma OneBidMore(reqs: seq<Request>, t: nat, k: nat)
    requires After(reqs).Some? && AllInRange(reqs) && t < ME_MAX_TICKERS && k + 1 < ME_MAX_ORDER_IDS
    requires |After(reqs).value.engines| == ME_MAX_TICKERS && After(reqs).value.engines[t] == Bids(k)
    ensures var more := reqs + [Bid(t, k)];
            After(more).Some? && AllInRange(more) && After(more).value.engines == After(reqs).value.engines[t := Bids(k + 1)]
  {
    hide *;
    BidServed(After(reqs).value, t, k);
    AfterMore(reqs, Bid(t, k));
  }

  lemma {:induction false} BidsRun(reqs: seq<Request>, t: nat, n: nat) returns (more: seq<Request>)
    requires After(reqs).Some? && AllInRange(reqs) && t < ME_MAX_TICKERS && n < ME_MAX_ORDER_IDS
    requires After(reqs).value.engines[t] == Bids(0)
    ensures After(more).Some? && AllInRange(more) && After(more).value.engines == After(reqs).value.engines[t := Bids(n)]
    decreases n
  {
    hide After, AllInRange, Bids, Bid, Good;
    var es := After(reqs).value.engines;
    if n == 0 {
      more := reqs;
      assert es[t := es[t]] == es;
    } else {
      var before := BidsRun(reqs, t, n - 1);
      OneBidMore(before, t, n - 1);
      more := before + [Bid(t, n - 1)];
      assert es[t := Bids(n - 1)][t := Bids(n)] == es[t := Bids(n)];
    }
  }

  lemma RestingAtLeast(engines: seq<Engine>, n: nat, m: nat)
    requires 2 <= |engines| && |engines[0].book| == n && |engines[1].book| == m
    ensures n + m <= Resting(engines)
    decreases |engines|
  {
    if |engines| == 2 {
      assert Resting(engines[..1]) == n by { assert engines[..1][..0] == []; }
    } else {
      RestingAtLeast(engines[..|engines| - 1], n, m);
    }
  }

  /**
   * Two books that are each in range can hold more orders than the pool has blocks: n and m bids in two tickers, with
   * every request in range and every id in the tables.
   */
  lemma PoolTooSmall(n: nat, m: nat) returns (reqs: seq<Request>)
    requires n < ME_MAX_ORDER_IDS && m < ME_MAX_ORDER_IDS && ME_MAX_ORDER_IDS <= n + m
    ensures After(reqs).Some? && AllInRange(reqs) && InCapacity(After(reqs).value)
    ensures !RestingFits(reqs)
  {
    hide After, AllInRange, Bids, Resting, RestingFits, Opened;
    OpeningBids();
    var first := BidsRun([], 0, n);
    reqs := BidsRun(first, 1, m);
    TwoFull(n, m);
    OverTheEnd(reqs);
  }

  lemma OpeningBids()
    ensures var v := After([]);
            && v == Some(Opened()) && AllInRange([])
            && |Opened().engines| == ME_MAX_TICKERS && forall t :: 0 <= t < ME_MAX_TICKERS ==> Opened().engines[t] == Bids(0)
  {
  }

  lemma TwoFull(n: nat, m: nat)
    requires n < ME_MAX_ORDER_IDS && m < ME_MAX_ORDER_IDS && ME_MAX_ORDER_IDS <= n + m
    ensures var engines := Opened().engines[0 := Bids(n)][1 := Bids(m)];
            && ME_MAX_ORDER_IDS <= Resting(engines)
            && forall t :: 0 <= t < |engines| ==> engines[t].nextId <= ME_MAX_ORDER_IDS
  {
    BidsAre(n);
    BidsAre(m);
    hide Bids, Resting;
    RestingAtLeast(Opened().engines[0 := Bids(n)][1 := Bids(m)], n, m);
  }

  lemma OverTheEnd(reqs: seq<Request>)
    requires After(reqs).Some? && ME_MAX_ORDER_IDS <= Resting(After(reqs).value.engines)
    ensures !RestingFits(reqs)
  {
    hide After, Resting, FitsAt;
    LastFit(reqs);
  }
}
