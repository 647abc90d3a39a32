/** Requests in, linked lists out: matching engine, consumer and client books composed, with nothing assumed of a heap. */
module FullSystem {
  import opened Types
  import opened BookSpec
  import opened Matching
  import opened Replica
  import opened Exchange
  import opened Snapshots
  import opened Recovery
  import opened RecoverySafety
  import opened Batches
  import opened CatchingUp
  import opened LinkedBooks
  import opened LinkedLadders
  import opened MatchingEngines
  import opened MarketDataConsumers
  import opened MarketOrderBooks
  import opened SnapshotSynthesizers
  import opened SharedPool
  import opened TidyRuns
  import opened EndToEnd

  /** Order ids of a good feed are inside the synthesizer's tables. */
  lemma FeedFitsTables(f: Feed)
    requires GoodFeed(f)
    ensures IdsFit(f.us)
  {
    hide ApplyAll, AllApply;
    forall k | 0 <= k < |f.us| && f.us[k].kind != TRADE
      ensures f.us[k].orderId < ME_MAX_ORDER_IDS
    {
      IdInBooks(f, k);
    }
  }

  /** An update that is not a trade names an order that is in its book before or after it. */
  lemma IdInBooks(f: Feed, k: nat)
    requires GoodFeed(f) && k < |f.us| && f.us[k].kind != TRADE
    ensures var u := f.us[k];
            u.ticker < ME_MAX_TICKERS && (u.orderId in Books(f, k)[u.ticker] || u.orderId in Books(f, k + 1)[u.ticker])
  {
    hide ApplyAll, AllApply, IdsInRange, Applicable, Apply;
    assert f.us[..k + 1][..k] == f.us[..k] && f.us[..k + 1][k] == f.us[k];
    Prefix(NoOrders(), f.us, k + 1);
    LastApplied(f.us[..k + 1]);
    IdBeforeOrAfter(Books(f, k)[f.us[k].ticker], f.us[k]);
  }

  lemma LastApplied(us: seq<MarketUpdate>)
    requires AllApply(NoOrders(), us) && us != []
    ensures var before, u := ApplyAll(NoOrders(), us[..|us| - 1]), us[|us| - 1];
            && u.ticker < |before| == ME_MAX_TICKERS && Applicable(before[u.ticker], u)
            && ApplyAll(NoOrders(), us) == before[u.ticker := Apply(before[u.ticker], u)]
  {
    hide Applicable, Apply;
  }

  lemma IdBeforeOrAfter(copy: Copy, u: MarketUpdate)
    requires Applicable(copy, u) && Incremental(u) && u.kind != TRADE
    ensures u.orderId in copy || u.orderId in Apply(copy, u)
  {
  }

  /** Everything that is ever on the two channels, as publisher and synthesizer send it. */
  datatype Broadcast = Broadcast(incremental: seq<Message>, snapshots: seq<seq<Message>>)

  predicate Carries(cast: Broadcast, f: Feed) {
    && cast.incremental == Numbered(1, f.us)
    && |cast.snapshots| == |f.taken|
    && forall s :: 0 <= s < |f.taken| ==> f.taken[s] <= |f.us| && cast.snapshots[s] == Numbered(0, Taken(f, s))
  }

  function Sent(cast: Broadcast, f: Feed, a: Arrival): (m: Message)
    requires Carries(cast, f) && OnWire(f, a)
    ensures m == Wire(f, a)
  {
    match a
    case NextUpdate(n) => cast.incremental[n - 1]
    case SnapshotPart(s, j) => cast.snapshots[s][j]
  }

  /** The synthesizer publishes the snapshots that are due after k updates; the one of number s is kept as such. */
  method PublishDue(f: Feed, synthesizer: SnapshotSynthesizer, k: nat, snapshots: seq<seq<Message>>)
    returns (more: seq<seq<Message>>)
    requires k <= |f.us| && synthesizer.After(f.us[..k]) && |snapshots| == |f.taken|
    modifies synthesizer`sent
    ensures |more| == |f.taken|
    ensures forall s :: 0 <= s < |f.taken| ==> more[s] == if f.taken[s] == k then Numbered(0, Taken(f, s)) else snapshots[s]
  {
    hide Numbered, SnapshotSynthesizer.Valid, SnapshotSynthesizer.Stored, NoteAll;
    more := snapshots;
    for s := 0 to |f.taken|
      invariant |more| == |f.taken| && synthesizer.After(f.us[..k])
      invariant forall i :: 0 <= i < |f.taken| ==>
                  more[i] == if i < s && f.taken[i] == k then Numbered(0, Taken(f, i)) else snapshots[i]
    {
      if f.taken[s] == k {
        var before := |synthesizer.sent|;
        synthesizer.PublishSnapshot();
        more := more[s := synthesizer.sent[before..]];
      }
    }
  }

  /** One update through the publisher into the synthesizer; `ok` says that no assertion of it fails. */
  method PublishOne(us: seq<MarketUpdate>, k: nat, publisher: MarketDataPublisher, synthesizer: SnapshotSynthesizer)
    returns (ok: bool)
    requires k < |us| && GoodStream(us) && IdsFit(us) && synthesizer.After(us[..k])
    requires publisher.nextIncSeqNum == k + 1 && publisher.incremental == publisher.snapshotQueue == Numbered(1, us[..k])
    modifies publisher, synthesizer`lastIncSeqNum, synthesizer.tickerOrders, synthesizer.orderPool`nextFreeIndex
    modifies synthesizer.orderPool`handedOut, synthesizer.orderPool.objects, synthesizer.orderPool.isFree
    ensures publisher.nextIncSeqNum == k + 2 && publisher.incremental == publisher.snapshotQueue == Numbered(1, us[..k + 1])
    ensures ok <==> PoolLasts(us[..k], [us[k]])
    ensures ok ==> synthesizer.After(us[..k + 1])
  {
    hide Numbered, GoodStream, IdsFit, PoolLasts, NoteAll, SnapshotSynthesizer.Valid, SnapshotSynthesizer.Stored;
    assert us[..k + 1] == us[..k] + [us[k]];
    GoodStart(us, k + 1);
    NumberedMore(1, us[..k], [us[k]]);
    NumberedLength(1, us[..k]);
    publisher.Publish([us[k]]);
    ok := synthesizer.Consume(publisher.snapshotQueue[k..], us[..k], [us[k]]);
  }

  lemma NumberedLength(first: nat, us: seq<MarketUpdate>)
    ensures |Numbered(first, us)| == |us|
  {
  }

  lemma GoodStart(us: seq<MarketUpdate>, n: nat)
    requires GoodStream(us) && IdsFit(us) && n <= |us|
    ensures GoodStream(us[..n]) && IdsFit(us[..n])
  {
    Prefix(NoOrders(), us, n);
  }

  lemma LastsUpTo(us: seq<MarketUpdate>, n: nat)
    requires n <= |us|
    ensures PoolLasts([], us[..n]) <==> forall k :: 0 <= k <= n ==> Total(NoteAll(us[..k])) < ME_MAX_ORDER_IDS
  {
    hide NoteAll, Total;
    assert forall k :: 0 <= k <= n ==> [] + us[..n][..k] == us[..k];
  }

  lemma LastsOne(us: seq<MarketUpdate>, n: nat)
    requires n < |us|
    ensures PoolLasts(us[..n], [us[n]]) <==>
            Total(NoteAll(us[..n])) < ME_MAX_ORDER_IDS && Total(NoteAll(us[..n + 1])) < ME_MAX_ORDER_IDS
  {
    hide NoteAll, Total;
    var one := [us[n]];
    assert us[..n] + one[..0] == us[..n] && us[..n] + one[..1] == us[..n + 1];
  }

  lemma StartLasts(us: seq<MarketUpdate>, n: nat)
    requires n <= |us|
    ensures PoolLasts([], us) ==> PoolLasts([], us[..n])
    ensures n < |us| ==> (PoolLasts([], us[..n + 1]) <==> PoolLasts([], us[..n]) && PoolLasts(us[..n], [us[n]]))
  {
    hide NoteAll, Total, PoolLasts;
    LastsUpTo(us, n);
    LastsUpTo(us, |us|);
    assert us[..|us|] == us;
    if n < |us| {
      LastsUpTo(us, n + 1);
      LastsOne(us, n);
    }
  }

  /**
   * One publisher and one synthesizer put the feed on the channels, update by update, with every snapshot when it is
   * due; `ok` says that the synthesizer's pool lasts.
   */
  method PublishAll(f: Feed) returns (ok: bool, cast: Broadcast)
    requires GoodFeed(f)
    ensures ok <==> PoolLasts([], f.us)
    ensures ok ==> Carries(cast, f)
  {
    hide Numbered, Taken, NoteAll, GoodFeed, IdsFit, GoodStream, PoolLasts, SnapshotSynthesizer.Valid, SnapshotSynthesizer.Stored;
    FeedFitsTables(f);
    GoodPrefix(f, |f.us|);
    assert f.us[..|f.us|] == f.us && f.us[..0] == [] && Numbered(1, []) == [] by { NumberedLength(1, []); }
    var publisher := new MarketDataPublisher();
    var synthesizer := new SnapshotSynthesizer();
    var snapshots: seq<seq<Message>> := seq(|f.taken|, _ => []);
    LastsAtFirst(synthesizer);
    ok := true;
    var k := 0;
    while k < |f.us|
      invariant k <= |f.us| && synthesizer.After(f.us[..k]) && PoolLasts([], f.us[..k]) && ok
      invariant fresh(publisher) && fresh(synthesizer) && fresh(synthesizer.tickerOrders) && fresh(synthesizer.orderPool)
      invariant fresh(synthesizer.orderPool.objects) && fresh(synthesizer.orderPool.isFree)
      invariant publisher.nextIncSeqNum == k + 1 && publisher.incremental == publisher.snapshotQueue == Numbered(1, f.us[..k])
      invariant |snapshots| == |f.taken|
      invariant forall s :: 0 <= s < |f.taken| && f.taken[s] < k ==> snapshots[s] == Numbered(0, Taken(f, s))
    {
      snapshots := PublishDue(f, synthesizer, k, snapshots);
      StartLasts(f.us, k);
      StartLasts(f.us, k + 1);
      ok := PublishOne(f.us, k, publisher, synthesizer);
      if !ok {
        cast := Broadcast(publisher.incremental, snapshots);
        return;
      }
      k := k + 1;
    }
    snapshots := PublishDue(f, synthesizer, k, snapshots);
    cast := Broadcast(publisher.incremental, snapshots);
  }

  /** A new synthesizer's pool has room. */
  lemma LastsAtFirst(synthesizer: SnapshotSynthesizer)
    requires synthesizer.After([])
    ensures PoolLasts([], [])
  {
    hide NoteAll, Total, SnapshotSynthesizer.Valid, SnapshotSynthesizer.Stored;
    var none: seq<MarketUpdate> := [];
    synthesizer.HasRoom();
    assert [] + none[..0] == none;
  }

  lemma GoodPrefix(f: Feed, n: nat)
    requires GoodFeed(f) && n <= |f.us|
    ensures GoodStream(f.us[..n]) && forall s :: 0 <= s < |f.taken| ==> f.taken[s] <= |f.us|
  {
    Prefix(NoOrders(), f.us, n);
  }

  /** The consumer on its batches. */
  method Consume(cast: Broadcast, f: Feed, batches: seq<Batch>) returns (consumer: MarketDataConsumer)
    requires Carries(cast, f) && ReachedBy(f, batches).Some?
    ensures fresh(consumer) && consumer.State() == ReachedBy(f, batches).value.0
  {
    hide ArriveAll, ReceiveAll, Wires, Carried, Carries;
    consumer := new MarketDataConsumer();
    for i := 0 to |batches|
      invariant fresh(consumer)
      invariant ReachedBy(f, batches[..i]).Some? && consumer.State() == ReachedBy(f, batches[..i]).value.0
    {
      EveryBatch(f, batches, i);
      ghost var (c, link) := ReachedBy(f, batches[..i]).value;
      if !(batches[i].isSnapshot && !c.inRecovery) {
        BatchReceived(f, c, link, batches[i]);
      }
      consumer.RecvCallback(batches[i].isSnapshot, Packets(cast, f, batches[i]));
    }
    assert batches[..|batches|] == batches;
  }

  function Packets(cast: Broadcast, f: Feed, b: Batch): (ms: seq<Message>)
    requires Carries(cast, f) && Carried(f, b)
    ensures ms == Wires(f, b)
  {
    seq(|b.parts|, i requires 0 <= i < |b.parts| => Sent(cast, f, b.parts[i]))
  }

  lemma {:induction false} EveryBatch(f: Feed, batches: seq<Batch>, i: nat)
    requires ReachedBy(f, batches).Some? && i < |batches|
    ensures ReachedBy(f, batches[..i]).Some? && ReachedBy(f, batches[..i + 1]).Some? && Carried(f, batches[i])
    ensures var (c, link) := ReachedBy(f, batches[..i]).value;
            ReachedBy(f, batches[..i + 1]) ==
            if batches[i].isSnapshot && !c.inRecovery then Some((c, link)) else ArriveAll(f, c, link, batches[i].parts)
    decreases |batches|
  {
    hide ArriveAll, Carried;
    var n := |batches| - 1;
    if i == n {
      assert batches[..i + 1] == batches;
    } else {
      EveryBatch(f, batches[..n], i);
      assert batches[..n][..i] == batches[..i] && batches[..n][..i + 1] == batches[..i + 1];
    }
  }

  /** What the runs of exchange and consumer give the client's books: a stream that applies and stays tidy throughout. */
  lemma DeliveredFits(reqs: seq<Request>, taken: seq<nat>, batches: seq<Batch>, ticker: nat)
    requires After(reqs).Some? && AllInRange(reqs) && InCapacity(After(reqs).value) && ticker < ME_MAX_TICKERS
    requires forall s :: 0 <= s < |taken| ==> taken[s] <= |After(reqs).value.updates|
    requires ReachedBy(Feed(After(reqs).value.updates, taken), batches).Some?
    ensures var v := After(reqs).value; var c := ReachedBy(Feed(v.updates, taken), batches).value.0;
            && GoodFeed(Feed(v.updates, taken))
            && AllApply(NoOrders(), c.delivered) && TidyThroughout(ticker, NoOrders(), c.delivered)
            && (!c.inRecovery && c.nextExp == |v.updates| + 1 ==> ApplyAll(NoOrders(), c.delivered) == Views(v.engines))
  {
    var v := After(reqs).value;
    var f := Feed(v.updates, taken);
    hide After, AllInRange, InCapacity, ReachedBy, Reached, Tidy, TidyThroughout, AllApply, ApplyAll, GoodFeed;
    var arrivals := BatchesAreRuns(f, batches);
    ClientHoldsExchangeBooks(reqs, taken, arrivals);
    ExchangeFeedIsGood(reqs, taken);
    RunStaysTidy(reqs);
    FeedIsTidy(v, f);
    RecoveryIsSafe(f, arrivals);
  }

  lemma FeedIsTidy(v: Venue, f: Feed)
    requires AllTidy(v) && f.us == v.updates && GoodFeed(f)
    ensures TidyFeed(f)
  {
    forall n, t | 0 <= n <= |f.us| && 0 <= t < ME_MAX_TICKERS
      ensures Tidy(Books(f, n)[t])
    {
      assert TidyThroughout(t, NoOrders(), v.updates);
    }
  }

  /** The client's book of one ticker, after everything the consumer handed on. */
  method ClientBook(ticker: nat, delivered: seq<MarketUpdate>) returns (client: MarketOrderBook)
    requires ticker < ME_MAX_TICKERS && AllApply(NoOrders(), delivered) && TidyThroughout(ticker, NoOrders(), delivered)
    ensures client.Valid() && client.ticker == ticker && fresh(client) && fresh(client.lists.Repr)
    ensures client.lists.Orders() == ApplyAll(NoOrders(), delivered)[ticker]
  {
    hide AllApply, ApplyAll, TidyThroughout, MarketOrderBook.Valid;
    client := new MarketOrderBook(ticker);
    client.Replay(NoOrders(), delivered);
  }

  /** The client's side: every batch through the consumer, and what it hands on into the book of one ticker. */
  method Listen(cast: Broadcast, f: Feed, batches: seq<Batch>, ticker: nat)
    returns (consumer: MarketDataConsumer, client: MarketOrderBook)
    requires Carries(cast, f) && ReachedBy(f, batches).Some? && ticker < ME_MAX_TICKERS
    requires var c := ReachedBy(f, batches).value.0;
             AllApply(NoOrders(), c.delivered) && TidyThroughout(ticker, NoOrders(), c.delivered)
    ensures consumer.State() == ReachedBy(f, batches).value.0
    ensures client.Valid() && client.ticker == ticker
    ensures client.lists.Orders() == ApplyAll(NoOrders(), ReachedBy(f, batches).value.0.delivered)[ticker]
  {
    hide Carries, ReachedBy, AllApply, ApplyAll, TidyThroughout, MarketOrderBook.Valid, LinkedBook.Orders;
    consumer := Consume(cast, f, batches);
    client := ClientBook(ticker, consumer.incomingMdUpdates);
  }

  /** The exchange's side: every request served, every update and every snapshot on its channel. */
  method OnTheAir(reqs: seq<Request>, taken: seq<nat>) returns (engine: MatchingEngine, cast: Broadcast)
    requires After(reqs).Some? && AllInRange(reqs) && RestingFits(reqs) && GoodFeed(Feed(After(reqs).value.updates, taken))
    ensures engine.Valid() && engine.State() == After(reqs).value
    ensures Carries(cast, Feed(After(reqs).value.updates, taken))
  {
    hide After, AllInRange, MatchingEngine.Valid, MatchingEngine.Engines, GoodFeed, Carries, RestingFits, PoolLasts;
    engine := ServeAll(reqs);
    PoolLastsExactly(reqs);
    var ok;
    ok, cast := PublishAll(Feed(engine.outgoingUpdates, taken));
    assert ok;
  }

  /**
   * The whole system. The matching engine serves the requests on its linked books; publisher and synthesizer send
   * updates and snapshots; the consumer gets whatever batches the channels make of them; the client replays what it
   * hands on. No assertion fails, every structure is sound at the end, and once the client has counted all updates its
   * lists have the exchange's levels and queues in the same order.
   */
  method RequestsToClientLists(reqs: seq<Request>, taken: seq<nat>, batches: seq<Batch>, ticker: nat)
    returns (engine: MatchingEngine, consumer: MarketDataConsumer, client: MarketOrderBook)
    requires After(reqs).Some? && AllInRange(reqs) && InCapacity(After(reqs).value) && ticker < ME_MAX_TICKERS
    requires RestingFits(reqs)
    requires forall s :: 0 <= s < |taken| ==> taken[s] <= |After(reqs).value.updates|
    requires ReachedBy(Feed(After(reqs).value.updates, taken), batches).Some?
    ensures engine.Valid() && engine.State() == After(reqs).value
    ensures consumer.State() == ReachedBy(Feed(After(reqs).value.updates, taken), batches).value.0
    ensures client.Valid() && client.lists.Orders() == ApplyAll(NoOrders(), consumer.incomingMdUpdates)[ticker]
    ensures !consumer.inRecovery && consumer.nextExpIncSeqNum == |After(reqs).value.updates| + 1 ==>
              forall side :: side != INVALID ==>
                Ladder(client.lists, side) == ShownLadder(Ladder(engine.tickerOrderBook[ticker].lists, side))
  {
    hide After, AllInRange, InCapacity, ReachedBy, MatchingEngine.Valid, MatchingEngine.Engines, MarketOrderBook.Valid,
         LinkedBook.Orders, AllApply, ApplyAll, TidyThroughout, Views, Ladder, ShownLadder, GoodFeed, Carries, RestingFits, PoolLasts;
    DeliveredFits(reqs, taken, batches, ticker);
    var cast;
    engine, cast := OnTheAir(reqs, taken);
    consumer, client := Listen(cast, Feed(engine.outgoingUpdates, taken), batches, ticker);
    if !consumer.inRecovery && consumer.nextExpIncSeqNum == |engine.outgoingUpdates| + 1 {
      SameLadders(engine, client);
    }
  }

  /**
   * The same when every update arrives or its loss is made good by a later snapshot: then the client's lists are the
   * exchange's, with nothing assumed of the consumer. In particular they are when nothing is lost.
   */
  method LossesMadeGood(reqs: seq<Request>, taken: seq<nat>, ss: seq<Stretch>, ticker: nat)
    returns (engine: MatchingEngine, consumer: MarketDataConsumer, client: MarketOrderBook)
    requires After(reqs).Some? && AllInRange(reqs) && InCapacity(After(reqs).value) && ticker < ME_MAX_TICKERS
    requires RestingFits(reqs)
    requires forall s :: 0 <= s < |taken| ==> taken[s] <= |After(reqs).value.updates|
    requires AllMadeGood(Feed(After(reqs).value.updates, taken), ss) && UpTo(ss) == |After(reqs).value.updates| + 1
    ensures engine.Valid() && engine.State() == After(reqs).value && client.Valid()
    ensures !consumer.inRecovery && consumer.nextExpIncSeqNum == |After(reqs).value.updates| + 1
    ensures forall side :: side != INVALID ==>
              Ladder(client.lists, side) == ShownLadder(Ladder(engine.tickerOrderBook[ticker].lists, side))
  {
    hide After, AllInRange, InCapacity, ReachedBy, MatchingEngine.Valid, MatchingEngine.Engines, MarketOrderBook.Valid,
         LinkedBook.Orders, ApplyAll, Ladder, ShownLadder, GoodFeed, RestingFits, AllMadeGood, UpTo, AllBatches;
    ExchangeFeedIsGood(reqs, taken);
    CatchesUp(Feed(After(reqs).value.updates, taken), ss);
    engine, consumer, client := RequestsToClientLists(reqs, taken, AllBatches(ss), ticker);
  }

  lemma SameLadders(engine: MatchingEngine, client: MarketOrderBook)
    requires engine.Valid() && client.Valid() && client.ticker < ME_MAX_TICKERS
    requires client.lists.Orders() == Views(engine.Engines())[client.ticker]
    ensures forall side :: side != INVALID ==>
              Ladder(client.lists, side) == ShownLadder(Ladder(engine.tickerOrderBook[client.ticker].lists, side))
  {
    var book := engine.tickerOrderBook[client.ticker];
    assert book.Valid() && book.State().book == book.lists.Orders();
    hide LinkedBook.Valid, LinkedBook.Orders, Ladder, ShownLadder, Good;
    forall side | side != INVALID
      ensures Ladder(client.lists, side) == ShownLadder(Ladder(book.lists, side))
    {
      SameLists(book.lists, client.lists, side);
    }
  }
}
