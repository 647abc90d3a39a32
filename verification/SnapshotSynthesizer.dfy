/** The publisher, which numbers the updates, and the synthesizer, which records them and publishes snapshots. */
module SnapshotSynthesizers {
  import opened Types
  import opened Replica
  import opened Snapshots
  import opened Recovery
  import opened MemPools

  /** The messages that carry `us`, numbered from `first`. */
  function Numbered(first: nat, us: seq<MarketUpdate>): seq<Message> {
    seq(|us|, k requires 0 <= k < |us| => Message(first + k, us[k]))
  }

  lemma NumberedMore(first: nat, us: seq<MarketUpdate>, vs: seq<MarketUpdate>)
    ensures Numbered(first, us + vs) == Numbered(first, us) + Numbered(first + |us|, vs)
  {
  }

  type Slots = array2<Option<nat>>

  /** What a slot of the table points to in the pool. */
  ghost function OrderAt(orders: Slots, blocks: array<MarketUpdate>, t: nat, id: nat): Option<MarketUpdate>
    requires t < orders.Length0 && id < orders.Length1
    reads orders, blocks
  {
    if orders[t, id].Some? && orders[t, id].value < blocks.Length then Some(blocks[orders[t, id].value]) else None
  }

  /** The stored orders of one ticker. */
  ghost function RecordOf(orders: Slots, blocks: array<MarketUpdate>, t: nat): Record
    requires t < orders.Length0
    reads orders, blocks
  {
    map id: nat | id < orders.Length1 && OrderAt(orders, blocks, t, id).Some? :: OrderAt(orders, blocks, t, id).value
  }

  /** The order a record has under an id. */
  function Lookup(rs: Records, t: nat, id: nat): Option<MarketUpdate>
    requires t < |rs|
  {
    if id in rs[t] then Some(rs[t][id]) else None
  }

  /** What one update does to the records, slot by slot. */
  lemma NotedAt(rs: Records, u: MarketUpdate, t: nat, id: nat)
    requires t < |rs|
    ensures |NoteTo(rs, u)| == |rs|
    ensures var was, now := Lookup(rs, t, id), Lookup(NoteTo(rs, u), t, id);
            && (t != u.ticker || id != u.orderId ==> now == was)
            && (t == u.ticker && id == u.orderId ==>
                  && (u.kind == ADD ==> now == Some(u))
                  && (u.kind == CANCEL ==> now == None)
                  && (u.kind == MODIFY && was.Some? ==> now == Some(was.value.(qty := u.qty, price := u.price)))
                  && (u.kind == TRADE ==> now == was))
  {
  }

  /** What the assertions ask of a slot: empty for an ADD; for a MODIFY or CANCEL an order with the id and side of the update. */
  lemma AssertedAt(rs: Records, u: MarketUpdate)
    requires u.ticker < |rs|
    ensures var was := Lookup(rs, u.ticker, u.orderId);
            Asserted(rs[u.ticker], u) <==>
              && (u.kind == ADD ==> was == None)
              && (u.kind == MODIFY || u.kind == CANCEL ==>
                    was.Some? && was.value.orderId == u.orderId && was.value.side == u.side)
  {
  }

  class SnapshotSynthesizer {
    const tickerOrders: Slots
    const orderPool: MemPool<MarketUpdate>   // one for all tickers
    var lastIncSeqNum: nat
    var sent: seq<Message>   // the snapshot stream

    ghost predicate Sized() {
      && tickerOrders.Length0 == ME_MAX_TICKERS && tickerOrders.Length1 == ME_MAX_ORDER_IDS
      && orderPool.objects.Length == orderPool.isFree.Length == ME_MAX_ORDER_IDS
    }

    /** A slot that is not empty points to a block in use, which holds its order. */
    ghost predicate Points(t: nat, id: nat)
      requires Sized() && t < ME_MAX_TICKERS && id < ME_MAX_ORDER_IDS
      reads tickerOrders, orderPool.objects, orderPool.isFree
    {
      tickerOrders[t, id].Some? ==>
        var b := tickerOrders[t, id].value;
        && b < orderPool.isFree.Length && !orderPool.isFree[b]
        && orderPool.objects[b].ticker == t && orderPool.objects[b].orderId == id
    }

    ghost predicate AllPoint()
      requires Sized()
      reads tickerOrders, orderPool.objects, orderPool.isFree
    {
      forall t: nat, id: nat :: t < ME_MAX_TICKERS && id < ME_MAX_ORDER_IDS ==> Points(t, id)
    }

    /** Every stored order has a block of its own, and no other block is in use. */
    ghost predicate Valid()
      reads tickerOrders, orderPool, orderPool.objects, orderPool.isFree
    {
      Sized() && orderPool.Valid() && AllPoint() && InUse(orderPool.isFree[..]) == Total(Stored())
    }

    ghost function Stored(): (rs: Records)
      requires Sized()
      reads tickerOrders, orderPool.objects
      ensures |rs| == ME_MAX_TICKERS
    {
      seq(ME_MAX_TICKERS, t requires 0 <= t < ME_MAX_TICKERS reads tickerOrders, orderPool.objects =>
        RecordOf(tickerOrders, orderPool.objects, t))
    }

    constructor ()
      ensures Valid() && fresh(tickerOrders) && fresh(orderPool) && fresh(orderPool.objects) && fresh(orderPool.isFree)
      ensures After([]) && sent == []
    {
      tickerOrders := new Option<nat>[ME_MAX_TICKERS, ME_MAX_ORDER_IDS]((_, _) => None);
      orderPool := new MemPool(ME_MAX_ORDER_IDS, Clear(0));
      lastIncSeqNum, sent := 0, [];
      new;
      InUseCount(orderPool.isFree[..]);
      assert forall t :: 0 <= t < ME_MAX_TICKERS ==> RecordOf(tickerOrders, orderPool.objects, t) == map[];
      assert Stored() == NoteAll([]);
      NothingStored(Stored());
    }

    /** The state after the updates `us`, as a function of them. */
    ghost predicate After(us: seq<MarketUpdate>)
      reads this`lastIncSeqNum, tickerOrders, orderPool, orderPool.objects, orderPool.isFree
    {
      Valid() && Stored() == NoteAll(us) && lastIncSeqNum == |us|
    }

    /** A slot of the table and the order it leads to. */
    lemma SlotIs(t: nat, id: nat)
      requires Sized() && t < ME_MAX_TICKERS && id < ME_MAX_ORDER_IDS
      ensures OrderAt(tickerOrders, orderPool.objects, t, id) == Lookup(Stored(), t, id)
    {
    }

    lemma AllSlots()
      requires Sized()
      ensures forall t: nat, id: nat :: t < ME_MAX_TICKERS && id < ME_MAX_ORDER_IDS ==>
                OrderAt(tickerOrders, orderPool.objects, t, id) == Lookup(Stored(), t, id)
    {
      forall t: nat, id: nat | t < ME_MAX_TICKERS && id < ME_MAX_ORDER_IDS
        ensures OrderAt(tickerOrders, orderPool.objects, t, id) == Lookup(Stored(), t, id)
      {
        SlotIs(t, id);
      }
    }

    /** The slots determine the records. */
    lemma SpelledBy(rs: Records)
      requires Sized() && |rs| == ME_MAX_TICKERS && forall t, id :: 0 <= t < |rs| && id in rs[t] ==> id < ME_MAX_ORDER_IDS
      requires forall t: nat, id: nat :: t < ME_MAX_TICKERS && id < ME_MAX_ORDER_IDS ==>
                 OrderAt(tickerOrders, orderPool.objects, t, id) == Lookup(rs, t, id)
      ensures Stored() == rs
    {
      forall t | 0 <= t < ME_MAX_TICKERS
        ensures RecordOf(tickerOrders, orderPool.objects, t) == rs[t]
      {
        hide OrderAt;
        var r := RecordOf(tickerOrders, orderPool.objects, t);
        assert forall id: nat :: id < ME_MAX_ORDER_IDS ==> OrderAt(tickerOrders, orderPool.objects, t, id) == Lookup(rs, t, id);
        assert r.Keys == rs[t].Keys;
      }
    }

    lemma StoredIds()
      requires Sized()
      ensures |Stored()| == ME_MAX_TICKERS && forall t, id :: 0 <= t < ME_MAX_TICKERS && id in Stored()[t] ==> id < ME_MAX_ORDER_IDS
    {
    }

    /** A block of its own for a new order; `ok` says that the pool's assertion holds. */
    method StoreNew(u: MarketUpdate) returns (ok: bool)
      requires Valid() && u.kind == ADD && u.ticker < ME_MAX_TICKERS && u.orderId < ME_MAX_ORDER_IDS
      requires tickerOrders[u.ticker, u.orderId] == None
      modifies tickerOrders, orderPool`nextFreeIndex, orderPool`handedOut, orderPool.objects, orderPool.isFree
      ensures ok <==> Total(old(Stored())) + 1 < ME_MAX_ORDER_IDS
      ensures ok ==> Valid() && Stored() == NoteTo(old(Stored()), u)
    {
      hide Stored, Total, InUse;
      ghost var rs, isFree := Stored(), orderPool.isFree[..];
      StoredIds();
      AllSlots();
      SlotTells(u.ticker, u.orderId);
      var block;
      block, ok := orderPool.AllocateWrapping(u);
      tickerOrders[u.ticker, u.orderId] := Some(block);
      forall t: nat, id: nat | t < ME_MAX_TICKERS && id < ME_MAX_ORDER_IDS
        ensures Points(t, id) && OrderAt(tickerOrders, orderPool.objects, t, id) == Lookup(NoteTo(rs, u), t, id)
      {
        assert old(Points(t, id)) && old(OrderAt(tickerOrders, orderPool.objects, t, id)) == Lookup(rs, t, id);
      }
      SpelledBy(NoteTo(rs, u));
      InUseAt(isFree, block, false);
      InUseCount(orderPool.isFree[..]);
      TotalAt(rs, u.ticker, Noted(rs[u.ticker], u));
      OneKeyMore(rs[u.ticker], u.orderId, u);
    }

    /** Quantity and price of a stored order change in place. */
    method Rewrite(u: MarketUpdate)
      requires Valid() && u.kind == MODIFY && u.ticker < ME_MAX_TICKERS && u.orderId < ME_MAX_ORDER_IDS
      requires tickerOrders[u.ticker, u.orderId].Some?
      modifies orderPool.objects
      ensures Valid() && Stored() == NoteTo(old(Stored()), u)
    {
      hide Stored, Total, InUse;
      ghost var rs := Stored();
      StoredIds();
      AllSlots();
      SlotTells(u.ticker, u.orderId);
      var block := tickerOrders[u.ticker, u.orderId].value;
      assert Points(u.ticker, u.orderId);
      orderPool.objects[block] := orderPool.objects[block].(qty := u.qty, price := u.price);
      forall t: nat, id: nat | t < ME_MAX_TICKERS && id < ME_MAX_ORDER_IDS
        ensures Points(t, id) && OrderAt(tickerOrders, orderPool.objects, t, id) == Lookup(NoteTo(rs, u), t, id)
      {
        assert old(Points(t, id)) && old(OrderAt(tickerOrders, orderPool.objects, t, id)) == Lookup(rs, t, id);
      }
      SpelledBy(NoteTo(rs, u));
      TotalAt(rs, u.ticker, Noted(rs[u.ticker], u));
      SameKeys(rs[u.ticker], Noted(rs[u.ticker], u));
    }

    /** A stored order goes, and its block with it; the assertions of `deallocate` hold. */
    method Drop(u: MarketUpdate)
      requires Valid() && u.kind == CANCEL && u.ticker < ME_MAX_TICKERS && u.orderId < ME_MAX_ORDER_IDS
      requires tickerOrders[u.ticker, u.orderId].Some?
      modifies tickerOrders, orderPool.isFree
      ensures Valid() && Stored() == NoteTo(old(Stored()), u)
    {
      hide Stored, Total, InUse;
      ghost var rs, isFree := Stored(), orderPool.isFree[..];
      StoredIds();
      AllSlots();
      SlotTells(u.ticker, u.orderId);
      var block := tickerOrders[u.ticker, u.orderId].value;
      assert Points(u.ticker, u.orderId);
      var fine := orderPool.Deallocate(block);
      assert fine;
      tickerOrders[u.ticker, u.orderId] := None;
      forall t: nat, id: nat | t < ME_MAX_TICKERS && id < ME_MAX_ORDER_IDS
        ensures Points(t, id) && OrderAt(tickerOrders, orderPool.objects, t, id) == Lookup(NoteTo(rs, u), t, id)
      {
        assert old(Points(t, id)) && old(OrderAt(tickerOrders, orderPool.objects, t, id)) == Lookup(rs, t, id);
      }
      SpelledBy(NoteTo(rs, u));
      InUseAt(isFree, block, true);
      TotalAt(rs, u.ticker, Noted(rs[u.ticker], u));
      FewerKeys(rs[u.ticker], u.orderId);
    }

    lemma ValidIsSized()
      requires Valid()
      ensures Sized()
    {
    }

    /** What a slot tells of its order. */
    lemma SlotTells(t: nat, id: nat)
      requires Valid() && t < ME_MAX_TICKERS && id < ME_MAX_ORDER_IDS
      ensures Sized()
      ensures var o := tickerOrders[t, id];
              if o.Some? then o.value < orderPool.objects.Length && Lookup(Stored(), t, id) == Some(orderPool.objects[o.value])
              else Lookup(Stored(), t, id) == None
    {
      hide Stored;
      SlotIs(t, id);
      assert Points(t, id);
    }

    /** `addToSnapshot`; `ok` says that every assertion in it holds, the pool's included. */
    method AddToSnapshot(m: Message) returns (ok: bool)
      requires Valid() && m.update.ticker < ME_MAX_TICKERS
      requires m.update.kind == ADD || m.update.kind == MODIFY || m.update.kind == CANCEL ==> m.update.orderId < ME_MAX_ORDER_IDS
      modifies this`lastIncSeqNum, tickerOrders, orderPool`nextFreeIndex, orderPool`handedOut, orderPool.objects, orderPool.isFree
      ensures ok <==> Asserted(old(Stored())[m.update.ticker], m.update) && Room(old(Stored()), m.update)
                      && m.seqNum == old(lastIncSeqNum) + 1
      ensures ok ==> Valid() && Stored() == NoteTo(old(Stored()), m.update) && lastIncSeqNum == m.seqNum
    {
      var u := m.update;
      var t, id := u.ticker, u.orderId;
      ok := true;
      hide Valid, Stored, Total, NoteTo;
      assert Sized() by { ValidIsSized(); }
      match u.kind {
        case ADD =>
          SlotTells(t, id);
          ok := tickerOrders[t, id] == None;
          if ok {
            ok := StoreNew(u);
          }
        case MODIFY =>
          SlotTells(t, id);
          var order := tickerOrders[t, id];
          ok := order.Some? && orderPool.objects[order.value].orderId == id && orderPool.objects[order.value].side == u.side;
          if ok {
            Rewrite(u);
          }
        case CANCEL =>
          SlotTells(t, id);
          var order := tickerOrders[t, id];
          ok := order.Some? && orderPool.objects[order.value].orderId == id && orderPool.objects[order.value].side == u.side;
          if ok {
            Drop(u);
          }
        case _ =>
          NothingNoted(Stored(), u);
      }
      if ok {
        ok := m.seqNum == lastIncSeqNum + 1;
        lastIncSeqNum := m.seqNum;
      }
    }

    /** A sound pool has a free block. */
    lemma HasRoom()
      requires Valid()
      ensures Total(Stored()) < ME_MAX_ORDER_IDS
    {
      InUseCount(orderPool.isFree[..]);
      assert orderPool.isFree[..][orderPool.nextFreeIndex];
    }

    /**
     * The inner loop of `run`, up to the first assertion that fails: on the engine's stream that is never one about
     * the stored orders, and all hold exactly when the pool lasts; then the record follows the stream.
     */
    method Consume(queue: seq<Message>, ghost us: seq<MarketUpdate>, ghost vs: seq<MarketUpdate>) returns (ok: bool)
      requires After(us) && GoodStream(us + vs) && IdsFit(us + vs)
      requires queue == Numbered(|us| + 1, vs)
      modifies this`lastIncSeqNum, tickerOrders, orderPool`nextFreeIndex, orderPool`handedOut, orderPool.objects, orderPool.isFree
      ensures ok <==> PoolLasts(us, vs)
      ensures ok ==> After(us + vs)
    {
      ok := true;
      hide GoodStream, NoteAll, Asserted, Total, Room, Valid, Stored;
      assert us + vs[..0] == us;
      HasRoom();
      var k := 0;
      while k < |queue| && ok
        invariant k <= |queue| && (ok ==> After(us + vs[..k]))
        invariant ok ==> forall i :: 0 <= i <= k ==> Total(NoteAll(us + vs[..i])) < ME_MAX_ORDER_IDS
        invariant !ok ==> exists i :: 0 <= i <= |vs| && ME_MAX_ORDER_IDS <= Total(NoteAll(us + vs[..i]))
        decreases |queue| - k, ok
      {
        OneMore(us, vs, k);
        RoomIs(NoteAll(us + vs[..k]), vs[k]);
        ok := AddToSnapshot(queue[k]);
        k := k + 1;
        assert ok ==> After(us + vs[..k]);
      }
      assert vs[..|vs|] == vs;
    }

    method Send(snapshotSize: nat, update: MarketUpdate) returns (next: nat)
      modifies this`sent
      ensures sent == old(sent) + [Message(snapshotSize, update)] && next == snapshotSize + 1
    {
      sent := sent + [Message(snapshotSize, update)];
      next := snapshotSize + 1;
    }

    /** The inner loop of `publishSnapshot`: the orders of one ticker by id. */
    method SendOrders(t: nat, snapshotSize: nat) returns (next: nat)
      requires Valid() && t < ME_MAX_TICKERS
      modifies this`sent
      ensures var us := Adds(Stored()[t], ME_MAX_ORDER_IDS);
              sent == old(sent) + Numbered(snapshotSize, us) && next == snapshotSize + |us|
    {
      hide Valid, Stored;
      ValidIsSized();
      next := snapshotSize;
      ghost var r := Stored()[t];
      for id := 0 to tickerOrders.Length1
        invariant var us := Adds(r, id);
                  sent == old(sent) + Numbered(snapshotSize, us) && next == snapshotSize + |us|
      {
        var order := tickerOrders[t, id];
        SlotTells(t, id);
        if order.Some? {
          NumberedMore(snapshotSize, Adds(r, id), [orderPool.objects[order.value]]);
          next := Send(next, orderPool.objects[order.value]);
        }
      }
    }

    /** `publishSnapshot`: the whole snapshot of what is stored, numbered from 0. */
    method PublishSnapshot()
      requires Valid()
      modifies this`sent
      ensures sent == old(sent) + Numbered(0, Snapshot(Stored(), lastIncSeqNum))
    {
      hide Adds, Valid, Stored;
      ValidIsSized();
      ghost var rs := Stored();
      var start, end := Marker(SNAPSHOT_START, lastIncSeqNum), Marker(SNAPSHOT_END, lastIncSeqNum);
      var snapshotSize := Send(0, start);
      ghost var us := [start];
      for t := 0 to ME_MAX_TICKERS
        invariant us == [start] + Body(rs, t)
        invariant sent == old(sent) + Numbered(0, us) && snapshotSize == |us|
      {
        ghost var orders := Adds(rs[t], ME_MAX_ORDER_IDS);
        NumberedMore(0, us, [Clear(t)]);
        NumberedMore(0, us + [Clear(t)], orders);
        snapshotSize := Send(snapshotSize, Clear(t));
        snapshotSize := SendOrders(t, snapshotSize);
        us := us + [Clear(t)] + orders;
      }
      NumberedMore(0, us, [end]);
      snapshotSize := Send(snapshotSize, end);
    }
  }

  /** Order ids of the stream fit the table. */
  ghost predicate IdsFit(us: seq<MarketUpdate>) {
    forall k :: 0 <= k < |us| && us[k].kind != TRADE ==> us[k].orderId < ME_MAX_ORDER_IDS
  }

  lemma NothingNoted(rs: Records, u: MarketUpdate)
    requires u.kind != ADD && u.kind != MODIFY && u.kind != CANCEL && u.ticker < |rs|
    ensures NoteTo(rs, u) == rs && Asserted(rs[u.ticker], u) && Room(rs, u)
  {
    assert rs[u.ticker := rs[u.ticker]] == rs;
  }

  /** One pool for the orders of all tickers: it keeps a free block through `vs`, after `us`. */
  ghost predicate PoolLasts(us: seq<MarketUpdate>, vs: seq<MarketUpdate>) {
    forall k :: 0 <= k <= |vs| ==> Total(NoteAll(us + vs[..k])) < ME_MAX_ORDER_IDS
  }

  lemma {:induction false} NothingStored(rs: Records)
    requires forall t :: 0 <= t < |rs| ==> rs[t] == map[]
    ensures Total(rs) == 0
    decreases |rs|
  {
    if rs != [] {
      NothingStored(rs[..|rs| - 1]);
    }
  }

  /** An update leaves a free block exactly when fewer orders than blocks are stored after it. */
  lemma RoomIs(rs: Records, u: MarketUpdate)
    requires u.ticker < |rs| && Asserted(rs[u.ticker], u) && Total(rs) < ME_MAX_ORDER_IDS && Incremental(u)
    ensures Room(rs, u) <==> Total(NoteTo(rs, u)) < ME_MAX_ORDER_IDS
  {
    var r := rs[u.ticker];
    hide Total;
    TotalAt(rs, u.ticker, Noted(r, u));
    if u.kind == MODIFY {
      SameKeys(r, Noted(r, u));
    } else if u.kind == CANCEL {
      assert |r - {u.orderId}| <= |r| by { FewerKeys(r, u.orderId); }
    } else if u.kind == ADD {
      OneKeyMore(r, u.orderId, u);
    }
  }

  lemma SameKeys(r: Record, s: Record)
    requires r.Keys == s.Keys
    ensures |r| == |s|
  {
    assert |r| == |r.Keys| && |s| == |s.Keys|;
  }

  lemma OneKeyMore(r: Record, id: nat, u: MarketUpdate)
    requires id !in r
    ensures |r[id := u]| == |r| + 1
  {
    assert r[id := u].Keys == r.Keys + {id} && |r[id := u]| == |r[id := u].Keys| && |r| == |r.Keys|;
  }

  lemma FewerKeys(r: Record, id: nat)
    requires id in r
    ensures |r - {id}| == |r| - 1
  {
    assert (r - {id}).Keys == r.Keys - {id} && |r - {id}| == |(r - {id}).Keys| && |r| == |r.Keys|;
  }

  lemma OneMore(us: seq<MarketUpdate>, vs: seq<MarketUpdate>, k: nat)
    requires GoodStream(us + vs) && IdsFit(us + vs) && k < |vs|
    ensures var before := NoteAll(us + vs[..k]);
            && vs[k].ticker < ME_MAX_TICKERS && Asserted(before[vs[k].ticker], vs[k])
            && Incremental(vs[k]) && (vs[k].kind != TRADE ==> vs[k].orderId < ME_MAX_ORDER_IDS)
            && NoteAll(us + vs[..k + 1]) == NoteTo(before, vs[k])
  {
    var all, n := us + vs, |us| + k;
    hide ApplyAll, AllApply, Noted, Stored, InStep, AllOk;
    assert all[..n] == us + vs[..k] && all[..n + 1] == us + vs[..k + 1] && all[n] == vs[k];
    assert all[..n + 1][..n] == all[..n];
    Prefix(NoOrders(), all, n + 1);
    SynthesizerAgrees(all[..n + 1]);
  }

  class MarketDataPublisher {
    var nextIncSeqNum: nat
    var incremental: seq<Message>       // sent on the incremental stream
    var snapshotQueue: seq<Message>     // handed to the synthesizer

    constructor ()
      ensures nextIncSeqNum == 1 && incremental == [] && snapshotQueue == []
    {
      nextIncSeqNum, incremental, snapshotQueue := 1, [], [];
    }

    /** The inner loop of `run`. */
    method Publish(updates: seq<MarketUpdate>)
      modifies this
      ensures nextIncSeqNum == old(nextIncSeqNum) + |updates|
      ensures incremental == old(incremental) + Numbered(old(nextIncSeqNum), updates)
      ensures snapshotQueue == old(snapshotQueue) + Numbered(old(nextIncSeqNum), updates)
    {
      for k := 0 to |updates|
        invariant nextIncSeqNum == old(nextIncSeqNum) + k
        invariant incremental == old(incremental) + Numbered(old(nextIncSeqNum), updates[..k])
        invariant snapshotQueue == old(snapshotQueue) + Numbered(old(nextIncSeqNum), updates[..k])
      {
        var next := Message(nextIncSeqNum, updates[k]);
        assert updates[..k + 1] == updates[..k] + [updates[k]];
        incremental := incremental + [next];
        snapshotQueue := snapshotQueue + [next];
        nextIncSeqNum := nextIncSeqNum + 1;
      }
      assert updates[..|updates|] == updates;
    }
  }

  /**
   * Publisher and synthesizer together, as long as the synthesizer's pool lasts: whatever the engine has sent, the
   * incremental stream numbers it from 1 and a snapshot published now is numbered from 0 and records the books as of
   * the last update. `ok` says that no assertion of the synthesizer fails.
   */
  method PublishThenSnapshot(updates: seq<MarketUpdate>)
    returns (ok: bool, incremental: seq<Message>, snapshot: seq<Message>)
    requires GoodStream(updates) && IdsFit(updates)
    ensures incremental == Numbered(1, updates)
    ensures ok <==> PoolLasts([], updates)
    ensures ok ==> snapshot == Numbered(0, Snapshot(NoteAll(updates), |updates|))
  {
    hide NoteAll, GoodStream, SnapshotSynthesizer.Stored, PoolLasts;
    var publisher := new MarketDataPublisher();
    var synthesizer := new SnapshotSynthesizer();
    publisher.Publish(updates);
    incremental, snapshot := publisher.incremental, [];
    assert [] + updates == updates;
    ok := synthesizer.Consume(publisher.snapshotQueue, [], updates);
    if ok {
      synthesizer.PublishSnapshot();
      snapshot := synthesizer.sent;
    }
  }
}
