/** The snapshot synthesizer: a by-id record of live orders, and why replaying it rebuilds the books. */
module Snapshots {
  import opened Types
  import opened BookSpec
  import opened Replica

  /** What the synthesizer stores for one ticker: the ADD that would recreate each live order. */
  type Record = map<nat, MarketUpdate>

  /** Updates the engine sends; the others occur in snapshots only. */
  predicate Incremental(u: MarketUpdate) {
    u.kind == ADD || u.kind == MODIFY || u.kind == CANCEL || u.kind == TRADE
  }

  /** The assertions of `addToSnapshot` about the stored orders. */
  predicate Asserted(r: Record, u: MarketUpdate) {
    match u.kind
    case ADD => u.orderId !in r
    case MODIFY => u.orderId in r && r[u.orderId].orderId == u.orderId && r[u.orderId].side == u.side
    case CANCEL => u.orderId in r && r[u.orderId].orderId == u.orderId && r[u.orderId].side == u.side
    case _ => true
  }

  function Noted(r: Record, u: MarketUpdate): Record {
    match u.kind
    case ADD => r[u.orderId := u]
    case MODIFY => if u.orderId in r then r[u.orderId := r[u.orderId].(qty := u.qty, price := u.price)] else r
    case CANCEL => r - {u.orderId}
    case _ => r
  }

  /** The record that stands for a copy of ticker `t`. */
  function Stored(t: nat, copy: Copy): Record {
    map id | id in copy :: MarketUpdate(ADD, copy[id].id, t, copy[id].side, copy[id].price, copy[id].qty, copy[id].priority)
  }

  /** Ids are keys, and orders at one price are on one side with priorities in id order. */
  ghost predicate CopyOk(copy: Copy) {
    && (forall id :: id in copy ==> copy[id].id == id && copy[id].key == id && copy[id].side != INVALID && 0 < copy[id].qty)
    && (forall i, j :: i in copy && j in copy && i < j && copy[i].price == copy[j].price ==>
          copy[i].side == copy[j].side && copy[i].priority < copy[j].priority)
  }

  lemma ApplyKeepsOk(copy: Copy, u: MarketUpdate)
    requires CopyOk(copy) && Applicable(copy, u)
    ensures CopyOk(Apply(copy, u))
  {
  }

  /** An update that fits the copy passes every assertion and leaves record and copy in step. */
  lemma NotedAgrees(t: nat, copy: Copy, u: MarketUpdate)
    requires CopyOk(copy) && Applicable(copy, u) && Incremental(u) && u.ticker == t
    ensures Asserted(Stored(t, copy), u)
    ensures Noted(Stored(t, copy), u) == Stored(t, Apply(copy, u))
  {
    var r := Stored(t, copy);
    match u.kind
    case ADD => assert Noted(r, u) == Stored(t, copy[u.orderId := Posted(u)]);
    case MODIFY => assert Noted(r, u) == Stored(t, copy[u.orderId := copy[u.orderId].(qty := u.qty)]);
    case CANCEL => assert Noted(r, u) == Stored(t, copy - {u.orderId});
    case TRADE =>
  }

  type Records = seq<Record>

  function NoteTo(rs: Records, u: MarketUpdate): Records {
    if u.ticker < |rs| then rs[u.ticker := Noted(rs[u.ticker], u)] else rs
  }

  function NoteAll(us: seq<MarketUpdate>): (rs: Records)
    ensures |rs| == ME_MAX_TICKERS
  {
    if us == [] then seq(ME_MAX_TICKERS, _ => map[]) else NoteTo(NoteAll(us[..|us| - 1]), us[|us| - 1])
  }

  /** How many orders of all tickers are stored. */
  function Total(rs: Records): nat {
    if rs == [] then 0 else Total(rs[..|rs| - 1]) + |rs[|rs| - 1]|
  }

  lemma {:induction false} TotalAt(rs: Records, t: nat, r: Record)
    requires t < |rs|
    ensures Total(rs[t := r]) == Total(rs) - |rs[t]| + |r| && |rs[t]| <= Total(rs)
    decreases |rs|
  {
    var n := |rs| - 1;
    if t < n {
      assert rs[t := r][..n] == rs[..n][t := r];
      TotalAt(rs[..n], t, r);
    } else {
      assert rs[t := r][..n] == rs[..n];
    }
  }

  /** The synthesizer's pool, one for all tickers, keeps a free block after the update. */
  predicate Room(rs: Records, u: MarketUpdate) {
    u.kind == ADD ==> Total(rs) + 1 < ME_MAX_ORDER_IDS
  }

  ghost predicate AllOk(copies: Copies) {
    forall t :: 0 <= t < |copies| ==> CopyOk(copies[t])
  }

  ghost predicate InStep(rs: Records, copies: Copies) {
    |rs| == |copies| && forall t :: 0 <= t < |rs| ==> rs[t] == Stored(t, copies[t])
  }

  /** A stream the engine can produce: it applies from the start and holds incremental updates only. */
  ghost predicate GoodStream(us: seq<MarketUpdate>) {
    AllApply(NoOrders(), us) && forall k :: 0 <= k < |us| ==> Incremental(us[k])
  }

  /** On a good stream no assertion fails, and the record holds exactly the live orders as they are now. */
  lemma {:induction false} SynthesizerAgrees(us: seq<MarketUpdate>)
    requires GoodStream(us)
    ensures InStep(NoteAll(us), ApplyAll(NoOrders(), us)) && AllOk(ApplyAll(NoOrders(), us))
    ensures us != [] ==>
              var u := us[|us| - 1];
              u.ticker < ME_MAX_TICKERS && Asserted(NoteAll(us[..|us| - 1])[u.ticker], u)
  {
    if us != [] {
      var before, u := us[..|us| - 1], us[|us| - 1];
      hide Apply, Applicable, Asserted, Noted, Stored, CopyOk;
      SynthesizerAgrees(before);
      var copy := ApplyAll(NoOrders(), before)[u.ticker];
      NotedAgrees(u.ticker, copy, u);
      ApplyKeepsOk(copy, u);
    }
  }

  // ---- Publishing and replaying a snapshot ----

  /** The stored orders with ids below `hi`, in id order. */
  function Adds(r: Record, hi: nat): seq<MarketUpdate> {
    if hi == 0 then [] else Adds(r, hi - 1) + if hi - 1 in r then [r[hi - 1]] else []
  }

  function Clear(t: nat): MarketUpdate {
    MarketUpdate(CLEAR, OrderId_INVALID, t, INVALID, Price_INVALID, Qty_INVALID, Priority_INVALID)
  }

  /** The snapshot of the first `t` tickers: for each a CLEAR and then its orders by id. */
  function Body(rs: Records, t: nat): seq<MarketUpdate>
    requires t <= |rs|
  {
    if t == 0 then [] else Body(rs, t - 1) + [Clear(t - 1)] + Adds(rs[t - 1], ME_MAX_ORDER_IDS)
  }

  function Marker(kind: UpdateType, n: nat): MarketUpdate {
    MarketUpdate(kind, n, TickerId_INVALID, INVALID, Price_INVALID, Qty_INVALID, Priority_INVALID)
  }

  /** What `publishSnapshot` sends after `n` updates; message k carries sequence number k. */
  function Snapshot(rs: Records, n: nat): seq<MarketUpdate> {
    [Marker(SNAPSHOT_START, n)] + Body(rs, |rs|) + [Marker(SNAPSHOT_END, n)]
  }

  function Below(copy: Copy, hi: nat): Copy {
    map id | id in copy && id < hi :: copy[id]
  }

  ghost predicate IdsInRange(copies: Copies) {
    forall t, id :: 0 <= t < |copies| && id in copies[t] ==> id < ME_MAX_ORDER_IDS
  }

  /** The stored order with id hi - 1 goes behind all orders with smaller ids. */
  lemma NextAdd(t: nat, copy: Copy, hi: nat)
    requires CopyOk(copy) && 0 < hi && hi - 1 in copy
    ensures var u := Stored(t, copy)[hi - 1];
            && u.ticker == t
            && Applicable(Below(copy, hi - 1), u)
            && Apply(Below(copy, hi - 1), u) == Below(copy, hi)
  {
  }

  /** Adding by id rebuilds one book: at every price, id order is arrival order. */
  lemma {:induction false} AddsReplay(copies: Copies, t: nat, copy: Copy, hi: nat)
    requires t < |copies| && copies[t] == map[] && CopyOk(copy)
    ensures ApplyAll(copies, Adds(Stored(t, copy), hi)) == copies[t := Below(copy, hi)]
    ensures AllApply(copies, Adds(Stored(t, copy), hi))
  {
    hide CopyOk, Stored, Below, Applicable, Apply, ApplyAll, AllApply;
    var r := Stored(t, copy);
    BelowIs(t, copy, hi);
    if hi == 0 {
      ApplyNone(copies);
      assert copies[t := map[]] == copies;
    } else {
      AddsReplay(copies, t, copy, hi - 1);
      if hi - 1 in r {
        NextAdd(t, copy, hi);
        ApplyOne(copies[t := Below(copy, hi - 1)], r[hi - 1]);
        ApplyConcat(copies, Adds(r, hi - 1), [r[hi - 1]]);
      } else {
        assert Adds(r, hi) == Adds(r, hi - 1);
      }
    }
  }

  lemma BelowIs(t: nat, copy: Copy, hi: nat)
    ensures Stored(t, copy).Keys == copy.Keys && Below(copy, 0) == map[]
    ensures 0 < hi && hi - 1 !in copy ==> Below(copy, hi) == Below(copy, hi - 1)
  {
  }

  /** One ticker of a snapshot replaces whatever the copy held. */
  lemma TickerReplay(copies: Copies, t: nat, copy: Copy)
    requires t < |copies| && CopyOk(copy) && forall id :: id in copy ==> id < ME_MAX_ORDER_IDS
    ensures var us := [Clear(t)] + Adds(Stored(t, copy), ME_MAX_ORDER_IDS);
            ApplyAll(copies, us) == copies[t := copy] && AllApply(copies, us)
  {
    hide Adds, Stored, ApplyAll, AllApply;
    ApplyOne(copies, Clear(t));
    var cleared := copies[t := map[]];
    AddsReplay(cleared, t, copy, ME_MAX_ORDER_IDS);
    assert Below(copy, ME_MAX_ORDER_IDS) == copy;
    ApplyConcat(copies, [Clear(t)], Adds(Stored(t, copy), ME_MAX_ORDER_IDS));
  }

  lemma {:induction false} BodyReplay(copies: Copies, rs: Records, target: Copies, t: nat)
    requires |copies| == |target| && t <= |rs| && InStep(rs, target) && AllOk(target) && IdsInRange(target)
    ensures ApplyAll(copies, Body(rs, t)) == target[..t] + copies[t..]
    ensures AllApply(copies, Body(rs, t))
  {
    hide Adds, Stored, CopyOk, ApplyAll, AllApply;
    if t == 0 {
      ApplyNone(copies);
      assert target[..0] + copies[0..] == copies;
    } else {
      BodyReplay(copies, rs, target, t - 1);
      var mid := target[..t - 1] + copies[t - 1..];
      var us := [Clear(t - 1)] + Adds(rs[t - 1], ME_MAX_ORDER_IDS);
      TickerReplay(mid, t - 1, target[t - 1]);
      ApplyConcat(copies, Body(rs, t - 1), us);
      assert Body(rs, t) == Body(rs, t - 1) + us;
      assert mid[t - 1 := target[t - 1]] == target[..t] + copies[t..];
    }
  }

  /** While a ticker is replayed its book stays part of the recorded one. */
  lemma {:induction false} AddsStayTidy(copies: Copies, t: nat, copy: Copy, hi: nat)
    requires t < |copies| && copies[t] == map[] && CopyOk(copy) && Tidy(copy)
    ensures TidyThroughout(t, copies, Adds(Stored(t, copy), hi))
  {
    var us := Adds(Stored(t, copy), hi);
    hide Stored, CopyOk, Tidy, ApplyAll, AllApply;
    TidyPart(Below(copy, hi), copy);
    AddsReplay(copies, t, copy, hi);
    if hi == 0 {
      assert us[..0] == us;
    } else {
      AddsStayTidy(copies, t, copy, hi - 1);
      var before := Adds(Stored(t, copy), hi - 1);
      hide TidyThroughout;
      if us != before {
        assert us[..|us| - 1] == before;
        TidyMore(t, copies, us);
      }
    }
  }

  lemma {:induction false} AddsOfTicker(t: nat, copy: Copy, hi: nat)
    ensures forall u :: u in Adds(Stored(t, copy), hi) ==> u.ticker == t
  {
    if hi > 0 {
      AddsOfTicker(t, copy, hi - 1);
    }
  }

  lemma TickerStaysTidy(copies: Copies, x: nat, copy: Copy, t: nat)
    requires x < |copies| && t < |copies| && CopyOk(copy) && Tidy(copy) && Tidy(copies[t])
    ensures TidyThroughout(t, copies, [Clear(x)] + Adds(Stored(x, copy), ME_MAX_ORDER_IDS))
  {
    hide Adds, Stored, CopyOk, Tidy, ApplyAll, TidyThroughout;
    AddsOfTicker(x, copy, ME_MAX_ORDER_IDS);
    NoAddStaysTidy(t, copies, [Clear(x)]);
    if t == x {
      ApplyOne(copies, Clear(x));
      AddsStayTidy(copies[x := map[]], x, copy, ME_MAX_ORDER_IDS);
      TidyConcat(t, copies, [Clear(x)], Adds(Stored(x, copy), ME_MAX_ORDER_IDS));
    } else {
      NoAddStaysTidy(t, copies, [Clear(x)] + Adds(Stored(x, copy), ME_MAX_ORDER_IDS));
    }
  }

  /** While a snapshot of tidy books is replayed over a tidy book, that book stays tidy. */
  lemma {:induction false} BodyStaysTidy(copies: Copies, rs: Records, target: Copies, x: nat, t: nat)
    requires |copies| == |target| && x <= |rs| && InStep(rs, target) && AllOk(target) && IdsInRange(target) && t < |copies|
    requires Tidy(copies[t]) && forall i :: 0 <= i < |target| ==> Tidy(target[i])
    ensures TidyThroughout(t, copies, Body(rs, x))
  {
    hide Adds, Stored, CopyOk, ApplyAll, AllApply, TidyThroughout, Tidy;
    if x == 0 {
      NoAddStaysTidy(t, copies, []);
    } else {
      BodyStaysTidy(copies, rs, target, x - 1, t);
      TidyEnd(t, copies, Body(rs, x - 1));
      var us := [Clear(x - 1)] + Adds(rs[x - 1], ME_MAX_ORDER_IDS);
      TickerStaysTidy(ApplyAll(copies, Body(rs, x - 1)), x - 1, target[x - 1], t);
      TidyConcat(t, copies, Body(rs, x - 1), us);
      assert Body(rs, x) == Body(rs, x - 1) + us;
    }
  }

  lemma {:induction false} Prefix(copies: Copies, us: seq<MarketUpdate>, n: nat)
    requires AllApply(copies, us) && n <= |us|
    ensures AllApply(copies, us[..n]) && AllApply(ApplyAll(copies, us[..n]), us[n..])
    ensures ApplyAll(ApplyAll(copies, us[..n]), us[n..]) == ApplyAll(copies, us)
    decreases |us|
  {
    hide ApplyTo, CanApply;
    if n == |us| {
      assert us[..n] == us && us[n..] == [];
    } else {
      var m := |us| - 1;
      Prefix(copies, us[..m], n);
      assert us[..m][..n] == us[..n];
      assert us[n..][..|us[n..]| - 1] == us[..m][n..];
    }
  }

  /**
   * A snapshot taken after n updates, replayed over any copies, followed by the updates after n,
   * gives the books that all the updates give, and every update applies on the way.
   */
  lemma SnapshotPlusSuffix(copies: Copies, us: seq<MarketUpdate>, n: nat)
    requires GoodStream(us) && n <= |us| && |copies| == ME_MAX_TICKERS
    requires IdsInRange(ApplyAll(NoOrders(), us[..n]))
    ensures var replay := Body(NoteAll(us[..n]), ME_MAX_TICKERS) + us[n..];
            ApplyAll(copies, replay) == ApplyAll(NoOrders(), us) && AllApply(copies, replay)
  {
    hide Adds, Body, NoteAll, ApplyAll, AllApply, InStep, AllOk;
    Prefix(NoOrders(), us, n);
    SynthesizerAgrees(us[..n]);
    var target := ApplyAll(NoOrders(), us[..n]);
    var body := Body(NoteAll(us[..n]), ME_MAX_TICKERS);
    BodyReplay(copies, NoteAll(us[..n]), target, ME_MAX_TICKERS);
    assert target[..ME_MAX_TICKERS] + copies[ME_MAX_TICKERS..] == target;
    ApplyConcat(copies, body, us[n..]);
  }
}
