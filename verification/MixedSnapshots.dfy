/** Messages of two snapshots taken for one: the ids in SNAPSHOT_START and SNAPSHOT_END are never compared. */
module MixedSnapshots {
  import opened Types
  import opened Replica
  import opened Snapshots
  import opened Recovery
  import opened RecoverySafety

  function Messages(t: seq<MarketUpdate>): seq<Message> {
    seq(|t|, i requires 0 <= i < |t| => Message(i, t[i]))
  }

  function First(t: seq<MarketUpdate>, k: nat): Queued
    requires k <= |t|
  {
    map i: nat | i < k :: t[i]
  }

  /** Starts and ends like a snapshot; nothing says that it is one. */
  ghost predicate LooksWhole(t: seq<MarketUpdate>, n: nat) {
    && 2 <= |t| && t[0].kind == SNAPSHOT_START && t[|t| - 1] == Marker(SNAPSHOT_END, n)
    && forall i :: 0 <= i < |t| ==> (IsMarker(t[i]) <==> i == 0 || i == |t| - 1)
  }

  lemma NothingYet(c: Consumer, t: seq<MarketUpdate>, n: nat, k: nat)
    requires LooksWhole(t, n) && 0 < k < |t| && c.snapshot == First(t, k)
    ensures CheckSnapshotSync(c) == c
  {
    hide Follow, Events, Ascending;
    CountUp(Keys(c.snapshot), k);
  }

  /** In recovery the messages queue up one by one until the last. */
  lemma {:induction false} Gathers(c: Consumer, t: seq<MarketUpdate>, n: nat, j: nat, k: nat)
    requires LooksWhole(t, n) && j <= k < |t| && c.inRecovery && c.snapshot == First(t, j)
    ensures ReceiveAll(c, true, Messages(t)[j..k]) == c.(snapshot := First(t, k))
    decreases k
  {
    hide CheckSnapshotSync, LooksWhole;
    if j == k {
      assert Messages(t)[j..k] == [];
    } else {
      hide ReceiveAll;
      Gathers(c, t, n, j, k - 1);
      OneQueued(t, j, k);
      ReceiveMore(c, Messages(t)[j..k - 1], Message(k - 1, t[k - 1]));
      NothingYet(c.(snapshot := First(t, k)), t, n, k);
      hide First, Messages;
    }
  }

  lemma OneQueued(t: seq<MarketUpdate>, j: nat, k: nat)
    requires j < k <= |t|
    ensures Messages(t)[j..k] == Messages(t)[j..k - 1] + [Message(k - 1, t[k - 1])]
    ensures First(t, k) == First(t, k - 1)[k - 1 := t[k - 1]] && k - 1 !in First(t, k - 1)
  {
  }

  lemma ReceiveMore(c: Consumer, msgs: seq<Message>, m: Message)
    ensures ReceiveAll(c, true, msgs + [m]) == Receive(ReceiveAll(c, true, msgs), true, m)
  {
    assert (msgs + [m])[..|msgs|] == msgs;
  }

  lemma LastOne(c: Consumer, t: seq<MarketUpdate>, j: nat)
    requires c.inRecovery && j < |t|
    requires ReceiveAll(c, true, Messages(t)[j..|t| - 1]) == c.(snapshot := First(t, |t| - 1))
    ensures ReceiveAll(c, true, Messages(t)[j..]) == CheckSnapshotSync(c.(snapshot := First(t, |t|)))
  {
    hide CheckSnapshotSync, ReceiveAll;
    var k := |t| - 1;
    assert First(t, k)[k := t[k]] == First(t, |t|);
    assert Messages(t)[j..] == Messages(t)[j..k] + [Message(k, t[k])];
    ReceiveMore(c, Messages(t)[j..k], Message(k, t[k]));
  }

  /** Whatever looks whole is delivered, with the queued incrementals after it, unless one of these is missing. */
  lemma DeliversWhatLooksWhole(c: Consumer, t: seq<MarketUpdate>, n: nat, us: seq<MarketUpdate>, j: nat)
    requires LooksWhole(t, n) && c.inRecovery && j < |t| && c.snapshot == First(t, j)
    requires Genuine(c.incremental, us) && n <= |us| && forall i :: 0 <= i < |us| ==> !IsMarker(us[i])
    ensures var d := ReceiveAll(c, true, Messages(t)[j..]);
            if GapFree(Keys(c.incremental), n) then
              && n + 1 <= d.nextExp <= |us| + 1
              && d == Consumer(false, d.nextExp, map[], map[], c.delivered + (t[1..|t| - 1] + us[n..d.nextExp - 1]))
            else
              d == c.(nextExp := d.nextExp, snapshot := map[])
  {
    hide CheckSnapshotSync, Genuine, ReceiveAll, GapFree, IsMarker;
    Gathers(c, t, n, j, |t| - 1);
    LastOne(c, t, j);
    WholeQueue(c.(snapshot := First(t, |t|)), t, n, us);
  }

  // ---- When a splice is right ----

  /** The order in which a snapshot lists its messages: by ticker, CLEAR first, then orders by id. */
  predicate Before(u: MarketUpdate, v: MarketUpdate) {
    || u.ticker < v.ticker
    || (u.ticker == v.ticker && v.kind == ADD && (u.kind == CLEAR || u.orderId < v.orderId))
  }

  /** CLEARs and ADDs of known tickers in snapshot order. */
  ghost predicate Ordered(us: seq<MarketUpdate>) {
    && (forall i :: 0 <= i < |us| ==> us[i].ticker < ME_MAX_TICKERS && (us[i].kind == ADD || us[i] == Clear(us[i].ticker)))
    && (forall i, j :: 0 <= i < j < |us| ==> Before(us[i], us[j]))
  }

  /** As well with a CLEAR for every one of the first `n` tickers. */
  ghost predicate Complete(us: seq<MarketUpdate>, n: nat) {
    Ordered(us) && forall k: nat :: k < n ==> Clear(k) in us
  }

  /** What a record holds: the ADD of each order under its own id. */
  ghost predicate Recorded(r: Record, t: nat) {
    forall id :: id in r ==> r[id].kind == ADD && r[id].orderId == id && r[id].ticker == t
  }

  lemma {:induction false} AddsInOrder(r: Record, t: nat, hi: nat)
    requires Recorded(r, t) && t < ME_MAX_TICKERS
    ensures Ordered(Adds(r, hi))
    ensures forall u :: u in Adds(r, hi) ==> u.kind == ADD && u.ticker == t && u.orderId < hi
  {
    if hi > 0 {
      AddsInOrder(r, t, hi - 1);
      var before := Adds(r, hi - 1);
      assert forall i :: 0 <= i < |before| ==> before[i] in before;
    }
  }

  lemma {:induction false} BodyInOrder(rs: Records, t: nat)
    requires t <= |rs| == ME_MAX_TICKERS && forall k :: 0 <= k < |rs| ==> Recorded(rs[k], k)
    ensures Complete(Body(rs, t), t) && forall u :: u in Body(rs, t) ==> u.ticker < t
  {
    hide Adds;
    if t > 0 {
      BodyInOrder(rs, t - 1);
      AddsInOrder(rs[t - 1], t - 1, ME_MAX_ORDER_IDS);
      hide Recorded;
      Appended(Body(rs, t - 1), Adds(rs[t - 1], ME_MAX_ORDER_IDS), t - 1);
    }
  }

  lemma Appended(before: seq<MarketUpdate>, adds: seq<MarketUpdate>, t: nat)
    requires Complete(before, t) && t < ME_MAX_TICKERS && (forall u :: u in before ==> u.ticker < t)
    requires Ordered(adds) && forall u :: u in adds ==> u.kind == ADD && u.ticker == t
    ensures Complete(before + [Clear(t)] + adds, t + 1)
    ensures forall u :: u in before + [Clear(t)] + adds ==> u.ticker < t + 1
  {
    assert forall i :: 0 <= i < |before| ==> before[i] in before;
    assert forall i :: 0 <= i < |adds| ==> adds[i] in adds;
  }

  lemma TakenInOrder(f: Feed, s: nat)
    requires GoodFeed(f) && s < |f.taken|
    ensures var t := Taken(f, s); 2 <= |t| && Complete(t[1..|t| - 1], ME_MAX_TICKERS)
  {
    var us := f.us[..f.taken[s]];
    hide Adds, Body, NoteAll, ApplyAll, AllApply, Apply, Stored, CopyOk;
    Prefix(NoOrders(), f.us, f.taken[s]);
    SynthesizerAgrees(us);
    TakenShape(f, s);
    BodyInOrder(NoteAll(us), ME_MAX_TICKERS);
  }

  /** An order stays in the book when nothing later clears its ticker or uses its id. */
  lemma {:induction false} Placed(copies: Copies, us: seq<MarketUpdate>, i: nat)
    requires i < |us| && us[i].kind == ADD && us[i].ticker < |copies|
    requires forall j :: i < j < |us| && us[j].ticker == us[i].ticker ==> us[j].kind == ADD && us[j].orderId != us[i].orderId
    ensures var copy := ApplyAll(copies, us)[us[i].ticker]; us[i].orderId in copy && copy[us[i].orderId] == Posted(us[i])
    decreases |us|
  {
    if i < |us| - 1 {
      Placed(copies, us[..|us| - 1], i);
    }
  }

  /** An order that nothing adds is not in the book, if it was not there before or its ticker is cleared. */
  lemma {:induction false} Absent(copies: Copies, us: seq<MarketUpdate>, t: nat, id: nat)
    requires t < |copies| && (id !in copies[t] || Clear(t) in us)
    requires forall j :: 0 <= j < |us| ==> us[j].kind == CLEAR || us[j].kind == ADD
    requires forall j :: 0 <= j < |us| && us[j].ticker == t && us[j].kind == ADD ==> us[j].orderId != id
    ensures id !in ApplyAll(copies, us)[t]
  {
    if us != [] && us[|us| - 1] != Clear(t) {
      Absent(copies, us[..|us| - 1], t, id);
    }
  }

  lemma {:induction false} FirstDifference(p: seq<MarketUpdate>, q: seq<MarketUpdate>) returns (i: nat)
    requires |p| == |q| && p != q
    ensures i < |p| && p[..i] == q[..i] && p[i] != q[i]
  {
    if p[0] != q[0] {
      i := 0;
    } else {
      i := FirstDifference(p[1..], q[1..]);
      i := i + 1;
      assert p[..i] == [p[0]] + p[1..][..i - 1] && q[..i] == [q[0]] + q[1..][..i - 1];
    }
  }

  /** Where the spliced prefix has an order of its own, the books have it too. */
  lemma OneTooMany(copies: Copies, p: seq<MarketUpdate>, q: seq<MarketUpdate>, r: seq<MarketUpdate>, i: nat)
    requires |copies| == ME_MAX_TICKERS && |p| == |q| && i < |p| && p[..i] == q[..i] && p[i] != q[i]
    requires Ordered(p) && Complete(q + r, ME_MAX_TICKERS) && !Before(q[i], p[i])
    ensures ApplyAll(copies, p + r) != ApplyAll(copies, q + r)
  {
    var u, v, all := p[i], q[i], q + r;
    assert all[i] == v;
    var t, id := u.ticker, u.orderId;
    forall k | 0 <= k < |all|
      ensures all[k] != u
    {
      if k < i {
        assert all[k] == p[..i][k] == p[k] && Before(p[k], p[i]);
      } else {
        assert k > i ==> Before(all[i], all[k]);
      }
    }
    assert u.kind == ADD;
    forall j | i < j < |p + r| && (p + r)[j].ticker == t
      ensures (p + r)[j].kind == ADD && (p + r)[j].orderId != id
    {
      if j < |p| {
        assert Before(p[i], p[j]);
      } else {
        assert (p + r)[j] == all[j] && Before(all[i], all[j]);
      }
    }
    Placed(copies, p + r, i);
    if v.kind == ADD && v.ticker == t && v.orderId == id {
      assert forall j :: i < j < |all| ==> Before(all[i], all[j]);
      Placed(copies, all, i);
    } else {
      forall j | 0 <= j < |all| && all[j].ticker == t && all[j].kind == ADD
        ensures all[j].orderId != id
      {
        if j < i {
          assert all[j] == p[..i][j] == p[j] && Before(p[j], p[i]);
        } else {
          assert j > i ==> Before(all[i], all[j]);
        }
      }
      Absent(copies, all, t, id);
    }
  }

  /** The CLEAR of an order's ticker comes before the order. */
  lemma ClearedBefore(p: seq<MarketUpdate>, all: seq<MarketUpdate>, i: nat)
    requires i < |all| && Complete(all, ME_MAX_TICKERS) && all[i].kind == ADD && i <= |p| && p[..i] == all[..i]
    ensures Clear(all[i].ticker) in p
  {
    var c :| 0 <= c < |all| && all[c] == Clear(all[i].ticker);
    assert c > i ==> Before(all[i], all[c]);
    assert p[..i][c] == all[..i][c];
  }

  /** Ahead of the order that the splice lacks there is no other one of its kind. */
  lemma NotSpliced(p: seq<MarketUpdate>, q: seq<MarketUpdate>, r: seq<MarketUpdate>, rest: seq<MarketUpdate>, i: nat)
    requires |p| == |q| && i < |p| && p[..i] == q[..i] && Ordered(p + rest) && Ordered(q + r) && Before(q[i], p[i])
    ensures forall k :: 0 <= k < |p + rest| ==> (p + rest)[k] != q[i]
    ensures forall j :: 0 <= j < |p + r| ==> (p + r)[j].kind == CLEAR || (p + r)[j].kind == ADD
    ensures q[i].kind == ADD ==>
              forall j :: 0 <= j < |p + r| && (p + r)[j].ticker == q[i].ticker && (p + r)[j].kind == ADD ==>
                (p + r)[j].orderId != q[i].orderId
  {
    var all, other := q + r, p + rest;
    assert all[i] == q[i] && other[i] == p[i];
    forall k | 0 <= k < |other|
      ensures other[k] != q[i]
    {
      if k < i {
        assert other[k] == p[..i][k] == all[k] && Before(all[k], all[i]);
      } else {
        assert k > i ==> Before(other[i], other[k]);
      }
    }
    forall j | 0 <= j < |p + r|
      ensures (p + r)[j].kind == CLEAR || (p + r)[j].kind == ADD
      ensures q[i].kind == ADD && (p + r)[j].ticker == q[i].ticker && (p + r)[j].kind == ADD ==> (p + r)[j].orderId != q[i].orderId
    {
      if j < i {
        assert (p + r)[j] == p[..i][j] == all[j] && Before(all[j], all[i]);
      } else if j < |p| {
        assert (p + r)[j] == other[j] && (j > i ==> Before(other[i], other[j]));
      } else {
        assert (p + r)[j] == all[j] && Before(all[i], all[j]);
      }
    }
  }

  /** Where it lacks an order, the books lack it too. */
  lemma OneTooFew(copies: Copies, p: seq<MarketUpdate>, q: seq<MarketUpdate>, r: seq<MarketUpdate>, rest: seq<MarketUpdate>, i: nat)
    requires |copies| == ME_MAX_TICKERS && |p| == |q| && i < |p| && p[..i] == q[..i] && p[i] != q[i]
    requires Complete(p + rest, ME_MAX_TICKERS) && Complete(q + r, ME_MAX_TICKERS) && Before(q[i], p[i])
    ensures ApplyAll(copies, p + r) != ApplyAll(copies, q + r)
  {
    NotSpliced(p, q, r, rest, i);
    var v, all := q[i], q + r;
    assert all[i] == v;
    AddedThere(all, p + rest, i);
    assert v.kind == ADD && v.ticker < |copies|;
    ClearedBefore(p, all, i);
    assert Clear(v.ticker) in p + r;
    hide Complete;
    Placed(copies, all, i);
    Absent(copies, p + r, v.ticker, v.orderId);
  }

  /** What only one of two complete sequences has is an order, later ones are behind it. */
  lemma AddedThere(all: seq<MarketUpdate>, other: seq<MarketUpdate>, i: nat)
    requires i < |all| && Complete(all, ME_MAX_TICKERS) && Complete(other, ME_MAX_TICKERS)
    requires forall k :: 0 <= k < |other| ==> other[k] != all[i]
    ensures all[i].kind == ADD && all[i].ticker < ME_MAX_TICKERS
    ensures forall j :: i < j < |all| && all[j].ticker == all[i].ticker ==> all[j].kind == ADD && all[j].orderId != all[i].orderId
  {
    assert forall j :: i < j < |all| ==> Before(all[i], all[j]);
  }

  /** The messages between the markers, the first ones of snapshot t and the others of snapshot s. */
  function SplicedBody(f: Feed, t: nat, s: nat, j: nat): seq<MarketUpdate>
    requires t < |f.taken| && f.taken[t] <= |f.us| && s < |f.taken| && f.taken[s] <= |f.us|
    requires 0 < j < |Taken(f, t)| && j < |Taken(f, s)|
  {
    Taken(f, t)[1..j] + Taken(f, s)[j..|Taken(f, s)| - 1]
  }

  /**
   * A snapshot whose first j messages come from another one, replayed over whatever books there are: they become
   * those of the snapshot if and only if the two say the same up to there.
   */
  lemma SplicedExactly(f: Feed, copies: Copies, t: nat, s: nat, j: nat)
    requires GoodFeed(f) && |copies| == ME_MAX_TICKERS && t < |f.taken| && s < |f.taken|
    requires 0 < j < |Taken(f, t)| && j < |Taken(f, s)|
    ensures ApplyAll(copies, SplicedBody(f, t, s, j)) == Books(f, f.taken[s]) <==> SameBefore(f, t, s, j)
  {
    TakenInOrder(f, t);
    TakenInOrder(f, s);
    WholeIsRight(f, copies, s);
    hide GoodFeed, Taken, Books, ApplyAll, Complete;
    SplicedMessages(copies, Taken(f, t), Taken(f, s), j, Books(f, f.taken[s]));
  }

  lemma SplicedMessages(copies: Copies, a: seq<MarketUpdate>, b: seq<MarketUpdate>, j: nat, books: Copies)
    requires |copies| == ME_MAX_TICKERS && 0 < j < |a| && j < |b|
    requires Complete(a[1..|a| - 1], ME_MAX_TICKERS) && Complete(b[1..|b| - 1], ME_MAX_TICKERS)
    requires ApplyAll(copies, b[1..|b| - 1]) == books
    ensures ApplyAll(copies, a[1..j] + b[j..|b| - 1]) == books <==> a[1..j] == b[1..j]
  {
    hide ApplyAll, Complete;
    assert b[1..j] + b[j..|b| - 1] == b[1..|b| - 1] && a[1..j] + a[j..|a| - 1] == a[1..|a| - 1];
    if a[1..j] != b[1..j] {
      SpliceDiffers(copies, a[1..j], b[1..j], b[j..|b| - 1], a[j..|a| - 1]);
    }
  }

  lemma SpliceDiffers(copies: Copies, p: seq<MarketUpdate>, q: seq<MarketUpdate>, r: seq<MarketUpdate>, rest: seq<MarketUpdate>)
    requires |copies| == ME_MAX_TICKERS && |p| == |q| && p != q && Complete(p + rest, ME_MAX_TICKERS) && Complete(q + r, ME_MAX_TICKERS)
    ensures ApplyAll(copies, p + r) != ApplyAll(copies, q + r)
  {
    var i := FirstDifference(p, q);
    assert Ordered(p) by { assert forall k :: 0 <= k < |p| ==> p[k] == (p + rest)[k]; }
    hide ApplyAll;
    if Before(q[i], p[i]) {
      OneTooFew(copies, p, q, r, rest, i);
    } else {
      OneTooMany(copies, p, q, r, i);
    }
  }

  lemma FeedAt(f: Feed, s: nat)
    requires GoodFeed(f) && s < |f.taken|
    ensures f.taken[s] <= |f.us| && GoodStream(f.us[..f.taken[s]]) && IdsInRange(Books(f, f.taken[s]))
    ensures Books(f, f.taken[s]) == ApplyAll(NoOrders(), f.us[..f.taken[s]]) && |NoOrders()| == ME_MAX_TICKERS
  {
    hide ApplyAll, AllApply, IdsInRange;
    Prefix(NoOrders(), f.us, f.taken[s]);
  }

  /** A snapshot alone gives the books it was taken of, over any books. */
  lemma WholeIsRight(f: Feed, copies: Copies, s: nat)
    requires GoodFeed(f) && |copies| == ME_MAX_TICKERS && s < |f.taken|
    ensures ApplyAll(copies, Taken(f, s)[1..|Taken(f, s)| - 1]) == Books(f, f.taken[s])
  {
    var us := f.us[..f.taken[s]];
    FeedAt(f, s);
    hide *;
    SynthesizerAgrees(us);
    TakenShape(f, s);
    BodyReplay(copies, NoteAll(us), Books(f, f.taken[s]), ME_MAX_TICKERS);
    assert Books(f, f.taken[s])[..ME_MAX_TICKERS] + copies[ME_MAX_TICKERS..] == Books(f, f.taken[s]);
  }

  /** The first j messages of snapshot t and the others of snapshot s. */
  function Spliced(f: Feed, t: nat, s: nat, j: nat): seq<MarketUpdate>
    requires GoodFeed(f) && t < |f.taken| && s < |f.taken| && j <= |Taken(f, t)| && j <= |Taken(f, s)|
  {
    Taken(f, t)[..j] + Taken(f, s)[j..]
  }

  lemma SplicedLooksWhole(f: Feed, t: nat, s: nat, j: nat)
    requires GoodFeed(f) && t < |f.taken| && s < |f.taken| && 0 < j < |Taken(f, t)| && j < |Taken(f, s)|
    ensures LooksWhole(Spliced(f, t, s, j), f.taken[s])
    ensures var m := Spliced(f, t, s, j);
            m[1..|m| - 1] == SplicedBody(f, t, s, j)
  {
    TakenLooksWhole(f, t);
    TakenLooksWhole(f, s);
    hide GoodFeed, Taken, LooksWhole;
    StillLooksWhole(Taken(f, t), f.taken[t], Taken(f, s), f.taken[s], j);
  }

  lemma TakenLooksWhole(f: Feed, s: nat)
    requires GoodFeed(f) && s < |f.taken|
    ensures LooksWhole(Taken(f, s), f.taken[s])
  {
    TakenShape(f, s);
    hide GoodFeed, Taken, Body, NoteAll, IsMarker;
  }

  lemma StillLooksWhole(a: seq<MarketUpdate>, k: nat, b: seq<MarketUpdate>, n: nat, j: nat)
    requires LooksWhole(a, k) && LooksWhole(b, n) && 0 < j < |a| && j < |b|
    ensures var m := a[..j] + b[j..]; LooksWhole(m, n) && m[1..|m| - 1] == a[1..j] + b[j..|b| - 1]
  {
    hide IsMarker;
  }

  // ---- What later updates make good ----

  /** An order of the copies, if it is there. */
  function OrderOf(copies: Copies, t: nat, id: nat): Option<Order<nat>>
    requires t < |copies|
  {
    if id in copies[t] then Some(copies[t][id]) else None
  }

  predicate Names(u: MarketUpdate, t: nat, id: nat) {
    u.ticker == t && u.orderId == id
  }

  /** Two copies of an order that differ in quantity only. */
  predicate Alike(a: Option<Order<nat>>, b: Option<Order<nat>>) {
    a.Some? && b.Some? && a.value == b.value.(qty := a.value.qty)
  }

  /** Updates after which it no longer matters which of the two the order was. */
  predicate Heals(us: seq<MarketUpdate>, t: nat, id: nat, a: Option<Order<nat>>, b: Option<Order<nat>>) {
    exists k :: 0 <= k < |us| && Healing(us[k], t, id, a, b)
  }

  predicate Healing(u: MarketUpdate, t: nat, id: nat, a: Option<Order<nat>>, b: Option<Order<nat>>) {
    Names(u, t, id) && (u.kind == ADD || u.kind == CANCEL || (u.kind == MODIFY && Alike(a, b)))
  }

  /** What an update makes of one order. */
  function Touched(o: Option<Order<nat>>, u: MarketUpdate, t: nat, id: nat): Option<Order<nat>> {
    if !Names(u, t, id) then o
    else if u.kind == ADD then Some(Posted(u))
    else if u.kind == CANCEL then None
    else if u.kind == MODIFY && o.Some? then Some(o.value.(qty := u.qty))
    else o
  }

  lemma TouchedBy(copies: Copies, u: MarketUpdate, t: nat, id: nat)
    requires t < |copies| && Incremental(u)
    ensures OrderOf(ApplyTo(copies, u), t, id) == Touched(OrderOf(copies, t, id), u, t, id)
  {
  }

  /** An order that two copies hold differently is the same after the updates exactly when one of them heals it. */
  lemma {:induction false} HealsExactly(a: Copies, b: Copies, us: seq<MarketUpdate>, t: nat, id: nat)
    requires t < |a| == |b| && forall k :: 0 <= k < |us| ==> Incremental(us[k])
    ensures var x, y := OrderOf(a, t, id), OrderOf(b, t, id);
            var v, w := OrderOf(ApplyAll(a, us), t, id), OrderOf(ApplyAll(b, us), t, id);
            && (v == w <==> x == y || Heals(us, t, id, x, y))
            && (v != w ==> (Alike(v, w) <==> Alike(x, y)))
  {
    if us != [] {
      var before, u := us[..|us| - 1], us[|us| - 1];
      HealsExactly(a, b, before, t, id);
      hide ApplyTo, OrderOf, Posted;
      TouchedBy(ApplyAll(a, before), u, t, id);
      TouchedBy(ApplyAll(b, before), u, t, id);
      HealsMore(us, t, id, OrderOf(a, t, id), OrderOf(b, t, id));
      hide ApplyAll, Heals;
    }
  }

  lemma HealsMore(us: seq<MarketUpdate>, t: nat, id: nat, a: Option<Order<nat>>, b: Option<Order<nat>>)
    requires us != []
    ensures Heals(us, t, id, a, b) <==> Heals(us[..|us| - 1], t, id, a, b) || Healing(us[|us| - 1], t, id, a, b)
  {
    hide Healing;
    var n := |us| - 1;
    if Heals(us[..n], t, id, a, b) {
      var k :| 0 <= k < n && Healing(us[..n][k], t, id, a, b);
      assert us[k] == us[..n][k];
    }
    if Heals(us, t, id, a, b) {
      var k :| 0 <= k < |us| && Healing(us[k], t, id, a, b);
      assert k < n ==> us[..n][k] == us[k];
    }
  }

  lemma SameOrders(a: Copies, b: Copies)
    requires |a| == |b|
    ensures a == b <==> forall t: nat, id: nat :: t < |a| ==> OrderOf(a, t, id) == OrderOf(b, t, id)
  {
    if forall t: nat, id: nat :: t < |a| ==> OrderOf(a, t, id) == OrderOf(b, t, id) {
      forall t | 0 <= t < |a|
        ensures a[t] == b[t]
      {
        forall id: nat
          ensures (id in a[t] <==> id in b[t]) && (id in a[t] ==> a[t][id] == b[t][id])
        {
          assert OrderOf(a, t, id) == OrderOf(b, t, id);
        }
      }
    }
  }

  /** Every order on which the copies differ is made good. */
  ghost predicate AllHealed(a: Copies, b: Copies, us: seq<MarketUpdate>)
    requires |a| == |b|
  {
    forall t: nat, id: nat :: t < |a| ==>
      OrderOf(a, t, id) == OrderOf(b, t, id) || Heals(us, t, id, OrderOf(a, t, id), OrderOf(b, t, id))
  }

  lemma AllHealedExactly(a: Copies, b: Copies, us: seq<MarketUpdate>)
    requires |a| == |b| && forall k :: 0 <= k < |us| ==> Incremental(us[k])
    ensures ApplyAll(a, us) == ApplyAll(b, us) <==> AllHealed(a, b, us)
  {
    hide OrderOf, ApplyAll, Heals;
    forall t: nat, id: nat | t < |a|
      ensures OrderOf(ApplyAll(a, us), t, id) == OrderOf(ApplyAll(b, us), t, id) <==>
              OrderOf(a, t, id) == OrderOf(b, t, id) || Heals(us, t, id, OrderOf(a, t, id), OrderOf(b, t, id))
    {
      HealsExactly(a, b, us, t, id);
    }
    SameOrders(ApplyAll(a, us), ApplyAll(b, us));
  }

  // ---- The event ----

  lemma TakenInTime(f: Feed)
    requires GoodFeed(f)
    ensures forall s :: 0 <= s < |f.taken| ==> f.taken[s] <= |f.us|
  {
  }

  /** Snapshot s from message j on. */
  function Remainder(f: Feed, s: nat, j: nat): seq<Message>
    requires s < |f.taken| && f.taken[s] <= |f.us| && j <= |Taken(f, s)|
  {
    Messages(Taken(f, s))[j..]
  }

  /** What a splice after `delivered` hands on, with the stream up to m. */
  function HandedOn(f: Feed, delivered: seq<MarketUpdate>, t: nat, s: nat, j: nat, m: nat): seq<MarketUpdate>
    requires t < |f.taken| && f.taken[t] <= |f.us| && s < |f.taken| && f.taken[s] <= m <= |f.us|
    requires 0 < j < |Taken(f, t)| && j < |Taken(f, s)|
  {
    delivered + (SplicedBody(f, t, s, j) + f.us[f.taken[s]..m])
  }

  /** The updates after snapshot s up to m make good what the splice got wrong. */
  ghost predicate MadeGood(f: Feed, delivered: seq<MarketUpdate>, t: nat, s: nat, j: nat, m: nat)
    requires t < |f.taken| && f.taken[t] <= |f.us| && s < |f.taken| && f.taken[s] <= m <= |f.us|
    requires 0 < j < |Taken(f, t)| && j < |Taken(f, s)|
  {
    var n := f.taken[s];
    AllHealed(ApplyAll(NoOrders(), delivered + SplicedBody(f, t, s, j)), Books(f, n), f.us[n..m])
  }

  /**
   * The event that the channel condition of RecoverySafety excludes. The beginning of snapshot t is queued and the
   * rest of snapshot s follows, at whatever point of the client's life. Recovery ends exactly when no queued
   * incremental after s has a gap before it. Then the books are those of the number expected next if and only if
   * the queued incrementals make good every order on which the splice differs from snapshot s; without any, if and
   * only if the two snapshots say the same up to message j.
   */
  lemma SpliceEndsRecovery(f: Feed, c: Consumer, t: nat, s: nat, j: nat)
    requires GoodFeed(f) && t < |f.taken| && s < |f.taken| && 0 < j < |Taken(f, t)| && j < |Taken(f, s)|
    requires c.inRecovery && Genuine(c.incremental, f.us) && c.snapshot == First(Taken(f, t), j)
    ensures var d := ReceiveAll(c, true, Remainder(f, s, j)); var n := f.taken[s];
            && (!d.inRecovery <==> GapFree(Keys(c.incremental), n))
            && (d.inRecovery ==> d.delivered == c.delivered)
            && (!d.inRecovery ==>
                  && n < d.nextExp <= |f.us| + 1
                  && (ApplyAll(NoOrders(), d.delivered) == Books(f, d.nextExp - 1) <==>
                      MadeGood(f, c.delivered, t, s, j, d.nextExp - 1))
                  && (d.nextExp == n + 1 ==>
                        (ApplyAll(NoOrders(), d.delivered) == Books(f, n) <==> SameBefore(f, t, s, j))))
  {
    hide *;
    TakenInTime(f);
    SpliceDelivers(f, c, t, s, j);
    var d := ReceiveAll(c, true, Remainder(f, s, j));
    if !d.inRecovery {
      SpliceIsRight(f, c.delivered, t, s, j, d.nextExp - 1);
    }
  }

  /** The books from a splice and the stream after it up to m. */
  lemma SpliceIsRight(f: Feed, delivered: seq<MarketUpdate>, t: nat, s: nat, j: nat, m: nat)
    requires GoodFeed(f) && t < |f.taken| && s < |f.taken| && 0 < j < |Taken(f, t)| && j < |Taken(f, s)|
    requires f.taken[s] <= m <= |f.us|
    ensures var n := f.taken[s];
            var books := ApplyAll(NoOrders(), HandedOn(f, delivered, t, s, j, m));
            && (books == Books(f, m) <==> MadeGood(f, delivered, t, s, j, m))
            && (m == n ==> (books == Books(f, n) <==> SameBefore(f, t, s, j)))
  {
    hide GoodFeed, Taken, Books, ApplyAll, SameBefore, SplicedBody, AllHealed;
    TakenInTime(f);
    var body, n := SplicedBody(f, t, s, j), f.taken[s];
    SplicedBooks(f, delivered, body, n, m);
    if m == n {
      assert delivered + (body + f.us[n..n]) == delivered + body;
      ApplyConcat(NoOrders(), delivered, body);
      SplicedExactly(f, ApplyAll(NoOrders(), delivered), t, s, j);
    }
  }

  /** The stream from n to m over what was handed on and some body, against the exchange's books. */
  lemma SplicedBooks(f: Feed, delivered: seq<MarketUpdate>, body: seq<MarketUpdate>, n: nat, m: nat)
    requires GoodFeed(f) && n <= m <= |f.us|
    ensures ApplyAll(NoOrders(), delivered + (body + f.us[n..m])) == Books(f, m) <==>
            AllHealed(ApplyAll(NoOrders(), delivered + body), Books(f, n), f.us[n..m])
  {
    hide ApplyAll, AllHealed, AllApply;
    assert delivered + (body + f.us[n..m]) == delivered + body + f.us[n..m];
    ApplyConcat(NoOrders(), delivered + body, f.us[n..m]);
    assert f.us[..n] + f.us[n..m] == f.us[..m];
    ApplyConcat(NoOrders(), f.us[..n], f.us[n..m]);
    AllHealedExactly(ApplyAll(NoOrders(), delivered + body), Books(f, n), f.us[n..m]);
  }

  lemma SpliceDelivers(f: Feed, c: Consumer, t: nat, s: nat, j: nat)
    requires GoodFeed(f) && t < |f.taken| && s < |f.taken| && 0 < j < |Taken(f, t)| && j < |Taken(f, s)|
    requires c.inRecovery && Genuine(c.incremental, f.us) && c.snapshot == First(Taken(f, t), j)
    ensures var d := ReceiveAll(c, true, Remainder(f, s, j)); var n := f.taken[s];
            n <= |f.us| &&
            if GapFree(Keys(c.incremental), n) then
              && n + 1 <= d.nextExp <= |f.us| + 1
              && d == Consumer(false, d.nextExp, map[], map[], HandedOn(f, c.delivered, t, s, j, d.nextExp - 1))
            else
              d == c.(nextExp := d.nextExp, snapshot := map[])
  {
    hide Genuine, ReceiveAll, NoteAll, Body, Books, AllApply, ApplyAll, GapFree;
    SplicedLooksWhole(f, t, s, j);
    StreamHasNoMarkers(f);
    var a, b, n := Taken(f, t), Taken(f, s), f.taken[s];
    var m := a[..j] + b[j..];
    assert m == Spliced(f, t, s, j) && f.taken[t] <= |f.us|;
    hide GoodFeed, Taken, LooksWhole, Genuine, ReceiveAll, Spliced, SplicedBody;
    SameTail(a, b, j);
    DeliversWhatLooksWhole(c, m, n, f.us, j);
  }

  lemma SameTail(a: seq<MarketUpdate>, b: seq<MarketUpdate>, j: nat)
    requires j <= |a| && j <= |b|
    ensures Messages(a[..j] + b[j..])[j..] == Messages(b)[j..] && First(a[..j] + b[j..], j) == First(a, j)
  {
  }

  // ---- Queues from any number of snapshots ----

  /** A queue whose message i comes from snapshot src[i], up to the first SNAPSHOT_END. */
  ghost predicate Sources(f: Feed, src: seq<nat>) {
    && 2 <= |src| && (forall i :: 0 <= i < |src| ==> src[i] < |f.taken| && f.taken[src[i]] <= |f.us| && i < |Taken(f, src[i])|)
    && (forall i :: 0 <= i < |src| ==> (i == |Taken(f, src[i])| - 1 <==> i == |src| - 1))
  }

  function Mixed(f: Feed, src: seq<nat>): seq<MarketUpdate>
    requires forall i :: 0 <= i < |src| ==> src[i] < |f.taken| && f.taken[src[i]] <= |f.us| && i < |Taken(f, src[i])|
  {
    seq(|src|, i requires 0 <= i < |src| => Taken(f, src[i])[i])
  }

  /** One message of a snapshot. */
  lemma TakenAt(f: Feed, s: nat, i: nat)
    requires GoodFeed(f) && s < |f.taken| && f.taken[s] <= |f.us| && i < |Taken(f, s)|
    ensures var u, last := Taken(f, s)[i], |Taken(f, s)| - 1;
            && (IsMarker(u) <==> i == 0 || i == last)
            && (i == 0 ==> u.kind == SNAPSHOT_START) && (i == last ==> u == Marker(SNAPSHOT_END, f.taken[s]))
            && (0 < i < last ==> u.ticker < ME_MAX_TICKERS && (u.kind == ADD || u.kind == CLEAR))
  {
    hide GoodFeed, Taken, IsMarker, Before;
    TakenLooksWhole(f, s);
    TakenInOrder(f, s);
    var t := Taken(f, s);
    if 0 < i < |t| - 1 {
      assert t[i] == t[1..|t| - 1][i - 1];
    }
  }

  lemma MixedLooksWhole(f: Feed, src: seq<nat>)
    requires GoodFeed(f) && Sources(f, src)
    ensures LooksWhole(Mixed(f, src), f.taken[src[|src| - 1]])
    ensures AllPosted(Mixed(f, src)[1..|src| - 1])
  {
    hide GoodFeed, Taken, IsMarker;
    forall i | 0 <= i < |src|
      ensures var u, last := Mixed(f, src)[i], |src| - 1;
              && (IsMarker(u) <==> i == 0 || i == last)
              && (i == 0 ==> u.kind == SNAPSHOT_START) && (i == last ==> u == Marker(SNAPSHOT_END, f.taken[src[i]]))
              && (0 < i < last ==> u.ticker < ME_MAX_TICKERS && (u.kind == ADD || u.kind == CLEAR))
    {
      TakenAt(f, src[i], i);
    }
  }

  /** ADDs and CLEARs of known tickers. */
  ghost predicate AllPosted(us: seq<MarketUpdate>) {
    forall k :: 0 <= k < |us| ==> us[k].ticker < ME_MAX_TICKERS && (us[k].kind == ADD || us[k].kind == CLEAR)
  }

  /** A message that decides about an order: its own ADD, or a CLEAR of its ticker. */
  predicate Decides(u: MarketUpdate, t: nat, id: nat) {
    u.ticker == t && (u.kind == CLEAR || (u.kind == ADD && u.orderId == id))
  }

  /** The last message that decides about the order says that it is `o`. */
  predicate LastSays(us: seq<MarketUpdate>, t: nat, id: nat, o: Option<Order<nat>>) {
    exists k :: 0 <= k < |us| && LastAt(us, k, t, id) && o == if us[k].kind == ADD then Some(Posted(us[k])) else None
  }

  predicate LastAt(us: seq<MarketUpdate>, k: nat, t: nat, id: nat)
    requires k < |us|
  {
    Decides(us[k], t, id) && forall j :: k < j < |us| ==> !Decides(us[j], t, id)
  }

  predicate Undecided(us: seq<MarketUpdate>, t: nat, id: nat) {
    forall j :: 0 <= j < |us| ==> !Decides(us[j], t, id)
  }

  /** An order is what the last message about it says, or what it was. */
  lemma {:induction false} LastWord(copies: Copies, us: seq<MarketUpdate>, t: nat, id: nat)
    requires |copies| == ME_MAX_TICKERS && t < ME_MAX_TICKERS && AllPosted(us)
    ensures var o := OrderOf(ApplyAll(copies, us), t, id);
            if Undecided(us, t, id) then o == OrderOf(copies, t, id) else LastSays(us, t, id, o)
    decreases |us|
  {
    hide OrderOf, ApplyTo, Decides, LastSays, Undecided;
    if us == [] {
      NothingSaid(t, id);
    } else {
      var before, u := us[..|us| - 1], us[|us| - 1];
      LastWord(copies, before, t, id);
      DecidedBy(ApplyAll(copies, before), u, t, id);
      DecidedMore(us, t, id, OrderOf(ApplyAll(copies, before), t, id));
    }
  }

  lemma NothingSaid(t: nat, id: nat)
    ensures Undecided([], t, id)
  {
  }

  /** One more message, which decides about the order or does not. */
  lemma DecidedMore(us: seq<MarketUpdate>, t: nat, id: nat, o: Option<Order<nat>>)
    requires us != []
    ensures var before, u := us[..|us| - 1], us[|us| - 1];
            if Decides(u, t, id) then !Undecided(us, t, id) && LastSays(us, t, id, if u.kind == ADD then Some(Posted(u)) else None)
            else (Undecided(us, t, id) <==> Undecided(before, t, id)) && (LastSays(before, t, id, o) ==> LastSays(us, t, id, o))
  {
    hide Decides, Posted;
    var n := |us| - 1;
    var before := us[..n];
    if Decides(us[n], t, id) {
      assert LastAt(us, n, t, id);
    } else {
      assert forall j :: 0 <= j < n ==> us[j] == before[j];
      if LastSays(before, t, id, o) {
        var k :| 0 <= k < n && LastAt(before, k, t, id) && o == if before[k].kind == ADD then Some(Posted(before[k])) else None;
        assert LastAt(us, k, t, id);
      }
    }
  }

  lemma DecidedBy(copies: Copies, u: MarketUpdate, t: nat, id: nat)
    requires |copies| == ME_MAX_TICKERS && t < ME_MAX_TICKERS && u.ticker < ME_MAX_TICKERS && (u.kind == ADD || u.kind == CLEAR)
    ensures OrderOf(ApplyTo(copies, u), t, id) ==
            if !Decides(u, t, id) then OrderOf(copies, t, id) else if u.kind == ADD then Some(Posted(u)) else None
  {
  }

  lemma LastSaysOne(us: seq<MarketUpdate>, t: nat, id: nat, a: Option<Order<nat>>, b: Option<Order<nat>>)
    requires LastSays(us, t, id, a) && LastSays(us, t, id, b)
    ensures a == b && !Undecided(us, t, id)
  {
    var k :| 0 <= k < |us| && LastAt(us, k, t, id) && a == if us[k].kind == ADD then Some(Posted(us[k])) else None;
    var j :| 0 <= j < |us| && LastAt(us, j, t, id) && b == if us[j].kind == ADD then Some(Posted(us[j])) else None;
    assert k == j;
  }

  /** Of every order the last message that decides about it says what `books` holds; of the others `copies` does. */
  ghost predicate SaysRight(us: seq<MarketUpdate>, copies: Copies, books: Copies)
    requires |copies| == |books|
  {
    forall t: nat, id: nat :: t < |books| ==>
      LastSays(us, t, id, OrderOf(books, t, id)) || (Undecided(us, t, id) && OrderOf(copies, t, id) == OrderOf(books, t, id))
  }

  lemma SaysRightExactly(us: seq<MarketUpdate>, copies: Copies, books: Copies)
    requires |copies| == |books| == ME_MAX_TICKERS && AllPosted(us)
    ensures ApplyAll(copies, us) == books <==> SaysRight(us, copies, books)
  {
    hide OrderOf, ApplyAll, LastSays, Undecided, AllPosted;
    forall t: nat, id: nat | t < |books|
      ensures OrderOf(ApplyAll(copies, us), t, id) == OrderOf(books, t, id) <==>
              LastSays(us, t, id, OrderOf(books, t, id)) || (Undecided(us, t, id) && OrderOf(copies, t, id) == OrderOf(books, t, id))
    {
      LastWord(copies, us, t, id);
      if LastSays(us, t, id, OrderOf(books, t, id)) {
        DecidedSomewhere(us, t, id, OrderOf(books, t, id));
        LastSaysOne(us, t, id, OrderOf(books, t, id), OrderOf(ApplyAll(copies, us), t, id));
      }
    }
    SameOrders(ApplyAll(copies, us), books);
  }

  lemma DecidedSomewhere(us: seq<MarketUpdate>, t: nat, id: nat, o: Option<Order<nat>>)
    requires LastSays(us, t, id, o)
    ensures !Undecided(us, t, id)
  {
  }

  /** A queue of any mixture from message j on. */
  function MixedRemainder(f: Feed, src: seq<nat>, j: nat): seq<Message>
    requires forall i :: 0 <= i < |src| ==> src[i] < |f.taken| && f.taken[src[i]] <= |f.us| && i < |Taken(f, src[i])|
    requires j <= |src|
  {
    Messages(Mixed(f, src))[j..]
  }

  /** What lies between its markers. */
  function MixedBody(f: Feed, src: seq<nat>): seq<MarketUpdate>
    requires 2 <= |src|
    requires forall i :: 0 <= i < |src| ==> src[i] < |f.taken| && f.taken[src[i]] <= |f.us| && i < |Taken(f, src[i])|
  {
    Mixed(f, src)[1..|src| - 1]
  }

  /**
   * Any queue the consumer can have, from any number of snapshots: recovery ends exactly when no queued incremental
   * after the last one has a gap before it. Then the books are those of the number expected next if and only if the
   * queued incrementals make good every order on which the queue differs from the last snapshot; without any, if and
   * only if of every order the last message that decides about it says what the last snapshot says.
   */
  lemma MixedEndsRecovery(f: Feed, c: Consumer, src: seq<nat>, j: nat)
    requires GoodFeed(f) && Sources(f, src) && j < |src|
    requires c.inRecovery && Genuine(c.incremental, f.us) && c.snapshot == First(Mixed(f, src), j)
    ensures var d := ReceiveAll(c, true, MixedRemainder(f, src, j)); var n := f.taken[src[|src| - 1]];
            var start := ApplyAll(NoOrders(), c.delivered);
            && (!d.inRecovery <==> GapFree(Keys(c.incremental), n))
            && (d.inRecovery ==> d.delivered == c.delivered)
            && (!d.inRecovery ==>
                  && n < d.nextExp <= |f.us| + 1
                  && (ApplyAll(NoOrders(), d.delivered) == Books(f, d.nextExp - 1) <==>
                      AllHealed(ApplyAll(start, MixedBody(f, src)), Books(f, n), f.us[n..d.nextExp - 1]))
                  && (d.nextExp == n + 1 ==>
                        (ApplyAll(NoOrders(), d.delivered) == Books(f, n) <==> SaysRight(MixedBody(f, src), start, Books(f, n)))))
  {
    hide GoodFeed, Taken, Books, ApplyAll, Genuine, ReceiveAll, GapFree, AllHealed, SaysRight, Ascending, LooksWhole, Sources, First,
         AllPosted, NoOrders;
    SourcesInTime(f, src);
    MixedLooksWhole(f, src);
    StreamHasNoMarkers(f);
    var q, body, n := Mixed(f, src), MixedBody(f, src), f.taken[src[|src| - 1]];
    DeliversWhatLooksWhole(c, q, n, f.us, j);
    var d := ReceiveAll(c, true, MixedRemainder(f, src, j));
    if !d.inRecovery {
      var m := d.nextExp - 1;
      MixedIsRight(f, c.delivered, body, n, m);
    }
  }

  lemma SourcesInTime(f: Feed, src: seq<nat>)
    requires GoodFeed(f) && Sources(f, src)
    ensures 2 <= |src| && forall i :: 0 <= i < |src| ==> src[i] < |f.taken| && f.taken[src[i]] <= |f.us| && i < |Taken(f, src[i])|
  {
    hide Taken;
  }

  lemma MixedIsRight(f: Feed, delivered: seq<MarketUpdate>, body: seq<MarketUpdate>, n: nat, m: nat)
    requires GoodFeed(f) && n <= m <= |f.us| && AllPosted(body)
    ensures var start := ApplyAll(NoOrders(), delivered);
            var books := ApplyAll(NoOrders(), delivered + (body + f.us[n..m]));
            && |start| == |Books(f, n)| == ME_MAX_TICKERS
            && (books == Books(f, m) <==> AllHealed(ApplyAll(start, body), Books(f, n), f.us[n..m]))
            && (m == n ==> (books == Books(f, n) <==> SaysRight(body, start, Books(f, n))))
  {
    hide ApplyAll, AllHealed, SaysRight, GoodFeed, AllPosted;
    SplicedBooks(f, delivered, body, n, m);
    ApplyConcat(NoOrders(), delivered, body);
    if m == n {
      assert delivered + (body + f.us[n..n]) == delivered + body;
      SaysRightExactly(body, ApplyAll(NoOrders(), delivered), Books(f, n));
    }
  }

  // ---- The example ----

  lemma {:induction false} AddsNone(hi: nat)
    ensures Adds(map[], hi) == []
  {
    if hi > 0 {
      AddsNone(hi - 1);
    }
  }

  lemma {:induction false} AddsOne(u: MarketUpdate, hi: nat)
    requires 2 <= hi
    ensures Adds(map[1 := u], hi) == [u]
    decreases hi
  {
    var r := map[1 := u];
    if hi == 2 {
      assert Adds(r, 1) == Adds(r, 0) + [] && Adds(r, 2) == Adds(r, 1) + [r[1]];
    } else {
      AddsOne(u, hi - 1);
    }
  }

  function Clears(from: nat, to: nat): seq<MarketUpdate>
    requires from <= to
  {
    seq(to - from, i requires 0 <= i < to - from => Clear(from + i))
  }

  /** A snapshot body with one order, that of ticker x. */
  lemma {:induction false} BodyOfOne(rs: Records, x: nat, u: MarketUpdate, t: nat)
    requires t <= |rs| && x < |rs| && rs[x] == map[1 := u]
    requires forall i :: 0 <= i < |rs| && i != x ==> rs[i] == map[]
    ensures Body(rs, t) == if t <= x then Clears(0, t) else Clears(0, x + 1) + [u] + Clears(x + 1, t)
  {
    hide Adds;
    if t > 0 {
      BodyOfOne(rs, x, u, t - 1);
      AddsNone(ME_MAX_ORDER_IDS);
      AddsOne(u, ME_MAX_ORDER_IDS);
    }
  }

  function ExampleFeed(): Feed {
    Feed([MarketUpdate(ADD, 1, 0, BUY, 100, 5, 1), MarketUpdate(CANCEL, 1, 0, BUY, 100, 0, 1),
          MarketUpdate(ADD, 1, 1, BUY, 100, 5, 1)], [1, 3])
  }

  lemma ExampleIsGood()
    ensures GoodFeed(ExampleFeed())
    ensures NoteAll(ExampleFeed().us[..1])[0] == map[1 := ExampleFeed().us[0]]
    ensures forall i :: 1 <= i < ME_MAX_TICKERS ==> NoteAll(ExampleFeed().us[..1])[i] == map[]
    ensures NoteAll(ExampleFeed().us)[1] == map[1 := ExampleFeed().us[2]]
    ensures forall i :: 0 <= i < ME_MAX_TICKERS && i != 1 ==> NoteAll(ExampleFeed().us)[i] == map[]
  {
    var us := ExampleFeed().us;
    assert us[..0] == [] && us[..1][..0] == [] && us[..2][..1] == us[..1] && us[..3][..2] == us[..2] && us[..3] == us;
    assert NoteAll([]) == seq(ME_MAX_TICKERS, _ => map[]);
    assert NoteAll(us[..1]) == NoteTo(NoteAll([]), us[0]);
    assert NoteAll(us[..2]) == NoteTo(NoteAll(us[..1]), us[1]);
    assert NoteAll(us) == NoteTo(NoteAll(us[..2]), us[2]);
    ExampleBooks(us);
  }

  lemma ExampleBooks(us: seq<MarketUpdate>)
    requires us == ExampleFeed().us
    ensures GoodFeed(ExampleFeed())
  {
    assert us[..0] == [] && us[..1][..0] == [] && us[..2][..1] == us[..1] && us[..3][..2] == us[..2] && us[..3] == us;
    var b0, b1 := NoOrders(), ApplyTo(NoOrders(), us[0]);
    var b2 := ApplyTo(b1, us[1]);
    assert ApplyAll(NoOrders(), us[..0]) == b0;
    assert ApplyAll(NoOrders(), us[..1]) == b1;
    assert ApplyAll(NoOrders(), us[..2]) == b2;
    assert ApplyAll(NoOrders(), us) == ApplyTo(b2, us[2]);
    assert AllApply(NoOrders(), us[..0]) && CanApply(b0, us[0]) && CanApply(b1, us[1]) && CanApply(b2, us[2]);
    assert AllApply(NoOrders(), us[..1]) && AllApply(NoOrders(), us[..2]) && AllApply(NoOrders(), us);
    forall n | 0 <= n <= 3
      ensures IdsInRange(Books(ExampleFeed(), n))
    {
      assert n == 0 || n == 1 || n == 2 || n == 3;
    }
  }

  /** A snapshot with one order, that of ticker x. */
  function SnapshotOfOne(x: nat, u: MarketUpdate, n: nat): seq<MarketUpdate>
    requires x < ME_MAX_TICKERS
  {
    [Marker(SNAPSHOT_START, n)] + Clears(0, x + 1) + [u] + Clears(x + 1, ME_MAX_TICKERS) + [Marker(SNAPSHOT_END, n)]
  }

  lemma SnapshotIs(rs: Records, x: nat, u: MarketUpdate, n: nat)
    requires |rs| == ME_MAX_TICKERS && x < |rs| && rs[x] == map[1 := u]
    requires forall i :: 0 <= i < |rs| && i != x ==> rs[i] == map[]
    ensures Snapshot(rs, n) == SnapshotOfOne(x, u, n)
  {
    hide Body, Clears, Marker, Adds;
    BodyOfOne(rs, x, u, ME_MAX_TICKERS);
    var s, e, b, c := [Marker(SNAPSHOT_START, n)], [Marker(SNAPSHOT_END, n)], Clears(0, x + 1), Clears(x + 1, ME_MAX_TICKERS);
    assert s + (b + [u] + c) + e == s + b + [u] + c + e;
  }

  lemma TakenShapes()
    ensures GoodFeed(ExampleFeed())
    ensures Taken(ExampleFeed(), 0) == SnapshotOfOne(0, ExampleFeed().us[0], 1)
    ensures Taken(ExampleFeed(), 1) == SnapshotOfOne(1, ExampleFeed().us[2], 3)
  {
    ExampleIsGood();
    var f := ExampleFeed();
    assert f.us[..3] == f.us;
    hide NoteAll, GoodFeed, Snapshot, SnapshotOfOne;
    SnapshotIs(NoteAll(f.us[..1]), 0, f.us[0], 1);
    SnapshotIs(NoteAll(f.us), 1, f.us[2], 3);
  }

  lemma ExampleDiffers()
    ensures var f := ExampleFeed(); GoodFeed(f) && 3 < |Taken(f, 0)| && 3 < |Taken(f, 1)| && !SameBefore(f, 0, 1, 3)
  {
    hide GoodFeed, Taken, Adds, Body, NoteAll, ApplyAll, AllApply;
    TakenShapes();
    var f := ExampleFeed();
    var a, b := SnapshotOfOne(0, f.us[0], 1), SnapshotOfOne(1, f.us[2], 3);
    assert a[1..3] == [Clear(0), f.us[0]] && b[1..3] == [Clear(0), Clear(1)];
    hide SnapshotOfOne;
  }

  lemma ExampleQueued(c: Consumer)
    requires GoodFeed(ExampleFeed()) && 3 < |Taken(ExampleFeed(), 0)| && c.inRecovery && c.snapshot == map[]
    ensures ReceiveAll(c, true, Messages(Taken(ExampleFeed(), 0))[..3]) == c.(snapshot := First(Taken(ExampleFeed(), 0), 3))
  {
    var f := ExampleFeed();
    TakenShape(f, 0);
    hide GoodFeed, Taken, ReceiveAll, Body, NoteAll;
    assert First(Taken(f, 0), 0) == map[];
    Gathers(c, Taken(f, 0), 1, 0, 3);
  }

  lemma InRecoveryNow()
    ensures var f := ExampleFeed(); var c := Receive(Started(), false, Message(2, f.us[1]));
            c == Consumer(true, 1, map[], map[2 := f.us[1]], []) && Genuine(c.incremental, f.us[..3]) && f.us[..3] == f.us
  {
    KeysEmpty(map[]);
  }

  /**
   * The first update is lost, then three messages of the first snapshot come and the rest of the second: the consumer
   * leaves recovery at 4, but its books still hold the order that update 2 cancelled.
   */
  lemma MixedSnapshotExample()
    ensures var f := ExampleFeed(); GoodFeed(f) && 3 < |Taken(f, 0)| && 3 < |Taken(f, 1)|
    ensures var f := ExampleFeed();
            var c := Receive(Started(), false, Message(2, f.us[1]));
            var queued := ReceiveAll(c, true, Messages(Taken(f, 0))[..3]);
            var d := ReceiveAll(queued, true, Remainder(f, 1, 3));
            c.inRecovery && !d.inRecovery && d.nextExp == 4 && ApplyAll(NoOrders(), d.delivered) != Books(f, 3)
  {
    var f := ExampleFeed();
    var c := Receive(Started(), false, Message(2, f.us[1]));
    ExampleDiffers();
    InRecoveryNow();
    ExampleQueued(c);
    hide GoodFeed, Taken, Books, ApplyAll, Genuine, ReceiveAll, SameBefore, Receive;
    SpliceEndsRecovery(f, c.(snapshot := First(Taken(f, 0), 3)), 0, 1, 3);
  }
}
