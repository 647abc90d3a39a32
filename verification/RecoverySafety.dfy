/** Whatever the channels lose, repeat or reorder, the consumer hands on the exchange's books or waits. */
module RecoverySafety {
  import opened Types
  import opened BookSpec
  import opened Replica
  import opened Snapshots
  import opened Recovery

  // ---- The two passes of checkSnapshotSync ----

  lemma {:induction false} CountUp(ks: seq<nat>, n: nat)
    requires forall i, j :: 0 <= i < j < |ks| ==> ks[i] < ks[j]
    requires forall k: nat :: k in ks <==> k < n
    ensures |ks| == n && forall i :: 0 <= i < n ==> ks[i] == i
  {
    forall x | 0 <= x < |ks|
      ensures ks[x] < n
    {
      assert ks[x] in ks;
    }
    if n > 0 {
      assert n - 1 in ks;
      var i :| 0 <= i < |ks| && ks[i] == n - 1;
      assert ks[i] <= ks[|ks| - 1];
      var ms := ks[..|ks| - 1];
      forall k: nat
        ensures k in ms <==> k < n - 1
      {
        if k in ms {
          var x :| 0 <= x < |ms| && ms[x] == k;
          assert ks[x] < ks[|ks| - 1];
        }
        if k < n - 1 {
          assert k in ks;
          var x :| 0 <= x < |ks| && ks[x] == k;
          assert ms[x] == k;
        }
      }
      CountUp(ms, n - 1);
    }
  }

  /** A missing number below a present one shows as an index that is not its own key. */
  lemma GapShows(m: Queued, i: nat, j: nat)
    requires i !in m && j in m && i < j
    ensures var ks := Keys(m); ks != [] && exists x :: 0 <= x < |ks| && ks[x] != x
  {
    var ks := Keys(m);
    assert j in ks;
    var y :| 0 <= y < |ks| && ks[y] == j;
    var x := if y != j then y else i;
    assert ks[x] in m && ks[x] != x;
  }

  /** A complete snapshot yields its body: everything between the two markers. */
  lemma {:induction false} EventsAreBody(m: Queued, ks: seq<nat>, s: seq<MarketUpdate>)
    requires |ks| <= |s| && 2 <= |s| && (forall i :: 0 <= i < |ks| ==> ks[i] == i)
    requires forall i :: 0 <= i < |ks| ==> i in m && m[i] == s[i]
    requires forall i :: 0 <= i < |s| ==> (IsMarker(s[i]) <==> i == 0 || i == |s| - 1)
    ensures forall k :: k in ks ==> k in m
    ensures Events(m, ks) == if |ks| == 0 then [] else if |ks| == |s| then s[1..|s| - 1] else s[1..|ks|]
  {
    if ks != [] {
      EventsAreBody(m, ks[..|ks| - 1], s);
    }
  }

  /** Queued incrementals are what the exchange sent under their numbers. */
  ghost predicate Genuine(m: Queued, us: seq<MarketUpdate>) {
    forall k :: k in m ==> 1 <= k <= |us| && m[k] == us[k - 1]
  }

  ghost predicate GapFree(ks: seq<nat>, n: nat) {
    forall k, j: nat :: k in ks && n < j < k ==> j in ks
  }

  /** The pass over the incrementals collects a stretch of the stream. */
  lemma {:induction false} FollowIsStretch(m: Queued, ks: seq<nat>, us: seq<MarketUpdate>, n: nat)
    requires Genuine(m, us) && n <= |us| && (forall k :: k in ks ==> k in m)
    requires forall i, j :: 0 <= i < j < |ks| ==> ks[i] < ks[j]
    requires forall i :: 0 <= i < |us| ==> !IsMarker(us[i])
    ensures var s := Follow(m, ks, n + 1);
            && n + 1 <= s.next <= |us| + 1 && s.events == us[n..s.next - 1]
  {
    if ks != [] {
      FollowIsStretch(m, ks[..|ks| - 1], us, n);
    }
  }

  /** It completes exactly when no number above n is missing below a queued one. */
  lemma {:induction false} FollowCompletes(m: Queued, ks: seq<nat>, n: nat)
    requires forall k :: k in ks ==> k in m
    requires forall i, j :: 0 <= i < j < |ks| ==> ks[i] < ks[j]
    ensures var s := Follow(m, ks, n + 1);
            && n < s.next
            && (s.complete ==> forall k :: k in ks ==> k < s.next)
            && (s.complete ==> forall j: nat :: n < j < s.next ==> j in ks)
            && (s.complete <==> GapFree(ks, n))
  {
    if ks != [] {
      var before, k := ks[..|ks| - 1], ks[|ks| - 1];
      FollowCompletes(m, before, n);
      var p := Follow(m, before, n + 1);
      assert k in ks && forall j :: j in ks <==> j in before || j == k;
      if !p.complete {
        var x, y: nat :| x in before && n < y < x && y !in before;
        assert y !in ks;
      } else if k > p.next {
        assert p.next !in ks;
      }
    }
  }

  /** The queued snapshot is numbered 0 to n without a gap and starts with the start marker. */
  predicate Begun(m: Queued, n: nat) {
    n in m && (forall k :: k in m ==> k <= n) && (forall k: nat :: k <= n ==> k in m) && m[0].kind == SNAPSHOT_START
  }

  lemma BegunKeys(m: Queued)
    requires m != map[]
    ensures var ks := Keys(m); var last := ks[|ks| - 1];
            && ks != [] && ks[0] in m && last in m
            && (Begun(m, last) <==> m[ks[0]].kind == SNAPSHOT_START && forall i :: 0 <= i < |ks| ==> ks[i] == i)
  {
    hide Ascending;
    KeysEmpty(m);
    var ks := Keys(m);
    var last := ks[|ks| - 1];
    assert ks[0] in ks && last in ks;
    if Begun(m, last) {
      CountUp(ks, last + 1);
    }
    if forall i :: 0 <= i < |ks| ==> ks[i] == i {
      CountedKeys(m, ks);
    }
  }

  lemma CountedKeys(m: Queued, ks: seq<nat>)
    requires (forall k :: k in ks <==> k in m) && ks != [] && forall i :: 0 <= i < |ks| ==> ks[i] == i
    ensures forall k: nat :: k in m <==> k <= ks[|ks| - 1]
  {
    forall k: nat
      ensures k in ks <==> k < |ks|
    {
      if k < |ks| {
        assert ks[k] == k;
      }
    }
  }

  /**
   * The check on any two queues, genuine or not: recovery ends exactly when the snapshot is numbered from 0 without a
   * gap between the two markers and no incremental after it is missing below a queued one. Otherwise nothing is handed
   * on, the incrementals stay, and the snapshot stays exactly when it is a proper beginning.
   */
  lemma SyncExactly(c: Consumer)
    requires c.inRecovery && c.snapshot != map[]
    ensures var d, n := CheckSnapshotSync(c), Keys(c.snapshot)[|Keys(c.snapshot)| - 1];
            && n in c.snapshot
            && (!d.inRecovery <==>
                  && Begun(c.snapshot, n) && c.snapshot[n].kind == SNAPSHOT_END
                  && GapFree(Keys(c.incremental), c.snapshot[n].orderId))
            && (d.inRecovery ==> d.delivered == c.delivered && d.incremental == c.incremental)
            && (d.inRecovery ==>
                  d.snapshot == if Begun(c.snapshot, n) && c.snapshot[n].kind != SNAPSHOT_END then c.snapshot else map[])
  {
    hide Begun, Events, GapFree, Follow, Keys;
    BegunKeys(c.snapshot);
    var ks := Keys(c.snapshot);
    FollowCompletes(c.incremental, Keys(c.incremental), c.snapshot[ks[|ks| - 1]].orderId);
  }

  // ---- What a snapshot looks like on the wire ----

  lemma {:induction false} AddsAreOrders(r: Record, hi: nat)
    requires forall id :: id in r ==> r[id].kind == ADD
    ensures forall u :: u in Adds(r, hi) ==> u.kind == ADD
  {
    if hi > 0 {
      AddsAreOrders(r, hi - 1);
    }
  }

  lemma {:induction false} BodyHasNoMarkers(rs: Records, t: nat)
    requires t <= |rs| && forall i, id :: 0 <= i < |rs| && id in rs[i] ==> rs[i][id].kind == ADD
    ensures forall u :: u in Body(rs, t) ==> !IsMarker(u)
  {
    if t > 0 {
      BodyHasNoMarkers(rs, t - 1);
      AddsAreOrders(rs[t - 1], ME_MAX_ORDER_IDS);
      hide Adds;
    }
  }

  /** The exchange's stream, and after how many updates each snapshot was taken. */
  datatype Feed = Feed(us: seq<MarketUpdate>, taken: seq<nat>)

  function Taken(f: Feed, s: nat): seq<MarketUpdate>
    requires s < |f.taken| && f.taken[s] <= |f.us|
  {
    Snapshot(NoteAll(f.us[..f.taken[s]]), f.taken[s])
  }

  /** The exchange's books, as market data shows them, after n updates. */
  function Books(f: Feed, n: nat): Copies
    requires n <= |f.us|
  {
    ApplyAll(NoOrders(), f.us[..n])
  }

  ghost predicate GoodFeed(f: Feed) {
    && GoodStream(f.us)
    && (forall s :: 0 <= s < |f.taken| ==> f.taken[s] <= |f.us|)
    && (forall n :: 0 <= n <= |f.us| ==> IdsInRange(Books(f, n)))
  }

  lemma TakenShape(f: Feed, s: nat)
    requires GoodFeed(f) && s < |f.taken|
    ensures var t := Taken(f, s); var n := f.taken[s];
            && 2 <= |t| && t[0].kind == SNAPSHOT_START && t[|t| - 1] == Marker(SNAPSHOT_END, n)
            && t[0].orderId == t[|t| - 1].orderId == n
            && (forall i :: 0 <= i < |t| ==> (IsMarker(t[i]) <==> i == 0 || i == |t| - 1))
            && (forall i :: 0 < i < |t| ==> t[i].kind != SNAPSHOT_START)
            && t[1..|t| - 1] == Body(NoteAll(f.us[..n]), ME_MAX_TICKERS)
  {
    var n := f.taken[s];
    var rs := NoteAll(f.us[..n]);
    hide Adds, Body, NoteAll, ApplyAll, AllApply, AllOk, Stored, InStep;
    Prefix(NoOrders(), f.us, n);
    SynthesizerAgrees(f.us[..n]);
    StoredAreAdds(rs, ApplyAll(NoOrders(), f.us[..n]));
    BodyHasNoMarkers(rs, ME_MAX_TICKERS);
    Framed(Marker(SNAPSHOT_START, n), Body(rs, ME_MAX_TICKERS), Marker(SNAPSHOT_END, n));
  }

  lemma StoredAreAdds(rs: Records, copies: Copies)
    requires InStep(rs, copies)
    ensures forall i, id :: 0 <= i < |rs| && id in rs[i] ==> rs[i][id].kind == ADD
  {
  }

  lemma Framed(start: MarketUpdate, body: seq<MarketUpdate>, end: MarketUpdate)
    requires start.kind == SNAPSHOT_START && end.kind == SNAPSHOT_END && forall u :: u in body ==> !IsMarker(u)
    ensures var t := [start] + body + [end];
            && (forall i :: 0 <= i < |t| ==> (IsMarker(t[i]) <==> i == 0 || i == |t| - 1))
            && (forall i :: 0 < i < |t| ==> t[i].kind != SNAPSHOT_START)
            && t[1..|t| - 1] == body
  {
    var t := [start] + body + [end];
    assert forall i :: 0 < i < |t| - 1 ==> t[i] == body[i - 1] && body[i - 1] in body;
  }

  // ---- Channels and runs ----

  /** The snapshot message that came last in the current subscription, if any. */
  datatype Link = Link(last: Option<(nat, nat)>)

  /** A message that reaches the consumer: an incremental by its number, or message j of snapshot s. */
  datatype Arrival = NextUpdate(n: nat) | SnapshotPart(s: nat, j: nat)

  /** Up to message j two snapshots say the same, apart from the ids in their markers. */
  ghost predicate SameBefore(f: Feed, t: nat, s: nat, j: nat)
    requires t < |f.taken| && f.taken[t] <= |f.us| && s < |f.taken| && f.taken[s] <= |f.us|
  {
    0 < j < |Taken(f, t)| && j < |Taken(f, s)| && Taken(f, t)[1..j] == Taken(f, s)[1..j]
  }

  /** The message directly continues the queued beginning of another snapshot, which says something else. */
  ghost predicate Splices(f: Feed, c: Consumer, link: Link, s: nat, j: nat)
    requires s < |f.taken| && f.taken[s] <= |f.us|
  {
    && c.inRecovery && c.snapshot != map[] && link.last.Some?
    && var (t, i) := link.last.value;
       s != t && 0 < j == i + 1 && !(t < |f.taken| && f.taken[t] <= |f.us| && SameBefore(f, t, s, j))
  }

  /** Both channels may lose, repeat and reorder messages; only such a splice is excluded. */
  ghost predicate CanArrive(f: Feed, c: Consumer, link: Link, a: Arrival) {
    match a
    case NextUpdate(n) => 1 <= n <= |f.us|
    case SnapshotPart(s, j) =>
      s < |f.taken| && f.taken[s] <= |f.us| && j < |Taken(f, s)| && !Splices(f, c, link, s, j)
  }

  function Wire(f: Feed, a: Arrival): Message
    requires match a
             case NextUpdate(n) => 1 <= n <= |f.us|
             case SnapshotPart(s, j) => s < |f.taken| && f.taken[s] <= |f.us| && j < |Taken(f, s)|
  {
    match a
    case NextUpdate(n) => Message(n, f.us[n - 1])
    case SnapshotPart(s, j) => Message(j, Taken(f, s)[j])
  }

  /** Entering recovery starts a new subscription. */
  ghost function Follows(c: Consumer, d: Consumer, link: Link, a: Arrival): Link {
    match a
    case NextUpdate(_) => if c.inRecovery then link else Link(None)
    case SnapshotPart(s, j) => Link(Some((s, j)))
  }

  /** The queued snapshot is empty or a proper, gap-free beginning of one snapshot, apart from the id in its first marker. */
  ghost predicate Collecting(f: Feed, snapshot: Queued, link: Link)
    requires GoodFeed(f)
  {
    snapshot != map[] ==>
      && link.last.Some?
      && var (s, pos) := link.last.value;
         && s < |f.taken| && pos < |Taken(f, s)| - 1
         && (forall i: nat :: i in snapshot <==> i <= pos)
         && snapshot[0].kind == SNAPSHOT_START
         && (forall i: nat :: 0 < i <= pos ==> snapshot[i] == Taken(f, s)[i])
  }

  /** The exchange's books never outgrow price index and pools. */
  ghost predicate TidyFeed(f: Feed)
    requires GoodFeed(f)
  {
    forall n, t :: 0 <= n <= |f.us| && 0 <= t < ME_MAX_TICKERS ==> Tidy(Books(f, n)[t])
  }

  /** Then neither do books that are built of what was delivered, at no point on the way. */
  ghost predicate TidyDelivered(f: Feed, delivered: seq<MarketUpdate>)
    requires GoodFeed(f)
  {
    TidyFeed(f) ==> forall t :: 0 <= t < ME_MAX_TICKERS ==> TidyThroughout(t, NoOrders(), delivered)
  }

  /** What was delivered is the exchange's books after g updates, and every update of it applies on the way. */
  ghost predicate DeliveredUpTo(f: Feed, delivered: seq<MarketUpdate>, g: nat)
    requires GoodFeed(f)
  {
    && g <= |f.us| && ApplyAll(NoOrders(), delivered) == Books(f, g) && AllApply(NoOrders(), delivered)
    && TidyDelivered(f, delivered)
  }

  ghost predicate Safe(f: Feed, c: Consumer, link: Link)
    requires GoodFeed(f)
  {
    && (exists g :: DeliveredUpTo(f, c.delivered, g))
    && (!c.inRecovery ==> 1 <= c.nextExp && DeliveredUpTo(f, c.delivered, c.nextExp - 1))
    && (c.inRecovery ==> Genuine(c.incremental, f.us) && Collecting(f, c.snapshot, link))
  }

  /** Nothing happens while the queued snapshot has not reached its end. */
  lemma StillCollecting(f: Feed, c: Consumer, link: Link)
    requires GoodFeed(f) && Collecting(f, c.snapshot, link)
    ensures CheckSnapshotSync(c) == c
  {
    hide Taken, Body, NoteAll, Adds, Follow, Events, Ascending, GoodStream, IdsInRange;
    KeysEmpty(c.snapshot);
    if c.snapshot != map[] {
      var (s, pos) := link.last.value;
      TakenShape(f, s);
      CountUp(Keys(c.snapshot), pos + 1);
    }
  }

  /** A message that does not continue the queued snapshot empties it. */
  lemma BrokenSnapshot(f: Feed, c: Consumer, s: nat, j: nat)
    requires GoodFeed(f) && s < |f.taken| && 0 < j < |Taken(f, s)|
    requires j in c.snapshot && c.snapshot[j] == Taken(f, s)[j]
    requires c.snapshot.Keys == {j} || exists i: nat :: i < j && i !in c.snapshot
    ensures CheckSnapshotSync(c) == c.(snapshot := map[])
  {
    var ks := Keys(c.snapshot);
    assert j in ks;
    if c.snapshot.Keys == {j} {
      TakenShape(f, s);
      assert ks[0] in ks;
    } else {
      var i: nat :| i < j && i !in c.snapshot;
      GapShows(c.snapshot, i, j);
    }
  }

  /** The whole of one snapshot is queued. */
  ghost predicate Whole(f: Feed, snapshot: Queued, s: nat)
    requires GoodFeed(f)
  {
    && s < |f.taken|
    && (forall i: nat :: i in snapshot <==> i < |Taken(f, s)|)
    && 0 in snapshot && snapshot[0].kind == SNAPSHOT_START
    && (forall i: nat :: 0 < i < |Taken(f, s)| ==> snapshot[i] == Taken(f, s)[i])
  }

  lemma StreamHasNoMarkers(f: Feed)
    requires GoodFeed(f)
    ensures forall i :: 0 <= i < |f.us| ==> !IsMarker(f.us[i])
  {
  }

  /** A whole snapshot gets past every test up to the incrementals. */
  lemma FullCheck(c: Consumer, t: seq<MarketUpdate>, n: nat, ks: seq<nat>, ls: seq<nat>)
    requires 2 <= |t| && t[0].kind == SNAPSHOT_START && t[|t| - 1] == Marker(SNAPSHOT_END, n)
    requires forall i :: 0 <= i < |t| ==> (IsMarker(t[i]) <==> i == 0 || i == |t| - 1)
    requires |ks| == |t| && (forall i :: 0 <= i < |ks| ==> ks[i] == i) && (forall l :: l in ls ==> l in c.incremental)
    requires forall i: nat :: i < |t| ==> i in c.snapshot && c.snapshot[i] == t[i]
    ensures forall k :: k in ks ==> k in c.snapshot
    ensures var s := Follow(c.incremental, ls, n + 1);
            SyncOver(c, ks, ls) ==
            if s.complete then Consumer(false, s.next, map[], map[], c.delivered + t[1..|t| - 1] + s.events)
            else c.(nextExp := s.next, snapshot := map[])
  {
    EventsAreBody(c.snapshot, ks, t);
  }

  /** `next` comes after the updates up to n and all queued ones, and all between are queued. */
  ghost predicate JustBehind(m: Queued, n: nat, next: nat) {
    (forall k :: k in m ==> k < next) && (forall j: nat :: n < j < next ==> j in m)
  }

  lemma WholeQueue(c: Consumer, t: seq<MarketUpdate>, n: nat, us: seq<MarketUpdate>)
    requires 2 <= |t| && t[0].kind == SNAPSHOT_START && t[|t| - 1] == Marker(SNAPSHOT_END, n)
    requires forall i :: 0 <= i < |t| ==> (IsMarker(t[i]) <==> i == 0 || i == |t| - 1)
    requires forall i: nat :: i in c.snapshot <==> i < |t|
    requires forall i: nat :: i < |t| ==> c.snapshot[i] == t[i]
    requires Genuine(c.incremental, us) && n <= |us| && forall i :: 0 <= i < |us| ==> !IsMarker(us[i])
    ensures var d := CheckSnapshotSync(c);
            if GapFree(Keys(c.incremental), n) then
              && n + 1 <= d.nextExp <= |us| + 1
              && d == Consumer(false, d.nextExp, map[], map[], c.delivered + (t[1..|t| - 1] + us[n..d.nextExp - 1]))
              && JustBehind(c.incremental, n, d.nextExp)
            else
              d == c.(nextExp := d.nextExp, snapshot := map[])
  {
    hide IsMarker, Events, Follow, GapFree, Genuine, SyncOver, Ascending;
    var ks, ls := Keys(c.snapshot), Keys(c.incremental);
    CountUp(ks, |t|);
    FullCheck(c, t, n, ks, ls);
    FollowIsStretch(c.incremental, ls, us, n);
    FollowCompletes(c.incremental, ls, n);
    var s := Follow(c.incremental, ls, n + 1);
    assert c.delivered + t[1..|t| - 1] + s.events == c.delivered + (t[1..|t| - 1] + s.events);
  }

  /** With the whole snapshot queued, recovery completes exactly when the later incrementals have no gap. */
  lemma WholeSnapshot(f: Feed, c: Consumer, s: nat)
    requires GoodFeed(f) && Whole(f, c.snapshot, s) && Genuine(c.incremental, f.us)
    ensures var d := CheckSnapshotSync(c); var n := f.taken[s];
            if GapFree(Keys(c.incremental), n) then
              && n + 1 <= d.nextExp <= |f.us| + 1
              && d == Consumer(false, d.nextExp, map[], map[],
                               c.delivered + (Body(NoteAll(f.us[..n]), ME_MAX_TICKERS) + f.us[n..d.nextExp - 1]))
              && JustBehind(c.incremental, n, d.nextExp)
            else
              d == c.(nextExp := d.nextExp, snapshot := map[])
  {
    hide Body, NoteAll, Taken, CheckSnapshotSync, GoodStream, IdsInRange, Books;
    TakenShape(f, s);
    StreamHasNoMarkers(f);
    var t := [c.snapshot[0]] + Taken(f, s)[1..];
    assert t[1..|t| - 1] == Taken(f, s)[1..|Taken(f, s)| - 1];
    WholeQueue(c, t, f.taken[s], f.us);
  }

  // ---- Safety ----

  /** A stretch of the stream, applied where it belongs, goes through the exchange's books. */
  lemma StretchTidy(f: Feed, n: nat, m: nat, t: nat)
    requires GoodFeed(f) && TidyFeed(f) && n <= m <= |f.us| && t < ME_MAX_TICKERS
    ensures TidyThroughout(t, Books(f, n), f.us[n..m])
  {
    forall k | 0 <= k <= m - n
      ensures Tidy(ApplyAll(Books(f, n), f.us[n..m][..k])[t])
    {
      assert f.us[n..m][..k] == f.us[n..n + k] && f.us[..n] + f.us[n..n + k] == f.us[..n + k];
      ApplyConcat(NoOrders(), f.us[..n], f.us[n..n + k]);
      assert Tidy(Books(f, n + k)[t]);
    }
  }

  lemma CatchUpTidy(f: Feed, delivered: seq<MarketUpdate>, n: nat, m: nat)
    requires GoodFeed(f) && TidyDelivered(f, delivered) && n <= m <= |f.us| && AllApply(NoOrders(), f.us)
    ensures TidyDelivered(f, delivered + (Body(NoteAll(f.us[..n]), ME_MAX_TICKERS) + f.us[n..m]))
  {
    hide Body, NoteAll, ApplyAll, AllApply, TidyThroughout, Tidy, IdsInRange;
    if TidyFeed(f) {
      var copies, body := ApplyAll(NoOrders(), delivered), Body(NoteAll(f.us[..n]), ME_MAX_TICKERS);
      Prefix(NoOrders(), f.us, n);
      assert GoodStream(f.us[..n]);
      SynthesizerAgrees(f.us[..n]);
      assert IdsInRange(Books(f, n));
      BodyReplay(copies, NoteAll(f.us[..n]), Books(f, n), ME_MAX_TICKERS);
      assert Books(f, n)[..ME_MAX_TICKERS] + copies[ME_MAX_TICKERS..] == Books(f, n);
      forall t | 0 <= t < ME_MAX_TICKERS
        ensures TidyThroughout(t, NoOrders(), delivered + (body + f.us[n..m]))
      {
        TidyEnd(t, NoOrders(), delivered);
        BodyStaysTidy(copies, NoteAll(f.us[..n]), Books(f, n), ME_MAX_TICKERS, t);
        StretchTidy(f, n, m, t);
        TidyConcat(t, copies, body, f.us[n..m]);
        TidyConcat(t, NoOrders(), delivered, body + f.us[n..m]);
      }
    }
  }

  /** Delivering a snapshot and the updates after it brings any earlier state up to date. */
  lemma CatchUp(f: Feed, delivered: seq<MarketUpdate>, g: nat, n: nat, m: nat)
    requires GoodFeed(f) && DeliveredUpTo(f, delivered, g) && n <= m <= |f.us|
    ensures DeliveredUpTo(f, delivered + (Body(NoteAll(f.us[..n]), ME_MAX_TICKERS) + f.us[n..m]), m)
  {
    hide Body, NoteAll, ApplyAll, AllApply, IdsInRange, TidyDelivered;
    CatchUpTidy(f, delivered, n, m);
    var us := f.us[..m];
    assert us[..n] == f.us[..n] && us[n..] == f.us[n..m];
    Prefix(NoOrders(), f.us, m);
    var copies := ApplyAll(NoOrders(), delivered);
    assert IdsInRange(Books(f, n));
    assert GoodStream(us);
    SnapshotPlusSuffix(copies, us, n);
    ApplyConcat(NoOrders(), delivered, Body(NoteAll(f.us[..n]), ME_MAX_TICKERS) + f.us[n..m]);
  }

  lemma DeliverTidy(f: Feed, delivered: seq<MarketUpdate>, g: nat)
    requires GoodFeed(f) && TidyDelivered(f, delivered) && g < |f.us| && ApplyAll(NoOrders(), delivered) == Books(f, g)
    ensures TidyDelivered(f, delivered + [f.us[g]])
  {
    hide ApplyAll, AllApply, TidyThroughout, Tidy, GoodStream, IdsInRange;
    if TidyFeed(f) {
      forall t | 0 <= t < ME_MAX_TICKERS
        ensures TidyThroughout(t, NoOrders(), delivered + [f.us[g]])
      {
        StretchTidy(f, g, g + 1, t);
        assert f.us[g..g + 1] == [f.us[g]];
        TidyConcat(t, NoOrders(), delivered, [f.us[g]]);
      }
    }
  }

  /** Delivering the next update in order. */
  lemma Deliver(f: Feed, delivered: seq<MarketUpdate>, g: nat)
    requires GoodFeed(f) && DeliveredUpTo(f, delivered, g) && g < |f.us|
    ensures DeliveredUpTo(f, delivered + [f.us[g]], g + 1)
  {
    hide TidyDelivered, IdsInRange;
    DeliverTidy(f, delivered, g);
    var u := f.us[g];
    Prefix(NoOrders(), f.us, g + 1);
    assert f.us[..g + 1][..g] == f.us[..g];
    ApplyOne(Books(f, g), u);
    ApplyConcat(NoOrders(), delivered, [u]);
  }

  /** Recovery mode with both queues empty, as after `startSnapshotSync`. */
  function Entered(c: Consumer): Consumer {
    if c.inRecovery then c else c.(inRecovery := true, snapshot := map[], incremental := map[])
  }

  lemma IncrementalStep(f: Feed, c: Consumer, link: Link, n: nat)
    requires GoodFeed(f) && Safe(f, c, link) && 1 <= n <= |f.us|
    ensures var a := NextUpdate(n); var d := Receive(c, false, Wire(f, a));
            Safe(f, d, Follows(c, d, link, a))
  {
    hide GoodStream, IdsInRange, Books, CheckSnapshotSync, DeliveredUpTo, Taken;
    if !c.inRecovery && n == c.nextExp {
      Deliver(f, c.delivered, n - 1);
    } else {
      var e := Entered(c);
      var q := e.(incremental := e.incremental[n := f.us[n - 1]]);
      StillCollecting(f, q, link);
    }
  }

  /** A first message starts a snapshot, whatever was queued before. */
  lemma StartStep(f: Feed, c: Consumer, s: nat)
    requires GoodFeed(f) && s < |f.taken| && c.snapshot == map[0 := Taken(f, s)[0]]
    ensures Collecting(f, c.snapshot, Link(Some((s, 0)))) && CheckSnapshotSync(c) == c
  {
    TakenShape(f, s);
    hide GoodStream, IdsInRange, Books, Taken, CheckSnapshotSync;
    StillCollecting(f, c, Link(Some((s, 0))));
  }

  /** The next message of the queued snapshot extends it, or completes it. */
  lemma ExtendStep(f: Feed, c: Consumer, s: nat, j: nat, snapshot: Queued)
    requires GoodFeed(f) && s < |f.taken| && 0 < j < |Taken(f, s)|
    requires Collecting(f, snapshot, Link(Some((s, j - 1)))) && snapshot != map[]
    requires c.snapshot == snapshot[j := Taken(f, s)[j]]
    ensures if j < |Taken(f, s)| - 1
            then Collecting(f, c.snapshot, Link(Some((s, j)))) && CheckSnapshotSync(c) == c
            else Whole(f, c.snapshot, s)
  {
    hide GoodStream, IdsInRange, Books, Taken, CheckSnapshotSync;
    if j < |Taken(f, s)| - 1 {
      StillCollecting(f, c, Link(Some((s, j))));
    }
  }

  /** The END of a snapshot arrives, everything before it is queued, and the later incrementals have no gap. */
  ghost predicate LastPiece(f: Feed, c: Consumer, link: Link, s: nat, j: nat)
    requires s < |f.taken| && f.taken[s] <= |f.us|
  {
    && j == |Taken(f, s)| - 1 && c.snapshot != map[] && link.last.Some? && link.last.value.1 == j - 1
    && GapFree(Keys(c.incremental), f.taken[s])
  }

  /** A beginning of one snapshot is as well the beginning of another that says the same so far. */
  lemma Continues(f: Feed, e: Consumer, link: Link, s: nat, j: nat)
    requires GoodFeed(f) && e.inRecovery && e.snapshot != map[] && Collecting(f, e.snapshot, link)
    requires s < |f.taken| && 0 < j < |Taken(f, s)| && link.last.value.1 == j - 1 && !Splices(f, e, link, s, j)
    ensures Collecting(f, e.snapshot, Link(Some((s, j - 1))))
  {
    hide GoodStream, IdsInRange, Books, Taken;
    var (t, i) := link.last.value;
    if s != t {
      assert forall k: nat :: 0 < k < j ==> Taken(f, t)[k] == Taken(f, t)[1..j][k - 1] == Taken(f, s)[1..j][k - 1];
    }
  }

  /** The state after `queueMessage` for a message of a snapshot. */
  lemma QueuedPart(f: Feed, e: Consumer, link: Link, s: nat, j: nat)
    requires GoodFeed(f) && e.inRecovery && Collecting(f, e.snapshot, link) && Genuine(e.incremental, f.us)
    requires s < |f.taken| && j < |Taken(f, s)|
    requires !Splices(f, e, link, s, j)
    ensures var d := QueueMessage(e, true, Message(j, Taken(f, s)[j]));
            || (d.inRecovery && d.delivered == e.delivered && d.incremental == e.incremental &&
                Collecting(f, d.snapshot, Link(Some((s, j)))))
            || (!d.inRecovery && j == |Taken(f, s)| - 1 && f.taken[s] + 1 <= d.nextExp <= |f.us| + 1 &&
                d.delivered == e.delivered +
                (Body(NoteAll(f.us[..f.taken[s]]), ME_MAX_TICKERS) + f.us[f.taken[s]..d.nextExp - 1]))
    ensures var d := QueueMessage(e, true, Message(j, Taken(f, s)[j]));
            !d.inRecovery <==> LastPiece(f, e, link, s, j)
  {
    hide GoodStream, IdsInRange, Books, CheckSnapshotSync, Body, NoteAll, Taken, Genuine, Keys, GapFree;
    var kept := if j in e.snapshot then map[] else e.snapshot;
    var q := e.(snapshot := kept[j := Taken(f, s)[j]]);
    if kept == map[] {
      if j == 0 {
        StartStep(f, q, s);
        TakenShape(f, s);
      } else {
        BrokenSnapshot(f, q, s, j);
      }
    } else {
      var (t, i) := link.last.value;
      if j == i + 1 {
        Continues(f, e, link, s, j);
        ExtendStep(f, q, s, j, kept);
        if j == |Taken(f, s)| - 1 {
          WholeSnapshot(f, q, s);
        }
      } else {
        assert i + 1 < j && i + 1 !in q.snapshot;
        BrokenSnapshot(f, q, s, j);
      }
    }
  }

  lemma SnapshotStep(f: Feed, c: Consumer, link: Link, s: nat, j: nat)
    requires GoodFeed(f) && Safe(f, c, link) && CanArrive(f, c, link, SnapshotPart(s, j))
    ensures var a := SnapshotPart(s, j); var d := Receive(c, true, Wire(f, a));
            Safe(f, d, Follows(c, d, link, a))
  {
    hide GoodStream, IdsInRange, Books, CheckSnapshotSync, Body, NoteAll, Taken, QueueMessage, DeliveredUpTo, Collecting;
    var d := Receive(c, true, Wire(f, SnapshotPart(s, j)));
    if c.inRecovery || j != c.nextExp {
      var e := Entered(c);
      assert Collecting(f, e.snapshot, link) by { EmptyCollects(f, link); }
      assert e.snapshot != map[] ==> c.inRecovery && link.last.Some? by { CollectsLinked(f, e.snapshot, link); }
      QueuedPart(f, e, link, s, j);
      if !d.inRecovery {
        var g :| DeliveredUpTo(f, c.delivered, g);
        CatchUp(f, c.delivered, g, f.taken[s], d.nextExp - 1);
      }
    }
  }

  /** In recovery nothing is handed on until the last piece of a snapshot arrives, and then recovery ends. */
  lemma CompletesExactly(f: Feed, c: Consumer, link: Link, a: Arrival)
    requires GoodFeed(f) && Safe(f, c, link) && c.inRecovery && CanArrive(f, c, link, a)
    ensures var d := Receive(c, a.SnapshotPart?, Wire(f, a));
            && (!d.inRecovery <==> a.SnapshotPart? && LastPiece(f, c, link, a.s, a.j))
            && (d.inRecovery ==> d.delivered == c.delivered)
  {
    hide GoodStream, IdsInRange, Books, CheckSnapshotSync, Body, NoteAll, Taken, DeliveredUpTo, Collecting, LastPiece;
    match a
    case NextUpdate(n) =>
      var q := c.(incremental := c.incremental[n := f.us[n - 1]]);
      StillCollecting(f, q, link);
    case SnapshotPart(s, j) =>
      assert c.snapshot != map[] ==> link.last.Some? by { CollectsLinked(f, c.snapshot, link); }
      QueuedPart(f, c, link, s, j);
  }

  lemma EmptyCollects(f: Feed, link: Link)
    requires GoodFeed(f)
    ensures Collecting(f, map[], link)
  {
  }

  lemma CollectsLinked(f: Feed, snapshot: Queued, link: Link)
    requires GoodFeed(f) && Collecting(f, snapshot, link)
    ensures snapshot != map[] ==> link.last.Some?
  {
  }

  /** A run: what arrives, one message at a time, from the start of the consumer. */
  ghost function Reached(f: Feed, arrivals: seq<Arrival>): Option<(Consumer, Link)> {
    if arrivals == [] then
      Some((Started(), Link(None)))
    else
      var a := arrivals[|arrivals| - 1];
      match Reached(f, arrivals[..|arrivals| - 1])
      case None => None
      case Some((c, link)) =>
        if CanArrive(f, c, link, a) then
          var d := Receive(c, a.SnapshotPart?, Wire(f, a));
          Some((d, Follows(c, d, link, a)))
        else
          None
  }

  /** Whatever arrives, nothing is handed on by a step that ends in recovery. */
  lemma NothingInRecovery(c: Consumer, isSnapshot: bool, m: Message)
    ensures var d := Receive(c, isSnapshot, m); d.inRecovery ==> d.delivered == c.delivered
  {
    hide Recovery.CheckSnapshotSync;
    forall b: Consumer
      ensures var d := Recovery.CheckSnapshotSync(b); d.inRecovery ==> d.delivered == b.delivered
    {
      SyncDeliversAtEnd(b);
    }
  }

  lemma SyncDeliversAtEnd(c: Consumer)
    ensures var d := Recovery.CheckSnapshotSync(c); d.inRecovery ==> d.delivered == c.delivered
  {
    hide Follow, Events, Keys;
  }

  /** The number expected next when the consumer was last outside recovery. */
  ghost function LastExpected(f: Feed, arrivals: seq<Arrival>): nat
    requires Reached(f, arrivals).Some?
  {
    var c := Reached(f, arrivals).value.0;
    if arrivals == [] || !c.inRecovery then c.nextExp else LastExpected(f, arrivals[..|arrivals| - 1])
  }

  lemma StartIsSafe(f: Feed)
    requires GoodFeed(f)
    ensures Safe(f, Started(), Link(None)) && DeliveredUpTo(f, [], 0)
  {
    assert f.us[..0] == [];
    if TidyFeed(f) {
      forall t | 0 <= t < ME_MAX_TICKERS
        ensures TidyThroughout(t, NoOrders(), [])
      {
        assert Tidy(Books(f, 0)[t]);
        NoAddStaysTidy(t, NoOrders(), []);
      }
    }
    assert DeliveredUpTo(f, [], 0);
  }

  lemma {:induction false} RunIsSafe(f: Feed, arrivals: seq<Arrival>)
    requires GoodFeed(f) && Reached(f, arrivals).Some?
    ensures var (c, link) := Reached(f, arrivals).value; Safe(f, c, link)
  {
    hide GoodFeed, Safe, Receive, Taken, CanArrive, Wire, Follows;
    if arrivals == [] {
      StartIsSafe(f);
    } else {
      var before, a := arrivals[..|arrivals| - 1], arrivals[|arrivals| - 1];
      RunIsSafe(f, before);
      var (c, link) := Reached(f, before).value;
      ArrivalStep(f, c, link, a);
    }
  }

  /** A step that ends in recovery has handed nothing on. */
  lemma LastStep(f: Feed, arrivals: seq<Arrival>)
    requires GoodFeed(f) && arrivals != [] && Reached(f, arrivals).Some?
    ensures Reached(f, arrivals[..|arrivals| - 1]).Some?
    ensures var c, d := Reached(f, arrivals[..|arrivals| - 1]).value.0, Reached(f, arrivals).value.0;
            d.inRecovery ==> d.delivered == c.delivered
  {
    var before, a := arrivals[..|arrivals| - 1], arrivals[|arrivals| - 1];
    var (c, link) := Reached(f, before).value;
    hide Receive, Taken, GoodFeed;
    NothingInRecovery(c, a.SnapshotPart?, Wire(f, a));
  }

  /**
   * Recovery is safe in every run: outside recovery what was handed on is the exchange's books as of the number
   * expected next, and in recovery it stays what it was when the consumer was last outside.
   */
  lemma {:induction false} RecoveryIsSafe(f: Feed, arrivals: seq<Arrival>)
    requires GoodFeed(f) && Reached(f, arrivals).Some?
    ensures var (c, link) := Reached(f, arrivals).value;
            && Safe(f, c, link)
            && 1 <= LastExpected(f, arrivals) && DeliveredUpTo(f, c.delivered, LastExpected(f, arrivals) - 1)
  {
    RunIsSafe(f, arrivals);
    var (c, link) := Reached(f, arrivals).value;
    if !c.inRecovery {
      OutsideUpTo(f, c, link);
    }
    hide GoodFeed, DeliveredUpTo, Safe, Reached;
    if arrivals == [] {
      StartsSo(f);
    } else if c.inRecovery {
      LastStep(f, arrivals);
      RecoveryIsSafe(f, arrivals[..|arrivals| - 1]);
      assert LastExpected(f, arrivals) == LastExpected(f, arrivals[..|arrivals| - 1]);
    }
  }

  lemma OutsideUpTo(f: Feed, c: Consumer, link: Link)
    requires GoodFeed(f) && Safe(f, c, link) && !c.inRecovery
    ensures 1 <= c.nextExp && DeliveredUpTo(f, c.delivered, c.nextExp - 1)
  {
  }

  lemma StartsSo(f: Feed)
    requires GoodFeed(f)
    ensures Reached(f, []) == Some((Started(), Link(None))) && DeliveredUpTo(f, [], 0)
  {
    StartIsSafe(f);
  }

  lemma ArrivalStep(f: Feed, c: Consumer, link: Link, a: Arrival)
    requires GoodFeed(f) && Safe(f, c, link) && CanArrive(f, c, link, a)
    ensures var d := Receive(c, a.SnapshotPart?, Wire(f, a));
            Safe(f, d, Follows(c, d, link, a)) && (d.inRecovery ==> d.delivered == c.delivered)
  {
    hide GoodFeed, Safe, Receive, Taken;
    NothingInRecovery(c, a.SnapshotPart?, Wire(f, a));
    match a
    case NextUpdate(n) => IncrementalStep(f, c, link, n);
    case SnapshotPart(s, j) => SnapshotStep(f, c, link, s, j);
  }
}
