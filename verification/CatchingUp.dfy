/** Every loss is made good: a gap, the updates after it and one whole snapshot bring the consumer up to date. */
module CatchingUp {
  import opened Types
  import opened BookSpec
  import opened Replica
  import opened Snapshots
  import opened Recovery
  import opened RecoverySafety
  import opened Batches

  /** How many incrementals are among the messages. */
  function UpdatesIn(parts: seq<Arrival>): nat {
    if parts == [] then 0
    else UpdatesIn(parts[..|parts| - 1]) + if parts[|parts| - 1].NextUpdate? then 1 else 0
  }

  /** How many snapshot messages are. */
  function PartsIn(parts: seq<Arrival>): nat {
    if parts == [] then 0
    else PartsIn(parts[..|parts| - 1]) + if parts[|parts| - 1].SnapshotPart? then 1 else 0
  }

  /**
   * The updates from `next` on and the messages of snapshot s from 0 on, each in order, mixed in any way; the end of the
   * snapshot comes when the last update in it has been seen.
   */
  predicate Mixes(f: Feed, parts: seq<Arrival>, next: nat, s: nat)
    requires s < |f.taken| && f.taken[s] <= |f.us|
  {
    forall i :: 0 <= i < |parts| ==>
      match parts[i]
      case NextUpdate(n) => n == next + UpdatesIn(parts[..i]) && 1 <= n <= |f.us|
      case SnapshotPart(t, j) =>
        && t == s && j == PartsIn(parts[..i]) < |Taken(f, s)|
        && (j == |Taken(f, s)| - 1 ==> f.taken[s] < next + UpdatesIn(parts[..i]))
  }

  /** In recovery, with exactly the updates b to i queued and the first k messages of snapshot s, or some others before it. */
  ghost predicate Partway(f: Feed, c: Consumer, link: Link, b: nat, i: nat, s: nat, k: nat)
    requires GoodFeed(f)
  {
    && c.inRecovery && s < |f.taken| && k < |Taken(f, s)|
    && (forall n :: n in c.incremental <==> b <= n <= i)
    && Genuine(c.incremental, f.us)
    && Collecting(f, c.snapshot, link)
    && (0 < k ==> link == Link(Some((s, k - 1))) && c.snapshot != map[])
  }

  lemma UpdateKeepsPartway(f: Feed, c: Consumer, link: Link, b: nat, i: nat, s: nat, k: nat)
    requires GoodFeed(f) && Partway(f, c, link, b, i, s, k) && b <= i + 1 <= |f.us| && 1 <= i + 1
    ensures var a := NextUpdate(i + 1); var d := Receive(c, false, Wire(f, a));
            && CanArrive(f, c, link, a) && Partway(f, d, Follows(c, d, link, a), b, i + 1, s, k)
            && d.delivered == c.delivered
  {
    hide CheckSnapshotSync, Taken, GoodStream, IdsInRange, Books, Collecting;
    var q := c.(incremental := c.incremental[i + 1 := f.us[i]]);
    StillCollecting(f, q, link);
  }

  /** A message of the snapshot is queued, and the last one ends recovery with every queued update counted. */
  lemma PartKeepsPartway(f: Feed, c: Consumer, link: Link, b: nat, i: nat, s: nat, k: nat)
    requires GoodFeed(f) && Partway(f, c, link, b, i, s, k) && 1 <= b <= i + 1 && i <= |f.us|
    requires k == |Taken(f, s)| - 1 ==> b <= f.taken[s] + 1 && f.taken[s] <= i
    ensures var a := SnapshotPart(s, k); var d := Receive(c, true, Wire(f, a));
            && CanArrive(f, c, link, a)
            && (k < |Taken(f, s)| - 1 ==> Partway(f, d, Follows(c, d, link, a), b, i, s, k + 1) && d.delivered == c.delivered)
            && (k == |Taken(f, s)| - 1 ==> !d.inRecovery && d.nextExp == i + 1)
  {
    hide CheckSnapshotSync, Taken, GoodStream, IdsInRange, Books, GapFree, Follow;
    if k == 0 {
      TakenShape(f, s);
      var q := c.(snapshot := map[0 := Taken(f, s)[0]]);
      assert 0 !in c.snapshot ==> c.snapshot == map[];
      StartStep(f, q, s);
      var none: Queued := map[];
      assert none[0 := Taken(f, s)[0]] == map[0 := Taken(f, s)[0]];
      assert Receive(c, true, Wire(f, SnapshotPart(s, k))) == q;
      assert q.snapshot != map[] by { assert 0 in q.snapshot; }
    } else {
      var q := c.(snapshot := c.snapshot[k := Taken(f, s)[k]]);
      ExtendStep(f, q, s, k, c.snapshot);
      if k == |Taken(f, s)| - 1 {
        WholeEnds(f, q, b, i, s);
      }
    }
  }

  /** With the updates b to i queued, a snapshot taken between them ends recovery and leaves i + 1 expected. */
  lemma WholeEnds(f: Feed, c: Consumer, b: nat, i: nat, s: nat)
    requires GoodFeed(f) && Whole(f, c.snapshot, s) && Genuine(c.incremental, f.us)
    requires (forall n :: n in c.incremental <==> b <= n <= i) && b <= f.taken[s] + 1 && f.taken[s] <= i
    ensures var d := CheckSnapshotSync(c); !d.inRecovery && d.nextExp == i + 1
  {
    hide CheckSnapshotSync, Taken, Body, NoteAll, GoodStream, IdsInRange, Books, Genuine;
    WholeSnapshot(f, c, s);
    assert GapFree(Keys(c.incremental), f.taken[s]);
    var d := CheckSnapshotSync(c);
    assert JustBehind(c.incremental, f.taken[s], d.nextExp);
    assert i + 1 !in c.incremental;
    if f.taken[s] < i {
      assert i in c.incremental;
    }
  }

  /** What the mixed messages lead to: still part of the way, or outside recovery with all updates counted. */
  ghost predicate OnTheWay(f: Feed, d: Consumer, link: Link, parts: seq<Arrival>, b: nat, next: nat, s: nat)
    requires GoodFeed(f) && 1 <= next
  {
    && s < |f.taken| && next + UpdatesIn(parts) <= |f.us| + 1
    && (if PartsIn(parts) < |Taken(f, s)|
        then Partway(f, d, link, b, next + UpdatesIn(parts) - 1, s, PartsIn(parts))
        else !d.inRecovery && d.nextExp == next + UpdatesIn(parts))
  }

  lemma MixesStart(f: Feed, parts: seq<Arrival>, next: nat, s: nat, k: nat)
    requires s < |f.taken| && f.taken[s] <= |f.us| && Mixes(f, parts, next, s) && k <= |parts|
    ensures Mixes(f, parts[..k], next, s)
  {
    assert forall i :: 0 <= i < k ==> parts[..k][i] == parts[i] && parts[..k][..i] == parts[..i];
  }

  lemma OneOnTheWay(f: Feed, c: Consumer, link: Link, parts: seq<Arrival>, b: nat, next: nat, s: nat)
    requires GoodFeed(f) && s < |f.taken| && 1 <= b <= f.taken[s] + 1 && b <= next
    requires parts != [] && Mixes(f, parts, next, s)
    requires OnTheWay(f, c, link, parts[..|parts| - 1], b, next, s)
    ensures var a := parts[|parts| - 1]; var d := Receive(c, a.SnapshotPart?, Wire(f, a));
            CanArrive(f, c, link, a) && OnTheWay(f, d, Follows(c, d, link, a), parts, b, next, s)
  {
    hide Taken, GoodStream, IdsInRange, Books, Partway, CheckSnapshotSync;
    var before, a := parts[..|parts| - 1], parts[|parts| - 1];
    var i, k := next + UpdatesIn(before) - 1, PartsIn(before);
    if a.NextUpdate? {
      if k < |Taken(f, s)| {
        UpdateKeepsPartway(f, c, link, b, i, s, k);
      }
    } else {
      PartKeepsPartway(f, c, link, b, i, s, k);
    }
  }

  /** From part of the way, the mixed messages lead on. */
  lemma {:induction false} MixedArrive(f: Feed, c: Consumer, link: Link, parts: seq<Arrival>, b: nat, next: nat, s: nat)
    requires GoodFeed(f) && s < |f.taken| && 1 <= b <= f.taken[s] + 1 && b <= next <= |f.us| + 1 && Mixes(f, parts, next, s)
    requires Partway(f, c, link, b, next - 1, s, 0)
    ensures ArriveAll(f, c, link, parts).Some?
    ensures var (d, l) := ArriveAll(f, c, link, parts).value; OnTheWay(f, d, l, parts, b, next, s)
  {
    hide Taken, GoodStream, IdsInRange, Books, Partway, Receive, CanArrive, Wire, Follows, Mixes, OnTheWay;
    if parts == [] {
      NotYetOnTheWay(f, c, link, b, next, s);
    } else {
      var n := |parts| - 1;
      MixesStart(f, parts, next, s, n);
      MixedArrive(f, c, link, parts[..n], b, next, s);
      var (d, l) := ArriveAll(f, c, link, parts[..n]).value;
      OneOnTheWay(f, d, l, parts, b, next, s);
    }
  }

  lemma NotYetOnTheWay(f: Feed, c: Consumer, link: Link, b: nat, next: nat, s: nat)
    requires GoodFeed(f) && s < |f.taken| && 1 <= next <= |f.us| + 1 && Partway(f, c, link, b, next - 1, s, 0)
    ensures OnTheWay(f, c, link, [], b, next, s)
  {
  }

  // ---- After a loss ----

  /** A number beyond the one expected starts recovery, as if recovery had been entered before it came. */
  lemma {:induction false} GapEnters(f: Feed, c: Consumer, link: Link, parts: seq<Arrival>)
    requires !c.inRecovery && parts != [] && parts[0].NextUpdate? && parts[0].n != c.nextExp
    ensures ArriveAll(f, c, link, parts) == ArriveAll(f, Entered(c), Link(None), parts)
    decreases |parts|
  {
    hide CanArrive, Wire;
    var n := |parts| - 1;
    if n == 0 {
      FirstArrives(f, c, link, parts);
    } else {
      GapEnters(f, c, link, parts[..n]);
    }
  }

  lemma FirstArrives(f: Feed, c: Consumer, link: Link, parts: seq<Arrival>)
    requires !c.inRecovery && |parts| == 1 && parts[0].NextUpdate? && parts[0].n != c.nextExp
    ensures ArriveAll(f, c, link, parts) == ArriveAll(f, Entered(c), Link(None), parts)
  {
    hide QueueMessage;
    assert parts[..0] == [];
    assert ArriveAll(f, c, link, parts[..0]) == Some((c, link));
    assert ArriveAll(f, Entered(c), Link(None), parts[..0]) == Some((Entered(c), Link(None)));
  }

  /** The snapshot message that came last among the messages. */
  function LastPart(parts: seq<Arrival>): Option<(nat, nat)> {
    if parts == [] then None
    else
      match parts[|parts| - 1]
      case NextUpdate(_) => LastPart(parts[..|parts| - 1])
      case SnapshotPart(s, j) => Some((s, j))
  }

  /**
   * The updates from b on in order, and among them messages of any snapshots, lost, repeated and out of order; but none
   * that comes after the message before it and is the end of its snapshot, or belongs to another one.
   */
  predicate Attempts(f: Feed, parts: seq<Arrival>, b: nat) {
    forall i :: 0 <= i < |parts| ==>
      match parts[i]
      case NextUpdate(n) => n == b + UpdatesIn(parts[..i]) && 1 <= n <= |f.us|
      case SnapshotPart(t, j) =>
        && t < |f.taken| && f.taken[t] <= |f.us| && j < |Taken(f, t)|
        && var last := LastPart(parts[..i]);
           last.Some? && 0 < j == last.value.1 + 1 ==> last.value.0 == t && j + 1 < |Taken(f, t)|
  }

  lemma AttemptsStart(f: Feed, parts: seq<Arrival>, b: nat, k: nat)
    requires Attempts(f, parts, b) && k <= |parts|
    ensures Attempts(f, parts[..k], b)
  {
    assert forall i :: 0 <= i < k ==> parts[..k][i] == parts[i] && parts[..k][..i] == parts[..i];
  }

  /** A message of a snapshot that does not complete it keeps the consumer in recovery and the updates queued. */
  lemma AttemptKeeps(f: Feed, c: Consumer, link: Link, b: nat, i: nat, s: nat, t: nat, j: nat)
    requires GoodFeed(f) && Partway(f, c, link, b, i, s, 0)
    requires t < |f.taken| && j < |Taken(f, t)|
    requires link.last.Some? && 0 < j == link.last.value.1 + 1 ==> link.last.value.0 == t && j + 1 < |Taken(f, t)|
    ensures var a := SnapshotPart(t, j); var d := Receive(c, true, Wire(f, a));
            CanArrive(f, c, link, a) && Partway(f, d, Follows(c, d, link, a), b, i, s, 0)
  {
    hide CheckSnapshotSync, Taken, GoodStream, IdsInRange, Books, Collecting, QueueMessage;
    QueuedPart(f, c, link, t, j);
  }

  /** Broken attempts leave the consumer waiting, with all updates queued. */
  lemma {:induction false} AttemptsArrive(f: Feed, c: Consumer, parts: seq<Arrival>, b: nat, s: nat)
    requires GoodFeed(f) && 1 <= b <= |f.us| + 1 && Partway(f, c, Link(None), b, b - 1, s, 0) && Attempts(f, parts, b)
    ensures ArriveAll(f, c, Link(None), parts).Some? && b + UpdatesIn(parts) <= |f.us| + 1
    ensures var (d, l) := ArriveAll(f, c, Link(None), parts).value;
            Partway(f, d, l, b, b + UpdatesIn(parts) - 1, s, 0) && l == Link(LastPart(parts))
  {
    hide GoodFeed, Taken, Partway, Attempts, Receive, CanArrive, Wire, Follows;
    if parts != [] {
      var n := |parts| - 1;
      AttemptsStart(f, parts, b, n);
      AttemptsArrive(f, c, parts[..n], b, s);
      var (d, l) := ArriveAll(f, c, Link(None), parts[..n]).value;
      AttemptArrives(f, d, l, parts, b, s);
    }
  }

  /** One message more. */
  lemma AttemptArrives(f: Feed, c: Consumer, link: Link, parts: seq<Arrival>, b: nat, s: nat)
    requires GoodFeed(f) && 1 <= b && parts != [] && Attempts(f, parts, b)
    requires var before := parts[..|parts| - 1];
             && b + UpdatesIn(before) <= |f.us| + 1 && link == Link(LastPart(before))
             && Partway(f, c, link, b, b + UpdatesIn(before) - 1, s, 0)
    ensures var a := parts[|parts| - 1]; var d := Receive(c, a.SnapshotPart?, Wire(f, a));
            && CanArrive(f, c, link, a) && b + UpdatesIn(parts) <= |f.us| + 1
            && Partway(f, d, Follows(c, d, link, a), b, b + UpdatesIn(parts) - 1, s, 0)
            && Follows(c, d, link, a) == Link(LastPart(parts))
  {
    hide GoodFeed, Taken, Partway, Receive, CanArrive, Wire;
    var i := b + UpdatesIn(parts[..|parts| - 1]) - 1;
    PartwayRecovers(f, c, link, b, i, s, 0);
    match parts[|parts| - 1]
    case NextUpdate(_) => UpdateKeepsPartway(f, c, link, b, i, s, 0);
    case SnapshotPart(t, j) => AttemptKeeps(f, c, link, b, i, s, t, j);
  }

  lemma PartwayRecovers(f: Feed, c: Consumer, link: Link, b: nat, i: nat, s: nat, k: nat)
    requires GoodFeed(f) && Partway(f, c, link, b, i, s, k)
    ensures c.inRecovery
  {
  }

  /**
   * Updates from b on after some were lost, with broken attempts at snapshots up to message m, and from there on with
   * the messages of snapshot s, which covers the loss.
   */
  predicate Healing(f: Feed, parts: seq<Arrival>, next: nat, b: nat, s: nat, m: nat) {
    && s < |f.taken| && f.taken[s] <= |f.us| && next < b <= f.taken[s] + 1
    && (parts != [] ==> parts[0] == NextUpdate(b)) && 0 < m
    && Attempts(f, if |parts| <= m then parts else parts[..m], b)
    && (m < |parts| ==> Mixes(f, parts[m..], b + UpdatesIn(parts[..m]), s))
  }

  /** All messages of the snapshot are there: the loss is made good. */
  predicate Heals(f: Feed, parts: seq<Arrival>, next: nat, b: nat, s: nat, m: nat) {
    Healing(f, parts, next, b, s, m) && m < |parts| && PartsIn(parts[m..]) == |Taken(f, s)|
  }

  lemma {:induction false} UpdatesConcat(ps: seq<Arrival>, qs: seq<Arrival>)
    ensures UpdatesIn(ps + qs) == UpdatesIn(ps) + UpdatesIn(qs)
  {
    if qs == [] {
      assert ps + qs == ps;
    } else {
      assert (ps + qs)[..|ps + qs| - 1] == ps + qs[..|qs| - 1];
      UpdatesConcat(ps, qs[..|qs| - 1]);
    }
  }

  lemma HealingStart(f: Feed, parts: seq<Arrival>, next: nat, b: nat, s: nat, m: nat, k: nat)
    requires Healing(f, parts, next, b, s, m) && k <= |parts|
    ensures Healing(f, parts[..k], next, b, s, m)
  {
    hide Attempts, Mixes, Taken;
    if k <= m {
      if |parts| <= m {
        AttemptsStart(f, parts, b, k);
      } else {
        AttemptsStart(f, parts[..m], b, k);
        assert parts[..m][..k] == parts[..k];
      }
    } else {
      assert parts[..k][..m] == parts[..m] && parts[..k][m..] == parts[m..][..k - m];
      MixesStart(f, parts[m..], b + UpdatesIn(parts[..m]), s, k - m);
    }
  }

  /** Where such messages lead: recovery with all updates queued, until the last message of the snapshot ends it. */
  lemma HealingArrives(f: Feed, c: Consumer, link: Link, parts: seq<Arrival>, b: nat, s: nat, m: nat)
    requires GoodFeed(f) && !c.inRecovery && Healing(f, parts, c.nextExp, b, s, m)
    ensures ArriveAll(f, c, link, parts).Some?
    ensures var (d, l) := ArriveAll(f, c, link, parts).value;
            parts != [] ==>
              if |parts| <= m then d.inRecovery
              else OnTheWay(f, d, l, parts[m..], b, b + UpdatesIn(parts[..m]), s)
  {
    hide Taken, GoodStream, IdsInRange, Books, Mixes, Attempts, CheckSnapshotSync, ArriveAll, OnTheWay, Partway;
    if parts == [] {
      NothingArrives(f, c, link);
    } else {
      GapEnters(f, c, link, parts);
      EntersPartway(f, c, b, s);
      var ps := if |parts| <= m then parts else parts[..m];
      AttemptsArrive(f, Entered(c), ps, b, s);
      var (d, l) := ArriveAll(f, Entered(c), Link(None), ps).value;
      PartwayRecovers(f, d, l, b, b + UpdatesIn(ps) - 1, s, 0);
      if m < |parts| {
        assert ps + parts[m..] == parts;
        ArriveConcat(f, Entered(c), Link(None), ps, parts[m..]);
        MixedArrive(f, d, l, parts[m..], b, b + UpdatesIn(ps), s);
      }
    }
  }

  lemma NothingArrives(f: Feed, c: Consumer, link: Link)
    ensures ArriveAll(f, c, link, []) == Some((c, link))
  {
  }

  /** Once a loss is made good recovery is over and every update up to the last is counted. */
  lemma LossIsRepaired(f: Feed, c: Consumer, link: Link, parts: seq<Arrival>, b: nat, s: nat, m: nat)
    requires GoodFeed(f) && !c.inRecovery && Heals(f, parts, c.nextExp, b, s, m)
    ensures ArriveAll(f, c, link, parts).Some?
    ensures var (d, _) := ArriveAll(f, c, link, parts).value;
            !d.inRecovery && d.nextExp == b + UpdatesIn(parts) <= |f.us| + 1
  {
    hide Taken, GoodStream, IdsInRange, Books, Mixes, Attempts, CheckSnapshotSync, ArriveAll;
    HealingArrives(f, c, link, parts, b, s, m);
    assert parts[..m] + parts[m..] == parts;
    UpdatesConcat(parts[..m], parts[m..]);
  }

  lemma EntersPartway(f: Feed, c: Consumer, b: nat, s: nat)
    requires GoodFeed(f) && s < |f.taken| && !c.inRecovery && 1 <= b
    ensures Partway(f, Entered(c), Link(None), b, b - 1, s, 0)
  {
    TakenShape(f, s);
    hide Taken, GoodStream, IdsInRange, Books;
  }

  // ---- In batches ----

  /** All messages of the batches. */
  function Flat(batches: seq<Batch>): seq<Arrival> {
    if batches == [] then [] else Flat(batches[..|batches| - 1]) + batches[|batches| - 1].parts
  }

  /** The messages of the incremental channel. */
  function FlatUpdates(batches: seq<Batch>): seq<Arrival> {
    if batches == [] then []
    else FlatUpdates(batches[..|batches| - 1]) + if batches[|batches| - 1].isSnapshot then [] else batches[|batches| - 1].parts
  }

  predicate AllCarried(f: Feed, batches: seq<Batch>) {
    forall i :: 0 <= i < |batches| ==> Carried(f, batches[i])
  }

  /** The incremental channel brings the updates from `next` up to but not including `upTo`, all of them and in order. */
  predicate Steady(f: Feed, batches: seq<Batch>, next: nat, upTo: nat) {
    && AllCarried(f, batches) && 1 <= next <= upTo <= |f.us| + 1
    && FlatUpdates(batches) == seq(upTo - next, i requires 0 <= i < upTo - next => NextUpdate(next + i))
  }

  /** The batches make a loss good. */
  ghost predicate Repairs(f: Feed, batches: seq<Batch>, next: nat, upTo: nat) {
    AllCarried(f, batches)
    && exists b: nat, s: nat, m: nat :: Heals(f, Flat(batches), next, b, s, m) && upTo == b + UpdatesIn(Flat(batches))
  }

  lemma {:induction false} ArriveConcat(f: Feed, c: Consumer, link: Link, ps: seq<Arrival>, qs: seq<Arrival>)
    requires ArriveAll(f, c, link, ps).Some?
    ensures var (d, l) := ArriveAll(f, c, link, ps).value; ArriveAll(f, c, link, ps + qs) == ArriveAll(f, d, l, qs)
  {
    hide CanArrive, Receive, Wire, Follows;
    if qs == [] {
      assert ps + qs == ps;
    } else {
      assert (ps + qs)[..|ps + qs| - 1] == ps + qs[..|qs| - 1];
      ArriveConcat(f, c, link, ps, qs[..|qs| - 1]);
    }
  }

  /** Batches from a given state on. */
  ghost function TakeBatches(f: Feed, c: Consumer, link: Link, batches: seq<Batch>): Option<(Consumer, Link)> {
    if batches == [] then
      Some((c, link))
    else
      match TakeBatches(f, c, link, batches[..|batches| - 1])
      case None => None
      case Some((d, l)) =>
        var b := batches[|batches| - 1];
        if !Carried(f, b) then None
        else if b.isSnapshot && !d.inRecovery then Some((d, l))
        else ArriveAll(f, d, l, b.parts)
  }

  lemma {:induction false} ReachedMore(f: Feed, before: seq<Batch>, batches: seq<Batch>)
    requires ReachedBy(f, before).Some?
    ensures var (c, link) := ReachedBy(f, before).value; ReachedBy(f, before + batches) == TakeBatches(f, c, link, batches)
  {
    hide Carried, ArriveAll;
    if batches == [] {
      assert before + batches == before;
      var (c, link) := ReachedBy(f, before).value;
      assert TakeBatches(f, c, link, batches) == Some((c, link));
    } else {
      assert (before + batches)[..|before + batches| - 1] == before + batches[..|batches| - 1];
      ReachedMore(f, before, batches[..|batches| - 1]);
    }
  }

  /** A steady stretch is handed on as it comes. */
  lemma {:induction false} SteadyTaken(f: Feed, c: Consumer, link: Link, batches: seq<Batch>, upTo: nat)
    requires !c.inRecovery && Steady(f, batches, c.nextExp, upTo)
    ensures TakeBatches(f, c, link, batches).Some?
    ensures TakeBatches(f, c, link, batches).value.0 ==
            c.(nextExp := upTo, delivered := c.delivered + f.us[c.nextExp - 1..upTo - 1])
  {
    hide ArriveAll, Steady, Carried;
    if batches == [] {
      NoUpdates(f, c.nextExp, upTo);
      assert c.delivered + f.us[c.nextExp - 1..upTo - 1] == c.delivered;
    } else {
      var before, b := batches[..|batches| - 1], batches[|batches| - 1];
      var mid := SteadyParts(f, batches, c.nextExp, upTo);
      SteadyTaken(f, c, link, before, mid);
      var (d, l) := TakeBatches(f, c, link, before).value;
      if !b.isSnapshot {
        SteadyBatch(f, d, l, b);
        assert c.delivered + f.us[c.nextExp - 1..mid - 1] + f.us[mid - 1..upTo - 1] == c.delivered + f.us[c.nextExp - 1..upTo - 1];
      }
    }
  }

  lemma NoUpdates(f: Feed, next: nat, upTo: nat)
    requires Steady(f, [], next, upTo)
    ensures upTo == next && 1 <= next <= |f.us| + 1
  {
  }

  /** A steady stretch without its last batch is steady, and the last batch goes on from there. */
  lemma SteadyParts(f: Feed, batches: seq<Batch>, next: nat, upTo: nat) returns (mid: nat)
    requires batches != [] && Steady(f, batches, next, upTo)
    ensures var b := batches[|batches| - 1];
            && Steady(f, batches[..|batches| - 1], next, mid) && Carried(f, b)
            && upTo == (if b.isSnapshot then mid else mid + |b.parts|) && 1 <= next <= mid && upTo <= |f.us| + 1
            && (!b.isSnapshot ==> forall i :: 0 <= i < |b.parts| ==> b.parts[i] == NextUpdate(mid + i))
  {
    hide Carried;
    var before, b := batches[..|batches| - 1], batches[|batches| - 1];
    var all := FlatUpdates(batches);
    mid := next + |FlatUpdates(before)|;
    assert FlatUpdates(before) == all[..|FlatUpdates(before)|];
    if !b.isSnapshot {
      assert forall i :: 0 <= i < |b.parts| ==> b.parts[i] == all[|FlatUpdates(before)| + i];
    }
  }

  lemma {:induction false} UpdatesArrive(f: Feed, c: Consumer, link: Link, parts: seq<Arrival>)
    requires forall i :: 0 <= i < |parts| ==> parts[i].NextUpdate? && 1 <= parts[i].n <= |f.us|
    ensures ArriveAll(f, c, link, parts).Some?
  {
    hide Receive, Follows;
    if parts != [] {
      UpdatesArrive(f, c, link, parts[..|parts| - 1]);
    }
  }

  lemma SteadyBatch(f: Feed, c: Consumer, link: Link, b: Batch)
    requires !c.inRecovery && 1 <= c.nextExp && c.nextExp + |b.parts| <= |f.us| + 1 && Carried(f, b) && !b.isSnapshot
    requires forall i :: 0 <= i < |b.parts| ==> b.parts[i] == NextUpdate(c.nextExp + i)
    ensures ArriveAll(f, c, link, b.parts).Some?
    ensures ArriveAll(f, c, link, b.parts).value.0 ==
            c.(nextExp := c.nextExp + |b.parts|, delivered := c.delivered + f.us[c.nextExp - 1..c.nextExp + |b.parts| - 1])
  {
    hide ArriveAll, ReceiveAll;
    UpdatesArrive(f, c, link, b.parts);
    BatchReceived(f, c, link, b);
    var ms := Wires(f, b);
    assert forall i :: 0 <= i < |ms| ==> ms[i] == Message(c.nextExp + i, f.us[c.nextExp + i - 1]);
    InOrderExactly(c, ms);
    assert Updates(ms) == f.us[c.nextExp - 1..c.nextExp + |b.parts| - 1];
  }

  /** Within a repair no snapshot batch is dropped: it comes while the consumer is in recovery. */
  lemma {:induction false} RepairTaken(f: Feed, c: Consumer, link: Link, batches: seq<Batch>, b: nat, s: nat, m: nat)
    requires GoodFeed(f) && !c.inRecovery && AllCarried(f, batches) && Healing(f, Flat(batches), c.nextExp, b, s, m)
    ensures TakeBatches(f, c, link, batches) == ArriveAll(f, c, link, Flat(batches))
    ensures TakeBatches(f, c, link, batches).Some?
  {
    hide Taken, GoodStream, IdsInRange, Books, CheckSnapshotSync, Partway, ArriveAll, Healing, Carried;
    if batches == [] {
      NothingArrives(f, c, link);
    } else {
      var before, x := batches[..|batches| - 1], batches[|batches| - 1];
      var ps, qs := Flat(before), Flat(batches);
      HealingStart(f, qs, c.nextExp, b, s, m, |ps|);
      assert qs[..|ps|] == ps;
      RepairTaken(f, c, link, before, b, s, m);
      ArriveConcat(f, c, link, ps, x.parts);
      var (d, l) := TakeBatches(f, c, link, before).value;
      HealingArrives(f, c, link, qs, b, s, m);
      if x.isSnapshot && x.parts != [] {
        InRepair(f, c, link, qs, |ps|, b, s, m, x);
      } else if x.parts == [] {
        NothingArrives(f, d, l);
      }
    }
  }

  /** A snapshot message comes while the consumer is in recovery. */
  lemma InRepair(f: Feed, c: Consumer, link: Link, parts: seq<Arrival>, k: nat, b: nat, s: nat, m: nat, x: Batch)
    requires GoodFeed(f) && !c.inRecovery && Healing(f, parts, c.nextExp, b, s, m)
    requires Carried(f, x) && x.isSnapshot && x.parts != []
    requires k < |parts| && parts[k] == x.parts[0]
    ensures ArriveAll(f, c, link, parts[..k]).Some? && ArriveAll(f, c, link, parts[..k]).value.0.inRecovery
  {
    hide Taken, GoodStream, IdsInRange, Books, CheckSnapshotSync, ArriveAll, Attempts;
    assert parts[k].SnapshotPart?;
    HealingStart(f, parts, c.nextExp, b, s, m, k);
    HealingArrives(f, c, link, parts[..k], b, s, m);
    if m < k {
      var a := parts[m..][k - m];
      assert a == parts[k] && parts[m..][..k - m] == parts[..k][m..];
    }
  }

  // ---- Any number of losses ----

  /** A stretch of batches, and the number expected next after it. */
  datatype Stretch = Stretch(batches: seq<Batch>, upTo: nat)

  function AllBatches(ss: seq<Stretch>): seq<Batch> {
    if ss == [] then [] else AllBatches(ss[..|ss| - 1]) + ss[|ss| - 1].batches
  }

  function UpTo(ss: seq<Stretch>): nat {
    if ss == [] then 1 else ss[|ss| - 1].upTo
  }

  /** Every stretch is steady or makes a loss good. */
  ghost predicate AllMadeGood(f: Feed, ss: seq<Stretch>) {
    ss != [] ==>
      var before, s := ss[..|ss| - 1], ss[|ss| - 1];
      && AllMadeGood(f, before)
      && (Steady(f, s.batches, UpTo(before), s.upTo) || Repairs(f, s.batches, UpTo(before), s.upTo))
  }

  /** Whatever is lost, if each loss is made good the consumer is outside recovery and has counted every update. */
  lemma {:induction false} CatchesUp(f: Feed, ss: seq<Stretch>)
    requires GoodFeed(f) && AllMadeGood(f, ss)
    ensures ReachedBy(f, AllBatches(ss)).Some?
    ensures var c := ReachedBy(f, AllBatches(ss)).value.0; !c.inRecovery && c.nextExp == UpTo(ss)
  {
    hide GoodFeed, Taken, Steady, Repairs, TakeBatches;
    if ss != [] {
      var before, s := ss[..|ss| - 1], ss[|ss| - 1];
      CatchesUp(f, before);
      var (c, link) := ReachedBy(f, AllBatches(before)).value;
      hide ReachedBy;
      ReachedMore(f, AllBatches(before), s.batches);
      if Steady(f, s.batches, UpTo(before), s.upTo) {
        SteadyTaken(f, c, link, s.batches, s.upTo);
      } else {
        RepairEnds(f, c, link, s.batches, s.upTo);
      }
    }
  }

  lemma RepairEnds(f: Feed, c: Consumer, link: Link, batches: seq<Batch>, upTo: nat)
    requires GoodFeed(f) && !c.inRecovery && Repairs(f, batches, c.nextExp, upTo)
    ensures TakeBatches(f, c, link, batches).Some?
    ensures var d := TakeBatches(f, c, link, batches).value.0; !d.inRecovery && d.nextExp == upTo
  {
    hide GoodFeed, Taken, TakeBatches, Healing, ArriveAll;
    var b: nat, s: nat, m: nat :| Heals(f, Flat(batches), c.nextExp, b, s, m) && upTo == b + UpdatesIn(Flat(batches));
    RepairTaken(f, c, link, batches, b, s, m);
    LossIsRepaired(f, c, link, Flat(batches), b, s, m);
  }

  /** Without any loss exactly the exchange's updates are handed on. */
  lemma NothingLost(f: Feed, batches: seq<Batch>)
    requires Steady(f, batches, 1, |f.us| + 1)
    ensures ReachedBy(f, batches).Some?
    ensures ReachedBy(f, batches).value.0 == Consumer(false, |f.us| + 1, map[], map[], f.us)
  {
    hide Steady, TakeBatches;
    assert ReachedBy(f, []) == Some((Started(), Link(None)));
    ReachedMore(f, [], batches);
    SteadyTaken(f, Started(), Link(None), batches, |f.us| + 1);
    assert [] + batches == batches && [] + f.us[0..|f.us|] == f.us;
  }
}
