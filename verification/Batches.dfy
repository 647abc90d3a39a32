/** Batches of messages as the sockets give them, and the runs of single messages they amount to. */
module Batches {
  import opened Types
  import opened Recovery
  import opened RecoverySafety

  /** What one call of `recvCallback` finds in its socket: messages of one of the two channels. */
  datatype Batch = Batch(isSnapshot: bool, parts: seq<Arrival>)

  predicate OnWire(f: Feed, a: Arrival) {
    match a
    case NextUpdate(n) => 1 <= n <= |f.us|
    case SnapshotPart(s, j) => s < |f.taken| && f.taken[s] <= |f.us| && j < |Taken(f, s)|
  }

  /** The messages of a batch exist, and are of its channel. */
  predicate Carried(f: Feed, b: Batch) {
    forall i :: 0 <= i < |b.parts| ==> OnWire(f, b.parts[i]) && b.parts[i].SnapshotPart? == b.isSnapshot
  }

  function Wires(f: Feed, b: Batch): (ms: seq<Message>)
    requires Carried(f, b)
    ensures |ms| == |b.parts|
  {
    seq(|b.parts|, i requires 0 <= i < |b.parts| => Wire(f, b.parts[i]))
  }

  /** Messages arriving one after the other, from some state on. */
  ghost function ArriveAll(f: Feed, c: Consumer, link: Link, parts: seq<Arrival>): Option<(Consumer, Link)> {
    if parts == [] then
      Some((c, link))
    else
      match ArriveAll(f, c, link, parts[..|parts| - 1])
      case None => None
      case Some((d, l)) =>
        var a := parts[|parts| - 1];
        if CanArrive(f, d, l, a) then
          var e := Receive(d, a.SnapshotPart?, Wire(f, a));
          Some((e, Follows(d, e, l, a)))
        else
          None
  }

  /** The state after the batches; a snapshot batch outside recovery is dropped as a whole. */
  ghost function ReachedBy(f: Feed, batches: seq<Batch>): Option<(Consumer, Link)> {
    if batches == [] then
      Some((Started(), Link(None)))
    else
      match ReachedBy(f, batches[..|batches| - 1])
      case None => None
      case Some((c, link)) =>
        var b := batches[|batches| - 1];
        if !Carried(f, b) then None
        else if b.isSnapshot && !c.inRecovery then Some((c, link))
        else ArriveAll(f, c, link, b.parts)
  }

  lemma {:induction false} ReachedConcat(f: Feed, before: seq<Arrival>, parts: seq<Arrival>)
    requires Reached(f, before).Some?
    ensures var (c, link) := Reached(f, before).value; Reached(f, before + parts) == ArriveAll(f, c, link, parts)
  {
    if parts == [] {
      assert before + parts == before;
    } else {
      ReachedConcat(f, before, parts[..|parts| - 1]);
      assert (before + parts)[..|before + parts| - 1] == before + parts[..|parts| - 1];
    }
  }

  /** Batches are runs of single messages, without the dropped ones. */
  lemma {:induction false} BatchesAreRuns(f: Feed, batches: seq<Batch>) returns (arrivals: seq<Arrival>)
    requires ReachedBy(f, batches).Some?
    ensures Reached(f, arrivals) == ReachedBy(f, batches)
  {
    if batches == [] {
      arrivals := [];
    } else {
      var b := batches[|batches| - 1];
      arrivals := BatchesAreRuns(f, batches[..|batches| - 1]);
      var (c, link) := ReachedBy(f, batches[..|batches| - 1]).value;
      if !(b.isSnapshot && !c.inRecovery) {
        ReachedConcat(f, arrivals, b.parts);
        arrivals := arrivals + b.parts;
      }
    }
  }

  /** The consumer's loop over a batch takes the same steps. */
  lemma {:induction false} BatchReceived(f: Feed, c: Consumer, link: Link, b: Batch)
    requires Carried(f, b) && ArriveAll(f, c, link, b.parts).Some?
    ensures ReceiveAll(c, b.isSnapshot, Wires(f, b)) == ArriveAll(f, c, link, b.parts).value.0
    decreases |b.parts|
  {
    hide Wires, Carried, OnWire, Wire, CanArrive, Receive, Follows;
    if b.parts == [] {
      assert Wires(f, b) == [];
    } else {
      LastOnWire(f, b);
      BatchReceived(f, c, link, b.(parts := b.parts[..|b.parts| - 1]));
    }
  }

  lemma LastOnWire(f: Feed, b: Batch)
    requires Carried(f, b) && b.parts != []
    ensures var n := |b.parts| - 1;
            var before := b.(parts := b.parts[..n]);
            && OnWire(f, b.parts[n]) && b.parts[n].SnapshotPart? == b.isSnapshot && Carried(f, before)
            && Wires(f, b) != [] && Wires(f, b)[..|Wires(f, b)| - 1] == Wires(f, before)
            && Wires(f, b)[|Wires(f, b)| - 1] == Wire(f, b.parts[n])
  {
    hide OnWire, Wire;
    assert forall x :: x in b.parts[..|b.parts| - 1] ==> x in b.parts;
    var n, before := |b.parts| - 1, b.(parts := b.parts[..|b.parts| - 1]);
    assert forall i :: 0 <= i < n ==> before.parts[i] == b.parts[i];
    assert Wires(f, b)[..n] == Wires(f, before);
  }
}
