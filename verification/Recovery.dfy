/** Gap detection and snapshot recovery of the market data consumer, as a function of its state. */
module Recovery {
  import opened Types

  datatype Message = Message(seqNum: nat, update: MarketUpdate)

  type Queued = map<nat, MarketUpdate>

  datatype Consumer = Consumer(inRecovery: bool, nextExp: nat, snapshot: Queued, incremental: Queued,
                               delivered: seq<MarketUpdate>)

  function Started(): Consumer {
    Consumer(false, 1, map[], map[], [])
  }

  predicate IsMin(s: set<nat>, k: nat) {
    k in s && forall j :: j in s ==> k <= j
  }

  lemma {:induction false} MinExists(s: set<nat>)
    requires s != {}
    ensures exists k :: IsMin(s, k)
  {
    var j :| j in s;
    var rest := s - {j};
    if rest == {} {
      assert forall i :: i in s ==> i == j || i in rest;
      assert IsMin(s, j);
    } else {
      MinExists(rest);
      var k :| IsMin(rest, k);
      assert forall i :: i in s ==> i == j || i in rest;
      assert IsMin(s, if k < j then k else j);
    }
  }

  /** The keys of an ordered map in the order its iterator visits them. */
  function Ascending(s: set<nat>): (ks: seq<nat>)
    ensures forall k :: k in ks <==> k in s
    ensures forall i, j :: 0 <= i < j < |ks| ==> ks[i] < ks[j]
  {
    if s == {} then
      []
    else
      MinExists(s);
      var k :| IsMin(s, k);
      [k] + Ascending(s - {k})
  }

  function Keys(m: Queued): (ks: seq<nat>)
    ensures forall k :: k in ks <==> k in m
    ensures forall i, j :: 0 <= i < j < |ks| ==> ks[i] < ks[j]
  {
    Ascending(m.Keys)
  }

  lemma KeysEmpty(m: Queued)
    ensures Keys(m) == [] <==> m == map[]
  {
    hide Ascending;
    if Keys(m) != [] {
      assert Keys(m)[0] in m;
    }
    if m != map[] {
      var k :| k in m;
      assert k in Keys(m);
    }
  }

  predicate IsMarker(u: MarketUpdate) {
    u.kind == SNAPSHOT_START || u.kind == SNAPSHOT_END
  }

  /** The queued updates at the given keys, without the snapshot markers. */
  function Events(m: Queued, ks: seq<nat>): seq<MarketUpdate>
    requires forall k :: k in ks ==> k in m
  {
    if ks == [] then
      []
    else
      var k := ks[|ks| - 1];
      Events(m, ks[..|ks| - 1]) + if IsMarker(m[k]) then [] else [m[k]]
  }

  /** How far the queued incrementals follow on from `next`. */
  datatype Suffix = Suffix(next: nat, complete: bool, events: seq<MarketUpdate>)

  /** The pass over the queued incrementals: skip old ones, take consecutive ones, stop at a gap. */
  function Follow(m: Queued, ks: seq<nat>, next: nat): Suffix
    requires forall k :: k in ks ==> k in m
  {
    if ks == [] then
      Suffix(next, true, [])
    else
      var s := Follow(m, ks[..|ks| - 1], next);
      var k := ks[|ks| - 1];
      if !s.complete || k < s.next then
        s
      else if k != s.next then
        s.(complete := false)
      else
        Suffix(s.next + 1, true, s.events + if IsMarker(m[k]) then [] else [m[k]])
  }

  /** `checkSnapshotSync` */
  function CheckSnapshotSync(c: Consumer): Consumer {
    SyncOver(c, Keys(c.snapshot), Keys(c.incremental))
  }

  /** The check, given the order in which the two maps are visited. */
  function SyncOver(c: Consumer, ks: seq<nat>, ls: seq<nat>): Consumer
    requires (forall k :: k in ks ==> k in c.snapshot) && (forall l :: l in ls ==> l in c.incremental)
  {
    if ks == [] then
      c
    else if c.snapshot[ks[0]].kind != SNAPSHOT_START then
      c.(snapshot := map[])
    else if exists i :: 0 <= i < |ks| && ks[i] != i then
      c.(snapshot := map[])
    else if c.snapshot[ks[|ks| - 1]].kind != SNAPSHOT_END then
      c
    else
      var s := Follow(c.incremental, ls, c.snapshot[ks[|ks| - 1]].orderId + 1);
      if s.complete then
        Consumer(false, s.next, map[], map[], c.delivered + Events(c.snapshot, ks) + s.events)
      else
        c.(nextExp := s.next, snapshot := map[])
  }

  /** `queueMessage` */
  function QueueMessage(c: Consumer, isSnapshot: bool, msg: Message): Consumer {
    if isSnapshot then
      var kept := if msg.seqNum in c.snapshot then map[] else c.snapshot;
      CheckSnapshotSync(c.(snapshot := kept[msg.seqNum := msg.update]))
    else
      CheckSnapshotSync(c.(incremental := c.incremental[msg.seqNum := msg.update]))
  }

  /** The body of the loop in `recvCallback`, for one message of a batch. */
  function Receive(c: Consumer, isSnapshot: bool, msg: Message): Consumer {
    if c.inRecovery then
      QueueMessage(c, isSnapshot, msg)
    else if msg.seqNum != c.nextExp then
      QueueMessage(c.(inRecovery := true, snapshot := map[], incremental := map[]), isSnapshot, msg)
    else if isSnapshot then
      c
    else
      c.(nextExp := c.nextExp + 1, delivered := c.delivered + [msg.update])
  }

  /** `recvCallback`: a snapshot batch that arrives outside recovery is dropped as a whole. */
  function ReceiveBatch(c: Consumer, isSnapshot: bool, msgs: seq<Message>): Consumer {
    if isSnapshot && !c.inRecovery then c else ReceiveAll(c, isSnapshot, msgs)
  }

  function ReceiveAll(c: Consumer, isSnapshot: bool, msgs: seq<Message>): Consumer {
    if msgs == [] then c else Receive(ReceiveAll(c, isSnapshot, msgs[..|msgs| - 1]), isSnapshot, msgs[|msgs| - 1])
  }

  // ---- Outside recovery ----

  /** The messages carry consecutive numbers from `next` on. */
  predicate Consecutive(next: nat, msgs: seq<Message>) {
    forall i :: 0 <= i < |msgs| ==> msgs[i].seqNum == next + i
  }

  function Updates(msgs: seq<Message>): (us: seq<MarketUpdate>)
    ensures |us| == |msgs| && forall i :: 0 <= i < |us| ==> us[i] == msgs[i].update
  {
    seq(|msgs|, i requires 0 <= i < |msgs| => msgs[i].update)
  }

  /** With no snapshot queued the check does nothing. */
  lemma NothingToCheck(c: Consumer)
    requires c.snapshot == map[]
    ensures CheckSnapshotSync(c) == c
  {
    KeysEmpty(c.snapshot);
  }

  /**
   * Outside recovery an incremental with the number expected next is handed on; any other starts recovery, with it as
   * the one message queued.
   */
  lemma EntersExactly(c: Consumer, msg: Message)
    requires !c.inRecovery
    ensures var d := Receive(c, false, msg);
            && (d.inRecovery <==> msg.seqNum != c.nextExp)
            && (!d.inRecovery ==> d.nextExp == c.nextExp + 1 && d.delivered == c.delivered + [msg.update])
            && (d.inRecovery ==> d == Consumer(true, c.nextExp, map[], map[msg.seqNum := msg.update], c.delivered))
  {
    hide CheckSnapshotSync;
    NothingToCheck(Consumer(true, c.nextExp, map[], map[msg.seqNum := msg.update], c.delivered));
  }

  /** While no snapshot message is queued, incrementals are kept and nothing else happens. */
  lemma {:induction false} KeepsIncrementals(c: Consumer, msgs: seq<Message>)
    requires c.inRecovery && c.snapshot == map[]
    ensures var d := ReceiveAll(c, false, msgs);
            && d == c.(incremental := d.incremental)
            && (forall k :: k in d.incremental <==> k in c.incremental || exists i :: 0 <= i < |msgs| && msgs[i].seqNum == k)
  {
    hide CheckSnapshotSync;
    if msgs != [] {
      var n := |msgs| - 1;
      KeepsIncrementals(c, msgs[..n]);
      var d := ReceiveAll(c, false, msgs[..n]);
      NothingToCheck(d.(incremental := d.incremental[msgs[n].seqNum := msgs[n].update]));
    }
  }

  /**
   * A batch of incrementals that finds the consumer outside recovery leaves it there exactly when its numbers are
   * consecutive from the one expected next; then all of it is handed on, in order.
   */
  lemma {:induction false} InOrderExactly(c: Consumer, msgs: seq<Message>)
    requires !c.inRecovery
    ensures var d := ReceiveAll(c, false, msgs);
            && (!d.inRecovery <==> Consecutive(c.nextExp, msgs))
            && (!d.inRecovery ==> d.nextExp == c.nextExp + |msgs| && d.delivered == c.delivered + Updates(msgs)
                                  && d == c.(nextExp := d.nextExp, delivered := d.delivered))
            && (d.inRecovery ==> d.snapshot == map[])
  {
    hide CheckSnapshotSync;
    if msgs != [] {
      var n := |msgs| - 1;
      InOrderExactly(c, msgs[..n]);
      var d := ReceiveAll(c, false, msgs[..n]);
      if d.inRecovery {
        assert !Consecutive(c.nextExp, msgs);
        NothingToCheck(d.(incremental := d.incremental[msgs[n].seqNum := msgs[n].update]));
      } else {
        EntersExactly(d, msgs[n]);
        assert Updates(msgs) == Updates(msgs[..n]) + [msgs[n].update];
      }
    } else {
      assert c.delivered + Updates(msgs) == c.delivered;
    }
  }

  /** A batch of either channel, as one call of `recvCallback` gets it. */
  datatype Packet = Packet(isSnapshot: bool, msgs: seq<Message>)

  function ReceivePackets(c: Consumer, ps: seq<Packet>): Consumer {
    if ps == [] then c
    else ReceiveBatch(ReceivePackets(c, ps[..|ps| - 1]), ps[|ps| - 1].isSnapshot, ps[|ps| - 1].msgs)
  }

  /** Everything on the incremental channel. */
  function Incrementals(ps: seq<Packet>): seq<Message> {
    if ps == [] then []
    else Incrementals(ps[..|ps| - 1]) + if ps[|ps| - 1].isSnapshot then [] else ps[|ps| - 1].msgs
  }

  /**
   * In whatever batches a consecutive stream comes, and whatever snapshots come between them, the consumer stays outside
   * recovery, counts every update, and hands on exactly these, in order.
   */
  lemma {:induction false} StreamHandedOn(c: Consumer, ps: seq<Packet>)
    requires !c.inRecovery && Consecutive(c.nextExp, Incrementals(ps))
    ensures var ms := Incrementals(ps);
            ReceivePackets(c, ps) == c.(nextExp := c.nextExp + |ms|, delivered := c.delivered + Updates(ms))
  {
    hide Consecutive, Updates, ReceiveAll;
    if ps == [] {
      TwoBatches(c.nextExp, [], []);
      assert c.delivered + Updates([]) == c.delivered;
    } else {
      var before, p := ps[..|ps| - 1], ps[|ps| - 1];
      var ms := Incrementals(before);
      TwoBatches(c.nextExp, ms, if p.isSnapshot then [] else p.msgs);
      assert p.isSnapshot ==> ms + [] == ms;
      StreamHandedOn(c, before);
      if !p.isSnapshot {
        InOrderExactly(ReceivePackets(c, before), p.msgs);
        assert c.delivered + Updates(ms) + Updates(p.msgs) == c.delivered + (Updates(ms) + Updates(p.msgs));
      }
    }
  }

  lemma TwoBatches(next: nat, ms: seq<Message>, ns: seq<Message>)
    ensures Consecutive(next, ms + ns) <==> Consecutive(next, ms) && Consecutive(next + |ms|, ns)
    ensures Updates(ms + ns) == Updates(ms) + Updates(ns)
  {
    assert forall i :: 0 <= i < |ns| ==> (ms + ns)[|ms| + i] == ns[i];
    assert forall i :: 0 <= i < |ms| ==> (ms + ns)[i] == ms[i];
  }
}
