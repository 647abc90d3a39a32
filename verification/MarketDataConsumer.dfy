/** The market data consumer: a state machine over batches of messages, step by step the Recovery functions. */
module MarketDataConsumers {
  import opened Types
  import opened Recovery

  class MarketDataConsumer {
    var inRecovery: bool
    var nextExpIncSeqNum: nat
    var snapshotQueuedMsgs: map<nat, MarketUpdate>
    var incrementalQueuedMsgs: map<nat, MarketUpdate>
    var incomingMdUpdates: seq<MarketUpdate>   // handed on to the trade engine

    ghost function State(): Consumer
      reads this
    {
      Consumer(inRecovery, nextExpIncSeqNum, snapshotQueuedMsgs, incrementalQueuedMsgs, incomingMdUpdates)
    }

    constructor ()
      ensures State() == Started()
    {
      inRecovery, nextExpIncSeqNum := false, 1;
      snapshotQueuedMsgs, incrementalQueuedMsgs, incomingMdUpdates := map[], map[], [];
    }

    method StartSnapshotSync()
      modifies this
      ensures State() == old(State()).(snapshot := map[], incremental := map[])
    {
      snapshotQueuedMsgs := map[];
      incrementalQueuedMsgs := map[];
    }

    /** The pass over the queued snapshot: contiguous from 0, or not complete. */
    method CollectSnapshot(keys: seq<nat>) returns (complete: bool, events: seq<MarketUpdate>)
      requires forall k :: k in keys ==> k in snapshotQueuedMsgs
      ensures complete <==> forall i :: 0 <= i < |keys| ==> keys[i] == i
      ensures complete ==> events == Events(snapshotQueuedMsgs, keys)
    {
      complete, events := true, [];
      var nextSnapshotSeq := 0;
      for i := 0 to |keys|
        invariant nextSnapshotSeq == i && complete
        invariant forall j :: 0 <= j < i ==> keys[j] == j
        invariant forall k :: k in keys[..i] ==> k in snapshotQueuedMsgs
        invariant events == Events(snapshotQueuedMsgs, keys[..i])
      {
        if keys[i] != nextSnapshotSeq {
          complete := false;
          return;
        }
        var update := snapshotQueuedMsgs[keys[i]];
        assert keys[..i + 1][..i] == keys[..i];
        if update.kind != SNAPSHOT_START && update.kind != SNAPSHOT_END {
          events := events + [update];
        }
        nextSnapshotSeq := nextSnapshotSeq + 1;
      }
      assert keys[..|keys|] == keys;
    }

    /** The pass over the queued incrementals: skip old ones, take consecutive ones, stop at a gap. */
    method CollectIncrementals(keys: seq<nat>) returns (complete: bool, events: seq<MarketUpdate>)
      requires forall k :: k in keys ==> k in incrementalQueuedMsgs
      modifies this`nextExpIncSeqNum
      ensures Suffix(nextExpIncSeqNum, complete, events) == Follow(incrementalQueuedMsgs, keys, old(nextExpIncSeqNum))
    {
      complete, events := true, [];
      for i := 0 to |keys|
        invariant complete && forall k :: k in keys[..i] ==> k in incrementalQueuedMsgs
        invariant Suffix(nextExpIncSeqNum, complete, events) ==
                  Follow(incrementalQueuedMsgs, keys[..i], old(nextExpIncSeqNum))
      {
        var key := keys[i];
        assert keys[..i + 1][..i] == keys[..i];
        if key < nextExpIncSeqNum {
          continue;
        }
        if key != nextExpIncSeqNum {
          complete := false;
          StaysIncomplete(incrementalQueuedMsgs, keys, old(nextExpIncSeqNum), i + 1);
          return;
        }
        var update := incrementalQueuedMsgs[key];
        if update.kind != SNAPSHOT_START && update.kind != SNAPSHOT_END {
          events := events + [update];
        }
        nextExpIncSeqNum := nextExpIncSeqNum + 1;
      }
      assert keys[..|keys|] == keys;
    }

    /** Hands everything on and leaves recovery. */
    method DeliverAll(finalEvents: seq<MarketUpdate>)
      modifies this
      ensures State() == Consumer(false, old(nextExpIncSeqNum), map[], map[], old(incomingMdUpdates) + finalEvents)
    {
      for i := 0 to |finalEvents|
        invariant incomingMdUpdates == old(incomingMdUpdates) + finalEvents[..i]
        invariant nextExpIncSeqNum == old(nextExpIncSeqNum)
      {
        incomingMdUpdates := incomingMdUpdates + [finalEvents[i]];
      }
      assert finalEvents[..|finalEvents|] == finalEvents;
      snapshotQueuedMsgs, incrementalQueuedMsgs := map[], map[];
      inRecovery := false;
    }

    /** A complete snapshot up to `next` is at hand: continue it with the queued incrementals. */
    method SpliceIncrementals(next: nat, finalEvents: seq<MarketUpdate>)
      modifies this
      ensures var s := Follow(old(incrementalQueuedMsgs), Keys(old(incrementalQueuedMsgs)), next);
              State() == if s.complete
                         then Consumer(false, s.next, map[], map[], old(incomingMdUpdates) + finalEvents + s.events)
                         else old(State()).(nextExp := s.next, snapshot := map[])
    {
      hide Follow, Ascending;
      nextExpIncSeqNum := next;
      var haveCompleteIncremental, incEvents := CollectIncrementals(Keys(incrementalQueuedMsgs));
      if !haveCompleteIncremental {
        snapshotQueuedMsgs := map[];
        return;
      }
      DeliverAll(finalEvents + incEvents);
    }

    method CheckSnapshotSync()
      modifies this
      ensures State() == Recovery.CheckSnapshotSync(old(State()))
    {
      hide Follow, Events, Ascending, Keys;
      var keys := Keys(snapshotQueuedMsgs);
      KeysEmpty(snapshotQueuedMsgs);
      if snapshotQueuedMsgs == map[] {
        return;
      }
      if snapshotQueuedMsgs[keys[0]].kind != SNAPSHOT_START {
        snapshotQueuedMsgs := map[];
        return;
      }
      var haveCompleteSnapshot, finalEvents := CollectSnapshot(keys);
      if !haveCompleteSnapshot {
        snapshotQueuedMsgs := map[];
        return;
      }
      var lastSnapshotMsg := snapshotQueuedMsgs[keys[|keys| - 1]];
      if lastSnapshotMsg.kind != SNAPSHOT_END {
        return;
      }
      SpliceIncrementals(lastSnapshotMsg.orderId + 1, finalEvents);
    }

    method QueueMessage(isSnapshot: bool, msg: Message)
      modifies this
      ensures State() == Recovery.QueueMessage(old(State()), isSnapshot, msg)
    {
      if isSnapshot {
        if msg.seqNum in snapshotQueuedMsgs {
          snapshotQueuedMsgs := map[];
        }
        snapshotQueuedMsgs := snapshotQueuedMsgs[msg.seqNum := msg.update];
      } else {
        incrementalQueuedMsgs := incrementalQueuedMsgs[msg.seqNum := msg.update];
      }
      CheckSnapshotSync();
    }

    /**
     * One batch. Outside recovery a snapshot is ignored, and incrementals are handed on; recovery is entered exactly
     * when one of them does not have the number expected next.
     */
    method RecvCallback(isSnapshot: bool, msgs: seq<Message>)
      modifies this
      ensures State() == ReceiveBatch(old(State()), isSnapshot, msgs)
      ensures !old(inRecovery) && isSnapshot ==> State() == old(State())
      ensures !old(inRecovery) && !isSnapshot ==>
                && (inRecovery <==> !Consecutive(old(nextExpIncSeqNum), msgs))
                && (!inRecovery ==>
                      && nextExpIncSeqNum == old(nextExpIncSeqNum) + |msgs|
                      && incomingMdUpdates == old(incomingMdUpdates) + Updates(msgs))
    {
      hide Consecutive;
      if !inRecovery {
        InOrderExactly(State(), msgs);
      }
      if isSnapshot && !inRecovery {
        return;
      }
      for i := 0 to |msgs|
        invariant State() == ReceiveAll(old(State()), isSnapshot, msgs[..i])
      {
        var request := msgs[i];
        assert msgs[..i + 1][..i] == msgs[..i];
        var alreadyInRecovery := inRecovery;
        inRecovery := alreadyInRecovery || request.seqNum != nextExpIncSeqNum;
        if inRecovery {
          if !alreadyInRecovery {
            StartSnapshotSync();
          }
          QueueMessage(isSnapshot, request);
        } else if !isSnapshot {
          nextExpIncSeqNum := nextExpIncSeqNum + 1;
          incomingMdUpdates := incomingMdUpdates + [request.update];
        }
      }
      assert msgs[..|msgs|] == msgs;
    }
  }

  /** Once a gap is found, later keys do not matter. */
  lemma {:induction false} StaysIncomplete(m: Queued, ks: seq<nat>, next: nat, i: nat)
    requires i <= |ks| && (forall k :: k in ks ==> k in m)
    requires (forall k :: k in ks[..i] ==> k in m) && !Follow(m, ks[..i], next).complete
    ensures Follow(m, ks, next) == Follow(m, ks[..i], next)
    decreases |ks|
  {
    if i == |ks| {
      assert ks[..i] == ks;
    } else {
      var before := ks[..|ks| - 1];
      assert before[..i] == ks[..i];
      StaysIncomplete(m, before, next, i);
    }
  }
}
