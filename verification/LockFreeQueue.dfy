/** The single-producer single-consumer ring queue, one atomic step at a time in every interleaving. */
module LockFreeQueue {
  import opened Types

  /**
   * How the queue is used. `limit` bounds the unread entries: nothing in the queue does, so its users must.
   * The queue bumps its index before its count; `countFirst` is the other order, for comparison.
   */
  datatype Config = Config(capacity: nat, limit: nat, testsSize: bool, countFirst: bool, rereads: bool)

  datatype Producer = Idle | Written | HalfBumped

  datatype Consumer = Waiting | Pointed | Ready | Taken | Released | Rereading(slot: nat)

  /** The shared fields, both program counters, and for the record everything written and read. */
  datatype State<T> = State(store: seq<T>, nextWrite: nat, nextRead: nat, count: nat,
                            producer: Producer, consumer: Consumer, failed: bool,
                            pushed: nat, popped: nat, produced: seq<T>, consumed: seq<T>, reread: seq<T>)

  datatype Step<T> =
    | WriteSlot(value: T)      // fill the slot getNextToWriteTo points to
    | BumpIndex                // updateWriteIndex moves next_write_index_
    | BumpCount                // and adds to num_elements_
    | Look                     // getNextToRead compares the indexes
    | TestSize                 // the loop condition loads size()
    | ReadSlot                 // use the element
    | Release                  // updateReadIndex moves next_read_index_
    | AssertAndDrop            // asserts num_elements_ != 0 and takes one off
    | ReadAgain                // the publisher's second use of the element

  predicate Fits(c: Config) {
    0 < c.capacity
  }

  function Empty<T>(c: Config, blank: T): State<T> {
    State(seq(c.capacity, _ => blank), 0, 0, 0, Idle, Waiting, false, 0, 0, [], [], [])
  }

  predicate Formed<T>(c: Config, s: State<T>) {
    |s.store| == c.capacity && s.nextWrite < c.capacity && s.nextRead < c.capacity
    && (s.consumer.Rereading? ==> s.consumer.slot < c.capacity)
  }

  lemma Wraps(i: nat, n: nat)
    requires i < n
    ensures (i + 1) % n == if i + 1 == n then 0 else i + 1
  {
  }

  function Succ(c: Config, i: nat): (j: nat)
    requires i < c.capacity
    ensures j == if i + 1 == c.capacity then 0 else i + 1
  {
    Wraps(i, c.capacity);
    (i + 1) % c.capacity
  }

  /** The state after a step, if the step can be taken there. */
  function Next<T>(c: Config, s: State<T>, e: Step<T>): (r: Option<State<T>>)
    requires Fits(c) && Formed(c, s)
    ensures r.Some? ==> Formed(c, r.value)
  {
    match e
    case WriteSlot(v) =>
      if s.producer == Idle
      then Some(s.(store := s.store[s.nextWrite := v], produced := s.produced + [v], producer := Written)) else None
    case BumpIndex =>
      if s.producer == (if c.countFirst then HalfBumped else Written) && s.pushed + 1 - s.popped <= c.limit
      then Some(s.(nextWrite := Succ(c, s.nextWrite), pushed := s.pushed + 1,
                   producer := if c.countFirst then Idle else HalfBumped)) else None
    case BumpCount =>
      if s.producer == (if c.countFirst then Written else HalfBumped)
      then Some(s.(count := s.count + 1, producer := if c.countFirst then HalfBumped else Idle)) else None
    case Look =>
      if s.consumer == Waiting
      then Some(if s.nextRead == s.nextWrite then s else s.(consumer := if c.testsSize then Pointed else Ready)) else None
    case TestSize =>
      if s.consumer == Pointed then Some(s.(consumer := if s.count == 0 then Waiting else Ready)) else None
    case ReadSlot =>
      if s.consumer == Ready then Some(s.(consumed := s.consumed + [s.store[s.nextRead]], consumer := Taken)) else None
    case Release =>
      if s.consumer == Taken then Some(s.(nextRead := Succ(c, s.nextRead), popped := s.popped + 1, consumer := Released)) else None
    case AssertAndDrop =>
      if s.consumer != Released || s.failed then None
      else if s.count == 0 then Some(s.(failed := true))
      else Some(s.(count := s.count - 1,
                   consumer := if c.rereads then Rereading(if s.nextRead == 0 then c.capacity - 1 else s.nextRead - 1) else Waiting))
    case ReadAgain =>
      if s.consumer.Rereading?
      then Some(s.(reread := s.reread + [s.store[s.consumer.slot]], consumer := Waiting)) else None
  }

  function Run<T>(c: Config, blank: T, steps: seq<Step<T>>): (r: Option<State<T>>)
    requires Fits(c)
    ensures r.Some? ==> Formed(c, r.value)
  {
    if steps == [] then
      Some(Empty(c, blank))
    else
      match Run(c, blank, steps[..|steps| - 1])
      case None => None
      case Some(s) => Next(c, s, steps[|steps| - 1])
  }

  // ---- What every interleaving keeps ----

  /** The slot of the k-th entry. */
  function SlotOf(k: nat, n: nat): (i: nat)
    requires 0 < n
    ensures i < n
  {
    if k == 0 then 0
    else
      var p := SlotOf(k - 1, n);
      if p + 1 == n then 0 else p + 1
  }

  /** Entry k of the history stays in its slot from its write until it is released. */
  ghost predicate Stored<T>(store: seq<T>, popped: nat, produced: seq<T>)
    requires 0 < |store|
  {
    forall k :: popped <= k < |produced| ==> store[SlotOf(k, |store|)] == produced[k]
  }

  function One(b: bool): nat {
    if b then 1 else 0
  }

  predicate Counts<T>(c: Config, s: State<T>) {
    && |s.produced| == s.pushed + One(s.producer == Written || (c.countFirst && s.producer == HalfBumped))
    && s.count + s.popped + One(!c.countFirst && s.producer == HalfBumped) ==
       s.pushed + One(c.countFirst && s.producer == HalfBumped) + One(s.consumer == Released)
  }

  predicate Holding<T>(s: State<T>) {
    s.consumer == Pointed || s.consumer == Ready || s.consumer == Taken
  }

  ghost predicate Inv<T>(c: Config, s: State<T>)
    requires Fits(c)
  {
    && Formed(c, s)
    && s.nextWrite == SlotOf(s.pushed, c.capacity) && s.nextRead == SlotOf(s.popped, c.capacity)
    && s.popped <= s.pushed <= s.popped + c.limit
    && Counts(c, s)
    && (Holding(s) ==> s.popped < s.pushed)
    && (c.testsSize && (s.consumer == Ready || s.consumer == Taken || s.consumer == Released) ==> 0 < s.count)
    && (!c.testsSize ==> s.consumer != Pointed)
    && (s.failed ==> s.consumer == Released && !c.testsSize && !c.countFirst)
    && (c.limit < c.capacity ==>
          Stored(s.store, s.popped, s.produced) && |s.consumed| == s.popped + One(s.consumer == Taken) <= |s.produced| && s.consumed <= s.produced)
    && (c.limit + 1 < c.capacity && c.rereads ==> Rereads(c, s))
  }

  predicate Owing<T>(s: State<T>) {
    s.consumer == Taken || s.consumer == Released || s.consumer.Rereading?
  }

  /** The second use of every element finds what the first found. */
  ghost predicate Rereads<T>(c: Config, s: State<T>)
    requires Fits(c) && Formed(c, s)
  {
    && |s.consumed| == |s.reread| + One(Owing(s)) && s.reread <= s.consumed
    && (s.consumer == Released || s.consumer.Rereading? ==>
          0 < s.popped <= |s.produced| && s.store[SlotOf(s.popped - 1, c.capacity)] == s.produced[s.popped - 1])
    && (s.consumer.Rereading? ==> s.consumer.slot == SlotOf(s.popped - 1, c.capacity))
  }

  /** Fewer than a whole turn apart, entries live in different slots. */
  lemma {:induction false} SlotsApart(k: nat, d: nat, n: nat)
    requires 0 < n && d < n
    ensures SlotOf(k + d, n) == if SlotOf(k, n) + d < n then SlotOf(k, n) + d else SlotOf(k, n) + d - n
  {
    if d > 0 {
      SlotsApart(k, d - 1, n);
    }
  }

  /** The producer's slot holds no unread entry, so filling it disturbs none. */
  lemma WriteKeepsInv<T>(c: Config, s: State<T>, v: T)
    requires Fits(c) && Inv(c, s) && s.producer == Idle
    ensures Inv(c, Next(c, s, WriteSlot(v)).value)
  {
    if c.limit < c.capacity {
      StoredMore(s.store, s.popped, s.produced, v);
    }
    if c.limit + 1 < c.capacity && c.rereads {
      WriteKeepsRereads(c, s, v);
    }
    hide Stored, Rereads, SlotOf;
  }

  /** Nor the entry that was released last. */
  lemma WriteKeepsRereads<T>(c: Config, s: State<T>, v: T)
    requires Fits(c) && Inv(c, s) && s.producer == Idle && c.limit + 1 < c.capacity && c.rereads
    ensures Rereads(c, Next(c, s, WriteSlot(v)).value)
  {
    hide Stored, SlotOf;
    if 0 < s.popped {
      SlotsApart(s.popped - 1, s.pushed - (s.popped - 1), c.capacity);
    }
  }

  lemma StoredMore<T>(store: seq<T>, popped: nat, produced: seq<T>, v: T)
    requires 0 < |store| && popped <= |produced| < popped + |store| && Stored(store, popped, produced)
    ensures Stored(store[SlotOf(|produced|, |store|) := v], popped, produced + [v])
  {
    forall k | popped <= k < |produced|
      ensures SlotOf(k, |store|) != SlotOf(|produced|, |store|)
    {
      SlotsApart(k, |produced| - k, |store|);
    }
  }

  /** The consumer reads the oldest unread entry. */
  lemma ReadKeepsInv<T>(c: Config, s: State<T>)
    requires Fits(c) && Inv(c, s) && s.consumer == Ready
    ensures Inv(c, Next(c, s, ReadSlot).value)
  {
    if c.limit < c.capacity {
      assert s.store[SlotOf(s.popped, c.capacity)] == s.produced[s.popped];
    }
  }

  /** Different indexes mean an unread entry. */
  lemma LookKeepsInv<T>(c: Config, s: State<T>)
    requires Fits(c) && Inv(c, s) && s.consumer == Waiting
    ensures Inv(c, Next(c, s, Look).value)
  {
    if s.popped == s.pushed {
      assert s.nextRead == s.nextWrite;
    }
  }

  lemma ReleaseKeepsInv<T>(c: Config, s: State<T>)
    requires Fits(c) && Inv(c, s) && s.consumer == Taken
    ensures Inv(c, Next(c, s, Release).value)
  {
    if c.limit < c.capacity {
      assert s.store[SlotOf(s.popped, c.capacity)] == s.produced[s.popped];
    }
  }

  /** The assertion can fail only if neither size was tested nor the count bumped first. */
  lemma DropKeepsInv<T>(c: Config, s: State<T>)
    requires Fits(c) && Inv(c, s) && s.consumer == Released && !s.failed
    ensures Inv(c, Next(c, s, AssertAndDrop).value)
  {
    assert 0 < s.popped ==> SlotOf(s.popped - 1, c.capacity) == if s.nextRead == 0 then c.capacity - 1 else s.nextRead - 1;
    hide Stored, SlotOf;
  }

  lemma BumpKeepsInv<T>(c: Config, s: State<T>, e: Step<T>)
    requires Fits(c) && Inv(c, s) && (e.BumpIndex? || e.BumpCount?) && Next(c, s, e).Some?
    ensures Inv(c, Next(c, s, e).value)
  {
    hide Stored;
  }

  lemma NextKeepsInv<T>(c: Config, s: State<T>, e: Step<T>)
    requires Fits(c) && Inv(c, s) && Next(c, s, e).Some?
    ensures Inv(c, Next(c, s, e).value)
  {
    hide Stored;
    match e
    case WriteSlot(v) => WriteKeepsInv(c, s, v);
    case BumpIndex => BumpKeepsInv(c, s, e);
    case BumpCount => BumpKeepsInv(c, s, e);
    case Look => LookKeepsInv(c, s);
    case ReadSlot => ReadKeepsInv(c, s);
    case Release => ReleaseKeepsInv(c, s);
    case AssertAndDrop => DropKeepsInv(c, s);
    case TestSize =>
    case ReadAgain =>
  }

  lemma {:induction false} RunInv<T>(c: Config, blank: T, steps: seq<Step<T>>)
    requires Fits(c) && Run(c, blank, steps).Some?
    ensures Inv(c, Run(c, blank, steps).value)
  {
    if steps != [] {
      hide Inv, Next;
      RunInv(c, blank, steps[..|steps| - 1]);
      NextKeepsInv(c, Run(c, blank, steps[..|steps| - 1]).value, steps[|steps| - 1]);
    }
  }

  /**
   * In every interleaving that never has a whole turn of unread entries, what the consumer has read is a
   * beginning of what the producer has written, and the slot it holds is not the one the producer fills.
   */
  lemma FirstInFirstOut<T>(c: Config, blank: T, steps: seq<Step<T>>)
    requires Fits(c) && c.limit < c.capacity && Run(c, blank, steps).Some?
    ensures var s := Run(c, blank, steps).value;
            s.consumed <= s.produced && (Holding(s) ==> s.nextRead != s.nextWrite)
  {
    hide Run, Stored, Rereads, Counts, SlotOf;
    RunInv(c, blank, steps);
    var s := Run(c, blank, steps).value;
    if Holding(s) {
      SlotsApart(s.popped, s.pushed - s.popped, c.capacity);
    }
  }

  /** With one slot more to spare, an element used again after its release is still what it was. */
  lemma RereadIntact<T>(c: Config, blank: T, steps: seq<Step<T>>)
    requires Fits(c) && c.limit + 1 < c.capacity && c.rereads && Run(c, blank, steps).Some?
    ensures var s := Run(c, blank, steps).value; s.reread <= s.consumed && |s.consumed| <= |s.reread| + 1
  {
    RunInv(c, blank, steps);
  }

  lemma RunMore<T>(c: Config, blank: T, steps: seq<Step<T>>, e: Step<T>)
    requires Fits(c) && Run(c, blank, steps).Some?
    ensures Run(c, blank, steps + [e]) == Next(c, Run(c, blank, steps).value, e)
  {
    assert (steps + [e])[..|steps|] == steps;
  }

  /** Take a step and go on. */
  lemma Go<T>(c: Config, blank: T, steps: seq<Step<T>>, e: Step<T>) returns (more: seq<Step<T>>)
    requires Fits(c) && Run(c, blank, steps).Some? && Next(c, Run(c, blank, steps).value, e).Some?
    ensures more == steps + [e]
    ensures Run(c, blank, more) == Next(c, Run(c, blank, steps).value, e)
  {
    more := steps + [e];
    RunMore(c, blank, steps, e);
  }

  /** The consumer finishes an element between the producer's two bumps. */
  lemma FailingRun<T>(c: Config, blank: T) returns (steps: seq<Step<T>>)
    requires Fits(c) && 2 <= c.capacity && 1 <= c.limit && !c.testsSize && !c.countFirst
    ensures Run(c, blank, steps).Some? && Run(c, blank, steps).value.failed
  {
    steps := [];
    assert Run(c, blank, steps) == Some(Empty(c, blank));
    hide Run;
    steps := Go(c, blank, steps, WriteSlot(blank));
    steps := Go(c, blank, steps, BumpIndex);
    steps := Go(c, blank, steps, Look);
    steps := Go(c, blank, steps, ReadSlot);
    steps := Go(c, blank, steps, Release);
    steps := Go(c, blank, steps, AssertAndDrop);
  }

  ghost predicate AssertSafe<T(!new)>(c: Config, blank: T)
    requires Fits(c)
  {
    forall steps :: Run(c, blank, steps).Some? ==> !Run(c, blank, steps).value.failed
  }

  /** The assertion in updateReadIndex holds in every interleaving exactly when the loop tests size() or the count goes first. */
  lemma AssertSafeExactly<T(!new)>(c: Config, blank: T)
    requires Fits(c) && 2 <= c.capacity && 1 <= c.limit
    ensures AssertSafe(c, blank) <==> c.testsSize || c.countFirst
  {
    if c.testsSize || c.countFirst {
      forall steps | Run(c, blank, steps).Some?
        ensures !Run(c, blank, steps).value.failed
      {
        RunInv(c, blank, steps);
      }
    } else {
      var steps := FailingRun(c, blank);
    }
  }

  /** The producer's three steps in a row. */
  lemma Push<T>(c: Config, blank: T, steps: seq<Step<T>>, v: T) returns (more: seq<Step<T>>)
    requires Fits(c) && Run(c, blank, steps).Some?
    requires var s := Run(c, blank, steps).value; s.producer == Idle && s.pushed + 1 - s.popped <= c.limit
    ensures var s := Run(c, blank, steps).value;
            Run(c, blank, more) == Some(s.(store := s.store[s.nextWrite := v], produced := s.produced + [v],
                                           nextWrite := Succ(c, s.nextWrite), pushed := s.pushed + 1, count := s.count + 1))
  {
    hide Run;
    more := Go(c, blank, steps, WriteSlot(v));
    if c.countFirst {
      more := Go(c, blank, more, BumpCount);
      more := Go(c, blank, more, BumpIndex);
    } else {
      more := Go(c, blank, more, BumpIndex);
      more := Go(c, blank, more, BumpCount);
    }
  }

  /** The producer fills the slots from the one behind the first on: the first entry stays, the cursor moves on. */
  lemma {:induction false} PushMany<T>(c: Config, blank: T, steps: seq<Step<T>>, v: T, n: nat) returns (more: seq<Step<T>>)
    requires Fits(c) && Run(c, blank, steps).Some?
    requires var s := Run(c, blank, steps).value;
             s.producer == Idle && s.pushed + n - s.popped <= c.limit && s.popped <= s.pushed && 0 < s.nextWrite
             && s.nextWrite + n <= c.capacity && s.nextWrite <= |s.produced|
    ensures Run(c, blank, more).Some?
    ensures var s, r := Run(c, blank, steps).value, Run(c, blank, more).value;
            && r == s.(store := r.store, produced := r.produced, nextWrite := r.nextWrite, pushed := s.pushed + n, count := s.count + n)
            && r.store[0] == s.store[0] && |r.produced| == |s.produced| + n && s.produced <= r.produced
            && r.nextWrite == if s.nextWrite + n == c.capacity then 0 else s.nextWrite + n
    decreases n
  {
    hide Run;
    if n == 0 {
      more := steps;
    } else {
      more := PushMany(c, blank, steps, v, n - 1);
      more := Push(c, blank, more, v);
    }
  }

  /** The consumer's steps up to holding an element. */
  lemma Point<T>(c: Config, blank: T, steps: seq<Step<T>>) returns (more: seq<Step<T>>)
    requires Fits(c) && Run(c, blank, steps).Some?
    requires var s := Run(c, blank, steps).value; s.consumer == Waiting && s.nextRead != s.nextWrite && s.count != 0
    ensures Run(c, blank, more) == Some(Run(c, blank, steps).value.(consumer := Ready))
  {
    hide Run;
    more := Go(c, blank, steps, Look);
    if c.testsSize {
      more := Go(c, blank, more, TestSize);
    }
  }

  /** The consumer's steps from holding an element to its second use. */
  lemma Take<T>(c: Config, blank: T, steps: seq<Step<T>>) returns (more: seq<Step<T>>)
    requires Fits(c) && c.rereads && Run(c, blank, steps).Some?
    requires var s := Run(c, blank, steps).value; s.consumer == Ready && s.count != 0 && !s.failed
    ensures var s := Run(c, blank, steps).value;
            Run(c, blank, more) == Some(s.(consumed := s.consumed + [s.store[s.nextRead]], nextRead := Succ(c, s.nextRead),
                                           popped := s.popped + 1, count := s.count - 1, consumer := Rereading(s.nextRead)))
  {
    hide Run;
    more := Go(c, blank, steps, ReadSlot);
    more := Go(c, blank, more, Release);
    more := Go(c, blank, more, AssertAndDrop);
  }

  /** One entry, held by the consumer. */
  lemma HoldFirst<T>(c: Config, blank: T, a: T) returns (steps: seq<Step<T>>)
    requires Fits(c) && 2 <= c.capacity && 1 <= c.limit
    ensures Run(c, blank, steps).Some?
    ensures var s := Run(c, blank, steps).value;
            && s.producer == Idle && s.consumer == Ready && !s.failed && s.pushed == 1 && s.popped == 0 && s.count == 1
            && s.nextRead == 0 && s.nextWrite == 1 && s.store[0] == a && s.produced == [a] && s.consumed == [] == s.reread
  {
    steps := [];
    assert Run(c, blank, steps) == Some(Empty(c, blank));
    hide Run;
    steps := Push(c, blank, steps, a);
    steps := Point(c, blank, steps);
  }

  /** A whole turn of unread entries is one too many: the held slot is overwritten before it is read. */
  lemma OverrunRun<T>(c: Config, blank: T, a: T, b: T) returns (steps: seq<Step<T>>)
    requires Fits(c) && 2 <= c.capacity <= c.limit && a != b
    ensures Run(c, blank, steps).Some? && !(Run(c, blank, steps).value.consumed <= Run(c, blank, steps).value.produced)
  {
    steps := HoldFirst(c, blank, a);
    hide Run;
    steps := PushMany(c, blank, steps, a, c.capacity - 1);
    assert Run(c, blank, steps).value.produced[0] == a;
    steps := Go(c, blank, steps, WriteSlot(b));
    assert Run(c, blank, steps).value.produced[0] == a && Run(c, blank, steps).value.store[0] == b;
    steps := Go(c, blank, steps, ReadSlot);
    assert Run(c, blank, steps).value.consumed == [b];
  }

  /** One slot to spare is not enough for a second use after the release. */
  lemma RereadRun<T>(c: Config, blank: T, a: T, b: T) returns (steps: seq<Step<T>>)
    requires Fits(c) && 2 <= c.capacity <= c.limit + 1 && c.rereads && a != b
    ensures Run(c, blank, steps).Some? && !(Run(c, blank, steps).value.reread <= Run(c, blank, steps).value.consumed)
  {
    steps := UsedOnce(c, blank, a);
    hide Run, Next;
    steps := PushMany(c, blank, steps, a, c.capacity - 1);
    var s := Run(c, blank, steps).value;
    assert s.consumed == [a] && s.reread == [] && s.nextWrite == 0;
    steps := Overwrite(c, blank, steps, b);
    assert Run(c, blank, steps).value.reread[0] == b;
  }

  /** One entry, used once and released. */
  lemma UsedOnce<T>(c: Config, blank: T, a: T) returns (steps: seq<Step<T>>)
    requires Fits(c) && 2 <= c.capacity && 1 <= c.limit && c.rereads
    ensures Run(c, blank, steps).Some?
    ensures var s := Run(c, blank, steps).value;
            && s.producer == Idle && s.consumer == Rereading(0) && s.pushed == 1 && s.popped == 1
            && s.nextWrite == 1 && |s.produced| == 1 && s.consumed == [a] && s.reread == []
  {
    steps := HoldFirst(c, blank, a);
    hide Run, Next;
    steps := Take(c, blank, steps);
    assert [] + [a] == [a];
  }

  /** The producer fills the slot the consumer has not used for the second time. */
  lemma Overwrite<T>(c: Config, blank: T, steps: seq<Step<T>>, v: T) returns (more: seq<Step<T>>)
    requires Fits(c) && Run(c, blank, steps).Some?
    requires var s := Run(c, blank, steps).value; s.producer == Idle && s.consumer == Rereading(s.nextWrite)
    ensures var s := Run(c, blank, steps).value;
            && Run(c, blank, more).Some?
            && Run(c, blank, more).value.reread == s.reread + [v] && Run(c, blank, more).value.consumed == s.consumed
  {
    hide Run;
    more := Go(c, blank, steps, WriteSlot(v));
    more := Go(c, blank, more, ReadAgain);
  }

  ghost predicate ReadsInOrder<T(!new)>(c: Config, blank: T)
    requires Fits(c)
  {
    forall steps :: Run(c, blank, steps).Some? ==> Run(c, blank, steps).value.consumed <= Run(c, blank, steps).value.produced
  }

  /** For every capacity: first in, first out in every interleaving exactly when unread entries stay below the capacity. */
  lemma FirstInFirstOutExactly<T(!new)>(c: Config, blank: T, a: T, b: T)
    requires Fits(c) && 2 <= c.capacity && a != b
    ensures ReadsInOrder(c, blank) <==> c.limit < c.capacity
  {
    if c.limit < c.capacity {
      forall steps | Run(c, blank, steps).Some?
        ensures Run(c, blank, steps).value.consumed <= Run(c, blank, steps).value.produced
      {
        FirstInFirstOut(c, blank, steps);
      }
    } else {
      var steps := OverrunRun(c, blank, a, b);
    }
  }

  ghost predicate RereadsSafely<T(!new)>(c: Config, blank: T)
    requires Fits(c)
  {
    forall steps :: Run(c, blank, steps).Some? ==> Run(c, blank, steps).value.reread <= Run(c, blank, steps).value.consumed
  }

  /** For every capacity: the second use is intact in every interleaving exactly when two slots are to spare. */
  lemma RereadExactly<T(!new)>(c: Config, blank: T, a: T, b: T)
    requires Fits(c) && 2 <= c.capacity && c.rereads && a != b
    ensures RereadsSafely(c, blank) <==> c.limit + 1 < c.capacity
  {
    if c.limit + 1 < c.capacity {
      forall steps | Run(c, blank, steps).Some?
        ensures Run(c, blank, steps).value.reread <= Run(c, blank, steps).value.consumed
      {
        RereadIntact(c, blank, steps);
      }
    } else {
      var steps := RereadRun(c, blank, a, b);
    }
  }
}
