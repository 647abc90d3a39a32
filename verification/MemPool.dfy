/** The pool of preallocated blocks: its scan for the next free block as written, and with the wrap-around inside the loop. */
module MemPools {
  import opened Types

  /**
   * The blocks in use are exactly those of `nodes`: each node stands in the block it names, and every block in use
   * holds one of them.
   */
  ghost predicate Pooled<N>(objects: seq<Option<N>>, isFree: seq<bool>, nodes: set<N>, block: N -> nat) {
    && |objects| == |isFree|
    && (forall n :: n in nodes ==> block(n) < |isFree| && !isFree[block(n)] && objects[block(n)] == Some(n))
    && (forall b :: 0 <= b < |isFree| && !isFree[b] ==>
          objects[b].Some? && objects[b].value in nodes && block(objects[b].value) == b)
  }

  /** A block is free exactly when there are fewer nodes than blocks. */
  lemma {:induction false} PoolCount<N>(objects: seq<Option<N>>, isFree: seq<bool>, nodes: set<N>, block: N -> nat)
    requires Pooled(objects, isFree, nodes, block)
    ensures |nodes| <= |isFree|
    ensures (exists b :: 0 <= b < |isFree| && isFree[b]) <==> |nodes| < |isFree|
    decreases |isFree|
  {
    if isFree == [] {
      assert nodes == {};
    } else {
      var b := |isFree| - 1;
      var fewer := if isFree[b] then nodes else nodes - {objects[b].value};
      PoolCount(objects[..b], isFree[..b], fewer, block);
      if k :| 0 <= k < b && isFree[..b][k] {
        assert isFree[k];
      }
      if k :| 0 <= k < |isFree| && isFree[k] {
        assert k == b || isFree[..b][k];
      }
    }
  }

  lemma PoolMore<N>(objects: seq<Option<N>>, isFree: seq<bool>, nodes: set<N>, block: N -> nat, n: N)
    requires Pooled(objects, isFree, nodes, block) && n !in nodes && block(n) < |isFree| && isFree[block(n)]
    ensures Pooled(objects[block(n) := Some(n)], isFree[block(n) := false], nodes + {n}, block)
  {
  }

  lemma BlockInUse<N>(objects: seq<Option<N>>, isFree: seq<bool>, nodes: set<N>, block: N -> nat, n: N)
    requires Pooled(objects, isFree, nodes, block) && n in nodes
    ensures block(n) < |isFree| && !isFree[block(n)]
  {
  }

  lemma PoolLess<N>(objects: seq<Option<N>>, isFree: seq<bool>, nodes: set<N>, block: N -> nat, n: N)
    requires Pooled(objects, isFree, nodes, block) && n in nodes
    ensures Pooled(objects, isFree[block(n) := true], nodes - {n}, block)
  {
  }

  /** How many blocks are in use. */
  function InUse(isFree: seq<bool>): nat {
    if isFree == [] then 0 else InUse(isFree[..|isFree| - 1]) + if isFree[|isFree| - 1] then 0 else 1
  }

  lemma {:induction false} InUseAt(isFree: seq<bool>, b: nat, free: bool)
    requires b < |isFree| && isFree[b] != free
    ensures InUse(isFree[b := free]) == if free then InUse(isFree) - 1 else InUse(isFree) + 1
    decreases |isFree|
  {
    var n := |isFree| - 1;
    if b < n {
      assert isFree[b := free][..n] == isFree[..n][b := free];
      InUseAt(isFree[..n], b, free);
    } else {
      assert isFree[b := free][..n] == isFree[..n];
    }
  }

  lemma {:induction false} InUseCount(isFree: seq<bool>)
    ensures InUse(isFree) <= |isFree|
    ensures (exists b :: 0 <= b < |isFree| && isFree[b]) <==> InUse(isFree) < |isFree|
    ensures (forall b :: 0 <= b < |isFree| ==> isFree[b]) ==> InUse(isFree) == 0
    decreases |isFree|
  {
    if isFree != [] {
      var before := isFree[..|isFree| - 1];
      InUseCount(before);
      assert forall b :: 0 <= b < |before| ==> before[b] == isFree[b];
    }
  }

  class MemPool<T> {
    const objects: array<T>
    const isFree: array<bool>
    var nextFreeIndex: nat
    ghost var handedOut: nat   // allocations so far

    /** The cursor stands on a free block. */
    ghost predicate Valid()
      reads this`nextFreeIndex, isFree
    {
      (objects as object) != isFree && objects.Length == isFree.Length && nextFreeIndex < isFree.Length && isFree[nextFreeIndex]
    }

    /** What the scan as written adds: the cursor counts the allocations, and nothing behind it was ever in use. */
    ghost predicate NeverWrapped()
      reads this, isFree
    {
      nextFreeIndex == handedOut && forall j :: nextFreeIndex <= j < isFree.Length ==> isFree[j]
    }

    constructor (size: nat, blank: T)
      requires 0 < size
      ensures Valid() && NeverWrapped() && isFree.Length == size && handedOut == 0
      ensures fresh(objects) && fresh(isFree)
    {
      objects := new T[size](_ => blank);
      isFree := new bool[size](_ => true);
      nextFreeIndex, handedOut := 0, 0;
    }

    ghost predicate FreeAt(j: nat)
      reads isFree
    {
      j < isFree.Length && isFree[j]
    }

    /**
     * The scan as written. It looks at ever higher blocks and wraps only after the loop, so without a free block
     * ahead it leaves the array: `inBounds` says that this does not happen.
     */
    method UpdateNextFreeIndex() returns (inBounds: bool)
      requires nextFreeIndex < isFree.Length
      modifies this`nextFreeIndex
      ensures inBounds <==> exists j :: old(nextFreeIndex) <= j && FreeAt(j)
      ensures inBounds ==> old(nextFreeIndex) <= nextFreeIndex && FreeAt(nextFreeIndex)
      ensures forall j :: old(nextFreeIndex) <= j < nextFreeIndex ==> !FreeAt(j)
    {
      while nextFreeIndex < isFree.Length && !isFree[nextFreeIndex]
        invariant old(nextFreeIndex) <= nextFreeIndex <= isFree.Length
        invariant forall j :: old(nextFreeIndex) <= j < nextFreeIndex ==> !FreeAt(j)
        decreases isFree.Length - nextFreeIndex
      {
        nextFreeIndex := nextFreeIndex + 1;
      }
      inBounds := nextFreeIndex < isFree.Length;
      assert inBounds ==> FreeAt(nextFreeIndex);
    }

    /**
     * Blocks are handed out in order, each once: the scan stays in bounds for the first size - 1 allocations of
     * the pool's life and for no other, however many blocks are given back in between.
     */
    method Allocate(value: T) returns (index: nat, inBounds: bool)
      requires Valid() && NeverWrapped()
      modifies this`nextFreeIndex, this`handedOut, objects, isFree
      ensures index == old(handedOut) && handedOut == old(handedOut) + 1
      ensures objects[..] == old(objects[..])[index := value] && isFree[..] == old(isFree[..])[index := false]
      ensures inBounds <==> handedOut < isFree.Length
      ensures inBounds ==> Valid() && NeverWrapped()
    {
      index := nextFreeIndex;
      objects[index] := value;
      isFree[index] := false;
      inBounds := UpdateNextFreeIndex();
      handedOut := handedOut + 1;
      assert index + 1 < isFree.Length ==> FreeAt(index + 1);
    }

    /** `ok` says that both assertions hold: the block is of this pool and in use. */
    method Deallocate(index: int) returns (ok: bool)
      requires Valid()
      modifies isFree
      ensures ok <==> 0 <= index < isFree.Length && !old(isFree[..])[index]
      ensures isFree[..] == if ok then old(isFree[..])[index := true] else old(isFree[..])
      ensures Valid() && (old(NeverWrapped()) ==> NeverWrapped())
    {
      ok := 0 <= index < isFree.Length && !isFree[index];
      if ok {
        isFree[index] := true;
      }
    }

    /** The scan with the wrap-around where it is meant to be; `found` says that the out-of-space assertion holds. */
    method UpdateNextFreeIndexWrapping() returns (found: bool)
      requires nextFreeIndex < isFree.Length && !isFree[nextFreeIndex]
      modifies this`nextFreeIndex
      ensures found <==> exists j :: FreeAt(j)
      ensures found ==> FreeAt(nextFreeIndex)
      ensures !found ==> nextFreeIndex == old(nextFreeIndex)
    {
      var initial := nextFreeIndex;
      ghost var passed: nat := 0;
      while !isFree[nextFreeIndex]
        invariant nextFreeIndex < isFree.Length && passed < isFree.Length
        invariant nextFreeIndex == if initial + passed < isFree.Length then initial + passed else initial + passed - isFree.Length
        invariant forall j :: 0 <= j < isFree.Length && Between(initial, passed, j) ==> !isFree[j]
        decreases isFree.Length - passed
      {
        nextFreeIndex := nextFreeIndex + 1;
        if nextFreeIndex == isFree.Length {
          nextFreeIndex := 0;
        }
        passed := passed + 1;
        if nextFreeIndex == initial {
          found := false;
          return;
        }
      }
      assert FreeAt(nextFreeIndex);
      found := true;
    }

    /** Block j is among the `passed` blocks from `initial` on, going round. */
    ghost predicate Between(initial: nat, passed: nat, j: nat) {
      initial <= j < initial + passed || j < initial + passed - isFree.Length
    }

    /** With the wrap inside the loop a block comes back after it was freed; only a full pool is out of space. */
    method AllocateWrapping(value: T) returns (index: nat, found: bool)
      requires Valid()
      modifies this`nextFreeIndex, this`handedOut, objects, isFree
      ensures index == old(nextFreeIndex) < isFree.Length && old(isFree[..])[index]
      ensures objects[..] == old(objects[..])[index := value] && isFree[..] == old(isFree[..])[index := false]
      ensures found <==> exists j :: 0 <= j < isFree.Length && isFree[..][j]
      ensures found ==> Valid()
    {
      index := nextFreeIndex;
      objects[index] := value;
      isFree[index] := false;
      found := UpdateNextFreeIndexWrapping();
      handedOut := handedOut + 1;
      assert forall j: nat :: FreeAt(j) <==> j < isFree.Length && isFree[..][j];
    }
  }

  /** A new pool holds nothing. */
  lemma NothingInUse<N>(pool: MemPool<Option<N>>, block: N -> nat)
    requires pool.Valid() && pool.NeverWrapped() && pool.handedOut == 0
    ensures Pooled(pool.objects[..], pool.isFree[..], {}, block)
  {
  }

  /** A pool whose every block is given back at once still runs out after size - 1 allocations. */
  method GivenBackAtOnce<T>(size: nat, value: T) returns (completed: nat)
    requires 0 < size
    ensures completed == size - 1
  {
    var pool := new MemPool(size, value);
    completed := 0;
    while true
      invariant fresh(pool) && fresh(pool.objects) && fresh(pool.isFree) && pool.isFree.Length == size
      invariant pool.Valid() && pool.NeverWrapped() && pool.handedOut == completed && completed < size
      decreases size - completed
    {
      var index, inBounds := pool.Allocate(value);
      if !inBounds {
        return;
      }
      var ok := pool.Deallocate(index);
      completed := completed + 1;
    }
  }
}
