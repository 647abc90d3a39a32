/** Fixed-size messages cut out of a byte stream, however the stream arrives. */
module Framing {

  type byte = n: int | 0 <= n < 256

  /** The complete messages at the front of a stream. */
  function Frames(s: seq<byte>, size: nat): seq<seq<byte>>
    requires 0 < size
    decreases |s|
  {
    if |s| < size then [] else [s[..size]] + Frames(s[size..], size)
  }

  /** What is left behind them. */
  function Rest(s: seq<byte>, size: nat): (r: seq<byte>)
    requires 0 < size
    ensures |r| < size
    decreases |s|
  {
    if |s| < size then s else Rest(s[size..], size)
  }

  /** How many bytes of a stream of length n are left behind the complete messages. */
  function Waiting(n: nat, size: nat): (r: nat)
    requires 0 < size
    ensures r < size && r <= n
    decreases n
  {
    if n < size then n else Waiting(n - size, size)
  }

  lemma {:induction false} RestSize(s: seq<byte>, size: nat)
    requires 0 < size
    ensures |Rest(s, size)| == Waiting(|s|, size)
    decreases |s|
  {
    if size <= |s| {
      RestSize(s[size..], size);
    }
  }

  // ---- How much arrives ----

  /** What one poll takes of a stream: as much as there is, as is given, and as fits. */
  function Portion(given: nat, left: nat, room: int): nat {
    var n := if left < given then left else given;
    if room <= 0 then 0 else if room < n then room else n
  }

  /** How much of a stream has arrived after some polls of a socket. */
  function Received(portions: seq<nat>, total: nat, size: nat, capacity: nat): (n: nat)
    requires 0 < size
    ensures n <= total
  {
    if portions == [] then 0
    else
      var before := Received(portions[..|portions| - 1], total, size, capacity);
      before + Portion(portions[|portions| - 1], total - before, capacity - Waiting(before, size))
  }

  lemma NoPortions(total: nat, size: nat, capacity: nat)
    requires 0 < size
    ensures Received([], total, size, capacity) == 0
  {
  }

  lemma ReceivedMore(portions: seq<nat>, given: nat, total: nat, size: nat, capacity: nat)
    requires 0 < size
    ensures var before := Received(portions, total, size, capacity);
            Received(portions + [given], total, size, capacity) ==
            before + Portion(given, total - before, capacity - Waiting(before, size))
  {
    assert (portions + [given])[..|portions|] == portions;
  }

  /** With room for a message, polls that give something make progress until all has arrived. */
  lemma {:induction false} EnoughPolls(portions: seq<nat>, total: nat, size: nat, capacity: nat)
    requires 0 < size <= capacity && forall k :: 0 <= k < |portions| ==> 0 < portions[k]
    ensures Received(portions, total, size, capacity) >= if |portions| < total then |portions| else total
  {
    if portions != [] {
      EnoughPolls(portions[..|portions| - 1], total, size, capacity);
    }
  }

  /** Bytes that come later only continue what was left. */
  lemma {:induction false} FramesConcat(s: seq<byte>, t: seq<byte>, size: nat)
    requires 0 < size
    ensures Frames(s + t, size) == Frames(s, size) + Frames(Rest(s, size) + t, size)
    ensures Rest(s + t, size) == Rest(Rest(s, size) + t, size)
    decreases |s|
  {
    if size <= |s| {
      assert (s + t)[..size] == s[..size];
      assert (s + t)[size..] == s[size..] + t;
      FramesConcat(s[size..], t, size);
    }
  }

  function Flatten(chunks: seq<seq<byte>>): seq<byte> {
    if chunks == [] then [] else Flatten(chunks[..|chunks| - 1]) + chunks[|chunks| - 1]
  }

  /** All messages cut out when the chunks are handled one by one, each after what the ones before left over. */
  function CutAll(chunks: seq<seq<byte>>, size: nat): (r: (seq<seq<byte>>, seq<byte>))
    requires 0 < size
  {
    if chunks == [] then ([], [])
    else
      var (frames, left) := CutAll(chunks[..|chunks| - 1], size);
      var buffered := left + chunks[|chunks| - 1];
      (frames + Frames(buffered, size), Rest(buffered, size))
  }

  /** The messages do not depend on how the stream was cut into chunks. */
  lemma {:induction false} ChunkingIrrelevant(chunks: seq<seq<byte>>, size: nat)
    requires 0 < size
    ensures CutAll(chunks, size) == (Frames(Flatten(chunks), size), Rest(Flatten(chunks), size))
  {
    if chunks != [] {
      var n := |chunks| - 1;
      ChunkingIrrelevant(chunks[..n], size);
      FramesConcat(Flatten(chunks[..n]), chunks[n], size);
    }
  }

  /** How messages are laid out: every one in the same number of bytes. */
  datatype Codec<!M> = Codec(size: nat, encode: M -> seq<byte>, decode: seq<byte> -> M)

  /** The messages have the codec's size, and decoding undoes encoding them. */
  ghost predicate Proper<M>(c: Codec<M>, ms: seq<M>) {
    0 < c.size && forall m :: m in ms ==> |c.encode(m)| == c.size && c.decode(c.encode(m)) == m
  }

  function Decoded<M>(c: Codec<M>, frames: seq<seq<byte>>): seq<M> {
    seq(|frames|, k requires 0 <= k < |frames| => c.decode(frames[k]))
  }

  /** Cutting one more message off at offset `i`. */
  lemma CutOne<M>(c: Codec<M>, all: seq<byte>, i: nat)
    requires 0 < c.size && i + c.size <= |all|
    ensures Decoded(c, Frames(all[i..], c.size)) ==
            [c.decode(all[i..i + c.size])] + Decoded(c, Frames(all[i + c.size..], c.size))
    ensures Rest(all[i..], c.size) == Rest(all[i + c.size..], c.size)
  {
    assert all[i..][..c.size] == all[i..i + c.size] && all[i..][c.size..] == all[i + c.size..];
  }

  lemma NoMore<M>(c: Codec<M>, s: seq<byte>)
    requires |s| < c.size
    ensures Decoded(c, Frames(s, c.size)) == [] && Rest(s, c.size) == s
  {
  }

  function Encoded<M>(c: Codec<M>, ms: seq<M>): seq<byte> {
    if ms == [] then [] else c.encode(ms[0]) + Encoded(c, ms[1..])
  }

  /** A sender's messages come out of its stream as they went in. */
  lemma {:induction false} DecodesWhatWasSent<M>(c: Codec<M>, ms: seq<M>)
    requires Proper(c, ms)
    ensures Decoded(c, Frames(Encoded(c, ms), c.size)) == ms && Rest(Encoded(c, ms), c.size) == []
    decreases |ms|
  {
    if ms != [] {
      var head, tail := c.encode(ms[0]), Encoded(c, ms[1..]);
      DecodesWhatWasSent(c, ms[1..]);
      assert (head + tail)[..c.size] == head && (head + tail)[c.size..] == tail;
    }
  }

  lemma DecodedConcat<M>(c: Codec<M>, fs: seq<seq<byte>>, gs: seq<seq<byte>>)
    ensures Decoded(c, fs + gs) == Decoded(c, fs) + Decoded(c, gs)
  {
  }

  /**
   * The channel as a whole: whatever part of the sender's stream has arrived, in whatever chunks, the receiver has
   * cut out a beginning of the messages sent, and all of them once everything has arrived.
   */
  lemma ChannelDelivers<M>(c: Codec<M>, ms: seq<M>, chunks: seq<seq<byte>>)
    requires Proper(c, ms) && Flatten(chunks) <= Encoded(c, ms)
    ensures var got := Decoded(c, CutAll(chunks, c.size).0);
            got <= ms && (Flatten(chunks) == Encoded(c, ms) ==> got == ms)
  {
    ChunkingIrrelevant(chunks, c.size);
    var s, all := Flatten(chunks), Encoded(c, ms);
    var t := all[|s|..];
    assert all == s + t;
    FramesConcat(s, t, c.size);
    DecodedConcat(c, Frames(s, c.size), Frames(Rest(s, c.size) + t, c.size));
    DecodesWhatWasSent(c, ms);
  }

  /** A socket's receive buffer. */
  class TCPSocket {
    const id: nat
    const rcvBuffer: array<byte>
    var nextRcvValidIndex: nat

    constructor (id: nat, capacity: nat)
      ensures this.id == id && Valid() && rcvBuffer.Length == capacity && Buffered() == [] && fresh(rcvBuffer)
    {
      this.id, nextRcvValidIndex := id, 0;
      rcvBuffer := new byte[capacity](_ => 0);
    }

    ghost predicate Valid()
      reads this`nextRcvValidIndex
    {
      nextRcvValidIndex <= rcvBuffer.Length
    }

    ghost function Buffered(): seq<byte>
      requires Valid()
      reads this`nextRcvValidIndex, rcvBuffer
    {
      rcvBuffer[..nextRcvValidIndex]
    }

    lemma SliceOfBuffered(i: nat, j: nat)
      requires Valid() && i <= j <= nextRcvValidIndex
      ensures rcvBuffer[i..j] == Buffered()[i..j]
    {
    }

    /** The kernel appends bytes behind the valid ones. */
    method Arrive(bytes: seq<byte>)
      requires Valid() && nextRcvValidIndex + |bytes| <= rcvBuffer.Length
      modifies this`nextRcvValidIndex, rcvBuffer
      ensures Valid() && Buffered() == old(Buffered()) + bytes
    {
      for k := 0 to |bytes|
        invariant nextRcvValidIndex == old(nextRcvValidIndex)
        invariant rcvBuffer[..nextRcvValidIndex + k] == old(Buffered()) + bytes[..k]
      {
        rcvBuffer[nextRcvValidIndex + k] := bytes[k];
        assert rcvBuffer[..nextRcvValidIndex + k + 1] == rcvBuffer[..nextRcvValidIndex + k] + [bytes[k]];
        assert bytes[..k + 1] == bytes[..k] + [bytes[k]];
      }
      assert bytes[..|bytes|] == bytes;
      nextRcvValidIndex := nextRcvValidIndex + |bytes|;
    }

    /** The copy of the leftover to the front. `memcpy` needs ranges that do not overlap, as they must not here. */
    method DropFront(i: nat)
      requires Valid() && i <= nextRcvValidIndex
      requires nextRcvValidIndex - i <= i
      modifies this`nextRcvValidIndex, rcvBuffer
      ensures Valid() && Buffered() == old(Buffered())[i..]
    {
      var n := nextRcvValidIndex - i;
      for k := 0 to n
        invariant rcvBuffer[..k] == old(Buffered())[i..i + k]
        invariant forall j :: i <= j < rcvBuffer.Length ==> rcvBuffer[j] == old(rcvBuffer[j])
      {
        rcvBuffer[k] := rcvBuffer[i + k];
      }
      nextRcvValidIndex := n;
    }
  }
}
