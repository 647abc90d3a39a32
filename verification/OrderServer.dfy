/** The two ends of the numbered order channel: framing, sequence filter and numbering. */
module OrderServers {
  import opened Types
  import opened Framing

  /** A numbered message; requests and responses both name their client. */
  datatype Numbered<+T> = Numbered(seqNum: nat, client: nat, body: T)

  /** Per client: the socket its first request came on, the next sequence number, and everything let through. */
  datatype Gate<T> = Gate(owner: seq<Option<nat>>, nextExp: seq<nat>, forwarded: seq<Numbered<T>>)

  function Closed<T>(): Gate<T> {
    Gate(seq(ME_MAX_NUM_CLIENTS, _ => None), seq(ME_MAX_NUM_CLIENTS, _ => 1), [])
  }

  predicate Shaped<T>(g: Gate<T>) {
    |g.owner| == |g.nextExp| == ME_MAX_NUM_CLIENTS
  }

  /** The body of the loop in `recvCallback` for one request. */
  function Admit<T>(g: Gate<T>, socket: nat, m: Numbered<T>): (h: Gate<T>)
    requires Shaped(g) && m.client < ME_MAX_NUM_CLIENTS
    ensures Shaped(h)
  {
    var owned := if g.owner[m.client] == None then g.(owner := g.owner[m.client := Some(socket)]) else g;
    if owned.owner[m.client] != Some(socket) || m.seqNum != g.nextExp[m.client] then
      owned
    else
      owned.(nextExp := g.nextExp[m.client := m.seqNum + 1], forwarded := g.forwarded + [m])
  }

  predicate KnownClients<T>(ms: seq<Numbered<T>>) {
    forall k :: 0 <= k < |ms| ==> ms[k].client < ME_MAX_NUM_CLIENTS
  }

  function AdmitAll<T>(g: Gate<T>, socket: nat, ms: seq<Numbered<T>>): (h: Gate<T>)
    requires Shaped(g) && KnownClients(ms)
    ensures Shaped(h)
  {
    if ms == [] then g else Admit(AdmitAll(g, socket, ms[..|ms| - 1]), socket, ms[|ms| - 1])
  }

  lemma AdmitMore<T>(g: Gate<T>, socket: nat, ms: seq<Numbered<T>>, m: Numbered<T>)
    requires Shaped(g) && KnownClients(ms) && m.client < ME_MAX_NUM_CLIENTS
    ensures AdmitAll(g, socket, ms + [m]) == Admit(AdmitAll(g, socket, ms), socket, m)
  {
    assert (ms + [m])[..|ms|] == ms;
  }

  class OrderServer<T(!new)> {
    const codec: Codec<Numbered<T>>
    const cidTcpSocket: array<Option<nat>>
    const cidNextExpSeqNum: array<nat>
    var forwarded: seq<Numbered<T>>   // handed to the FIFO sequencer

    ghost predicate Valid() {
      0 < codec.size && cidTcpSocket.Length == cidNextExpSeqNum.Length == ME_MAX_NUM_CLIENTS
    }

    ghost function State(): Gate<T>
      reads this`forwarded, cidTcpSocket, cidNextExpSeqNum
    {
      Gate(cidTcpSocket[..], cidNextExpSeqNum[..], forwarded)
    }

    constructor (codec: Codec<Numbered<T>>)
      requires 0 < codec.size
      ensures Valid() && this.codec == codec && State() == Closed()
      ensures fresh(cidTcpSocket) && fresh(cidNextExpSeqNum)
    {
      this.codec := codec;
      cidTcpSocket := new Option<nat>[ME_MAX_NUM_CLIENTS](_ => None);
      cidNextExpSeqNum := new nat[ME_MAX_NUM_CLIENTS](_ => 1);
      forwarded := [];
    }

    lemma StateIs()
      ensures State().forwarded == forwarded
    {
    }

    method HandleRequest(socket: nat, request: Numbered<T>)
      requires Valid() && request.client < ME_MAX_NUM_CLIENTS
      modifies this`forwarded, cidTcpSocket, cidNextExpSeqNum
      ensures State() == Admit(old(State()), socket, request)
    {
      var client := request.client;
      if cidTcpSocket[client] == None {
        cidTcpSocket[client] := Some(socket);
      }
      if cidTcpSocket[client] != Some(socket) {
        return;
      }
      if request.seqNum != cidNextExpSeqNum[client] {
        return;
      }
      cidNextExpSeqNum[client] := cidNextExpSeqNum[client] + 1;
      forwarded := forwarded + [request];
    }

    /** `recvCallback`: every complete request at the front of the buffer is handled, the leftover moves to the front. */
    method RecvCallback(socket: TCPSocket)
      requires Valid() && socket.Valid()
      requires KnownClients(Decoded(codec, Frames(socket.Buffered(), codec.size)))
      modifies this`forwarded, cidTcpSocket, cidNextExpSeqNum, socket`nextRcvValidIndex, socket.rcvBuffer
      ensures socket.Valid() && socket.Buffered() == Rest(old(socket.Buffered()), codec.size)
      ensures State() == AdmitAll(old(State()), socket.id, Decoded(codec, Frames(old(socket.Buffered()), codec.size)))
    {
      hide Frames, Rest, Decoded, Admit;
      ghost var all := socket.Buffered();
      ghost var ms := Decoded(codec, Frames(all, codec.size));
      assert all[0..] == all && ms[0..] == ms;
      if codec.size <= socket.nextRcvValidIndex {
        var i, n := 0, socket.nextRcvValidIndex;
        ghost var k := 0;
        while i + codec.size <= n
          invariant i <= n == socket.nextRcvValidIndex && socket.Buffered() == all && k <= |ms|
          invariant n - i < codec.size ==> codec.size <= i
          invariant Decoded(codec, Frames(all[i..], codec.size)) == ms[k..] && Rest(all[i..], codec.size) == Rest(all, codec.size)
          invariant State() == AdmitAll(old(State()), socket.id, ms[..k])
          decreases n - i
        {
          CutOne(codec, all, i);
          assert ms[k] == ms[k..][0] && ms[k..][1..] == ms[k + 1..];
          var request := codec.decode(socket.rcvBuffer[i..i + codec.size]);
          socket.SliceOfBuffered(i, i + codec.size);
          assert ms[..k + 1] == ms[..k] + [ms[k]];
          AdmitMore(old(State()), socket.id, ms[..k], ms[k]);
          HandleRequest(socket.id, request);
          i := i + codec.size;
          k := k + 1;
        }
        NoMore(codec, all[i..]);
        assert ms[..k] == ms;
        socket.DropFront(i);
      } else {
        NoMore(codec, all);
      }
    }

    /** The receiving half of `sendAndRecv`: the kernel gives some of the stream, as much as fits at most. */
    method SendAndRecv(socket: TCPSocket, stream: seq<byte>, given: nat) returns (n: nat)
      requires Valid() && socket.Valid() && KnownClients(Decoded(codec, Frames(socket.Buffered() + stream, codec.size)))
      modifies this`forwarded, cidTcpSocket, cidNextExpSeqNum, socket`nextRcvValidIndex, socket.rcvBuffer
      ensures n == Portion(given, |stream|, socket.rcvBuffer.Length - |old(socket.Buffered())|)
      ensures n <= given && n <= |stream| && n <= socket.rcvBuffer.Length - |old(socket.Buffered())|
      ensures n == given || n == |stream| || n == socket.rcvBuffer.Length - |old(socket.Buffered())|
      ensures socket.Valid() && (n == 0 ==> socket.Buffered() == old(socket.Buffered()) && State() == old(State()))
      ensures var buffered := old(socket.Buffered()) + stream[..n];
              0 < n ==>
                && socket.Buffered() == Rest(buffered, codec.size)
                && KnownClients(Decoded(codec, Frames(buffered, codec.size)))
                && State() == AdmitAll(old(State()), socket.id, Decoded(codec, Frames(buffered, codec.size)))
    {
      n := socket.rcvBuffer.Length - socket.nextRcvValidIndex;
      n := if |stream| < n then |stream| else n;
      n := if given < n then given else n;
      if 0 < n {
        assert socket.Buffered() + stream[..n] + stream[n..] == socket.Buffered() + stream;
        KnownSoFar(codec, socket.Buffered() + stream[..n], stream[n..]);
        socket.Arrive(stream[..n]);
        RecvCallback(socket);
      }
    }

    /**
     * The polling loop on one socket: in whatever portions the stream arrives, requests are admitted as if what has
     * arrived had come at once.
     */
    method Listen(socket: TCPSocket, stream: seq<byte>, portions: seq<nat>) returns (n: nat)
      requires Valid() && socket.Valid() && socket.Buffered() == []
      requires KnownClients(Decoded(codec, Frames(stream, codec.size)))
      modifies this`forwarded, cidTcpSocket, cidNextExpSeqNum, socket`nextRcvValidIndex, socket.rcvBuffer
      ensures n == Received(portions, |stream|, codec.size, socket.rcvBuffer.Length)
      ensures socket.Valid() && socket.Buffered() == Rest(stream[..n], codec.size)
      ensures KnownClients(Decoded(codec, Frames(stream[..n], codec.size)))
      ensures State() == AdmitAll(old(State()), socket.id, Decoded(codec, Frames(stream[..n], codec.size)))
    {
      hide Frames, Rest, Decoded, Admit, KnownClients, Received, Waiting;
      n := 0;
      NothingYet(codec);
      NoPortions(|stream|, codec.size, socket.rcvBuffer.Length);
      assert stream[..0] == [] && portions[..0] == [];
      for k := 0 to |portions|
        invariant n == Received(portions[..k], |stream|, codec.size, socket.rcvBuffer.Length)
        invariant socket.Valid() && socket.Buffered() == Rest(stream[..n], codec.size)
        invariant KnownClients(Decoded(codec, Frames(stream[..n], codec.size)))
        invariant State() == AdmitAll(old(State()), socket.id, Decoded(codec, Frames(stream[..n], codec.size)))
      {
        KnownNext(codec, stream, n);
        RestSize(stream[..n], codec.size);
        assert portions[..k + 1] == portions[..k] + [portions[k]];
        ReceivedMore(portions[..k], portions[k], |stream|, codec.size, socket.rcvBuffer.Length);
        var more := SendAndRecv(socket, stream[n..], portions[k]);
        assert stream[n..][..more] == stream[n..n + more];
        if 0 < more {
          AdmitPortion(codec, old(State()), socket.id, stream, n, more);
        }
        n := n + more;
      }
      assert portions[..|portions|] == portions;
    }
  }

  // ---- A stream in portions ----

  lemma NothingYet<T>(codec: Codec<Numbered<T>>)
    requires 0 < codec.size
    ensures Decoded(codec, Frames([], codec.size)) == [] && Rest([], codec.size) == []
    ensures KnownClients(Decoded(codec, Frames([], codec.size)))
  {
  }

  /** Requests cut out of a beginning are among those of the whole. */
  lemma KnownSoFar<T>(codec: Codec<Numbered<T>>, s: seq<byte>, t: seq<byte>)
    requires 0 < codec.size && KnownClients(Decoded(codec, Frames(s + t, codec.size)))
    ensures KnownClients(Decoded(codec, Frames(s, codec.size)))
    ensures KnownClients(Decoded(codec, Frames(Rest(s, codec.size) + t, codec.size)))
  {
    hide Frames, Rest, Decoded;
    FramesConcat(s, t, codec.size);
    var before := Decoded(codec, Frames(s, codec.size));
    var after := Decoded(codec, Frames(Rest(s, codec.size) + t, codec.size));
    DecodedConcat(codec, Frames(s, codec.size), Frames(Rest(s, codec.size) + t, codec.size));
    assert forall k :: 0 <= k < |before| ==> (before + after)[k] == before[k];
    assert forall k :: 0 <= k < |after| ==> (before + after)[|before| + k] == after[k];
  }

  lemma KnownNext<T>(codec: Codec<Numbered<T>>, stream: seq<byte>, n: nat)
    requires 0 < codec.size && n <= |stream| && KnownClients(Decoded(codec, Frames(stream, codec.size)))
    ensures KnownClients(Decoded(codec, Frames(Rest(stream[..n], codec.size) + stream[n..], codec.size)))
  {
    assert stream[..n] + stream[n..] == stream;
    KnownSoFar(codec, stream[..n], stream[n..]);
  }

  lemma {:induction false} AdmitConcat<T>(g: Gate<T>, socket: nat, ms: seq<Numbered<T>>, ns: seq<Numbered<T>>)
    requires Shaped(g) && KnownClients(ms) && KnownClients(ns)
    ensures AdmitAll(g, socket, ms + ns) == AdmitAll(AdmitAll(g, socket, ms), socket, ns)
    decreases |ns|
  {
    if ns == [] {
      assert ms + ns == ms;
    } else {
      AdmitConcat(g, socket, ms, ns[..|ns| - 1]);
      assert (ms + ns)[..|ms + ns| - 1] == ms + ns[..|ns| - 1];
    }
  }

  /** Admitting one portion after the earlier ones is admitting both at once. */
  lemma AdmitPortion<T>(codec: Codec<Numbered<T>>, g: Gate<T>, socket: nat, stream: seq<byte>, n: nat, more: nat)
    requires Shaped(g) && 0 < codec.size && n + more <= |stream|
    requires KnownClients(Decoded(codec, Frames(stream[..n], codec.size)))
    requires KnownClients(Decoded(codec, Frames(Rest(stream[..n], codec.size) + stream[n..n + more], codec.size)))
    ensures var next := Rest(stream[..n], codec.size) + stream[n..n + more];
            var ms, ns := Decoded(codec, Frames(stream[..n], codec.size)), Decoded(codec, Frames(next, codec.size));
            && Rest(stream[..n + more], codec.size) == Rest(next, codec.size)
            && Decoded(codec, Frames(stream[..n + more], codec.size)) == ms + ns && KnownClients(ms + ns)
            && AdmitAll(g, socket, ms + ns) == AdmitAll(AdmitAll(g, socket, ms), socket, ns)
  {
    hide Frames, Rest, Decoded, Admit;
    var s, t := stream[..n], stream[n..n + more];
    assert stream[..n + more] == s + t;
    FramesConcat(s, t, codec.size);
    DecodedConcat(codec, Frames(s, codec.size), Frames(Rest(s, codec.size) + t, codec.size));
    var ms, ns := Decoded(codec, Frames(s, codec.size)), Decoded(codec, Frames(Rest(s, codec.size) + t, codec.size));
    AdmitConcat(g, socket, ms, ns);
  }

  // ---- Exactly once, in order ----

  /** The messages of one client, in order. */
  function Of<T>(ms: seq<Numbered<T>>, client: nat): seq<Numbered<T>> {
    if ms == [] then []
    else Of(ms[..|ms| - 1], client) + if ms[|ms| - 1].client == client then [ms[|ms| - 1]] else []
  }

  /** A message as it comes in, with the socket it comes on. */
  datatype Incoming<T> = Incoming(socket: nat, message: Numbered<T>)

  function AdmitStream<T>(xs: seq<Incoming<T>>): (g: Gate<T>)
    requires forall k :: 0 <= k < |xs| ==> xs[k].message.client < ME_MAX_NUM_CLIENTS
    ensures Shaped(g)
  {
    if xs == [] then Closed() else Admit(AdmitStream(xs[..|xs| - 1]), xs[|xs| - 1].socket, xs[|xs| - 1].message)
  }

  /** Sequence numbers 1, 2, 3 and so on. */
  predicate InOrder<T>(ms: seq<Numbered<T>>) {
    forall k :: 0 <= k < |ms| ==> ms[k].seqNum == k + 1
  }

  /** What one message adds to what was let through of a client. */
  lemma AdmitOf<T>(g: Gate<T>, socket: nat, m: Numbered<T>, client: nat)
    requires Shaped(g) && m.client < ME_MAX_NUM_CLIENTS && client < ME_MAX_NUM_CLIENTS
    ensures var h := Admit(g, socket, m);
            var through := m.client == client && (g.owner[client] == None || g.owner[client] == Some(socket)) && m.seqNum == g.nextExp[client];
            && Of(h.forwarded, client) == Of(g.forwarded, client) + (if through then [m] else [])
            && h.nextExp[client] == g.nextExp[client] + (if through then 1 else 0)
            && h.owner[client] == if m.client == client && g.owner[client] == None then Some(socket) else g.owner[client]
  {
    assert (g.forwarded + [m])[..|g.forwarded|] == g.forwarded;
  }

  /** Whatever comes in on whatever sockets, what is let through of each client is numbered 1, 2, 3, without gap or repeat. */
  lemma {:induction false} ForwardedInOrder<T>(xs: seq<Incoming<T>>, client: nat)
    requires client < ME_MAX_NUM_CLIENTS
    requires forall k :: 0 <= k < |xs| ==> xs[k].message.client < ME_MAX_NUM_CLIENTS
    ensures var g := AdmitStream(xs);
            InOrder(Of(g.forwarded, client)) && g.nextExp[client] == |Of(g.forwarded, client)| + 1
  {
    if xs != [] {
      var n := |xs| - 1;
      hide Admit, Of;
      ForwardedInOrder(xs[..n], client);
      AdmitOf(AdmitStream(xs[..n]), xs[n].socket, xs[n].message, client);
    } else {
      assert Of(AdmitStream(xs).forwarded, client) == [];
    }
  }

  /** The messages of one client among all that came in. */
  function From<T>(xs: seq<Incoming<T>>, client: nat): seq<Numbered<T>> {
    if xs == [] then []
    else From(xs[..|xs| - 1], client) + if xs[|xs| - 1].message.client == client then [xs[|xs| - 1].message] else []
  }

  /** Exactly once: a client that keeps to one socket and numbers its requests from 1 has all of them let through. */
  lemma {:induction false} AllForwarded<T>(xs: seq<Incoming<T>>, client: nat, socket: nat)
    requires client < ME_MAX_NUM_CLIENTS
    requires forall k :: 0 <= k < |xs| ==> xs[k].message.client < ME_MAX_NUM_CLIENTS
    requires forall k :: 0 <= k < |xs| && xs[k].message.client == client ==> xs[k].socket == socket
    requires InOrder(From(xs, client))
    ensures var g := AdmitStream(xs);
            Of(g.forwarded, client) == From(xs, client)
            && (g.owner[client] == None || g.owner[client] == Some(socket))
  {
    if xs != [] {
      var n := |xs| - 1;
      var g, m := AdmitStream(xs[..n]), xs[n].message;
      assert InOrder(From(xs[..n], client)) by {
        assert forall k :: 0 <= k < |From(xs[..n], client)| ==> From(xs, client)[k] == From(xs[..n], client)[k];
      }
      hide Admit, Of;
      AllForwarded(xs[..n], client, socket);
      ForwardedInOrder(xs[..n], client);
      AdmitOf(g, xs[n].socket, m, client);
      if m.client == client {
        assert From(xs, client)[|From(xs, client)| - 1] == m;
      }
    }
  }

  // ---- The way back ----

  /** What the server sends is numbered per client from 1, in the order of the responses. */
  class ResponseSender<R> {
    const cidNextOutgoingSeqNum: array<nat>
    var outgoing: seq<Numbered<R>>   // written to the clients' sockets

    ghost predicate Valid()
      reads this`outgoing, cidNextOutgoingSeqNum
    {
      && cidNextOutgoingSeqNum.Length == ME_MAX_NUM_CLIENTS
      && forall c: nat :: c < ME_MAX_NUM_CLIENTS ==>
           InOrder(Of(outgoing, c)) && cidNextOutgoingSeqNum[c] == |Of(outgoing, c)| + 1
    }

    constructor ()
      ensures Valid() && outgoing == [] && fresh(cidNextOutgoingSeqNum)
    {
      cidNextOutgoingSeqNum := new nat[ME_MAX_NUM_CLIENTS](_ => 1);
      outgoing := [];
    }

    /** The loop of `run` over the responses of the matching engine. */
    method SendResponses(responses: seq<(nat, R)>)
      requires Valid() && forall k :: 0 <= k < |responses| ==> responses[k].0 < ME_MAX_NUM_CLIENTS
      modifies this`outgoing, cidNextOutgoingSeqNum
      ensures Valid() && |outgoing| == |old(outgoing)| + |responses| && old(outgoing) <= outgoing
      ensures forall k :: 0 <= k < |responses| ==>
                var m := outgoing[|old(outgoing)| + k]; m.client == responses[k].0 && m.body == responses[k].1
    {
      for k := 0 to |responses|
        invariant Valid() && |outgoing| == |old(outgoing)| + k && old(outgoing) <= outgoing
        invariant forall j :: 0 <= j < k ==>
                    var m := outgoing[|old(outgoing)| + j]; m.client == responses[j].0 && m.body == responses[j].1
      {
        var (client, response) := responses[k];
        var m := Numbered(cidNextOutgoingSeqNum[client], client, response);
        assert (outgoing + [m])[..|outgoing|] == outgoing;
        outgoing := outgoing + [m];
        cidNextOutgoingSeqNum[client] := cidNextOutgoingSeqNum[client] + 1;
      }
    }
  }

  /** What the gateway lets through: the next message for its client, and no other. */
  function Passed<R>(client: nat, nextExp: nat, ms: seq<Numbered<R>>): seq<R> {
    if ms == [] then []
    else
      var before := Passed(client, nextExp, ms[..|ms| - 1]);
      var m := ms[|ms| - 1];
      before + if m.client == client && m.seqNum == nextExp + |before| then [m.body] else []
  }

  lemma PassedMore<R>(client: nat, nextExp: nat, ms: seq<Numbered<R>>, m: Numbered<R>)
    ensures var before := Passed(client, nextExp, ms);
            Passed(client, nextExp, ms + [m]) ==
            before + if m.client == client && m.seqNum == nextExp + |before| then [m.body] else []
  {
    assert (ms + [m])[..|ms|] == ms;
  }

  lemma PassedNone<R>(client: nat, nextExp: nat)
    ensures Passed<R>(client, nextExp, []) == []
  {
  }

  lemma {:induction false} PassedConcat<R>(client: nat, nextExp: nat, ms: seq<Numbered<R>>, ns: seq<Numbered<R>>)
    ensures var before := Passed(client, nextExp, ms);
            Passed(client, nextExp, ms + ns) == before + Passed(client, nextExp + |before|, ns)
    decreases |ns|
  {
    if ns == [] {
      assert ms + ns == ms;
    } else {
      var n := |ns| - 1;
      PassedConcat(client, nextExp, ms, ns[..n]);
      assert (ms + ns)[..|ms + ns| - 1] == ms + ns[..n];
    }
  }

  /** Passing one portion after the earlier ones is passing both at once. */
  lemma PassPortion<R>(codec: Codec<Numbered<R>>, client: nat, nextExp: nat, stream: seq<byte>, n: nat, more: nat)
    requires 0 < codec.size && n + more <= |stream|
    ensures var next := Rest(stream[..n], codec.size) + stream[n..n + more];
            var before := Passed(client, nextExp, Decoded(codec, Frames(stream[..n], codec.size)));
            && Rest(stream[..n + more], codec.size) == Rest(next, codec.size)
            && Passed(client, nextExp, Decoded(codec, Frames(stream[..n + more], codec.size))) ==
               before + Passed(client, nextExp + |before|, Decoded(codec, Frames(next, codec.size)))
  {
    hide Frames, Rest, Decoded, Passed;
    var s, t := stream[..n], stream[n..n + more];
    assert stream[..n + more] == s + t;
    FramesConcat(s, t, codec.size);
    DecodedConcat(codec, Frames(s, codec.size), Frames(Rest(s, codec.size) + t, codec.size));
    PassedConcat(client, nextExp, Decoded(codec, Frames(s, codec.size)), Decoded(codec, Frames(Rest(s, codec.size) + t, codec.size)));
  }

  /** The server's stream for a client passes the client's gateway whole. */
  lemma {:induction false} AllPass<R>(client: nat, ms: seq<Numbered<R>>)
    requires InOrder(ms) && forall k :: 0 <= k < |ms| ==> ms[k].client == client
    ensures |Passed(client, 1, ms)| == |ms| && forall k :: 0 <= k < |ms| ==> Passed(client, 1, ms)[k] == ms[k].body
  {
    if ms != [] {
      AllPass(client, ms[..|ms| - 1]);
    }
  }

  class OrderGateway<T, R> {
    const clientId: nat
    const codec: Codec<Numbered<R>>
    var nextOutgoingSeqNum: nat
    var nextExpSeqNum: nat
    var outgoing: seq<Numbered<T>>   // written to the socket
    var incoming: seq<R>             // handed to the trade engine

    constructor (clientId: nat, codec: Codec<Numbered<R>>)
      ensures this.clientId == clientId && this.codec == codec
      ensures nextOutgoingSeqNum == 1 && nextExpSeqNum == 1 && outgoing == [] && incoming == []
    {
      this.clientId, this.codec := clientId, codec;
      nextOutgoingSeqNum, nextExpSeqNum, outgoing, incoming := 1, 1, [], [];
    }

    /** The loop of `run`: requests go out numbered from 1. */
    method SendRequests(requests: seq<T>)
      requires InOrder(outgoing) && nextOutgoingSeqNum == |outgoing| + 1
      modifies this`outgoing, this`nextOutgoingSeqNum
      ensures InOrder(outgoing) && nextOutgoingSeqNum == |outgoing| + 1
      ensures outgoing == old(outgoing) + seq(|requests|, k requires 0 <= k < |requests| =>
                            Numbered(old(nextOutgoingSeqNum) + k, clientId, requests[k]))
    {
      for k := 0 to |requests|
        invariant InOrder(outgoing) && nextOutgoingSeqNum == |outgoing| + 1 == old(nextOutgoingSeqNum) + k
        invariant outgoing == old(outgoing) + seq(k, j requires 0 <= j < k => Numbered(old(nextOutgoingSeqNum) + j, clientId, requests[j]))
      {
        outgoing := outgoing + [Numbered(nextOutgoingSeqNum, clientId, requests[k])];
        nextOutgoingSeqNum := nextOutgoingSeqNum + 1;
      }
    }

    method HandleResponse(response: Numbered<R>)
      modifies this`nextExpSeqNum, this`incoming
      ensures var through := response.client == clientId && response.seqNum == old(nextExpSeqNum);
              && incoming == old(incoming) + (if through then [response.body] else [])
              && nextExpSeqNum == old(nextExpSeqNum) + (if through then 1 else 0)
    {
      if response.client != clientId {
        return;
      }
      if response.seqNum != nextExpSeqNum {
        return;
      }
      nextExpSeqNum := nextExpSeqNum + 1;
      incoming := incoming + [response.body];
    }

    /** `recvCallback` */
    method RecvCallback(socket: TCPSocket)
      requires 0 < codec.size && socket.Valid()
      modifies this`nextExpSeqNum, this`incoming, socket`nextRcvValidIndex, socket.rcvBuffer
      ensures socket.Valid() && socket.Buffered() == Rest(old(socket.Buffered()), codec.size)
      ensures var passed := Passed(clientId, old(nextExpSeqNum), Decoded(codec, Frames(old(socket.Buffered()), codec.size)));
              incoming == old(incoming) + passed && nextExpSeqNum == old(nextExpSeqNum) + |passed|
    {
      hide Frames, Rest, Decoded;
      ghost var all := socket.Buffered();
      ghost var ms := Decoded(codec, Frames(all, codec.size));
      assert all[0..] == all && ms[0..] == ms;
      if codec.size <= socket.nextRcvValidIndex {
        var i, n := 0, socket.nextRcvValidIndex;
        ghost var k := 0;
        while i + codec.size <= n
          invariant i <= n == socket.nextRcvValidIndex && socket.Buffered() == all && k <= |ms|
          invariant n - i < codec.size ==> codec.size <= i
          invariant Decoded(codec, Frames(all[i..], codec.size)) == ms[k..] && Rest(all[i..], codec.size) == Rest(all, codec.size)
          invariant var passed := Passed(clientId, old(nextExpSeqNum), ms[..k]);
                    incoming == old(incoming) + passed && nextExpSeqNum == old(nextExpSeqNum) + |passed|
          decreases n - i
        {
          CutOne(codec, all, i);
          assert ms[k] == ms[k..][0] && ms[k..][1..] == ms[k + 1..];
          var response := codec.decode(socket.rcvBuffer[i..i + codec.size]);
          socket.SliceOfBuffered(i, i + codec.size);
          assert ms[..k + 1] == ms[..k] + [ms[k]];
          PassedMore(clientId, old(nextExpSeqNum), ms[..k], ms[k]);
          HandleResponse(response);
          i := i + codec.size;
          k := k + 1;
        }
        NoMore(codec, all[i..]);
        assert ms[..k] == ms;
        socket.DropFront(i);
      } else {
        NoMore(codec, all);
      }
    }

    /** The receiving half of `sendAndRecv` at the gateway. */
    method SendAndRecv(socket: TCPSocket, stream: seq<byte>, given: nat) returns (n: nat)
      requires 0 < codec.size && socket.Valid()
      modifies this`nextExpSeqNum, this`incoming, socket`nextRcvValidIndex, socket.rcvBuffer
      ensures n == Portion(given, |stream|, socket.rcvBuffer.Length - |old(socket.Buffered())|) && socket.Valid()
      ensures n == 0 ==> socket.Buffered() == old(socket.Buffered()) && incoming == old(incoming) && nextExpSeqNum == old(nextExpSeqNum)
      ensures var buffered := old(socket.Buffered()) + stream[..n];
              var passed := Passed(clientId, old(nextExpSeqNum), Decoded(codec, Frames(buffered, codec.size)));
              0 < n ==>
                && socket.Buffered() == Rest(buffered, codec.size)
                && incoming == old(incoming) + passed && nextExpSeqNum == old(nextExpSeqNum) + |passed|
    {
      n := socket.rcvBuffer.Length - socket.nextRcvValidIndex;
      n := if |stream| < n then |stream| else n;
      n := if given < n then given else n;
      if 0 < n {
        socket.Arrive(stream[..n]);
        RecvCallback(socket);
      }
    }

    /** The polling loop at the gateway: in whatever portions the stream arrives, it passes as if it had come at once. */
    method Listen(socket: TCPSocket, stream: seq<byte>, portions: seq<nat>) returns (n: nat)
      requires 0 < codec.size && socket.Valid() && socket.Buffered() == []
      modifies this`nextExpSeqNum, this`incoming, socket`nextRcvValidIndex, socket.rcvBuffer
      ensures n == Received(portions, |stream|, codec.size, socket.rcvBuffer.Length)
      ensures socket.Valid() && socket.Buffered() == Rest(stream[..n], codec.size)
      ensures var passed := Passed(clientId, old(nextExpSeqNum), Decoded(codec, Frames(stream[..n], codec.size)));
              incoming == old(incoming) + passed && nextExpSeqNum == old(nextExpSeqNum) + |passed|
    {
      hide Frames, Rest, Decoded, Received, Waiting, Passed;
      n := 0;
      NothingYet(codec);
      PassedNone<R>(clientId, nextExpSeqNum);
      NoPortions(|stream|, codec.size, socket.rcvBuffer.Length);
      assert stream[..0] == [] && portions[..0] == [];
      for k := 0 to |portions|
        invariant n == Received(portions[..k], |stream|, codec.size, socket.rcvBuffer.Length)
        invariant socket.Valid() && socket.Buffered() == Rest(stream[..n], codec.size)
        invariant var passed := Passed(clientId, old(nextExpSeqNum), Decoded(codec, Frames(stream[..n], codec.size)));
                  incoming == old(incoming) + passed && nextExpSeqNum == old(nextExpSeqNum) + |passed|
      {
        RestSize(stream[..n], codec.size);
        assert portions[..k + 1] == portions[..k] + [portions[k]];
        ReceivedMore(portions[..k], portions[k], |stream|, codec.size, socket.rcvBuffer.Length);
        var more := SendAndRecv(socket, stream[n..], portions[k]);
        assert stream[n..][..more] == stream[n..n + more];
        if 0 < more {
          PassPortion(codec, clientId, old(nextExpSeqNum), stream, n, more);
        }
        n := n + more;
      }
      assert portions[..|portions|] == portions;
    }
  }

  // ---- Gateways, byte streams and server together ----

  /** The messages as they come in on one socket. */
  function Labelled<T>(socket: nat, ms: seq<Numbered<T>>): seq<Incoming<T>> {
    seq(|ms|, k requires 0 <= k < |ms| => Incoming(socket, ms[k]))
  }

  /** Clients are known, and each keeps to the socket of its own number. */
  ghost predicate OwnSockets<T>(xs: seq<Incoming<T>>) {
    forall k :: 0 <= k < |xs| ==> xs[k].message.client < ME_MAX_NUM_CLIENTS && xs[k].socket == xs[k].message.client
  }

  ghost predicate AllOf<T>(ms: seq<Numbered<T>>, client: nat) {
    forall k :: 0 <= k < |ms| ==> ms[k].client == client
  }

  /** A portion admitted after a stream of messages. */
  lemma {:induction false} StreamMore<T>(xs: seq<Incoming<T>>, i: nat, ms: seq<Numbered<T>>)
    requires OwnSockets(xs) && i < ME_MAX_NUM_CLIENTS && AllOf(ms, i)
    ensures KnownClients(ms) && OwnSockets(xs + Labelled(i, ms))
    ensures AdmitStream(xs + Labelled(i, ms)) == AdmitAll(AdmitStream(xs), i, ms)
    ensures forall c: nat :: From(xs + Labelled(i, ms), c) == From(xs, c) + if c == i then ms else []
    decreases |ms|
  {
    hide From, AdmitStream, Admit, AdmitAll;
    if ms == [] {
      assert xs + Labelled(i, ms) == xs;
      AdmitNone(AdmitStream(xs), i);
    } else {
      var n := |ms| - 1;
      var before, x := xs + Labelled(i, ms[..n]), Incoming(i, ms[n]);
      StreamMore(xs, i, ms[..n]);
      assert xs + Labelled(i, ms) == before + [x] && ms[..n] + [ms[n]] == ms;
      OneIn(before, x);
      AdmitMore(AdmitStream(xs), i, ms[..n], ms[n]);
    }
  }

  lemma AdmitNone<T>(g: Gate<T>, socket: nat)
    requires Shaped(g)
    ensures AdmitAll(g, socket, []) == g
  {
  }

  lemma OneIn<T>(xs: seq<Incoming<T>>, x: Incoming<T>)
    requires OwnSockets(xs) && x.message.client < ME_MAX_NUM_CLIENTS
    ensures AdmitStream(xs + [x]) == Admit(AdmitStream(xs), x.socket, x.message)
    ensures forall c: nat :: From(xs + [x], c) == From(xs, c) + if x.message.client == c then [x.message] else []
  {
    assert (xs + [x])[..|xs|] == xs;
  }

  lemma NobodyYet<T>(client: nat)
    ensures AdmitStream<T>([]) == Closed() && From<T>([], client) == []
  {
  }

  lemma OrderedStart<T>(ms: seq<Numbered<T>>, all: seq<Numbered<T>>, client: nat)
    requires ms <= all && InOrder(all) && AllOf(all, client)
    ensures InOrder(ms) && AllOf(ms, client)
  {
  }

  /** Whatever part of a client's stream has arrived, it decodes to a beginning of what the client sent. */
  lemma ArrivedSoFar<T(!new)>(codec: Codec<Numbered<T>>, sent: seq<Numbered<T>>, n: nat, client: nat)
    requires Proper(codec, sent) && InOrder(sent) && AllOf(sent, client) && n <= |Encoded(codec, sent)|
    ensures var ms := Decoded(codec, Frames(Encoded(codec, sent)[..n], codec.size));
            && ms <= sent && InOrder(ms) && AllOf(ms, client)
            && (n == |Encoded(codec, sent)| ==> ms == sent)
  {
    hide Encoded, Frames, Decoded;
    var stream := Encoded(codec, sent);
    assert Flatten([stream[..n]]) == stream[..n] by { OneChunk(stream[..n]); }
    ChannelDelivers(codec, sent, [stream[..n]]);
    ChunkingIrrelevant([stream[..n]], codec.size);
    assert stream[..|stream|] == stream;
    OrderedStart(Decoded(codec, Frames(stream[..n], codec.size)), sent, client);
  }

  lemma OneChunk(s: seq<byte>)
    ensures Flatten([s]) == s
  {
    assert [s][..0] == [];
  }

  /** The next portion of a client's stream. */
  lemma NextPortion<T(!new)>(codec: Codec<Numbered<T>>, sent: seq<Numbered<T>>, n: nat, more: nat, client: nat)
    requires Proper(codec, sent) && InOrder(sent) && AllOf(sent, client) && n + more <= |Encoded(codec, sent)|
    ensures var stream := Encoded(codec, sent);
            var next := Rest(stream[..n], codec.size) + stream[n..n + more];
            var ms := Decoded(codec, Frames(next, codec.size));
            && AllOf(ms, client) && Rest(stream[..n + more], codec.size) == Rest(next, codec.size)
            && Decoded(codec, Frames(stream[..n + more], codec.size)) == Decoded(codec, Frames(stream[..n], codec.size)) + ms
  {
    hide Encoded, Frames, Decoded, Rest, InOrder;
    var stream := Encoded(codec, sent);
    ArrivedSoFar(codec, sent, n + more, client);
    assert stream[..n + more] == stream[..n] + stream[n..n + more];
    FramesConcat(stream[..n], stream[n..n + more], codec.size);
    var next := Rest(stream[..n], codec.size) + stream[n..n + more];
    DecodedConcat(codec, Frames(stream[..n], codec.size), Frames(next, codec.size));
    var before, ms := Decoded(codec, Frames(stream[..n], codec.size)), Decoded(codec, Frames(next, codec.size));
    AllOfEnd(before, ms, client);
  }

  lemma AllOfEnd<T>(before: seq<Numbered<T>>, ms: seq<Numbered<T>>, client: nat)
    requires AllOf(before + ms, client)
    ensures AllOf(ms, client)
  {
    assert forall k :: 0 <= k < |ms| ==> ms[k] == (before + ms)[|before| + k];
  }

  lemma KnownStream<T(!new)>(codec: Codec<Numbered<T>>, sent: seq<Numbered<T>>, n: nat, client: nat)
    requires Proper(codec, sent) && InOrder(sent) && AllOf(sent, client) && n <= |Encoded(codec, sent)| && client < ME_MAX_NUM_CLIENTS
    ensures var stream := Encoded(codec, sent);
            KnownClients(Decoded(codec, Frames(Rest(stream[..n], codec.size) + stream[n..], codec.size)))
  {
    var stream := Encoded(codec, sent);
    NextPortion(codec, sent, n, |stream| - n, client);
    assert stream[n..|stream|] == stream[n..];
  }

  /** What has arrived of a client's messages with the first n bytes of its stream, and the bytes that wait for more. */
  function Arrived<T>(codec: Codec<Numbered<T>>, sent: seq<Numbered<T>>, n: nat): seq<Numbered<T>>
    requires 0 < codec.size && n <= |Encoded(codec, sent)|
  {
    Decoded(codec, Frames(Encoded(codec, sent)[..n], codec.size))
  }

  function Leftover<T>(codec: Codec<Numbered<T>>, sent: seq<Numbered<T>>, n: nat): seq<byte>
    requires 0 < codec.size && n <= |Encoded(codec, sent)|
  {
    Rest(Encoded(codec, sent)[..n], codec.size)
  }

  lemma NothingArrived<T>(codec: Codec<Numbered<T>>, sent: seq<Numbered<T>>)
    requires 0 < codec.size
    ensures Arrived(codec, sent, 0) == [] && Leftover(codec, sent, 0) == []
  {
    assert Encoded(codec, sent)[..0] == [];
  }

  /** The socket holds the bytes that wait for more. */
  ghost predicate Holds<T>(socket: TCPSocket, codec: Codec<Numbered<T>>, sent: seq<Numbered<T>>, n: nat)
    reads socket`nextRcvValidIndex, socket.rcvBuffer
  {
    socket.Valid() && 0 < codec.size && n <= |Encoded(codec, sent)| && socket.Buffered() == Leftover(codec, sent, n)
  }

  lemma NothingHeld<T>(socket: TCPSocket, codec: Codec<Numbered<T>>, sent: seq<Numbered<T>>)
    requires socket.Valid() && socket.Buffered() == [] && 0 < codec.size
    ensures Holds(socket, codec, sent, 0)
  {
    NothingArrived(codec, sent);
  }

  /** One poll: the next portion of a client's stream is admitted behind all that came in before. */
  method Poll<T(!new)>(server: OrderServer<T>, socket: TCPSocket, stream: seq<byte>, n: nat, given: nat,
                       ghost sent: seq<Numbered<T>>, ghost xs: seq<Incoming<T>>)
    returns (more: nat, ghost ys: seq<Incoming<T>>)
    requires server.Valid() && Proper(server.codec, sent) && socket.id < ME_MAX_NUM_CLIENTS
    requires stream == Encoded(server.codec, sent) && InOrder(sent) && AllOf(sent, socket.id) && n <= |stream|
    requires Holds(socket, server.codec, sent, n)
    requires OwnSockets(xs) && server.State() == AdmitStream(xs)
    requires From(xs, socket.id) == Arrived(server.codec, sent, n)
    modifies server`forwarded, server.cidTcpSocket, server.cidNextExpSeqNum, socket`nextRcvValidIndex, socket.rcvBuffer
    ensures more == Portion(given, |stream| - n, socket.rcvBuffer.Length - Waiting(n, server.codec.size))
    ensures Holds(socket, server.codec, sent, n + more)
    ensures OwnSockets(ys) && server.State() == AdmitStream(ys)
    ensures From(ys, socket.id) == Arrived(server.codec, sent, n + more)
    ensures forall c: nat :: c != socket.id ==> From(ys, c) == From(xs, c)
  {
    hide Encoded, Frames, Decoded, Rest, Admit, AdmitAll, AdmitStream, From, InOrder, AllOf;
    KnownStream(server.codec, sent, n, socket.id);
    RestSize(stream[..n], server.codec.size);
    more := server.SendAndRecv(socket, stream[n..], given);
    ys := xs;
    if 0 < more {
      NextPortion(server.codec, sent, n, more, socket.id);
      assert stream[n..][..more] == stream[n..n + more];
      var next := Rest(stream[..n], server.codec.size) + stream[n..n + more];
      ghost var ms := Decoded(server.codec, Frames(next, server.codec.size));
      StreamMore(xs, socket.id, ms);
      ys := xs + Labelled(socket.id, ms);
    }
  }

  /** What the polls of one socket are given. */
  function PortionsOf(polls: seq<(nat, nat)>, i: nat): seq<nat> {
    if polls == [] then []
    else PortionsOf(polls[..|polls| - 1], i) + if polls[|polls| - 1].0 == i then [polls[|polls| - 1].1] else []
  }

  lemma MorePolls(polls: seq<(nat, nat)>, k: nat)
    requires k < |polls|
    ensures forall i: nat :: PortionsOf(polls[..k + 1], i) ==
                             if polls[k].0 == i then PortionsOf(polls[..k], i) + [polls[k].1] else PortionsOf(polls[..k], i)
  {
    assert polls[..k + 1][..k] == polls[..k];
  }

  /** How much of the stream of client i has arrived after the polls. */
  function Got<T>(codec: Codec<Numbered<T>>, capacity: nat, sent: seq<Numbered<T>>, polls: seq<(nat, nat)>, i: nat): (n: nat)
    requires 0 < codec.size
    ensures n <= |Encoded(codec, sent)|
  {
    Received(PortionsOf(polls, i), |Encoded(codec, sent)|, codec.size, capacity)
  }

  /** Client i is polled, each time for something, as often as its stream has bytes. */
  predicate PolledEnough(polls: seq<(nat, nat)>, i: nat, total: nat) {
    var portions := PortionsOf(polls, i);
    total <= |portions| && forall k :: 0 <= k < |portions| ==> 0 < portions[k]
  }

  /** With room for one message in the buffer everything arrives in the end. */
  lemma AllArrives<T>(codec: Codec<Numbered<T>>, capacity: nat, sent: seq<Numbered<T>>, polls: seq<(nat, nat)>, i: nat)
    requires 0 < codec.size <= capacity && PolledEnough(polls, i, |Encoded(codec, sent)|)
    ensures Got(codec, capacity, sent, polls, i) == |Encoded(codec, sent)|
  {
    EnoughPolls(PortionsOf(polls, i), |Encoded(codec, sent)|, codec.size, capacity);
  }

  lemma NothingGot<T>(codec: Codec<Numbered<T>>, capacity: nat, sent: seq<Numbered<T>>, i: nat)
    requires 0 < codec.size
    ensures Got(codec, capacity, sent, [], i) == 0
  {
  }

  lemma GotMore<T>(codec: Codec<Numbered<T>>, capacity: nat, sent: seq<seq<Numbered<T>>>, polls: seq<(nat, nat)>, k: nat)
    requires k < |polls| && 0 < codec.size
    ensures forall i: nat :: i < |sent| ==>
              var before := Got(codec, capacity, sent[i], polls[..k], i);
              Got(codec, capacity, sent[i], polls[..k + 1], i) ==
              if polls[k].0 == i
              then before + Portion(polls[k].1, |Encoded(codec, sent[i])| - before, capacity - Waiting(before, codec.size))
              else before
  {
    hide Encoded, Received, Waiting, PortionsOf, Portion;
    MorePolls(polls, k);
    forall i: nat | i < |sent|
      ensures var before := Got(codec, capacity, sent[i], polls[..k], i);
              Got(codec, capacity, sent[i], polls[..k + 1], i) ==
              if polls[k].0 == i
              then before + Portion(polls[k].1, |Encoded(codec, sent[i])| - before, capacity - Waiting(before, codec.size))
              else before
    {
      ReceivedMore(PortionsOf(polls[..k], i), polls[k].1, |Encoded(codec, sent[i])|, codec.size, capacity);
    }
  }

  /**
   * The server polls its sockets in any order, and each poll takes any portion of the socket's stream. At any time
   * what it has forwarded of a client is exactly what has arrived of the client's stream: a beginning of what the
   * client sent, in order and once, and all of it once all has arrived.
   */
  method ServeClients<T(!new)>(codec: Codec<Numbered<T>>, capacity: nat, sent: seq<seq<Numbered<T>>>, polls: seq<(nat, nat)>)
    returns (server: OrderServer<T>, got: seq<nat>)
    requires 0 < codec.size && |sent| <= ME_MAX_NUM_CLIENTS
    requires forall i :: 0 <= i < |sent| ==> Proper(codec, sent[i]) && InOrder(sent[i]) && AllOf(sent[i], i)
    requires forall p :: p in polls ==> p.0 < |sent|
    ensures |got| == |sent|
    ensures forall i :: 0 <= i < |sent| ==>
              && got[i] == Got(codec, capacity, sent[i], polls, i)
              && Of(server.forwarded, i) == Arrived(codec, sent[i], got[i])
              && Of(server.forwarded, i) <= sent[i]
              && (got[i] == |Encoded(codec, sent[i])| ==> Of(server.forwarded, i) == sent[i])
  {
    hide Encoded, Frames, Decoded, Rest, Admit, AdmitAll, AdmitStream, Of, From, InOrder, AllOf, Closed,
         OrderServer.State, TCPSocket.Buffered, TCPSocket.Valid, Arrived, Proper, Got, Portion, Waiting, Holds;
    server := new OrderServer(codec);
    var sockets := OpenSockets(|sent|, capacity);
    got := seq(|sent|, _ => 0);
    ghost var xs: seq<Incoming<T>> := [];
    assert server.State() == Closed();
    NobodyYet<T>(0);
    forall i | 0 <= i < |sent|
      ensures From<T>([], i) == Arrived(codec, sent[i], 0)
      ensures Got(codec, capacity, sent[i], [], i) == 0 && Holds(sockets[i], codec, sent[i], 0)
    {
      NothingGot(codec, capacity, sent[i], i);
      NobodyYet<T>(i);
      NothingArrived(codec, sent[i]);
      NothingHeld(sockets[i], codec, sent[i]);
    }
    assert polls[..0] == [];
    for k := 0 to |polls|
      invariant server.Valid() && server.codec == codec && fresh(server) && fresh(server.cidTcpSocket) && fresh(server.cidNextExpSeqNum)
      invariant |got| == |sent| == |sockets| && Separate(sockets)
      invariant forall i :: 0 <= i < |sockets| ==> fresh(sockets[i]) && fresh(sockets[i].rcvBuffer)
      invariant forall i :: 0 <= i < |sockets| ==>
                  sockets[i].rcvBuffer.Length == capacity && Holds(sockets[i], codec, sent[i], got[i])
      invariant forall i :: 0 <= i < |got| ==> got[i] == Got(codec, capacity, sent[i], polls[..k], i)
      invariant OwnSockets(xs) && server.State() == AdmitStream(xs)
      invariant forall i :: 0 <= i < |sent| ==> From(xs, i) == Arrived(codec, sent[i], got[i])
    {
      var (i, given) := polls[k];
      assert polls[k] in polls;
      GotMore(codec, capacity, sent, polls, k);
      var more;
      more, xs := Poll(server, sockets[i], Encoded(codec, sent[i]), got[i], given, sent[i], xs);
      got := got[i := got[i] + more];
    }
    assert polls[..|polls|] == polls;
    server.StateIs();
    forall i | 0 <= i < |sent|
      ensures Of(server.forwarded, i) == Arrived(codec, sent[i], got[i])
      ensures Of(server.forwarded, i) <= sent[i] && (got[i] == |Encoded(codec, sent[i])| ==> Of(server.forwarded, i) == sent[i])
    {
      ForwardedOf(codec, xs, sent[i], got[i], i);
    }
  }

  lemma ForwardedOf<T(!new)>(codec: Codec<Numbered<T>>, xs: seq<Incoming<T>>, sent: seq<Numbered<T>>, n: nat, client: nat)
    requires Proper(codec, sent) && InOrder(sent) && AllOf(sent, client) && n <= |Encoded(codec, sent)| && client < ME_MAX_NUM_CLIENTS
    requires OwnSockets(xs) && From(xs, client) == Arrived(codec, sent, n)
    ensures var through := Of(AdmitStream(xs).forwarded, client);
            through == From(xs, client) && through <= sent && (n == |Encoded(codec, sent)| ==> through == sent)
  {
    hide Encoded, Frames, Decoded, AdmitStream, Of, From;
    ArrivedSoFar(codec, sent, n, client);
    AllForwarded(xs, client, client);
  }

  ghost predicate Separate(sockets: seq<TCPSocket>) {
    && (forall i :: 0 <= i < |sockets| ==> sockets[i].id == i)
    && (forall i, j :: 0 <= i < j < |sockets| ==> sockets[i] != sockets[j] && sockets[i].rcvBuffer != sockets[j].rcvBuffer)
  }

  method OpenSockets(n: nat, capacity: nat) returns (sockets: seq<TCPSocket>)
    ensures |sockets| == n && Separate(sockets)
    ensures forall i :: 0 <= i < n ==>
              fresh(sockets[i]) && fresh(sockets[i].rcvBuffer) && sockets[i].rcvBuffer.Length == capacity
              && sockets[i].Valid() && sockets[i].Buffered() == []
  {
    sockets := [];
    for i := 0 to n
      invariant |sockets| == i && Separate(sockets)
      invariant forall j :: 0 <= j < i ==>
                  fresh(sockets[j]) && fresh(sockets[j].rcvBuffer) && sockets[j].rcvBuffer.Length == capacity
                  && sockets[j].Valid() && sockets[j].Buffered() == []
    {
      var socket := new TCPSocket(i, capacity);
      sockets := sockets + [socket];
    }
  }

  /** The requests of one client as its gateway numbers them. */
  function Outgoing<T>(client: nat, requests: seq<T>): seq<Numbered<T>> {
    seq(|requests|, k requires 0 <= k < |requests| => Numbered(1 + k, client, requests[k]))
  }

  /** From the gateways' requests to what the server forwards, over any portions and any interleaving of the clients. */
  method GatewaysToServer<T(!new), R>(codec: Codec<Numbered<T>>, replies: Codec<Numbered<R>>, capacity: nat,
                                      requests: seq<seq<T>>, polls: seq<(nat, nat)>)
    returns (server: OrderServer<T>, got: seq<nat>)
    requires 0 < codec.size && |requests| <= ME_MAX_NUM_CLIENTS
    requires forall i :: 0 <= i < |requests| ==> Proper(codec, Outgoing(i, requests[i]))
    requires forall p :: p in polls ==> p.0 < |requests|
    ensures |got| == |requests|
    ensures forall i :: 0 <= i < |requests| ==>
              && got[i] == Got(codec, capacity, Outgoing(i, requests[i]), polls, i)
              && Of(server.forwarded, i) <= Outgoing(i, requests[i])
              && (got[i] == |Encoded(codec, Outgoing(i, requests[i]))| ==> Of(server.forwarded, i) == Outgoing(i, requests[i]))
              && (codec.size <= capacity && PolledEnough(polls, i, |Encoded(codec, Outgoing(i, requests[i]))|) ==>
                    Of(server.forwarded, i) == Outgoing(i, requests[i]))
  {
    hide Encoded, Frames, Decoded, Got, Proper, PolledEnough;
    var sent: seq<seq<Numbered<T>>> := [];
    for i := 0 to |requests|
      invariant |sent| == i && forall j :: 0 <= j < i ==> sent[j] == Outgoing(j, requests[j])
    {
      var gateway := new OrderGateway<T, R>(i, replies);
      gateway.SendRequests(requests[i]);
      assert gateway.outgoing == Outgoing(i, requests[i]);
      sent := sent + [gateway.outgoing];
    }
    server, got := ServeClients(codec, capacity, sent, polls);
    forall i | 0 <= i < |sent| && codec.size <= capacity && PolledEnough(polls, i, |Encoded(codec, sent[i])|)
      ensures got[i] == |Encoded(codec, sent[i])|
    {
      AllArrives(codec, capacity, sent[i], polls, i);
    }
  }

  // ---- The whole way back ----

  function Bodies<R>(ms: seq<Numbered<R>>): seq<R> {
    seq(|ms|, k requires 0 <= k < |ms| => ms[k].body)
  }

  /** The responses to one client, in order. */
  function Answers<R>(responses: seq<(nat, R)>, client: nat): seq<R> {
    if responses == [] then []
    else
      Answers(responses[..|responses| - 1], client) +
      if responses[|responses| - 1].0 == client then [responses[|responses| - 1].1] else []
  }

  /** What the server sends is, for each client, the client's responses numbered from 1. */
  lemma {:induction false} SentOf<R>(responses: seq<(nat, R)>, sent: seq<Numbered<R>>, client: nat)
    requires |sent| == |responses|
    requires forall k :: 0 <= k < |sent| ==> sent[k].client == responses[k].0 && sent[k].body == responses[k].1
    ensures Bodies(Of(sent, client)) == Answers(responses, client) && AllOf(Of(sent, client), client)
    ensures InOrder(Of(sent, client)) ==> Of(sent, client) == Outgoing(client, Answers(responses, client))
    decreases |sent|
  {
    if sent != [] {
      var n := |sent| - 1;
      SentOf(responses[..n], sent[..n], client);
      assert Bodies(Of(sent, client)) == Answers(responses, client);
    }
    var ms := Of(sent, client);
    if InOrder(ms) {
      assert forall k :: 0 <= k < |ms| ==> ms[k] == Numbered(1 + k, client, Bodies(ms)[k]);
    }
  }

  /** A beginning of a numbered stream passes whole. */
  lemma StartPasses<R>(client: nat, ms: seq<Numbered<R>>)
    requires InOrder(ms) && AllOf(ms, client)
    ensures Passed(client, 1, ms) == Bodies(ms)
  {
    AllPass(client, ms);
  }

  lemma BodiesStart<R>(ms: seq<Numbered<R>>, all: seq<Numbered<R>>)
    requires ms <= all
    ensures Bodies(ms) <= Bodies(all)
  {
  }

  lemma BodiesOfOutgoing<R>(client: nat, bodies: seq<R>)
    ensures Bodies(Outgoing(client, bodies)) == bodies && InOrder(Outgoing(client, bodies)) && AllOf(Outgoing(client, bodies), client)
  {
  }

  /** One gateway reads its stream from the server in portions. */
  method ReadReplies<T, R(!new)>(codec: Codec<Numbered<R>>, capacity: nat, client: nat, replies: seq<R>, stream: seq<byte>,
                                 portions: seq<nat>)
    returns (gateway: OrderGateway<T, R>)
    requires Proper(codec, Outgoing(client, replies)) && stream == Encoded(codec, Outgoing(client, replies))
    ensures gateway.incoming <= replies
    ensures Received(portions, |stream|, codec.size, capacity) == |stream| ==> gateway.incoming == replies
  {
    hide Encoded, Frames, Decoded, Rest, Passed, Received, Outgoing, Bodies;
    ghost var sent := Outgoing(client, replies);
    BodiesOfOutgoing(client, replies);
    gateway := new OrderGateway(client, codec);
    var socket := new TCPSocket(client, capacity);
    var n := gateway.Listen(socket, stream, portions);
    ArrivedSoFar(codec, sent, n, client);
    ghost var got := Decoded(codec, Frames(stream[..n], codec.size));
    StartPasses(client, got);
    BodiesStart(got, sent);
  }

  /**
   * From the responses of the exchange to the clients' trade engines: the server numbers them per client, each
   * gateway cuts its stream, arriving in any portions, and filters it. A client gets a beginning of its responses, in
   * order and once, and all of them when it polls enough.
   */
  method ServerToGateways<T, R(!new)>(codec: Codec<Numbered<R>>, capacity: nat, responses: seq<(nat, R)>, portions: seq<seq<nat>>)
    returns (gateways: seq<OrderGateway<T, R>>)
    requires |portions| <= ME_MAX_NUM_CLIENTS && forall k :: 0 <= k < |responses| ==> responses[k].0 < ME_MAX_NUM_CLIENTS
    requires forall i :: 0 <= i < |portions| ==> Proper(codec, Outgoing(i, Answers(responses, i)))
    ensures |gateways| == |portions|
    ensures forall i :: 0 <= i < |portions| ==>
              && gateways[i].incoming <= Answers(responses, i)
              && var total := |Encoded(codec, Outgoing(i, Answers(responses, i)))|;
                 codec.size <= capacity && total <= |portions[i]| && (forall k :: 0 <= k < |portions[i]| ==> 0 < portions[i][k]) ==>
                   gateways[i].incoming == Answers(responses, i)
  {
    hide Encoded, Of, Answers, Outgoing, InOrder, Received, Proper;
    var sender := new ResponseSender<R>();
    sender.SendResponses(responses);
    ghost var all := sender.outgoing;
    gateways := [];
    for i := 0 to |portions|
      invariant |gateways| == i && sender.Valid() && sender.outgoing == all
      invariant forall j :: 0 <= j < i ==>
                  && gateways[j].incoming <= Answers(responses, j)
                  && var total := |Encoded(codec, Outgoing(j, Answers(responses, j)))|;
                     codec.size <= capacity && total <= |portions[j]| && (forall k :: 0 <= k < |portions[j]| ==> 0 < portions[j][k]) ==>
                       gateways[j].incoming == Answers(responses, j)
    {
      SentOf(responses, sender.outgoing, i);
      ProperSize(codec, Outgoing(i, Answers(responses, i)));
      var stream := Encoded(codec, Of(sender.outgoing, i));
      var gateway := ReadReplies<T, R>(codec, capacity, i, Answers(responses, i), stream, portions[i]);
      if codec.size <= capacity && |stream| <= |portions[i]| && forall k :: 0 <= k < |portions[i]| ==> 0 < portions[i][k] {
        EnoughPolls(portions[i], |stream|, codec.size, capacity);
      }
      gateways := gateways + [gateway];
    }
  }

  lemma ProperSize<M>(codec: Codec<M>, ms: seq<M>)
    requires Proper(codec, ms)
    ensures 0 < codec.size
  {
  }
}
