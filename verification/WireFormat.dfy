/** The packed structs of the order channel, byte by byte, and that decoding undoes encoding them. */
module WireFormat {
  import opened Types
  import opened Framing
  import opened OrderServers

  /** The k lowest bytes of a number, lowest first. */
  function Bytes(n: nat, k: nat): (bs: seq<byte>)
    ensures |bs| == k
  {
    if k == 0 then [] else [n % 256] + Bytes(n / 256, k - 1)
  }

  function Number(bs: seq<byte>): nat {
    if bs == [] then 0 else bs[0] + 256 * Number(bs[1..])
  }

  /** How many numbers k bytes can hold. */
  function Range(k: nat): nat {
    if k == 0 then 1 else 256 * Range(k - 1)
  }

  lemma {:induction false} NumberOfBytes(n: nat, k: nat)
    requires n < Range(k)
    ensures Number(Bytes(n, k)) == n
    decreases k
  {
    if k > 0 {
      NumberOfBytes(n / 256, k - 1);
      assert Bytes(n, k)[1..] == Bytes(n / 256, k - 1);
    }
  }

  function Width(ws: seq<nat>): nat {
    if ws == [] then 0 else ws[0] + Width(ws[1..])
  }

  /** Fields one after the other, without padding. */
  function Packed(vs: seq<nat>, ws: seq<nat>): (bs: seq<byte>)
    requires |vs| == |ws|
    ensures |bs| == Width(ws)
    decreases |ws|
  {
    if ws == [] then [] else Bytes(vs[0], ws[0]) + Packed(vs[1..], ws[1..])
  }

  function Unpacked(bs: seq<byte>, ws: seq<nat>): (vs: seq<nat>)
    ensures |vs| == |ws|
    decreases |ws|
  {
    if ws == [] then []
    else if |bs| < ws[0] then [0] + Unpacked([], ws[1..])
    else [Number(bs[..ws[0]])] + Unpacked(bs[ws[0]..], ws[1..])
  }

  predicate Fit(vs: seq<nat>, ws: seq<nat>) {
    |vs| == |ws| && forall i :: 0 <= i < |vs| ==> vs[i] < Range(ws[i])
  }

  lemma {:induction false} PackedRoundTrip(vs: seq<nat>, ws: seq<nat>)
    requires Fit(vs, ws)
    ensures Unpacked(Packed(vs, ws), ws) == vs
    decreases |ws|
  {
    if ws != [] {
      var head, tail := Bytes(vs[0], ws[0]), Packed(vs[1..], ws[1..]);
      NumberOfBytes(vs[0], ws[0]);
      PackedRoundTrip(vs[1..], ws[1..]);
      assert (head + tail)[..ws[0]] == head && (head + tail)[ws[0]..] == tail;
    }
  }

  /** A number without its i lowest bytes. */
  function Shifted(n: nat, i: nat): nat {
    if i == 0 then n else Shifted(n / 256, i - 1)
  }

  /** The lowest byte comes first. */
  lemma {:induction false} ByteAt(n: nat, k: nat, i: nat)
    requires i < k
    ensures Bytes(n, k)[i] == Shifted(n, i) % 256
    decreases k
  {
    if i > 0 {
      ByteAt(n / 256, k - 1, i - 1);
    }
  }

  /** Where field j starts. */
  function Offset(ws: seq<nat>, j: nat): (n: nat)
    requires j <= |ws|
    ensures n <= Width(ws)
  {
    if j == 0 then 0 else ws[0] + Offset(ws[1..], j - 1)
  }

  /** Field j is all there is between its start and the start of the next. */
  lemma {:induction false} PackedAt(vs: seq<nat>, ws: seq<nat>, j: nat)
    requires |vs| == |ws| && j < |ws|
    ensures Offset(ws, j + 1) == Offset(ws, j) + ws[j]
    ensures Packed(vs, ws)[Offset(ws, j)..Offset(ws, j + 1)] == Bytes(vs[j], ws[j])
    decreases |ws|
  {
    hide Bytes;
    var head, tail := Bytes(vs[0], ws[0]), Packed(vs[1..], ws[1..]);
    if j > 0 {
      PackedAt(vs[1..], ws[1..], j - 1);
      Behind(head, tail, Offset(ws[1..], j - 1), Offset(ws[1..], j));
    } else {
      assert (head + tail)[0..ws[0]] == head;
    }
  }

  lemma Behind(head: seq<byte>, tail: seq<byte>, lo: nat, hi: nat)
    requires lo <= hi <= |tail|
    ensures (head + tail)[|head| + lo..|head| + hi] == tail[lo..hi]
  {
  }

  // ---- Fields of an enumeration or of a signed type ----

  function SideByte(side: Side): nat {
    match side
    case INVALID => 0
    case BUY => 1
    case SELL => 255
  }

  function ByteSide(n: nat): Side {
    if n == 1 then BUY else if n == 255 then SELL else INVALID
  }

  const WORD: nat := 0x1_0000_0000_0000_0000
  const HALF: nat := 0x8000_0000_0000_0000

  predicate IsPrice(price: int) {
    0 <= price + HALF && price < HALF
  }

  /** Two's complement in 64 bits. */
  function PriceWord(price: int): nat {
    if 0 <= price then price else if IsPrice(price) then price + WORD else 0
  }

  function WordPrice(n: nat): int {
    if n < HALF then n else n - WORD
  }

  // ---- Requests ----

  /** `seq_num_`, type, client, ticker, order id, side, price and quantity. */
  function RequestWidths(): seq<nat> {
    [8, 1, 8, 4, 8, 1, 8, 4]
  }

  function RequestFields(m: Numbered<Request>): seq<nat> {
    match m.body
    case New(client, ticker, oid, side, price, qty) =>
      [m.seqNum, 1, client, ticker, oid, SideByte(side), PriceWord(price), qty]
    case Cancel(client, ticker, oid) =>
      [m.seqNum, 2, client, ticker, oid, SideByte(INVALID), PriceWord(Price_INVALID), Qty_INVALID]
  }

  function RequestOf(vs: seq<nat>): Numbered<Request>
    requires |vs| == 8
  {
    Numbered(vs[0], vs[2],
             if vs[1] == 2 then Cancel(vs[2], vs[3], vs[4])
             else New(vs[2], vs[3], vs[4], ByteSide(vs[5]), WordPrice(vs[6]), vs[7]))
  }

  function RequestCodec(): Codec<Numbered<Request>> {
    Codec(Width(RequestWidths()),
          (m: Numbered<Request>) => Packed(RequestFields(m), RequestWidths()),
          bs => RequestOf(Unpacked(bs, RequestWidths())))
  }

  /** Every field is inside its type; the client is the request's own. */
  predicate RequestFits(m: Numbered<Request>) {
    && m.client == m.body.client && m.seqNum < WORD && m.client < WORD && m.body.ticker < 0x1_0000_0000 && m.body.oid < WORD
    && (m.body.New? ==> IsPrice(m.body.price) && m.body.qty < 0x1_0000_0000)
  }

  lemma Ranges()
    ensures Range(1) == 0x100 && Range(4) == 0x1_0000_0000 && Range(8) == WORD
  {
  }

  lemma PriceRoundTrip(price: int)
    requires IsPrice(price)
    ensures PriceWord(price) == price % WORD && WordPrice(PriceWord(price)) == price
  {
    if price < 0 {
      assert price == -1 * WORD + (price + WORD);
    }
  }

  lemma RequestRoundTrip(m: Numbered<Request>)
    requires RequestFits(m)
    ensures RequestOf(Unpacked(Packed(RequestFields(m), RequestWidths()), RequestWidths())) == m
  {
    Ranges();
    hide Range, Packed, Unpacked, PriceWord, WordPrice;
    PriceRoundTrip(if m.body.New? then m.body.price else Price_INVALID);
    PackedRoundTrip(RequestFields(m), RequestWidths());
  }

  /** The struct layout carries every request whose fields are inside their types. */
  lemma RequestsAreProper(ms: seq<Numbered<Request>>)
    requires forall m :: m in ms ==> RequestFits(m)
    ensures RequestCodec().size == 42 && Proper(RequestCodec(), ms)
  {
    hide Packed, Unpacked, RequestFits, RequestOf, RequestFields;
    assert Width(RequestWidths()) == 42 by { RequestSize(); }
    forall m | m in ms
      ensures RequestCodec().decode(RequestCodec().encode(m)) == m
    {
      RequestRoundTrip(m);
    }
  }

  lemma RequestSize()
    ensures Width(RequestWidths()) == 42
  {
    assert RequestWidths()[1..] == [1, 8, 4, 8, 1, 8, 4] && RequestWidths()[1..][1..] == [8, 4, 8, 1, 8, 4];
    assert Width([8, 4]) == 12 && Width([1, 8, 4]) == 13;
  }

  /** What a gateway sends of such requests of its client, while its sequence numbers last. */
  lemma OutgoingIsProper(client: nat, requests: seq<Request>)
    requires client < WORD && |requests| < WORD - 1
    requires forall r :: r in requests ==> r.client == client && RequestFits(Numbered(0, client, r))
    ensures Proper(RequestCodec(), Outgoing(client, requests))
  {
    hide RequestCodec, Proper;
    forall m | m in Outgoing(client, requests)
      ensures RequestFits(m)
    {
      var k :| 0 <= k < |requests| && m == Numbered(1 + k, client, requests[k]);
      assert requests[k] in requests && RequestFits(Numbered(0, client, requests[k]));
    }
    RequestsAreProper(Outgoing(client, requests));
  }

  lemma RequestOffsets()
    ensures var ws := RequestWidths();
            && Offset(ws, 0) == 0 && Offset(ws, 1) == 8 && Offset(ws, 2) == 9 && Offset(ws, 3) == 17 && Offset(ws, 4) == 21
            && Offset(ws, 5) == 29 && Offset(ws, 6) == 30 && Offset(ws, 7) == 38 && Offset(ws, 8) == 42 == Width(ws)
  {
    var ws := RequestWidths();
    RequestSize();
    assert Offset(ws, 0) == 0;
    hide Offset;
    forall j | 0 <= j < |ws|
      ensures Offset(ws, j + 1) == Offset(ws, j) + ws[j]
    {
      PackedAt(ws, ws, j);
    }
  }

  /** The fields of a request are at these places. */
  lemma RequestSlices(vs: seq<nat>)
    requires |vs| == 8
    ensures var bs := Packed(vs, RequestWidths());
            && |bs| == 42
            && bs[0..8] == Bytes(vs[0], 8) && bs[8..9] == Bytes(vs[1], 1) && bs[9..17] == Bytes(vs[2], 8)
            && bs[17..21] == Bytes(vs[3], 4) && bs[21..29] == Bytes(vs[4], 8) && bs[29..30] == Bytes(vs[5], 1)
            && bs[30..38] == Bytes(vs[6], 8) && bs[38..42] == Bytes(vs[7], 4)
  {
    hide Packed, Bytes, Offset;
    var ws := RequestWidths();
    RequestOffsets();
    PackedAt(vs, ws, 0);
    PackedAt(vs, ws, 1);
    PackedAt(vs, ws, 2);
    PackedAt(vs, ws, 3);
    PackedAt(vs, ws, 4);
    PackedAt(vs, ws, 5);
    PackedAt(vs, ws, 6);
    PackedAt(vs, ws, 7);
  }

  /** Every request on the wire: a new order says what it asks for, a cancel has the markers for no side, price and quantity. */
  lemma RequestLayout(m: Numbered<Request>)
    ensures var bs, r := RequestCodec().encode(m), m.body;
            && |bs| == 42
            && bs[0..8] == Bytes(m.seqNum, 8) && bs[9..17] == Bytes(r.client, 8)
            && bs[17..21] == Bytes(r.ticker, 4) && bs[21..29] == Bytes(r.oid, 8)
            && (r.New? ==>
                  && bs[8..9] == Bytes(1, 1) && bs[29..30] == Bytes(if r.side == BUY then 1 else if r.side == SELL then 255 else 0, 1)
                  && bs[30..38] == Bytes(PriceWord(r.price), 8) && bs[38..42] == Bytes(r.qty, 4))
            && (r.Cancel? ==>
                  && bs[8..9] == Bytes(2, 1) && bs[29..30] == Bytes(0, 1)
                  && bs[30..38] == Bytes(Price_INVALID, 8) && bs[38..42] == Bytes(Qty_INVALID, 4))
  {
    hide Packed, Bytes;
    RequestSlices(RequestFields(m));
  }

  // ---- Responses ----

  /** `seq_num_`, type, client, ticker, both order ids, side, price and both quantities. */
  function ResponseWidths(): seq<nat> {
    [8, 1, 8, 4, 8, 8, 1, 8, 4, 4]
  }

  function KindByte(kind: ResponseType): nat {
    match kind
    case ACCEPTED => 1
    case CANCELED => 2
    case FILLED => 3
    case CANCEL_REJECTED => 4
  }

  function ByteKind(n: nat): ResponseType {
    if n == 1 then ACCEPTED else if n == 2 then CANCELED else if n == 3 then FILLED else CANCEL_REJECTED
  }

  function ResponseFields(m: Numbered<ClientResponse>): seq<nat> {
    var r := m.body;
    [m.seqNum, KindByte(r.kind), r.client, r.ticker, r.clientOid, r.marketOid, SideByte(r.side), PriceWord(r.price),
     r.execQty, r.leavesQty]
  }

  function ResponseOf(vs: seq<nat>): Numbered<ClientResponse>
    requires |vs| == 10
  {
    Numbered(vs[0], vs[2],
             ClientResponse(ByteKind(vs[1]), vs[2], vs[3], vs[4], vs[5], ByteSide(vs[6]), WordPrice(vs[7]), vs[8], vs[9]))
  }

  function ResponseCodec(): Codec<Numbered<ClientResponse>> {
    Codec(Width(ResponseWidths()),
          (m: Numbered<ClientResponse>) => Packed(ResponseFields(m), ResponseWidths()),
          bs => ResponseOf(Unpacked(bs, ResponseWidths())))
  }

  predicate ResponseFits(m: Numbered<ClientResponse>) {
    var r := m.body;
    && m.client == r.client && m.seqNum < WORD && m.client < WORD && r.ticker < 0x1_0000_0000
    && r.clientOid < WORD && r.marketOid < WORD && IsPrice(r.price) && r.execQty < 0x1_0000_0000 && r.leavesQty < 0x1_0000_0000
  }

  lemma ResponseRoundTrip(m: Numbered<ClientResponse>)
    requires ResponseFits(m)
    ensures ResponseOf(Unpacked(Packed(ResponseFields(m), ResponseWidths()), ResponseWidths())) == m
  {
    Ranges();
    hide Range, Packed, Unpacked, PriceWord, WordPrice;
    PriceRoundTrip(m.body.price);
    PackedRoundTrip(ResponseFields(m), ResponseWidths());
  }

  /** The struct layout carries every response whose fields are inside their types. */
  lemma ResponsesAreProper(ms: seq<Numbered<ClientResponse>>)
    requires forall m :: m in ms ==> ResponseFits(m)
    ensures ResponseCodec().size == 54 && Proper(ResponseCodec(), ms)
  {
    hide Packed, Unpacked, ResponseFits, ResponseOf, ResponseFields;
    assert Width(ResponseWidths()) == 54 by { ResponseSize(); }
    forall m | m in ms
      ensures ResponseCodec().decode(ResponseCodec().encode(m)) == m
    {
      ResponseRoundTrip(m);
    }
  }

  lemma ResponseSize()
    ensures Width(ResponseWidths()) == 54
  {
    assert ResponseWidths()[1..] == [1, 8, 4, 8, 8, 1, 8, 4, 4] && ResponseWidths()[1..][1..] == [8, 4, 8, 8, 1, 8, 4, 4];
    assert Width([4]) == 4 && Width([4, 4]) == 8 && Width([8, 4, 4]) == 16 && Width([1, 8, 4, 4]) == 17;
    assert Width([8, 1, 8, 4, 4]) == 25 && Width([8, 8, 1, 8, 4, 4]) == 33;
  }

  lemma ResponseOffsets()
    ensures var ws := ResponseWidths();
            && Offset(ws, 0) == 0 && Offset(ws, 1) == 8 && Offset(ws, 2) == 9 && Offset(ws, 3) == 17 && Offset(ws, 4) == 21
            && Offset(ws, 5) == 29 && Offset(ws, 6) == 37 && Offset(ws, 7) == 38 && Offset(ws, 8) == 46 && Offset(ws, 9) == 50
            && Offset(ws, 10) == 54 == Width(ws)
  {
    var ws := ResponseWidths();
    ResponseSize();
    assert Offset(ws, 0) == 0;
    hide Offset;
    forall j | 0 <= j < |ws|
      ensures Offset(ws, j + 1) == Offset(ws, j) + ws[j]
    {
      PackedAt(ws, ws, j);
    }
  }

  lemma ResponseSlices(vs: seq<nat>)
    requires |vs| == 10
    ensures var bs := Packed(vs, ResponseWidths());
            && |bs| == 54
            && bs[0..8] == Bytes(vs[0], 8) && bs[8..9] == Bytes(vs[1], 1) && bs[9..17] == Bytes(vs[2], 8)
            && bs[17..21] == Bytes(vs[3], 4) && bs[21..29] == Bytes(vs[4], 8) && bs[29..37] == Bytes(vs[5], 8)
            && bs[37..38] == Bytes(vs[6], 1) && bs[38..46] == Bytes(vs[7], 8) && bs[46..50] == Bytes(vs[8], 4)
            && bs[50..54] == Bytes(vs[9], 4)
  {
    hide Packed, Bytes, Offset;
    var ws := ResponseWidths();
    ResponseOffsets();
    PackedAt(vs, ws, 0);
    PackedAt(vs, ws, 1);
    PackedAt(vs, ws, 2);
    PackedAt(vs, ws, 3);
    PackedAt(vs, ws, 4);
    PackedAt(vs, ws, 5);
    PackedAt(vs, ws, 6);
    PackedAt(vs, ws, 7);
    PackedAt(vs, ws, 8);
    PackedAt(vs, ws, 9);
  }

  /** Every response on the wire. */
  lemma ResponseLayout(m: Numbered<ClientResponse>)
    ensures var bs, r := ResponseCodec().encode(m), m.body;
            && |bs| == 54
            && bs[0..8] == Bytes(m.seqNum, 8)
            && bs[8..9] == Bytes(if r.kind == ACCEPTED then 1 else if r.kind == CANCELED then 2 else if r.kind == FILLED then 3 else 4, 1)
            && bs[9..17] == Bytes(r.client, 8) && bs[17..21] == Bytes(r.ticker, 4)
            && bs[21..29] == Bytes(r.clientOid, 8) && bs[29..37] == Bytes(r.marketOid, 8)
            && bs[37..38] == Bytes(if r.side == BUY then 1 else if r.side == SELL then 255 else 0, 1)
            && bs[38..46] == Bytes(PriceWord(r.price), 8) && bs[46..50] == Bytes(r.execQty, 4) && bs[50..54] == Bytes(r.leavesQty, 4)
  {
    hide Packed, Bytes, PriceWord;
    ResponseSlices(ResponseFields(m));
  }

  // ---- The order channel on these bytes ----

  /** Requests of client i whose fields are inside their types. */
  predicate Sendable(i: nat, requests: seq<Request>) {
    |requests| < WORD - 1 && forall r :: r in requests ==> r.client == i && RequestFits(Numbered(0, i, r))
  }

  /** From the clients' requests to what the server forwards, byte by byte. */
  method RequestsOverTheWire(capacity: nat, requests: seq<seq<Request>>, polls: seq<(nat, nat)>)
    returns (server: OrderServer<Request>, got: seq<nat>)
    requires |requests| <= ME_MAX_NUM_CLIENTS && forall p :: p in polls ==> p.0 < |requests|
    requires forall i :: 0 <= i < |requests| ==> Sendable(i, requests[i])
    ensures |got| == |requests|
    ensures forall i :: 0 <= i < |requests| ==>
              && Of(server.forwarded, i) <= Outgoing(i, requests[i])
              && (42 <= capacity && PolledEnough(polls, i, |Encoded(RequestCodec(), Outgoing(i, requests[i]))|) ==>
                    Of(server.forwarded, i) == Outgoing(i, requests[i]))
  {
    hide RequestFits, Proper, Encoded, PolledEnough, Of, Outgoing, RequestCodec, Got;
    RequestsAreProper([]);
    forall i | 0 <= i < |requests|
      ensures Proper(RequestCodec(), Outgoing(i, requests[i]))
    {
      OutgoingIsProper(i, requests[i]);
    }
    server, got := GatewaysToServer<Request, ClientResponse>(RequestCodec(), ResponseCodec(), capacity, requests, polls);
  }
}
