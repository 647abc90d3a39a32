/** Position and profit-and-loss bookkeeping, checked against a signed ledger over the reals. */
module PositionKeeping {
  import opened Types
  import opened RiskManagement
  import opened Matching

  /**
   * The reference: position, money received less money paid, what the open position cost at its average
   * opening price (negative for a short one), and the price it is marked at.
   */
  datatype Ledger = Ledger(position: int, cash: real, cost: real, mark: real)

  datatype Fill = Fill(side: Side, price: int, qty: nat)

  function Opening(): Ledger {
    Ledger(0, 0.0, 0.0, 0.0)
  }

  /** The fill is on the other side than the open position. */
  predicate Closes(l: Ledger, f: Fill) {
    f.side != INVALID && l.position * SideToValue(f.side) < 0
  }

  function MovedBy(f: Fill): int {
    f.qty * SideToValue(f.side)
  }

  /** The part of a cost that belongs to q of p. */
  function Share(cost: real, q: real, p: real): real
    requires p != 0.0
  {
    cost * q / p
  }

  /** Increases add their cost, reductions keep the average price, a flip opens the rest at the fill's price. */
  function Filled(l: Ledger, f: Fill): Ledger {
    var price := f.price as real;
    var position := l.position + MovedBy(f);
    var cost :=
      if !Closes(l, f) then l.cost + MovedBy(f) as real * price
      else if f.qty < Abs(l.position) then Share(l.cost, position as real, l.position as real)
      else position as real * price;
    Ledger(position, l.cash - MovedBy(f) as real * price, cost, price)
  }

  /** Quotes on both sides re-mark an open position at the mid price. */
  function Marked(l: Ledger, bid: int, ask: int): Ledger {
    if l.position != 0 && bid != Price_INVALID && ask != Price_INVALID then l.(mark := (bid + ask) as real * 0.5) else l
  }

  /**
   * What one fill does to position, cash and open cost: an increase adds what it costs, a reduction keeps the average,
   * a flip leaves the rest at the fill's price.
   */
  predicate FillBooked(l: Ledger, m: Ledger, f: Fill) {
    var n, price := Signed(f.side, f.qty), f.price as real;
    var open := if f.side == BUY then -l.position else l.position;
    && m.position == l.position + n
    && m.cash == l.cash - n as real * price && m.mark == price
    && (if open <= 0 then m.cost == l.cost + n as real * price
        else if f.qty < open then m.cost * l.position as real == l.cost * m.position as real
        else m.cost == m.position as real * price)
  }

  lemma FilledExactly(l: Ledger, f: Fill)
    requires f.side != INVALID
    ensures FillBooked(l, Filled(l, f), f)
  {
    if Closes(l, f) && f.qty < Abs(l.position) {
      ShareOf(l.cost, Filled(l, f).position as real, l.position as real);
      hide Share;
    }
  }

  lemma ShareOf(cost: real, q: real, p: real)
    requires p != 0.0
    ensures Share(cost, q, p) * p == cost * q
  {
  }

  /** What a position cost at one price throughout. */
  function CostAt(price: real, position: int): real {
    price * Abs(position) as real
  }

  /** The profit of closing against an average opening price. */
  function Gain(f: Fill, oldPosition: int, average: real): real {
    Min(f.qty, Abs(oldPosition)) as real * (average - f.price as real) * SideToValue(f.side) as real
  }

  predicate Flipped(position: int, oldPosition: int) {
    position * oldPosition < 0
  }

  /** The open cost stands on the side of the position, and realised profit is cash plus open cost. */
  predicate BookedAs(l: Ledger, position: int, openBuy: real, openSell: real, realPnl: real) {
    && position == l.position
    && openBuy == (if position > 0 then l.cost else 0.0)
    && openSell == (if position < 0 then -l.cost else 0.0)
    && (position == 0 ==> l.cost == 0.0)
    && realPnl == l.cash + l.cost
  }

  /** The average opening price survives a reduction. */
  lemma AverageKept(l: Ledger, f: Fill, average: real)
    requires Closes(l, f)
    requires average == (if l.position > 0 then l.cost else -l.cost) / Abs(l.position) as real
    ensures l.cost == average * l.position as real
    ensures f.qty < Abs(l.position) ==> Filled(l, f).cost == average * Filled(l, f).position as real
  {
  }

  /** What a reduction realises: the closed quantity times the distance of its price from the average. */
  lemma Realised(l: Ledger, f: Fill, average: real)
    requires Closes(l, f)
    requires l.cost == average * l.position as real
    requires f.qty < Abs(l.position) ==> Filled(l, f).cost == average * Filled(l, f).position as real
    ensures var m := Filled(l, f);
            && m.position == l.position + MovedBy(f)
            && (Abs(l.position) <= f.qty ==> m.cost == m.position as real * f.price as real)
            && m.cash + m.cost == l.cash + l.cost + Gain(f, l.position, average)
  {
  }

  /** `opp` and `own` are the open costs on the sides opposite to and of the fill. */
  predicate Standing(m: Ledger, f: Fill, opp: real, own: real) {
    var realPnl := m.cash + m.cost;
    if f.side == BUY then BookedAs(m, m.position, own, opp, realPnl) else BookedAs(m, m.position, opp, own, realPnl)
  }

  /** Where the open cost stands after a reduction: at the average on the old side, at the price after a flip. */
  lemma Reduced(l: Ledger, m: Ledger, f: Fill, average: real)
    requires Closes(l, f) && m.position == l.position + MovedBy(f)
    requires f.qty < Abs(l.position) ==> m.cost == average * m.position as real
    requires Abs(l.position) <= f.qty ==> m.cost == m.position as real * f.price as real
    ensures Flipped(m.position, l.position) ==> Standing(m, f, 0.0, CostAt(f.price as real, m.position))
    ensures !Flipped(m.position, l.position) ==> Standing(m, f, CostAt(average, m.position), 0.0)
  {
    assert Flipped(m.position, l.position) <==> f.qty > Abs(l.position);
  }

  class PositionInfo {
    var position: int
    var realPnl: real
    var unrealPnl: real
    var totalPnl: real
    const openVwap: array<real>   // by side index
    var volume: nat
    ghost var ledger: Ledger

    function OpenBuy(): real
      reads openVwap
      requires openVwap.Length == 3
    {
      openVwap[SideToIndex(BUY)]
    }

    function OpenSell(): real
      reads openVwap
      requires openVwap.Length == 3
    {
      openVwap[SideToIndex(SELL)]
    }

    /** The open cost stands on the side of the position; profit is realised cash plus open cost, in total marked value. */
    ghost predicate Valid()
      reads this, openVwap
    {
      && openVwap.Length == 3
      && BookedAs(ledger, position, OpenBuy(), OpenSell(), realPnl)
      && unrealPnl == position as real * ledger.mark - ledger.cost
      && totalPnl == ledger.cash + position as real * ledger.mark
    }

    constructor ()
      ensures Valid() && ledger == Opening() && volume == 0 && fresh(openVwap)
    {
      position, realPnl, unrealPnl, totalPnl, volume := 0, 0.0, 0.0, 0.0, 0;
      openVwap := new real[3](_ => 0.0);
      ledger := Opening();
    }

    /** Everything but the marks fits the ledger `l`. */
    ghost predicate Booked(l: Ledger)
      reads this`position, this`realPnl, openVwap
    {
      openVwap.Length == 3 && BookedAs(l, position, OpenBuy(), OpenSell(), realPnl)
    }

    /** The fill opens or increases a position. */
    method Increase(f: Fill)
      requires Booked(ledger) && f.side != INVALID && ledger.position * SideToValue(f.side) >= 0
      modifies this`position, openVwap
      ensures Booked(Filled(ledger, f))
    {
      position := position + MovedBy(f);
      openVwap[SideToIndex(f.side)] := openVwap[SideToIndex(f.side)] + f.price as real * f.qty as real;
    }

    /** The fill reduces a position, closes it, or flips it to the other sign. */
    method Decrease(f: Fill)
      requires Booked(ledger) && Closes(ledger, f)
      modifies this`position, this`realPnl, openVwap
      ensures Booked(Filled(ledger, f))
    {
      hide Filled, BookedAs, Flipped, Gain, CostAt, Closes, MovedBy;
      Decreases(f);
      var oldPosition := position;
      var sideIndex, oppSideIndex := SideToIndex(f.side), SideToIndex(Opposite(f.side));
      position := position + MovedBy(f);
      var oppSideVwap := openVwap[oppSideIndex] / Abs(oldPosition) as real;
      openVwap[oppSideIndex] := CostAt(oppSideVwap, position);
      realPnl := realPnl + Gain(f, oldPosition, oppSideVwap);
      if Flipped(position, oldPosition) {
        openVwap[sideIndex] := CostAt(f.price as real, position);
        openVwap[oppSideIndex] := 0.0;
      }
    }

    /** Every value Decrease computes, in terms of the ledger. */
    lemma Decreases(f: Fill)
      requires Booked(ledger) && Closes(ledger, f)
      ensures f.side != INVALID && position != 0 && openVwap[SideToIndex(f.side)] == 0.0
      ensures var average := openVwap[SideToIndex(Opposite(f.side))] / Abs(position) as real;
              var m := Filled(ledger, f);
              && m.position == position + MovedBy(f)
              && realPnl + Gain(f, position, average) == m.cash + m.cost
              && (Flipped(m.position, position) ==> Standing(m, f, 0.0, CostAt(f.price as real, m.position)))
              && (!Flipped(m.position, position) ==> Standing(m, f, CostAt(average, m.position), 0.0))
    {
      var average := openVwap[SideToIndex(Opposite(f.side))] / Abs(position) as real;
      AverageKept(ledger, f, average);
      Realised(ledger, f, average);
      Reduced(ledger, Filled(ledger, f), f, average);
    }

    /** Marks the open position at `price`. */
    method MarkAt(price: real)
      requires Booked(ledger)
      modifies this`unrealPnl, this`totalPnl
      ensures position != 0 ==> unrealPnl == position as real * price - ledger.cost
      ensures totalPnl == unrealPnl + realPnl && (position == 0 ==> unrealPnl == old(unrealPnl))
    {
      if position > 0 {
        unrealPnl := (price - openVwap[SideToIndex(BUY)] / Abs(position) as real) * Abs(position) as real;
      } else if position < 0 {
        unrealPnl := (openVwap[SideToIndex(SELL)] / Abs(position) as real - price) * Abs(position) as real;
      }
      totalPnl := unrealPnl + realPnl;
    }

    /** `addFill` */
    method AddFill(f: Fill)
      requires Valid() && f.side != INVALID
      modifies this, openVwap
      ensures Valid() && ledger == Filled(old(ledger), f) && volume == old(volume) + f.qty
      ensures FillBooked(old(ledger), ledger, f)
      ensures totalPnl == ledger.cash + position as real * f.price as real
      ensures unrealPnl == position as real * f.price as real - ledger.cost
    {
      hide Filled, FillBooked;
      FilledExactly(ledger, f);
      volume := volume + f.qty;
      if position * SideToValue(f.side) >= 0 {
        Increase(f);
      } else {
        Decrease(f);
      }
      ledger := Filled(ledger, f);
      if position == 0 {
        openVwap[SideToIndex(BUY)], openVwap[SideToIndex(SELL)] := 0.0, 0.0;
        unrealPnl := 0.0;
      }
      MarkAt(f.price as real);
      assert ledger.mark == f.price as real by { MarkOf(old(ledger), f); }
    }

    lemma MarkOf(l: Ledger, f: Fill)
      ensures Filled(l, f).mark == f.price as real
    {
    }

    /** `updateBBO`: with both quotes an open position is worth the mid price, otherwise nothing changes. */
    method UpdateBBO(bid: int, ask: int)
      requires Valid()
      modifies this`unrealPnl, this`totalPnl, this`ledger
      ensures Valid() && ledger == Marked(old(ledger), bid, ask)
      ensures ledger == old(ledger).(mark := ledger.mark)
      ensures position != 0 && bid != Price_INVALID && ask != Price_INVALID ==>
                && 2.0 * totalPnl == 2.0 * ledger.cash + position as real * (bid + ask) as real
                && 2.0 * unrealPnl == position as real * (bid + ask) as real - 2.0 * ledger.cost
      ensures position == 0 || bid == Price_INVALID || ask == Price_INVALID ==>
                ledger == old(ledger) && totalPnl == old(totalPnl) && unrealPnl == old(unrealPnl)
    {
      if position != 0 && bid != Price_INVALID && ask != Price_INVALID {
        MarkAt((bid + ask) as real * 0.5);
      }
      ledger := Marked(ledger, bid, ask);
    }
  }

  // ---- What the ledger means ----

  function LedgerOf(fills: seq<Fill>): Ledger {
    if fills == [] then Opening() else Filled(LedgerOf(fills[..|fills| - 1]), fills[|fills| - 1])
  }

  function Bought(fills: seq<Fill>): int {
    if fills == [] then 0
    else Bought(fills[..|fills| - 1]) + MovedBy(fills[|fills| - 1])
  }

  function Paid(fills: seq<Fill>): real {
    if fills == [] then 0.0
    else
      var f := fills[|fills| - 1];
      Paid(fills[..|fills| - 1]) + MovedBy(f) as real * f.price as real
  }

  lemma FilledSums(l: Ledger, f: Fill)
    ensures Filled(l, f).position == l.position + MovedBy(f)
    ensures Filled(l, f).cash == l.cash - MovedBy(f) as real * f.price as real
  {
    hide MovedBy, Closes;
  }

  /** Position and cash are the plain sums over all fills. */
  lemma {:induction false} LedgerSums(fills: seq<Fill>)
    ensures LedgerOf(fills).position == Bought(fills) && LedgerOf(fills).cash == -Paid(fills)
  {
    hide Filled, MovedBy;
    if fills != [] {
      LedgerSums(fills[..|fills| - 1]);
      FilledSums(LedgerOf(fills[..|fills| - 1]), fills[|fills| - 1]);
    }
  }

  /** The average opening price of `l` lies between two prices. */
  predicate AverageIn(l: Ledger, lo: real, hi: real) {
    if l.position > 0 then lo * l.position as real <= l.cost <= hi * l.position as real
    else if l.position < 0 then hi * l.position as real <= l.cost <= lo * l.position as real
    else l.cost == 0.0
  }

  /** The average opening price never leaves the range of the fills' prices. */
  lemma {:induction false} AverageBetween(fills: seq<Fill>, lo: int, hi: int)
    requires forall f :: f in fills ==> lo <= f.price <= hi && f.side != INVALID
    ensures AverageIn(LedgerOf(fills), lo as real, hi as real)
  {
    if fills != [] {
      AverageBetween(fills[..|fills| - 1], lo, hi);
      hide LedgerOf;
      FilledAverage(LedgerOf(fills[..|fills| - 1]), fills[|fills| - 1], lo as real, hi as real);
    }
  }

  lemma FilledAverage(l: Ledger, f: Fill, lo: real, hi: real)
    requires AverageIn(l, lo, hi) && lo <= f.price as real <= hi && f.side != INVALID
    ensures AverageIn(Filled(l, f), lo, hi)
  {
    if !Closes(l, f) {
      IncreasedAverage(l, f, lo, hi);
    } else if f.qty < Abs(l.position) {
      ReducedAverage(l, f, lo, hi);
    } else {
      Within(lo, f.price as real, hi, Abs(Filled(l, f).position) as real);
    }
  }

  lemma IncreaseBounds(lo: real, price: real, hi: real, p: real, q: real, cost: real)
    requires 0.0 <= q && lo <= price <= hi && lo * p <= cost <= hi * p
    ensures lo * (p + q) <= cost + q * price <= hi * (p + q)
  {
    Within(lo, price, hi, q);
    Distribute(p, q, lo);
    Distribute(p, q, hi);
  }

  lemma Negate(x: real, y: real)
    ensures x * -y == -(x * y) && -y * x == -(y * x)
  {
  }

  lemma IncreasedAverage(l: Ledger, f: Fill, lo: real, hi: real)
    requires AverageIn(l, lo, hi) && lo <= f.price as real <= hi && f.side != INVALID && !Closes(l, f)
    ensures AverageIn(Filled(l, f), lo, hi)
  {
    if f.side == BUY {
      IncreasedLong(l, f, lo, hi);
    } else {
      IncreasedShort(l, f, lo, hi);
    }
  }

  lemma IncreasedLong(l: Ledger, f: Fill, lo: real, hi: real)
    requires AverageIn(l, lo, hi) && lo <= f.price as real <= hi && f.side == BUY && 0 <= l.position
    ensures AverageIn(Filled(l, f), lo, hi)
  {
    var m, p, q := Filled(l, f), l.position as real, f.qty as real;
    assert m.cost == l.cost + q * f.price as real && m.position as real == p + q;
    assert lo * p <= l.cost <= hi * p;
    hide Filled;
    IncreaseBounds(lo, f.price as real, hi, p, q, l.cost);
  }

  lemma IncreasedShort(l: Ledger, f: Fill, lo: real, hi: real)
    requires AverageIn(l, lo, hi) && lo <= f.price as real <= hi && f.side == SELL && l.position <= 0
    ensures AverageIn(Filled(l, f), lo, hi)
  {
    var m, p, q := Filled(l, f), -(l.position as real), f.qty as real;
    Negate(f.price as real, q);
    assert m.cost == l.cost - q * f.price as real && m.position as real == -(p + q);
    Negate(lo, p);
    Negate(hi, p);
    assert lo * p <= -l.cost <= hi * p;
    hide Filled;
    IncreaseBounds(lo, f.price as real, hi, p, q, -l.cost);
    Negate(lo, p + q);
    Negate(hi, p + q);
  }

  lemma ReducedAverage(l: Ledger, f: Fill, lo: real, hi: real)
    requires AverageIn(l, lo, hi) && Closes(l, f) && f.qty < Abs(l.position)
    ensures AverageIn(Filled(l, f), lo, hi)
  {
    hide Filled, Closes, MovedBy, AverageIn;
    SameSide(l, f);
    var average := Average(l.cost, l.position as real);
    AverageBounds(l, average, lo, hi);
    ReducedCost(l, f, average);
    AverageAt(Filled(l, f), average, lo, hi);
  }

  /** A cost at one price within the bounds. */
  lemma AverageAt(m: Ledger, average: real, lo: real, hi: real)
    requires lo <= average <= hi && m.cost == average * m.position as real
    ensures AverageIn(m, lo, hi)
  {
    var n := Abs(m.position) as real;
    Within(lo, average, hi, n);
    Negate(average, n);
    Negate(lo, n);
    Negate(hi, n);
  }

  lemma Average(cost: real, p: real) returns (average: real)
    requires p != 0.0
    ensures average * p == cost
  {
    average := cost / p;
  }

  /** A reduction leaves the position on its side. */
  lemma SameSide(l: Ledger, f: Fill)
    requires Closes(l, f) && f.qty < Abs(l.position)
    ensures Filled(l, f).position > 0 <==> l.position > 0
    ensures Filled(l, f).position < 0 <==> l.position < 0
    ensures l.position != 0
  {
  }

  lemma Proportional(cost: real, average: real, p: real, q: real)
    requires p != 0.0 && average * p == cost
    ensures Share(cost, q, p) == average * q
  {
    Regroup(average, p, q);
    Cancel(average * q, p);
  }

  lemma Regroup(x: real, y: real, z: real)
    ensures x * y * z == x * z * y
  {
  }

  lemma Cancel(x: real, p: real)
    requires p != 0.0
    ensures x * p / p == x
  {
  }

  lemma AverageBounds(l: Ledger, average: real, lo: real, hi: real)
    requires AverageIn(l, lo, hi) && l.position != 0 && average * l.position as real == l.cost
    ensures lo <= average <= hi
  {
  }

  lemma Within(lo: real, x: real, hi: real, n: real)
    requires lo <= x <= hi && 0.0 <= n
    ensures lo * n <= x * n <= hi * n
  {
  }

  /** Two fills at one price count like one: partial fills, and the close inside a flip, change nothing. */
  lemma SplitFill(l: Ledger, side: Side, price: int, a: nat, b: nat)
    requires side != INVALID
    ensures Filled(Filled(l, Fill(side, price, a)), Fill(side, price, b)) == Filled(l, Fill(side, price, a + b))
  {
    var f, g, h := Fill(side, price, a), Fill(side, price, b), Fill(side, price, a + b);
    var m := Filled(l, f);
    assert MovedBy(h) == MovedBy(f) + MovedBy(g);
    FilledSums(l, f);
    FilledSums(m, g);
    FilledSums(l, h);
    SplitCost(l, f, g, h);
    hide MovedBy, Closes;
  }

  /** How a fill leaves the position relative to the side it is on. */
  lemma SignAfter(l: Ledger, f: Fill)
    requires f.side != INVALID
    ensures Abs(MovedBy(f)) == f.qty
    ensures !Closes(l, f) ==> !Closes(Filled(l, f), f)
    ensures Closes(l, f) && f.qty < Abs(l.position) ==> Closes(Filled(l, f), f) && Abs(Filled(l, f).position) == Abs(l.position) - f.qty
    ensures Closes(l, f) && Abs(l.position) <= f.qty ==> !Closes(Filled(l, f), f)
  {
    FilledSums(l, f);
    hide Filled;
  }

  lemma Distribute(x: real, y: real, p: real)
    ensures (x + y) * p == x * p + y * p
  {
  }

  /** The quantities behind two fills that count like one. */
  lemma SplitSigns(l: Ledger, f: Fill, g: Fill, h: Fill)
    requires f.side != INVALID && g == f.(qty := g.qty) && h == f.(qty := f.qty + g.qty)
    ensures MovedBy(h) == MovedBy(f) + MovedBy(g) && Closes(l, h) == Closes(l, f)
    ensures Closes(Filled(l, f), g) <==> Closes(l, f) && f.qty < Abs(l.position)
    ensures Closes(l, f) && f.qty < Abs(l.position) ==> Abs(Filled(l, f).position) == Abs(l.position) - f.qty
    ensures Filled(l, f).position == l.position + MovedBy(f)
  {
    SignAfter(l, f);
    FilledSums(l, f);
    hide Filled;
  }

  /** The cost of a reduced position, over plain reals. */
  lemma CostReduced(l: Ledger, f: Fill, p: real, q: real)
    requires Closes(l, f) && f.qty < Abs(l.position) && p == l.position as real && q == Filled(l, f).position as real
    ensures p != 0.0 && Filled(l, f).cost == Share(l.cost, q, p)
  {
    hide Share;
  }

  /** A reduction keeps whatever average the cost has. */
  lemma ReducedCost(l: Ledger, f: Fill, average: real)
    requires Closes(l, f) && f.qty < Abs(l.position) && average * l.position as real == l.cost
    ensures Filled(l, f).cost == average * Filled(l, f).position as real
  {
    var p, q := l.position as real, Filled(l, f).position as real;
    CostReduced(l, f, p, q);
    hide *;
    Proportional(l.cost, average, p, q);
  }

  lemma SplitReduction(l: Ledger, f: Fill, g: Fill, h: Fill)
    requires f.side != INVALID && g == f.(qty := g.qty) && h == f.(qty := f.qty + g.qty)
    requires Closes(l, f) && h.qty < Abs(l.position)
    ensures Filled(Filled(l, f), g).cost == Filled(l, h).cost
  {
    var m := Filled(l, f);
    SplitSigns(l, f, g, h);
    assert l.position != 0;
    hide MovedBy, Closes, Filled;
    var average := l.cost / l.position as real;
    ReducedCost(l, f, average);
    ReducedCost(l, h, average);
    ReducedCost(m, g, average);
    FilledSums(m, g);
    FilledSums(l, h);
  }

  lemma SplitIncrease(l: Ledger, f: Fill, g: Fill, h: Fill)
    requires f.side != INVALID && g == f.(qty := g.qty) && h == f.(qty := f.qty + g.qty) && !Closes(l, f)
    ensures Filled(Filled(l, f), g).cost == Filled(l, h).cost
  {
    SplitSigns(l, f, g, h);
    hide MovedBy, Closes;
    Distribute(MovedBy(f) as real, MovedBy(g) as real, f.price as real);
  }

  lemma SplitFlip(l: Ledger, f: Fill, g: Fill, h: Fill)
    requires f.side != INVALID && g == f.(qty := g.qty) && h == f.(qty := f.qty + g.qty)
    requires Closes(l, f) && Abs(l.position) <= h.qty
    ensures Filled(Filled(l, f), g).cost == Filled(l, h).cost
  {
    SplitSigns(l, f, g, h);
    hide MovedBy, Closes;
    Distribute(Filled(l, f).position as real, MovedBy(g) as real, f.price as real);
  }

  lemma SplitCost(l: Ledger, f: Fill, g: Fill, h: Fill)
    requires f.side != INVALID && g == f.(qty := g.qty) && h == f.(qty := f.qty + g.qty)
    ensures Filled(Filled(l, f), g).cost == Filled(l, h).cost
  {
    hide Filled, Closes, MovedBy;
    if !Closes(l, f) {
      SplitIncrease(l, f, g, h);
    } else if h.qty < Abs(l.position) {
      SplitReduction(l, f, g, h);
    } else {
      SplitFlip(l, f, g, h);
    }
  }
}
