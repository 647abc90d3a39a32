/** The pre-trade risk check, with the 32-bit casts it makes. */
module RiskManagement {
  import opened Types

  datatype RiskCfg = RiskCfg(maxOrderSize: nat, maxPosition: nat, maxLoss: real)

  datatype RiskCheckResult = ORDER_TOO_LARGE | POSITION_TOO_LARGE | LOSS_TOO_LARGE | ALLOWED

  const INT32_MAX: int := 0x7FFF_FFFF

  /** `static_cast<int32_t>` */
  function ToInt32(n: int): int {
    var m := n % 0x1_0000_0000;
    if m <= INT32_MAX then m else m - 0x1_0000_0000
  }

  function Abs(n: int): nat {
    if n < 0 then -n else n
  }

  function CheckPreTradeRisk(cfg: RiskCfg, position: int, totalPnl: real, side: Side, qty: nat): RiskCheckResult {
    if qty > cfg.maxOrderSize then ORDER_TOO_LARGE
    else if Abs(ToInt32(position + SideToValue(side) * ToInt32(qty))) > ToInt32(cfg.maxPosition) then POSITION_TOO_LARGE
    else if totalPnl < cfg.maxLoss then LOSS_TOO_LARGE
    else ALLOWED
  }

  /** The limits leave room for the sum of a position and an order. */
  predicate CfgFits(cfg: RiskCfg) {
    cfg.maxPosition + cfg.maxOrderSize <= INT32_MAX
  }

  /** What a quantity traded on a side adds to a position. */
  function Signed(side: Side, qty: nat): int {
    match side
    case BUY => qty as int
    case SELL => -(qty as int)
    case INVALID => 0
  }

  /** The three limits: on the order, on the position if the order fills completely, and on the loss so far. */
  predicate Permitted(cfg: RiskCfg, position: int, totalPnl: real, side: Side, qty: nat) {
    && qty <= cfg.maxOrderSize
    && position + Signed(side, qty) <= cfg.maxPosition && -(position + Signed(side, qty)) <= cfg.maxPosition
    && cfg.maxLoss <= totalPnl
  }

  /** With such limits the casts and the sum are exact, and the answer is the first limit that the order breaks. */
  lemma AllowedExactly(cfg: RiskCfg, position: int, totalPnl: real, side: Side, qty: nat)
    requires CfgFits(cfg) && Abs(position) <= cfg.maxPosition
    ensures var answer := CheckPreTradeRisk(cfg, position, totalPnl, side, qty);
            && (answer == ALLOWED <==> Permitted(cfg, position, totalPnl, side, qty))
            && (answer == ORDER_TOO_LARGE <==> cfg.maxOrderSize < qty)
            && (answer == POSITION_TOO_LARGE <==> qty <= cfg.maxOrderSize && cfg.maxPosition < Abs(position + Signed(side, qty)))
  {
    hide ToInt32;
    ToInt32Exact(cfg.maxPosition);
    if qty <= cfg.maxOrderSize {
      ToInt32Exact(qty);
      ToInt32Exact(position + SideToValue(side) * qty);
    }
  }

  lemma ToInt32Exact(n: int)
    requires -INT32_MAX - 1 <= n <= INT32_MAX
    ensures ToInt32(n) == n
  {
    if n < 0 {
      assert n % 0x1_0000_0000 == n + 0x1_0000_0000;
    }
  }

  /** The cast keeps the value modulo 2^32 and brings it into the range of a signed 32-bit number. */
  lemma ToInt32Wraps(n: int)
    ensures -INT32_MAX - 1 <= ToInt32(n) <= INT32_MAX && (n - ToInt32(n)) % 0x1_0000_0000 == 0
  {
    var q, m := n / 0x1_0000_0000, n % 0x1_0000_0000;
    assert n - ToInt32(n) == (if m <= INT32_MAX then q else q + 1) * 0x1_0000_0000;
  }

  /** A position limit that a signed 32-bit number cannot hold refuses every order. */
  lemma HugeLimitRefuses(cfg: RiskCfg, position: int, totalPnl: real, side: Side, qty: nat)
    requires INT32_MAX < cfg.maxPosition < 0x1_0000_0000 && qty <= cfg.maxOrderSize
    ensures CheckPreTradeRisk(cfg, position, totalPnl, side, qty) == POSITION_TOO_LARGE
  {
    assert ToInt32(cfg.maxPosition) < 0;
  }
}
