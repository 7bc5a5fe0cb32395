/** The pre-trade risk gate: five checks in order, the first failure decides. */
module Risk {
  import opened Types
  import opened Fix
  import opened RateLimit

  datatype Verdict =
    NONE | INVALID_PRICE | INVALID_QUANTITY | FAT_FINGER_SIZE | FAT_FINGER_NOTIONAL | PRICE_COLLAR | RATE_LIMIT

  datatype RiskConfig = RiskConfig(
    maxOrderQty: Quantity, maxNotional: int, collarBps: int, limits: Limits)

  datatype RiskStats = RiskStats(
    totalChecked: nat, totalPassed: nat, rejectInvalidPx: nat, rejectInvalidQty: nat,
    rejectFatFinger: nat, rejectNotional: nat, rejectCollar: nat, rejectRateLimit: nat)
  {
    /** Every checked order was passed or rejected, once. */
    predicate Balanced() {
      totalChecked == totalPassed + rejectInvalidPx + rejectInvalidQty + rejectFatFinger
                      + rejectNotional + rejectCollar + rejectRateLimit
    }

    function RecordReject(v: Verdict): RiskStats {
      match v
      case INVALID_PRICE => this.(rejectInvalidPx := rejectInvalidPx + 1)
      case INVALID_QUANTITY => this.(rejectInvalidQty := rejectInvalidQty + 1)
      case FAT_FINGER_SIZE => this.(rejectFatFinger := rejectFatFinger + 1)
      case FAT_FINGER_NOTIONAL => this.(rejectNotional := rejectNotional + 1)
      case PRICE_COLLAR => this.(rejectCollar := rejectCollar + 1)
      case RATE_LIMIT => this.(rejectRateLimit := rejectRateLimit + 1)
      case NONE => this
    }
  }

  // ---------- the checks that look only at the message ----------

  predicate IsMarket(msg: FixMessage) {
    msg.ordType == '1'
  }

  function CheckValidity(msg: FixMessage): Verdict {
    if msg.qty <= 0 then INVALID_QUANTITY
    else if !IsMarket(msg) && msg.price <= 0 then INVALID_PRICE
    else NONE
  }

  /** The quantity is cast to 32 bits before it is compared. */
  function CheckFatFingerSize(c: RiskConfig, msg: FixMessage): Verdict {
    if Wrap32(msg.qty) > c.maxOrderQty then FAT_FINGER_SIZE else NONE
  }

  function CheckNotional(c: RiskConfig, msg: FixMessage): Verdict {
    if IsMarket(msg) then NONE
    else if msg.price * msg.qty > c.maxNotional then FAT_FINGER_NOTIONAL
    else NONE
  }

  /** Midpoint, the one side there is, or nothing to compare with. */
  function Reference(bestBid: Price, bestAsk: Price): Option<Price> {
    if bestBid > 0 && bestAsk > 0 then Some((bestBid + bestAsk) / 2)
    else if bestBid > 0 then Some(bestBid)
    else if bestAsk > 0 then Some(bestAsk)
    else None
  }

  function CheckPriceCollar(c: RiskConfig, bestBid: Price, bestAsk: Price, msg: FixMessage): Verdict {
    if IsMarket(msg) then NONE
    else
      match Reference(bestBid, bestAsk)
      case None => NONE
      case Some(ref) =>
        var maxDeviation := TruncDiv(ref * c.collarBps, 10000);
        var deviation := if msg.price > ref then msg.price - ref else ref - msg.price;
        if deviation > maxDeviation then PRICE_COLLAR else NONE
  }

  /** The first failing check, cheapest first. */
  function StaticVerdict(c: RiskConfig, bestBid: Price, bestAsk: Price, msg: FixMessage): Verdict {
    if CheckValidity(msg) != NONE then CheckValidity(msg)
    else if CheckFatFingerSize(c, msg) != NONE then CheckFatFingerSize(c, msg)
    else if CheckNotional(c, msg) != NONE then CheckNotional(c, msg)
    else CheckPriceCollar(c, bestBid, bestAsk, msg)
  }

  // ---------- what the verdict means ----------

  /** A price within the collar around a reference, in exact arithmetic. A negative collar, which the code
      divides toward zero, still admits the reference itself as long as it is worth less than one unit. */
  predicate Near(c: RiskConfig, ref: Price, p: Price) {
    if c.collarBps >= 0 then 10000 * Abs(p - ref) <= ref * c.collarBps
    else p == ref && ref * -c.collarBps < 10000
  }

  /** The price is near the midpoint of the best bid and ask, or near the one there is; nothing is asked of
      it when there is neither. */
  predicate InCollar(c: RiskConfig, bestBid: Price, bestAsk: Price, p: Price) {
    && (bestBid > 0 && bestAsk > 0 ==> Near(c, (bestBid + bestAsk) / 2, p))
    && (bestBid > 0 && bestAsk <= 0 ==> Near(c, bestBid, p))
    && (bestBid <= 0 && bestAsk > 0 ==> Near(c, bestAsk, p))
  }

  predicate WellFormed(msg: FixMessage) {
    msg.qty > 0 && (msg.ordType != '1' ==> msg.price > 0)
  }

  predicate SizeOk(c: RiskConfig, msg: FixMessage) {
    msg.qty % TWO32 <= c.maxOrderQty
  }

  predicate NotionalOk(c: RiskConfig, msg: FixMessage) {
    msg.ordType != '1' ==> msg.price * msg.qty <= c.maxNotional
  }

  predicate PriceOk(c: RiskConfig, bestBid: Price, bestAsk: Price, msg: FixMessage) {
    msg.ordType != '1' ==> InCollar(c, bestBid, bestAsk, msg.price)
  }

  lemma CollarIsExact(x: int, d: nat)
    ensures d > TruncDiv(x, 10000) <==> if x >= 0 then 10000 * d > x else d > 0 || -x >= 10000
  {}

  lemma ProductSign(ref: int, bps: int)
    requires ref >= 0
    ensures bps >= 0 ==> ref * bps >= 0
    ensures bps < 0 ==> ref * bps <= 0 && ref * -bps == -(ref * bps)
  {}

  lemma NearIsExact(c: RiskConfig, ref: Price, p: Price)
    requires ref > 0
    ensures Near(c, ref, p) <==> Abs(p - ref) <= TruncDiv(ref * c.collarBps, 10000)
  {
    hide TruncDiv;
    ProductSign(ref, c.collarBps);
    CollarIsExact(ref * c.collarBps, Abs(p - ref));
  }

  lemma CollarVerdict(c: RiskConfig, bestBid: Price, bestAsk: Price, msg: FixMessage)
    ensures CheckPriceCollar(c, bestBid, bestAsk, msg)
         == if PriceOk(c, bestBid, bestAsk, msg) then NONE else PRICE_COLLAR
  {
    hide TruncDiv, Near;
    if bestBid > 0 && bestAsk > 0 {
      NearIsExact(c, (bestBid + bestAsk) / 2, msg.price);
    } else if bestBid > 0 {
      NearIsExact(c, bestBid, msg.price);
    } else if bestAsk > 0 {
      NearIsExact(c, bestAsk, msg.price);
    }
  }

  /** Which verdict a message gets before the limiter: that of the first limit it breaks. */
  lemma VerdictIs(c: RiskConfig, bestBid: Price, bestAsk: Price, msg: FixMessage)
    ensures StaticVerdict(c, bestBid, bestAsk, msg) ==
      if msg.qty <= 0 then INVALID_QUANTITY
      else if !WellFormed(msg) then INVALID_PRICE
      else if !SizeOk(c, msg) then FAT_FINGER_SIZE
      else if !NotionalOk(c, msg) then FAT_FINGER_NOTIONAL
      else if !PriceOk(c, bestBid, bestAsk, msg) then PRICE_COLLAR
      else NONE
  {
    hide CheckPriceCollar, PriceOk;
    CollarVerdict(c, bestBid, bestAsk, msg);
  }

  /** What the gate lets through: exactly the messages within every limit, with the collar read in
      exact arithmetic although the code divides, and the size limit on the truncated quantity. */
  lemma AcceptedIff(c: RiskConfig, bestBid: Price, bestAsk: Price, msg: FixMessage)
    ensures StaticVerdict(c, bestBid, bestAsk, msg) == NONE <==>
      && msg.qty > 0 && msg.qty % TWO32 <= c.maxOrderQty
      && (msg.ordType != '1' ==>
            && msg.price > 0 && msg.price * msg.qty <= c.maxNotional
            && InCollar(c, bestBid, bestAsk, msg.price))
  {
    hide StaticVerdict, InCollar;
    VerdictIs(c, bestBid, bestAsk, msg);
  }

  /** A collar at least as wide as half the spread, rounded up, passes every price from the best bid to the
      best ask. */
  lemma SpreadPasses(c: RiskConfig, bestBid: Price, bestAsk: Price, msg: FixMessage)
    requires WellFormed(msg) && SizeOk(c, msg) && NotionalOk(c, msg)
    requires 0 < bestBid <= msg.price <= bestAsk
    requires 10000 * ((bestAsk - bestBid + 1) / 2) <= (bestBid + bestAsk) / 2 * c.collarBps
    ensures StaticVerdict(c, bestBid, bestAsk, msg) == NONE
  {
    hide StaticVerdict;
    var mid := (bestBid + bestAsk) / 2;
    ProductSign(mid, c.collarBps);
    assert 10000 * Abs(msg.price - mid) <= 10000 * ((bestAsk - bestBid + 1) / 2);
    AcceptedIff(c, bestBid, bestAsk, msg);
  }

  // ---------- the gate ----------

  class RiskEngine {
    var config: RiskConfig
    var stats: RiskStats
    var bestBid: Price
    var bestAsk: Price
    var windowMsgCount: Quantity
    var windowStartNs: nat

    function CurrentWindow(): Window
      reads this
    {
      Window(windowStartNs, windowMsgCount)
    }

    constructor (config: RiskConfig)
      ensures this.config == config && stats.Balanced() && CurrentWindow() == Window(0, 0)
      ensures bestBid == 0 && bestAsk == 0
    {
      this.config := config;
      stats := RiskStats(0, 0, 0, 0, 0, 0, 0, 0);
      bestBid, bestAsk, windowMsgCount, windowStartNs := 0, 0, 0, 0;
    }

    method UpdateBBO(bid: Price, ask: Price)
      modifies this`bestBid, this`bestAsk
      ensures bestBid == bid && bestAsk == ask
    {
      bestBid, bestAsk := bid, ask;
    }

    method CheckRateLimit(nowNs: nat) returns (r: Verdict)
      modifies this`windowMsgCount, this`windowStartNs
      ensures CurrentWindow() == Count(config.limits, old(CurrentWindow()), nowNs)
      ensures r == if Passes(config.limits, old(CurrentWindow()), nowNs) then NONE else RATE_LIMIT
    {
      if (nowNs - windowStartNs) % TWO64 >= config.limits.windowNs {
        windowStartNs := nowNs;
        windowMsgCount := 0;
      }
      windowMsgCount := Wrap32(windowMsgCount + 1);
      r := if windowMsgCount > config.limits.maxMsgs then RATE_LIMIT else NONE;
    }

    /** The rate limiter counts a message exactly when all other checks let it pass; whatever the
        verdict, the counter of that verdict, and no other, records it. */
    method CheckOrder(msg: FixMessage, nowNs: nat) returns (r: Verdict)
      requires stats.Balanced()
      modifies this`stats, this`windowMsgCount, this`windowStartNs
      ensures stats.Balanced() && stats.totalChecked == old(stats.totalChecked) + 1
      ensures stats.totalPassed == old(stats.totalPassed) + if r == NONE then 1 else 0
      ensures stats.rejectInvalidPx == old(stats.rejectInvalidPx) + if r == INVALID_PRICE then 1 else 0
      ensures stats.rejectInvalidQty == old(stats.rejectInvalidQty) + if r == INVALID_QUANTITY then 1 else 0
      ensures stats.rejectFatFinger == old(stats.rejectFatFinger) + if r == FAT_FINGER_SIZE then 1 else 0
      ensures stats.rejectNotional == old(stats.rejectNotional) + if r == FAT_FINGER_NOTIONAL then 1 else 0
      ensures stats.rejectCollar == old(stats.rejectCollar) + if r == PRICE_COLLAR then 1 else 0
      ensures stats.rejectRateLimit == old(stats.rejectRateLimit) + if r == RATE_LIMIT then 1 else 0
      ensures var v := StaticVerdict(config, bestBid, bestAsk, msg); var w := old(CurrentWindow());
        if v != NONE then r == v && CurrentWindow() == w
        else CurrentWindow() == Count(config.limits, w, nowNs)
             && r == if Passes(config.limits, w, nowNs) then NONE else RATE_LIMIT
    {
      stats := stats.(totalChecked := stats.totalChecked + 1);
      r := CheckValidity(msg);
      if r != NONE {
        stats := stats.RecordReject(r);
        return;
      }
      r := CheckFatFingerSize(config, msg);
      if r != NONE {
        stats := stats.RecordReject(r);
        return;
      }
      r := CheckNotional(config, msg);
      if r != NONE {
        stats := stats.RecordReject(r);
        return;
      }
      r := CheckPriceCollar(config, bestBid, bestAsk, msg);
      if r != NONE {
        stats := stats.RecordReject(r);
        return;
      }
      r := CheckRateLimit(nowNs);
      if r != NONE {
        stats := stats.RecordReject(r);
        return;
      }
      stats := stats.(totalPassed := stats.totalPassed + 1);
    }
  }
}
