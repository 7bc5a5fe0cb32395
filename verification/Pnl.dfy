/** Average-cost accounting against plain cash flow, over exact reals. */
module Pnl {
  import opened Types

  /** `netPosition`, `realizedPnl`, `avgEntryPrice`. */
  datatype Account = Account(position: int, realized: real, avgEntry: real)

  /** A signed fill: positive bought, negative sold. */
  datatype Fill = Fill(qty: int, price: real)

  /** `updatePosition`. */
  function Update(a: Account, f: Fill): Account {
    if a.position == 0 then a.(position := f.qty, avgEntry := f.price)
    else if (a.position > 0 && f.qty > 0) || (a.position < 0 && f.qty < 0) then
      var totalCost := a.avgEntry * Abs(a.position) as real + f.price * Abs(f.qty) as real;
      a.(position := a.position + f.qty, avgEntry := totalCost / Abs(a.position + f.qty) as real)
    else
      var p := a.position + f.qty;
      var flipped := (a.position > 0 && p < 0) || (a.position < 0 && p > 0);
      Account(p, a.realized + Gain(a, f), if p == 0 then 0.0 else if flipped then f.price else a.avgEntry)
  }

  /** What closing against a fill realizes. */
  function Gain(a: Account, f: Fill): real {
    var closeQty := Min(Abs(f.qty), Abs(a.position)) as real;
    if a.position > 0 then closeQty * (f.price - a.avgEntry) else closeQty * (a.avgEntry - f.price)
  }

  /** `computeUnrealizedPnl`, with the mark already in dollars. */
  function Unrealized(a: Account, mark: real): real {
    if a.position == 0 then 0.0
    else if a.position > 0 then a.position as real * (mark - a.avgEntry)
    else Abs(a.position) as real * (a.avgEntry - mark)
  }

  function UpdateAll(a: Account, fills: seq<Fill>): Account
    decreases |fills|
  {
    if fills == [] then a else UpdateAll(Update(a, fills[0]), fills[1..])
  }

  const FLAT := Account(0, 0.0, 0.0)

  // ---------- the independent account: what was paid and what it is worth ----------

  /** Worth of the fills at a mark, less what was paid for them. */
  function MarkToMarket(fills: seq<Fill>, mark: real): real {
    if fills == [] then 0.0 else fills[0].qty as real * (mark - fills[0].price) + MarkToMarket(fills[1..], mark)
  }

  function NetQty(fills: seq<Fill>): int {
    if fills == [] then 0 else fills[0].qty + NetQty(fills[1..])
  }

  /** Realized plus unrealized. */
  function Total(a: Account, mark: real): real {
    a.realized + Unrealized(a, mark)
  }

  lemma UnrealizedIsLinear(a: Account, mark: real)
    ensures Unrealized(a, mark) == a.position as real * (mark - a.avgEntry)
  {
    if a.position < 0 {
      assert Abs(a.position) as real == -(a.position as real);
    }
  }

  lemma WeightedAverage(p: real, q: real, avg: real, price: real)
    requires p + q != 0.0
    ensures (p + q) * ((avg * p + price * q) / (p + q)) == avg * p + price * q
  {}

  lemma Adding(a: Account, f: Fill)
    requires (a.position > 0 && f.qty > 0) || (a.position < 0 && f.qty < 0)
    ensures var b := Update(a, f);
      b.position as real * b.avgEntry == a.position as real * a.avgEntry + f.qty as real * f.price
  {
    var p, q := a.position as real, f.qty as real;
    var sign := if a.position > 0 then 1.0 else -1.0;
    assert Abs(a.position) as real == sign * p && Abs(f.qty) as real == sign * q;
    assert Abs(a.position + f.qty) as real == sign * (p + q);
    WeightedAverage(sign * p, sign * q, a.avgEntry, f.price);
    assert sign * p + sign * q == sign * (p + q);
  }

  /** One fill moves the total by exactly its own mark-to-market: adding to, reducing, closing or
      flipping the position. */
  lemma UpdateTotal(a: Account, f: Fill, mark: real)
    ensures Total(Update(a, f), mark) == Total(a, mark) + f.qty as real * (mark - f.price)
    ensures Update(a, f).position == a.position + f.qty
  {
    hide Gain, Unrealized;
    var b := Update(a, f);
    UnrealizedIsLinear(a, mark);
    UnrealizedIsLinear(b, mark);
    if a.position == 0 {
    } else if (a.position > 0 && f.qty > 0) || (a.position < 0 && f.qty < 0) {
      Adding(a, f);
      Expand(a, mark);
      Expand(b, mark);
      ExpandFill(f, mark);
    } else if f.qty == -a.position {
      Flattening(a, f, mark);
    } else if Abs(f.qty) < Abs(a.position) {
      Reducing(a, f, mark);
    } else {
      Flipping(a, f, mark);
    }
  }

  lemma ExpandFill(f: Fill, mark: real)
    ensures f.qty as real * (mark - f.price) == f.qty as real * mark - f.qty as real * f.price
  {}

  lemma Expand(a: Account, mark: real)
    ensures a.position as real * (mark - a.avgEntry) == a.position as real * mark - a.position as real * a.avgEntry
  {}

  lemma Negated(x: real, y: real)
    ensures (-x) * y == -(x * y) == x * (-y)
  {}

  /** Closing a part of the position realizes that part at the difference of prices. */
  lemma GainOfPart(a: Account, f: Fill)
    requires (a.position > 0 && f.qty <= 0 && -f.qty <= a.position) || (a.position < 0 && 0 <= f.qty <= -a.position)
    ensures Gain(a, f) == -(f.qty as real * (f.price - a.avgEntry))
  {
    var q, d := f.qty as real, f.price - a.avgEntry;
    Negated(q, d);
    assert Min(Abs(f.qty), Abs(a.position)) as real == if a.position > 0 then -q else q;
    assert a.avgEntry - f.price == -d;
  }

  /** Closing all of it realizes all of it. */
  lemma GainOfAll(a: Account, f: Fill)
    requires (a.position > 0 && a.position <= -f.qty) || (a.position < 0 && -a.position <= f.qty)
    ensures Gain(a, f) == a.position as real * (f.price - a.avgEntry)
  {
    var p, d := a.position as real, f.price - a.avgEntry;
    Negated(p, d);
    assert Min(Abs(f.qty), Abs(a.position)) as real == if a.position > 0 then p else -p;
    assert a.avgEntry - f.price == -d;
  }

  /** What closing, reducing and flipping amount to. */
  predicate Closes(a: Account, f: Fill, mark: real) {
    var b := Update(a, f); var p, q := a.position as real, f.qty as real;
    b.realized + b.position as real * (mark - b.avgEntry) == a.realized + p * (mark - a.avgEntry) + q * (mark - f.price)
  }

  lemma Reducing(a: Account, f: Fill, mark: real)
    requires (a.position > 0 && f.qty <= 0 && -f.qty < a.position) || (a.position < 0 && 0 <= f.qty < -a.position)
    ensures Closes(a, f, mark)
  {
    hide Gain;
    var p, q := a.position as real, f.qty as real;
    GainOfPart(a, f);
    assert Update(a, f) == Account(a.position + f.qty, a.realized + Gain(a, f), a.avgEntry);
    assert (a.position + f.qty) as real == p + q;
    Shift(p, q, mark, a.avgEntry, f.price);
  }

  lemma Flattening(a: Account, f: Fill, mark: real)
    requires a.position != 0 && f.qty == -a.position
    ensures Closes(a, f, mark)
  {
    hide Gain;
    var p, q := a.position as real, f.qty as real;
    GainOfAll(a, f);
    assert Update(a, f) == Account(0, a.realized + Gain(a, f), 0.0);
    assert q == -p;
    Shift(q, p, mark, f.price, a.avgEntry);
  }

  lemma Flipping(a: Account, f: Fill, mark: real)
    requires (a.position > 0 && a.position < -f.qty) || (a.position < 0 && -a.position < f.qty)
    ensures Closes(a, f, mark)
  {
    hide Gain;
    var p, q := a.position as real, f.qty as real;
    GainOfAll(a, f);
    assert Update(a, f) == Account(a.position + f.qty, a.realized + Gain(a, f), f.price);
    assert (a.position + f.qty) as real == q + p;
    Shift(q, p, mark, f.price, a.avgEntry);
  }

  lemma Shift(p: real, q: real, mark: real, x: real, y: real)
    ensures (p + q) * (mark - x) - q * (y - x) == p * (mark - x) + q * (mark - y)
  {}

  /** Accounting equivalence: for every sequence of fills and every mark, average-cost realized plus
      unrealized PnL is the plain mark-to-market of the fills. */
  lemma {:induction false} AccountingAgrees(a: Account, fills: seq<Fill>, mark: real)
    ensures Total(UpdateAll(a, fills), mark) == Total(a, mark) + MarkToMarket(fills, mark)
    ensures UpdateAll(a, fills).position == a.position + NetQty(fills)
    decreases |fills|
  {
    hide Update, Total;
    if fills != [] {
      UpdateTotal(a, fills[0], mark);
      AccountingAgrees(Update(a, fills[0]), fills[1..], mark);
    }
  }

  lemma {:induction false} MarkToMarketTakeOut(fills: seq<Fill>, i: nat, mark: real)
    requires i < |fills|
    ensures MarkToMarket(fills, mark)
         == fills[i].qty as real * (mark - fills[i].price) + MarkToMarket(fills[..i] + fills[i + 1..], mark)
    ensures NetQty(fills) == fills[i].qty + NetQty(fills[..i] + fills[i + 1..])
  {
    var rest := fills[..i] + fills[i + 1..];
    if i == 0 {
      assert rest == fills[1..];
    } else {
      MarkToMarketTakeOut(fills[1..], i - 1, mark);
      assert rest[1..] == fills[1..][..i - 1] + fills[1..][i..];
    }
  }

  lemma TakeOut(fs: seq<Fill>, i: nat)
    requires i < |fs|
    ensures multiset(fs[..i] + fs[i + 1..]) == multiset(fs) - multiset{fs[i]}
  {
    assert fs == fs[..i] + [fs[i]] + fs[i + 1..];
  }

  lemma Pair(fs: seq<Fill>, gs: seq<Fill>) returns (i: nat)
    requires multiset(fs) == multiset(gs) && fs != []
    ensures i < |gs| && gs[i] == fs[0] && multiset(fs[1..]) == multiset(gs[..i] + gs[i + 1..])
  {
    WithoutFirst(fs);
    i := Position(gs, fs[0]);
    TakeOut(gs, i);
  }

  lemma WithoutFirst(fs: seq<Fill>)
    requires fs != []
    ensures fs[0] in multiset(fs) && multiset(fs[1..]) == multiset(fs) - multiset{fs[0]}
  {
    assert fs == [fs[0]] + fs[1..];
  }

  lemma Position(gs: seq<Fill>, f: Fill) returns (i: nat)
    requires f in multiset(gs)
    ensures i < |gs| && gs[i] == f
  {
    i :| 0 <= i < |gs| && gs[i] == f;
  }

  lemma {:induction false} SameFillsSameWorth(fs: seq<Fill>, gs: seq<Fill>, mark: real)
    requires multiset(fs) == multiset(gs)
    ensures MarkToMarket(fs, mark) == MarkToMarket(gs, mark) && NetQty(fs) == NetQty(gs)
    decreases |fs|
  {
    if fs == [] {
      assert |gs| == |multiset(gs)| == 0;
    } else {
      var i := Pair(fs, gs);
      MarkToMarketTakeOut(gs, i, mark);
      SameFillsSameWorth(fs[1..], gs[..i] + gs[i + 1..], mark);
    }
  }

  /** Total PnL and position do not depend on the order of the fills. */
  lemma FillOrderIrrelevant(fs: seq<Fill>, gs: seq<Fill>, mark: real)
    requires multiset(fs) == multiset(gs)
    ensures Total(UpdateAll(FLAT, fs), mark) == Total(UpdateAll(FLAT, gs), mark)
    ensures UpdateAll(FLAT, fs).position == UpdateAll(FLAT, gs).position
  {
    AccountingAgrees(FLAT, fs, mark);
    AccountingAgrees(FLAT, gs, mark);
    SameFillsSameWorth(fs, gs, mark);
  }

  // ---------- average cost: what is realized, and at which cost ----------

  /** What a fill of `q` closes of a position of `p`, with the sign of the fill; the rest of it opens. */
  function Closed(p: int, q: int): int {
    if p > 0 && q < 0 then (if q < -p then -p else q)
    else if p < 0 && q > 0 then (if q > -p then -p else q)
    else 0
  }

  /** One fill at average cost: the part that closes leaves the position at the average and realizes the
      difference of prices, the part that opens joins it at the price of the fill. */
  predicate AtAverageCost(a: Account, f: Fill, b: Account) {
    var closed := Closed(a.position, f.qty);
    && b.position == a.position + f.qty
    && b.realized == a.realized + (-closed) as real * (f.price - a.avgEntry)
    && (b.position != 0 ==>
          b.position as real * b.avgEntry
          == (a.position + closed) as real * a.avgEntry + (f.qty - closed) as real * f.price)
  }

  lemma FlatUpdate(a: Account, f: Fill)
    requires a.position == 0
    ensures AtAverageCost(a, f, Update(a, f))
  {}

  lemma AddingCost(a: Account, f: Fill)
    requires (a.position > 0 && f.qty > 0) || (a.position < 0 && f.qty < 0)
    ensures AtAverageCost(a, f, Update(a, f))
  {
    Adding(a, f);
  }

  lemma ClosingCost(a: Account, f: Fill)
    requires (a.position > 0 && f.qty <= 0) || (a.position < 0 && f.qty >= 0)
    ensures AtAverageCost(a, f, Update(a, f))
  {
    hide Gain;
    var q, p, d := f.qty as real, a.position as real, f.price - a.avgEntry;
    if (a.position > 0 && -f.qty <= a.position) || (a.position < 0 && f.qty <= -a.position) {
      GainOfPart(a, f);
      assert Closed(a.position, f.qty) == f.qty && (-f.qty) as real == -q;
      Negated(q, d);
    } else {
      GainOfAll(a, f);
      assert Closed(a.position, f.qty) == -a.position;
    }
  }

  lemma UpdateAtAverageCost(a: Account, f: Fill)
    ensures AtAverageCost(a, f, Update(a, f))
  {
    hide Update, AtAverageCost;
    if a.position == 0 {
      FlatUpdate(a, f);
    } else if (a.position > 0 && f.qty > 0) || (a.position < 0 && f.qty < 0) {
      AddingCost(a, f);
    } else {
      ClosingCost(a, f);
    }
  }

  /** What each kind of fill does: opening or adding realizes nothing and averages the cost; closing a part
      leaves the average and realizes that part at the difference of prices; closing all realizes all; and
      flipping starts anew at the price of the fill. */
  lemma WhatFillsDo(a: Account, f: Fill)
    ensures var b := Update(a, f); var p, q := a.position, f.qty;
      && (p == 0 ==> b.realized == a.realized && b.avgEntry == f.price)
      && ((p > 0 && q > 0) || (p < 0 && q < 0) ==>
            b.realized == a.realized
            && b.avgEntry == (p as real * a.avgEntry + q as real * f.price) / (p + q) as real)
      && ((p > 0 && -p < q <= 0) || (p < 0 && 0 <= q < -p) ==>
            b.avgEntry == a.avgEntry && b.realized == a.realized + (-q) as real * (f.price - a.avgEntry))
      && (p != 0 && q == -p ==>
            b.avgEntry == 0.0 && b.realized == a.realized + p as real * (f.price - a.avgEntry))
      && ((p > 0 && q < -p) || (p < 0 && q > -p) ==>
            b.avgEntry == f.price && b.realized == a.realized + p as real * (f.price - a.avgEntry))
  {
    hide Gain;
    UpdateAtAverageCost(a, f);
    var b := Update(a, f);
    if (a.position > 0 && f.qty > 0) || (a.position < 0 && f.qty < 0) {
      Quotient((a.position + f.qty) as real, b.avgEntry, a.position as real * a.avgEntry + f.qty as real * f.price);
    }
  }

  lemma Quotient(n: real, x: real, y: real)
    requires n != 0.0 && n * x == y
    ensures x == y / n
  {}

  /** Cost of what is open after a sequence of fills that starts from account `a`: every fill takes its
      closed part out at the average of what was open, and puts the rest in at its own price. */
  function Cost(a: Account, fills: seq<Fill>): real
    decreases |fills|, 0
  {
    if fills == [] then a.position as real * a.avgEntry
    else
      var k := |fills| - 1;
      var p := a.position + NetQty(fills[..k]);
      var closed := Closed(p, fills[k].qty);
      (p + closed) as real * Average(a, fills[..k]) + (fills[k].qty - closed) as real * fills[k].price
  }

  function Average(a: Account, fills: seq<Fill>): real
    decreases |fills|, 1
  {
    var p := a.position + NetQty(fills);
    if p == 0 then 0.0 else Cost(a, fills) / p as real
  }

  /** The sum over the closed quantities of what they were closed at less what they had cost. */
  function RealizedBy(a: Account, fills: seq<Fill>): real
    decreases |fills|
  {
    if fills == [] then 0.0
    else
      var k := |fills| - 1;
      var closed := Closed(a.position + NetQty(fills[..k]), fills[k].qty);
      RealizedBy(a, fills[..k]) + (-closed) as real * (fills[k].price - Average(a, fills[..k]))
  }

  lemma {:induction false} UpdateAllConcat(a: Account, fs: seq<Fill>, gs: seq<Fill>)
    ensures UpdateAll(a, fs + gs) == UpdateAll(UpdateAll(a, fs), gs)
    decreases |fs|
  {
    hide Update;
    if fs == [] {
      assert fs + gs == gs;
    } else {
      assert (fs + gs)[1..] == fs[1..] + gs;
      UpdateAllConcat(Update(a, fs[0]), fs[1..], gs);
    }
  }

  lemma {:induction false} NetQtyOneMore(fills: seq<Fill>, f: Fill)
    ensures NetQty(fills + [f]) == NetQty(fills) + f.qty
  {
    if fills == [] {
      assert [] + [f] == [f] && [f][1..] == [];
    } else {
      assert (fills + [f])[1..] == fills[1..] + [f];
      NetQtyOneMore(fills[1..], f);
    }
  }

  lemma LastFill(a: Account, fills: seq<Fill>)
    requires fills != []
    ensures var k := |fills| - 1;
      && UpdateAll(a, fills) == Update(UpdateAll(a, fills[..k]), fills[k])
      && NetQty(fills) == NetQty(fills[..k]) + fills[k].qty
  {
    hide Update;
    var k := |fills| - 1;
    assert fills == fills[..k] + [fills[k]];
    UpdateAllConcat(a, fills[..k], [fills[k]]);
    NetQtyOneMore(fills[..k], fills[k]);
    assert [fills[k]][1..] == [];
  }

  /** The account is at average cost after these fills. */
  predicate Stands(a: Account, fills: seq<Fill>, b: Account) {
    && b.position == a.position + NetQty(fills)
    && b.realized == a.realized + RealizedBy(a, fills)
    && (b.position != 0 ==> b.avgEntry == Average(a, fills))
  }

  lemma SameGain(closed: int, price: real, x: real, y: real)
    requires closed == 0 || x == y
    ensures (-closed) as real * (price - x) == (-closed) as real * (price - y)
  {}

  lemma FlatClosesNothing(q: int)
    ensures Closed(0, q) == 0
  {}

  lemma RealizedUnfold(a: Account, fills: seq<Fill>)
    requires fills != []
    ensures var f, done := fills[|fills| - 1], fills[..|fills| - 1]; var closed := Closed(a.position + NetQty(done), f.qty);
      RealizedBy(a, fills) == RealizedBy(a, done) + (-closed) as real * (f.price - Average(a, done))
  {
    hide Closed, Average, NetQty;
  }

  lemma OneFillRealized(a: Account, fills: seq<Fill>, before: Account, after: Account)
    requires fills != [] && Stands(a, fills[..|fills| - 1], before) && AtAverageCost(before, fills[|fills| - 1], after)
    ensures after.realized == a.realized + RealizedBy(a, fills)
  {
    hide Closed, Average, NetQty, RealizedBy;
    var f, done := fills[|fills| - 1], fills[..|fills| - 1];
    FlatClosesNothing(f.qty);
    RealizedUnfold(a, fills);
    SameGain(Closed(before.position, f.qty), f.price, before.avgEntry, Average(a, done));
  }

  lemma CostUnfold(a: Account, fills: seq<Fill>)
    requires fills != []
    ensures var f, done := fills[|fills| - 1], fills[..|fills| - 1];
      var p := a.position + NetQty(done); var closed := Closed(p, f.qty);
      Cost(a, fills) == (p + closed) as real * Average(a, done) + (f.qty - closed) as real * f.price
  {
    hide Closed, NetQty;
  }

  lemma OneFillCost(a: Account, fills: seq<Fill>, before: Account, after: Account)
    requires fills != [] && Stands(a, fills[..|fills| - 1], before) && AtAverageCost(before, fills[|fills| - 1], after)
    ensures after.position != 0 ==> after.position as real * after.avgEntry == Cost(a, fills)
  {
    hide Closed, Average, NetQty, RealizedBy, Cost;
    var f, done := fills[|fills| - 1], fills[..|fills| - 1];
    FlatClosesNothing(f.qty);
    CostUnfold(a, fills);
    var closed := Closed(before.position, f.qty);
    SameTerm(before.position + closed, before.avgEntry, Average(a, done));
    assert Cost(a, fills) == (before.position + closed) as real * Average(a, done) + (f.qty - closed) as real * f.price;
    if after.position != 0 {
      assert after.position as real * after.avgEntry
          == (before.position + closed) as real * before.avgEntry + (f.qty - closed) as real * f.price;
    }
  }

  lemma SameTerm(n: int, x: real, y: real)
    requires n == 0 || x == y
    ensures n as real * x == n as real * y
  {}

  /** Average cost over every sequence of fills: what is realized is the sum over the closed quantities of
      the price they were closed at less their average cost, and an open position stands at its own
      average cost. */
  lemma {:induction false} AverageCost(a: Account, fills: seq<Fill>)
    ensures Stands(a, fills, UpdateAll(a, fills))
    decreases |fills|
  {
    hide Update, UpdateAll, AtAverageCost, RealizedBy, Cost, NetQty;
    var b := UpdateAll(a, fills);
    if fills == [] {
      NothingFilled(a);
    } else {
      var k := |fills| - 1;
      var before := UpdateAll(a, fills[..k]);
      AverageCost(a, fills[..k]);
      LastFill(a, fills);
      UpdateAtAverageCost(before, fills[k]);
      AccountingAgrees(a, fills, 0.0);
      OneFillRealized(a, fills, before, b);
      OneFillCost(a, fills, before, b);
    }
    if b.position != 0 { Quotient(b.position as real, b.avgEntry, Cost(a, fills)); }
  }

  lemma NothingFilled(a: Account)
    ensures RealizedBy(a, []) == 0.0 && Cost(a, []) == a.position as real * a.avgEntry
    ensures UpdateAll(a, []) == a && NetQty([]) == 0
  {}
}
