/** The quality of one execution: the incoming order takes as much as it may, at the best total
    price the resting orders allow, and splitting a market order changes nothing. */
module Execution {
  import opened Types
  import opened Matching
  import opened MatchingLemmas

  // ---------- an independent notion: any allocation over the resting orders ----------

  /** `a[i]` units are taken from `l[i]`. */
  predicate Allocation(a: seq<nat>, l: seq<Entry>) {
    |a| == |l| && forall i :: 0 <= i < |a| ==> a[i] <= l[i].qty
  }

  function Sum(a: seq<nat>): nat {
    if a == [] then 0 else a[0] + Sum(a[1..])
  }

  /** Total price times quantity of an allocation. */
  function Notional(a: seq<nat>, l: seq<Entry>): int
    requires |a| == |l|
  {
    if a == [] then 0 else a[0] * l[0].price + Notional(a[1..], l[1..])
  }

  function FillNotional(fills: seq<Entry>): int {
    if fills == [] then 0 else fills[0].qty * fills[0].price + FillNotional(fills[1..])
  }

  /** Volume of the resting orders the taker is willing to trade with, wherever they stand. */
  function EligibleVolume(o: NewOrder, l: seq<Entry>): nat {
    if l == [] then 0 else (if Reaches(o, l[0].price) then l[0].qty else 0) + EligibleVolume(o, l[1..])
  }

  // ---------- greedy cost, in keys so that smaller is better on both sides ----------

  function KeyCost(s: Side, a: seq<nat>, l: seq<Entry>): int
    requires |a| == |l|
  {
    if a == [] then 0 else a[0] * Key(s, l[0].price) + KeyCost(s, a[1..], l[1..])
  }

  /** Cost of the first `x` units from the front. */
  function GreedyCost(s: Side, x: nat, l: seq<Entry>): int {
    if l == [] then 0
    else
      var t := Min(x, l[0].qty);
      t * Key(s, l[0].price) + GreedyCost(s, x - t, l[1..])
  }

  lemma {:induction false} KeyCostIsNotional(s: Side, a: seq<nat>, l: seq<Entry>)
    requires |a| == |l|
    ensures KeyCost(s, a, l) == if s == BUY then -Notional(a, l) else Notional(a, l)
  {
    if a != [] {
      KeyCostIsNotional(s, a[1..], l[1..]);
    }
  }

  lemma SplitProduct(a: nat, b: nat, p: int, k: int)
    requires k <= p
    ensures (a + b) * p == a * p + b * p
    ensures b * k <= b * p
  {}

  /** More units from the front never cost less per unit than the best remaining price. */
  lemma {:induction false} GreedyCostGrows(s: Side, x: nat, d: nat, l: seq<Entry>, k: int)
    requires Sorted(s, l) && x + d <= Volume(l)
    requires forall i :: 0 <= i < |l| ==> k <= Key(s, l[i].price)
    ensures GreedyCost(s, x + d, l) >= GreedyCost(s, x, l) + d * k
  {
    if l != [] {
      var p := Key(s, l[0].price);
      var t := Min(x, l[0].qty);
      var here := Min(x + d, l[0].qty) - t;
      GreedyCostGrows(s, x - t, d - here, l[1..], k);
      SplitProduct(t, here, p, k);
      SplitProduct(here, d - here, k, k);
    }
  }

  /** Taking fewer than possible from the best order does not pay. */
  lemma GreedyStep(s: Side, first: nat, rest: nat, l: seq<Entry>)
    requires l != [] && Sorted(s, l) && first <= l[0].qty && rest <= Volume(l[1..])
    ensures first * Key(s, l[0].price) + GreedyCost(s, rest, l[1..]) >= GreedyCost(s, first + rest, l)
  {
    hide Sorted, Key, Volume;
    var p := Key(s, l[0].price);
    var t := Min(first + rest, l[0].qty);
    var d := t - first;
    BestFirst(s, l);
    GreedyCostGrows(s, rest - d, d, l[1..], p);
    SplitProduct(first, d, p, p);
  }

  lemma BestFirst(s: Side, l: seq<Entry>)
    requires l != [] && Sorted(s, l)
    ensures Sorted(s, l[1..])
    ensures forall i :: 0 <= i < |l[1..]| ==> Key(s, l[0].price) <= Key(s, l[1..][i].price)
  {}

  lemma {:induction false} GreedyIsCheapest(s: Side, a: seq<nat>, l: seq<Entry>)
    requires Sorted(s, l) && Allocation(a, l)
    ensures Sum(a) <= Volume(l)
    ensures KeyCost(s, a, l) >= GreedyCost(s, Sum(a), l)
  {
    hide Sorted, Key, GreedyCost;
    if l == [] {
      assert GreedyCost(s, 0, l) == 0 by { GreedyCostZero(s, l); }
    } else {
      BestFirst(s, l);
      GreedyIsCheapest(s, a[1..], l[1..]);
      GreedyStep(s, a[0], Sum(a[1..]), l);
    }
  }

  lemma {:induction false} GreedyCostZero(s: Side, l: seq<Entry>)
    ensures GreedyCost(s, 0, l) == 0
  {
    if l != [] {
      GreedyCostZero(s, l[1..]);
    }
  }

  lemma KeyTimes(s: Side, t: nat, p: Price)
    ensures t * Key(s, p) == if s == BUY then -(t * p) else t * p
  {}

  /** What matching pays is the greedy cost of the units it fills. */
  lemma {:induction false} FillsAreGreedy(s: Side, o: NewOrder, q: nat, opp: seq<Entry>)
    ensures var m := Consume(o, q, opp);
      GreedyCost(s, Volume(m.fills), opp) == if s == BUY then -FillNotional(m.fills) else FillNotional(m.fills)
  {
    hide Key, Reaches;
    var m := Consume(o, q, opp);
    if q == 0 || opp == [] || !Reaches(o, opp[0].price) {
      GreedyCostZero(s, opp);
    } else if q < opp[0].qty {
      assert m.fills[1..] == [] && Volume(m.fills) == q;
      KeyTimes(s, q, opp[0].price);
      GreedyCostZero(s, opp[1..]);
    } else {
      FillsAreGreedy(s, o, q - opp[0].qty, opp[1..]);
      assert m.fills[1..] == Consume(o, q - opp[0].qty, opp[1..]).fills;
      KeyTimes(s, opp[0].qty, opp[0].price);
    }
  }

  lemma {:induction false} NothingEligible(o: NewOrder, l: seq<Entry>)
    requires Sorted(o.side.Opposite(), l)
    requires l == [] || !Reaches(o, l[0].price)
    ensures EligibleVolume(o, l) == 0
  {
    if l != [] {
      assert l[1..] != [] ==> Key(o.side.Opposite(), l[0].price) <= Key(o.side.Opposite(), l[1..][0].price);
      NothingEligible(o, l[1..]);
    }
  }

  /** The taker fills exactly min(its quantity, everything it was willing to trade with). */
  lemma {:induction false} FillsAllItCan(o: NewOrder, q: nat, opp: seq<Entry>)
    requires Sorted(o.side.Opposite(), opp)
    ensures Volume(Consume(o, q, opp).fills) == Min(q, EligibleVolume(o, opp))
  {
    var m := Consume(o, q, opp);
    if q == 0 {
    } else if opp == [] || !Reaches(o, opp[0].price) {
      NothingEligible(o, opp);
    } else if q < opp[0].qty {
      assert m.fills[1..] == [];
    } else {
      FillsAllItCan(o, q - opp[0].qty, opp[1..]);
      assert m.fills[1..] == Consume(o, q - opp[0].qty, opp[1..]).fills;
    }
  }

  /** An allocation within the order's limit. */
  predicate WithinLimit(o: NewOrder, a: seq<nat>, l: seq<Entry>) {
    Allocation(a, l) && forall i :: 0 <= i < |a| && a[i] > 0 ==> Reaches(o, l[i].price)
  }

  lemma {:induction false} AtMostEligible(o: NewOrder, a: seq<nat>, l: seq<Entry>)
    requires WithinLimit(o, a, l)
    ensures Sum(a) <= EligibleVolume(o, l)
  {
    hide Reaches;
    if l != [] {
      AtMostEligible(o, a[1..], l[1..]);
    }
  }

  /** What matching takes from each order of the opposite side. */
  function Taken(fills: seq<Entry>, l: seq<Entry>): seq<nat>
    requires |fills| <= |l|
  {
    if l == [] then [] else if fills == [] then [0] + Taken([], l[1..]) else [fills[0].qty] + Taken(fills[1..], l[1..])
  }

  lemma {:induction false} TakenNothing(o: NewOrder, l: seq<Entry>)
    ensures var a := Taken([], l); WithinLimit(o, a, l) && Sum(a) == 0 && Notional(a, l) == 0
  {
    hide Reaches;
    if l != [] {
      TakenNothing(o, l[1..]);
    }
  }

  lemma TakenCons(o: NewOrder, e: Entry, a: seq<nat>, l: seq<Entry>)
    requires l != [] && e == l[0] && Reaches(o, e.price) && WithinLimit(o, a, l[1..])
    ensures var a' := [e.qty] + a;
      WithinLimit(o, a', l) && Sum(a') == e.qty + Sum(a) && Notional(a', l) == e.qty * e.price + Notional(a, l[1..])
  {
    hide Reaches;
    assert ([e.qty] + a)[1..] == a;
  }

  /** Matching is itself an allocation within the limit, of this volume and this notional. */
  lemma {:induction false} FillsWithinLimit(o: NewOrder, q: nat, opp: seq<Entry>)
    ensures var fills := Consume(o, q, opp).fills;
      && |fills| <= |opp| && WithinLimit(o, Taken(fills, opp), opp)
      && Sum(Taken(fills, opp)) == Volume(fills) && Notional(Taken(fills, opp), opp) == FillNotional(fills)
  {
    hide Reaches;
    var fills := Consume(o, q, opp).fills;
    if q == 0 || opp == [] || !Reaches(o, opp[0].price) {
      TakenNothing(o, opp);
    } else if q < opp[0].qty {
      TakenNothing(o, opp[1..]);
      assert fills[1..] == [];
    } else {
      var later := Consume(o, q - opp[0].qty, opp[1..]).fills;
      FillsWithinLimit(o, q - opp[0].qty, opp[1..]);
      assert fills[1..] == later;
      TakenCons(o, opp[0], Taken(later, opp[1..]), opp);
    }
  }

  /** No allocation over the opposite side within the order's limit and quantity fills more. */
  lemma FillsMost(b: Book, o: NewOrder, a: seq<nat>)
    requires Wf(b) && WithinLimit(o, a, b.On(o.side.Opposite())) && Sum(a) <= o.qty
    ensures Sum(a) <= Volume(Consume(o, o.qty, b.On(o.side.Opposite())).fills)
  {
    var opp := b.On(o.side.Opposite());
    FillsAllItCan(o, o.qty, opp);
    AtMostEligible(o, a, opp);
  }

  /** And none of as many units, within the limit or not, is cheaper for a buyer or earns more for a
      seller. */
  lemma OptimalExecution(b: Book, o: NewOrder, a: seq<nat>)
    requires Wf(b) && Allocation(a, b.On(o.side.Opposite()))
    requires Sum(a) == Volume(Consume(o, o.qty, b.On(o.side.Opposite())).fills)
    ensures var opp := b.On(o.side.Opposite()); var fills := Consume(o, o.qty, opp).fills;
      && Volume(fills) == Min(o.qty, EligibleVolume(o, opp))
      && (if o.side == BUY then FillNotional(fills) <= Notional(a, opp) else FillNotional(fills) >= Notional(a, opp))
  {
    var s := o.side.Opposite();
    var opp := b.On(s);
    FillsAllItCan(o, o.qty, opp);
    GreedyIsCheapest(s, a, opp);
    FillsAreGreedy(s, o, o.qty, opp);
    KeyCostIsNotional(s, a, opp);
  }

  /** The i-th fill is against the i-th resting order, at its price. */
  lemma FillsInPlace(o: NewOrder, q: nat, opp: seq<Entry>)
    ensures var fills := Consume(o, q, opp).fills;
      |fills| <= |opp| && forall i :: 0 <= i < |fills| ==> fills[i].id == opp[i].id && fills[i].price == opp[i].price
  {
    hide Consume;
    var fills := Consume(o, q, opp).fills;
    ConsumeShape(o, q, opp);
    if PartialFill(Consume(o, q, opp), opp) {
      forall i | 0 <= i < |fills| - 1 ensures fills[i] == opp[i] {
        assert fills[..|fills| - 1][i] == opp[..|fills| - 1][i];
      }
    }
  }

  /** Every trade is at the resting order's price and within the taker's limit, and prices only get
      worse for the taker within one call. */
  lemma TradesWithinLimit(b: Book, o: NewOrder, time: nat)
    requires Wf(b)
    ensures var ts := SubmittedTrades(b, o, time); var opp := b.On(o.side.Opposite());
      && |ts| <= |opp|
      && forall i :: 0 <= i < |ts| ==>
           && ts[i].price == opp[i].price && ts[i].time == time
           && (!o.isMarket ==> if o.side == BUY then ts[i].price <= o.price else ts[i].price >= o.price)
           && ts[i].buyId == (if o.side == BUY then o.id else opp[i].id)
           && ts[i].sellId == (if o.side == BUY then opp[i].id else o.id)
           && (forall j :: 0 <= j < i ==>
                 if o.side == BUY then ts[j].price <= ts[i].price else ts[j].price >= ts[i].price)
  {
    hide Consume, UniqueIds;
    var opp := b.On(o.side.Opposite());
    var fills := Consume(o, o.qty, opp).fills;
    FillsInPlace(o, o.qty, opp);
    ConsumeTotals(o, o.qty, opp);
    assert forall i, j :: 0 <= j < i < |fills| ==>
      Key(o.side.Opposite(), opp[j].price) <= Key(o.side.Opposite(), opp[i].price);
  }

  // ---------- splitting ----------

  /** The second order starts at the head the first one left partly filled. */
  lemma SecondAtPartial(o: NewOrder, q1: nat, q2: nat, opp: seq<Entry>)
    requires 0 < q1 && opp != [] && Reaches(o, opp[0].price) && q1 < opp[0].qty
    ensures var m1 := Consume(o, q1, opp); var m2 := Consume(o, m1.left + q2, m1.rest);
      var m := Consume(o, q1 + q2, opp);
      && m.rest == m2.rest && m.left == m2.left
      && forall id :: QtyOf(m.fills, id) == QtyOf(m1.fills, id) + QtyOf(m2.fills, id)
  {
    hide Reaches;
    var m1 := Consume(o, q1, opp);
    var e := opp[0].(qty := opp[0].qty - q1);
    assert m1.left == 0 && m1.rest == [e] + opp[1..] && m1.rest[1..] == opp[1..] && m1.fills == [opp[0].(qty := q1)];
    var m2 := Consume(o, q2, m1.rest);
    var m := Consume(o, q1 + q2, opp);
    if q2 >= e.qty {
      assert q1 + q2 - opp[0].qty == q2 - e.qty;
      var later := Consume(o, q2 - e.qty, opp[1..]);
      assert m2.fills == [e] + later.fills && m.fills == [opp[0]] + later.fills;
      assert m2.fills[1..] == later.fills && m.fills[1..] == later.fills && m1.fills[1..] == [];
    } else if q2 > 0 {
      assert m2.rest[0] == m.rest[0];
      assert m2.fills == [opp[0].(qty := q2)] && m.fills == [opp[0].(qty := q1 + q2)];
      assert m2.fills[1..] == [] && m.fills[1..] == [] && m1.fills[1..] == [];
    }
  }

  lemma {:induction false} ConsumeTwice(o: NewOrder, q1: nat, q2: nat, opp: seq<Entry>)
    ensures var m1 := Consume(o, q1, opp); var m2 := Consume(o, m1.left + q2, m1.rest);
      var m := Consume(o, q1 + q2, opp);
      && m.rest == m2.rest && m.left == m2.left
      && forall id :: QtyOf(m.fills, id) == QtyOf(m1.fills, id) + QtyOf(m2.fills, id)
  {
    hide Reaches;
    if q1 == 0 || opp == [] || !Reaches(o, opp[0].price) {
      assert Consume(o, q1, opp) == Match(q1, opp, []);
    } else if q1 < opp[0].qty {
      SecondAtPartial(o, q1, q2, opp);
    } else {
      ConsumeTwice(o, q1 - opp[0].qty, q2, opp[1..]);
      var n1 := Consume(o, q1 - opp[0].qty, opp[1..]);
      var n := Consume(o, q1 - opp[0].qty + q2, opp[1..]);
      assert Consume(o, q1, opp).fills[1..] == n1.fills;
      assert Consume(o, q1 + q2, opp).fills[1..] == n.fills;
    }
  }

  /** Market-order additivity: `q1 + q2` in one market order leaves the same book as `q1` and then
      `q2`, and takes the same total from every resting order. A market order that runs out of
      liquidity loses its residual, so the second order starts afresh. */
  lemma MarketOrdersAdd(b: Book, s: Side, q1: nat, q2: nat, id: OrderId, id1: OrderId, id2: OrderId)
    ensures var o := NewOrder(id, 0, q1 + q2, s, true);
      var o1 := NewOrder(id1, 0, q1, s, true); var o2 := NewOrder(id2, 0, q2, s, true);
      var b1 := SubmittedBook(b, o1);
      && SubmittedBook(b, o) == SubmittedBook(b1, o2)
      && forall x :: QtyOf(Consume(o, q1 + q2, b.On(s.Opposite())).fills, x)
                  == QtyOf(Consume(o1, q1, b.On(s.Opposite())).fills, x)
                   + QtyOf(Consume(o2, q2, b1.On(s.Opposite())).fills, x)
  {
    var o := NewOrder(id, 0, q1 + q2, s, true);
    var o1 := NewOrder(id1, 0, q1, s, true);
    var o2 := NewOrder(id2, 0, q2, s, true);
    var opp := b.On(s.Opposite());
    MarketIgnoresId(o, o1, q1, opp);
    var m1 := Consume(o1, q1, opp);
    MarketIgnoresId(o, o2, q2, m1.rest);
    ConsumeTwice(o, q1, q2, opp);
    ConsumeTotals(o, q1, opp);
    if m1.left > 0 {
      assert m1.rest == [];
      assert Consume(o, m1.left + q2, m1.rest).rest == [] == Consume(o, q2, m1.rest).rest;
    }
  }

  lemma {:induction false} MarketIgnoresId(o: NewOrder, o': NewOrder, q: nat, opp: seq<Entry>)
    requires o.isMarket && o'.isMarket
    ensures Consume(o, q, opp) == Consume(o', q, opp)
  {
    if !(q == 0 || opp == [] || q < opp[0].qty) {
      MarketIgnoresId(o, o', q - opp[0].qty, opp[1..]);
    }
  }
}
