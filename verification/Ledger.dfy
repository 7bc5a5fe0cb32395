/** Conservation of quantity, order by order, over whole runs. */
module Ledger {
  import opened Types
  import opened Matching
  import opened MatchingLemmas
  import opened BookInvariants
  import opened Execution
  import opened Priority

  // ---------- what each operation puts on a side and takes off it, other than by trading ----------

  /** Quantity entering side `s` under `id`: a submitted order, or the new terms of a modified one. */
  function Entered(b: Book, op: Op, s: Side, id: OrderId): nat {
    match op
    case Submit(o, _) => if o.side == s && o.id == id then o.qty else 0
    case Cancel(_) => 0
    case Modify(orig, new_, _, q) => if HasId(b.On(s), orig) && new_ == id then q else 0
  }

  /** Quantity leaving side `s` under `id` without a trade: cancelled, replaced by new terms, or the
      part of a market order for which the opposite side holds too little. */
  function Withdrawn(b: Book, op: Op, s: Side, id: OrderId): nat {
    match op
    case Submit(o, _) =>
      if o.side == s && o.id == id && o.isMarket && o.qty > Volume(b.On(s.Opposite()))
      then o.qty - Volume(b.On(s.Opposite())) else 0
    case Cancel(x) => if x == id then QtyOf(b.On(s), id) else 0
    case Modify(orig, _, _, _) => if orig == id then QtyOf(b.On(s), id) else 0
  }

  function EnteredInRun(b: Book, ops: seq<Op>, s: Side, id: OrderId): nat
    decreases |ops|
  {
    if ops == [] then 0
    else Entered(b, ops[0], s, id) + EnteredInRun(Step(b, ops[0]).book, ops[1..], s, id)
  }

  function WithdrawnInRun(b: Book, ops: seq<Op>, s: Side, id: OrderId): nat
    decreases |ops|
  {
    if ops == [] then 0
    else Withdrawn(b, ops[0], s, id) + WithdrawnInRun(Step(b, ops[0]).book, ops[1..], s, id)
  }

  // ---------- sums over the list operations ----------

  lemma InsertQty(s: Side, l: seq<Entry>, e: Entry, id: OrderId)
    ensures QtyOf(Insert(s, l, e), id) == QtyOf(l, id) + if e.id == id then e.qty else 0
  {
    var k := InsertShape(s, l, e);
    assert l == l[..k] + l[k..];
    QtyOfConcat(l[..k], l[k..], id);
    QtyOfConcat(l[..k] + [e], l[k..], id);
    QtyOfConcat(l[..k], [e], id);
    assert [e][1..] == [];
  }

  lemma SpliceQty(l: seq<Entry>, orig: OrderId, r: seq<Entry>, id: OrderId)
    requires UniqueIds(l) && HasId(l, orig)
    ensures QtyOf(Splice(l, orig, r), id) == QtyOf(r, id) + if orig == id then 0 else QtyOf(l, id)
  {
    var k := SpliceShape(l, orig, r);
    assert l == l[..k] + [l[k]] + l[k + 1..];
    QtyOfConcat(l[..k] + [l[k]], l[k + 1..], id);
    QtyOfConcat(l[..k], [l[k]], id);
    QtyOfConcat(l[..k] + r, l[k + 1..], id);
    QtyOfConcat(l[..k], r, id);
    assert [l[k]][1..] == [];
    if orig == id {
      QtyOfUnique(l, k);
    }
  }

  lemma {:induction false} MarketReachesAll(o: NewOrder, l: seq<Entry>)
    requires o.isMarket
    ensures EligibleVolume(o, l) == Volume(l)
  {
    if l != [] {
      MarketReachesAll(o, l[1..]);
    }
  }

  // ---------- conservation ----------

  lemma SubmitLedger(b: Book, o: NewOrder, time: nat, s: Side, id: OrderId)
    requires Wf(b) && !Live(b, o.id)
    ensures QtyOf(SubmittedBook(b, o).On(s), id) + Filled(s, SubmittedTrades(b, o, time), id)
              + Withdrawn(b, Submit(o, time), s, id)
         == QtyOf(b.On(s), id) + Entered(b, Submit(o, time), s, id)
  {
    var opp := b.On(o.side.Opposite());
    var m := Consume(o, o.qty, opp);
    FilledByTrades(o, m.fills, time, id);
    ConsumeQty(o, o.qty, opp, id);
    ConsumeTotals(o, o.qty, opp);
    FillsAllItCan(o, o.qty, opp);
    if o.isMarket {
      MarketReachesAll(o, opp);
    }
    InsertQty(o.side, b.On(o.side), Entry(o.id, o.price, m.left), id);
  }

  lemma CancelLedger(b: Book, x: OrderId, s: Side, id: OrderId)
    requires Wf(b)
    ensures QtyOf(Cancelled(b, x).book.On(s), id) + Withdrawn(b, Cancel(x), s, id) == QtyOf(b.On(s), id)
  {
    WfByLists(b);
    if !HasId(b.On(s), x) {
      QtyWithoutId(b.On(s), x);
    } else {
      SpliceQty(b.On(s), x, [], id);
    }
  }

  lemma QtyWithoutId(l: seq<Entry>, id: OrderId)
    requires !HasId(l, id)
    ensures QtyOf(l, id) == 0
  {
    QtyOfAbsent(l, id);
  }

  lemma ModifyLedger(b: Book, orig: OrderId, new_: OrderId, p: Price, q: nat, s: Side, id: OrderId)
    requires Wf(b) && Admissible(b, Modify(orig, new_, p, q))
    ensures QtyOf(Modified(b, orig, new_, p, q).book.On(s), id) + Withdrawn(b, Modify(orig, new_, p, q), s, id)
         == QtyOf(b.On(s), id) + Entered(b, Modify(orig, new_, p, q), s, id)
  {
    hide Wf, Splice, Insert, UniqueIds;
    WfByLists(b);
    if !HasId(b.On(s), orig) {
      QtyWithoutId(b.On(s), orig);
    } else {
      var l := b.On(s);
      var e := Entry(new_, p, q);
      SpliceQty(l, orig, [e], id);
      SpliceQty(l, orig, [], id);
      InsertQty(s, Splice(l, orig, []), e, id);
      assert [e][1..] == [];
    }
  }

  lemma StepConserves(b: Book, op: Op, s: Side, id: OrderId)
    requires Wf(b) && Admissible(b, op)
    ensures var r := Step(b, op);
      QtyOf(r.book.On(s), id) + Filled(s, r.trades, id) + Withdrawn(b, op, s, id)
      == QtyOf(b.On(s), id) + Entered(b, op, s, id)
  {
    match op
    case Submit(o, time) => SubmitLedger(b, o, time, s, id);
    case Cancel(x) => CancelLedger(b, x, s, id);
    case Modify(orig, new_, p, q) => ModifyLedger(b, orig, new_, p, q, s, id);
  }

  /** Conservation over runs: for every order id and side, what was resting plus what entered is
      exactly what rests now, plus what traded, plus what was withdrawn. */
  lemma {:induction false} RunConserves(b: Book, ops: seq<Op>, s: Side, id: OrderId)
    requires Wf(b) && AdmissibleRun(b, ops)
    ensures var r := Run(b, ops);
      QtyOf(r.book.On(s), id) + Filled(s, r.trades, id) + WithdrawnInRun(b, ops, s, id)
      == QtyOf(b.On(s), id) + EnteredInRun(b, ops, s, id)
    decreases |ops|
  {
    if ops != [] {
      var first := Step(b, ops[0]);
      StepConserves(b, ops[0], s, id);
      StepKeepsWf(b, ops[0]);
      RunConserves(first.book, ops[1..], s, id);
      FilledConcat(s, first.trades, Run(first.book, ops[1..]).trades, id);
    }
  }

  // ---------- the two sides of the log ----------

  function TradedVolume(ts: seq<Trade>): nat {
    if ts == [] then 0 else ts[0].qty + TradedVolume(ts[1..])
  }

  lemma {:induction false} TradesCarryFills(o: NewOrder, fills: seq<Entry>, time: nat)
    ensures TradedVolume(Trades(o, fills, time)) == Volume(fills)
  {
    if fills != [] {
      assert Trades(o, fills, time)[1..] == Trades(o, fills[1..], time);
      TradesCarryFills(o, fills[1..], time);
    }
  }

  lemma {:induction false} ConsumeVolume(o: NewOrder, q: nat, opp: seq<Entry>)
    ensures var m := Consume(o, q, opp); Volume(opp) == Volume(m.rest) + Volume(m.fills)
  {
    if !(q == 0 || opp == [] || !Reaches(o, opp[0].price) || q < opp[0].qty) {
      ConsumeVolume(o, q - opp[0].qty, opp[1..]);
      assert Consume(o, q, opp).fills[1..] == Consume(o, q - opp[0].qty, opp[1..]).fills;
    }
  }

  /** The log debits both sides equally: a submit takes from the opposite side exactly the volume
      it records, and its own side gains exactly what is left of a limit order. */
  lemma BothSidesDebited(b: Book, o: NewOrder, time: nat)
    requires Wf(b)
    ensures var b' := SubmittedBook(b, o); var v := TradedVolume(SubmittedTrades(b, o, time));
      && v == Min(o.qty, EligibleVolume(o, b.On(o.side.Opposite())))
      && Volume(b'.On(o.side.Opposite())) + v == Volume(b.On(o.side.Opposite()))
      && Volume(b'.On(o.side)) == Volume(b.On(o.side)) + if o.isMarket then 0 else o.qty - v
  {
    var opp := b.On(o.side.Opposite());
    var own := b.On(o.side);
    var m := Consume(o, o.qty, opp);
    TradesCarryFills(o, m.fills, time);
    ConsumeVolume(o, o.qty, opp);
    ConsumeTotals(o, o.qty, opp);
    FillsAllItCan(o, o.qty, opp);
    var e := Entry(o.id, o.price, m.left);
    var k := InsertShape(o.side, own, e);
    assert own == own[..k] + own[k..];
    VolumeConcat(own[..k], own[k..]);
    VolumeConcat(own[..k] + [e], own[k..]);
    VolumeConcat(own[..k], [e]);
    assert [e][1..] == [];
  }
}
