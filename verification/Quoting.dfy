/** What the market maker's quotes promise about its position, on the abstract book. */
module Quoting {
  import opened Types
  import opened Matching
  import opened BookInvariants
  import opened Priority
  import opened Ledger
  import opened Session
  import Pnl

  datatype MakerConfig = MakerConfig(
    halfSpread: int, quoteSize: Quantity, maxPosition: int, skewPerUnit: int, maxLoss: int, startingId: OrderId)

  /** Position and whatever of the quotes is still on the book stay within the limit together. */
  predicate WithinLimits(c: MakerConfig, b: Book, position: int, bidId: OrderId, askId: OrderId) {
    && position + QtyOf(b.bids, bidId) <= c.maxPosition
    && position - QtyOf(b.asks, askId) >= -c.maxPosition
  }

  /** Id 0 stands for no quote and never rests; every live id has been issued. */
  ghost predicate IdsOk(b: Book, next: OrderId) {
    !Live(b, 0) && forall x: OrderId :: Live(b, x) ==> x < next
  }

  /** The only orders of the maker on the book are its two current quotes. */
  ghost predicate OwnQuotes(b: Book, start: OrderId, bidId: OrderId, askId: OrderId) {
    forall x: OrderId :: x >= start ==> (HasId(b.bids, x) ==> x == bidId) && (HasId(b.asks, x) ==> x == askId)
  }

  /** Operations of the other participants bring in ids of their own range only. */
  predicate ForeignOp(op: Op, start: OrderId) {
    match op
    case Submit(o, _) => 0 < o.id < start
    case Modify(_, new_, _, _) => 0 < new_ < start
    case Cancel(_) => true
  }

  predicate Foreign(ops: seq<Op>, start: OrderId) {
    forall i :: 0 <= i < |ops| ==> ForeignOp(ops[i], start)
  }

  // ---------- other participants' operations ----------

  /** What an id nobody brings in loses on the book is at least what the log debits to it. */
  lemma StepOnlyTakes(b: Book, op: Op, s: Side, id: OrderId)
    requires Wf(b) && Admissible(b, op) && !BringsIn(op, id)
    ensures var r := Step(b, op); QtyOf(r.book.On(s), id) + Filled(s, r.trades, id) <= QtyOf(b.On(s), id)
  {
    StepConserves(b, op, s, id);
  }

  lemma {:induction false} RunOnlyTakes(b: Book, ops: seq<Op>, s: Side, id: OrderId)
    requires Wf(b) && AdmissibleRun(b, ops)
    requires forall i :: 0 <= i < |ops| ==> !BringsIn(ops[i], id)
    ensures var r := Run(b, ops); QtyOf(r.book.On(s), id) + Filled(s, r.trades, id) <= QtyOf(b.On(s), id)
    decreases |ops|
  {
    if ops != [] {
      var first := Step(b, ops[0]);
      StepOnlyTakes(b, ops[0], s, id);
      StepKeepsWf(b, ops[0]);
      RunOnlyTakes(first.book, ops[1..], s, id);
      FilledConcat(s, first.trades, Run(first.book, ops[1..]).trades, id);
    }
  }

  /** Whether or not the fills of a run are noticed, the limits hold afterwards. */
  lemma LimitsAfterRun(c: MakerConfig, b: Book, ops: seq<Op>, position: int, bidId: OrderId, askId: OrderId)
    requires Wf(b) && AdmissibleRun(b, ops) && Foreign(ops, c.startingId)
    requires bidId == 0 || bidId >= c.startingId
    requires askId == 0 || askId >= c.startingId
    requires WithinLimits(c, b, position, bidId, askId)
    ensures var r := Run(b, ops);
      && WithinLimits(c, r.book, position, bidId, askId)
      && WithinLimits(c, r.book, position + Filled(BUY, r.trades, bidId) - Filled(SELL, r.trades, askId), bidId, askId)
  {
    RunOnlyTakes(b, ops, BUY, bidId);
    RunOnlyTakes(b, ops, SELL, askId);
  }

  lemma StepIdsOk(b: Book, op: Op, next: OrderId)
    requires Wf(b) && Admissible(b, op) && IdsOk(b, next)
    requires forall x: OrderId :: BringsIn(op, x) ==> 0 < x < next
    ensures IdsOk(Step(b, op).book, next)
  {
    var b' := Step(b, op).book;
    forall x: OrderId | Live(b', x) ensures 0 < x < next {
      StepIds(b, op, x);
    }
  }

  // ---------- the log between two ticks ----------

  /** Quantity the log debits to the maker, bought less sold, under whatever id. */
  function Signed(ts: seq<Trade>, start: OrderId): int {
    if ts == [] then 0
    else (if ts[0].buyId >= start then ts[0].qty else 0) - (if ts[0].sellId >= start then ts[0].qty else 0)
         + Signed(ts[1..], start)
  }

  lemma {:induction false} SignedConcat(a: seq<Trade>, b: seq<Trade>, start: OrderId)
    ensures Signed(a + b, start) == Signed(a, start) + Signed(b, start)
  {
    if a == [] {
      assert a + b == b;
    } else {
      assert (a + b)[1..] == a[1..] + b;
      SignedConcat(a[1..], b, start);
    }
  }

  /** The trades of the maker are exactly those of its current quotes. */
  predicate Attributed(ts: seq<Trade>, start: OrderId, bidId: OrderId, askId: OrderId) {
    forall i :: 0 <= i < |ts| ==>
      (ts[i].buyId >= start <==> ts[i].buyId == bidId) && (ts[i].sellId >= start <==> ts[i].sellId == askId)
  }

  lemma {:induction false} SignedIsFilled(ts: seq<Trade>, start: OrderId, bidId: OrderId, askId: OrderId)
    requires Attributed(ts, start, bidId, askId)
    ensures Signed(ts, start) == Filled(BUY, ts, bidId) - Filled(SELL, ts, askId)
  {
    if ts != [] {
      assert forall i :: 0 <= i < |ts[1..]| ==> ts[1..][i] == ts[i + 1];
      SignedIsFilled(ts[1..], start, bidId, askId);
    }
  }

  /** What a foreign operation leaves true of the maker's own orders. */
  ghost predicate OwnOk(b: Book, start: OrderId, bidId: OrderId, askId: OrderId) {
    && start > 0 && OwnQuotes(b, start, bidId, askId) && !Live(b, 0)
    && (bidId == 0 || bidId >= start) && (askId == 0 || askId >= start)
  }

  lemma SubmitSideIds(b: Book, o: NewOrder, s: Side, x: OrderId)
    requires HasId(SubmittedBook(b, o).On(s), x)
    ensures HasId(b.On(s), x) || (s == o.side && x == o.id)
  {
    var opp := b.On(o.side.Opposite());
    var m := Consume(o, o.qty, opp);
    if s == o.side {
      InsertHasId(s, b.On(s), Entry(o.id, o.price, m.left), x);
    } else {
      RestIsSuffix(o, o.qty, opp);
      var i :| 0 <= i < |m.rest| && m.rest[i].id == x;
      assert opp[|opp| - |m.rest| + i].id == x;
    }
  }

  lemma StepSideIds(b: Book, op: Op, s: Side, x: OrderId)
    requires Wf(b) && Admissible(b, op) && HasId(Step(b, op).book.On(s), x)
    ensures HasId(b.On(s), x) || BringsIn(op, x)
  {
    match op
    case Submit(o, _) => SubmitSideIds(b, o, s, x);
    case Cancel(id) =>
      if Live(b, id) { SpliceHasId(b.On(SideOf(b, id)), id, [], x); }
    case Modify(orig, new_, p, q) =>
      if Live(b, orig) { ModifiedSide(b, orig, new_, p, q); }
  }

  lemma StepOwnOk(b: Book, op: Op, start: OrderId, bidId: OrderId, askId: OrderId)
    requires Wf(b) && Admissible(b, op) && ForeignOp(op, start) && OwnOk(b, start, bidId, askId)
    ensures OwnOk(Step(b, op).book, start, bidId, askId)
    ensures Attributed(Step(b, op).trades, start, bidId, askId)
  {
    var b' := Step(b, op).book;
    forall x: OrderId
      ensures HasId(b'.bids, x) ==> HasId(b.bids, x) || BringsIn(op, x)
      ensures HasId(b'.asks, x) ==> HasId(b.asks, x) || BringsIn(op, x)
    {
      if HasId(b'.On(BUY), x) { StepSideIds(b, op, BUY, x); }
      if HasId(b'.On(SELL), x) { StepSideIds(b, op, SELL, x); }
    }
    if op.Submit? { ForeignTrades(b, op.order, op.time, start, bidId, askId); }
  }

  lemma ForeignTrades(b: Book, o: NewOrder, time: nat, start: OrderId, bidId: OrderId, askId: OrderId)
    requires 0 < o.id < start && OwnOk(b, start, bidId, askId)
    ensures Attributed(SubmittedTrades(b, o, time), start, bidId, askId)
  {
    var opp := b.On(o.side.Opposite());
    FillsArePrefix(o, o.qty, opp);
    forall i | 0 <= i < |opp| ensures HasId(opp, opp[i].id) {}
  }

  lemma {:induction false} RunAttributed(b: Book, ops: seq<Op>, start: OrderId, bidId: OrderId, askId: OrderId)
    requires Wf(b) && AdmissibleRun(b, ops) && Foreign(ops, start) && OwnOk(b, start, bidId, askId)
    ensures OwnOk(Run(b, ops).book, start, bidId, askId)
    ensures Attributed(Run(b, ops).trades, start, bidId, askId)
    decreases |ops|
  {
    if ops != [] {
      var first := Step(b, ops[0]);
      StepOwnOk(b, ops[0], start, bidId, askId);
      StepKeepsWf(b, ops[0]);
      RunAttributed(first.book, ops[1..], start, bidId, askId);
    }
  }

  // ---------- the maker's own operations ----------

  /** After a cancel of the bid the maker may call it 0. */
  lemma LimitsAfterCancelBid(c: MakerConfig, b: Book, position: int, bidId: OrderId, askId: OrderId)
    requires Wf(b) && !Live(b, 0) && WithinLimits(c, b, position, bidId, askId)
    ensures WithinLimits(c, Cancelled(b, bidId).book, position, 0, askId)
  {
    QtyWithoutId(b.bids, 0);
    StepConserves(b, Cancel(bidId), BUY, 0);
    StepConserves(b, Cancel(bidId), SELL, askId);
  }

  lemma LimitsAfterCancelAsk(c: MakerConfig, b: Book, position: int, bidId: OrderId, askId: OrderId)
    requires Wf(b) && !Live(b, 0) && WithinLimits(c, b, position, bidId, askId)
    ensures WithinLimits(c, Cancelled(b, askId).book, position, bidId, 0)
  {
    QtyWithoutId(b.asks, 0);
    StepConserves(b, Cancel(askId), SELL, 0);
    StepConserves(b, Cancel(askId), BUY, bidId);
  }

  lemma OwnAfterCancel(b: Book, id: OrderId, start: OrderId, bidId: OrderId, askId: OrderId)
    requires Wf(b) && OwnOk(b, start, bidId, askId) && (id == bidId || id == askId)
    ensures var b' := Cancelled(b, id).book;
      && (id == bidId ==> OwnOk(b', start, 0, askId))
      && (id == askId ==> OwnOk(b', start, bidId, 0))
  {
    var b' := Cancelled(b, id).book;
    forall s: Side, x | HasId(b'.On(s), x) ensures HasId(b.On(s), x) && x != id {
      if Live(b, id) { SpliceHasId(b.On(SideOf(b, id)), id, [], x); }
      WfByLists(b);
    }
    assert forall x :: HasId(b'.bids, x) <==> HasId(b'.On(BUY), x);
    assert forall x :: HasId(b'.asks, x) <==> HasId(b'.On(SELL), x);
  }

  /** A quote that fits into the room left keeps the limits, even if it trades while it is placed. */
  lemma LimitsAfterQuote(c: MakerConfig, b: Book, o: NewOrder, time: nat, position: int, bidId: OrderId, askId: OrderId)
    requires Wf(b) && !Live(b, o.id) && WithinLimits(c, b, position, bidId, askId) && o.id != bidId && o.id != askId
    requires if o.side == BUY then position + o.qty <= c.maxPosition else position - o.qty >= -c.maxPosition
    ensures var b' := Submitted(b, o, time).book;
      if o.side == BUY then WithinLimits(c, b', position, o.id, askId) else WithinLimits(c, b', position, bidId, o.id)
  {
    var op := Submit(o, time);
    QtyWithoutId(b.On(o.side), o.id);
    StepConserves(b, op, o.side, o.id);
    StepOnlyTakes(b, op, SELL, askId);
    StepOnlyTakes(b, op, BUY, bidId);
  }

  lemma OwnAfterQuote(b: Book, o: NewOrder, start: OrderId, bidId: OrderId, askId: OrderId)
    requires OwnOk(b, start, bidId, askId) && o.id >= start
    requires if o.side == BUY then bidId == 0 else askId == 0
    ensures var b' := SubmittedBook(b, o);
      if o.side == BUY then OwnOk(b', start, o.id, askId) else OwnOk(b', start, bidId, o.id)
  {
    var b' := SubmittedBook(b, o);
    forall x: OrderId
      ensures HasId(b'.bids, x) ==> HasId(b.bids, x) || (o.side == BUY && x == o.id)
      ensures HasId(b'.asks, x) ==> HasId(b.asks, x) || (o.side == SELL && x == o.id)
    {
      if HasId(b'.On(BUY), x) { SubmitSideIds(b, o, BUY, x); }
      if HasId(b'.On(SELL), x) { SubmitSideIds(b, o, SELL, x); }
    }
  }

  // ---------- fills ----------

  function Dollars(p: Price): real {
    p as real / 10000.0
  }

  /** The fills `processFills` finds in one trade: a buy under the current bid, a sale under the
      current ask. */
  function FillsIn(t: Trade, bidId: OrderId, askId: OrderId): seq<Pnl.Fill> {
    (if t.buyId == bidId then [Pnl.Fill(t.qty, Dollars(t.price))] else [])
    + (if t.sellId == askId then [Pnl.Fill(0 - t.qty, Dollars(t.price))] else [])
  }

  function FillsOf(ts: seq<Trade>, bidId: OrderId, askId: OrderId): seq<Pnl.Fill> {
    if ts == [] then [] else FillsIn(ts[0], bidId, askId) + FillsOf(ts[1..], bidId, askId)
  }

  lemma {:induction false} NetQtyConcat(a: seq<Pnl.Fill>, b: seq<Pnl.Fill>)
    ensures Pnl.NetQty(a + b) == Pnl.NetQty(a) + Pnl.NetQty(b)
  {
    if a == [] {
      assert a + b == b;
    } else {
      assert (a + b)[1..] == a[1..] + b;
      NetQtyConcat(a[1..], b);
    }
  }

  /** The position moves by what the log debits to the two quotes. */
  lemma {:induction false} NetOfFills(ts: seq<Trade>, bidId: OrderId, askId: OrderId)
    ensures Pnl.NetQty(FillsOf(ts, bidId, askId)) == Filled(BUY, ts, bidId) - Filled(SELL, ts, askId)
  {
    if ts != [] {
      NetQtyConcat(FillsIn(ts[0], bidId, askId), FillsOf(ts[1..], bidId, askId));
      NetOfFills(ts[1..], bidId, askId);
    }
  }
}
