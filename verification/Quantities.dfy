/** Orders for nothing: a modify to quantity 0 rests one, and a later taker trades 0 with it. */
module Quantities {
  import opened Types
  import opened Matching
  import opened MatchingLemmas
  import opened BookInvariants
  import opened Fix
  import opened RateLimit
  import opened Risk
  import opened Gateway

  predicate AllPositive(l: seq<Entry>) {
    forall i :: 0 <= i < |l| ==> l[i].qty > 0
  }

  predicate TradesPositive(ts: seq<Trade>) {
    forall i :: 0 <= i < |ts| ==> ts[i].qty > 0
  }

  /** Every resting order is for something, and so was every trade. */
  predicate Positive(r: Outcome) {
    AllPositive(r.book.bids) && AllPositive(r.book.asks) && TradesPositive(r.trades)
  }

  predicate BookPositive(b: Book) {
    AllPositive(b.bids) && AllPositive(b.asks)
  }

  lemma {:induction false} ConsumePositive(o: NewOrder, q: nat, opp: seq<Entry>)
    requires AllPositive(opp)
    ensures AllPositive(Consume(o, q, opp).rest) && AllPositive(Consume(o, q, opp).fills)
    decreases |opp|
  {
    hide Reaches;
    if !(q == 0 || opp == [] || !Reaches(o, opp[0].price) || q < opp[0].qty) {
      ConsumePositive(o, q - opp[0].qty, opp[1..]);
    }
  }

  lemma InsertPositive(s: Side, l: seq<Entry>, e: Entry)
    requires AllPositive(l)
    ensures AllPositive(Insert(s, l, e)) <==> e.qty > 0
  {
    hide Insert;
    var k := InsertShape(s, l, e);
    assert Insert(s, l, e)[k] == e;
  }

  lemma SplicePositive(l: seq<Entry>, id: OrderId, r: seq<Entry>)
    requires AllPositive(l) && HasId(l, id)
    ensures AllPositive(Splice(l, id, r)) <==> AllPositive(r)
  {
    hide Splice;
    var k := SpliceShape(l, id, r);
    var l' := Splice(l, id, r);
    assert forall i :: 0 <= i < |r| ==> l'[k + i] == r[i];
  }

  /** The operation gives a live order the quantity 0. */
  predicate EmptyModify(b: Book, op: Op) {
    op.Modify? && Live(b, op.origId) && op.newQty == 0
  }

  lemma SubmitPositive(b: Book, o: NewOrder, time: nat)
    requires BookPositive(b)
    ensures Positive(Submitted(b, o, time))
  {
    hide Consume, Insert;
    var opp := b.On(o.side.Opposite());
    var m := Consume(o, o.qty, opp);
    ConsumePositive(o, o.qty, opp);
    InsertPositive(o.side, b.On(o.side), Entry(o.id, o.price, m.left));
  }

  lemma ModifyPositive(b: Book, orig: OrderId, new_: OrderId, p: Price, q: nat)
    requires BookPositive(b) && Live(b, orig)
    ensures BookPositive(ModifiedBook(b, orig, new_, p, q)) <==> q > 0
  {
    hide Splice, Insert, AllPositive;
    var s := SideOf(b, orig);
    var e := Entry(new_, p, q);
    SplicePositive(b.On(s), orig, [e]);
    SplicePositive(b.On(s), orig, []);
    OnePositive(e);
    InsertPositive(s, Splice(b.On(s), orig, []), e);
  }

  lemma OnePositive(e: Entry)
    ensures AllPositive([e]) <==> e.qty > 0
    ensures AllPositive([])
  {
    assert [e][0] == e;
  }

  /** An operation on a book of orders for something leaves another and trades something if and only
      if it is not a modify of a live order to quantity 0. */
  lemma StepPositiveIff(b: Book, op: Op)
    requires BookPositive(b)
    ensures Positive(Step(b, op)) <==> !EmptyModify(b, op)
  {
    hide Splice, Submitted, ModifiedBook, AllPositive;
    NoTradesPositive();
    match op
    case Submit(o, time) => SubmitPositive(b, o, time);
    case Cancel(id) =>
      if Live(b, id) {
        OnePositive(Entry(0, 0, 0));
        SplicePositive(b.On(SideOf(b, id)), id, []);
      }
    case Modify(orig, new_, p, q) =>
      if Live(b, orig) { ModifyPositive(b, orig, new_, p, q); }
  }

  lemma NoTradesPositive()
    ensures TradesPositive([])
  {}

  // ---------- runs ----------

  predicate NoEmptyModify(b: Book, ops: seq<Op>)
    decreases |ops|
  {
    ops == [] || (!EmptyModify(b, ops[0]) && NoEmptyModify(Step(b, ops[0]).book, ops[1..]))
  }

  lemma TradesPositiveConcat(xs: seq<Trade>, ys: seq<Trade>)
    ensures TradesPositive(xs + ys) <==> TradesPositive(xs) && TradesPositive(ys)
  {
    assert forall i :: 0 <= i < |xs| ==> (xs + ys)[i] == xs[i];
    assert forall i :: 0 <= i < |ys| ==> (xs + ys)[|xs| + i] == ys[i];
  }

  lemma PositiveNext(b: Book, ops: seq<Op>, n: nat)
    requires 0 < n <= |ops|
    ensures var first := Step(b, ops[0]);
      Positive(Run(b, ops[..n])) <==> TradesPositive(first.trades) && Positive(Run(first.book, ops[1..][..n - 1]))
  {
    hide Step, Run, TradesPositive, AllPositive;
    var first := Step(b, ops[0]);
    PrefixOfRun(b, ops, n);
    assert ops[1..][..n - 1] == ops[1..n];
    TradesPositiveConcat(first.trades, Run(first.book, ops[1..n]).trades);
  }

  /** Throughout a run every resting order and every trade is for something if and only if no modify
      of it gives a live order the quantity 0. */
  lemma {:induction false} PositiveThroughoutIff(b: Book, ops: seq<Op>)
    requires BookPositive(b)
    ensures (forall n :: 0 <= n <= |ops| ==> Positive(Run(b, ops[..n]))) <==> NoEmptyModify(b, ops)
    decreases |ops|
  {
    hide Step, EmptyModify, AllPositive, TradesPositive;
    NoTradesPositive();
    assert ops[..0] == [];
    if ops != [] {
      var first, rest := Step(b, ops[0]), ops[1..];
      StepPositiveIff(b, ops[0]);
      forall n | 0 < n <= |ops|
        ensures Positive(Run(b, ops[..n])) <==> TradesPositive(first.trades) && Positive(Run(first.book, rest[..n - 1]))
      {
        PositiveNext(b, ops, n);
      }
      assert rest[..0] == [];
      if EmptyModify(b, ops[0]) {
        assert !Positive(Run(b, ops[..1]));
      } else {
        PositiveThroughoutIff(first.book, rest);
        assert forall m :: 0 <= m <= |rest| ==> (Positive(Run(first.book, rest[..m])) <==> Positive(Run(b, ops[..m + 1])));
      }
    }
  }

  /** Such a run: an order reduced to nothing stays in line, and the next buyer trades 0 with it. */
  lemma TradeOfNothing() returns (ops: seq<Op>)
    ensures AdmissibleRun(EMPTY_BOOK, ops) && Run(EMPTY_BOOK, ops).trades == [Trade(2, 1, 10, 0, 0)]
  {
    hide Run, AdmissibleRun, Step, Admissible;
    var s0, m := Submit(NewOrder(1, 10, 5, SELL, false), 0), Modify(1, 1, 10, 0);
    var s1 := Submit(NewOrder(2, 10, 1, BUY, false), 0);
    ops := [s0] + ([m] + [s1]);
    OfferedThenEmptied();
    var b1, b2 := Book([], [Entry(1, 10, 5)]), Book([], [Entry(1, 10, 0)]);
    RunOne(EMPTY_BOOK, s0);
    RunOne(b1, m);
    RunOne(b2, s1);
    RunConcat(b1, [m], [s1]);
    RunConcat(EMPTY_BOOK, [s0], [m] + [s1]);
  }

  lemma OfferedThenEmptied()
    ensures var s0, b1 := Submit(NewOrder(1, 10, 5, SELL, false), 0), Book([], [Entry(1, 10, 5)]);
      Admissible(EMPTY_BOOK, s0) && Step(EMPTY_BOOK, s0).book == b1 && Step(EMPTY_BOOK, s0).trades == []
    ensures var m, b1, b2 := Modify(1, 1, 10, 0), Book([], [Entry(1, 10, 5)]), Book([], [Entry(1, 10, 0)]);
      Admissible(b1, m) && Step(b1, m).book == b2 && Step(b1, m).trades == []
    ensures var s1, b2 := Submit(NewOrder(2, 10, 1, BUY, false), 0), Book([], [Entry(1, 10, 0)]);
      Admissible(b2, s1) && Step(b2, s1).trades == [Trade(2, 1, 10, 0, 0)]
  {
    var b1, b2 := Book([], [Entry(1, 10, 5)]), Book([], [Entry(1, 10, 0)]);
    assert b1.asks[0].id == 1 && b2.asks[0].id == 1 && b1.asks[1..] == [] && b2.asks[1..] == [];
    assert HasId(b1.asks, 1) && !HasId(b1.bids, 1);
    var o := NewOrder(2, 10, 1, BUY, false);
    assert Consume(o, 1, []) == Match(1, [], []);
    assert Consume(o, 1, b2.asks) == Match(1, [], [b2.asks[0]]);
    OneTrade(o, b2.asks[0]);
  }

  lemma OneTrade(o: NewOrder, e: Entry)
    ensures Trades(o, [e], 0) == [TradeOf(o, e, 0)]
  {}

  // ---------- through the gateway ----------

  /** A replacement of a live order whose quantity is lost in the cast to 32 bits. */
  predicate EmptyReplacement(b: Book, msg: FixMessage) {
    msg.msgType == 'G' && Live(b, OrderIdOf(msg.origClOrdID)) && msg.qty % TWO32 == 0
  }

  /** None of the messages accepted in a session is one. */
  predicate NoEmptyReplacement(c: RiskConfig, w: Window, b: Book, inbox: seq<Inbound>)
    decreases |inbox|
  {
    inbox == [] ||
    var w' := NextWindow(c, w, b, inbox[0]);
    if Accepts(c, w, b, inbox[0]) then
      !EmptyReplacement(b, inbox[0].msg) && NoEmptyReplacement(c, w', Step(b, OpOf(inbox[0])).book, inbox[1..])
    else NoEmptyReplacement(c, w', b, inbox[1..])
  }

  lemma EmptyIff(b: Book, i: Inbound)
    requires Known(i.msg)
    ensures EmptyModify(b, OpOf(i)) <==> EmptyReplacement(b, i.msg)
  {}

  lemma {:induction false} NoEmptyIff(c: RiskConfig, w: Window, b: Book, inbox: seq<Inbound>)
    ensures NoEmptyModify(b, AcceptedOps(c, w, b, inbox)) <==> NoEmptyReplacement(c, w, b, inbox)
    decreases |inbox|
  {
    hide Step, EmptyModify, EmptyReplacement, Accepts, NextWindow, OpOf;
    if inbox != [] {
      var i := inbox[0];
      var w' := NextWindow(c, w, b, i);
      if Accepts(c, w, b, i) {
        var b' := Step(b, OpOf(i)).book;
        EmptyIff(b, i);
        NoEmptyIff(c, w', b', inbox[1..]);
        assert ([OpOf(i)] + AcceptedOps(c, w', b', inbox[1..]))[1..] == AcceptedOps(c, w', b', inbox[1..]);
      } else {
        NoEmptyIff(c, w', b, inbox[1..]);
      }
    }
  }

  /** Throughout a session every resting order and every trade is for something if and only if no
      accepted replacement of a live order was sent with a multiple of 2^32 as its quantity. */
  lemma SessionPositiveIff(c: RiskConfig, w: Window, b: Book, inbox: seq<Inbound>)
    requires BookPositive(b)
    ensures var ops := AcceptedOps(c, w, b, inbox);
      (forall n :: 0 <= n <= |ops| ==> Positive(Run(b, ops[..n]))) <==> NoEmptyReplacement(c, w, b, inbox)
  {
    hide Positive, NoEmptyModify, NoEmptyReplacement, AcceptedOps, BookPositive, Run;
    PositiveThroughoutIff(b, AcceptedOps(c, w, b, inbox));
    NoEmptyIff(c, w, b, inbox);
  }

  /** Such messages do pass the gate under the default limits: a market order for 2^32 shares arrives
      as an order for none, and a replacement for 2^32 shares empties the order it replaces. */
  lemma EmptyOrdersPass() returns (c: RiskConfig, order: Inbound, replacement: Inbound)
    ensures order.msg.msgType == 'D' && order.msg.qty > 0 && Accepts(c, Window(0, 0), EMPTY_BOOK, order)
    ensures OpOf(order) == Submit(OrderOf(order.msg), order.time) && OpOf(order).order.qty == 0
    ensures var b := Book([Entry(1, 10, 5)], []);
      replacement.msg.qty > 0 && Accepts(c, Window(0, 0), b, replacement) && EmptyReplacement(b, replacement.msg)
  {
    c := RiskConfig(1000000, 100000000000, 500, Limits(5000, 1000000000));
    order := Inbound(RESET.(msgType := 'D', ordType := '1', qty := TWO32), 0, 0);
    replacement := Inbound(RESET.(msgType := 'G', ordType := '1', qty := TWO32, clOrdID := "1", origClOrdID := "1"), 0, 0);
    var b := Book([Entry(1, 10, 5)], []);
    assert b.bids[0].id == 1;
    IdOne();
  }

  lemma IdOne()
    ensures OrderIdOf("1") == 1
  {
    assert "1"[..0] == [];
  }
}
