/** The order entry gateway: a parsed message goes through the risk gate and becomes one operation
    of the book, or nothing. */
module Gateway {
  import opened Types
  import opened Matching
  import opened Fix
  import opened RateLimit
  import opened Risk
  import opened OrderBooks
  import opened MatchingLemmas
  import QueuePlace

  // ---------- what a message asks for ----------

  /** `static_cast<OrderId>(parseFastInt(...))`: the signed value as an unsigned 64-bit id. */
  function OrderIdOf(s: string): OrderId {
    Value(s) % TWO64
  }

  function OrderOf(msg: FixMessage): NewOrder {
    NewOrder(OrderIdOf(msg.clOrdID), msg.price, Wrap32(msg.qty), if msg.side == '1' then BUY else SELL, IsMarket(msg))
  }

  datatype Inbound = Inbound(msg: FixMessage, nowNs: nat, time: nat)

  /** New orders and replacements pass the risk gate; cancels do not. */
  predicate Gated(msg: FixMessage) {
    msg.msgType == 'D' || msg.msgType == 'G'
  }

  predicate Known(msg: FixMessage) {
    Gated(msg) || msg.msgType == 'F'
  }

  function OpOf(i: Inbound): Op
    requires Known(i.msg)
  {
    if i.msg.msgType == 'D' then Submit(OrderOf(i.msg), i.time)
    else if i.msg.msgType == 'F' then Cancel(OrderIdOf(i.msg.clOrdID))
    else Modify(OrderIdOf(i.msg.origClOrdID), OrderIdOf(i.msg.clOrdID), i.msg.price, Wrap32(i.msg.qty))
  }

  /** The message reaches the rate limiter. */
  predicate Counted(c: RiskConfig, b: Book, msg: FixMessage) {
    Gated(msg) && StaticVerdict(c, BestPrice(b.bids), BestPrice(b.asks), msg) == NONE
  }

  /** The message becomes an operation of the book. */
  predicate Accepts(c: RiskConfig, w: Window, b: Book, i: Inbound): (yes: bool)
    ensures yes ==> Known(i.msg)
  {
    i.msg.msgType == 'F' || (Counted(c, b, i.msg) && Passes(c.limits, w, i.nowNs))
  }

  function NextWindow(c: RiskConfig, w: Window, b: Book, i: Inbound): Window {
    if Counted(c, b, i.msg) then Count(c.limits, w, i.nowNs) else w
  }

  /** The operations a session of messages amounts to. */
  function AcceptedOps(c: RiskConfig, w: Window, b: Book, inbox: seq<Inbound>): seq<Op>
    decreases |inbox|
  {
    if inbox == [] then []
    else
      var w' := NextWindow(c, w, b, inbox[0]);
      if Accepts(c, w, b, inbox[0]) then
        [OpOf(inbox[0])] + AcceptedOps(c, w', Step(b, OpOf(inbox[0])).book, inbox[1..])
      else AcceptedOps(c, w', b, inbox[1..])
  }

  lemma NoTrades(b: Book, op: Op)
    ensures op.Modify? ==> Modified(b, op.origId, op.newId, op.newPrice, op.newQty).trades == []
  {}

  lemma UnknownIsIgnored(c: RiskConfig, w: Window, b: Book, i: Inbound)
    requires !Known(i.msg)
    ensures NextWindow(c, w, b, i) == w && !Accepts(c, w, b, i)
  {}

  // ---------- what a handled message does, field by field ----------

  /** A new order: tag 11 is its id as an unsigned 64-bit number, tag 38 its quantity cut to 32 bits, tag 54
      is '1' for a buy and tag 40 is '1' for a market order. */
  predicate OrderTaken(i: Inbound, b: Book, b': Book, trades: seq<Trade>) {
    var o := NewOrder(Value(i.msg.clOrdID) % TWO64, i.msg.price, i.msg.qty % TWO32,
                      if i.msg.side == '1' then BUY else SELL, i.msg.ordType == '1');
    b' == SubmittedBook(b, o) && trades == SubmittedTrades(b, o, i.time)
  }

  /** A cancel: the order named by tag 11 is gone, and every other order is in its place. */
  predicate CancelTaken(msg: FixMessage, b: Book, b': Book) {
    forall s: Side :: b'.On(s) == Without(b.On(s), Value(msg.clOrdID) % TWO64)
  }

  /** A replacement: the order named by tag 41 stands on its side under the id of tag 11, at the price and
      the cut quantity of the message, and every other order is in its place; without such an order
      nothing changes. */
  predicate ReplacementTaken(msg: FixMessage, b: Book, b': Book) {
    var orig, id := Value(msg.origClOrdID) % TWO64, Value(msg.clOrdID) % TWO64;
    forall s: Side ::
      if HasId(b.On(s), orig) then
        Entry(id, msg.price, msg.qty % TWO32) in b'.On(s) && Without(b'.On(s), id) == Without(b.On(s), orig)
      else b'.On(s) == b.On(s)
  }

  /** The id a replacement brings in is not taken by another order. */
  predicate FreeId(msg: FixMessage, b: Book) {
    Value(msg.clOrdID) % TWO64 == Value(msg.origClOrdID) % TWO64 || !Live(b, Value(msg.clOrdID) % TWO64)
  }

  lemma OrderIs(i: Inbound, b: Book)
    requires i.msg.msgType == 'D'
    ensures OrderTaken(i, b, Step(b, OpOf(i)).book, Step(b, OpOf(i)).trades)
  {
    hide SubmittedBook, SubmittedTrades, Value;
  }

  lemma CancelIs(i: Inbound, b: Book)
    requires i.msg.msgType == 'F' && Wf(b)
    ensures CancelTaken(i.msg, b, Step(b, OpOf(i)).book)
  {
    hide Wf, Cancelled, Value;
    QueuePlace.CancelDrops(b, OrderIdOf(i.msg.clOrdID));
  }

  lemma ReplacementIs(i: Inbound, b: Book)
    requires i.msg.msgType == 'G' && Wf(b)
    ensures FreeId(i.msg, b) ==> ReplacementTaken(i.msg, b, Step(b, OpOf(i)).book)
  {
    hide Wf, Modified, Value, HasId, Live;
    var op := OpOf(i);
    if FreeId(i.msg, b) { QueuePlace.ModifyReplaces(b, op.origId, op.newId, op.newPrice, op.newQty); }
  }

  /** On an empty book a limit order rests whole, on the bids exactly if its side is '1', and a market order
      does nothing. */
  lemma FirstOrder(i: Inbound, b': Book, trades: seq<Trade>)
    requires OrderTaken(i, EMPTY_BOOK, b', trades)
    ensures var e := Entry(Value(i.msg.clOrdID) % TWO64, i.msg.price, i.msg.qty % TWO32);
      && trades == []
      && b' == (if i.msg.ordType == '1' || e.qty == 0 then EMPTY_BOOK
                else if i.msg.side == '1' then Book([e], []) else Book([], [e]))
  {
    hide Value;
  }

  // ---------- the gateway ----------

  class OrderEntryGateway {
    const book: OrderBook
    const risk: RiskEngine

    constructor (book: OrderBook, risk: RiskEngine)
      ensures this.book == book && this.risk == risk
    {
      this.book, this.risk := book, risk;
    }

    ghost predicate Valid()
      reads book, book.pool, book.Repr(), book.orderMap.Values, risk
    {
      book.Valid() && risk.stats.Balanced()
    }

    /** Sync the reference prices, then ask the gate. */
    method PassesRisk(msg: FixMessage, nowNs: nat) returns (passed: bool)
      requires book.Sound() && risk.stats.Balanced()
      modifies risk
      ensures risk.stats.Balanced() && risk.config == old(risk.config)
      ensures var v := StaticVerdict(risk.config, BestPrice(book.Model().bids), BestPrice(book.Model().asks), msg);
        var w := old(risk.CurrentWindow());
        && passed == (v == NONE && Passes(risk.config.limits, w, nowNs))
        && risk.CurrentWindow() == if v == NONE then Count(risk.config.limits, w, nowNs) else w
    {
      hide OrderBook.Sound, OrderBook.Model, StaticVerdict, Count, Passes;
      book.TopAgrees();
      risk.UpdateBBO(book.GetBestBid(), book.GetBestAsk());
      var rejection := risk.CheckOrder(msg, nowNs);
      passed := rejection == NONE;
    }

    method HandleNewOrderSingle(i: Inbound)
      requires Valid() && i.msg.msgType == 'D'
      modifies book, risk, book.Repr()
      ensures risk.stats.Balanced() && risk.config == old(risk.config) && Handled(i)
      ensures Accepts(risk.config, old(risk.CurrentWindow()), old(book.Model()), i) ==>
        && old(book.tradeLog) <= book.tradeLog
        && OrderTaken(i, old(book.Model()), book.Model(), book.tradeLog[|old(book.tradeLog)|..])
      ensures forall x :: x in book.Repr() ==> x in old(book.Repr()) || fresh(x)
    {
      hide OrderBook.LevelsOk, OrderBook.IndexOk, OrderBook.NoEmptyLevel, OrderBook.InHand, OrderBook.View,
        OrderBook.Model, OrderBook.Loose, StaticVerdict, Value, Count, Passes, BestPrice,
        Submitted, Live, OrderTaken;
      OrderIs(i, book.Model());
      var passed := PassesRisk(i.msg, i.nowNs);
      if passed {
        var o := OrderOf(i.msg);
        FreshIdIsSafe(book.Model(), o);
        book.Enter(o.id, o.price, o.qty, o.side, o.isMarket, i.time);
      }
    }

    method HandleCancelRequest(i: Inbound)
      requires Valid() && i.msg.msgType == 'F'
      modifies book, book.Repr()
      ensures risk.stats.Balanced() && risk.config == old(risk.config) && Handled(i)
      ensures CancelTaken(i.msg, old(book.Model()), book.Model())
      ensures forall x :: x in book.Repr() ==> x in old(book.Repr()) || fresh(x)
    {
      hide OrderBook.LevelsOk, OrderBook.IndexOk, OrderBook.NoEmptyLevel, OrderBook.InHand, OrderBook.View,
        OrderBook.Model, OrderBook.Loose, StaticVerdict, Value, CancelTaken, Wf;
      book.ModelWf();
      CancelIs(i, book.Model());
      book.CancelOrder(OrderIdOf(i.msg.clOrdID));
    }

    method HandleCancelReplace(i: Inbound)
      requires Valid() && i.msg.msgType == 'G'
      modifies book, risk, book.Repr()
      ensures risk.stats.Balanced() && risk.config == old(risk.config) && Handled(i)
      ensures Accepts(risk.config, old(risk.CurrentWindow()), old(book.Model()), i)
                && FreeId(i.msg, old(book.Model()))
              ==> ReplacementTaken(i.msg, old(book.Model()), book.Model())
      ensures forall x :: x in book.Repr() ==> x in old(book.Repr()) || fresh(x)
    {
      hide OrderBook.LevelsOk, OrderBook.IndexOk, OrderBook.NoEmptyLevel, OrderBook.InHand, OrderBook.View,
        OrderBook.Model, OrderBook.Loose, StaticVerdict, Value, Modified, Live, Count, Passes,
        BestPrice, ReplacementTaken, FreeId, Wf;
      book.ModelWf();
      ReplacementIs(i, book.Model());
      var passed := PassesRisk(i.msg, i.nowNs);
      NoTrades(book.Model(), OpOf(i));
      if passed {
        book.ModifyOrder(OrderIdOf(i.msg.origClOrdID), OrderIdOf(i.msg.clOrdID), i.msg.price, Wrap32(i.msg.qty));
      }
    }

    /** `onParsedMessage`: messages of any other type are dropped. */
    method OnParsedMessage(i: Inbound)
      requires Valid()
      modifies book, risk, book.Repr()
      ensures risk.stats.Balanced() && risk.config == old(risk.config) && Handled(i)
      ensures forall x :: x in book.Repr() ==> x in old(book.Repr()) || fresh(x)
    {
      hide OrderBook.LevelsOk, OrderBook.IndexOk, OrderBook.NoEmptyLevel, OrderBook.InHand, OrderBook.View,
        OrderBook.Model, OrderBook.Loose, StaticVerdict, Value, Accepts, NextWindow, OpOf;
      if !Known(i.msg) { UnknownIsIgnored(risk.config, risk.CurrentWindow(), book.Model(), i); }
      if i.msg.msgType == 'D' {
        HandleNewOrderSingle(i);
      } else if i.msg.msgType == 'F' {
        HandleCancelRequest(i);
      } else if i.msg.msgType == 'G' {
        HandleCancelReplace(i);
      }
    }

    /** What handling a message does to the book, its log and its feed. */
    twostate predicate Handled(i: Inbound)
      reads *
    {
      var b, w, c := old(book.Model()), old(risk.CurrentWindow()), risk.config;
      && risk.CurrentWindow() == NextWindow(c, w, b, i)
      && book.Sound()
      && (if Known(i.msg) && Accepts(c, w, b, i) then
            var r := Step(b, OpOf(i));
            && book.Model() == r.book && book.tradeLog == old(book.tradeLog) + r.trades
            && book.feed == old(book.feed) + (if book.hasPublisher then r.published else [])
            && (Admissible(b, OpOf(i)) ==> book.Valid())
          else
            && book.Model() == b && book.tradeLog == old(book.tradeLog) && book.feed == old(book.feed)
            && book.Valid())
      && (book.Valid() ==> book.Loose() == old(book.Loose()))
    }

    /** The engine thread's loop over a finite stretch of messages: the book, the log and the feed
        end up as the accepted operations, run in order, leave them; no node is lost on the way. */
    method RunMatchingEngine(inbox: seq<Inbound>)
      requires Valid()
      requires AdmissibleRun(book.Model(), AcceptedOps(risk.config, risk.CurrentWindow(), book.Model(), inbox))
      modifies book, risk, book.Repr()
      ensures Valid() && book.Loose() == old(book.Loose())
      ensures var ops := AcceptedOps(risk.config, old(risk.CurrentWindow()), old(book.Model()), inbox);
        var r := Run(old(book.Model()), ops);
        && book.Model() == r.book && book.tradeLog == old(book.tradeLog) + r.trades
        && book.feed == old(book.feed) + if book.hasPublisher then r.published else []
    {
      hide OrderBook.Valid, OrderBook.Model, OrderBook.Loose, OrderBook.Sound, OrderBook.Repr, Admissible,
        Step, NextWindow, Accepts, OpOf, Run, AcceptedOps, AdmissibleRun, OnTrack;
      ghost var b, w, c := book.Model(), risk.CurrentWindow(), risk.config;
      ghost var whole := Run(b, AcceptedOps(c, w, b, inbox));
      var n := 0;
      StartOfTrack(whole, book.tradeLog, book.feed, book.hasPublisher);
      assert inbox[0..] == inbox;
      while n < |inbox|
        invariant n <= |inbox| && Valid() && book.Loose() == old(book.Loose()) && risk.config == c
        invariant forall x :: x in book.Repr() ==> x in old(book.Repr()) || fresh(x)
        invariant var ops := AcceptedOps(c, risk.CurrentWindow(), book.Model(), inbox[n..]);
          AdmissibleRun(book.Model(), ops)
          && OnTrack(whole, Run(book.Model(), ops), old(book.tradeLog), book.tradeLog,
                     old(book.feed), book.feed, book.hasPublisher)
      {
        NextOp(c, risk.CurrentWindow(), book.Model(), inbox, n, old(book.tradeLog), book.tradeLog,
               old(book.feed), book.feed, book.hasPublisher, whole);
        OnParsedMessage(inbox[n]);
        n := n + 1;
      }
      EndOfTrack(c, risk.CurrentWindow(), book.Model(), inbox[n..], old(book.tradeLog), book.tradeLog,
                 old(book.feed), book.feed, book.hasPublisher, whole);
    }
  }

  /** What is done and what is still to be done together are the whole run. */
  ghost predicate OnTrack(whole: Outcome, rest: Outcome, log0: seq<Trade>, log: seq<Trade>,
                          feed0: seq<Bbo>, feed: seq<Bbo>, publishing: bool) {
    && rest.book == whole.book
    && log + rest.trades == log0 + whole.trades
    && (publishing ==> feed + rest.published == feed0 + whole.published)
    && (!publishing ==> feed == feed0)
  }

  lemma StartOfTrack(whole: Outcome, log: seq<Trade>, feed: seq<Bbo>, publishing: bool)
    ensures OnTrack(whole, whole, log, log, feed, feed, publishing)
  {}

  lemma EndOfTrack(c: RiskConfig, w: Window, b: Book, rest: seq<Inbound>, log0: seq<Trade>, log: seq<Trade>,
                   feed0: seq<Bbo>, feed: seq<Bbo>, publishing: bool, whole: Outcome)
    requires rest == []
    requires OnTrack(whole, Run(b, AcceptedOps(c, w, b, rest)), log0, log, feed0, feed, publishing)
    ensures b == whole.book && log == log0 + whole.trades
    ensures feed == feed0 + if publishing then whole.published else []
  {
    assert log + [] == log && feed + [] == feed && feed0 + [] == feed0;
  }

  lemma NextOp(c: RiskConfig, w: Window, b: Book, inbox: seq<Inbound>, n: nat, log0: seq<Trade>, log: seq<Trade>,
               feed0: seq<Bbo>, feed: seq<Bbo>, publishing: bool, whole: Outcome)
    requires n < |inbox|
    requires AdmissibleRun(b, AcceptedOps(c, w, b, inbox[n..]))
    requires OnTrack(whole, Run(b, AcceptedOps(c, w, b, inbox[n..])), log0, log, feed0, feed, publishing)
    ensures var i := inbox[n]; var w' := NextWindow(c, w, b, i);
      if Accepts(c, w, b, i) then
        var r := Step(b, OpOf(i)); var later := AcceptedOps(c, w', r.book, inbox[n + 1..]);
        && Admissible(b, OpOf(i)) && AdmissibleRun(r.book, later)
        && OnTrack(whole, Run(r.book, later), log0, log + r.trades,
                   feed0, feed + (if publishing then r.published else []), publishing)
      else
        var later := AcceptedOps(c, w', b, inbox[n + 1..]);
        && AdmissibleRun(b, later)
        && OnTrack(whole, Run(b, later), log0, log, feed0, feed, publishing)
  {
    hide Admissible, Step, NextWindow, Accepts, OpOf;
    var i := inbox[n];
    var w' := NextWindow(c, w, b, i);
    assert inbox[n..][0] == i && inbox[n..][1..] == inbox[n + 1..];
    if Accepts(c, w, b, i) {
      var r := Step(b, OpOf(i));
      var later := AcceptedOps(c, w', r.book, inbox[n + 1..]);
      var ops := [OpOf(i)] + later;
      assert ops[1..] == later;
      var rest := Run(r.book, later);
      assert log + (r.trades + rest.trades) == log + r.trades + rest.trades;
      assert feed + (r.published + rest.published) == feed + r.published + rest.published;
      assert feed + [] == feed;
    }
  }
}
