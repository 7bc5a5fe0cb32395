/** The market maker never trades with itself as long as its spread is positive. */
module SelfTrades {
  import opened Types
  import opened Matching
  import opened BookInvariants
  import opened Execution
  import opened Quoting
  import opened Inventory
  import opened QuotePolicy
  import Pnl

  predicate Apart(t: Trade, start: OrderId) {
    t.buyId < start || t.sellId < start
  }

  predicate AllApart(ts: seq<Trade>, start: OrderId) {
    forall t :: t in ts ==> Apart(t, start)
  }

  /** A bid meets no ask of the maker when none is resting. */
  lemma BidMeetsOthers(b: Book, o: NewOrder, start: OrderId, time: nat)
    requires Wf(b) && OwnOk(b, start, 0, 0) && o.side == BUY
    ensures AllApart(SubmittedTrades(b, o, time), start)
  {
    TradesWithinLimit(b, o, time);
    assert forall i :: 0 <= i < |b.asks| ==> HasId(b.asks, b.asks[i].id);
  }

  /** An ask above its own bid does not reach it. */
  lemma AskMeetsOthers(b: Book, o: NewOrder, start: OrderId, bidId: OrderId, bidPx: Price, time: nat)
    requires Wf(b) && OwnOk(b, start, bidId, 0) && AllAt(b.bids, bidId, bidPx)
    requires o.side == SELL && !o.isMarket && o.price > bidPx
    ensures AllApart(SubmittedTrades(b, o, time), start)
  {
    TradesWithinLimit(b, o, time);
    assert forall i :: 0 <= i < |b.bids| ==> HasId(b.bids, b.bids[i].id);
  }

  lemma OrderlyOwn(c: MakerConfig, m: Maker, b: Book)
    requires Fits(c, m, b)
    ensures OwnOk(b, c.startingId, m.bidId, m.askId) && !Live(b, m.next) && !HasId(b.bids, m.next) && !HasId(b.bids, 0)
  {}

  /** The ask side of a requote, on whatever the bid side left. */
  lemma AskApart(c: MakerConfig, m: Maker, b: Book, mid: Price, time: nat)
    requires Wf(b) && Fits(c, m, b) && m.askId == 0 && AllAt(b.bids, m.bidId, QuotePrice(c, m, mid, BUY)) && c.halfSpread > 0
    ensures AllApart(Run(b, QuoteSide(c, m, mid, SELL, time).ops).trades, c.startingId)
  {
    hide Wf, Fits, OwnOk, AllAt, QuoteSize, Room, SubmittedTrades, SubmittedBook;
    OrderlyOwn(c, m, b);
    RunNone(b);
    var t := QuoteSide(c, m, mid, SELL, time);
    if t.ops != [] {
      RunOne(b, t.ops[0]);
      AskMeetsOthers(b, t.ops[0].order, c.startingId, m.bidId, QuotePrice(c, m, mid, BUY), time);
    }
  }

  lemma BidApart(c: MakerConfig, m: Maker, b: Book, mid: Price, time: nat)
    requires Wf(b) && Fits(c, m, b) && m.bidId == 0 && m.askId == 0
    ensures var t := QuoteSide(c, m, mid, BUY, time); var r := Run(b, t.ops);
      AllApart(r.trades, c.startingId) && AllAt(r.book.bids, t.maker.bidId, QuotePrice(c, m, mid, BUY))
  {
    hide Wf, Fits, OwnOk, AllAt, QuoteSize, Room, QuotePrice, SubmittedTrades, SubmittedBook;
    OrderlyOwn(c, m, b);
    RunNone(b);
    NothingUnder(b.bids, 0, QuotePrice(c, m, mid, BUY));
    var t := QuoteSide(c, m, mid, BUY, time);
    if t.ops != [] {
      RunOne(b, t.ops[0]);
      BidMeetsOthers(b, t.ops[0].order, c.startingId, time);
      RestsAtPrice(b, t.ops[0].order);
    }
  }

  lemma QuoteBothApart(c: MakerConfig, m: Maker, b: Book, mid: Price, time: nat)
    requires Wf(b) && Fits(c, m, b) && m.bidId == 0 && m.askId == 0 && !m.killed && c.halfSpread > 0
    ensures AllApart(Run(b, QuoteBoth(c, m, mid, time).ops).trades, c.startingId)
  {
    hide Wf, Fits, AllAt, QuoteSize, Room, QuotePrice, Run, AdmissibleRun;
    var bid := QuoteSide(c, m, mid, BUY, time);
    BidApart(c, m, b, mid, time);
    QuoteSideFits(c, m, b, mid, BUY, time);
    SamePrice(c, m, bid.maker, mid);
    AskApart(c, bid.maker, Run(b, bid.ops).book, mid, time);
    RunConcat(b, bid.ops, QuoteSide(c, bid.maker, mid, SELL, time).ops);
  }

  lemma SamePrice(c: MakerConfig, m: Maker, x: Maker, mid: Price)
    requires x.account == m.account
    ensures QuotePrice(c, x, mid, BUY) == QuotePrice(c, m, mid, BUY)
  {}

  lemma TickApart(c: MakerConfig, m: Maker, b: Book, heard: seq<Trade>, time: nat)
    requires Wf(b) && Fits(c, m, b) && Fits(c, Scan(m, heard), b) && c.halfSpread > 0
    ensures AllApart(Run(b, Tick(c, m, b, heard, time).ops).trades, c.startingId)
  {
    hide Wf, Fits, Run, AdmissibleRun, DropQuotes, QuoteBoth, Changed, OverLoss, Scan, TwoSided, Mid;
    RunNone(b);
    var x := Scan(m, heard);
    var t := DropQuotes(x);
    DropHasNoTrades(b, x);
    DropHasNoTrades(b, x.(killed := true));
    DropQuotesFits(c, x, b);
    DropKeepsFlag(x);
    if !x.killed {
      QuoteBothApart(c, t.maker, Run(b, t.ops).book, Mid(b), time);
      RunConcat(b, t.ops, QuoteBoth(c, t.maker, Mid(b), time).ops);
    }
  }

  /** The taker of a synthetic operation is never the maker. */
  lemma HeardApart(b: Book, op: Op, start: OrderId)
    requires Wf(b) && Synthetic(op, start)
    ensures AllApart(Step(b, op).trades, start)
  {
    if op.Submit? { TradesWithinLimit(b, op.order, op.time); }
  }

  /** Over every session, no trade has the maker on both sides. */
  lemma {:induction false} NoSelfTrades(c: MakerConfig, m: Maker, b: Book, beats: seq<Beat>)
    requires Wf(b) && Fits(c, m, b) && FreshBeats(b, beats, c.startingId) && c.halfSpread > 0
    ensures AllApart(AllTrades(Play(c, m, b, beats)), c.startingId)
    decreases |beats|
  {
    hide Wf, Fits, FreshBeats, Step, Run, Tick, AdmissibleRun, Admissible, TwoSided;
    if beats != [] {
      var r := Step(b, beats[0].op);
      var p := PlayRound(c, m, b, beats[0]);
      RoundFits(c, m, b, beats);
      FirstRound(c, m, b, beats);
      HeardApart(b, beats[0].op, c.startingId);
      TickApart(c, m, r.book, r.trades, beats[0].time);
      if !p.maker.killed { NoSelfTrades(c, p.maker, p.book, beats[1..]); }
    }
  }

  // ---------- without a spread ----------

  /** Some session of a new maker, among orders of others, has a trade with the maker on both sides. */
  ghost predicate CanTradeWithItself(c: MakerConfig) {
    exists b: Book, beats: seq<Beat> ::
      && Wf(b) && IdsOk(b, c.startingId) && FreshBeats(b, beats, c.startingId)
      && !AllApart(AllTrades(Play(c, NewMaker(c), b, beats)), c.startingId)
  }

  /** The orders of the others just outside both quotes. */
  function Outside(c: MakerConfig): Book
    requires c.halfSpread <= 0
  {
    Book([Entry(1, 1, 1)], [Entry(2, 3 - 2 * c.halfSpread, 1)])
  }

  function QuoteOf(c: MakerConfig, side: Side): NewOrder
    requires c.quoteSize > 0 && c.maxPosition > 0
  {
    if side == BUY then NewOrder(c.startingId, 2 - 2 * c.halfSpread, Min(c.maxPosition, c.quoteSize), BUY, false)
    else NewOrder(c.startingId + 1, 2, Min(c.maxPosition, c.quoteSize), SELL, false)
  }

  /** The configuration lets the maker quote: it has a size, room, a loss to make, and two ids below its
      own for others to make a book with. */
  predicate Quotes(c: MakerConfig) {
    c.quoteSize > 0 && c.maxPosition > 0 && c.maxLoss >= 0 && c.startingId > 2
  }

  lemma OutsideFits(c: MakerConfig)
    requires Quotes(c) && c.halfSpread <= 0
    ensures Wf(Outside(c)) && IdsOk(Outside(c), c.startingId)
    ensures TwoSided(Outside(c)) && Mid(Outside(c)) == 2 - c.halfSpread
  {
    var b := Outside(c);
    assert |b.bids| == 1 && |b.asks| == 1;
    assert forall x: OrderId :: Live(b, x) ==> x == 1 || x == 2;
  }

  lemma QuotesPlaced(c: MakerConfig)
    requires Quotes(c) && c.halfSpread <= 0
    ensures QuoteBoth(c, NewMaker(c), 2 - c.halfSpread, 0).ops == [Submit(QuoteOf(c, BUY), 0)] + [Submit(QuoteOf(c, SELL), 0)]
    ensures Changed(c, NewMaker(c), 2 - c.halfSpread)
  {
    hide QuoteSide;
    var m, mid := NewMaker(c), 2 - c.halfSpread;
    OneQuote(c, m, BUY);
    var bid := QuoteSide(c, m, mid, BUY, 0);
    OneQuote(c, bid.maker, SELL);
  }

  lemma OneQuote(c: MakerConfig, m: Maker, side: Side)
    requires Quotes(c) && c.halfSpread <= 0 && m.account.position == 0
    ensures var o := QuoteOf(c, side); var mid := 2 - c.halfSpread;
      QuotePrice(c, m, mid, side) == o.price && QuoteSide(c, m, mid, side, 0) == Place(m, o.price, o.qty, side, 0)
  {
    hide Place;
    assert QuotePrice(c, m, 2 - c.halfSpread, side) == QuoteOf(c, side).price;
    assert Room(c, m, side) == c.maxPosition;
  }

  lemma BidThenAsk(c: MakerConfig)
    requires Quotes(c) && c.halfSpread <= 0
    ensures var b := Outside(c); var b1 := Step(b, Submit(QuoteOf(c, BUY), 0)).book;
      var ts := Step(b1, Submit(QuoteOf(c, SELL), 0)).trades;
      ts != [] && ts[0].buyId == c.startingId && ts[0].sellId == c.startingId + 1
  {
    hide Mid;
    var b, bid, ask := Outside(c), QuoteOf(c, BUY), QuoteOf(c, SELL);
    assert Consume(bid, bid.qty, b.asks) == Match(bid.qty, b.asks, []);
    var rested := Entry(bid.id, bid.price, bid.qty);
    var b1 := Book([rested] + b.bids, b.asks);
    assert SubmittedBook(b, bid) == b1;
    assert b1.bids[0] == rested && b1.bids[1..] == b.bids;
    var m := Consume(ask, ask.qty, b1.bids);
    assert m.fills != [] && m.fills[0] == rested;
  }

  lemma TickQuotes(c: MakerConfig)
    requires Quotes(c) && c.halfSpread <= 0
    ensures Tick(c, NewMaker(c), Outside(c), [], 0).ops == [Submit(QuoteOf(c, BUY), 0)] + [Submit(QuoteOf(c, SELL), 0)]
  {
    hide Mid, TwoSided, QuoteBoth, Changed;
    OutsideFits(c);
    QuotesPlaced(c);
    var m := NewMaker(c);
    assert Scan(m, []) == m && !OverLoss(c, m, 2 - c.halfSpread);
    assert DropQuotes(m) == Turn(m, []);
    assert [] + QuoteBoth(c, m, 2 - c.halfSpread, 0).ops == QuoteBoth(c, m, 2 - c.halfSpread, 0).ops;
  }

  lemma FirstRoundTrades(c: MakerConfig)
    requires Quotes(c) && c.halfSpread <= 0
    ensures !AllApart(PlayRound(c, NewMaker(c), Outside(c), Beat(Cancel(0), 0)).own, c.startingId)
  {
    hide Tick, Mid, TwoSided, Submitted, Run;
    var b := Outside(c);
    var x, y := Submit(QuoteOf(c, BUY), 0), Submit(QuoteOf(c, SELL), 0);
    assert Step(b, Cancel(0)) == Outcome(b, [], []);
    TickQuotes(c);
    BidThenAsk(c);
    var b1 := Step(b, x).book;
    RunOne(b, x);
    RunOne(b1, y);
    RunConcat(b, [x], [y]);
    var ts := Step(b1, y).trades;
    assert ts[0] in Step(b, x).trades + ts;
  }

  lemma OutsideSelfTrades(c: MakerConfig)
    requires Quotes(c) && c.halfSpread <= 0
    ensures CanTradeWithItself(c)
  {
    hide PlayRound, Wf, IdsOk, AllApart;
    var b, beats := Outside(c), [Beat(Cancel(0), 0)];
    OutsideFits(c);
    FirstRoundTrades(c);
    var p := PlayRound(c, NewMaker(c), b, beats[0]);
    assert beats[1..] == [] && Play(c, NewMaker(c), b, beats) == [p];
    assert [p][1..] == [] && AllTrades([p]) == p.heard + p.own + [];
    PartApart(p.heard, p.own, c.startingId);
    assert p.heard + p.own + [] == p.heard + p.own;
    assert FreshBeats(b, beats, c.startingId);
  }

  lemma PartApart(xs: seq<Trade>, ys: seq<Trade>, start: OrderId)
    ensures AllApart(xs + ys, start) ==> AllApart(ys, start)
  {}

  // ---------- a maker that never quotes ----------

  lemma {:induction false} NoFillUnderZero(ts: seq<Trade>)
    requires forall i :: 0 <= i < |ts| ==> ts[i].buyId != 0 && ts[i].sellId != 0
    ensures FillsOf(ts, 0, 0) == []
  {
    if ts != [] { NoFillUnderZero(ts[1..]); }
  }

  lemma HeardUnderIds(b: Book, op: Op, start: OrderId)
    requires Wf(b) && Synthetic(op, start) && IdsOk(b, start)
    ensures FillsOf(Step(b, op).trades, 0, 0) == []
  {
    hide FillsOf;
    var ts := Step(b, op).trades;
    if op.Submit? {
      TradesWithinLimit(b, op.order, op.time);
      var opp := b.On(op.order.side.Opposite());
      assert forall i :: 0 <= i < |opp| ==> HasId(opp, opp[i].id);
      assert !Live(b, 0);
    }
    NoFillUnderZero(ts);
  }

  /** Two sides take two orders, and two ids. */
  lemma TwoSidedIds(b: Book, start: OrderId)
    requires Wf(b) && IdsOk(b, start) && TwoSided(b)
    ensures start > 2
  {
    var x, y := b.bids[0].id, b.asks[0].id;
    assert HasId(b.bids, x) && HasId(b.asks, y);
    assert Live(b, x) && Live(b, y) && x != y && !Live(b, 0);
  }

  lemma NeverPlaces(c: MakerConfig, m: Maker, mid: Price, side: Side, time: nat)
    requires m.account.position == 0 && (c.quoteSize == 0 || c.maxPosition <= 0)
    ensures QuoteSide(c, m, mid, side, time) == Turn(m, [])
  {}

  /** Such a maker does nothing but be killed. */
  lemma IdleTick(c: MakerConfig, b: Book, heard: seq<Trade>, time: nat)
    requires !Quotes(c) && Wf(b) && IdsOk(b, c.startingId) && FillsOf(heard, 0, 0) == []
    ensures var t := Tick(c, NewMaker(c), b, heard, time);
      t.ops == [] && (t.maker == NewMaker(c) || t.maker.killed)
  {
    hide Wf, IdsOk, TwoSided, Mid, QuoteSide, Changed;
    var m := NewMaker(c);
    assert Scan(m, heard) == m;
    assert OverLoss(c, m, Mid(b)) <==> c.maxLoss < 0;
    if TwoSided(b) {
      TwoSidedIds(b, c.startingId);
      if c.maxLoss >= 0 {
        NeverPlaces(c, m, Mid(b), BUY, time);
        NeverPlaces(c, m, Mid(b), SELL, time);
      }
    }
  }

  lemma {:induction false} IdleSession(c: MakerConfig, b: Book, beats: seq<Beat>)
    requires !Quotes(c) && Wf(b) && IdsOk(b, c.startingId) && FreshBeats(b, beats, c.startingId)
    ensures AllApart(AllTrades(Play(c, NewMaker(c), b, beats)), c.startingId)
    decreases |beats|
  {
    hide Wf, IdsOk, FreshBeats, Step, Tick, FillsOf, Admissible, Quotes, TwoSided, Mid;
    if beats != [] {
      var m, r := NewMaker(c), Step(b, beats[0].op);
      var t := Tick(c, m, r.book, r.trades, beats[0].time);
      var p := PlayRound(c, m, b, beats[0]);
      FirstAdmissible(b, beats, c.startingId);
      FirstSynthetic(b, beats, c.startingId);
      StepKeepsWf(b, beats[0].op);
      StepIdsOk(b, beats[0].op, c.startingId);
      HeardUnderIds(b, beats[0].op, c.startingId);
      HeardApart(b, beats[0].op, c.startingId);
      IdleTick(c, r.book, r.trades, beats[0].time);
      RunNone(r.book);
      FreshBeatsLeft(c, m, b, beats);
      if !p.maker.killed { IdleSession(c, p.book, beats[1..]); }
    }
  }

  lemma FirstSynthetic(b: Book, beats: seq<Beat>, start: OrderId)
    requires beats != [] && FreshBeats(b, beats, start)
    ensures Synthetic(beats[0].op, start)
  {}

  /** Exactly which configurations let the maker trade with itself in some session: those that let it
      quote at all, with a half spread that is not positive. */
  lemma SelfTradeIff(c: MakerConfig)
    ensures CanTradeWithItself(c) <==> c.halfSpread <= 0 && Quotes(c)
  {
    hide Wf, IdsOk, AllApart, Play, Quotes, FreshBeats;
    if c.halfSpread <= 0 && Quotes(c) {
      OutsideSelfTrades(c);
    } else {
      forall b: Book, beats: seq<Beat> | Wf(b) && IdsOk(b, c.startingId) && FreshBeats(b, beats, c.startingId)
        ensures AllApart(AllTrades(Play(c, NewMaker(c), b, beats)), c.startingId)
      {
        if Quotes(c) {
          QuotesFits(c, b);
          NoSelfTrades(c, NewMaker(c), b, beats);
        } else {
          IdleSession(c, b, beats);
        }
      }
    }
  }

  lemma QuotesFits(c: MakerConfig, b: Book)
    requires Quotes(c) && IdsOk(b, c.startingId)
    ensures Fits(c, NewMaker(c), b)
  {
    hide IdsOk;
    NewMakerFits(c, b);
  }
}
