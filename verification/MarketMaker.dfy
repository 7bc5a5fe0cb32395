/** The market maker on the heap book, and the simulator's loop around the two. */
module MarketMaking {
  import opened Types
  import opened Matching
  import opened BookInvariants
  import opened Levels
  import opened OrderBooks
  import opened Quoting
  import opened Inventory
  import Pnl

  lemma FillsStep(a: Pnl.Account, ts: seq<Trade>, i: nat, bidId: OrderId, askId: OrderId)
    requires i < |ts|
    ensures Pnl.UpdateAll(a, FillsOf(ts[i..], bidId, askId))
         == Pnl.UpdateAll(Pnl.UpdateAll(a, FillsIn(ts[i], bidId, askId)), FillsOf(ts[i + 1..], bidId, askId))
  {
    assert ts[i..][0] == ts[i] && ts[i..][1..] == ts[i + 1..];
    Pnl.UpdateAllConcat(a, FillsIn(ts[i], bidId, askId), FillsOf(ts[i + 1..], bidId, askId));
  }

  lemma OneFill(a: Pnl.Account, f: Pnl.Fill)
    ensures Pnl.UpdateAll(a, [f]) == Pnl.Update(a, f) && Pnl.UpdateAll(a, []) == a
  {
    hide Pnl.Update;
    assert [f][1..] == [];
  }

  lemma BookIsWf(book: OrderBook)
    requires book.Valid()
    ensures Wf(book.Model())
  {
    hide OrderBook.LevelsOk, OrderBook.IndexOk, OrderBook.Model, Wf;
    book.ModelWf();
  }

  class MarketMaker {
    const book: OrderBook
    const config: MakerConfig
    var netPosition: int
    var realizedPnl: real
    var avgEntryPrice: real
    var killed: bool
    var currentBidId: OrderId
    var currentAskId: OrderId
    var currentBidPx: Price
    var currentAskPx: Price
    var nextOrderId: OrderId

    function Account(): Pnl.Account
      reads this`netPosition, this`realizedPnl, this`avgEntryPrice
    {
      Pnl.Account(netPosition, realizedPnl, avgEntryPrice)
    }

    /** The maker as a value. */
    function State(): Maker
      reads this
    {
      Maker(Account(), killed, currentBidId, currentAskId, currentBidPx, currentAskPx, nextOrderId)
    }

    /** All the maker needs of the book it shares: the next id it will use is not live. */
    ghost predicate Valid()
      reads this, book, book.pool, book.Repr(), book.orderMap.Values
    {
      book.Valid() && IdsOk(book.Model(), nextOrderId) && nextOrderId > 0
    }

    /** The book, its log and its feed stand where an outcome has taken them. */
    ghost predicate Reached(r: Outcome, log0: seq<Trade>, feed0: seq<Bbo>)
      reads *
    {
      && book.Model() == r.book && book.tradeLog == log0 + r.trades
      && book.feed == feed0 + if book.hasPublisher then r.published else []
    }

    constructor (book: OrderBook, config: MakerConfig)
      requires book.Valid() && IdsOk(book.Model(), config.startingId) && config.startingId > 0
      ensures this.book == book && this.config == config && Valid()
      ensures State() == Maker(Pnl.FLAT, false, 0, 0, 0, 0, config.startingId)
    {
      hide OrderBook.LevelsOk, OrderBook.IndexOk, OrderBook.NoEmptyLevel, OrderBook.View, OrderBook.Model, IdsOk;
      this.book, this.config := book, config;
      netPosition, realizedPnl, avgEntryPrice, killed := 0, 0.0, 0.0, false;
      currentBidId, currentAskId, currentBidPx, currentAskPx := 0, 0, 0, 0;
      nextOrderId := config.startingId;
      new;
      assert book.Model() == old(book.Model());
      assert book.pool.Nodes() == old(book.pool.Nodes());
      assert forall o :: o in book.pool.Nodes() ==> o as object != this;
      assert book.LevelsOk();
    }

    // ----- accounting -----

    method UpdatePosition(qtyChange: int, fillPrice: real)
      modifies this`netPosition, this`realizedPnl, this`avgEntryPrice
      ensures Account() == Pnl.Update(old(Account()), Pnl.Fill(qtyChange, fillPrice))
      ensures Pnl.AtAverageCost(old(Account()), Pnl.Fill(qtyChange, fillPrice), Account())
    {
      hide Abs, Min, Pnl.Gain, Pnl.AtAverageCost;
      Pnl.UpdateAtAverageCost(Account(), Pnl.Fill(qtyChange, fillPrice));
      AbsOfSum(netPosition, qtyChange);
      GainIs(Account(), Pnl.Fill(qtyChange, fillPrice));
      if netPosition == 0 {
        netPosition := qtyChange;
        avgEntryPrice := fillPrice;
        return;
      }
      var sameDirection := (netPosition > 0 && qtyChange > 0) || (netPosition < 0 && qtyChange < 0);
      if sameDirection {
        var totalCost := avgEntryPrice * Abs(netPosition) as real + fillPrice * Abs(qtyChange) as real;
        netPosition := netPosition + qtyChange;
        avgEntryPrice := totalCost / Abs(netPosition) as real;
      } else {
        var closeQty := Min(Abs(qtyChange), Abs(netPosition));
        if netPosition > 0 {
          realizedPnl := realizedPnl + closeQty as real * (fillPrice - avgEntryPrice);
        } else {
          realizedPnl := realizedPnl + closeQty as real * (avgEntryPrice - fillPrice);
        }
        assert realizedPnl == old(realizedPnl) + Pnl.Gain(old(Account()), Pnl.Fill(qtyChange, fillPrice));
        var oldPosition := netPosition;
        netPosition := netPosition + qtyChange;
        if (oldPosition > 0 && netPosition < 0) || (oldPosition < 0 && netPosition > 0) {
          avgEntryPrice := fillPrice;
        }
        if netPosition == 0 {
          avgEntryPrice := 0.0;
        }
      }
    }

    /** `processFills`: every trade since `startIdx` under one of the current ids is accounted. */
    method ProcessFills(startIdx: nat)
      requires startIdx <= |book.tradeLog|
      modifies this`netPosition, this`realizedPnl, this`avgEntryPrice
      ensures Account() == Pnl.UpdateAll(old(Account()), FillsOf(book.tradeLog[startIdx..], currentBidId, currentAskId))
    {
      hide Pnl.Update, Pnl.UpdateAll, FillsOf;
      ghost var all := FillsOf(book.tradeLog[startIdx..], currentBidId, currentAskId);
      ghost var a0 := Account();
      var i := startIdx;
      while i < |book.tradeLog|
        invariant startIdx <= i <= |book.tradeLog|
        invariant Pnl.UpdateAll(Account(), FillsOf(book.tradeLog[i..], currentBidId, currentAskId)) == Pnl.UpdateAll(a0, all)
      {
        var t := book.tradeLog[i];
        ghost var a := Account();
        FillsStep(a, book.tradeLog, i, currentBidId, currentAskId);
        BothFills(a, t, currentBidId, currentAskId);
        if t.buyId == currentBidId {
          UpdatePosition(t.qty, Dollars(t.price));
        }
        if t.sellId == currentAskId {
          UpdatePosition(0 - t.qty, Dollars(t.price));
        }
        i := i + 1;
      }
      NoFills(Account(), book.tradeLog[i..], currentBidId, currentAskId);
    }

    function ComputeUnrealizedPnl(midPrice: Price): real
      reads this
    {
      Pnl.Unrealized(Account(), Dollars(midPrice))
    }

    // ----- quotes -----

    /** A turn has been taken: the maker is what the turn says, and the book went through its operations. */
    twostate predicate Took(t: Turn)
      reads *
    {
      && Valid() && State() == t.maker
      && Reached(Run(old(book.Model()), t.ops), old(book.tradeLog), old(book.feed))
      && forall x :: x in book.Repr() ==> x in old(book.Repr()) || fresh(x)
    }

    lemma TwoLegs(b: Book, log: seq<Trade>, feed: seq<Bbo>, r: Outcome, xs: seq<Op>, ys: seq<Op>)
      requires r == Run(b, xs)
      requires Reached(Run(r.book, ys), log + r.trades, feed + if book.hasPublisher then r.published else [])
      ensures Reached(Run(b, xs + ys), log, feed)
    {
      hide OrderBook.Model, Run;
      RunConcat(b, xs, ys);
      var q := Run(r.book, ys);
      assert log + (r.trades + q.trades) == log + r.trades + q.trades;
      assert feed + (r.published + q.published) == feed + r.published + q.published;
      assert feed + [] == feed;
    }

    /** The maker is no part of the book: writing its own fields changes nothing there. */
    twostate lemma BookKept()
      requires unchanged(book) && unchanged(book.pool) && old(book.Valid())
      requires unchanged(book.bids.Values) && unchanged(book.asks.Values) && unchanged(book.pool.Nodes())
      ensures book.Valid() && book.Model() == old(book.Model())
    {
      hide OrderBook.LevelsOk, OrderBook.IndexOk, Flat;
      book.NothingMoved();
      assert book.View(BUY) == old(book.View(BUY)) && book.View(SELL) == old(book.View(SELL));
    }

    lemma Standing()
      ensures Reached(Run(book.Model(), []), book.tradeLog, book.feed)
    {
      hide OrderBook.Model;
      RunNone(book.Model());
    }

    /** One cancel sent to the book. */
    method SendCancel(id: OrderId)
      requires Valid()
      modifies book, book.Repr()
      ensures Valid() && Reached(Run(old(book.Model()), [Cancel(id)]), old(book.tradeLog), old(book.feed))
      ensures forall x :: x in book.Repr() ==> x in old(book.Repr()) || fresh(x)
    {
      hide OrderBook.LevelsOk, OrderBook.IndexOk, OrderBook.NoEmptyLevel, OrderBook.Model, OrderBook.LevelSet,
        OrderBook.Loose, Cancelled, IdsOk, Wf, Run;
      BookIsWf(book);
      StepIdsOk(book.Model(), Cancel(id), nextOrderId);
      CancelIs(book.Model(), id);
      RunOne(book.Model(), Cancel(id));
      book.CancelOrder(id);
    }

    /** One order sent to the book under the next id. */
    method SendOrder(price: Price, qty: Quantity, side: Side, time: nat)
      requires Valid()
      modifies this`nextOrderId, book, book.Repr()
      ensures Valid() && nextOrderId == old(nextOrderId) + 1
      ensures Reached(Run(old(book.Model()), [Submit(NewOrder(old(nextOrderId), price, qty, side, false), time)]),
                      old(book.tradeLog), old(book.feed))
      ensures forall x :: x in book.Repr() ==> x in old(book.Repr()) || fresh(x)
    {
      hide OrderBook.LevelsOk, OrderBook.IndexOk, OrderBook.NoEmptyLevel, OrderBook.Model, OrderBook.LevelSet,
        Submitted, IdsOk, Wf, Run;
      var id := nextOrderId;
      ghost var op := Submit(NewOrder(id, price, qty, side, false), time);
      BookIsWf(book);
      NextIsFree(book.Model(), nextOrderId);
      StepIdsOk(book.Model(), op, nextOrderId + 1);
      RunOne(book.Model(), op);
      nextOrderId := nextOrderId + 1;
      FreshIdIsSafe(book.Model(), op.order);
      book.Enter(id, price, qty, side, false, time);
    }

    method CancelBid()
      requires Valid()
      modifies this`currentBidId, this`currentBidPx, book, book.Repr()
      ensures Took(DropBid(old(State())))
    {
      hide OrderBook.LevelsOk, OrderBook.IndexOk, OrderBook.NoEmptyLevel, OrderBook.Model, OrderBook.LevelSet,
        IdsOk, Run;
      if currentBidId != 0 {
        SendCancel(currentBidId);
        label Sent:
        currentBidId := 0;
        currentBidPx := 0;
        BookKept@Sent();
      } else {
        RunNone(book.Model());
      }
    }

    method CancelAsk()
      requires Valid()
      modifies this`currentAskId, this`currentAskPx, book, book.Repr()
      ensures Took(DropAsk(old(State())))
    {
      hide OrderBook.LevelsOk, OrderBook.IndexOk, OrderBook.NoEmptyLevel, OrderBook.Model, OrderBook.LevelSet,
        IdsOk, Run;
      if currentAskId != 0 {
        SendCancel(currentAskId);
        label Sent:
        currentAskId := 0;
        currentAskPx := 0;
        BookKept@Sent();
      } else {
        RunNone(book.Model());
      }
    }

    method CancelExistingQuotes()
      requires Valid()
      modifies this`currentBidId, this`currentAskId, this`currentBidPx, this`currentAskPx, book, book.Repr()
      ensures Took(DropQuotes(old(State())))
    {
      hide OrderBook.LevelsOk, OrderBook.IndexOk, OrderBook.NoEmptyLevel, OrderBook.Model, OrderBook.LevelSet,
        IdsOk, Run;
      ghost var m, b := State(), book.Model();
      ghost var t := DropBid(m);
      CancelBid();
      CancelAsk();
      TwoLegs(b, old(book.tradeLog), old(book.feed), Run(b, t.ops), t.ops, DropAsk(t.maker).ops);
    }

    method PlaceQuote(price: Price, qty: Quantity, side: Side, time: nat)
      requires Valid()
      modifies this`currentBidId, this`currentAskId, this`currentBidPx, this`currentAskPx, this`nextOrderId, book, book.Repr()
      ensures Took(Place(old(State()), price, qty, side, time))
    {
      hide OrderBook.LevelsOk, OrderBook.IndexOk, OrderBook.NoEmptyLevel, OrderBook.Model, OrderBook.LevelSet,
        IdsOk, Run;
      var id := nextOrderId;
      SendOrder(price, qty, side, time);
      if side == BUY {
        currentBidId := id;
        currentBidPx := price;
      } else {
        currentAskId := id;
        currentAskPx := price;
      }
    }

    /** One side of step 5: a quote if there is room, and a price and a size to quote. */
    method QuoteOn(midPrice: Price, side: Side, quoting: bool, price: Price, size: Quantity, time: nat)
      requires Valid()
      requires quoting == (Room(config, State(), side) > 0) && price == QuotePrice(config, State(), midPrice, side)
      requires quoting ==> size == QuoteSize(config, State(), side)
      modifies this`currentBidId, this`currentAskId, this`currentBidPx, this`currentAskPx, this`nextOrderId, book, book.Repr()
      ensures Took(QuoteSide(config, old(State()), midPrice, side, time))
    {
      hide OrderBook.LevelsOk, OrderBook.IndexOk, OrderBook.NoEmptyLevel, OrderBook.Model, OrderBook.LevelSet,
        IdsOk, Run, Place, QuotePrice, Room, QuoteSize;
      if quoting && price > 0 && size > 0 {
        PlaceQuote(price, size, side, time);
      } else {
        RunNone(book.Model());
      }
    }

    /** The cancels and the two placements of step 5. */
    method Replace(midPrice: Price, quoteBid: bool, newBidPx: Price, bidSize: Quantity,
                   quoteAsk: bool, newAskPx: Price, askSize: Quantity, time: nat)
      requires Valid()
      requires quoteBid == (Room(config, State(), BUY) > 0) && newBidPx == QuotePrice(config, State(), midPrice, BUY)
      requires quoteAsk == (Room(config, State(), SELL) > 0) && newAskPx == QuotePrice(config, State(), midPrice, SELL)
      requires quoteBid ==> bidSize == QuoteSize(config, State(), BUY)
      requires quoteAsk ==> askSize == QuoteSize(config, State(), SELL)
      modifies this`currentBidId, this`currentAskId, this`currentBidPx, this`currentAskPx, this`nextOrderId, book, book.Repr()
      ensures Took(DropQuotes(old(State())).Then(QuoteBoth(config, DropQuotes(old(State())).maker, midPrice, time)))
    {
      hide OrderBook.LevelsOk, OrderBook.IndexOk, OrderBook.NoEmptyLevel, OrderBook.Model, OrderBook.LevelSet,
        IdsOk, Run, DropQuotes, QuoteSide, QuotePrice, Room, QuoteSize;
      ghost var m, b := State(), book.Model();
      ghost var t := DropQuotes(m);
      ghost var bid := QuoteSide(config, t.maker, midPrice, BUY, time);
      ghost var ask := QuoteSide(config, bid.maker, midPrice, SELL, time);
      SameAccount(config, m, midPrice, time);
      SamePrices(config, m, t.maker, midPrice, BUY);
      SamePrices(config, m, bid.maker, midPrice, SELL);
      CancelExistingQuotes();
      ghost var r1 := Run(b, t.ops);
      ghost var log1, feed1 := book.tradeLog, book.feed;
      QuoteOn(midPrice, BUY, quoteBid, newBidPx, bidSize, time);
      QuoteOn(midPrice, SELL, quoteAsk, newAskPx, askSize, time);
      TwoLegs(r1.book, log1, feed1, Run(r1.book, bid.ops), bid.ops, ask.ops);
      TwoLegs(b, old(book.tradeLog), old(book.feed), r1, t.ops, bid.ops + ask.ops);
    }

    /** Steps 3 to 5 of `onTick`: skewed prices, capped sizes, and new quotes only if a price moved or
        a side must go. */
    method QuoteAround(midPrice: Price, time: nat)
      requires Valid()
      modifies this`currentBidId, this`currentAskId, this`currentBidPx, this`currentAskPx, this`nextOrderId, book, book.Repr()
      ensures Took(Requote(config, old(State()), midPrice, time))
    {
      hide OrderBook.LevelsOk, OrderBook.IndexOk, OrderBook.NoEmptyLevel, OrderBook.Model, OrderBook.LevelSet,
        IdsOk, Run, DropQuotes, QuoteBoth;
      var skew := netPosition * config.skewPerUnit;
      var newBidPx := midPrice - config.halfSpread - skew;
      var newAskPx := midPrice + config.halfSpread - skew;
      var quoteBid := netPosition < config.maxPosition;
      var quoteAsk := netPosition > -config.maxPosition;
      var bidSize, askSize := config.quoteSize, config.quoteSize;
      if quoteBid {
        var room := config.maxPosition - netPosition;
        if room < bidSize { bidSize := room; }
      }
      if quoteAsk {
        var room := config.maxPosition + netPosition;
        if room < askSize { askSize := room; }
      }
      var bidChanged := newBidPx != currentBidPx || (!quoteBid && currentBidId != 0);
      var askChanged := newAskPx != currentAskPx || (!quoteAsk && currentAskId != 0);
      if bidChanged || askChanged {
        Replace(midPrice, quoteBid, newBidPx, bidSize, quoteAsk, newAskPx, askSize, time);
      } else {
        RunNone(book.Model());
      }
    }

    /** Step 2 onwards: the kill switch, then the quotes. */
    method ReactTo(midPrice: Price, time: nat)
      requires Valid()
      modifies this, book, book.Repr()
      ensures Took(React(config, old(State()), midPrice, time))
    {
      hide OrderBook.LevelsOk, OrderBook.IndexOk, OrderBook.NoEmptyLevel, OrderBook.Model, OrderBook.LevelSet,
        IdsOk, Run, DropQuotes, Requote, Pnl.Unrealized;
      RunNone(book.Model());
      var unrealizedPnl := ComputeUnrealizedPnl(midPrice);
      var totalPnl := realizedPnl + unrealizedPnl;
      if totalPnl * 10000.0 < (-config.maxLoss) as real && !killed {
        killed := true;
        CancelExistingQuotes();
        return;
      }
      if killed { return; }
      QuoteAround(midPrice, time);
    }

    method OnTick(tradeLogStartIdx: nat, time: nat)
      requires Valid() && tradeLogStartIdx <= |book.tradeLog|
      modifies this, book, book.Repr()
      ensures Took(Tick(config, old(State()), old(book.Model()), old(book.tradeLog[tradeLogStartIdx..]), time))
    {
      hide OrderBook.LevelsOk, OrderBook.IndexOk, OrderBook.NoEmptyLevel, OrderBook.Model, OrderBook.LevelSet,
        IdsOk, Run, React, FillsOf, Pnl.UpdateAll, OrderBook.GetBestBid, OrderBook.GetBestAsk, OrderBook.Sound,
        Reached;
      Standing();
      TopIs(book);
      var bestBid, bestAsk := book.GetBestBid(), book.GetBestAsk();
      if bestBid == 0 || bestAsk == 0 { return; }
      ghost var b := book.Model();
      ProcessFills(tradeLogStartIdx);
      assert book.Model() == b && Valid();
      ReactTo(TruncDiv(bestBid + bestAsk, 2), time);
    }
  }

  lemma TopIs(book: OrderBook)
    requires book.Valid()
    ensures book.GetBestBid() == BestPrice(book.Model().bids) && book.GetBestAsk() == BestPrice(book.Model().asks)
  {
    hide OrderBook.LevelsOk, OrderBook.IndexOk, OrderBook.Model, OrderBook.GetBestBid, OrderBook.GetBestAsk;
    book.TopAgrees();
  }

  /** Dropping and placing quotes leaves the account alone. */
  lemma SameAccount(c: MakerConfig, m: Maker, mid: Price, time: nat)
    ensures DropQuotes(m).maker.account == m.account
    ensures QuoteSide(c, DropQuotes(m).maker, mid, BUY, time).maker.account == m.account
  {}

  /** Prices and sizes depend on the position only. */
  lemma SamePrices(c: MakerConfig, m: Maker, x: Maker, mid: Price, side: Side)
    requires x.account == m.account
    ensures Room(c, x, side) == Room(c, m, side) && QuotePrice(c, x, mid, side) == QuotePrice(c, m, mid, side)
    ensures Room(c, m, side) > 0 ==> QuoteSize(c, x, side) == QuoteSize(c, m, side)
  {}

  lemma GainIs(a: Pnl.Account, f: Pnl.Fill)
    ensures var closeQty := Min(Abs(f.qty), Abs(a.position));
      Pnl.Gain(a, f) == if a.position > 0 then closeQty as real * (f.price - a.avgEntry)
                        else closeQty as real * (a.avgEntry - f.price)
  {
    hide Min, Abs;
  }

  lemma AbsOfSum(p: int, q: int)
    ensures (p > 0 && q > 0) || (p < 0 && q < 0) ==> Abs(p + q) > 0
  {}

  lemma CancelIs(b: Book, id: OrderId)
    ensures Step(b, Cancel(id)) == Cancelled(b, id) && Cancelled(b, id).trades == []
  {}

  lemma NextIsFree(b: Book, next: OrderId)
    requires IdsOk(b, next)
    ensures !Live(b, next) && IdsOk(b, next + 1)
  {}

  lemma BothFills(a: Pnl.Account, t: Trade, bidId: OrderId, askId: OrderId)
    ensures var buy, sell := Pnl.Fill(t.qty, Dollars(t.price)), Pnl.Fill(0 - t.qty, Dollars(t.price));
      var a1 := if t.buyId == bidId then Pnl.Update(a, buy) else a;
      Pnl.UpdateAll(a, FillsIn(t, bidId, askId)) == if t.sellId == askId then Pnl.Update(a1, sell) else a1
  {
    hide Pnl.Update;
    var buy, sell := Pnl.Fill(t.qty, Dollars(t.price)), Pnl.Fill(0 - t.qty, Dollars(t.price));
    var first := if t.buyId == bidId then [buy] else [];
    var second := if t.sellId == askId then [sell] else [];
    Pnl.UpdateAllConcat(a, first, second);
    OneFill(a, buy);
    OneFill(Pnl.UpdateAll(a, first), sell);
  }

  lemma NoFills(a: Pnl.Account, ts: seq<Trade>, bidId: OrderId, askId: OrderId)
    requires ts == []
    ensures Pnl.UpdateAll(a, FillsOf(ts, bidId, askId)) == a
  {}

  // ---------- the simulator ----------

  /** One synthetic operation on the book. */
  method Apply(book: OrderBook, op: Op, start: OrderId)
    requires book.Valid() && Admissible(book.Model(), op) && Synthetic(op, start)
    modifies book, book.Repr()
    ensures book.Valid()
    ensures book.Model() == Step(old(book.Model()), op).book
    ensures book.tradeLog == old(book.tradeLog) + Step(old(book.Model()), op).trades
    ensures forall x :: x in book.Repr() ==> x in old(book.Repr()) || fresh(x)
  {
    hide OrderBook.LevelsOk, OrderBook.IndexOk, OrderBook.NoEmptyLevel, OrderBook.Model, OrderBook.LevelSet,
      OrderBook.Loose, Submitted, Cancelled;
    match op
    case Submit(o, time) =>
      FreshIdIsSafe(book.Model(), o);
      book.Enter(o.id, o.price, o.qty, o.side, o.isMarket, time);
    case Cancel(id) =>
      CancelIs(book.Model(), id);
      book.CancelOrder(id);
  }

  /** One round: the operation, then the tick over the trades it made. */
  method RunRound(mm: MarketMaker, beats: seq<Beat>)
    requires beats != [] && mm.Valid() && Fits(mm.config, mm.State(), mm.book.Model())
    requires FreshBeats(mm.book.Model(), beats, mm.config.startingId)
    modifies mm, mm.book, mm.book.Repr()
    ensures var p := PlayRound(mm.config, old(mm.State()), old(mm.book.Model()), beats[0]);
      && mm.Valid() && mm.State() == p.maker && mm.book.Model() == p.book
      && mm.book.tradeLog == old(mm.book.tradeLog) + p.heard + p.own
    ensures forall x :: x in mm.book.Repr() ==> x in old(mm.book.Repr()) || fresh(x)
  {
    hide OrderBook.LevelsOk, OrderBook.IndexOk, OrderBook.NoEmptyLevel, OrderBook.Model, OrderBook.LevelSet,
      OrderBook.Loose, Step, Run, Tick, Admissible, Synthetic, Fits, FreshBeats, IdsOk, TwoSided;
    ghost var c, m, b := mm.config, mm.State(), mm.book.Model();
    FirstAdmissible(b, beats, c.startingId);
    BookIsWf(mm.book);
    IdsBetween(c, m, b, beats);
    var tradeLogBefore := |mm.book.tradeLog|;
    Apply(mm.book, beats[0].op, mm.config.startingId);
    assert mm.book.tradeLog[tradeLogBefore..] == Step(b, beats[0].op).trades;
    mm.OnTick(tradeLogBefore, beats[0].time);
  }

  lemma IdsBetween(c: MakerConfig, m: Maker, b: Book, beats: seq<Beat>)
    requires beats != [] && Wf(b) && Fits(c, m, b) && FreshBeats(b, beats, c.startingId)
    ensures Synthetic(beats[0].op, c.startingId)
    ensures IdsOk(Step(b, beats[0].op).book, m.next)
  {
    hide Wf, Step, OwnOk, WithinLimits, IdsOk;
    FirstAdmissible(b, beats, c.startingId);
    RunOne(b, beats[0].op);
    BetweenTicks(c, m, b, [beats[0].op]);
  }

  /** Where a session starts. */
  datatype Start = Start(config: MakerConfig, maker: Maker, book: Book, log: seq<Trade>)

  function LastBook(b: Book, ps: seq<Round>): Book {
    if ps == [] then b else ps[|ps| - 1].book
  }

  function Positions(ps: seq<Round>): seq<int> {
    seq(|ps|, i requires 0 <= i < |ps| => ps[i].maker.account.position)
  }

  /** The session has come so far: the rounds done and those still to come are the whole of it, and
      maker, book and log stand where the last round left them. */
  ghost predicate Along(start: Start, beats: seq<Beat>, done: seq<Round>, m: Maker, b: Book, log: seq<Trade>,
                        rest: seq<Beat>, stop: bool) {
    var c := start.config;
    && Play(c, start.maker, start.book, beats) == done + (if stop then [] else Play(c, m, b, rest))
    && log == start.log + AllTrades(done) && m == LastMaker(start.maker, done) && b == LastBook(start.book, done)
    && Fits(c, m, b) && (!stop ==> FreshBeats(b, rest, c.startingId))
  }

  lemma AtStart(c: MakerConfig, m: Maker, b: Book, log: seq<Trade>, beats: seq<Beat>)
    requires Fits(c, m, b) && FreshBeats(b, beats, c.startingId)
    ensures Along(Start(c, m, b, log), beats, [], m, b, log, beats[0..], false)
  {
    hide Play, Fits, FreshBeats;
    assert [] + Play(c, m, b, beats) == Play(c, m, b, beats) && beats[0..] == beats && log + [] == log;
  }

  lemma NextRound(start: Start, beats: seq<Beat>, done: seq<Round>, m: Maker, b: Book, log: seq<Trade>, n: nat)
    requires n < |beats| && Wf(b) && Along(start, beats, done, m, b, log, beats[n..], false)
    ensures beats[n..] != [] && Fits(start.config, m, b) && FreshBeats(b, beats[n..], start.config.startingId)
    ensures var p := PlayRound(start.config, m, b, beats[n..][0]);
      Along(start, beats, done + [p], p.maker, p.book, log + p.heard + p.own, beats[n + 1..], p.maker.killed)
  {
    hide PlayRound, Fits, FreshBeats, Wf, Play, AllTrades, Step, Tick, Run;
    var rest := beats[n..];
    assert rest[0] == beats[n] && rest[1..] == beats[n + 1..];
    var p := PlayRound(start.config, m, b, rest[0]);
    var later := if p.maker.killed then [] else Play(start.config, p.maker, p.book, beats[n + 1..]);
    RoundFits(start.config, m, b, rest);
    PlayOne(start.config, m, b, rest);
    AllTradesSnoc(done, p);
    Assoc(done, [p], later);
    Assoc(start.log, AllTrades(done), p.heard + p.own);
    Assoc(log, p.heard, p.own);
  }

  lemma PlayOne(c: MakerConfig, m: Maker, b: Book, beats: seq<Beat>)
    requires beats != []
    ensures var p := PlayRound(c, m, b, beats[0]);
      Play(c, m, b, beats) == [p] + if p.maker.killed then [] else Play(c, p.maker, p.book, beats[1..])
  {
    hide PlayRound;
  }

  lemma AtEnd(start: Start, beats: seq<Beat>, done: seq<Round>, m: Maker, b: Book, log: seq<Trade>, rest: seq<Beat>, stop: bool)
    requires Along(start, beats, done, m, b, log, rest, stop) && (rest == [] || stop)
    ensures var ps := Play(start.config, start.maker, start.book, beats);
      && ps == done && log == start.log + AllTrades(ps)
      && m == LastMaker(start.maker, ps) && b == LastBook(start.book, ps)
  {
    hide Fits, FreshBeats;
  }

  lemma {:induction false} AllTradesSnoc(ps: seq<Round>, p: Round)
    ensures AllTrades(ps + [p]) == AllTrades(ps) + (p.heard + p.own)
  {
    if ps == [] {
      assert ps + [p] == [p] && [p][1..] == [];
      assert p.heard + p.own + [] == p.heard + p.own == [] + (p.heard + p.own);
    } else {
      assert (ps + [p])[1..] == ps[1..] + [p];
      AllTradesSnoc(ps[1..], p);
      var h, later := ps[0].heard + ps[0].own, AllTrades(ps[1..]);
      assert h + (later + (p.heard + p.own)) == h + later + (p.heard + p.own);
    }
  }

  lemma PositionsSnoc(ps: seq<Round>, p: Round)
    ensures Positions(ps + [p]) == Positions(ps) + [p.maker.account.position]
  {}

  lemma NoPositions()
    ensures Positions([]) == []
  {}

  /** The simulator's loop. */
  method RunRounds(mm: MarketMaker, beats: seq<Beat>) returns (positions: seq<int>)
    requires mm.Valid() && Fits(mm.config, mm.State(), mm.book.Model())
    requires FreshBeats(mm.book.Model(), beats, mm.config.startingId)
    modifies mm, mm.book, mm.book.Repr()
    ensures mm.Valid()
    ensures var m, b := old(mm.State()), old(mm.book.Model()); var ps := Play(mm.config, m, b, beats);
      && positions == Positions(ps) && mm.book.tradeLog == old(mm.book.tradeLog) + AllTrades(ps)
      && mm.State() == LastMaker(m, ps) && mm.book.Model() == LastBook(b, ps)
    ensures forall x :: x in mm.book.Repr() ==> x in old(mm.book.Repr()) || fresh(x)
  {
    hide OrderBook.LevelsOk, OrderBook.IndexOk, OrderBook.NoEmptyLevel, OrderBook.Model, OrderBook.LevelSet,
      Play, PlayRound, Fits, FreshBeats, IdsOk, Along, Positions;
    ghost var start := Start(mm.config, mm.State(), mm.book.Model(), mm.book.tradeLog);
    ghost var done: seq<Round> := [];
    positions := [];
    NoPositions();
    var n, stop := 0, false;
    AtStart(mm.config, mm.State(), mm.book.Model(), mm.book.tradeLog, beats);
    while n < |beats| && !stop
      invariant n <= |beats| && mm.Valid() && positions == Positions(done)
      invariant Along(start, beats, done, mm.State(), mm.book.Model(), mm.book.tradeLog, beats[n..], stop)
      invariant forall x :: x in mm.book.Repr() ==> x in old(mm.book.Repr()) || fresh(x)
    {
      BookIsWf(mm.book);
      NextRound(start, beats, done, mm.State(), mm.book.Model(), mm.book.tradeLog, n);
      ghost var p := PlayRound(mm.config, mm.State(), mm.book.Model(), beats[n..][0]);
      PositionsSnoc(done, p);
      RunRound(mm, beats[n..]);
      done := done + [p];
      positions := positions + [mm.netPosition];
      n := n + 1;
      stop := mm.killed;
    }
    AtEnd(start, beats, done, mm.State(), mm.book.Model(), mm.book.tradeLog, beats[n..], stop);
  }

  /** The whole run: the log and the maker's state are those of the session as a function, and the
      shutdown at the end takes the last quotes off the book. */
  method Simulate(mm: MarketMaker, beats: seq<Beat>) returns (positions: seq<int>)
    requires mm.Valid() && Fits(mm.config, mm.State(), mm.book.Model())
    requires FreshBeats(mm.book.Model(), beats, mm.config.startingId)
    modifies mm, mm.book, mm.book.Repr()
    ensures mm.Valid()
    ensures var m, b := old(mm.State()), old(mm.book.Model()); var ps := Play(mm.config, m, b, beats);
      && positions == Positions(ps) && mm.book.tradeLog == old(mm.book.tradeLog) + AllTrades(ps)
      && mm.State() == DropQuotes(LastMaker(m, ps)).maker
      && mm.book.Model() == Run(LastBook(b, ps), DropQuotes(LastMaker(m, ps)).ops).book
  {
    hide OrderBook.LevelsOk, OrderBook.IndexOk, OrderBook.NoEmptyLevel, OrderBook.Model, OrderBook.LevelSet,
      Run, Play, Fits, FreshBeats, IdsOk, DropQuotes, Positions, AllTrades;
    positions := RunRounds(mm, beats);
    DropHasNoTrades(mm.book.Model(), mm.State());
    mm.CancelExistingQuotes();
  }
}
