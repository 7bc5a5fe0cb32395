/** What the market maker shows: quotes at the prices of the last tick, leaning against its position,
    and none after a loss beyond the limit. */
module QuotePolicy {
  import opened Types
  import opened Matching
  import opened MatchingLemmas
  import opened BookInvariants
  import opened Quoting
  import opened Inventory
  import Pnl

  /** Whatever rests under this id is at this price. */
  predicate AllAt(l: seq<Entry>, id: OrderId, p: Price) {
    forall i :: 0 <= i < |l| && l[i].id == id ==> l[i].price == p
  }

  /** The maker's quotes rest at the prices it remembers. */
  ghost predicate Priced(m: Maker, b: Book) {
    AllAt(b.bids, m.bidId, m.bidPx) && AllAt(b.asks, m.askId, m.askPx)
  }

  lemma SubmitKeepsPrice(b: Book, o: NewOrder, s: Side, id: OrderId, p: Price)
    requires AllAt(b.On(s), id, p) && o.id != id
    ensures AllAt(SubmittedBook(b, o).On(s), id, p)
  {
    hide Consume, Insert;
    if s == o.side {
      var k := InsertShape(s, b.On(s), Entry(o.id, o.price, Consume(o, o.qty, b.On(s.Opposite())).left));
    } else {
      RestIsSuffix(o, o.qty, b.On(s));
    }
  }

  lemma SpliceKeepsPrice(l: seq<Entry>, gone: OrderId, id: OrderId, p: Price)
    requires HasId(l, gone) && AllAt(l, id, p)
    ensures AllAt(Splice(l, gone, []), id, p)
  {
    hide Splice, HasId;
    var k := SpliceShape(l, gone, []);
    var l' := Splice(l, gone, []);
    assert forall i :: 0 <= i < |l'| ==> l'[i] == l[if i < k then i else i + 1];
  }

  lemma CancelKeepsPrice(b: Book, gone: OrderId, s: Side, id: OrderId, p: Price)
    requires AllAt(b.On(s), id, p)
    ensures AllAt(Cancelled(b, gone).book.On(s), id, p)
  {
    hide Splice, AllAt;
    if Live(b, gone) && s == SideOf(b, gone) { SpliceKeepsPrice(b.On(s), gone, id, p); }
  }

  lemma NothingUnder(l: seq<Entry>, id: OrderId, p: Price)
    requires !HasId(l, id)
    ensures AllAt(l, id, p)
  {}

  lemma NoneAtZero(c: MakerConfig, m: Maker, b: Book)
    requires Fits(c, m, b)
    ensures !HasId(b.bids, 0) && !HasId(b.asks, 0) && !HasId(b.bids, m.next) && !HasId(b.asks, m.next)
    ensures m.bidId != m.next && m.askId != m.next
  {
    NoneZero(c, m, b);
  }

  /** So they are when there are none. */
  lemma NewMakerPriced(c: MakerConfig, b: Book)
    requires IdsOk(b, c.startingId)
    ensures Priced(NewMaker(c), b)
  {
    hide AllAt;
    assert !HasId(b.bids, 0) && !HasId(b.asks, 0);
    NothingUnder(b.bids, 0, 0);
    NothingUnder(b.asks, 0, 0);
  }

  /** A turn keeps the remembered prices true. */
  ghost predicate PricedTurn(b: Book, t: Turn) {
    Priced(t.maker, Run(b, t.ops).book)
  }

  lemma DropBidPriced(c: MakerConfig, m: Maker, b: Book)
    requires Wf(b) && Fits(c, m, b) && Priced(m, b)
    ensures PricedTurn(b, DropBid(m))
  {
    hide Wf, Fits, AllAt, Cancelled, Run, AdmissibleRun, HasId;
    var t := DropBid(m);
    RunNone(b);
    RunOne(b, Cancel(m.bidId));
    DropBidFits(c, m, b);
    NoneAtZero(c, t.maker, Run(b, t.ops).book);
    CancelKeepsPrice(b, m.bidId, SELL, m.askId, m.askPx);
    NothingUnder(Run(b, t.ops).book.bids, 0, 0);
  }

  lemma DropAskPriced(c: MakerConfig, m: Maker, b: Book)
    requires Wf(b) && Fits(c, m, b) && Priced(m, b)
    ensures PricedTurn(b, DropAsk(m))
  {
    hide Wf, Fits, AllAt, Cancelled, Run, AdmissibleRun, HasId;
    var t := DropAsk(m);
    RunNone(b);
    RunOne(b, Cancel(m.askId));
    DropAskFits(c, m, b);
    NoneAtZero(c, t.maker, Run(b, t.ops).book);
    CancelKeepsPrice(b, m.askId, BUY, m.bidId, m.bidPx);
    NothingUnder(Run(b, t.ops).book.asks, 0, 0);
  }

  /** An order that comes to rest does so at its own price. */
  lemma RestsAtPrice(b: Book, o: NewOrder)
    requires !HasId(b.On(o.side), o.id)
    ensures AllAt(SubmittedBook(b, o).On(o.side), o.id, o.price)
  {
    hide Consume, Insert;
    var l := b.On(o.side);
    var k := InsertShape(o.side, l, Entry(o.id, o.price, Consume(o, o.qty, b.On(o.side.Opposite())).left));
    assert forall i :: 0 <= i < |l| ==> HasId(l, l[i].id);
  }

  lemma PlacePriced(c: MakerConfig, m: Maker, b: Book, price: Price, qty: Quantity, side: Side, time: nat)
    requires Wf(b) && Fits(c, m, b) && Priced(m, b)
    ensures PricedTurn(b, Place(m, price, qty, side, time))
  {
    hide Wf, Fits, AllAt, Submitted, Run, AdmissibleRun, HasId;
    var o := NewOrder(m.next, price, qty, side, false);
    RunOne(b, Submit(o, time));
    SubmittedIs(b, o, time);
    NoneAtZero(c, m, b);
    RestsAtPrice(b, o);
    SubmitKeepsPrice(b, o, BUY, m.bidId, m.bidPx);
    SubmitKeepsPrice(b, o, SELL, m.askId, m.askPx);
  }

  lemma QuoteSidePriced(c: MakerConfig, m: Maker, b: Book, mid: Price, side: Side, time: nat)
    requires Wf(b) && Fits(c, m, b) && Priced(m, b)
    ensures PricedTurn(b, QuoteSide(c, m, mid, side, time))
  {
    hide Wf, Fits, Priced, Place, QuotePrice, Run, AdmissibleRun;
    RunNone(b);
    if Room(c, m, side) > 0 && QuotePrice(c, m, mid, side) > 0 && QuoteSize(c, m, side) > 0 {
      PlacePriced(c, m, b, QuotePrice(c, m, mid, side), QuoteSize(c, m, side), side, time);
    }
  }

  lemma TwoPriced(b: Book, t: Turn, u: Turn)
    requires PricedTurn(Run(b, t.ops).book, u)
    ensures PricedTurn(b, t.Then(u))
  {
    hide Priced;
    RunConcat(b, t.ops, u.ops);
  }

  lemma DropQuotesPriced(c: MakerConfig, m: Maker, b: Book)
    requires Wf(b) && Fits(c, m, b) && Priced(m, b)
    ensures PricedTurn(b, DropQuotes(m))
  {
    hide Wf, Fits, Priced, Run, AdmissibleRun;
    var t := DropBid(m);
    DropBidFits(c, m, b);
    DropBidPriced(c, m, b);
    DropAskPriced(c, t.maker, Run(b, t.ops).book);
    TwoPriced(b, t, DropAsk(t.maker));
  }

  lemma QuoteBothPriced(c: MakerConfig, m: Maker, b: Book, mid: Price, time: nat)
    requires Wf(b) && Fits(c, m, b) && Priced(m, b) && !m.killed && m.bidId == 0 && m.askId == 0
    ensures PricedTurn(b, QuoteBoth(c, m, mid, time))
  {
    hide Wf, Fits, Priced, Run, AdmissibleRun, QuotePrice, Room, QuoteSize;
    var bid := QuoteSide(c, m, mid, BUY, time);
    QuoteSideFits(c, m, b, mid, BUY, time);
    QuoteSidePriced(c, m, b, mid, BUY, time);
    QuoteSidePriced(c, bid.maker, Run(b, bid.ops).book, mid, SELL, time);
    TwoPriced(b, bid, QuoteSide(c, bid.maker, mid, SELL, time));
  }

  lemma TickPriced(c: MakerConfig, m: Maker, b: Book, heard: seq<Trade>, time: nat)
    requires Wf(b) && Fits(c, m, b) && Fits(c, Scan(m, heard), b) && Priced(m, b)
    ensures PricedTurn(b, Tick(c, m, b, heard, time))
  {
    hide Wf, Fits, Priced, Run, AdmissibleRun, DropQuotes, QuoteBoth, Changed, OverLoss, TwoSided, Mid, FillsOf;
    RunNone(b);
    var x := Scan(m, heard);
    SameQuotes(m, x, b);
    SameQuotes(m, x.(killed := true), b);
    var t := DropQuotes(x);
    DropQuotesFits(c, x, b);
    DropQuotesPriced(c, x, b);
    KilledTurn(x, b);
    if !x.killed {
      DropKeepsFlag(x);
      QuoteBothPriced(c, t.maker, Run(b, t.ops).book, Mid(b), time);
      TwoPriced(b, t, QuoteBoth(c, t.maker, Mid(b), time));
    }
  }

  lemma SameQuotes(m: Maker, x: Maker, b: Book)
    requires Priced(m, b) && x.bidId == m.bidId && x.askId == m.askId && x.bidPx == m.bidPx && x.askPx == m.askPx
    ensures Priced(x, b)
  {}

  lemma KilledTurn(m: Maker, b: Book)
    requires PricedTurn(b, DropQuotes(m))
    ensures PricedTurn(b, DropQuotes(m.(killed := true)))
  {
    hide AllAt, Run;
    assert DropQuotes(m.(killed := true)).ops == DropQuotes(m).ops;
    assert DropQuotes(m.(killed := true)).maker == DropQuotes(m).maker.(killed := true);
  }

  lemma HeardPriced(c: MakerConfig, m: Maker, b: Book, op: Op)
    requires Fits(c, m, b) && Priced(m, b) && Synthetic(op, c.startingId)
    ensures Priced(m, Step(b, op).book)
  {
    hide AllAt, Submitted, Cancelled;
    NoneAtZero(c, m, b);
    match op
    case Submit(o, time) =>
      SubmittedIs(b, o, time);
      NotTheMakers(c, m, b, o.id);
      SubmitKeepsPrice(b, o, BUY, m.bidId, m.bidPx);
      SubmitKeepsPrice(b, o, SELL, m.askId, m.askPx);
    case Cancel(id) =>
      CancelKeepsPrice(b, id, BUY, m.bidId, m.bidPx);
      CancelKeepsPrice(b, id, SELL, m.askId, m.askPx);
  }

  lemma NotTheMakers(c: MakerConfig, m: Maker, b: Book, x: OrderId)
    requires Fits(c, m, b) && 0 < x < c.startingId
    ensures x != m.bidId && x != m.askId
  {}

  // ---------- sessions ----------

  lemma {:induction false} RoundsPriced(c: MakerConfig, m: Maker, b: Book, beats: seq<Beat>)
    requires Wf(b) && Fits(c, m, b) && Priced(m, b) && FreshBeats(b, beats, c.startingId)
    ensures forall p :: p in Play(c, m, b, beats) ==> Priced(p.maker, p.book)
    decreases |beats|
  {
    hide Wf, Fits, Priced, FreshBeats, Step, Tick, Run, AdmissibleRun, Admissible, Synthetic, Scan, TwoSided, Mid;
    if beats != [] {
      var r := Step(b, beats[0].op);
      var p := PlayRound(c, m, b, beats[0]);
      RoundFits(c, m, b, beats);
      FirstRound(c, m, b, beats);
      HeardPriced(c, m, b, beats[0].op);
      TickPriced(c, m, r.book, r.trades, beats[0].time);
      if !p.maker.killed { RoundsPriced(c, p.maker, p.book, beats[1..]); }
    }
  }

  /** The remembered prices are those of this midpoint and this position. */
  predicate Current(c: MakerConfig, m: Maker, mid: Price) {
    && (m.bidId != 0 ==> m.bidPx == QuotePrice(c, m, mid, BUY))
    && (m.askId != 0 ==> m.askPx == QuotePrice(c, m, mid, SELL))
  }

  lemma RequoteCurrent(c: MakerConfig, m: Maker, mid: Price, time: nat)
    ensures Current(c, Requote(c, m, mid, time).maker, mid)
    ensures Requote(c, m, mid, time).maker.account == m.account && Requote(c, m, mid, time).maker.killed == m.killed
  {
    hide QuoteSize, Room;
  }

  /** What one tick decides: on a two-sided book the maker is killed exactly by a loss beyond the limit
      at the midpoint, and otherwise its quotes are current. */
  lemma TickDecides(c: MakerConfig, m: Maker, b: Book, heard: seq<Trade>, time: nat)
    requires !m.killed
    ensures var x := Tick(c, m, b, heard, time).maker;
      && (x.killed <==> TwoSided(b) && OverLoss(c, x, Mid(b)))
      && (TwoSided(b) && !x.killed ==> Current(c, x, Mid(b)))
  {
    hide Requote, TwoSided, Mid, Current, FillsOf, Pnl.UpdateAll, Pnl.Total;
    RequoteCurrent(c, Scan(m, heard), Mid(b), time);
    DropKeepsFlag(Scan(m, heard).(killed := true));
  }

  lemma {:induction false} RoundsDecide(c: MakerConfig, m: Maker, b: Book, beats: seq<Beat>)
    requires !m.killed
    ensures forall p :: p in Play(c, m, b, beats) ==>
      && (p.maker.killed <==> p.scanned && OverLoss(c, p.maker, p.mid))
      && (p.scanned && !p.maker.killed ==> Current(c, p.maker, p.mid))
    decreases |beats|
  {
    hide Step, Tick, Run, TwoSided, Mid, OverLoss, Current;
    if beats != [] {
      var r := Step(b, beats[0].op);
      var p := PlayRound(c, m, b, beats[0]);
      TickDecides(c, m, r.book, r.trades, beats[0].time);
      if !p.maker.killed { RoundsDecide(c, p.maker, p.book, beats[1..]); }
    }
  }

  /** The kill switch: in every session the maker is killed in exactly the rounds with a two-sided book
      and a total loss at the midpoint beyond the limit, and from then on it has no order on the book. */
  lemma KilledIff(c: MakerConfig, m: Maker, b: Book, beats: seq<Beat>)
    requires Wf(b) && Fits(c, m, b) && FreshBeats(b, beats, c.startingId) && !m.killed
    ensures forall p :: p in Play(c, m, b, beats) ==>
      && (p.maker.killed <==> p.scanned && Pnl.Total(p.maker.account, Dollars(p.mid)) * 10000.0 < (-c.maxLoss) as real)
      && (p.maker.killed ==> forall x: OrderId :: x >= c.startingId ==> !Live(p.book, x))
  {
    hide Wf, Play, FreshBeats, WithinLimits, IdsOk, Pnl.Total;
    RoundsDecide(c, m, b, beats);
    RoundsFit(c, m, b, beats);
  }

  // ---------- the loss, in price units ----------

  /** What the maker's own trades are worth at a midpoint over what they were made at, in shares times units
      of 1/10000 of a dollar. */
  function Worth(ts: seq<Trade>, start: OrderId, mid: Price): int {
    if ts == [] then 0
    else
      var gain := ts[0].qty * (mid - ts[0].price);
      (if ts[0].buyId >= start then gain else 0) - (if ts[0].sellId >= start then gain else 0)
      + Worth(ts[1..], start, mid)
  }

  lemma {:induction false} MarkedConcat(xs: seq<Pnl.Fill>, ys: seq<Pnl.Fill>, mark: real)
    ensures Pnl.MarkToMarket(xs + ys, mark) == Pnl.MarkToMarket(xs, mark) + Pnl.MarkToMarket(ys, mark)
  {
    if xs == [] {
      assert xs + ys == ys;
    } else {
      assert (xs + ys)[1..] == xs[1..] + ys;
      MarkedConcat(xs[1..], ys, mark);
    }
  }

  lemma OneMarked(qty: int, px: Price, mid: Price)
    ensures Pnl.MarkToMarket([Pnl.Fill(qty, Dollars(px))], Dollars(mid)) * 10000.0 == (qty * (mid - px)) as real
  {
    assert [Pnl.Fill(qty, Dollars(px))][1..] == [];
    var q, d := qty as real, (mid - px) as real;
    assert Dollars(mid) - Dollars(px) == d / 10000.0;
    Scaled(q, d);
    assert (qty * (mid - px)) as real == q * d;
  }

  lemma Scaled(q: real, d: real)
    ensures q * (d / 10000.0) * 10000.0 == q * d
  {}

  lemma NothingMarked(mark: real)
    ensures Pnl.MarkToMarket([], mark) == 0.0
  {}

  lemma OneTradeMarked(t: Trade, start: OrderId, mid: Price)
    ensures Pnl.MarkToMarket(OwnFillsIn(t, start), Dollars(mid)) * 10000.0
         == ((if t.buyId >= start then t.qty * (mid - t.price) else 0)
             - (if t.sellId >= start then t.qty * (mid - t.price) else 0)) as real
  {
    hide Pnl.MarkToMarket, Dollars;
    OneMarked(t.qty, t.price, mid);
    OneMarked(0 - t.qty, t.price, mid);
    NothingMarked(Dollars(mid));
    assert (0 - t.qty) * (mid - t.price) == 0 - t.qty * (mid - t.price);
    MarkedConcat(if t.buyId >= start then [Pnl.Fill(t.qty, Dollars(t.price))] else [],
                 if t.sellId >= start then [Pnl.Fill(0 - t.qty, Dollars(t.price))] else [], Dollars(mid));
  }

  lemma {:induction false} WorthIsMarked(ts: seq<Trade>, start: OrderId, mid: Price)
    ensures Pnl.MarkToMarket(OwnFills(ts, start), Dollars(mid)) * 10000.0 == Worth(ts, start, mid) as real
  {
    hide Pnl.MarkToMarket, Dollars, OwnFillsIn;
    NothingMarked(Dollars(mid));
    if ts != [] {
      OneTradeMarked(ts[0], start, mid);
      WorthIsMarked(ts[1..], start, mid);
      MarkedConcat(OwnFillsIn(ts[0], start), OwnFills(ts[1..], start), Dollars(mid));
    }
  }

  /** The kill switch from the trades alone: a maker that starts flat is killed in exactly the rounds with a
      two-sided book in which all it has scanned so far, at the midpoint, adds up to a loss beyond the
      limit. */
  lemma KilledByLoss(c: MakerConfig, m: Maker, b: Book, beats: seq<Beat>, n: nat)
    requires Wf(b) && Fits(c, m, b) && FreshBeats(b, beats, c.startingId) && !m.killed && m.account == Pnl.FLAT
    requires n < |Play(c, m, b, beats)|
    ensures var ps := Play(c, m, b, beats);
      ps[n].maker.killed <==> ps[n].scanned && Worth(Scanned(ps[..n + 1]), c.startingId, ps[n].mid) < -c.maxLoss
  {
    hide Wf, Fits, FreshBeats, Play, Pnl.Total, Dollars, Scanned, OwnFills, Worth, Pnl.MarkToMarket;
    var ps := Play(c, m, b, beats);
    var p := ps[n];
    assert p in ps;
    KilledIff(c, m, b, beats);
    PlayPrefix(c, m, b, beats, n + 1);
    FreshPrefix(b, beats, c.startingId, n + 1);
    SessionPnl(c, m, b, beats[..n + 1], Dollars(p.mid));
    FlatIsWorthless(Dollars(p.mid));
    WorthIsMarked(Scanned(ps[..n + 1]), c.startingId, p.mid);
  }

  lemma FlatIsWorthless(mark: real)
    ensures Pnl.Total(Pnl.FLAT, mark) == 0.0
  {}

  // ---------- no stale quotes ----------

  /** Unless its book was one-sided or the maker is killed, this round leaves every order of the maker on
      the book at half a spread from its midpoint, shifted by the position. */
  predicate NoneStale(c: MakerConfig, p: Round) {
    p.scanned && !p.maker.killed ==>
      && (forall i :: 0 <= i < |p.book.bids| && p.book.bids[i].id >= c.startingId ==>
            p.book.bids[i].price == p.mid - c.halfSpread - p.maker.account.position * c.skewPerUnit)
      && (forall i :: 0 <= i < |p.book.asks| && p.book.asks[i].id >= c.startingId ==>
            p.book.asks[i].price == p.mid + c.halfSpread - p.maker.account.position * c.skewPerUnit)
  }

  lemma CurrentRound(c: MakerConfig, p: Round)
    requires Fits(c, p.maker, p.book) && Priced(p.maker, p.book)
    requires p.scanned && !p.maker.killed ==> Current(c, p.maker, p.mid)
    ensures NoneStale(c, p)
  {
    hide WithinLimits, IdsOk;
    var b := p.book;
    assert forall i :: 0 <= i < |b.bids| ==> HasId(b.bids, b.bids[i].id);
    assert forall i :: 0 <= i < |b.asks| ==> HasId(b.asks, b.asks[i].id);
  }

  /** No stale quotes in any session. */
  lemma NoStaleQuotes(c: MakerConfig, m: Maker, b: Book, beats: seq<Beat>)
    requires Wf(b) && Fits(c, m, b) && Priced(m, b) && FreshBeats(b, beats, c.startingId) && !m.killed
    ensures forall p :: p in Play(c, m, b, beats) ==> NoneStale(c, p)
  {
    hide Wf, Play, FreshBeats, OverLoss, Fits, Priced, NoneStale;
    RoundsDecide(c, m, b, beats);
    RoundsFit(c, m, b, beats);
    RoundsPriced(c, m, b, beats);
    forall p | p in Play(c, m, b, beats) ensures NoneStale(c, p) {
      CurrentRound(c, p);
    }
  }

  /** In every session of a new maker the tracked position keeps the limit and no quote is stale. */
  lemma NewMakerSession(c: MakerConfig, b: Book, beats: seq<Beat>)
    requires Wf(b) && IdsOk(b, c.startingId) && FreshBeats(b, beats, c.startingId)
    requires c.startingId > 0 && c.maxPosition >= 0
    ensures forall p :: p in Play(c, NewMaker(c), b, beats) ==>
      Abs(p.maker.account.position) <= c.maxPosition && NoneStale(c, p)
  {
    hide Wf, IdsOk, Fits, Priced, FreshBeats, Play, NoneStale;
    NewMakerFits(c, b);
    NewMakerPriced(c, b);
    PositionBound(c, NewMaker(c), b, beats);
    NoStaleQuotes(c, NewMaker(c), b, beats);
  }

  // ---------- what one tick sends ----------

  function Cancels(m: Maker): seq<Op> {
    (if m.bidId != 0 then [Cancel(m.bidId)] else []) + (if m.askId != 0 then [Cancel(m.askId)] else [])
  }

  /** From the midpoint and the position after the fills. If both prices are those already quoted and no
      quote has to go, nothing. Otherwise both quotes are cancelled; the bid is placed anew exactly if the
      position is below the limit, its price and the quote size are positive, and then for the smaller of
      the room left and the quote size; and so for the ask. The maker remembers what it placed. */
  predicate Sends(c: MakerConfig, m: Maker, mid: Price, time: nat, t: Turn) {
    var position := t.maker.account.position;
    var bidPx := mid - c.halfSpread - position * c.skewPerUnit;
    var askPx := mid + c.halfSpread - position * c.skewPerUnit;
    var bidRoom, askRoom := c.maxPosition - position, c.maxPosition + position;
    var bids := bidRoom > 0 && bidPx > 0 && c.quoteSize > 0;
    var asks := askRoom > 0 && askPx > 0 && c.quoteSize > 0;
    var bidQty := if bidRoom < c.quoteSize then bidRoom else c.quoteSize;
    var askQty := if askRoom < c.quoteSize then askRoom else c.quoteSize;
    var askId := m.next + if bids then 1 else 0;
    if bidPx == m.bidPx && askPx == m.askPx && (bidRoom > 0 || m.bidId == 0) && (askRoom > 0 || m.askId == 0) then
      t.ops == [] && t.maker == m.(account := t.maker.account)
    else
      && t.ops == Cancels(m)
                  + (if bids then [Submit(NewOrder(m.next, bidPx, bidQty, BUY, false), time)] else [])
                  + (if asks then [Submit(NewOrder(askId, askPx, askQty, SELL, false), time)] else [])
      && t.maker == m.(account := t.maker.account,
                       bidId := if bids then m.next else 0,
                       askId := if asks then askId else 0,
                       bidPx := if bids then bidPx else if m.bidId != 0 then 0 else m.bidPx,
                       askPx := if asks then askPx else if m.askId != 0 then 0 else m.askPx,
                       next := askId + if asks then 1 else 0)
  }

  lemma SideSends(c: MakerConfig, m: Maker, mid: Price, side: Side, time: nat)
    ensures var position := m.account.position;
      var room := c.maxPosition - if side == BUY then position else -position;
      var p := mid - (if side == BUY then c.halfSpread else -c.halfSpread) - position * c.skewPerUnit;
      var qty := if room < c.quoteSize then room else c.quoteSize;
      var t := QuoteSide(c, m, mid, side, time);
      if room > 0 && p > 0 && c.quoteSize > 0 then
        && t.ops == [Submit(NewOrder(m.next, p, qty, side, false), time)]
        && t.maker == (if side == BUY then m.(bidId := m.next, bidPx := p, next := m.next + 1)
                       else m.(askId := m.next, askPx := p, next := m.next + 1))
      else t == Turn(m, [])
  {}

  /** What is remembered of a quote that was cancelled, or of none. */
  function Dropped(m: Maker): Maker {
    m.(bidId := 0, askId := 0, bidPx := if m.bidId != 0 then 0 else m.bidPx,
       askPx := if m.askId != 0 then 0 else m.askPx)
  }

  lemma DropSends(m: Maker)
    ensures DropQuotes(m) == Turn(Dropped(m), Cancels(m))
  {}

  lemma RequoteSends(c: MakerConfig, m: Maker, mid: Price, time: nat)
    ensures Sends(c, m, mid, time, Requote(c, m, mid, time))
  {
    hide QuoteSide, DropQuotes, Cancels;
    var t := DropQuotes(m);
    var bid := QuoteSide(c, t.maker, mid, BUY, time);
    var ask := QuoteSide(c, bid.maker, mid, SELL, time);
    DropSends(m);
    SideSends(c, t.maker, mid, BUY, time);
    SideSends(c, bid.maker, mid, SELL, time);
    Assoc(Cancels(m), bid.ops, ask.ops);
  }

  /** The midpoint of two best prices, rounded toward zero. */
  predicate Between(bid: Price, ask: Price, mid: Price) {
    if bid + ask >= 0 then 2 * mid <= bid + ask <= 2 * mid + 1 else 2 * mid - 1 <= bid + ask <= 2 * mid
  }

  /** What every tick on a two-sided book sends and remembers that leaves the maker alive. */
  lemma TickSends(c: MakerConfig, m: Maker, b: Book, heard: seq<Trade>, time: nat, mid: Price)
    requires b.bids != [] && b.asks != [] && b.bids[0].price != 0 && b.asks[0].price != 0
    requires Between(b.bids[0].price, b.asks[0].price, mid)
    requires !m.killed && !Tick(c, m, b, heard, time).maker.killed
    ensures Sends(c, m, mid, time, Tick(c, m, b, heard, time))
  {
    hide Sends, Requote, OverLoss, FillsOf, Pnl.UpdateAll, DropQuotes;
    var x := Scan(m, heard);
    assert Mid(b) == mid;
    RequoteSends(c, x, mid, time);
    DropKeepsFlag(x.(killed := true));
    SameSends(c, m, x, mid, time, Requote(c, x, mid, time));
  }

  lemma SameSends(c: MakerConfig, m: Maker, x: Maker, mid: Price, time: nat, t: Turn)
    requires x == m.(account := x.account) && Sends(c, x, mid, time, t)
    ensures Sends(c, m, mid, time, t)
  {
    assert Cancels(x) == Cancels(m);
  }

  /** What the other ticks send: nothing at all on a one-sided book, or once the maker is dead; and when it
      dies, the cancels of its quotes, which it forgets. */
  lemma TickStops(c: MakerConfig, m: Maker, b: Book, heard: seq<Trade>, time: nat)
    ensures var t := Tick(c, m, b, heard, time);
      && (b.bids == [] || b.asks == [] || b.bids[0].price == 0 || b.asks[0].price == 0 ==> t == Turn(m, []))
      && (m.killed ==> t == Turn(m.(account := t.maker.account), []))
      && (!m.killed && t.maker.killed ==>
            t == Turn(Dropped(m).(killed := true, account := t.maker.account), Cancels(m)))
  {
    hide Requote, OverLoss, FillsOf, Pnl.UpdateAll, DropQuotes, Mid, Cancels;
    var x := Scan(m, heard);
    DropSends(x.(killed := true));
    RequoteCurrent(c, x, Mid(b), time);
    SameCancels(m, x.(killed := true));
  }

  lemma SameCancels(m: Maker, x: Maker)
    requires x.bidId == m.bidId && x.askId == m.askId
    ensures Cancels(x) == Cancels(m)
  {}
}
