/** Which trades the market maker never looks at, told from the book and the orders before they trade;
    and without any, the limit on the position it really has. */
module Unseen {
  import opened Types
  import opened Matching
  import opened BookInvariants
  import opened Priority
  import opened Quoting
  import opened Inventory
  import opened Staleness
  import Pnl

  /** No trade names an order of the maker. */
  predicate NoneOwn(ts: seq<Trade>, start: OrderId) {
    forall i :: 0 <= i < |ts| ==> ts[i].buyId < start && ts[i].sellId < start
  }

  lemma NoneOwnConcat(xs: seq<Trade>, ys: seq<Trade>, start: OrderId)
    ensures NoneOwn(xs + ys, start) <==> NoneOwn(xs, start) && NoneOwn(ys, start)
  {
    assert forall i :: 0 <= i < |xs| ==> (xs + ys)[i] == xs[i];
    assert forall i :: 0 <= i < |ys| ==> (xs + ys)[|xs| + i] == ys[i];
  }

  // ---------- the synthetic order ----------

  lemma {:induction false} FilledUpTo(s: Side, o: NewOrder, q: nat, l: seq<Entry>, k: nat)
    requires Sorted(s, l) && s == o.side.Opposite() && k < |l|
    ensures |Consume(o, q, l).fills| > k <==> Reaches(o, l[k].price) && Volume(l[..k]) < q
    decreases |l|
  {
    assert Key(s, l[0].price) <= Key(s, l[k].price) by { assert k > 0 ==> Key(s, l[0].price) <= Key(s, l[k].price); }
    if k > 0 {
      assert l[..k][1..] == l[1..][..k - 1];
      if q >= l[0].qty && Reaches(o, l[0].price) {
        FilledUpTo(s, o, q - l[0].qty, l[1..], k - 1);
      }
    }
  }

  /** The order is for more than stands before an order of the maker that it reaches. */
  predicate Hits(b: Book, op: Op, start: OrderId) {
    op.Submit? &&
    var opp := b.On(op.order.side.Opposite());
    exists k :: 0 <= k < |opp| && opp[k].id >= start && Reaches(op.order, opp[k].price) && Volume(opp[..k]) < op.order.qty
  }

  /** A synthetic operation trades with the maker if and only if it hits one of its orders. */
  lemma HeardIff(b: Book, op: Op, start: OrderId)
    requires Wf(b) && Synthetic(op, start)
    ensures NoneOwn(Step(b, op).trades, start) <==> !Hits(b, op, start)
  {
    hide Consume, Reaches, Volume, Wf;
    if op.Submit? {
      var o := op.order;
      var opp := b.On(o.side.Opposite());
      var fills := Consume(o, o.qty, opp).fills;
      SidesSorted(b);
      FillsArePrefix(o, o.qty, opp);
      forall k | 0 <= k < |opp|
        ensures |fills| > k <==> Reaches(o, opp[k].price) && Volume(opp[..k]) < o.qty
      {
        FilledUpTo(o.side.Opposite(), o, o.qty, opp, k);
      }
    }
  }

  // ---------- the maker's own quotes ----------

  /** The orders of the others. */
  function Others(l: seq<Entry>, start: OrderId): seq<Entry> {
    if l == [] then [] else (if l[0].id < start then [l[0]] else []) + Others(l[1..], start)
  }

  lemma {:induction false} OthersSplice(l: seq<Entry>, id: OrderId, start: OrderId)
    requires id >= start
    ensures Others(Splice(l, id, []), start) == Others(l, start)
  {
    if l != [] {
      if l[0].id == id {
        assert [] + l[1..] == l[1..];
      } else {
        OthersSplice(l[1..], id, start);
        assert Splice(l, id, [])[1..] == Splice(l[1..], id, []);
      }
    }
  }

  lemma {:induction false} OthersAll(l: seq<Entry>, start: OrderId)
    requires forall i :: 0 <= i < |l| ==> l[i].id < start
    ensures Others(l, start) == l
  {
    if l != [] { OthersAll(l[1..], start); }
  }

  predicate SameOthers(b: Book, b': Book, start: OrderId) {
    Others(b.bids, start) == Others(b'.bids, start) && Others(b.asks, start) == Others(b'.asks, start)
  }

  lemma CancelSameOthers(b: Book, id: OrderId, start: OrderId)
    requires id >= start
    ensures SameOthers(b, Step(b, Cancel(id)).book, start)
  {
    OthersSplice(b.bids, id, start);
    OthersSplice(b.asks, id, start);
  }

  /** Without its quotes the book is that of the others. */
  lemma DroppedBook(c: MakerConfig, m: Maker, b: Book)
    requires Wf(b) && Fits(c, m, b)
    ensures Run(b, DropQuotes(m).ops).book == Book(Others(b.bids, c.startingId), Others(b.asks, c.startingId))
    ensures Run(b, DropQuotes(m).ops).trades == []
  {
    hide Wf, Fits, Run, Step, Others, DropQuotes;
    DropHasNoTrades(b, m);
    DropQuotesFits(c, m, b);
    DropSameOthers(c, m, b);
    var b' := Run(b, DropQuotes(m).ops).book;
    OnlyOthersLeft(c, DropQuotes(m).maker, b');
    OthersAll(b'.bids, c.startingId);
    OthersAll(b'.asks, c.startingId);
  }

  lemma DropSameOthers(c: MakerConfig, m: Maker, b: Book)
    requires Fits(c, m, b)
    ensures SameOthers(b, Run(b, DropQuotes(m).ops).book, c.startingId)
  {
    hide Run, Step, Others, WithinLimits, IdsOk, OwnQuotes;
    var t, u := DropBid(m), DropAsk(DropBid(m).maker);
    RunConcat(b, t.ops, u.ops);
    RunNone(b);
    if m.bidId != 0 {
      RunOne(b, Cancel(m.bidId));
      CancelSameOthers(b, m.bidId, c.startingId);
    }
    var b1 := Run(b, t.ops).book;
    RunNone(b1);
    if m.askId != 0 {
      RunOne(b1, Cancel(m.askId));
      CancelSameOthers(b1, m.askId, c.startingId);
    }
  }

  lemma OnlyOthersLeft(c: MakerConfig, m: Maker, b: Book)
    requires Fits(c, m, b) && m.bidId == 0 && m.askId == 0
    ensures forall i :: 0 <= i < |b.bids| ==> b.bids[i].id < c.startingId
    ensures forall i :: 0 <= i < |b.asks| ==> b.asks[i].id < c.startingId
  {
    assert forall i :: 0 <= i < |b.bids| ==> HasId(b.bids, b.bids[i].id);
    assert forall i :: 0 <= i < |b.asks| ==> HasId(b.asks, b.asks[i].id);
    assert !Live(b, 0) && c.startingId > 0;
  }

  /** The side is quoted. */
  predicate Places(c: MakerConfig, m: Maker, mid: Price, side: Side) {
    Room(c, m, side) > 0 && QuotePrice(c, m, mid, side) > 0 && QuoteSize(c, m, side) > 0
  }

  /** The new bid would reach the best ask of the others. */
  predicate BidCrosses(c: MakerConfig, m: Maker, asks: seq<Entry>, mid: Price) {
    Places(c, m, mid, BUY) && asks != [] && asks[0].price <= QuotePrice(c, m, mid, BUY)
  }

  /** The new ask would reach the best bid of the others, or the new bid. */
  predicate AskCrosses(c: MakerConfig, m: Maker, bids: seq<Entry>, mid: Price) {
    Places(c, m, mid, SELL) &&
    var p := QuotePrice(c, m, mid, SELL);
    || (bids != [] && p <= bids[0].price)
    || (Places(c, m, mid, BUY) && p <= QuotePrice(c, m, mid, BUY))
  }

  /** A requote that trades while it is placed. */
  predicate Crosses(c: MakerConfig, m: Maker, b: Book, mid: Price) {
    Changed(c, m, mid)
    && (BidCrosses(c, m, Others(b.asks, c.startingId), mid) || AskCrosses(c, m, Others(b.bids, c.startingId), mid))
  }

  lemma TradesIff(b: Book, o: NewOrder, time: nat)
    ensures SubmittedTrades(b, o, time) == [] <==> !Takes(o, b.On(o.side.Opposite()))
  {}

  /** An order that trades nothing comes to rest whole. */
  lemma RestsWhole(b: Book, o: NewOrder)
    requires !Takes(o, b.On(o.side.Opposite())) && o.qty > 0 && !o.isMarket
    ensures SubmittedBook(b, o) == b.With(o.side, Insert(o.side, b.On(o.side), Entry(o.id, o.price, o.qty)))
  {
    var opp := b.On(o.side.Opposite());
    assert Consume(o, o.qty, opp) == Match(o.qty, opp, []);
  }

  lemma QuoteSideTrades(c: MakerConfig, m: Maker, b: Book, mid: Price, side: Side, time: nat)
    ensures var t := QuoteSide(c, m, mid, side, time); var opp := b.On(side.Opposite());
      Run(b, t.ops).trades == [] <==>
        !(Places(c, m, mid, side) && opp != []
          && Reaches(NewOrder(0, QuotePrice(c, m, mid, side), 0, side, false), opp[0].price))
  {
    hide Submitted, QuotePrice, QuoteSize, Room;
    RunNone(b);
    var t := QuoteSide(c, m, mid, side, time);
    if Places(c, m, mid, side) {
      var o := t.ops[0].order;
      RunOne(b, t.ops[0]);
      SubmittedIs(b, o, time);
      TradesIff(b, o, time);
    }
  }

  /** The best bid after the new one was placed without trading. */
  lemma BidPlaced(c: MakerConfig, m: Maker, b: Book, mid: Price, time: nat)
    requires !BidCrosses(c, m, b.asks, mid) && Places(c, m, mid, BUY)
    ensures var bids := Run(b, QuoteSide(c, m, mid, BUY, time).ops).book.bids; var p := QuotePrice(c, m, mid, BUY);
      bids != [] && bids[0].price == if b.bids == [] || b.bids[0].price < p then p else b.bids[0].price
  {
    hide Submitted, SubmittedBook, QuotePrice, QuoteSize, Room, Insert;
    var op := QuoteSide(c, m, mid, BUY, time).ops[0];
    var o := op.order;
    RunOne(b, op);
    SubmittedIs(b, o, time);
    RestsWhole(b, o);
    InsertHead(BUY, b.bids, Entry(o.id, o.price, o.qty));
  }

  lemma QuoteBothTrades(c: MakerConfig, m: Maker, b: Book, mid: Price, time: nat)
    ensures Run(b, QuoteBoth(c, m, mid, time).ops).trades == [] <==>
      !BidCrosses(c, m, b.asks, mid) && !AskCrosses(c, m, b.bids, mid)
  {
    hide Run, QuotePrice, QuoteSize, Room, Place;
    var bid := QuoteSide(c, m, mid, BUY, time);
    var b2 := Run(b, bid.ops).book;
    var ask := QuoteSide(c, bid.maker, mid, SELL, time);
    RunConcat(b, bid.ops, ask.ops);
    RunNone(b);
    QuoteSideTrades(c, m, b, mid, BUY, time);
    QuoteSideTrades(c, bid.maker, b2, mid, SELL, time);
    SameQuote(c, m, mid, time);
    if Places(c, m, mid, BUY) && !BidCrosses(c, m, b.asks, mid) { BidPlaced(c, m, b, mid, time); }
  }

  lemma SameQuote(c: MakerConfig, m: Maker, mid: Price, time: nat)
    ensures var m' := QuoteSide(c, m, mid, BUY, time).maker;
      QuotePrice(c, m', mid, SELL) == QuotePrice(c, m, mid, SELL) && (Places(c, m', mid, SELL) <==> Places(c, m, mid, SELL))
  {}

  lemma SameAfterDrop(c: MakerConfig, m: Maker, bids: seq<Entry>, asks: seq<Entry>, mid: Price)
    ensures var m' := DropQuotes(m).maker;
      && (BidCrosses(c, m', asks, mid) <==> BidCrosses(c, m, asks, mid))
      && (AskCrosses(c, m', bids, mid) <==> AskCrosses(c, m, bids, mid))
  {
    assert DropQuotes(m).maker.account == m.account;
  }

  /** A requote trades while it is placed if and only if it crosses. */
  lemma RequoteTrades(c: MakerConfig, m: Maker, b: Book, mid: Price, time: nat)
    requires Wf(b) && Fits(c, m, b)
    ensures Run(b, Requote(c, m, mid, time).ops).trades == [] <==> !Crosses(c, m, b, mid)
  {
    hide Wf, Fits, Run, DropQuotes, QuoteBoth, BidCrosses, AskCrosses, Changed, Others;
    RunNone(b);
    var t := DropQuotes(m);
    var b1 := Run(b, t.ops).book;
    var both := QuoteBoth(c, t.maker, mid, time);
    DroppedBook(c, m, b);
    SameAfterDrop(c, m, b1.bids, b1.asks, mid);
    QuoteBothTrades(c, t.maker, b1, mid, time);
    RunConcat(b, t.ops, both.ops);
  }

  // ---------- one round ----------

  /** The maker acts on this round's midpoint. */
  predicate Acts(c: MakerConfig, m: Maker, b: Book, heard: seq<Trade>) {
    TwoSided(b) && !m.killed && !OverLoss(c, Scan(m, heard), Mid(b))
  }

  /** What the maker overlooks in a round, told before it happens: a synthetic order that hits it and
      leaves the book one-sided, or a requote that crosses. */
  predicate Overlooks(c: MakerConfig, m: Maker, b: Book, beat: Beat) {
    var r := Step(b, beat.op);
    || (!TwoSided(r.book) && Hits(b, beat.op, c.startingId))
    || (Acts(c, m, r.book, r.trades) && Crosses(c, Scan(m, r.trades), r.book, Mid(r.book)))
  }

  lemma TickTrades(c: MakerConfig, m: Maker, b: Book, heard: seq<Trade>, time: nat)
    requires Wf(b) && Fits(c, Scan(m, heard), b)
    ensures Run(b, Tick(c, m, b, heard, time).ops).trades == [] <==>
      !(Acts(c, m, b, heard) && Crosses(c, Scan(m, heard), b, Mid(b)))
  {
    hide Wf, Fits, Run, DropQuotes, Requote, Crosses, OverLoss, TwoSided, Mid, FillsOf;
    RunNone(b);
    var x := Scan(m, heard);
    RequoteTrades(c, x, b, Mid(b), time);
    DropHasNoTrades(b, x.(killed := true));
  }

  /** Whatever trades while the maker places quotes is its own. */
  lemma {:induction false} OwnOpsTrade(b: Book, ops: seq<Op>, start: OrderId)
    requires OwnOps(ops, start)
    ensures NoneOwn(Run(b, ops).trades, start) <==> Run(b, ops).trades == []
    decreases |ops|
  {
    hide Step;
    if ops != [] {
      var first := Step(b, ops[0]);
      OwnOpsTrade(first.book, ops[1..], start);
      OwnOpTrades(b, ops[0], start);
      NoneOwnConcat(first.trades, Run(first.book, ops[1..]).trades, start);
    }
  }

  lemma OwnOpTrades(b: Book, op: Op, start: OrderId)
    requires op.Cancel? || (op.Submit? && op.order.id >= start)
    ensures NoneOwn(Step(b, op).trades, start) <==> Step(b, op).trades == []
  {
    hide Consume;
    if op.Submit? && Step(b, op).trades != [] {
      var t := Step(b, op).trades[0];
      assert t.buyId == op.order.id || t.sellId == op.order.id;
    }
  }

  function MissedIn(p: Round): seq<Trade> {
    (if p.scanned then [] else p.heard) + p.own
  }

  /** The maker misses a trade of its own in a round if and only if it overlooks something. */
  lemma RoundMissesIff(c: MakerConfig, m: Maker, b: Book, beats: seq<Beat>)
    requires beats != [] && Wf(b) && Fits(c, m, b) && FreshBeats(b, beats, c.startingId)
    ensures NoneOwn(MissedIn(PlayRound(c, m, b, beats[0])), c.startingId) <==> !Overlooks(c, m, b, beats[0])
  {
    hide Wf, Fits, FreshBeats, Step, Run, Tick, Acts, Crosses, Hits, Scan, TwoSided, Mid, OwnOps, Synthetic;
    var r := Step(b, beats[0].op);
    var t := Tick(c, m, r.book, r.trades, beats[0].time);
    var p := PlayRound(c, m, b, beats[0]);
    FirstRound(c, m, b, beats);
    StartBelowNext(c, m, b);
    HeardIff(b, beats[0].op, c.startingId);
    TickTrades(c, m, r.book, r.trades, beats[0].time);
    TickOwnOps(c, m, r.book, r.trades, beats[0].time);
    OwnOpsTrade(r.book, t.ops, c.startingId);
    NoneOwnConcat(if p.scanned then [] else p.heard, p.own, c.startingId);
    NoneOwnNone(c.startingId);
    ActsTwoSided(c, m, r.book, r.trades);
  }

  lemma NoneOwnNone(start: OrderId)
    ensures NoneOwn([], start)
  {}

  lemma ActsTwoSided(c: MakerConfig, m: Maker, b: Book, heard: seq<Trade>)
    ensures Acts(c, m, b, heard) ==> TwoSided(b)
  {}

  // ---------- sessions ----------

  /** The maker overlooks nothing in any round that is played. */
  ghost predicate NothingOverlooked(c: MakerConfig, m: Maker, b: Book, beats: seq<Beat>)
    decreases |beats|
  {
    beats == [] ||
    var p := PlayRound(c, m, b, beats[0]);
    !Overlooks(c, m, b, beats[0]) && (p.maker.killed || NothingOverlooked(c, p.maker, p.book, beats[1..]))
  }

  lemma {:induction false} NothingMissedIff(c: MakerConfig, m: Maker, b: Book, beats: seq<Beat>)
    requires Wf(b) && Fits(c, m, b) && FreshBeats(b, beats, c.startingId)
    ensures NoneOwn(Missed(Play(c, m, b, beats)), c.startingId) <==> NothingOverlooked(c, m, b, beats)
    decreases |beats|
  {
    hide Wf, Fits, FreshBeats, PlayRound, Overlooks, NoneOwn;
    NoneOwnNone(c.startingId);
    if beats != [] {
      var p := PlayRound(c, m, b, beats[0]);
      var rest := if p.maker.killed then [] else Play(c, p.maker, p.book, beats[1..]);
      RoundFits(c, m, b, beats);
      RoundMissesIff(c, m, b, beats);
      if !p.maker.killed { NothingMissedIff(c, p.maker, p.book, beats[1..]); }
      assert ([p] + rest)[1..] == rest;
      NoneOwnConcat(MissedIn(p), Missed(rest), c.startingId);
    }
  }

  lemma {:induction false} NoneOwnNoFills(ts: seq<Trade>, start: OrderId)
    ensures NoneOwn(ts, start) <==> OwnFills(ts, start) == []
  {
    if ts != [] {
      NoneOwnNoFills(ts[1..], start);
      assert ts == [ts[0]] + ts[1..];
      NoneOwnConcat([ts[0]], ts[1..], start);
      assert NoneOwn([ts[0]], start) <==> OwnFillsIn(ts[0], start) == [] by { assert [ts[0]][0] == ts[0]; }
    }
  }

  /** The fills of one round, scanned or missed. */
  lemma RoundFillsAdd(p: Round, start: OrderId)
    ensures var all := OwnFills(p.heard + p.own, start); var seen := OwnFills(if p.scanned then p.heard else [], start);
      var missed := OwnFills(MissedIn(p), start);
      |all| == |seen| + |missed| && (missed == [] ==> all == seen)
  {
    hide OwnFills;
    NoFillsInNothing(start);
    OwnFillsConcat(p.heard, p.own, start);
    OwnFillsConcat(if p.scanned then [] else p.heard, p.own, start);
    assert forall x: seq<Pnl.Fill> :: x + [] == x;
  }

  /** The fills of a session, scanned or missed. */
  lemma {:induction false} FillsAdd(ps: seq<Round>, start: OrderId)
    ensures |OwnFills(AllTrades(ps), start)| == |OwnFills(Scanned(ps), start)| + |OwnFills(Missed(ps), start)|
    ensures OwnFills(Missed(ps), start) == [] ==> OwnFills(AllTrades(ps), start) == OwnFills(Scanned(ps), start)
  {
    hide OwnFills;
    NoFillsInNothing(start);
    if ps != [] {
      var p, rest := ps[0], ps[1..];
      FillsAdd(rest, start);
      RoundFillsAdd(p, start);
      OwnFillsConcat(p.heard + p.own, AllTrades(rest), start);
      OwnFillsConcat(if p.scanned then p.heard else [], Scanned(rest), start);
      OwnFillsConcat(MissedIn(p), Missed(rest), start);
    }
  }

  lemma NoFillsInNothing(start: OrderId)
    ensures OwnFills([], start) == []
  {}

  /** The maker's account has taken in every fill of its own orders, in order, if and only if it
      overlooks nothing: no synthetic order hits it and leaves the book one-sided, and no requote
      crosses the others' best price or its own. */
  lemma AccountedIff(c: MakerConfig, m: Maker, b: Book, beats: seq<Beat>)
    requires Wf(b) && Fits(c, m, b) && FreshBeats(b, beats, c.startingId)
    ensures var ps := Play(c, m, b, beats);
      && LastMaker(m, ps).account == Pnl.UpdateAll(m.account, OwnFills(Scanned(ps), c.startingId))
      && (OwnFills(Scanned(ps), c.startingId) == OwnFills(AllTrades(ps), c.startingId)
          <==> NothingOverlooked(c, m, b, beats))
  {
    hide Wf, Fits, FreshBeats, Play, NothingOverlooked, NoneOwn, OwnFills, Pnl.UpdateAll, LastMaker;
    var ps := Play(c, m, b, beats);
    SessionAccount(c, m, b, beats);
    NothingMissedIff(c, m, b, beats);
    NoneOwnNoFills(Missed(ps), c.startingId);
    FillsAdd(ps, c.startingId);
  }

  // ---------- the true position ----------

  /** In a round that overlooks nothing the position moves by what the maker really trades. */
  lemma RoundPosition(c: MakerConfig, m: Maker, b: Book, beats: seq<Beat>)
    requires beats != [] && Wf(b) && Fits(c, m, b) && FreshBeats(b, beats, c.startingId)
    requires !Overlooks(c, m, b, beats[0])
    ensures var p := PlayRound(c, m, b, beats[0]);
      p.maker.account.position == m.account.position + Signed(p.heard + p.own, c.startingId)
  {
    hide Wf, Fits, FreshBeats, PlayRound, Overlooks, NoneOwn, OwnFills, Pnl.UpdateAll, Signed, Step;
    var p, start := PlayRound(c, m, b, beats[0]), c.startingId;
    RoundFits(c, m, b, beats);
    RoundMissesIff(c, m, b, beats);
    NoneOwnConcat(if p.scanned then [] else p.heard, p.own, start);
    NoneOwnNoFills(p.own, start);
    NoneOwnNoFills(p.heard, start);
    SignedIsNet(p.heard, start);
    SignedIsNet(p.own, start);
    SignedConcat(p.heard, p.own, start);
    Pnl.AccountingAgrees(m.account, OwnFills(p.heard, start), 0.0);
    NoNet();
  }

  lemma NoNet()
    ensures Pnl.NetQty([]) == 0
  {}

  /** What the maker really holds after the first `n` rounds. */
  function Holds(m: Maker, ps: seq<Round>, n: nat, start: OrderId): int
    requires n <= |ps|
  {
    m.account.position + Signed(AllTrades(ps[..n]), start)
  }

  lemma HoldsNext(m: Maker, ps: seq<Round>, n: nat, start: OrderId)
    requires 0 < n <= |ps|
    ensures var p := ps[0];
      && Holds(m, ps, n, start) == m.account.position + Signed(p.heard + p.own, start)
                                   + Signed(AllTrades(ps[1..][..n - 1]), start)
      && LastMaker(m, ps[..n]) == LastMaker(p.maker, ps[1..][..n - 1])
  {
    hide Signed;
    assert ps[..n][0] == ps[0] && ps[..n][1..] == ps[1..][..n - 1];
    SignedConcat(ps[0].heard + ps[0].own, AllTrades(ps[1..][..n - 1]), start);
  }

  lemma {:induction false} HoldsTracked(c: MakerConfig, m: Maker, b: Book, beats: seq<Beat>, n: nat)
    requires Wf(b) && Fits(c, m, b) && FreshBeats(b, beats, c.startingId) && NothingOverlooked(c, m, b, beats)
    requires n <= |Play(c, m, b, beats)|
    ensures var ps := Play(c, m, b, beats);
      Holds(m, ps, n, c.startingId) == LastMaker(m, ps[..n]).account.position
    decreases |beats|
  {
    hide Wf, Fits, FreshBeats, PlayRound, Overlooks, Signed;
    SignedNone(c.startingId);
    if n == 0 {
      assert Play(c, m, b, beats)[..0] == [];
    } else {
      var ps := Play(c, m, b, beats);
      var p := PlayRound(c, m, b, beats[0]);
      RoundFits(c, m, b, beats);
      RoundPosition(c, m, b, beats);
      HoldsNext(m, ps, n, c.startingId);
      var rest := ps[1..];
      if p.maker.killed {
        assert rest == [] && rest[..n - 1] == [];
      } else {
        assert rest == Play(c, p.maker, p.book, beats[1..]);
        HoldsTracked(c, p.maker, p.book, beats[1..], n - 1);
      }
    }
  }

  /** The limit on the true position: in a session in which the maker overlooks nothing, what it really
      holds after every round is what it tracks, and within the limit. */
  lemma TruePositionBound(c: MakerConfig, m: Maker, b: Book, beats: seq<Beat>, n: nat)
    requires Wf(b) && Fits(c, m, b) && FreshBeats(b, beats, c.startingId) && NothingOverlooked(c, m, b, beats)
    requires n <= |Play(c, m, b, beats)|
    ensures var ps := Play(c, m, b, beats);
      && Holds(m, ps, n, c.startingId) == LastMaker(m, ps[..n]).account.position
      && Abs(Holds(m, ps, n, c.startingId)) <= c.maxPosition
  {
    hide Wf, FreshBeats, NothingOverlooked, Play, Orderly, Holds;
    var ps := Play(c, m, b, beats);
    HoldsTracked(c, m, b, beats, n);
    RoundsFit(c, m, b, beats);
    if n > 0 { assert ps[n - 1] in ps && LastMaker(m, ps[..n]) == ps[n - 1].maker; }
  }
}
