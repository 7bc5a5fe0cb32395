/** How far what the market maker really holds can be from the position it tracks: at most one quote for
    each round in which it overlooks something. */
module Drift {
  import opened Types
  import opened Matching
  import opened MatchingLemmas
  import opened BookInvariants
  import opened Session
  import opened Quoting
  import opened Inventory
  import opened Unseen
  import Pnl

  // ---------- no quote is larger than the quote size ----------

  /** The maker as if it had never traded, limited to one quote on either side. */
  function Blank(m: Maker): Maker {
    m.(account := Pnl.FLAT)
  }

  function OneQuote(c: MakerConfig): MakerConfig {
    c.(maxPosition := c.quoteSize)
  }

  /** Each quote on the book is for at most the quote size. */
  ghost predicate Small(c: MakerConfig, m: Maker, b: Book) {
    Fits(OneQuote(c), Blank(m), b)
  }

  function BlankTurn(t: Turn): Turn {
    Turn(Blank(t.maker), t.ops)
  }

  ghost predicate SmallTurn(c: MakerConfig, b: Book, t: Turn) {
    GoodTurn(OneQuote(c), b, BlankTurn(t))
  }

  lemma QuoteSideSmall(c: MakerConfig, m: Maker, b: Book, mid: Price, side: Side, time: nat)
    requires Wf(b) && Small(c, m, b) && !m.killed
    requires if side == BUY then m.bidId == 0 else m.askId == 0
    ensures SmallTurn(c, b, QuoteSide(c, m, mid, side, time))
  {
    hide Wf, Fits, GoodTurn, QuotePrice;
    if Places(c, m, mid, side) {
      var price, qty := QuotePrice(c, m, mid, side), QuoteSize(c, m, side);
      PlaceFits(OneQuote(c), Blank(m), b, price, qty, side, time);
      assert BlankTurn(Place(m, price, qty, side, time)) == Place(Blank(m), price, qty, side, time);
    } else {
      NoTurn(OneQuote(c), b, Blank(m));
    }
  }

  lemma BlankDrop(m: Maker)
    ensures BlankTurn(DropQuotes(m)) == DropQuotes(Blank(m))
    ensures BlankTurn(DropQuotes(m.(killed := true))) == DropQuotes(Blank(m).(killed := true))
  {}

  lemma TwoSmall(c: MakerConfig, b: Book, t: Turn, u: Turn)
    requires SmallTurn(c, b, t) && SmallTurn(c, Run(b, t.ops).book, u)
    ensures SmallTurn(c, b, t.Then(u))
  {
    hide GoodTurn;
    TwoTurns(OneQuote(c), b, BlankTurn(t), BlankTurn(u));
  }

  lemma RequoteSmall(c: MakerConfig, m: Maker, b: Book, mid: Price, time: nat)
    requires Wf(b) && Small(c, m, b) && !m.killed
    ensures SmallTurn(c, b, Requote(c, m, mid, time))
  {
    hide Wf, Fits, Run, AdmissibleRun, Changed, QuotePrice, Room, QuoteSize, DropQuotes;
    if !Changed(c, m, mid) {
      NoTurn(OneQuote(c), b, Blank(m));
    } else {
      var t := DropQuotes(m);
      var b1 := Run(b, t.ops).book;
      BlankDrop(m);
      DropKeepsFlag(m);
      DropQuotesFits(OneQuote(c), Blank(m), b);
      var bid := QuoteSide(c, t.maker, mid, BUY, time);
      QuoteSideSmall(c, t.maker, b1, mid, BUY, time);
      QuoteSideSmall(c, bid.maker, Run(b1, bid.ops).book, mid, SELL, time);
      TwoSmall(c, b1, bid, QuoteSide(c, bid.maker, mid, SELL, time));
      TwoSmall(c, b, t, QuoteBoth(c, t.maker, mid, time));
    }
  }

  lemma TickSmall(c: MakerConfig, m: Maker, b: Book, heard: seq<Trade>, time: nat)
    requires Wf(b) && Small(c, m, b)
    ensures SmallTurn(c, b, Tick(c, m, b, heard, time))
  {
    hide Wf, Fits, GoodTurn, Requote, DropQuotes, OverLoss, TwoSided, Mid, FillsOf;
    var x := Scan(m, heard);
    NoTurn(OneQuote(c), b, Blank(m));
    DropQuotesFits(OneQuote(c), Blank(x), b);
    KillFits(OneQuote(c), Blank(x), b);
    BlankDrop(x);
    if !x.killed { RequoteSmall(c, x, b, Mid(b), time); }
  }

  lemma RoundSmall(c: MakerConfig, m: Maker, b: Book, beats: seq<Beat>)
    requires beats != [] && Wf(b) && Small(c, m, b) && FreshBeats(b, beats, c.startingId)
    ensures var p := PlayRound(c, m, b, beats[0]); Small(c, p.maker, p.book)
  {
    hide Wf, Fits, FreshBeats, Step, Run, Tick, AdmissibleRun, Scan, TwoSided, Mid;
    var r := Step(b, beats[0].op);
    FirstRound(OneQuote(c), Blank(m), b, beats);
    TickSmall(c, m, r.book, r.trades, beats[0].time);
  }

  // ---------- what one round can miss ----------

  lemma SmallQuotes(c: MakerConfig, m: Maker, b: Book)
    requires Small(c, m, b)
    ensures QtyOf(b.bids, m.bidId) <= c.quoteSize && QtyOf(b.asks, m.askId) <= c.quoteSize
    ensures OwnOk(b, c.startingId, m.bidId, m.askId)
  {
    hide OwnOk, IdsOk;
  }

  /** A synthetic operation trades with either quote for no more than was left of it. */
  lemma HeardAtMost(c: MakerConfig, m: Maker, b: Book, op: Op)
    requires Wf(b) && Small(c, m, b) && Admissible(b, op) && ForeignOp(op, c.startingId)
    ensures Abs(Signed(Step(b, op).trades, c.startingId)) <= c.quoteSize
  {
    hide Wf, Fits, Step, Admissible, Signed;
    SmallQuotes(c, m, b);
    StepOwnOk(b, op, c.startingId, m.bidId, m.askId);
    NotBroughtIn(c, m, b, op);
    StepOnlyTakes(b, op, BUY, m.bidId);
    StepOnlyTakes(b, op, SELL, m.askId);
    SignedIsFilled(Step(b, op).trades, c.startingId, m.bidId, m.askId);
  }

  lemma NotBroughtIn(c: MakerConfig, m: Maker, b: Book, op: Op)
    requires OwnOk(b, c.startingId, m.bidId, m.askId) && ForeignOp(op, c.startingId)
    ensures !BringsIn(op, m.bidId) && !BringsIn(op, m.askId)
  {
    hide OwnQuotes;
  }

  /** The trades of an order of the maker count toward its side, and for at most their volume. */
  lemma {:induction false} FillsSigned(o: NewOrder, fills: seq<Entry>, time: nat, start: OrderId)
    requires o.id >= start
    ensures 0 <= Toward(o.side, Signed(Trades(o, fills, time), start)) <= Volume(fills)
  {
    if fills != [] {
      FillsSigned(o, fills[1..], time, start);
      assert Trades(o, fills, time)[1..] == Trades(o, fills[1..], time);
    }
  }

  lemma QuoteSideSigned(c: MakerConfig, m: Maker, b: Book, mid: Price, side: Side, time: nat)
    requires m.next >= c.startingId
    ensures 0 <= Toward(side, Signed(Run(b, QuoteSide(c, m, mid, side, time).ops).trades, c.startingId)) <= c.quoteSize
  {
    hide Signed, QuotePrice, Consume, Submitted;
    RunNone(b);
    SignedNone(c.startingId);
    var t := QuoteSide(c, m, mid, side, time);
    if Places(c, m, mid, side) {
      var o := t.ops[0].order;
      var opp := b.On(side.Opposite());
      RunOne(b, t.ops[0]);
      SubmittedIs(b, o, time);
      FillsSigned(o, Consume(o, o.qty, opp).fills, time, c.startingId);
      ConsumeTotals(o, o.qty, opp);
    }
  }

  /** A requote buys with the bid and sells with the ask. */
  lemma QuoteBothSigned(c: MakerConfig, m: Maker, b: Book, mid: Price, time: nat)
    requires m.next >= c.startingId
    ensures Abs(Signed(Run(b, QuoteBoth(c, m, mid, time).ops).trades, c.startingId)) <= c.quoteSize
  {
    hide Run, Signed, QuoteSide;
    var bid := QuoteSide(c, m, mid, BUY, time);
    var ask := QuoteSide(c, bid.maker, mid, SELL, time);
    var b2 := Run(b, bid.ops).book;
    RunConcat(b, bid.ops, ask.ops);
    QuoteSideOwn(c, m, mid, BUY, time);
    QuoteSideSigned(c, m, b, mid, BUY, time);
    QuoteSideSigned(c, bid.maker, b2, mid, SELL, time);
    SignedConcat(Run(b, bid.ops).trades, Run(b2, ask.ops).trades, c.startingId);
  }

  lemma TickSigned(c: MakerConfig, m: Maker, b: Book, heard: seq<Trade>, time: nat)
    requires m.next >= c.startingId
    ensures Abs(Signed(Run(b, Tick(c, m, b, heard, time).ops).trades, c.startingId)) <= c.quoteSize
  {
    hide Run, Signed, DropQuotes, QuoteBoth, Changed, OverLoss, TwoSided, Mid, FillsOf;
    var x := Scan(m, heard);
    var t := DropQuotes(x);
    var b1 := Run(b, t.ops).book;
    var both := QuoteBoth(c, t.maker, Mid(b), time);
    RunNone(b);
    SignedNone(c.startingId);
    DropHasNoTrades(b, x.(killed := true));
    DropHasNoTrades(b, x);
    DropQuotesOwn(c, x);
    RunConcat(b, t.ops, both.ops);
    QuoteBothSigned(c, t.maker, b1, Mid(b), time);
    assert [] + Run(b1, both.ops).trades == Run(b1, both.ops).trades;
  }

  /** Nothing is sent on a one-sided book. */
  lemma IdleOneSided(c: MakerConfig, m: Maker, b: Book, heard: seq<Trade>, time: nat)
    requires !TwoSided(b)
    ensures Run(b, Tick(c, m, b, heard, time).ops).trades == []
  {
    RunNone(b);
  }

  lemma RoundMissesAtMost(c: MakerConfig, m: Maker, b: Book, beats: seq<Beat>)
    requires beats != [] && Wf(b) && Fits(c, m, b) && Small(c, m, b) && FreshBeats(b, beats, c.startingId)
    ensures Abs(Signed(MissedIn(PlayRound(c, m, b, beats[0])), c.startingId)) <= c.quoteSize
  {
    hide Wf, Fits, FreshBeats, Step, Run, Tick, TwoSided, Mid, Signed;
    var r := Step(b, beats[0].op);
    var p := PlayRound(c, m, b, beats[0]);
    FirstAdmissible(b, beats, c.startingId);
    StartBelowNext(c, m, b);
    HeardAtMost(c, m, b, beats[0].op);
    TickSigned(c, m, r.book, r.trades, beats[0].time);
    if p.scanned {
      assert MissedIn(p) == p.own;
    } else {
      IdleOneSided(c, m, r.book, r.trades, beats[0].time);
      assert MissedIn(p) == p.heard;
    }
  }

  // ---------- sessions ----------

  /** In how many rounds that are played the maker overlooks something. */
  ghost function Overlooked(c: MakerConfig, m: Maker, b: Book, beats: seq<Beat>): nat
    decreases |beats|
  {
    if beats == [] then 0
    else
      var p := PlayRound(c, m, b, beats[0]);
      (if Overlooks(c, m, b, beats[0]) then 1 else 0)
      + if p.maker.killed then 0 else Overlooked(c, p.maker, p.book, beats[1..])
  }

  lemma RoundMisses(c: MakerConfig, m: Maker, b: Book, beats: seq<Beat>)
    requires beats != [] && Wf(b) && Fits(c, m, b) && Small(c, m, b) && FreshBeats(b, beats, c.startingId)
    ensures Abs(Signed(MissedIn(PlayRound(c, m, b, beats[0])), c.startingId))
      <= if Overlooks(c, m, b, beats[0]) then c.quoteSize else 0
  {
    hide Wf, Fits, FreshBeats, PlayRound, Overlooks, NoneOwn, OwnFills, Signed;
    var missed := MissedIn(PlayRound(c, m, b, beats[0]));
    RoundMissesAtMost(c, m, b, beats);
    RoundMissesIff(c, m, b, beats);
    NoneOwnNoFills(missed, c.startingId);
    SignedIsNet(missed, c.startingId);
    NoNet();
  }

  lemma {:induction false} MissedAtMost(c: MakerConfig, m: Maker, b: Book, beats: seq<Beat>)
    requires Wf(b) && Fits(c, m, b) && Small(c, m, b) && FreshBeats(b, beats, c.startingId)
    ensures Abs(Signed(Missed(Play(c, m, b, beats)), c.startingId)) <= c.quoteSize * Overlooked(c, m, b, beats)
    decreases |beats|
  {
    hide Wf, Fits, FreshBeats, PlayRound, Overlooks, Signed;
    SignedNone(c.startingId);
    if beats != [] {
      var p := PlayRound(c, m, b, beats[0]);
      var rest := if p.maker.killed then [] else Play(c, p.maker, p.book, beats[1..]);
      var k := if p.maker.killed then 0 else Overlooked(c, p.maker, p.book, beats[1..]);
      RoundFits(c, m, b, beats);
      RoundSmall(c, m, b, beats);
      RoundMisses(c, m, b, beats);
      if !p.maker.killed { MissedAtMost(c, p.maker, p.book, beats[1..]); }
      assert ([p] + rest)[1..] == rest;
      SignedConcat(MissedIn(p), Missed(rest), c.startingId);
      OneMore(c.quoteSize, k);
    }
  }

  lemma OneMore(q: nat, k: nat)
    ensures q * (1 + k) == q + q * k && q * (0 + k) == q * k
  {}

  lemma DriftBound(c: MakerConfig, m: Maker, b: Book, beats: seq<Beat>, n: nat)
    requires Wf(b) && Fits(c, m, b) && Small(c, m, b) && FreshBeats(b, beats, c.startingId)
    requires n <= |Play(c, m, b, beats)|
    ensures n <= |beats|
    ensures var ps := Play(c, m, b, beats);
      Abs(Holds(m, ps, n, c.startingId) - LastMaker(m, ps[..n]).account.position)
      <= c.quoteSize * Overlooked(c, m, b, beats[..n])
  {
    hide Wf, Fits, FreshBeats, Play, Overlooked, Signed, LastMaker;
    PlayPrefix(c, m, b, beats, n);
    FreshPrefix(b, beats, c.startingId, n);
    TruePosition(c, m, b, beats[..n]);
    MissedAtMost(c, m, b, beats[..n]);
  }

  /** The limit on what a new maker really holds, after any number of rounds of any session: the
      configured limit, and one quote more for each of these rounds in which it overlooked something. */
  lemma TruePositionDrift(c: MakerConfig, b: Book, beats: seq<Beat>, n: nat)
    requires Wf(b) && IdsOk(b, c.startingId) && FreshBeats(b, beats, c.startingId)
    requires c.startingId > 0 && c.maxPosition >= 0
    requires n <= |Play(c, NewMaker(c), b, beats)|
    ensures n <= |beats|
    ensures Abs(Holds(NewMaker(c), Play(c, NewMaker(c), b, beats), n, c.startingId))
      <= c.maxPosition + c.quoteSize * Overlooked(c, NewMaker(c), b, beats[..n])
  {
    hide Wf, IdsOk, FreshBeats, Orderly, Play, Overlooked, Holds;
    var m := NewMaker(c);
    var ps := Play(c, m, b, beats);
    NewMakerFits(c, b);
    NewMakerFits(OneQuote(c), b);
    DriftBound(c, m, b, beats, n);
    RoundsFit(c, m, b, beats);
    if n > 0 { assert ps[n - 1] in ps && LastMaker(m, ps[..n]) == ps[n - 1].maker; }
  }
}
