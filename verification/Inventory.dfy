/** The market maker's tick as a function, and what holds of it over whole simulated sessions: the
    position bound, and which trades the tracked position leaves out. MarketMaker.dfy is proved to
    compute exactly these functions. */
module Inventory {
  import opened Types
  import opened Matching
  import opened BookInvariants
  import opened Session
  import opened Quoting
  import Ledger
  import Pnl

  /** The maker between ticks; id 0 stands for no quote. */
  datatype Maker = Maker(account: Pnl.Account, killed: bool, bidId: OrderId, askId: OrderId,
                         bidPx: Price, askPx: Price, next: OrderId)

  /** What the maker turns into and the operations it sends to the book on the way. */
  datatype Turn = Turn(maker: Maker, ops: seq<Op>) {
    function Then(u: Turn): Turn {
      Turn(u.maker, ops + u.ops)
    }
  }

  function DropBid(m: Maker): Turn {
    if m.bidId != 0 then Turn(m.(bidId := 0, bidPx := 0), [Cancel(m.bidId)]) else Turn(m, [])
  }

  function DropAsk(m: Maker): Turn {
    if m.askId != 0 then Turn(m.(askId := 0, askPx := 0), [Cancel(m.askId)]) else Turn(m, [])
  }

  /** `cancelExistingQuotes`. */
  function DropQuotes(m: Maker): Turn {
    DropBid(m).Then(DropAsk(DropBid(m).maker))
  }

  /** `placeQuote`. */
  function Place(m: Maker, price: Price, qty: Quantity, side: Side, time: nat): Turn {
    Turn(if side == BUY then m.(bidId := m.next, bidPx := price, next := m.next + 1)
         else m.(askId := m.next, askPx := price, next := m.next + 1),
         [Submit(NewOrder(m.next, price, qty, side, false), time)])
  }

  /** The position signed as it counts for one side's limit: what a fill of that side adds to. */
  function Toward(side: Side, position: int): int {
    if side == BUY then position else -position
  }

  function Room(c: MakerConfig, m: Maker, side: Side): int {
    c.maxPosition - Toward(side, m.account.position)
  }

  /** The configured size, capped to the room left before the limit. */
  function QuoteSize(c: MakerConfig, m: Maker, side: Side): Quantity
    requires Room(c, m, side) > 0
  {
    Min(Room(c, m, side), c.quoteSize)
  }

  /** Half a spread from the midpoint, both quotes shifted against the position. */
  function QuotePrice(c: MakerConfig, m: Maker, mid: Price, side: Side): Price {
    mid - Toward(side, c.halfSpread) - m.account.position * c.skewPerUnit
  }

  predicate Changed(c: MakerConfig, m: Maker, mid: Price) {
    || QuotePrice(c, m, mid, BUY) != m.bidPx || (Room(c, m, BUY) <= 0 && m.bidId != 0)
    || QuotePrice(c, m, mid, SELL) != m.askPx || (Room(c, m, SELL) <= 0 && m.askId != 0)
  }

  function QuoteSide(c: MakerConfig, m: Maker, mid: Price, side: Side, time: nat): Turn {
    if Room(c, m, side) > 0 && QuotePrice(c, m, mid, side) > 0 && QuoteSize(c, m, side) > 0 then
      Place(m, QuotePrice(c, m, mid, side), QuoteSize(c, m, side), side, time)
    else Turn(m, [])
  }

  function QuoteBoth(c: MakerConfig, m: Maker, mid: Price, time: nat): Turn {
    var bid := QuoteSide(c, m, mid, BUY, time);
    bid.Then(QuoteSide(c, bid.maker, mid, SELL, time))
  }

  function Requote(c: MakerConfig, m: Maker, mid: Price, time: nat): Turn {
    if Changed(c, m, mid) then DropQuotes(m).Then(QuoteBoth(c, DropQuotes(m).maker, mid, time)) else Turn(m, [])
  }

  predicate TwoSided(b: Book) {
    BestPrice(b.bids) != 0 && BestPrice(b.asks) != 0
  }

  function Mid(b: Book): Price {
    TruncDiv(BestPrice(b.bids) + BestPrice(b.asks), 2)
  }

  /** `processFills` over the trades since the last tick. */
  function Scan(m: Maker, heard: seq<Trade>): Maker {
    m.(account := Pnl.UpdateAll(m.account, FillsOf(heard, m.bidId, m.askId)))
  }

  predicate OverLoss(c: MakerConfig, m: Maker, mid: Price) {
    Pnl.Total(m.account, Dollars(mid)) * 10000.0 < (-c.maxLoss) as real
  }

  function React(c: MakerConfig, m: Maker, mid: Price, time: nat): Turn {
    if m.killed then Turn(m, [])
    else if OverLoss(c, m, mid) then DropQuotes(m.(killed := true))
    else Requote(c, m, mid, time)
  }

  /** `onTick`: nothing at all happens on a one-sided book. */
  function Tick(c: MakerConfig, m: Maker, b: Book, heard: seq<Trade>, time: nat): Turn {
    if TwoSided(b) then React(c, Scan(m, heard), Mid(b), time) else Turn(m, [])
  }

  // ---------- what every turn keeps ----------

  /** Limits and ids fit the book. */
  ghost predicate Fits(c: MakerConfig, m: Maker, b: Book) {
    && WithinLimits(c, b, m.account.position, m.bidId, m.askId)
    && Orderly(c, m, b)
  }

  /** The bookkeeping of ids: only the current quotes are the maker's, all ids were issued. */
  ghost predicate Orderly(c: MakerConfig, m: Maker, b: Book) {
    && OwnOk(b, c.startingId, m.bidId, m.askId)
    && IdsOk(b, m.next) && c.startingId <= m.next && m.bidId < m.next && m.askId < m.next
    && (m.killed ==> m.bidId == 0 && m.askId == 0)
  }

  /** A turn can be taken at a book, and leaves limits and ids in order. */
  ghost predicate GoodTurn(c: MakerConfig, b: Book, t: Turn) {
    && AdmissibleRun(b, t.ops)
    && Wf(Run(b, t.ops).book) && Fits(c, t.maker, Run(b, t.ops).book)
  }

  lemma NoTurn(c: MakerConfig, b: Book, m: Maker)
    requires Wf(b) && Fits(c, m, b)
    ensures GoodTurn(c, b, Turn(m, []))
  {
    hide Wf, Fits;
  }

  lemma OneOp(c: MakerConfig, b: Book, t: Turn, op: Op)
    requires t.ops == [op] && Wf(b) && Admissible(b, op) && Fits(c, t.maker, Step(b, op).book)
    ensures GoodTurn(c, b, t)
  {
    hide Fits, Step, Admissible;
    RunOne(b, op);
    StepKeepsWf(b, op);
  }

  lemma TwoTurns(c: MakerConfig, b: Book, t: Turn, u: Turn)
    requires GoodTurn(c, b, t) && GoodTurn(c, Run(b, t.ops).book, u)
    ensures GoodTurn(c, b, t.Then(u))
  {
    hide Wf, Fits;
    RunConcat(b, t.ops, u.ops);
  }

  lemma DropBidFits(c: MakerConfig, m: Maker, b: Book)
    requires Wf(b) && Fits(c, m, b)
    ensures GoodTurn(c, b, DropBid(m))
  {
    hide Wf, WithinLimits, OwnOk, IdsOk, GoodTurn;
    if m.bidId == 0 {
      NoTurn(c, b, m);
    } else {
      NoneZero(c, m, b);
      LimitsAfterCancelBid(c, b, m.account.position, m.bidId, m.askId);
      OwnAfterCancel(b, m.bidId, c.startingId, m.bidId, m.askId);
      StepIdsOk(b, Cancel(m.bidId), m.next);
      OneOp(c, b, DropBid(m), Cancel(m.bidId));
    }
  }

  lemma NoneZero(c: MakerConfig, m: Maker, b: Book)
    requires Orderly(c, m, b)
    ensures !Live(b, 0) && !Live(b, m.next) && m.next > 0
  {}

  lemma DropAskFits(c: MakerConfig, m: Maker, b: Book)
    requires Wf(b) && Fits(c, m, b)
    ensures GoodTurn(c, b, DropAsk(m))
  {
    hide Wf, WithinLimits, OwnOk, IdsOk, GoodTurn;
    if m.askId == 0 {
      NoTurn(c, b, m);
    } else {
      NoneZero(c, m, b);
      LimitsAfterCancelAsk(c, b, m.account.position, m.bidId, m.askId);
      OwnAfterCancel(b, m.askId, c.startingId, m.bidId, m.askId);
      StepIdsOk(b, Cancel(m.askId), m.next);
      OneOp(c, b, DropAsk(m), Cancel(m.askId));
    }
  }

  lemma DropQuotesFits(c: MakerConfig, m: Maker, b: Book)
    requires Wf(b) && Fits(c, m, b)
    ensures GoodTurn(c, b, DropQuotes(m)) && DropQuotes(m).maker.bidId == 0 && DropQuotes(m).maker.askId == 0
  {
    hide Wf, Fits, Run, AdmissibleRun;
    DropBidFits(c, m, b);
    var t := DropBid(m);
    DropAskFits(c, t.maker, Run(b, t.ops).book);
    TwoTurns(c, b, t, DropAsk(t.maker));
  }

  lemma DropKeepsFlag(m: Maker)
    ensures DropQuotes(m).maker.killed == m.killed
  {}

  lemma DropHasNoTrades(b: Book, m: Maker)
    ensures Run(b, DropQuotes(m).ops).trades == []
  {
    var xs, ys := DropBid(m).ops, DropAsk(DropBid(m).maker).ops;
    RunOne(b, Cancel(m.bidId));
    RunNone(b);
    var b1 := Run(b, xs).book;
    RunOne(b1, Cancel(m.askId));
    RunNone(b1);
    RunConcat(b, xs, ys);
  }

  lemma PlaceFits(c: MakerConfig, m: Maker, b: Book, price: Price, qty: Quantity, side: Side, time: nat)
    requires Wf(b) && Fits(c, m, b) && !m.killed
    requires if side == BUY then m.bidId == 0 else m.askId == 0
    requires qty <= Room(c, m, side)
    ensures GoodTurn(c, b, Place(m, price, qty, side, time))
  {
    hide Wf, WithinLimits, OwnOk, IdsOk, GoodTurn, Submitted;
    var o := NewOrder(m.next, price, qty, side, false);
    NoneZero(c, m, b);
    IdsGrow(b, m.next);
    LimitsAfterQuote(c, b, o, time, m.account.position, m.bidId, m.askId);
    OwnAfterQuote(b, o, c.startingId, m.bidId, m.askId);
    StepIdsOk(b, Submit(o, time), m.next + 1);
    SubmittedIs(b, o, time);
    OneOp(c, b, Place(m, price, qty, side, time), Submit(o, time));
  }

  lemma SubmittedIs(b: Book, o: NewOrder, time: nat)
    ensures Submitted(b, o, time).book == SubmittedBook(b, o) && Submitted(b, o, time).trades == SubmittedTrades(b, o, time)
  {}

  lemma IdsGrow(b: Book, next: OrderId)
    requires IdsOk(b, next)
    ensures IdsOk(b, next + 1)
  {}

  lemma QuoteSideFits(c: MakerConfig, m: Maker, b: Book, mid: Price, side: Side, time: nat)
    requires Wf(b) && Fits(c, m, b) && !m.killed
    requires if side == BUY then m.bidId == 0 else m.askId == 0
    ensures GoodTurn(c, b, QuoteSide(c, m, mid, side, time))
  {
    hide Wf, Fits, GoodTurn, Place, QuotePrice;
    if QuoteSide(c, m, mid, side, time).ops == [] {
      NoTurn(c, b, m);
    }
    if Room(c, m, side) > 0 && QuotePrice(c, m, mid, side) > 0 && QuoteSize(c, m, side) > 0 {
      PlaceFits(c, m, b, QuotePrice(c, m, mid, side), QuoteSize(c, m, side), side, time);
    }
  }

  lemma RequoteFits(c: MakerConfig, m: Maker, b: Book, mid: Price, time: nat)
    requires Wf(b) && Fits(c, m, b) && !m.killed
    ensures GoodTurn(c, b, Requote(c, m, mid, time))
  {
    hide Wf, Fits, Run, AdmissibleRun, Changed, QuotePrice, Room, QuoteSize;
    if !Changed(c, m, mid) {
      NoTurn(c, b, m);
    } else {
      var t := DropQuotes(m);
      var b1 := Run(b, t.ops).book;
      DropQuotesFits(c, m, b);
      var bid := QuoteSide(c, t.maker, mid, BUY, time);
      QuoteSideFits(c, t.maker, b1, mid, BUY, time);
      QuoteSideFits(c, bid.maker, Run(b1, bid.ops).book, mid, SELL, time);
      TwoTurns(c, b1, bid, QuoteSide(c, bid.maker, mid, SELL, time));
      TwoTurns(c, b, t, QuoteBoth(c, t.maker, mid, time));
    }
  }

  // ---------- one tick ----------

  /** The maker's own share of one trade, whatever the ids of its quotes. */
  function OwnFillsIn(t: Trade, start: OrderId): seq<Pnl.Fill> {
    (if t.buyId >= start then [Pnl.Fill(t.qty, Dollars(t.price))] else [])
    + (if t.sellId >= start then [Pnl.Fill(0 - t.qty, Dollars(t.price))] else [])
  }

  function OwnFills(ts: seq<Trade>, start: OrderId): seq<Pnl.Fill> {
    if ts == [] then [] else OwnFillsIn(ts[0], start) + OwnFills(ts[1..], start)
  }

  lemma {:induction false} OwnFillsFound(ts: seq<Trade>, start: OrderId, bidId: OrderId, askId: OrderId)
    requires Attributed(ts, start, bidId, askId)
    ensures FillsOf(ts, bidId, askId) == OwnFills(ts, start)
  {
    if ts != [] {
      assert forall i :: 0 <= i < |ts[1..]| ==> ts[1..][i] == ts[i + 1];
      OwnFillsFound(ts[1..], start, bidId, askId);
    }
  }

  lemma {:induction false} OwnFillsConcat(a: seq<Trade>, b: seq<Trade>, start: OrderId)
    ensures OwnFills(a + b, start) == OwnFills(a, start) + OwnFills(b, start)
  {
    hide OwnFillsIn;
    if a == [] {
      assert a + b == b;
    } else {
      assert (a + b)[1..] == a[1..] + b;
      OwnFillsConcat(a[1..], b, start);
    }
  }

  /** The operations of the others since the last tick leave the maker in order, whether or not it
      then notices its fills; and when it scans, it finds exactly the fills of its own orders. */
  lemma BetweenTicks(c: MakerConfig, m: Maker, b: Book, ops: seq<Op>)
    requires Wf(b) && AdmissibleRun(b, ops) && Foreign(ops, c.startingId) && Fits(c, m, b)
    ensures var r := Run(b, ops);
      && Wf(r.book) && Fits(c, m, r.book) && Fits(c, Scan(m, r.trades), r.book)
      && Scan(m, r.trades).account == Pnl.UpdateAll(m.account, OwnFills(r.trades, c.startingId))
  {
    hide Wf, AdmissibleRun, Run, OwnOk, IdsOk, OwnQuotes, Pnl.UpdateAll, FillsOf, OwnFills;
    var r := Run(b, ops);
    OwnFacts(c, m, b);
    RunKeepsWf(b, ops);
    LimitsAfterRun(c, b, ops, m.account.position, m.bidId, m.askId);
    RunAttributed(b, ops, c.startingId, m.bidId, m.askId);
    RunIdsOk(b, ops, c.startingId, m.next);
    OwnFillsFound(r.trades, c.startingId, m.bidId, m.askId);
    NetOfFills(r.trades, m.bidId, m.askId);
    Pnl.AccountingAgrees(m.account, FillsOf(r.trades, m.bidId, m.askId), 0.0);
  }

  lemma OwnFacts(c: MakerConfig, m: Maker, b: Book)
    requires Orderly(c, m, b)
    ensures (m.bidId == 0 || m.bidId >= c.startingId) && (m.askId == 0 || m.askId >= c.startingId)
  {}

  lemma {:induction false} RunIdsOk(b: Book, ops: seq<Op>, start: OrderId, next: OrderId)
    requires Wf(b) && AdmissibleRun(b, ops) && Foreign(ops, start) && IdsOk(b, next) && start <= next
    ensures IdsOk(Run(b, ops).book, next)
    decreases |ops|
  {
    hide Wf, Step, Admissible;
    if ops != [] {
      assert ForeignOp(ops[0], start);
      StepIdsOk(b, ops[0], next);
      StepKeepsWf(b, ops[0]);
      RunIdsOk(Step(b, ops[0]).book, ops[1..], start, next);
    }
  }

  lemma TickFits(c: MakerConfig, m: Maker, b: Book, heard: seq<Trade>, time: nat)
    requires Wf(b) && Fits(c, m, b) && Fits(c, Scan(m, heard), b)
    ensures GoodTurn(c, b, Tick(c, m, b, heard, time))
  {
    hide Wf, WithinLimits, OwnOk, IdsOk, GoodTurn, Requote, DropQuotes, OverLoss, Scan;
    if !TwoSided(b) {
      NoTurn(c, b, m);
    } else {
      var m1 := Scan(m, heard);
      if m1.killed {
        NoTurn(c, b, m1);
      } else if OverLoss(c, m1, Mid(b)) {
        DropQuotesFits(c, m1, b);
        KillFits(c, m1, b);
      } else {
        RequoteFits(c, m1, b, Mid(b), time);
      }
    }
  }

  /** Being killed changes nothing but the flag. */
  lemma KillFits(c: MakerConfig, m: Maker, b: Book)
    requires GoodTurn(c, b, DropQuotes(m)) && DropQuotes(m).maker.bidId == 0 && DropQuotes(m).maker.askId == 0
    ensures GoodTurn(c, b, DropQuotes(m.(killed := true)))
  {
    hide Wf, WithinLimits, OwnOk, IdsOk, Run, AdmissibleRun;
    assert DropQuotes(m.(killed := true)).maker == DropQuotes(m).maker.(killed := true);
    assert DropQuotes(m.(killed := true)).ops == DropQuotes(m).ops;
  }

  // ---------- sessions ----------

  /** One round of the simulator: a synthetic operation, then the maker's tick. */
  datatype Beat = Beat(op: Op, time: nat)

  /** What a round leaves behind: the maker and the book after it, the trades of the synthetic
      operation, whether the maker scanned them, the trades of its own requoting, and the midpoint it saw. */
  datatype Round = Round(maker: Maker, book: Book, heard: seq<Trade>, scanned: bool, own: seq<Trade>, mid: Price)

  function PlayRound(c: MakerConfig, m: Maker, b: Book, beat: Beat): Round {
    var r := Step(b, beat.op);
    var t := Tick(c, m, r.book, r.trades, beat.time);
    var q := Run(r.book, t.ops);
    Round(t.maker, q.book, r.trades, TwoSided(r.book), q.trades, Mid(r.book))
  }

  /** The simulator's loop, which ends early once the maker is killed. */
  function Play(c: MakerConfig, m: Maker, b: Book, beats: seq<Beat>): seq<Round>
    decreases |beats|
  {
    if beats == [] then []
    else
      var round := PlayRound(c, m, b, beats[0]);
      [round] + if round.maker.killed then [] else Play(c, round.maker, round.book, beats[1..])
  }

  /** Synthetic operations: new orders under ids of their own range, and cancels. */
  predicate Synthetic(op: Op, start: OrderId) {
    match op
    case Submit(o, _) => 0 < o.id < start && o.qty < TWO32
    case Cancel(_) => true
    case Modify(_, _, _, _) => false
  }

  /** Every new order of the rounds to come has an id that is neither live nor used twice. */
  ghost predicate FreshBeats(b: Book, beats: seq<Beat>, start: OrderId) {
    && (forall i :: 0 <= i < |beats| ==> Synthetic(beats[i].op, start))
    && (forall i :: 0 <= i < |beats| && beats[i].op.Submit? ==> !Live(b, beats[i].op.order.id))
    && (forall i, j :: 0 <= i < j < |beats| && beats[i].op.Submit? && beats[j].op.Submit? ==>
          beats[i].op.order.id != beats[j].op.order.id)
  }

  /** The maker brings in ids of its own range only. */
  predicate OwnOps(ops: seq<Op>, start: OrderId) {
    forall i :: 0 <= i < |ops| ==> ops[i].Cancel? || (ops[i].Submit? && ops[i].order.id >= start)
  }

  lemma QuoteSideOwn(c: MakerConfig, m: Maker, mid: Price, side: Side, time: nat)
    requires c.startingId <= m.next
    ensures OwnOps(QuoteSide(c, m, mid, side, time).ops, c.startingId)
    ensures c.startingId <= QuoteSide(c, m, mid, side, time).maker.next
  {
    hide QuotePrice, Room, QuoteSize;
  }

  lemma DropQuotesOwn(c: MakerConfig, m: Maker)
    ensures OwnOps(DropQuotes(m).ops, c.startingId) && DropQuotes(m).maker.next == m.next
  {}

  lemma OwnOpsConcat(xs: seq<Op>, ys: seq<Op>, start: OrderId)
    requires OwnOps(xs, start) && OwnOps(ys, start)
    ensures OwnOps(xs + ys, start)
  {}

  lemma TickOwnOps(c: MakerConfig, m: Maker, b: Book, heard: seq<Trade>, time: nat)
    requires c.startingId <= m.next
    ensures OwnOps(Tick(c, m, b, heard, time).ops, c.startingId)
  {
    hide Changed, QuoteSide, DropQuotes, OverLoss, TwoSided, Mid, OwnOps;
    var x := Scan(m, heard);
    var t := DropQuotes(x);
    var bid := QuoteSide(c, t.maker, Mid(b), BUY, time);
    var ask := QuoteSide(c, bid.maker, Mid(b), SELL, time);
    NoOwnOps(c.startingId);
    DropQuotesOwn(c, x);
    DropQuotesOwn(c, x.(killed := true));
    QuoteSideOwn(c, t.maker, Mid(b), BUY, time);
    QuoteSideOwn(c, bid.maker, Mid(b), SELL, time);
    OwnOpsConcat(bid.ops, ask.ops, c.startingId);
    OwnOpsConcat(t.ops, bid.ops + ask.ops, c.startingId);
  }

  lemma NoOwnOps(start: OrderId)
    ensures OwnOps([], start)
  {}

  lemma {:induction false} OwnRunIds(b: Book, ops: seq<Op>, start: OrderId, x: OrderId)
    requires Wf(b) && AdmissibleRun(b, ops) && OwnOps(ops, start) && x < start
    ensures Live(Run(b, ops).book, x) ==> Live(b, x)
    decreases |ops|
  {
    hide Wf, Step, Admissible, Live;
    if ops != [] {
      StepKeepsWf(b, ops[0]);
      OwnRunIds(Step(b, ops[0]).book, ops[1..], start, x);
      if Live(Step(b, ops[0]).book, x) { StepIds(b, ops[0], x); }
    }
  }

  lemma FreshBeatsLeft(c: MakerConfig, m: Maker, b: Book, beats: seq<Beat>)
    requires beats != [] && Wf(b) && FreshBeats(b, beats, c.startingId) && c.startingId <= m.next
    requires var r := Step(b, beats[0].op);
      AdmissibleRun(r.book, Tick(c, m, r.book, r.trades, beats[0].time).ops)
    ensures FreshBeats(PlayRound(c, m, b, beats[0]).book, beats[1..], c.startingId)
  {
    hide Wf, Step, Live, Tick, Run, AdmissibleRun, OwnOps;
    var r := Step(b, beats[0].op);
    var t := Tick(c, m, r.book, r.trades, beats[0].time);
    FirstAdmissible(b, beats, c.startingId);
    StepKeepsWf(b, beats[0].op);
    TickOwnOps(c, m, r.book, r.trades, beats[0].time);
    forall i | 1 <= i < |beats| && beats[i].op.Submit?
      ensures !Live(Run(r.book, t.ops).book, beats[i].op.order.id)
    {
      var x := beats[i].op.order.id;
      assert Synthetic(beats[i].op, c.startingId);
      OwnRunIds(r.book, t.ops, c.startingId, x);
      if Live(r.book, x) { StepIds(b, beats[0].op, x); }
    }
  }

  lemma FirstAdmissible(b: Book, beats: seq<Beat>, start: OrderId)
    requires beats != [] && FreshBeats(b, beats, start)
    ensures Admissible(b, beats[0].op) && ForeignOp(beats[0].op, start)
  {
    assert Synthetic(beats[0].op, start);
  }

  /** One round: everything it does can be done, limits and ids are in order after it, and the
      account has taken in the maker's own fills of the scanned trades. */
  lemma RoundFits(c: MakerConfig, m: Maker, b: Book, beats: seq<Beat>)
    requires beats != [] && Wf(b) && Fits(c, m, b) && FreshBeats(b, beats, c.startingId)
    ensures var p := PlayRound(c, m, b, beats[0]); var r := Step(b, beats[0].op);
      && Admissible(b, beats[0].op) && AdmissibleRun(r.book, Tick(c, m, r.book, r.trades, beats[0].time).ops)
      && Wf(p.book) && Fits(c, p.maker, p.book) && FreshBeats(p.book, beats[1..], c.startingId)
      && p.maker.account == if p.scanned then Pnl.UpdateAll(m.account, OwnFills(p.heard, c.startingId)) else m.account
  {
    hide Wf, Fits, Step, Admissible, Tick, AdmissibleRun, Run, FreshBeats, Pnl.UpdateAll, OwnFills, TwoSided, Scan;
    var op := beats[0].op;
    var r := Step(b, op);
    FirstAdmissible(b, beats, c.startingId);
    RunOne(b, op);
    BetweenTicks(c, m, b, [op]);
    TickFits(c, m, r.book, r.trades, beats[0].time);
    StartBelowNext(c, m, b);
    TickAccount(c, m, r.book, r.trades, beats[0].time);
    FreshBeatsLeft(c, m, b, beats);
  }

  lemma StartBelowNext(c: MakerConfig, m: Maker, b: Book)
    requires Fits(c, m, b)
    ensures c.startingId <= m.next
  {}

  lemma TickAccount(c: MakerConfig, m: Maker, b: Book, heard: seq<Trade>, time: nat)
    ensures Tick(c, m, b, heard, time).maker.account == if TwoSided(b) then Scan(m, heard).account else m.account
  {
    hide Scan, TwoSided, Changed, QuotePrice, Room, QuoteSize, OverLoss, Mid;
  }

  /** What a round hears leaves the maker in order, scanned or not. */
  lemma FirstRound(c: MakerConfig, m: Maker, b: Book, beats: seq<Beat>)
    requires beats != [] && Wf(b) && Fits(c, m, b) && FreshBeats(b, beats, c.startingId)
    ensures var r := Step(b, beats[0].op);
      Synthetic(beats[0].op, c.startingId) && Wf(r.book) && Fits(c, m, r.book) && Fits(c, Scan(m, r.trades), r.book)
  {
    hide Wf, Fits, Step, Scan, Run;
    FirstAdmissible(b, beats, c.startingId);
    RunOne(b, beats[0].op);
    BetweenTicks(c, m, b, [beats[0].op]);
  }

  /** The first rounds of a session are a session. */
  lemma {:induction false} PlayPrefix(c: MakerConfig, m: Maker, b: Book, beats: seq<Beat>, n: nat)
    requires n <= |Play(c, m, b, beats)|
    ensures n <= |beats| && Play(c, m, b, beats[..n]) == Play(c, m, b, beats)[..n]
    decreases |beats|
  {
    hide PlayRound;
    if beats != [] && n > 0 {
      var p := PlayRound(c, m, b, beats[0]);
      if p.maker.killed {
        assert n == 1 && beats[..n] == [beats[0]];
      } else {
        var rest := Play(c, p.maker, p.book, beats[1..]);
        PlayPrefix(c, p.maker, p.book, beats[1..], n - 1);
        assert beats[..n][0] == beats[0] && beats[..n][1..] == beats[1..][..n - 1];
        assert ([p] + rest)[..n] == [p] + rest[..n - 1];
      }
    }
  }

  lemma FreshPrefix(b: Book, beats: seq<Beat>, start: OrderId, n: nat)
    requires FreshBeats(b, beats, start) && n <= |beats|
    ensures FreshBeats(b, beats[..n], start)
  {
    hide Synthetic, Live;
  }

  /** Limits and ids are in order after every round of every session. */
  lemma {:induction false} RoundsFit(c: MakerConfig, m: Maker, b: Book, beats: seq<Beat>)
    requires Wf(b) && Fits(c, m, b) && FreshBeats(b, beats, c.startingId)
    ensures forall p :: p in Play(c, m, b, beats) ==> Wf(p.book) && Fits(c, p.maker, p.book)
    decreases |beats|
  {
    hide Wf, Fits, FreshBeats, PlayRound;
    if beats != [] {
      RoundFits(c, m, b, beats);
      var p := PlayRound(c, m, b, beats[0]);
      if !p.maker.killed { RoundsFit(c, p.maker, p.book, beats[1..]); }
    }
  }

  /** The position bound: after every round of every session the tracked position, alone and together
      with whatever of the quotes is still on the book, is within the limit on both sides. */
  lemma PositionBound(c: MakerConfig, m: Maker, b: Book, beats: seq<Beat>)
    requires Wf(b) && Fits(c, m, b) && FreshBeats(b, beats, c.startingId)
    ensures forall p :: p in Play(c, m, b, beats) ==>
      var position := p.maker.account.position;
      && Abs(position) <= c.maxPosition
      && position + QtyOf(p.book.bids, p.maker.bidId) <= c.maxPosition
      && position - QtyOf(p.book.asks, p.maker.askId) >= -c.maxPosition
  {
    hide Wf, FreshBeats, Play, Orderly;
    RoundsFit(c, m, b, beats);
  }

  /** Shutting down after any session, killed or not, leaves no order of the maker on the book. */
  lemma ShutdownClears(c: MakerConfig, m: Maker, b: Book, beats: seq<Beat>, x: OrderId)
    requires Wf(b) && Fits(c, m, b) && FreshBeats(b, beats, c.startingId) && x >= c.startingId
    ensures var ps := Play(c, m, b, beats);
      ps != [] ==> var p := ps[|ps| - 1]; !Live(Run(p.book, DropQuotes(p.maker).ops).book, x)
  {
    hide Wf, FreshBeats, Play, WithinLimits, Run, AdmissibleRun, DropQuotes, IdsOk;
    var ps := Play(c, m, b, beats);
    RoundsFit(c, m, b, beats);
    if ps != [] {
      var p := ps[|ps| - 1];
      assert p in ps;
      DropQuotesFits(c, p.maker, p.book);
    }
  }

  // ---------- what the tracked position leaves out ----------

  /** Every trade of a session, in order. */
  function AllTrades(ps: seq<Round>): seq<Trade> {
    if ps == [] then [] else ps[0].heard + ps[0].own + AllTrades(ps[1..])
  }

  /** The trades the maker looked at. */
  function Scanned(ps: seq<Round>): seq<Trade> {
    if ps == [] then [] else (if ps[0].scanned then ps[0].heard else []) + Scanned(ps[1..])
  }

  /** The others: those made while it placed quotes, and those heard on a one-sided book. */
  function Missed(ps: seq<Round>): seq<Trade> {
    if ps == [] then [] else (if ps[0].scanned then [] else ps[0].heard) + ps[0].own + Missed(ps[1..])
  }

  lemma {:induction false} ScannedOrMissed(ps: seq<Round>, start: OrderId)
    ensures Signed(AllTrades(ps), start) == Signed(Scanned(ps), start) + Signed(Missed(ps), start)
  {
    hide Signed;
    SignedNone(start);
    if ps != [] {
      var p, rest := ps[0], ps[1..];
      ScannedOrMissed(rest, start);
      SignedConcat(p.heard, p.own, start);
      SignedConcat(p.heard + p.own, AllTrades(rest), start);
      SignedConcat(if p.scanned then p.heard else [], Scanned(rest), start);
      SignedConcat(if p.scanned then [] else p.heard, p.own, start);
      SignedConcat((if p.scanned then [] else p.heard) + p.own, Missed(rest), start);
    }
  }

  lemma SignedNone(start: OrderId)
    ensures Signed([], start) == 0
  {}

  lemma {:induction false} SignedIsNet(ts: seq<Trade>, start: OrderId)
    ensures Signed(ts, start) == Pnl.NetQty(OwnFills(ts, start))
  {
    if ts != [] {
      NetQtyConcat(OwnFillsIn(ts[0], start), OwnFills(ts[1..], start));
      SignedIsNet(ts[1..], start);
    }
  }

  function LastMaker(m: Maker, ps: seq<Round>): Maker {
    if ps == [] then m else ps[|ps| - 1].maker
  }

  /** The account at the end of a session is the maker's own fills of the scanned trades, in order. */
  lemma {:induction false} SessionAccount(c: MakerConfig, m: Maker, b: Book, beats: seq<Beat>)
    requires Wf(b) && Fits(c, m, b) && FreshBeats(b, beats, c.startingId)
    ensures var ps := Play(c, m, b, beats);
      LastMaker(m, ps).account == Pnl.UpdateAll(m.account, OwnFills(Scanned(ps), c.startingId))
    decreases |beats|
  {
    hide Wf, FreshBeats, PlayRound, Fits, Pnl.UpdateAll, OwnFills;
    NothingToAccount(m.account, c.startingId);
    if beats != [] {
      RoundFits(c, m, b, beats);
      var p := PlayRound(c, m, b, beats[0]);
      var rest := if p.maker.killed then [] else Play(c, p.maker, p.book, beats[1..]);
      var heard := if p.scanned then p.heard else [];
      if !p.maker.killed { SessionAccount(c, p.maker, p.book, beats[1..]); }
      NothingToAccount(p.maker.account, c.startingId);
      OwnFillsConcat(heard, Scanned(rest), c.startingId);
      Pnl.UpdateAllConcat(m.account, OwnFills(heard, c.startingId), OwnFills(Scanned(rest), c.startingId));
      assert ([p] + rest)[1..] == rest;
    }
  }

  lemma NothingToAccount(a: Pnl.Account, start: OrderId)
    ensures Pnl.UpdateAll(a, OwnFills([], start)) == a
  {}

  /** What the maker really bought less sold in a session is what it tracked plus its share of the
      trades it never looked at. */
  lemma TruePosition(c: MakerConfig, m: Maker, b: Book, beats: seq<Beat>)
    requires Wf(b) && Fits(c, m, b) && FreshBeats(b, beats, c.startingId)
    ensures var ps := Play(c, m, b, beats); var tracked := LastMaker(m, ps).account.position - m.account.position;
      Signed(AllTrades(ps), c.startingId) == tracked + Signed(Missed(ps), c.startingId)
  {
    hide *;
    var ps := Play(c, m, b, beats);
    var fills := OwnFills(Scanned(ps), c.startingId);
    SessionAccount(c, m, b, beats);
    Pnl.AccountingAgrees(m.account, fills, 0.0);
    SignedIsNet(Scanned(ps), c.startingId);
    ScannedOrMissed(ps, c.startingId);
  }

  /** The reported total PnL, at any mark, is the plain mark-to-market of the scanned fills. */
  lemma SessionPnl(c: MakerConfig, m: Maker, b: Book, beats: seq<Beat>, mark: real)
    requires Wf(b) && Fits(c, m, b) && FreshBeats(b, beats, c.startingId)
    ensures var ps := Play(c, m, b, beats);
      Pnl.Total(LastMaker(m, ps).account, mark)
      == Pnl.Total(m.account, mark) + Pnl.MarkToMarket(OwnFills(Scanned(ps), c.startingId), mark)
  {
    hide *;
    SessionAccount(c, m, b, beats);
    Pnl.AccountingAgrees(m.account, OwnFills(Scanned(Play(c, m, b, beats)), c.startingId), mark);
  }

  /** And the realized part of it is what the closed quantities of those fills brought over their average
      cost. */
  lemma SessionRealized(c: MakerConfig, m: Maker, b: Book, beats: seq<Beat>)
    requires Wf(b) && Fits(c, m, b) && FreshBeats(b, beats, c.startingId)
    ensures var ps := Play(c, m, b, beats); var fills := OwnFills(Scanned(ps), c.startingId);
      LastMaker(m, ps).account.realized == m.account.realized + Pnl.RealizedBy(m.account, fills)
  {
    hide *;
    var fills := OwnFills(Scanned(Play(c, m, b, beats)), c.startingId);
    SessionAccount(c, m, b, beats);
    Pnl.AverageCost(m.account, fills);
    RealizedIs(m.account, fills, LastMaker(m, Play(c, m, b, beats)).account);
  }

  lemma RealizedIs(a: Pnl.Account, fills: seq<Pnl.Fill>, b: Pnl.Account)
    requires Pnl.Stands(a, fills, b)
    ensures b.realized == a.realized + Pnl.RealizedBy(a, fills)
  {}

  function NewMaker(c: MakerConfig): Maker {
    Maker(Pnl.FLAT, false, 0, 0, 0, 0, c.startingId)
  }

  /** A new maker, on a book that holds only ids below its range. */
  lemma NewMakerFits(c: MakerConfig, b: Book)
    requires c.startingId > 0 && c.maxPosition >= 0 && IdsOk(b, c.startingId)
    ensures Fits(c, NewMaker(c), b)
  {
    Ledger.QtyWithoutId(b.bids, 0);
    Ledger.QtyWithoutId(b.asks, 0);
    assert forall x: OrderId :: HasId(b.bids, x) || HasId(b.asks, x) ==> Live(b, x);
  }
}
