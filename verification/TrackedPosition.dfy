/** A concrete session in which the market maker's limit holds of the position it tracks and fails
    of the one it has. */
module TrackedPosition {
  import opened Types
  import opened Matching
  import opened BookInvariants
  import opened Quoting
  import opened Inventory
  import opened Unseen
  import opened Drift
  import Pnl

  const TIGHT := MakerConfig(5000, 50, 50, 100, 50000000, 1000)
  const QUOTING := Maker(Pnl.FLAT, false, 1000, 1001, 995000, 1005000, 1002)
  const BOOK0 := Book([Entry(1000, 995000, 50)], [Entry(1001, 1005000, 50)])
  const BOOK1 := Book([Entry(1000, 995000, 50)], [])
  const BEAT0 := Beat(Submit(NewOrder(3, 0, 50, BUY, true), 0), 0)

  /** The maker's only ask is bought when it is the last of the book: the tick returns early. */
  lemma Round0()
    ensures PlayRound(TIGHT, QUOTING, BOOK0, BEAT0)
         == Round(QUOTING, BOOK1, [Trade(3, 1001, 1005000, 50, 0)], false, [], 497500)
  {
    var o := BEAT0.op.order;
    var m := Consume(o, 50, BOOK0.asks);
    assert BOOK0.asks[1..] == [];
    assert m == Match(0, [], [BOOK0.asks[0]]);
    RunNone(BOOK1);
  }

  const BEAT1 := Beat(Submit(NewOrder(4, 1010000, 1000, SELL, false), 1), 1)
  const REQUOTED := Maker(Pnl.FLAT, false, 1002, 1003, 997500, 1007500, 1004)
  const BOOK2 := Book([Entry(1000, 995000, 50)], [Entry(4, 1010000, 1000)])
  const BOOK3 := Book([Entry(1002, 997500, 50)], [Entry(1003, 1007500, 50), Entry(4, 1010000, 1000)])

  /** Somebody offers again, and the maker, which thinks it is flat, quotes its full size again. */
  lemma Round1()
    ensures PlayRound(TIGHT, QUOTING, BOOK1, BEAT1) == Round(REQUOTED, BOOK3, [], true, [], 1002500)
  {
    var o := BEAT1.op.order;
    assert Consume(o, 1000, BOOK1.bids) == Match(1000, BOOK1.bids, []);
    assert SubmittedBook(BOOK1, o) == BOOK2;
    assert Step(BOOK1, BEAT1.op).book == BOOK2 && Step(BOOK1, BEAT1.op).trades == [];
    Requoting();
    RequotingRun();
  }

  const OPS1 := [Cancel(1000), Cancel(1001), Submit(NewOrder(1002, 997500, 50, BUY, false), 1),
                 Submit(NewOrder(1003, 1007500, 50, SELL, false), 1)]

  lemma Requoting()
    ensures Tick(TIGHT, QUOTING, BOOK2, [], 1) == Turn(REQUOTED, OPS1)
  {
    hide DropQuotes, QuoteBoth;
    assert Mid(BOOK2) == 1002500;
    NothingHeard(QUOTING, 1002500);
    RequotingTurn();
  }

  lemma NothingHeard(m: Maker, mid: Price)
    requires m.account == Pnl.FLAT
    ensures Scan(m, []) == m && !OverLoss(TIGHT, m, mid)
  {}

  lemma RequotingTurn()
    ensures Changed(TIGHT, QUOTING, 1002500)
    ensures DropQuotes(QUOTING).Then(QuoteBoth(TIGHT, DropQuotes(QUOTING).maker, 1002500, 1)) == Turn(REQUOTED, OPS1)
  {
    hide QuoteSide;
    var dropped := QUOTING.(bidId := 0, askId := 0, bidPx := 0, askPx := 0);
    assert DropQuotes(QUOTING) == Turn(dropped, [Cancel(1000), Cancel(1001)]);
    FullQuote(dropped, BUY, 997500);
    var bid := Place(dropped, 997500, 50, BUY, 1);
    FullQuote(bid.maker, SELL, 1007500);
    var ask := Place(bid.maker, 1007500, 50, SELL, 1);
    assert bid.ops == [OPS1[2]] && ask.ops == [OPS1[3]] && ask.maker == REQUOTED;
    assert [Cancel(1000), Cancel(1001)] + (bid.ops + ask.ops) == OPS1;
  }

  /** A flat maker quotes its full size half a spread from the midpoint. */
  lemma FullQuote(m: Maker, side: Side, price: Price)
    requires m.account.position == 0 && price == if side == BUY then 997500 else 1007500
    ensures QuoteSide(TIGHT, m, 1002500, side, 1) == Place(m, price, 50, side, 1)
  {
    hide Place;
    assert Room(TIGHT, m, side) == 50 && QuotePrice(TIGHT, m, 1002500, side) == price;
    assert QuoteSize(TIGHT, m, side) == 50;
  }

  lemma RequotingRun()
    ensures Run(BOOK2, OPS1) == Outcome(BOOK3, [], Run(BOOK2, OPS1).published)
  {
    var b1 := Book([], BOOK2.asks);
    var bid, ask := OPS1[2].order, OPS1[3].order;
    var b2 := Book([Entry(1002, 997500, 50)], BOOK2.asks);
    assert BOOK2.bids[0].id == 1000;
    assert Live(BOOK2, 1000) && Step(BOOK2, OPS1[0]).book == b1 && Step(BOOK2, OPS1[0]).trades == [];
    assert !Live(b1, 1001) && Step(b1, OPS1[1]) == Outcome(b1, [], []);
    assert Consume(bid, 50, b1.asks) == Match(50, b1.asks, []);
    assert Step(b1, OPS1[2]).book == b2 && Step(b1, OPS1[2]).trades == [];
    assert Consume(ask, 50, b2.bids) == Match(50, b2.bids, []);
    assert Step(b2, OPS1[3]).book == BOOK3 && Step(b2, OPS1[3]).trades == [];
    RunFour(BOOK2, OPS1[0], OPS1[1], OPS1[2], OPS1[3]);
  }

  lemma RunFour(b: Book, w: Op, x: Op, y: Op, z: Op)
    ensures var b1 := Step(b, w); var b2 := Step(b1.book, x); var b3 := Step(b2.book, y); var b4 := Step(b3.book, z);
      var r := Run(b, [w, x, y, z]);
      r.book == b4.book && r.trades == b1.trades + b2.trades + b3.trades + b4.trades
  {
    hide Step;
    assert [w, x, y, z] == [w, x] + [y, z] && [w, x] == [w] + [x] && [y, z] == [y] + [z];
    RunOne(b, w);
    RunOne(Step(b, w).book, x);
    RunConcat(b, [w], [x]);
    var b2 := Run(b, [w, x]).book;
    RunOne(b2, y);
    RunOne(Step(b2, y).book, z);
    RunConcat(b2, [y], [z]);
    RunConcat(b, [w, x], [y, z]);
  }

  const BEAT2 := Beat(Submit(NewOrder(5, 0, 50, BUY, true), 2), 2)
  const BOOK4 := Book([Entry(1002, 997500, 50)], [Entry(4, 1010000, 1000)])
  const SHORT := Maker(Pnl.Account(-50, 0.0, 100.75), false, 1002, 1003, 997500, 1007500, 1004)
  const OPS2 := [Cancel(1002), Cancel(1003), Submit(NewOrder(1004, 1003750, 50, BUY, false), 2)]

  /** The second ask is bought too, and this time noticed. */
  lemma Round2()
    ensures var p := PlayRound(TIGHT, REQUOTED, BOOK3, BEAT2);
      p.heard == [Trade(5, 1003, 1007500, 50, 2)] && p.scanned && p.own == [] && p.maker.account.position == -50
      && !p.maker.killed
  {
    hide React, Run;
    var o := BEAT2.op.order;
    assert BOOK3.asks[1..] == BOOK4.asks;
    assert Consume(o, 0, BOOK4.asks) == Match(0, BOOK4.asks, []);
    assert Consume(o, 50, BOOK3.asks) == Match(0, BOOK4.asks, [BOOK3.asks[0]]);
    assert SubmittedBook(BOOK3, o) == BOOK4;
    var heard := [Trade(5, 1003, 1007500, 50, 2)];
    assert Step(BOOK3, BEAT2.op).trades == heard && Step(BOOK3, BEAT2.op).book == BOOK4;
    assert Mid(BOOK4) == 1003750;
    Hearing(heard);
    ShortTurn();
    ShortRun();
  }

  lemma Hearing(heard: seq<Trade>)
    requires heard == [Trade(5, 1003, 1007500, 50, 2)]
    ensures Scan(REQUOTED, heard) == SHORT
  {
    hide Pnl.Update;
    assert heard[1..] == [];
    var f := Pnl.Fill(-50, 100.75);
    assert FillsOf(heard, 1002, 1003) == [f];
    assert [f][1..] == [];
    assert Pnl.UpdateAll(Pnl.FLAT, [f]) == Pnl.Update(Pnl.FLAT, f);
    FirstShort(f);
  }

  lemma FirstShort(f: Pnl.Fill)
    ensures Pnl.Update(Pnl.FLAT, f) == Pnl.Account(f.qty, 0.0, f.price)
  {}

  lemma ShortTurn()
    ensures var t := React(TIGHT, SHORT, 1003750, 2); t.ops == OPS2 && t.maker.account == SHORT.account && !t.maker.killed
  {
    hide Pnl.Total;
    ShortLoss();
    var t := DropQuotes(SHORT);
    assert t.ops == [Cancel(1002), Cancel(1003)];
    assert QuotePrice(TIGHT, t.maker, 1003750, BUY) == 1003750;
    var bid := QuoteSide(TIGHT, t.maker, 1003750, BUY, 2);
    assert bid.ops == [OPS2[2]];
    assert QuoteSide(TIGHT, bid.maker, 1003750, SELL, 2) == Turn(bid.maker, []);
    assert t.ops + (bid.ops + []) == OPS2;
  }

  lemma ShortLoss()
    ensures Pnl.Total(SHORT.account, Dollars(1003750)) >= 0.0
  {}

  lemma ShortRun()
    ensures Run(BOOK4, OPS2).trades == []
  {
    hide Step, Run;
    var b1 := Book([], BOOK4.asks);
    ShortSteps(b1);
    RunOne(BOOK4, OPS2[0]);
    RunOne(b1, OPS2[1]);
    RunConcat(BOOK4, [OPS2[0]], [OPS2[1]]);
    RunOne(b1, OPS2[2]);
    RunConcat(BOOK4, [OPS2[0], OPS2[1]], [OPS2[2]]);
    assert OPS2 == [OPS2[0], OPS2[1]] + [OPS2[2]] && [OPS2[0], OPS2[1]] == [OPS2[0]] + [OPS2[1]];
  }

  lemma ShortSteps(b1: Book)
    requires b1 == Book([], BOOK4.asks)
    ensures Step(BOOK4, OPS2[0]).book == b1 && Step(BOOK4, OPS2[0]).trades == []
    ensures Step(b1, OPS2[1]) == Outcome(b1, [], []) && Step(b1, OPS2[2]).trades == []
  {
    assert BOOK4.bids[0].id == 1002;
    assert Live(BOOK4, 1002) && !Live(b1, 1003);
    assert Consume(OPS2[2].order, 50, b1.asks) == Match(50, b1.asks, []);
  }

  lemma ThreeRounds()
    ensures var ps := Play(TIGHT, QUOTING, BOOK0, [BEAT0, BEAT1, BEAT2]);
      && ps != [] && LastMaker(QUOTING, ps).account.position == -50
      && AllTrades(ps) == [Trade(3, 1001, 1005000, 50, 0), Trade(5, 1003, 1007500, 50, 2)]
  {
    hide PlayRound;
    Round0();
    Round1();
    Round2();
    var p0, p1 := PlayRound(TIGHT, QUOTING, BOOK0, BEAT0), PlayRound(TIGHT, QUOTING, BOOK1, BEAT1);
    var p2 := PlayRound(TIGHT, REQUOTED, BOOK3, BEAT2);
    PlayThree();
    AllTradesOfThree(p0, p1, p2);
    assert p0.heard + p0.own + (p1.heard + p1.own + (p2.heard + p2.own))
        == [Trade(3, 1001, 1005000, 50, 0), Trade(5, 1003, 1007500, 50, 2)];
  }

  lemma AllTradesOfThree(p0: Round, p1: Round, p2: Round)
    ensures AllTrades([p0, p1, p2]) == p0.heard + p0.own + (p1.heard + p1.own + (p2.heard + p2.own))
  {
    assert [p0, p1, p2][1..] == [p1, p2] && [p1, p2][1..] == [p2] && [p2][1..] == [];
    assert AllTrades([p2]) == p2.heard + p2.own + [] == p2.heard + p2.own;
    assert AllTrades([p1, p2]) == p1.heard + p1.own + (p2.heard + p2.own);
  }

  lemma SignedOfTwo()
    ensures Signed([Trade(3, 1001, 1005000, 50, 0), Trade(5, 1003, 1007500, 50, 2)], 1000) == -100
  {
    var ts := [Trade(3, 1001, 1005000, 50, 0), Trade(5, 1003, 1007500, 50, 2)];
    assert ts[1..] == [ts[1]] && [ts[1]][1..] == [];
  }

  lemma PlayThree()
    ensures var ps := Play(TIGHT, QUOTING, BOOK0, [BEAT0, BEAT1, BEAT2]);
      ps == [PlayRound(TIGHT, QUOTING, BOOK0, BEAT0), PlayRound(TIGHT, QUOTING, BOOK1, BEAT1),
             PlayRound(TIGHT, REQUOTED, BOOK3, BEAT2)]
  {
    hide PlayRound;
    Round0();
    Round1();
    var beats := [BEAT0, BEAT1, BEAT2];
    assert beats[1..] == [BEAT1, BEAT2] && [BEAT1, BEAT2][1..] == [BEAT2] && [BEAT2][1..] == [];
    var p2 := PlayRound(TIGHT, REQUOTED, BOOK3, BEAT2);
    assert Play(TIGHT, REQUOTED, BOOK3, [BEAT2]) == [p2];
    assert Play(TIGHT, QUOTING, BOOK1, [BEAT1, BEAT2]) == [PlayRound(TIGHT, QUOTING, BOOK1, BEAT1)] + [p2];
  }

  // ---------- how the session gets there ----------

  const NEW := NewMaker(TIGHT)
  const SEEDED := Book([Entry(1, 990000, 1)], [Entry(2, 1010000, 1)])
  const QUOTED := Book([Entry(1000, 995000, 50), Entry(1, 990000, 1)], [Entry(1001, 1005000, 50), Entry(2, 1010000, 1)])
  const BIDLESS := Book([Entry(1000, 995000, 50)], QUOTED.asks)

  /** A quiet beat: the new maker quotes both sides of the seeded book. */
  lemma FirstQuotes()
    ensures PlayRound(TIGHT, NEW, SEEDED, Beat(Cancel(3), 0)) == Round(QUOTING, QUOTED, [], true, [], 1000000)
  {
    hide Tick, Run, Step;
    NothingCancelled(SEEDED);
    FirstTick();
    FirstRun();
  }

  lemma NothingCancelled(b: Book)
    requires b == SEEDED
    ensures Step(b, Cancel(3)) == Outcome(b, [], [])
    ensures TwoSided(b) && Mid(b) == 1000000
  {}

  const OPS0 := [Submit(NewOrder(1000, 995000, 50, BUY, false), 0), Submit(NewOrder(1001, 1005000, 50, SELL, false), 0)]

  lemma FirstTick()
    ensures Tick(TIGHT, NEW, SEEDED, [], 0) == Turn(QUOTING, OPS0)
  {
    hide Scan, OverLoss, Mid, TwoSided, DropQuotes, QuoteBoth, Changed;
    NothingCancelled(SEEDED);
    NothingHeard(NEW, 1000000);
    FirstTurn();
  }

  lemma FirstTurn()
    ensures Changed(TIGHT, NEW, 1000000)
    ensures DropQuotes(NEW).Then(QuoteBoth(TIGHT, DropQuotes(NEW).maker, 1000000, 0)) == Turn(QUOTING, OPS0)
  {
    hide QuoteSide;
    FirstQuote(NEW, BUY, 995000);
    var bid := Place(NEW, 995000, 50, BUY, 0);
    FirstQuote(bid.maker, SELL, 1005000);
    var ask := Place(bid.maker, 1005000, 50, SELL, 0);
    assert bid.ops == [OPS0[0]] && ask.ops == [OPS0[1]] && ask.maker == QUOTING;
    assert DropQuotes(NEW) == Turn(NEW, []);
    assert [] + (bid.ops + ask.ops) == OPS0;
  }

  lemma FirstQuote(m: Maker, side: Side, price: Price)
    requires m.account.position == 0 && price == if side == BUY then 995000 else 1005000
    ensures QuoteSide(TIGHT, m, 1000000, side, 0) == Place(m, price, 50, side, 0)
  {
    hide Place;
    assert Room(TIGHT, m, side) == 50 && QuotePrice(TIGHT, m, 1000000, side) == price;
    assert QuoteSize(TIGHT, m, side) == 50;
  }

  lemma FirstRun()
    ensures Run(SEEDED, OPS0).book == QUOTED && Run(SEEDED, OPS0).trades == []
  {
    hide Step, Run;
    var b1 := Book(QUOTED.bids, SEEDED.asks);
    FirstSteps(b1);
    RunOne(SEEDED, OPS0[0]);
    RunOne(b1, OPS0[1]);
    RunConcat(SEEDED, [OPS0[0]], [OPS0[1]]);
    assert OPS0 == [OPS0[0]] + [OPS0[1]];
  }

  lemma FirstSteps(b1: Book)
    requires b1 == Book(QUOTED.bids, SEEDED.asks)
    ensures Step(SEEDED, OPS0[0]).book == b1 && Step(SEEDED, OPS0[0]).trades == []
    ensures Step(b1, OPS0[1]).book == QUOTED && Step(b1, OPS0[1]).trades == []
  {
    var bid, ask := OPS0[0].order, OPS0[1].order;
    assert Consume(bid, 50, SEEDED.asks) == Match(50, SEEDED.asks, []);
    assert Consume(ask, 50, b1.bids) == Match(50, b1.bids, []);
  }

  /** The two orders of the others are cancelled; the midpoint stays and so do the quotes. */
  lemma OthersLeave()
    ensures PlayRound(TIGHT, QUOTING, QUOTED, Beat(Cancel(1), 0)) == Round(QUOTING, BIDLESS, [], true, [], 1000000)
    ensures PlayRound(TIGHT, QUOTING, BIDLESS, Beat(Cancel(2), 0)) == Round(QUOTING, BOOK0, [], true, [], 1000000)
  {
    hide Tick, Run, Step;
    LeavingSteps();
    RunNone(BIDLESS);
    RunNone(BOOK0);
    StillCurrent(BIDLESS);
    StillCurrent(BOOK0);
  }

  lemma LeavingSteps()
    ensures Step(QUOTED, Cancel(1)).book == BIDLESS && Step(QUOTED, Cancel(1)).trades == []
    ensures Step(BIDLESS, Cancel(2)).book == BOOK0 && Step(BIDLESS, Cancel(2)).trades == []
  {
    assert QUOTED.bids[1].id == 1 && BIDLESS.asks[1].id == 2;
    assert QUOTED.bids[1..] == [Entry(1, 990000, 1)] && BIDLESS.asks[1..] == [Entry(2, 1010000, 1)];
    assert Splice(QUOTED.bids[1..], 1, []) == [] && Splice(BIDLESS.asks[1..], 2, []) == [];
  }

  lemma StillCurrent(b: Book)
    requires BestPrice(b.bids) == 995000 && BestPrice(b.asks) == 1005000
    ensures TwoSided(b) && Mid(b) == 1000000 && Tick(TIGHT, QUOTING, b, [], 0) == Turn(QUOTING, [])
  {
    hide Scan, OverLoss, DropQuotes, QuoteBoth, Changed, Mid, BestPrice;
    NothingHeard(QUOTING, 1000000);
    MidOfQuotes(b);
    Unchanged(QUOTING);
  }

  lemma MidOfQuotes(b: Book)
    requires BestPrice(b.bids) == 995000 && BestPrice(b.asks) == 1005000
    ensures Mid(b) == 1000000
  {
    hide BestPrice;
  }

  lemma Unchanged(m: Maker)
    requires m.account.position == 0 && m.bidPx == 995000 && m.askPx == 1005000
    ensures !Changed(TIGHT, m, 1000000)
  {
    SameSides(m, BUY, 995000);
    SameSides(m, SELL, 1005000);
    hide QuotePrice, Room;
  }

  lemma SameSides(m: Maker, side: Side, price: Price)
    requires m.account.position == 0 && price == if side == BUY then 995000 else 1005000
    ensures QuotePrice(TIGHT, m, 1000000, side) == price && Room(TIGHT, m, side) == 50
  {}

  /** A quiet first round is put before a session. */
  lemma Before(c: MakerConfig, m: Maker, b: Book, beat: Beat, rest: seq<Beat>)
    requires var p := PlayRound(c, m, b, beat); !p.maker.killed && p.heard == [] && p.own == []
    ensures var p := PlayRound(c, m, b, beat); var ps := Play(c, p.maker, p.book, rest);
      && Play(c, m, b, [beat] + rest) == [p] + ps && AllTrades([p] + ps) == AllTrades(ps)
      && (ps != [] ==> LastMaker(m, [p] + ps) == LastMaker(p.maker, ps))
  {
    hide PlayRound;
    assert ([beat] + rest)[1..] == rest;
    var p := PlayRound(c, m, b, beat);
    var ps := Play(c, p.maker, p.book, rest);
    assert ([p] + ps)[1..] == ps;
    assert [] + [] + AllTrades(ps) == AllTrades(ps);
  }

  const SESSION := [Beat(Cancel(3), 0)] + ([Beat(Cancel(1), 0)] + ([Beat(Cancel(2), 0)] + [BEAT0, BEAT1, BEAT2]))

  /** The limit holds of the tracked position only: with a limit of 50, a session of a new maker leaves
      it short of 100 shares while it believes to be short of 50. */
  lemma TruePositionCanExceed()
    ensures Wf(SEEDED) && Fits(TIGHT, NEW, SEEDED) && FreshBeats(SEEDED, SESSION, TIGHT.startingId)
    ensures var ps := Play(TIGHT, NEW, SEEDED, SESSION);
      && LastMaker(NEW, ps).account.position == -50 == -TIGHT.maxPosition
      && Signed(AllTrades(ps), TIGHT.startingId) == -100
  {
    hide PlayRound, Play, Signed, Wf, Fits, FreshBeats, AllTrades, LastMaker;
    SeededFits();
    FirstQuotes();
    OthersLeave();
    ThreeRounds();
    var last := [BEAT0, BEAT1, BEAT2];
    Before(TIGHT, QUOTING, BIDLESS, Beat(Cancel(2), 0), last);
    Before(TIGHT, QUOTING, QUOTED, Beat(Cancel(1), 0), [Beat(Cancel(2), 0)] + last);
    Before(TIGHT, NEW, SEEDED, Beat(Cancel(3), 0), [Beat(Cancel(1), 0)] + ([Beat(Cancel(2), 0)] + last));
    SignedOfTwo();
  }

  lemma SeededFits()
    ensures Wf(SEEDED) && Fits(TIGHT, NEW, SEEDED) && FreshBeats(SEEDED, SESSION, TIGHT.startingId)
  {
    hide Fits, IdsOk;
    assert |SEEDED.bids| == 1 && |SEEDED.asks| == 1;
    assert forall x: OrderId :: Live(SEEDED, x) ==> x == 1 || x == 2;
    SeededIds();
    NewMakerFits(TIGHT, SEEDED);
  }

  lemma SeededIds()
    ensures IdsOk(SEEDED, 1000)
  {}

  // ---------- what it overlooks on the way ----------

  ghost predicate InOrder(c: MakerConfig, m: Maker, b: Book, beats: seq<Beat>) {
    Wf(b) && Fits(c, m, b) && FreshBeats(b, beats, c.startingId)
  }

  /** A first round is counted if and only if it has a trade of the maker that it never looks at. */
  lemma FirstCounts(c: MakerConfig, m: Maker, b: Book, beat: Beat, rest: seq<Beat>)
    requires InOrder(c, m, b, [beat] + rest) && !PlayRound(c, m, b, beat).maker.killed
    ensures var p := PlayRound(c, m, b, beat);
      && InOrder(c, p.maker, p.book, rest)
      && Overlooked(c, m, b, [beat] + rest)
         == (if NoneOwn(MissedIn(p), c.startingId) then 0 else 1) + Overlooked(c, p.maker, p.book, rest)
  {
    hide Wf, Fits, FreshBeats, PlayRound, Overlooks, NoneOwn, MissedIn;
    var beats := [beat] + rest;
    assert beats[1..] == rest;
    RoundFits(c, m, b, beats);
    RoundMissesIff(c, m, b, beats);
  }

  lemma MissesNothing(p: Round)
    requires p.own == [] && (p.scanned || p.heard == [])
    ensures MissedIn(p) == []
  {}

  lemma MissesItsHeard(p: Round)
    requires p.own == [] && !p.scanned
    ensures MissedIn(p) == p.heard
  {}

  lemma OnceOverlooked()
    ensures Overlooked(TIGHT, NEW, SEEDED, SESSION) == 1
  {
    hide PlayRound, Overlooked, InOrder, NoneOwn, MissedIn, FreshBeats, Fits, Wf;
    var last := [BEAT1, BEAT2];
    SessionInOrder();
    FirstQuotes();
    OthersLeave();
    FirstCounts(TIGHT, NEW, SEEDED, Beat(Cancel(3), 0), [Beat(Cancel(1), 0)] + ([Beat(Cancel(2), 0)] + ([BEAT0] + last)));
    FirstCounts(TIGHT, QUOTING, QUOTED, Beat(Cancel(1), 0), [Beat(Cancel(2), 0)] + ([BEAT0] + last));
    FirstCounts(TIGHT, QUOTING, BIDLESS, Beat(Cancel(2), 0), [BEAT0] + last);
    LastThree();
    NoneOwnNone(TIGHT.startingId);
    MissesNothing(PlayRound(TIGHT, NEW, SEEDED, Beat(Cancel(3), 0)));
    MissesNothing(PlayRound(TIGHT, QUOTING, QUOTED, Beat(Cancel(1), 0)));
    MissesNothing(PlayRound(TIGHT, QUOTING, BIDLESS, Beat(Cancel(2), 0)));
  }

  lemma SessionInOrder()
    ensures [BEAT0] + [BEAT1, BEAT2] == [BEAT0, BEAT1, BEAT2] && InOrder(TIGHT, NEW, SEEDED, SESSION)
  {
    hide FreshBeats, Fits, Wf;
    SeededFits();
  }

  lemma LastThree()
    requires InOrder(TIGHT, QUOTING, BOOK0, [BEAT0] + [BEAT1, BEAT2])
    ensures Overlooked(TIGHT, QUOTING, BOOK0, [BEAT0] + [BEAT1, BEAT2]) == 1
  {
    hide PlayRound, Overlooked, InOrder, NoneOwn, MissedIn;
    assert [BEAT1] + [BEAT2] == [BEAT1, BEAT2] && [BEAT2] + [] == [BEAT2];
    Round0();
    Round1();
    Round2();
    FirstCounts(TIGHT, QUOTING, BOOK0, BEAT0, [BEAT1] + [BEAT2]);
    FirstCounts(TIGHT, QUOTING, BOOK1, BEAT1, [BEAT2] + []);
    FirstCounts(TIGHT, REQUOTED, BOOK3, BEAT2, []);
    NoneOwnNone(TIGHT.startingId);
    MissesItsHeard(PlayRound(TIGHT, QUOTING, BOOK0, BEAT0));
    MissesNothing(PlayRound(TIGHT, QUOTING, BOOK1, BEAT1));
    MissesNothing(PlayRound(TIGHT, REQUOTED, BOOK3, BEAT2));
    OwnSale();
    NoBeats(PlayRound(TIGHT, REQUOTED, BOOK3, BEAT2).maker, PlayRound(TIGHT, REQUOTED, BOOK3, BEAT2).book);
  }

  lemma OwnSale()
    ensures !NoneOwn([Trade(3, 1001, 1005000, 50, 0)], TIGHT.startingId)
  {
    assert [Trade(3, 1001, 1005000, 50, 0)][0].sellId == 1001;
  }

  lemma NoBeats(m: Maker, b: Book)
    ensures Overlooked(TIGHT, m, b, []) == 0
  {}

  /** The session reaches the bound on the drift: it overlooks one round, and ends one quote beyond the
      limit. */
  lemma DriftIsReached()
    ensures var ps := Play(TIGHT, NEW, SEEDED, SESSION);
      && Overlooked(TIGHT, NEW, SEEDED, SESSION) == 1
      && Abs(Holds(NEW, ps, |ps|, TIGHT.startingId))
         == TIGHT.maxPosition + TIGHT.quoteSize * Overlooked(TIGHT, NEW, SEEDED, SESSION)
  {
    hide Play, Overlooked, Signed, AllTrades;
    TruePositionCanExceed();
    OnceOverlooked();
    var ps := Play(TIGHT, NEW, SEEDED, SESSION);
    assert ps[..|ps|] == ps;
  }
}
