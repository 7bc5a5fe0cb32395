/** The market-data feed: what the last published message says about the book. */
module Feed {
  import opened Types
  import opened Matching
  import BookInvariants

  /** The last message handed to the ring; before the first one, the empty book. */
  function LastPublished(feed: seq<Bbo>): Bbo {
    if feed == [] then TopOfBook(EMPTY_BOOK) else feed[|feed| - 1]
  }

  predicate PricesAgree(m: Bbo, b: Book) {
    m.bidPrice == BestPrice(b.bids) && m.askPrice == BestPrice(b.asks)
  }

  /** A submit or a modify publishes if and only if it moved a best price, a cancel if and only if it
      found its order; and what is published is the top of the book the operation left. */
  lemma StepPublishesTop(b: Book, op: Op)
    ensures var r := Step(b, op);
      && r.published == (if if op.Cancel? then Live(b, op.id) else Moved(b, r.book) then [TopOfBook(r.book)] else [])
      && (r.published == [] ==> !Moved(b, r.book))
  {}

  lemma StepAgrees(b: Book, feed: seq<Bbo>, op: Op)
    requires PricesAgree(LastPublished(feed), b)
    ensures PricesAgree(LastPublished(feed + Step(b, op).published), Step(b, op).book)
  {
    StepPublishesTop(b, op);
    var published := Step(b, op).published;
    assert published == [] ==> feed + published == feed;
  }

  /** Feed agreement over runs: if the last message agrees with the book before, then after every
      run the last message's prices are the current best bid and ask, 0 for an empty side. */
  lemma {:induction false} FeedAgrees(b: Book, feed: seq<Bbo>, ops: seq<Op>)
    requires PricesAgree(LastPublished(feed), b)
    ensures PricesAgree(LastPublished(feed + Run(b, ops).published), Run(b, ops).book)
    decreases |ops|
  {
    if ops == [] {
      assert feed + [] == feed;
    } else {
      StepAgrees(b, feed, ops[0]);
      FeedAgrees(Step(b, ops[0]).book, feed + Step(b, ops[0]).published, ops[1..]);
      Assoc(feed, Step(b, ops[0]).published, Run(Step(b, ops[0]).book, ops[1..]).published);
    }
  }

  /** The top of a book shows it, and nothing else does. */
  lemma TopShows(b: Book, m: Bbo)
    ensures Shows(m, b) <==> m == TopOfBook(b)
  {}

  /** Every message of a run showed the book, field by field, at the moment it was handed over; and the
      messages came in that order. */
  lemma {:induction false} MessagesAreTops(b: Book, ops: seq<Op>, j: nat) returns (n: nat)
    requires j < |Run(b, ops).published|
    ensures 0 < n <= |ops|
    ensures var r := Run(b, ops[..n]);
      r.published == Run(b, ops).published[..j + 1] && r.published[j] == TopOfBook(r.book) && Shows(r.published[j], r.book)
    decreases |ops|
  {
    hide Step, TopOfBook, Shows;
    var first := Step(b, ops[0]);
    var later := Run(first.book, ops[1..]).published;
    StepPublishesTop(b, ops[0]);
    if j < |first.published| {
      n := 1;
      assert ops[1..1] == [];
      BookInvariants.PrefixOfRun(b, ops, 1);
      TopShows(first.book, TopOfBook(first.book));
      assert first.published + [] == first.published == (first.published + later)[..j + 1];
    } else {
      var k := |first.published|;
      var n' := MessagesAreTops(first.book, ops[1..], j - k);
      n := n' + 1;
      assert ops[1..][..n'] == ops[1..n];
      BookInvariants.PrefixOfRun(b, ops, n);
      assert (first.published + later)[..j + 1] == first.published + later[..j - k + 1];
    }
  }

  lemma OfferRests(s0: Op, b1: Book)
    requires s0 == Submit(NewOrder(1, 100, 10, SELL, false), 0) && b1 == Book([], [Entry(1, 100, 10)])
    ensures Step(EMPTY_BOOK, s0).book == b1 && Step(EMPTY_BOOK, s0).published == [Bbo(0, 100, 0, 10)]
  {}

  lemma PartIsTaken(s1: Op, b1: Book, b2: Book)
    requires s1 == Submit(NewOrder(2, 100, 4, BUY, false), 0)
    requires b1 == Book([], [Entry(1, 100, 10)]) && b2 == Book([], [Entry(1, 100, 6)])
    ensures Step(b1, s1).book == b2 && Step(b1, s1).published == []
  {}

  /** They can be stale: a partial fill of the best level moves no price and is not published. */
  lemma QuantitiesCanBeStale() returns (b: Book, ops: seq<Op>)
    ensures b == EMPTY_BOOK && AdmissibleRun(b, ops)
    ensures LastPublished(Run(b, ops).published).askQty == 10 && TopVolume(Run(b, ops).book.asks) == 6
  {
    hide Step;
    b := EMPTY_BOOK;
    var s0 := Submit(NewOrder(1, 100, 10, SELL, false), 0);
    var s1 := Submit(NewOrder(2, 100, 4, BUY, false), 0);
    ops := [s0, s1];
    var b1, b2 := Book([], [Entry(1, 100, 10)]), Book([], [Entry(1, 100, 6)]);
    OfferRests(s0, b1);
    PartIsTaken(s1, b1, b2);
    assert ops == [s0] + [s1];
    BookInvariants.RunOne(b, s0);
    BookInvariants.RunOne(b1, s1);
    BookInvariants.RunConcat(b, [s0], [s1]);
  }
}
