/** When the quantities of the last market-data message go out of date: a test on the book and the
    operation, before it is applied. */
module Staleness {
  import opened Types
  import opened Matching
  import opened MatchingLemmas
  import opened BookInvariants
  import opened Execution
  import opened Feed

  // ---------- the opposite side of a submit ----------

  /** An order for `q` units that reaches all of `l` leaves nothing of it. */
  predicate GetsPast(q: nat, l: seq<Entry>) {
    l == [] || q > Volume(l) || (q == Volume(l) && l[|l| - 1].qty > 0)
  }

  predicate AllReached(o: NewOrder, l: seq<Entry>) {
    forall i :: 0 <= i < |l| ==> Reaches(o, l[i].price)
  }

  lemma GetsPastTail(q: nat, l: seq<Entry>)
    requires l != [] && q > 0 && q >= l[0].qty
    ensures GetsPast(q, l) <==> GetsPast(q - l[0].qty, l[1..])
  {
    if |l| == 1 { assert l[1..] == []; }
  }

  lemma {:induction false} LastCounts(l: seq<Entry>)
    requires l != []
    ensures Volume(l) >= l[|l| - 1].qty
  {
    if |l| > 1 { LastCounts(l[1..]); }
  }

  /** The orders at one price at the front of a side are taken whole, or a part of them is all that is
      taken. */
  lemma {:induction false} ConsumeFront(o: NewOrder, q: nat, a: seq<Entry>, z: seq<Entry>, p: Price) returns (r: seq<Entry>)
    requires Reaches(o, p) && forall i :: 0 <= i < |a| ==> a[i].price == p
    ensures var m := Consume(o, q, a + z);
      if GetsPast(q, a) then
        q >= Volume(a) && m.rest == Consume(o, q - Volume(a), z).rest
      else
        && m.rest == r + z && r != [] && q <= Volume(a) && Volume(r) == Volume(a) - q
        && forall i :: 0 <= i < |r| ==> r[i].price == p
    decreases |a|
  {
    hide Reaches;
    if a == [] {
      r := [];
      assert a + z == z;
    } else {
      assert (a + z)[0] == a[0] && (a + z)[1..] == a[1..] + z;
      LastCounts(a);
      if q == 0 {
        r := a;
      } else if q < a[0].qty {
        r := [a[0].(qty := a[0].qty - q)] + a[1..];
        assert r + z == [a[0].(qty := a[0].qty - q)] + (a[1..] + z) && r[1..] == a[1..];
      } else {
        GetsPastTail(q, a);
        r := ConsumeFront(o, q - a[0].qty, a[1..], z, p);
      }
    }
  }

  /** A side is taken whole exactly by an order that reaches and gets past all of it. */
  lemma {:induction false} TakenWhole(o: NewOrder, q: nat, l: seq<Entry>)
    ensures Consume(o, q, l).rest == [] <==> AllReached(o, l) && GetsPast(q, l)
    decreases |l|
  {
    hide Reaches;
    if l != [] { LastCounts(l); }
    if l != [] && q > 0 && q >= l[0].qty && Reaches(o, l[0].price) {
      TakenWhole(o, q - l[0].qty, l[1..]);
      GetsPastTail(q, l);
      assert AllReached(o, l) <==> AllReached(o, l[1..]) by {
        assert forall i :: 0 < i < |l| ==> l[i] == l[1..][i - 1];
      }
    }
  }

  /** The orders at the best price. */
  function Level(l: seq<Entry>): (a: seq<Entry>)
    ensures |a| <= |l| && a == l[..|a|] && (l != [] ==> a != [])
    ensures forall i :: 0 <= i < |a| ==> a[i].price == l[0].price
    ensures |a| < |l| ==> l[|a|].price != l[0].price
  {
    if l == [] then []
    else if |l| == 1 || l[1].price != l[0].price then [l[0]]
    else
      var a := Level(l[1..]);
      [l[0]] + a
  }

  lemma Beyond(s: Side, l: seq<Entry>, z: seq<Entry>)
    requires Sorted(s, l) && l != [] && z == l[|Level(l)|..]
    ensures forall i :: 0 <= i < |z| ==> z[i].price != l[0].price
  {
    var k := |Level(l)|;
    forall i | k <= i < |l| ensures l[i].price != l[0].price {
      assert Key(s, l[0].price) <= Key(s, l[k].price) <= Key(s, l[i].price);
    }
  }

  predicate Takes(o: NewOrder, opp: seq<Entry>) {
    o.qty > 0 && opp != [] && Reaches(o, opp[0].price)
  }

  /** The best level of the other side is traded with and some of it stays. */
  predicate TakesPart(o: NewOrder, opp: seq<Entry>) {
    Takes(o, opp) && !GetsPast(o.qty, Level(opp))
  }

  predicate TakesLevel(o: NewOrder, opp: seq<Entry>) {
    Takes(o, opp) && GetsPast(o.qty, Level(opp))
  }

  /** A whole side with best price 0 is taken: a message shows the price 0 either way. */
  predicate TakesUnseen(o: NewOrder, opp: seq<Entry>) {
    TakesLevel(o, opp) && opp[0].price == 0 && AllReached(o, opp) && GetsPast(o.qty, opp)
  }

  lemma PartTaken(s: Side, o: NewOrder, opp: seq<Entry>)
    requires Sorted(s, opp) && TakesPart(o, opp)
    ensures var rest := Consume(o, o.qty, opp).rest;
      && BestPrice(rest) == BestPrice(opp) && rest != []
      && VolumeAt(rest, opp[0].price) == VolumeAt(opp, opp[0].price) - o.qty
  {
    hide Consume, GetsPast, Sorted;
    var a := Level(opp);
    var z := opp[|a|..];
    var p := opp[0].price;
    assert opp == a + z;
    var r := ConsumeFront(o, o.qty, a, z, opp[0].price);
    Beyond(s, opp, z);
    VolumeAtNone(z, p);
    VolumeAtAll(a, p);
    VolumeAtAll(r, p);
    VolumeAtConcat(a, z, p);
    VolumeAtConcat(r, z, p);
  }

  lemma LevelTaken(s: Side, o: NewOrder, opp: seq<Entry>)
    requires Sorted(s, opp) && TakesLevel(o, opp)
    ensures var rest := Consume(o, o.qty, opp).rest;
      && (BestPrice(rest) == BestPrice(opp) <==> TakesUnseen(o, opp))
      && (TakesUnseen(o, opp) ==> rest == [])
  {
    hide Consume, GetsPast, Sorted;
    var a := Level(opp);
    var z := opp[|a|..];
    assert opp == a + z;
    var r := ConsumeFront(o, o.qty, a, z, opp[0].price);
    Beyond(s, opp, z);
    TakenWhole(o, o.qty, opp);
    var rest := Consume(o, o.qty - Volume(a), z).rest;
    RestIsSuffix(o, o.qty - Volume(a), z);
    if rest != [] { assert rest[0].price == z[|z| - |rest|].price; }
  }

  lemma NothingTaken(o: NewOrder, opp: seq<Entry>)
    requires !Takes(o, opp)
    ensures Consume(o, o.qty, opp).rest == opp
  {}

  // ---------- what comes to rest ----------

  /** What is left of the order when it has traded with all it can. */
  function Residual(b: Book, o: NewOrder): nat {
    o.qty - Min(o.qty, EligibleVolume(o, b.On(o.side.Opposite())))
  }

  predicate Rests(b: Book, o: NewOrder) {
    Residual(b, o) > 0 && !o.isMarket
  }

  lemma ResidualIsLeft(b: Book, o: NewOrder)
    requires Wf(b)
    ensures Consume(o, o.qty, b.On(o.side.Opposite())).left == Residual(b, o)
  {
    hide Consume, EligibleVolume;
    var opp := b.On(o.side.Opposite());
    FillsAllItCan(o, o.qty, opp);
    ConsumeTotals(o, o.qty, opp);
  }

  /** The order becomes the best of its side, in a way a message can show. */
  predicate Leads(s: Side, own: seq<Entry>, p: Price) {
    if own == [] then p != 0 else Key(s, p) < Key(s, own[0].price)
  }

  /** It joins the best level, or an empty side at the price a message shows for an empty side. */
  predicate Joins(own: seq<Entry>, p: Price) {
    if own == [] then p == 0 else p == own[0].price
  }

  lemma InsertVolumeAt(s: Side, l: seq<Entry>, e: Entry, p: Price)
    ensures VolumeAt(Insert(s, l, e), p) == VolumeAt(l, p) + if e.price == p then e.qty else 0
  {
    hide Insert;
    var k := InsertShape(s, l, e);
    assert l == l[..k] + l[k..];
    VolumeAtConcat(l[..k], l[k..], p);
    VolumeAtConcat(l[..k] + [e], l[k..], p);
    VolumeAtConcat(l[..k], [e], p);
    assert [e][1..] == [];
  }

  lemma WrapMoves(x: nat, d: int)
    requires x + d >= 0
    ensures Wrap32(x + d) == Wrap32(x) <==> d % TWO32 == 0
  {}

  lemma InsertTop(s: Side, own: seq<Entry>, e: Entry)
    ensures BestPrice(Insert(s, own, e)) == BestPrice(own) <==> !Leads(s, own, e.price)
    ensures !Leads(s, own, e.price) ==>
      (TopVolume(Insert(s, own, e)) == TopVolume(own) <==> !Joins(own, e.price) || e.qty % TWO32 == 0)
  {
    hide Insert, VolumeAt, Wrap32;
    InsertHead(s, own, e);
    if own == [] {
      AloneAt(e);
      InsertVolumeAt(s, own, e, e.price);
      WrapMoves(0, e.qty);
      assert Wrap32(0) == 0 by { WrapZero(); }
    } else {
      InsertVolumeAt(s, own, e, own[0].price);
      WrapMoves(VolumeAt(own, own[0].price), e.qty);
    }
  }

  lemma WrapZero()
    ensures Wrap32(0) == 0
  {}

  lemma AloneAt(e: Entry)
    ensures VolumeAt([], e.price) == 0
  {}

  // ---------- the test ----------

  /** A submit leaves stale quantities when it moves no price a message shows, and takes a part of the
      other side's best level or joins the best level of its own; amounts that vanish modulo 2^32
      cannot be seen. */
  predicate StaleSubmit(b: Book, o: NewOrder) {
    var own, opp := b.On(o.side), b.On(o.side.Opposite());
    && (TakesLevel(o, opp) ==> TakesUnseen(o, opp))
    && !(Rests(b, o) && Leads(o.side, own, o.price))
    && (|| (TakesPart(o, opp) && o.qty % TWO32 != 0)
        || (TakesUnseen(o, opp) && VolumeAt(opp, 0) % TWO32 != 0)
        || (Rests(b, o) && Joins(own, o.price) && Residual(b, o) % TWO32 != 0))
  }

  /** A modify does when the best price of the side stays - the order comes to stand at it, or behind
      it while another order is there - and the volume there changes. */
  predicate StaleModify(b: Book, orig: OrderId, p: Price, q: nat) {
    Live(b, orig) &&
    var s := SideOf(b, orig);
    var l, was := b.On(s), Lookup(b.On(s), orig).value;
    var best := BestPrice(l);
    var gain := (if p == best then q else 0) - (if was.price == best then was.qty else 0);
    && (p == best || (Key(s, best) < Key(s, p) && exists i :: 0 <= i < |l| && l[i].price == best && l[i].id != orig))
    && gain % TWO32 != 0
  }

  predicate LeavesStale(b: Book, op: Op) {
    match op
    case Submit(o, _) => StaleSubmit(b, o)
    case Cancel(_) => false
    case Modify(orig, _, p, q) => StaleModify(b, orig, p, q)
  }

  // ---------- the test is exact ----------

  /** Nothing is published although a top volume changed. */
  predicate TopUnpublished(before: Book, after: Book) {
    !Moved(before, after) &&
    (TopVolume(before.bids) != TopVolume(after.bids) || TopVolume(before.asks) != TopVolume(after.asks))
  }

  lemma OppositeTop(s: Side, o: NewOrder, opp: seq<Entry>)
    requires Sorted(s, opp)
    ensures var rest := Consume(o, o.qty, opp).rest;
      && (BestPrice(rest) == BestPrice(opp) <==> (TakesLevel(o, opp) ==> TakesUnseen(o, opp)))
      && (BestPrice(rest) == BestPrice(opp) ==>
            (TopVolume(rest) != TopVolume(opp) <==>
              || (TakesPart(o, opp) && o.qty % TWO32 != 0)
              || (TakesUnseen(o, opp) && VolumeAt(opp, 0) % TWO32 != 0)))
  {
    hide Consume, GetsPast, VolumeAt, Wrap32, Sorted, AllReached;
    WrapZero();
    if TakesPart(o, opp) {
      PartTaken(s, o, opp);
      WrapMoves(VolumeAt(opp, opp[0].price), 0 - o.qty);
      NegativeWrap(o.qty);
    } else if TakesLevel(o, opp) {
      LevelTaken(s, o, opp);
      WrapMoves(0, VolumeAt(opp, 0));
    } else {
      NothingTaken(o, opp);
    }
  }

  lemma NegativeWrap(x: nat)
    ensures (0 - x) % TWO32 == 0 <==> x % TWO32 == 0
  {}

  lemma SubmitStale(b: Book, o: NewOrder)
    requires Wf(b)
    ensures TopUnpublished(b, SubmittedBook(b, o)) <==> StaleSubmit(b, o)
  {
    hide Consume, Insert, TopVolume, Leads, Joins, TakesPart, TakesLevel, TakesUnseen, Wf, Residual, BestPrice;
    var own, opp := b.On(o.side), b.On(o.side.Opposite());
    SidesSorted(b);
    OppositeTop(o.side.Opposite(), o, opp);
    ResidualIsLeft(b, o);
    InsertTop(o.side, own, Entry(o.id, o.price, Residual(b, o)));
  }

  lemma SidesSorted(b: Book)
    requires Wf(b)
    ensures forall s: Side :: Sorted(s, b.On(s)) && UniqueIds(b.On(s))
  {}

  /** The best price and the volume at it when one order of a side is replaced. */
  lemma ReplacedTop(s: Side, l: seq<Entry>, k: nat, e: Entry, l': seq<Entry>)
    requires Sorted(s, l) && UniqueIds(l) && k < |l|
    requires l' == Insert(s, l[..k] + l[k + 1..], e) || (l' == l[..k] + [e] + l[k + 1..] && e.price == l[k].price)
    ensures var best := l[0].price;
      var stays := e.price == best ||
        (Key(s, best) < Key(s, e.price) && exists i :: 0 <= i < |l| && l[i].price == best && l[i].id != l[k].id);
      && l' != [] && (BestPrice(l') == best <==> stays)
      && VolumeAt(l', best) == VolumeAt(l, best) + (if e.price == best then e.qty else 0)
                               - (if l[k].price == best then l[k].qty else 0)
  {
    hide Insert, UniqueIds;
    var rest := l[..k] + l[k + 1..];
    ReplacedVolume(s, l, k, e, l', l[0].price);
    OthersAtBest(s, l, k);
    if l' == Insert(s, rest, e) {
      InsertHead(s, rest, e);
    }
  }

  lemma ReplacedVolume(s: Side, l: seq<Entry>, k: nat, e: Entry, l': seq<Entry>, p: Price)
    requires k < |l|
    requires l' == Insert(s, l[..k] + l[k + 1..], e) || l' == l[..k] + [e] + l[k + 1..]
    ensures VolumeAt(l', p) == VolumeAt(l, p) + (if e.price == p then e.qty else 0)
                            - (if l[k].price == p then l[k].qty else 0)
  {
    hide Insert;
    var x, y := l[..k], l[k + 1..];
    InsertVolumeAt(s, x + y, e, p);
    assert l == x + [l[k]] + y;
    OneAt(e, p);
    OneAt(l[k], p);
    VolumeAtConcat(x + [l[k]], y, p);
    VolumeAtConcat(x, [l[k]], p);
    VolumeAtConcat(x + [e], y, p);
    VolumeAtConcat(x, [e], p);
    VolumeAtConcat(x, y, p);
  }

  lemma OneAt(e: Entry, p: Price)
    ensures VolumeAt([e], p) == if e.price == p then e.qty else 0
  {
    assert [e][1..] == [];
  }

  /** Without one order, the front of a side is at its best price exactly when another order is. */
  lemma OthersAtBest(s: Side, l: seq<Entry>, k: nat)
    requires Sorted(s, l) && UniqueIds(l) && k < |l|
    ensures var rest := l[..k] + l[k + 1..]; var best := l[0].price;
      && ((rest != [] && rest[0].price == best) <==> exists i :: 0 <= i < |l| && l[i].price == best && l[i].id != l[k].id)
      && (rest != [] ==> Key(s, best) <= Key(s, rest[0].price))
  {
    var rest := l[..k] + l[k + 1..];
    if rest != [] {
      var j := if k == 0 then 1 else 0;
      assert rest[0] == l[j] && l[j].id != l[k].id;
    }
    if i :| 0 <= i < |l| && l[i].price == l[0].price && l[i].id != l[k].id {
      var j := if k == 0 then 1 else 0;
      assert i != k && j <= i;
      assert Key(s, l[0].price) <= Key(s, l[j].price) <= Key(s, l[i].price);
    }
  }

  lemma ModifyStale(b: Book, orig: OrderId, new_: OrderId, p: Price, q: nat)
    requires Wf(b) && Live(b, orig)
    ensures TopUnpublished(b, ModifiedBook(b, orig, new_, p, q)) <==> StaleModify(b, orig, p, q)
  {
    hide Splice, Insert, Wf, Wrap32, VolumeAt, Sorted, UniqueIds, Lookup;
    var s := SideOf(b, orig);
    var l := b.On(s);
    var e := Entry(new_, p, q);
    var was := Lookup(l, orig).value;
    SidesSorted(b);
    var k := SpliceShape(l, orig, []);
    var k' := SpliceShape(l, orig, [e]);
    assert k == k' && was == l[k];
    var l' := ModifiedBook(b, orig, new_, p, q).On(s);
    assert l[..k] + [] + l[k + 1..] == l[..k] + l[k + 1..];
    ReplacedTop(s, l, k, e, l');
    var best := l[0].price;
    var gain := (if p == best then q else 0) - (if was.price == best then was.qty else 0);
    WrapMoves(VolumeAt(l, best), gain);
  }

  lemma SamePublished(feed: seq<Bbo>, b: Book, op: Op)
    requires LastPublished(feed) == TopOfBook(b)
    ensures var r := Step(b, op);
      LastPublished(feed + r.published) == TopOfBook(r.book) <==> r.published != [] || !TopUnpublished(b, r.book)
  {
    StepPublishesTop(b, op);
    var r := Step(b, op);
    if r.published == [] { assert feed + r.published == feed; }
  }

  /** The last message, current before an operation, is current after it if and only if the operation
      passes the test. */
  lemma QuantitiesAgreeIff(b: Book, feed: seq<Bbo>, op: Op)
    requires Wf(b) && LastPublished(feed) == TopOfBook(b)
    ensures var r := Step(b, op);
      LastPublished(feed + r.published) == TopOfBook(r.book) <==> !LeavesStale(b, op)
  {
    hide Wf, StaleSubmit, StaleModify, TopOfBook, ModifiedBook, SubmittedBook, TopUnpublished;
    SamePublished(feed, b, op);
    StepPublishesTop(b, op);
    match op
    case Submit(o, _) =>
      SubmitStale(b, o);
      UnpublishedIsStill(b, SubmittedBook(b, o));
    case Cancel(_) =>
      UnpublishedIsStill(b, b);
    case Modify(orig, new_, p, q) =>
      UnpublishedIsStill(b, b);
      if Live(b, orig) {
        ModifyStale(b, orig, new_, p, q);
        UnpublishedIsStill(b, ModifiedBook(b, orig, new_, p, q));
      } else {
        NotLiveNotStale(b, orig, p, q);
      }
  }

  lemma UnpublishedIsStill(before: Book, after: Book)
    ensures TopUnpublished(before, after) ==> !Moved(before, after)
    ensures before == after ==> !TopUnpublished(before, after)
  {}

  lemma NotLiveNotStale(b: Book, orig: OrderId, p: Price, q: nat)
    requires !Live(b, orig)
    ensures !StaleModify(b, orig, p, q)
  {}

  // ---------- runs ----------

  /** No operation of the run leaves stale quantities at its moment. */
  predicate NoneStale(b: Book, ops: seq<Op>)
    decreases |ops|
  {
    ops == [] || (!LeavesStale(b, ops[0]) && NoneStale(Step(b, ops[0]).book, ops[1..]))
  }

  /** Prices and quantities of the last message are current throughout a run if and only if every
      operation of it passes the test. */
  lemma {:induction false} CurrentThroughoutIff(b: Book, feed: seq<Bbo>, ops: seq<Op>)
    requires Wf(b) && AdmissibleRun(b, ops) && LastPublished(feed) == TopOfBook(b)
    ensures (forall n :: 0 <= n <= |ops| ==> CurrentAfter(b, feed, ops[..n])) <==> NoneStale(b, ops)
    decreases |ops|
  {
    hide Wf, Step, TopOfBook, LastPublished, LeavesStale, Admissible, CurrentAfter;
    assert ops[..0] == [];
    CurrentAtFirst(b, feed);
    if ops != [] {
      var r, rest := Step(b, ops[0]), ops[1..];
      QuantitiesAgreeIff(b, feed, ops[0]);
      StepKeepsWf(b, ops[0]);
      forall n | 0 < n <= |ops|
        ensures CurrentAfter(b, feed, ops[..n]) <==> CurrentAfter(r.book, feed + r.published, rest[..n - 1])
      {
        CurrentNext(b, feed, ops, n);
      }
      assert rest[..0] == [];
      CurrentAtFirst(r.book, feed + r.published);
      if LeavesStale(b, ops[0]) {
        assert !CurrentAfter(b, feed, ops[..1]);
      } else {
        CurrentThroughoutIff(r.book, feed + r.published, rest);
        assert forall m :: 0 <= m <= |rest| ==>
          (CurrentAfter(r.book, feed + r.published, rest[..m]) <==> CurrentAfter(b, feed, ops[..m + 1]));
      }
    }
  }

  /** The last message after a run is the top of the book. */
  predicate CurrentAfter(b: Book, feed: seq<Bbo>, ops: seq<Op>) {
    LastPublished(feed + Run(b, ops).published) == TopOfBook(Run(b, ops).book)
  }

  lemma CurrentAtFirst(b: Book, feed: seq<Bbo>)
    ensures CurrentAfter(b, feed, []) <==> LastPublished(feed) == TopOfBook(b)
  {
    assert feed + [] == feed;
  }

  lemma CurrentNext(b: Book, feed: seq<Bbo>, ops: seq<Op>, n: nat)
    requires 0 < n <= |ops|
    ensures var r := Step(b, ops[0]);
      CurrentAfter(b, feed, ops[..n]) <==> CurrentAfter(r.book, feed + r.published, ops[1..][..n - 1])
  {
    hide Step, Run, TopOfBook, LastPublished;
    var r := Step(b, ops[0]);
    PrefixOfRun(b, ops, n);
    assert ops[1..][..n - 1] == ops[1..n];
    Assoc(feed, r.published, Run(r.book, ops[1..n]).published);
  }
}
