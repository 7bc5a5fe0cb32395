/** What every operation keeps: sorted sides with unique ids, and an uncrossed book exactly as
    long as no modify is moved through the opposite best price. */
module BookInvariants {
  import opened Types
  import opened Matching
  import opened MatchingLemmas

  /** What stays of the opposite side is a suffix of it, with at most its first quantity reduced. */
  lemma RestIsSuffix(o: NewOrder, q: nat, opp: seq<Entry>)
    ensures var rest := Consume(o, q, opp).rest;
      && |rest| <= |opp|
      && var d := |opp| - |rest|;
      && (forall i :: 0 <= i < |rest| ==>
            rest[i].id == opp[d + i].id && rest[i].price == opp[d + i].price && rest[i].qty <= opp[d + i].qty)
      && (forall i :: 0 < i < |rest| ==> rest[i] == opp[d + i])
  {
    hide Consume;
    ConsumeShape(o, q, opp);
  }

  predicate ListOk(s: Side, l: seq<Entry>) {
    Sorted(s, l) && UniqueIds(l)
  }

  /** `l` with the `n` entries from position `k` on replaced by `r`. */
  function Replace(l: seq<Entry>, k: nat, n: nat, r: seq<Entry>): seq<Entry>
    requires k + n <= |l|
  {
    l[..k] + r + l[k + n..]
  }

  lemma ReplaceSorted(s: Side, l: seq<Entry>, k: nat, n: nat, r: seq<Entry>)
    requires k + n <= |l| && Sorted(s, l) && |r| <= 1
    requires r != [] && k > 0 ==> Key(s, l[k - 1].price) <= Key(s, r[0].price)
    requires r != [] && k + n < |l| ==> Key(s, r[0].price) <= Key(s, l[k + n].price)
    ensures Sorted(s, Replace(l, k, n, r))
  {
    var l' := Replace(l, k, n, r);
    forall i, j | 0 <= i < j < |l'| ensures Key(s, l'[i].price) <= Key(s, l'[j].price) {
      var i' := if i < k + |r| then i else i - |r| + n;
      var j' := if j < k + |r| then j else j - |r| + n;
      if r != [] && i == k {
        assert l'[j] == l[j'];
      } else if r != [] && j == k {
        assert l'[i] == l[i'];
      } else {
        assert l'[i] == l[i'] && l'[j] == l[j'];
      }
    }
  }

  lemma ReplaceUnique(l: seq<Entry>, k: nat, n: nat, r: seq<Entry>)
    requires k + n <= |l| && UniqueIds(l) && |r| <= 1
    requires r != [] ==> forall i :: 0 <= i < |l| && !(k <= i < k + n) ==> l[i].id != r[0].id
    ensures UniqueIds(Replace(l, k, n, r))
  {
    var l' := Replace(l, k, n, r);
    forall i, j | 0 <= i < j < |l'| ensures l'[i].id != l'[j].id {
      var i' := if i < k + |r| then i else i - |r| + n;
      var j' := if j < k + |r| then j else j - |r| + n;
      if r != [] && i == k {
        assert l'[j] == l[j'];
      } else if r != [] && j == k {
        assert l'[i] == l[i'];
      } else {
        assert l'[i] == l[i'] && l'[j] == l[j'];
      }
    }
  }

  lemma HasIdConcat(a: seq<Entry>, b: seq<Entry>, id: OrderId)
    ensures HasId(a + b, id) <==> HasId(a, id) || HasId(b, id)
  {
    if HasId(a, id) {
      var i :| 0 <= i < |a| && a[i].id == id;
      assert (a + b)[i].id == id;
    }
    if HasId(b, id) {
      var i :| 0 <= i < |b| && b[i].id == id;
      assert (a + b)[|a| + i].id == id;
    }
  }

  lemma InsertHasId(s: Side, l: seq<Entry>, e: Entry, id: OrderId)
    ensures HasId(Insert(s, l, e), id) <==> id == e.id || HasId(l, id)
  {
    var k := InsertShape(s, l, e);
    assert l == l[..k] + l[k..];
    HasIdConcat(l[..k], l[k..], id);
    HasIdConcat(l[..k] + [e], l[k..], id);
    HasIdConcat(l[..k], [e], id);
    assert [e][0].id == e.id;
  }

  lemma SpliceHasId(l: seq<Entry>, id: OrderId, r: seq<Entry>, x: OrderId)
    requires UniqueIds(l) && HasId(l, id)
    ensures HasId(Splice(l, id, r), x) <==> HasId(r, x) || (x != id && HasId(l, x))
  {
    var k := SpliceShape(l, id, r);
    assert l == l[..k] + [l[k]] + l[k + 1..];
    HasIdConcat(l[..k] + [l[k]], l[k + 1..], x);
    HasIdConcat(l[..k], [l[k]], x);
    HasIdConcat(l[..k] + r, l[k + 1..], x);
    HasIdConcat(l[..k], r, x);
    assert [l[k]][0].id == id;
  }

  lemma InsertOk(s: Side, l: seq<Entry>, e: Entry)
    requires ListOk(s, l) && !HasId(l, e.id)
    ensures ListOk(s, Insert(s, l, e))
  {
    var k := InsertShape(s, l, e);
    assert Insert(s, l, e) == Replace(l, k, 0, [e]);
    ReplaceSorted(s, l, k, 0, [e]);
    ReplaceUnique(l, k, 0, [e]);
  }

  /** Taking an entry out, or putting one back in its place under a fresh (or the same) id. */
  lemma SpliceOk(s: Side, l: seq<Entry>, id: OrderId, r: seq<Entry>)
    requires ListOk(s, l) && HasId(l, id)
    requires |r| <= 1
    requires r != [] ==> r[0].price == Lookup(l, id).value.price && (r[0].id == id || !HasId(l, r[0].id))
    ensures ListOk(s, Splice(l, id, r))
  {
    var k := SpliceShape(l, id, r);
    assert Splice(l, id, r) == Replace(l, k, 1, r);
    ReplaceSorted(s, l, k, 1, r);
    ReplaceUnique(l, k, 1, r);
  }

  /** No id is on both sides. */
  ghost predicate SidesDisjoint(b: Book) {
    forall id :: HasId(b.bids, id) ==> !HasId(b.asks, id)
  }

  lemma WfByLists(b: Book)
    ensures Wf(b) <==> ListOk(BUY, b.bids) && ListOk(SELL, b.asks) && SidesDisjoint(b)
  {
    if ListOk(BUY, b.bids) && ListOk(SELL, b.asks) && SidesDisjoint(b) {
      assert forall i :: 0 <= i < |b.bids| ==> HasId(b.bids, b.bids[i].id);
      assert forall j :: 0 <= j < |b.asks| ==> HasId(b.asks, b.asks[j].id);
    }
  }

  lemma ConsumeOk(s: Side, o: NewOrder, q: nat, opp: seq<Entry>)
    requires ListOk(s, opp)
    ensures ListOk(s, Consume(o, q, opp).rest)
    ensures forall id :: HasId(Consume(o, q, opp).rest, id) ==> HasId(opp, id)
  {
    RestIsSuffix(o, q, opp);
  }

  lemma SubmitKeepsWf(b: Book, o: NewOrder)
    requires Wf(b) && !Live(b, o.id)
    ensures Wf(SubmittedBook(b, o))
  {
    var opp := o.side.Opposite();
    var m := Consume(o, o.qty, b.On(opp));
    var e := Entry(o.id, o.price, m.left);
    WfByLists(b);
    WfByLists(SubmittedBook(b, o));
    ConsumeOk(opp, o, o.qty, b.On(opp));
    InsertOk(o.side, b.On(o.side), e);
    forall id ensures HasId(Insert(o.side, b.On(o.side), e), id) <==> id == e.id || HasId(b.On(o.side), id) {
      InsertHasId(o.side, b.On(o.side), e, id);
    }
  }

  lemma CancelKeepsWf(b: Book, id: OrderId)
    requires Wf(b) && Live(b, id)
    ensures Wf(CancelledBook(b, id))
  {
    var s := SideOf(b, id);
    WfByLists(b);
    WfByLists(CancelledBook(b, id));
    SpliceOk(s, b.On(s), id, []);
    forall x ensures HasId(Splice(b.On(s), id, []), x) ==> HasId(b.On(s), x) {
      SpliceHasId(b.On(s), id, [], x);
    }
  }

  /** What a modify leaves on the side of the order it moved. */
  lemma ModifiedSide(b: Book, orig: OrderId, new_: OrderId, p: Price, q: nat)
    requires Wf(b) && Live(b, orig) && (new_ == orig || !Live(b, new_))
    ensures var s := SideOf(b, orig); var b' := ModifiedBook(b, orig, new_, p, q);
      && ListOk(s, b'.On(s)) && b'.On(s.Opposite()) == b.On(s.Opposite())
      && forall x :: HasId(b'.On(s), x) <==> x == new_ || (x != orig && HasId(b.On(s), x))
  {
    var s := SideOf(b, orig);
    var l := b.On(s);
    var e := Entry(new_, p, q);
    var b' := ModifiedBook(b, orig, new_, p, q);
    if p == Lookup(l, orig).value.price && q < Lookup(l, orig).value.qty {
      SpliceOk(s, l, orig, [e]);
      assert [e][0].id == new_;
      forall x ensures HasId(b'.On(s), x) <==> x == new_ || (x != orig && HasId(l, x)) {
        SpliceHasId(l, orig, [e], x);
      }
    } else {
      var l' := Splice(l, orig, []);
      SpliceOk(s, l, orig, []);
      SpliceHasId(l, orig, [], new_);
      InsertOk(s, l', e);
      forall x ensures HasId(b'.On(s), x) <==> x == new_ || (x != orig && HasId(l, x)) {
        SpliceHasId(l, orig, [], x);
        InsertHasId(s, l', e, x);
      }
    }
  }

  /** Every admissible operation keeps both sides sorted by price and every id unique. */
  lemma StepKeepsWf(b: Book, op: Op)
    requires Wf(b) && Admissible(b, op)
    ensures Wf(Step(b, op).book)
  {
    match op
    case Submit(o, _) => SubmitKeepsWf(b, o);
    case Cancel(id) => if Live(b, id) { CancelKeepsWf(b, id); }
    case Modify(orig, new_, p, q) =>
      if Live(b, orig) {
        WfByLists(b);
        ModifiedSide(b, orig, new_, p, q);
        WfByLists(ModifiedBook(b, orig, new_, p, q));
      }
  }

  lemma {:induction false} RunKeepsWf(b: Book, ops: seq<Op>)
    requires Wf(b) && AdmissibleRun(b, ops)
    ensures Wf(Run(b, ops).book)
    decreases |ops|
  {
    if ops != [] {
      StepKeepsWf(b, ops[0]);
      RunKeepsWf(Step(b, ops[0]).book, ops[1..]);
    }
  }

  lemma {:induction false} RunConcat(b: Book, xs: seq<Op>, ys: seq<Op>)
    ensures var r := Run(b, xs); var q := Run(r.book, ys);
      Run(b, xs + ys) == Outcome(q.book, r.trades + q.trades, r.published + q.published)
    ensures AdmissibleRun(b, xs + ys) <==> AdmissibleRun(b, xs) && AdmissibleRun(Run(b, xs).book, ys)
    decreases |xs|
  {
    hide Step, Admissible;
    if xs == [] {
      assert xs + ys == ys;
    } else {
      assert (xs + ys)[1..] == xs[1..] + ys;
      RunConcat(Step(b, xs[0]).book, xs[1..], ys);
    }
  }

  lemma RunOne(b: Book, op: Op)
    ensures Run(b, [op]) == Step(b, op)
    ensures AdmissibleRun(b, [op]) <==> Admissible(b, op)
  {
    hide Step, Admissible;
    assert [op][1..] == [];
  }

  lemma RunNone(b: Book)
    ensures Run(b, []) == Outcome(b, [], [])
  {}

  /** A part of a run from its start, taken from its second operation on. */
  lemma PrefixOfRun(b: Book, ops: seq<Op>, n: nat)
    requires 0 < n <= |ops|
    ensures var first := Step(b, ops[0]); var rest := Run(first.book, ops[1..n]);
      Run(b, ops[..n]) == Outcome(rest.book, first.trades + rest.trades, first.published + rest.published)
  {
    hide Step;
    assert ops[..n][0] == ops[0] && ops[..n][1..] == ops[1..n];
  }

  // ---------- uncrossed ----------

  /** Best bid below best ask whenever both exist. */
  predicate Uncrossed(b: Book) {
    b.bids == [] || b.asks == [] || b.bids[0].price < b.asks[0].price
  }

  /** A price at which an order of side `s` would trade against the opposite best. */
  predicate ThroughOpposite(b: Book, s: Side, p: Price) {
    var opp := b.On(s.Opposite());
    opp != [] && if s == BUY then opp[0].price <= p else p <= opp[0].price
  }

  /** The operation moves a live order to a price the opposite best already meets. */
  predicate ModifyThrough(b: Book, op: Op) {
    op.Modify? && Live(b, op.origId) && ThroughOpposite(b, SideOf(b, op.origId), op.newPrice)
  }

  lemma InsertHead(s: Side, l: seq<Entry>, e: Entry)
    ensures Insert(s, l, e) != []
    ensures Insert(s, l, e)[0] == if l == [] || Key(s, e.price) < Key(s, l[0].price) then e else l[0]
  {}

  lemma SpliceHead(s: Side, l: seq<Entry>, id: OrderId, r: seq<Entry>)
    requires Sorted(s, l) && HasId(l, id)
    requires r == [] || (|r| == 1 && r[0].price == Lookup(l, id).value.price)
    ensures Splice(l, id, r) != [] ==> Key(s, l[0].price) <= Key(s, Splice(l, id, r)[0].price)
    ensures r != [] ==> Splice(l, id, r) != [] && Splice(l, id, r)[0].price == l[0].price
  {
    var k := SpliceShape(l, id, r);
  }

  /** An operation on an uncrossed book leaves it uncrossed if and only if it is not a modify of a
      live order to a price that reaches the opposite best: `modifyOrder` re-adds without matching. */
  lemma StepUncrossedIff(b: Book, op: Op)
    requires Wf(b) && Uncrossed(b) && Admissible(b, op)
    ensures Uncrossed(Step(b, op).book) <==> !ModifyThrough(b, op)
  {
    match op
    case Submit(o, _) =>
      var opp := b.On(o.side.Opposite());
      ConsumeTotals(o, o.qty, opp);
      RestIsSuffix(o, o.qty, opp);
      InsertHead(o.side, b.On(o.side), Entry(o.id, o.price, Consume(o, o.qty, opp).left));
    case Cancel(id) =>
      if Live(b, id) { SpliceHead(SideOf(b, id), b.On(SideOf(b, id)), id, []); }
    case Modify(orig, new_, p, q) =>
      if Live(b, orig) { ModifyUncrossed(b, orig, new_, p, q); }
  }

  lemma ModifyUncrossed(b: Book, orig: OrderId, new_: OrderId, p: Price, q: nat)
    requires Wf(b) && Uncrossed(b) && Live(b, orig)
    ensures Uncrossed(ModifiedBook(b, orig, new_, p, q)) <==> !ThroughOpposite(b, SideOf(b, orig), p)
  {
    hide Wf, UniqueIds, Splice, Insert;
    var s := SideOf(b, orig);
    ModifiedHead(b, orig, new_, p, q);
    var head := ModifiedBook(b, orig, new_, p, q).On(s)[0].price;
    assert head == p || Key(s, b.On(s)[0].price) <= Key(s, head);
  }

  /** The best order after a modify is the modified one, or one no better than the best before. */
  lemma ModifiedHead(b: Book, orig: OrderId, new_: OrderId, p: Price, q: nat)
    requires Wf(b) && Live(b, orig)
    ensures var s := SideOf(b, orig); var l, l' := b.On(s), ModifiedBook(b, orig, new_, p, q).On(s);
      && l != [] && l' != []
      && (l'[0].price == p || (Key(s, l[0].price) <= Key(s, l'[0].price) && Key(s, l'[0].price) <= Key(s, p)))
  {
    hide UniqueIds, Splice, Insert;
    var s := SideOf(b, orig);
    var l := b.On(s);
    var e := Entry(new_, p, q);
    var resting := Lookup(l, orig).value;
    var k := SpliceShape(l, orig, []);
    assert Key(s, l[0].price) <= Key(s, resting.price);
    SpliceHead(s, l, orig, []);
    InsertHead(s, Splice(l, orig, []), e);
    if p == resting.price { SpliceHead(s, l, orig, [e]); }
  }

  /** No modify in the run is moved through the opposite best of its moment. */
  predicate NoModifyThrough(b: Book, ops: seq<Op>)
    decreases |ops|
  {
    ops == [] || (!ModifyThrough(b, ops[0]) && NoModifyThrough(Step(b, ops[0]).book, ops[1..]))
  }

  /** Any run of submits and cancels, and modifies that stay on their side, is never crossed. */
  lemma {:induction false} RunStaysUncrossed(b: Book, ops: seq<Op>)
    requires Wf(b) && Uncrossed(b) && AdmissibleRun(b, ops) && NoModifyThrough(b, ops)
    ensures Uncrossed(Run(b, ops).book)
    decreases |ops|
  {
    if ops != [] {
      StepKeepsWf(b, ops[0]);
      StepUncrossedIff(b, ops[0]);
      RunStaysUncrossed(Step(b, ops[0]).book, ops[1..]);
    }
  }

  /** The book is uncrossed throughout a run if and only if no modify of it is moved through the
      opposite best of its moment. */
  lemma {:induction false} UncrossedThroughoutIff(b: Book, ops: seq<Op>)
    requires Wf(b) && Uncrossed(b) && AdmissibleRun(b, ops)
    ensures (forall n :: 0 <= n <= |ops| ==> Uncrossed(Run(b, ops[..n]).book)) <==> NoModifyThrough(b, ops)
    decreases |ops|
  {
    hide Wf, Step, Uncrossed, ModifyThrough, Admissible;
    assert ops[..0] == [];
    if ops != [] {
      var b', rest := Step(b, ops[0]).book, ops[1..];
      StepKeepsWf(b, ops[0]);
      StepUncrossedIff(b, ops[0]);
      forall n | 0 < n <= |ops| ensures Run(b, ops[..n]).book == Run(b', rest[..n - 1]).book {
        PrefixOfRun(b, ops, n);
        assert rest[..n - 1] == ops[1..n];
      }
      assert rest[..0] == [];
      if Uncrossed(b') {
        UncrossedThroughoutIff(b', rest);
        assert forall m :: 0 <= m <= |rest| ==> Run(b', rest[..m]).book == Run(b, ops[..m + 1]).book;
      } else {
        assert !Uncrossed(Run(b, ops[..1]).book);
      }
    }
  }

  /** The crossing modify exists: a bid at 10 moved up to an ask at 12 rests there untraded. */
  lemma ModifyCanCross() returns (ops: seq<Op>)
    ensures AdmissibleRun(EMPTY_BOOK, ops)
    ensures !Uncrossed(Run(EMPTY_BOOK, ops).book) && Run(EMPTY_BOOK, ops).trades == []
  {
    hide Run, AdmissibleRun, Step, Admissible;
    var s0, s1 := Submit(NewOrder(1, 10, 5, BUY, false), 0), Submit(NewOrder(2, 12, 5, SELL, false), 0);
    var m := Modify(1, 1, 12, 5);
    ops := [s0] + ([s1] + [m]);
    var b1 := Book([Entry(1, 10, 5)], []);
    var b2 := Book([Entry(1, 10, 5)], [Entry(2, 12, 5)]);
    TwoOrders();
    MovedUp();
    RunOne(EMPTY_BOOK, s0);
    RunOne(b1, s1);
    RunOne(b2, m);
    RunConcat(b1, [s1], [m]);
    RunConcat(EMPTY_BOOK, [s0], [s1] + [m]);
  }

  lemma TwoOrders()
    ensures var s0, b1 := Submit(NewOrder(1, 10, 5, BUY, false), 0), Book([Entry(1, 10, 5)], []);
      Admissible(EMPTY_BOOK, s0) && Step(EMPTY_BOOK, s0).book == b1 && Step(EMPTY_BOOK, s0).trades == []
    ensures var s1, b1 := Submit(NewOrder(2, 12, 5, SELL, false), 0), Book([Entry(1, 10, 5)], []);
      && Admissible(b1, s1) && Step(b1, s1).trades == []
      && Step(b1, s1).book == Book([Entry(1, 10, 5)], [Entry(2, 12, 5)])
  {}

  lemma MovedUp()
    ensures var b2, m := Book([Entry(1, 10, 5)], [Entry(2, 12, 5)]), Modify(1, 1, 12, 5);
      && Admissible(b2, m) && Step(b2, m).trades == []
      && Step(b2, m).book == Book([Entry(1, 12, 5)], [Entry(2, 12, 5)])
  {
    var b2 := Book([Entry(1, 10, 5)], [Entry(2, 12, 5)]);
    assert b2.bids[0].id == 1;
    assert HasId(b2.bids, 1) && b2.bids[1..] == [];
  }
}
