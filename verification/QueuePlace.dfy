/** Where an order comes to stand: behind every order at least as good when it is submitted or moved,
    and where it was when it is only reduced. */
module QueuePlace {
  import opened Types
  import opened Matching
  import opened MatchingLemmas
  import opened BookInvariants
  import opened Priority

  /** `e`, put in at position `k`, is behind what was before `k` and ahead of the rest. */
  lemma PutIn(l: seq<Entry>, k: nat, e: Entry, f: Entry)
    requires k <= |l| && !HasId(l, e.id)
    ensures Ahead(l[..k] + [e] + l[k..], f, e) <==> f in l[..k]
    ensures Ahead(l[..k] + [e] + l[k..], e, f) <==> f in l[k..]
  {
    var l' := l[..k] + [e] + l[k..];
    assert forall i :: 0 <= i < k ==> l'[i] == l[..k][i] && l[i].id != e.id;
    assert forall i :: k < i < |l'| ==> l'[i] == l[k..][i - k - 1] && l[i - 1].id != e.id;
    assert l'[k] == e;
    if f in l[..k] {
      var i :| 0 <= i < k && l[..k][i] == f;
      assert l'[i] == f;
    }
    if f in l[k..] {
      var i :| 0 <= i < |l[k..]| && l[k..][i] == f;
      assert l'[k + 1 + i] == f;
    }
  }

  lemma InsertPlace(s: Side, l: seq<Entry>, e: Entry, f: Entry)
    requires Sorted(s, l) && f in l && !HasId(l, e.id)
    ensures Ahead(Insert(s, l, e), f, e) <==> Key(s, f.price) <= Key(s, e.price)
    ensures Ahead(Insert(s, l, e), e, f) <==> Key(s, e.price) < Key(s, f.price)
  {
    hide Insert, Ahead, HasId, Key;
    var k := InsertShape(s, l, e);
    PutIn(l, k, e, f);
    assert l == l[..k] + l[k..];
    assert forall i :: k <= i < |l| ==> Key(s, l[k].price) <= Key(s, l[i].price);
    assert forall x :: x in l[..k] ==> Key(s, x.price) <= Key(s, e.price);
    assert forall x :: x in l[k..] ==> Key(s, e.price) < Key(s, x.price);
  }

  /** The k-th entry gives way to another under a free id: nobody else moves. */
  lemma ReplacePlace(l: seq<Entry>, k: nat, e: Entry, f: Entry)
    requires UniqueIds(l) && k < |l| && f in l && f.id != l[k].id && (e.id == l[k].id || !HasId(l, e.id))
    ensures Ahead(l[..k] + [e] + l[k + 1..], f, e) <==> Ahead(l, f, l[k])
  {
    var l' := l[..k] + [e] + l[k + 1..];
    assert forall i :: 0 <= i < |l| && i != k ==> l'[i] == l[i] && l[i].id != e.id;
    assert l'[k] == e;
    var i :| 0 <= i < |l| && l[i] == f;
    assert forall j :: 0 <= j < |l| && l[j] == l[k] ==> j == k;
    assert forall j :: 0 <= j < |l'| && l'[j] == e ==> j == k;
    if i < k {
      assert l'[i] == f && Ahead(l', f, e) && Ahead(l, f, l[k]);
    }
  }

  /** A new order that rests stands behind exactly the orders of its side at least as good. */
  lemma SubmitPlace(b: Book, o: NewOrder, f: Entry)
    requires Wf(b) && !Live(b, o.id) && f in b.On(o.side)
    requires !o.isMarket && Consume(o, o.qty, b.On(o.side.Opposite())).left > 0
    ensures var e := Entry(o.id, o.price, Consume(o, o.qty, b.On(o.side.Opposite())).left);
      var l := SubmittedBook(b, o).On(o.side);
      && (Ahead(l, f, e) <==> Key(o.side, f.price) <= Key(o.side, o.price))
      && (Ahead(l, e, f) <==> Key(o.side, o.price) < Key(o.side, f.price))
  {
    hide Ahead, Insert, Consume;
    InsertPlace(o.side, b.On(o.side), Entry(o.id, o.price, Consume(o, o.qty, b.On(o.side.Opposite())).left), f);
  }

  lemma OthersStay(l: seq<Entry>, id: OrderId, f: Entry)
    requires HasId(l, id) && f in l && f.id != id
    ensures f in Splice(l, id, [])
  {
    hide Splice;
    var k := SpliceShape(l, id, []);
    var i :| 0 <= i < |l| && l[i] == f;
    assert Splice(l, id, [])[if i < k then i else i - 1] == f;
  }

  /** A modify to the same price and a smaller quantity keeps the order's place among all others; any
      other modify puts it behind exactly the orders at least as good as its new price. */
  lemma ModifyPlace(b: Book, orig: OrderId, new_: OrderId, p: Price, q: nat, f: Entry)
    requires Wf(b) && Live(b, orig) && (new_ == orig || !Live(b, new_))
    requires f in b.On(SideOf(b, orig)) && f.id != orig
    ensures var s := SideOf(b, orig); var was := Lookup(b.On(s), orig).value;
      var l, e := ModifiedBook(b, orig, new_, p, q).On(s), Entry(new_, p, q);
      if p == was.price && q < was.qty then Ahead(l, f, e) <==> Ahead(b.On(s), f, was)
      else Ahead(l, f, e) <==> Key(s, f.price) <= Key(s, p)
  {
    hide Ahead, Insert, Splice;
    var s := SideOf(b, orig);
    var l := b.On(s);
    var e := Entry(new_, p, q);
    assert HasId(l, new_) ==> Live(b, new_);
    if p == Lookup(l, orig).value.price && q < Lookup(l, orig).value.qty {
      var k := SpliceShape(l, orig, [e]);
      ReplacePlace(l, k, e, f);
    } else {
      WfByLists(b);
      SpliceOk(s, l, orig, []);
      SpliceHasId(l, orig, [], new_);
      OthersStay(l, orig, f);
      InsertPlace(s, Splice(l, orig, []), e, f);
    }
  }

  // ---------- under which terms ----------

  /** What is left of a limit order rests under its own id, at its own price, and nobody else of its side
      moves. */
  lemma SubmitRests(b: Book, o: NewOrder)
    requires Wf(b) && !Live(b, o.id)
    ensures var left := Consume(o, o.qty, b.On(o.side.Opposite())).left; var l := SubmittedBook(b, o).On(o.side);
      if o.isMarket || left == 0 then l == b.On(o.side)
      else Entry(o.id, o.price, left) in l && Without(l, o.id) == b.On(o.side)
  {
    hide Consume, Insert;
    InsertWithout(o.side, b.On(o.side), Entry(o.id, o.price, Consume(o, o.qty, b.On(o.side.Opposite())).left));
  }

  /** After a cancel each side is as it was, without that order. */
  lemma CancelDrops(b: Book, id: OrderId)
    requires Wf(b)
    ensures forall s: Side :: Cancelled(b, id).book.On(s) == Without(b.On(s), id)
  {
    WfByLists(b);
    forall s: Side ensures Cancelled(b, id).book.On(s) == Without(b.On(s), id) {
      var l := b.On(s);
      if HasId(l, id) {
        DropWithout(l, id);
      } else {
        WithoutAbsent(l, id);
      }
    }
  }

  /** After a modify the order stands under the new terms on its side, and nobody else moves. */
  lemma ModifyReplaces(b: Book, orig: OrderId, new_: OrderId, p: Price, q: nat)
    requires Wf(b) && (new_ == orig || !Live(b, new_))
    ensures var b' := Modified(b, orig, new_, p, q).book; var e := Entry(new_, p, q);
      forall s: Side :: if HasId(b.On(s), orig) then e in b'.On(s) && Without(b'.On(s), new_) == Without(b.On(s), orig)
                        else b'.On(s) == b.On(s)
  {
    hide Splice, Insert, HasId;
    WfByLists(b);
    if Live(b, orig) {
      var s := SideOf(b, orig);
      var l, e := b.On(s), Entry(new_, p, q);
      NotOnBoth(b, orig);
      ReplaceWithout(l, orig, e);
      DropWithout(l, orig);
      SpliceOk(s, l, orig, []);
      SpliceHasId(l, orig, [], new_);
      NobodyInNothing(new_);
      InsertWithout(s, Splice(l, orig, []), e);
    }
  }

  lemma NobodyInNothing(id: OrderId)
    ensures !HasId([], id)
  {}

  lemma NotOnBoth(b: Book, id: OrderId)
    requires Wf(b) && Live(b, id)
    ensures HasId(b.On(SideOf(b, id)), id) && !HasId(b.On(SideOf(b, id).Opposite()), id)
  {}
}
