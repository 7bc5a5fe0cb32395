/** The shape of each list operation of the book, and sums over lists. */
module MatchingLemmas {
  import opened Types
  import opened Matching

  // ---------- sums ----------

  lemma {:induction false} QtyOfConcat(a: seq<Entry>, b: seq<Entry>, id: OrderId)
    ensures QtyOf(a + b, id) == QtyOf(a, id) + QtyOf(b, id)
  {
    if a == [] {
      assert a + b == b;
    } else {
      assert (a + b)[1..] == a[1..] + b;
      QtyOfConcat(a[1..], b, id);
    }
  }

  lemma {:induction false} VolumeConcat(a: seq<Entry>, b: seq<Entry>)
    ensures Volume(a + b) == Volume(a) + Volume(b)
  {
    if a == [] {
      assert a + b == b;
    } else {
      assert (a + b)[1..] == a[1..] + b;
      VolumeConcat(a[1..], b);
    }
  }

  lemma {:induction false} VolumeAtConcat(a: seq<Entry>, b: seq<Entry>, p: Price)
    ensures VolumeAt(a + b, p) == VolumeAt(a, p) + VolumeAt(b, p)
  {
    if a == [] {
      assert a + b == b;
    } else {
      assert (a + b)[1..] == a[1..] + b;
      VolumeAtConcat(a[1..], b, p);
    }
  }

  lemma {:induction false} VolumeAtAll(l: seq<Entry>, p: Price)
    requires forall i :: 0 <= i < |l| ==> l[i].price == p
    ensures VolumeAt(l, p) == Volume(l)
  {
    if l != [] {
      VolumeAtAll(l[1..], p);
    }
  }

  lemma {:induction false} VolumeAtNone(l: seq<Entry>, p: Price)
    requires forall i :: 0 <= i < |l| ==> l[i].price != p
    ensures VolumeAt(l, p) == 0
  {
    if l != [] {
      VolumeAtNone(l[1..], p);
    }
  }

  /** With unique ids the quantity of an id is that of its one entry, and 0 when it is absent. */
  lemma {:induction false} QtyOfUnique(l: seq<Entry>, k: nat)
    requires UniqueIds(l) && k < |l|
    ensures QtyOf(l, l[k].id) == l[k].qty
  {
    if k == 0 {
      QtyOfAbsent(l[1..], l[0].id);
    } else {
      QtyOfUnique(l[1..], k - 1);
    }
  }

  lemma {:induction false} QtyOfAbsent(l: seq<Entry>, id: OrderId)
    requires forall i :: 0 <= i < |l| ==> l[i].id != id
    ensures QtyOf(l, id) == 0
  {
    if l != [] {
      QtyOfAbsent(l[1..], id);
    }
  }

  // ---------- shapes ----------

  lemma SpliceFront(l: seq<Entry>, id: OrderId, r: seq<Entry>)
    requires l != [] && l[0].id == id
    ensures Splice(l, id, r) == l[..0] + r + l[1..]
  {}

  lemma SpliceBehind(l: seq<Entry>, id: OrderId, r: seq<Entry>, k: nat)
    requires k + 1 < |l| && l[0].id != id
    requires Splice(l[1..], id, r) == l[1..][..k] + r + l[1..][k + 1..]
    ensures Splice(l, id, r) == l[..k + 1] + r + l[k + 2..]
  {
    assert l[..k + 1] == [l[0]] + l[1..][..k];
  }

  lemma {:induction false} SpliceShape(l: seq<Entry>, id: OrderId, r: seq<Entry>) returns (k: nat)
    requires HasId(l, id)
    ensures k < |l| && l[k].id == id
    ensures forall i :: 0 <= i < k ==> l[i].id != id
    ensures Splice(l, id, r) == l[..k] + r + l[k + 1..]
    ensures Lookup(l, id) == Some(l[k])
  {
    hide Splice;
    if l[0].id == id {
      k := 0;
      SpliceFront(l, id, r);
    } else {
      var i :| 0 <= i < |l| && l[i].id == id;
      assert l[1..][i - 1].id == id;
      var k' := SpliceShape(l[1..], id, r);
      k := k' + 1;
      SpliceBehind(l, id, r, k');
    }
  }

  lemma {:induction false} InsertShape(s: Side, l: seq<Entry>, e: Entry) returns (k: nat)
    ensures k <= |l|
    ensures Insert(s, l, e) == l[..k] + [e] + l[k..]
    ensures forall i :: 0 <= i < k ==> Key(s, l[i].price) <= Key(s, e.price)
    ensures k < |l| ==> Key(s, e.price) < Key(s, l[k].price)
  {
    if l == [] || Key(s, e.price) < Key(s, l[0].price) {
      k := 0;
    } else {
      var k' := InsertShape(s, l[1..], e);
      k := k' + 1;
      assert l[..k] == [l[0]] + l[1..][..k'];
    }
  }

  /** The last resting order touched was left with something. */
  predicate PartialFill(m: Match, opp: seq<Entry>) {
    && 0 < |m.fills| <= |opp|
    && var n := |m.fills|;
    && m.left == 0
    && m.fills[n - 1].qty < opp[n - 1].qty
    && m.fills[n - 1] == opp[n - 1].(qty := m.fills[n - 1].qty)
    && m.fills[..n - 1] == opp[..n - 1]
    && m.rest == [opp[n - 1].(qty := opp[n - 1].qty - m.fills[n - 1].qty)] + opp[n..]
  }

  predicate WholeFills(m: Match, opp: seq<Entry>) {
    && |m.fills| <= |opp|
    && m.fills == opp[..|m.fills|]
    && m.rest == opp[|m.fills|..]
  }

  /** Matching takes a prefix of the opposite side; only the last order of it may survive. */
  lemma {:induction false} ConsumeShape(o: NewOrder, q: nat, opp: seq<Entry>)
    ensures var m := Consume(o, q, opp); PartialFill(m, opp) || WholeFills(m, opp)
  {
    if !(q == 0 || opp == [] || !Reaches(o, opp[0].price) || q < opp[0].qty) {
      var m' := Consume(o, q - opp[0].qty, opp[1..]);
      ConsumeShape(o, q - opp[0].qty, opp[1..]);
      ShapeOfCons(m', opp);
    }
  }

  lemma ShapeOfCons(m: Match, opp: seq<Entry>)
    requires opp != []
    requires PartialFill(m, opp[1..]) || WholeFills(m, opp[1..])
    ensures var m' := m.(fills := [opp[0]] + m.fills); PartialFill(m', opp) || WholeFills(m', opp)
  {
    var m' := m.(fills := [opp[0]] + m.fills);
    var n := |m'.fills|;
    if WholeFills(m, opp[1..]) {
      assert opp[..n] == [opp[0]] + opp[1..][..n - 1];
      assert WholeFills(m', opp);
    } else {
      assert m'.fills[..n - 1] == [opp[0]] + m.fills[..n - 2];
      assert opp[..n - 1] == [opp[0]] + opp[1..][..n - 2];
      assert opp[1..][n - 1..] == opp[n..];
      assert PartialFill(m', opp);
    }
  }

  /** Every fill is within the taker's limit, nothing is created or lost, and matching only stops
      short when nothing eligible is left at the front. */
  lemma {:induction false} ConsumeTotals(o: NewOrder, q: nat, opp: seq<Entry>)
    ensures var m := Consume(o, q, opp);
      && (forall i :: 0 <= i < |m.fills| ==> Reaches(o, m.fills[i].price))
      && Volume(m.fills) + m.left == q
      && (m.left > 0 ==> m.rest == [] || !Reaches(o, m.rest[0].price))
  {
    if !(q == 0 || opp == [] || !Reaches(o, opp[0].price) || q < opp[0].qty) {
      ConsumeTotals(o, q - opp[0].qty, opp[1..]);
      assert Consume(o, q, opp).fills[1..] == Consume(o, q - opp[0].qty, opp[1..]).fills;
    }
  }

  lemma {:induction false} ConsumeQty(o: NewOrder, q: nat, opp: seq<Entry>, id: OrderId)
    ensures var m := Consume(o, q, opp);
      QtyOf(opp, id) == QtyOf(m.rest, id) + QtyOf(m.fills, id)
  {
    if !(q == 0 || opp == [] || !Reaches(o, opp[0].price) || q < opp[0].qty) {
      ConsumeQty(o, q - opp[0].qty, opp[1..], id);
      assert Consume(o, q, opp).fills[1..] == Consume(o, q - opp[0].qty, opp[1..]).fills;
    }
  }

  // ---------- the other orders ----------

  /** Every order but this one, in place. */
  function Without(l: seq<Entry>, id: OrderId): seq<Entry> {
    if l == [] then [] else (if l[0].id == id then [] else [l[0]]) + Without(l[1..], id)
  }

  lemma {:induction false} WithoutConcat(a: seq<Entry>, b: seq<Entry>, id: OrderId)
    ensures Without(a + b, id) == Without(a, id) + Without(b, id)
  {
    if a == [] {
      assert a + b == b;
    } else {
      assert (a + b)[1..] == a[1..] + b;
      WithoutConcat(a[1..], b, id);
    }
  }

  lemma {:induction false} WithoutAbsent(l: seq<Entry>, id: OrderId)
    requires forall i :: 0 <= i < |l| ==> l[i].id != id
    ensures Without(l, id) == l
  {
    if l != [] {
      WithoutAbsent(l[1..], id);
    }
  }

  lemma WithoutOne(e: Entry, id: OrderId)
    ensures Without([e], id) == if e.id == id then [] else [e]
  {
    assert [e][1..] == [];
  }

  /** A list around one order of this id. */
  lemma WithoutMiddle(a: seq<Entry>, e: Entry, z: seq<Entry>, id: OrderId)
    requires e.id == id && (forall i :: 0 <= i < |a| ==> a[i].id != id) && (forall i :: 0 <= i < |z| ==> z[i].id != id)
    ensures Without(a + [e] + z, id) == a + z
  {
    hide Without;
    WithoutConcat(a + [e], z, id);
    WithoutConcat(a, [e], id);
    WithoutOne(e, id);
    WithoutAbsent(a, id);
    WithoutAbsent(z, id);
    assert a + [] == a;
  }

  lemma InsertWithout(s: Side, l: seq<Entry>, e: Entry)
    requires !HasId(l, e.id)
    ensures e in Insert(s, l, e) && Without(Insert(s, l, e), e.id) == l
  {
    hide Insert, Without;
    var k := InsertShape(s, l, e);
    WithoutMiddle(l[..k], e, l[k..], e.id);
    assert (l[..k] + [e] + l[k..])[k] == e && l[..k] + l[k..] == l;
  }

  lemma DropWithout(l: seq<Entry>, id: OrderId)
    requires UniqueIds(l) && HasId(l, id)
    ensures Splice(l, id, []) == Without(l, id)
  {
    hide Splice, Without;
    var k := SpliceShape(l, id, []);
    WithoutMiddle(l[..k], l[k], l[k + 1..], id);
    assert l[..k] + [l[k]] + l[k + 1..] == l;
    assert l[..k] + [] + l[k + 1..] == l[..k] + l[k + 1..];
  }

  /** One order gives way to another under the same id or a free one. */
  lemma ReplaceWithout(l: seq<Entry>, id: OrderId, e: Entry)
    requires UniqueIds(l) && HasId(l, id) && (e.id == id || !HasId(l, e.id))
    ensures e in Splice(l, id, [e]) && Without(Splice(l, id, [e]), e.id) == Without(l, id)
  {
    hide Splice, Without;
    var k := SpliceShape(l, id, [e]);
    WithoutMiddle(l[..k], l[k], l[k + 1..], id);
    WithoutMiddle(l[..k], e, l[k + 1..], e.id);
    assert l[..k] + [l[k]] + l[k + 1..] == l;
    assert (l[..k] + [e] + l[k + 1..])[k] == e;
  }
}
