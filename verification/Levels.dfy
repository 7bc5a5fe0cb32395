/** From price-indexed levels to one queue: how the sorted maps of OrderBook spell out the
    price-time sequence of one side. */
module Levels {
  import opened Types
  import opened Matching
  import opened MatchingLemmas

  /** One side as a map from price to the queue at that price. */
  type View = map<Price, seq<Entry>>

  lemma {:induction false} BestExists(s: Side, prices: set<Price>)
    requires prices != {}
    ensures exists p :: p in prices && forall q :: q in prices ==> Key(s, p) <= Key(s, q)
  {
    assert (forall p :: p !in prices) ==> prices == {};
    var p :| p in prices;
    if prices != {p} {
      var others := prices - {p};
      BestExists(s, others);
      var p' :| p' in others && forall q :: q in others ==> Key(s, p') <= Key(s, q);
      var best := if Key(s, p) <= Key(s, p') then p else p';
      forall q | q in prices ensures Key(s, best) <= Key(s, q) {
        assert q == p || q in others;
      }
    }
  }

  /** The key of `begin()` in a map sorted for side `s`. */
  function Best(s: Side, prices: set<Price>): (p: Price)
    requires prices != {}
    ensures p in prices
    ensures forall q :: q in prices ==> Key(s, p) <= Key(s, q)
  {
    BestExists(s, prices);
    var p :| p in prices && forall q :: q in prices ==> Key(s, p) <= Key(s, q);
    p
  }

  /** The levels one after the other, best price first. */
  function Flat(s: Side, v: View): seq<Entry>
    decreases |v.Keys|
  {
    if v.Keys == {} then []
    else
      var p := Best(s, v.Keys);
      assert (v - {p}).Keys == v.Keys - {p};
      v[p] + Flat(s, v - {p})
  }

  ghost predicate WellPriced(v: View) {
    forall p, i :: p in v && 0 <= i < |v[p]| ==> v[p][i].price == p
  }

  ghost predicate NonEmpty(v: View) {
    forall p :: p in v ==> v[p] != []
  }

  /** What `Flat` is for one best level. */
  lemma FlatBest(s: Side, v: View, p: Price)
    requires p in v && forall q :: q in v ==> Key(s, p) <= Key(s, q)
    ensures Flat(s, v) == v[p] + Flat(s, v - {p})
  {
    assert Key(s, Best(s, v.Keys)) == Key(s, p);
  }

  /** Only the best level changes. */
  lemma FlatSetBest(s: Side, v: View, p: Price, q: seq<Entry>)
    requires p in v && forall q :: q in v ==> Key(s, p) <= Key(s, q)
    ensures Flat(s, v[p := q]) == q + Flat(s, v - {p})
  {
    FlatBest(s, v[p := q], p);
    assert v[p := q] - {p} == v - {p};
  }

  /** Order and membership: an entry of the queue is an entry of the level of its price. */
  lemma {:induction false} FlatMembers(s: Side, v: View, e: Entry)
    requires WellPriced(v)
    ensures e in Flat(s, v) <==> e.price in v && e in v[e.price]
    decreases |v.Keys|
  {
    if v.Keys != {} {
      var p := Best(s, v.Keys);
      assert (v - {p}).Keys == v.Keys - {p};
      FlatMembers(s, v - {p}, e);
    }
  }

  lemma {:induction false} FlatSorted(s: Side, v: View)
    requires WellPriced(v)
    ensures Sorted(s, Flat(s, v))
    decreases |v.Keys|
  {
    if v.Keys != {} {
      var p := Best(s, v.Keys);
      var rest := Flat(s, v - {p});
      assert (v - {p}).Keys == v.Keys - {p};
      FlatSorted(s, v - {p});
      forall i | 0 <= i < |rest| ensures Key(s, p) <= Key(s, rest[i].price) {
        FlatMembers(s, v - {p}, rest[i]);
      }
    }
  }

  /** Within a level and across levels no id repeats. */
  ghost predicate ViewUnique(v: View) {
    && (forall p :: p in v ==> UniqueIds(v[p]))
    && (forall p, q, id :: p in v && q in v && p != q && HasId(v[p], id) ==> !HasId(v[q], id))
  }

  lemma FlatHasId(s: Side, v: View, id: OrderId)
    requires WellPriced(v)
    ensures HasId(Flat(s, v), id) <==> exists p :: p in v && HasId(v[p], id)
  {
    if HasId(Flat(s, v), id) {
      var i :| 0 <= i < |Flat(s, v)| && Flat(s, v)[i].id == id;
      var e := Flat(s, v)[i];
      FlatMembers(s, v, e);
      var k :| 0 <= k < |v[e.price]| && v[e.price][k] == e;
      assert HasId(v[e.price], id);
    }
    if p :| p in v && HasId(v[p], id) {
      var k :| 0 <= k < |v[p]| && v[p][k].id == id;
      FlatMembers(s, v, v[p][k]);
      var i :| 0 <= i < |Flat(s, v)| && Flat(s, v)[i] == v[p][k];
    }
  }

  lemma {:induction false} FlatUnique(s: Side, v: View)
    requires WellPriced(v) && ViewUnique(v)
    ensures UniqueIds(Flat(s, v))
    decreases |v.Keys|
  {
    if v.Keys != {} {
      var p := Best(s, v.Keys);
      var rest := Flat(s, v - {p});
      assert (v - {p}).Keys == v.Keys - {p};
      FlatUnique(s, v - {p});
      forall i, j | 0 <= i < |v[p]| && 0 <= j < |rest| ensures v[p][i].id != rest[j].id {
        assert HasId(v[p], v[p][i].id);
        assert HasId(rest, rest[j].id);
        FlatHasId(s, v - {p}, rest[j].id);
      }
    }
  }

  // ---------- the three edits of a level ----------

  lemma {:induction false} InsertSkips(s: Side, a: seq<Entry>, b: seq<Entry>, e: Entry)
    requires forall i :: 0 <= i < |a| ==> Key(s, a[i].price) <= Key(s, e.price)
    ensures Insert(s, a + b, e) == a + Insert(s, b, e)
  {
    if a == [] {
      assert a + b == b;
    } else {
      assert (a + b)[1..] == a[1..] + b;
      InsertSkips(s, a[1..], b, e);
    }
  }

  /** The queue at `p`, empty when there is no such level. */
  function At(v: View, p: Price): seq<Entry> {
    if p in v then v[p] else []
  }

  /** The levels after an append of `e` to the level of its price. */
  function Appended(v: View, e: Entry): View {
    v[e.price := At(v, e.price) + [e]]
  }

  /** A price better than every level goes to the front. */
  lemma FlatFront(s: Side, v: View, e: Entry)
    requires WellPriced(v) && forall q :: q in v ==> Key(s, e.price) < Key(s, q)
    ensures Insert(s, Flat(s, v), e) == [e] + Flat(s, v)
  {
    if Flat(s, v) != [] {
      FlatMembers(s, v, Flat(s, v)[0]);
    }
  }

  lemma AppendedNonEmpty(v: View, e: Entry)
    requires NonEmpty(v)
    ensures NonEmpty(Appended(v, e))
  {}

  lemma FlatInsertFront(s: Side, v: View, e: Entry)
    requires WellPriced(v) && forall q :: q in v ==> Key(s, e.price) < Key(s, q)
    ensures Flat(s, Appended(v, e)) == Insert(s, Flat(s, v), e)
  {
    FlatBest(s, Appended(v, e), e.price);
    assert Appended(v, e) - {e.price} == v;
    FlatFront(s, v, e);
    assert At(v, e.price) == [];
  }

  lemma FlatInsertBest(s: Side, v: View, e: Entry)
    requires WellPriced(v) && e.price in v && e.price == Best(s, v.Keys)
    ensures Flat(s, Appended(v, e)) == Insert(s, Flat(s, v), e)
  {
    hide Flat, Insert;
    var p := e.price;
    var rest := Flat(s, v - {p});
    FlatSetBest(s, v, p, v[p] + [e]);
    FlatSetBest(s, v, p, v[p]);
    assert v[p := v[p]] == v;
    InsertSkips(s, v[p], rest, e);
    FlatFront(s, v - {p}, e);
    assert v[p] + [e] + rest == v[p] + ([e] + rest);
  }

  /** Appending to the level of its price is price-time insertion into the queue. */
  lemma {:induction false} FlatInsert(s: Side, v: View, e: Entry)
    requires WellPriced(v)
    ensures Flat(s, Appended(v, e)) == Insert(s, Flat(s, v), e)
    decreases |v.Keys|
  {
    hide Insert;
    if v.Keys == {} || Key(s, e.price) < Key(s, Best(s, v.Keys)) {
      FlatInsertFront(s, v, e);
    } else if e.price == Best(s, v.Keys) {
      FlatInsertBest(s, v, e);
    } else {
      var p := Best(s, v.Keys);
      assert (v - {p}).Keys == v.Keys - {p};
      FlatBest(s, Appended(v, e), p);
      assert Appended(v, e) - {p} == Appended(v - {p}, e);
      FlatInsert(s, v - {p}, e);
      InsertSkips(s, v[p], Flat(s, v - {p}), e);
    }
  }

  lemma {:induction false} SpliceSkips(a: seq<Entry>, b: seq<Entry>, id: OrderId, r: seq<Entry>)
    requires !HasId(a, id)
    ensures Splice(a + b, id, r) == a + Splice(b, id, r)
  {
    if a == [] {
      assert a + b == b;
    } else {
      assert (a + b)[1..] == a[1..] + b;
      assert a[0].id != id;
      assert forall i :: 0 <= i < |a[1..]| ==> a[1..][i] == a[i + 1];
      SpliceSkips(a[1..], b, id, r);
    }
  }

  lemma {:induction false} SpliceFirst(a: seq<Entry>, b: seq<Entry>, id: OrderId, r: seq<Entry>)
    requires HasId(a, id)
    ensures Splice(a + b, id, r) == Splice(a, id, r) + b
  {
    assert (a + b)[1..] == a[1..] + b;
    if a[0].id == id {
      assert r + (a[1..] + b) == r + a[1..] + b;
    } else {
      var i :| 0 <= i < |a| && a[i].id == id;
      assert a[1..][i - 1].id == id;
      SpliceFirst(a[1..], b, id, r);
    }
  }

  /** Editing one entry of one level is the same edit of the queue. */
  lemma {:induction false} FlatSplice(s: Side, v: View, p: Price, id: OrderId, r: seq<Entry>)
    requires p in v && HasId(v[p], id)
    requires forall q :: q in v && q != p ==> !HasId(v[q], id)
    ensures Flat(s, v[p := Splice(v[p], id, r)]) == Splice(Flat(s, v), id, r)
    decreases |v.Keys|
  {
    var v' := v[p := Splice(v[p], id, r)];
    var best := Best(s, v.Keys);
    assert (v - {best}).Keys == v.Keys - {best};
    FlatBest(s, v', best);
    if best == p {
      assert v' - {p} == v - {p};
      SpliceFirst(v[p], Flat(s, v - {p}), id, r);
    } else {
      assert v' - {best} == (v - {best})[p := Splice(v[p], id, r)];
      FlatSplice(s, v - {best}, p, id, r);
      SpliceSkips(v[best], Flat(s, v - {best}), id, r);
    }
  }

  /** An empty level contributes nothing, so erasing it changes nothing. */
  lemma {:induction false} FlatDropEmpty(s: Side, v: View, p: Price)
    requires p in v && v[p] == []
    ensures Flat(s, v - {p}) == Flat(s, v)
    decreases |v.Keys|
  {
    var best := Best(s, v.Keys);
    assert (v - {best}).Keys == v.Keys - {best};
    if best == p {
      FlatBest(s, v, p);
      assert [] + Flat(s, v - {p}) == Flat(s, v - {p});
    } else {
      FlatBest(s, v - {p}, best);
      assert v - {p} - {best} == v - {best} - {p};
      FlatDropEmpty(s, v - {best}, p);
    }
  }

  /** The head of the queue is the head of the best level, when no level is empty. */
  lemma FlatHead(s: Side, v: View)
    requires WellPriced(v) && v.Keys != {} && v[Best(s, v.Keys)] != []
    ensures Flat(s, v) != [] && Flat(s, v)[0] == v[Best(s, v.Keys)][0]
    ensures BestPrice(Flat(s, v)) == Best(s, v.Keys)
  {}

  /** The published top volume is the volume of the best level. */
  lemma FlatTopVolume(s: Side, v: View)
    requires WellPriced(v) && v.Keys != {} && v[Best(s, v.Keys)] != []
    ensures TopVolume(Flat(s, v)) == Wrap32(Volume(v[Best(s, v.Keys)]))
  {
    var p := Best(s, v.Keys);
    var rest := Flat(s, v - {p});
    FlatHead(s, v);
    assert (v - {p}).Keys == v.Keys - {p};
    forall i | 0 <= i < |rest| ensures rest[i].price != p {
      FlatMembers(s, v - {p}, rest[i]);
    }
    VolumeAtConcat(v[p], rest, p);
    VolumeAtAll(v[p], p);
    VolumeAtNone(rest, p);
  }
}
