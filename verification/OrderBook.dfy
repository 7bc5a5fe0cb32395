/** The matching engine on the heap, proved to compute the functions of module Matching. */
module OrderBooks {
  import opened Types
  import opened Matching
  import opened MatchingLemmas
  import opened BookInvariants
  import opened Levels
  import opened Nodes

  // ---------- one trade of a greedy consumption ----------

  function AfterTrade(opp: seq<Entry>, t: nat): seq<Entry>
    requires opp != [] && t <= opp[0].qty
  {
    if t == opp[0].qty then opp[1..] else [opp[0].(qty := opp[0].qty - t)] + opp[1..]
  }

  /** Where a matching loop stands: what is logged and what is still to be consumed together
      amount to the whole consumption. */
  ghost predicate OnCourse(o: NewOrder, time: nat, opp0: seq<Entry>, log0: seq<Trade>,
                           q: nat, opp: seq<Entry>, log: seq<Trade>) {
    var m0 := Consume(o, o.qty, opp0);
    var m := Consume(o, q, opp);
    m.left == m0.left && m.rest == m0.rest && log + Trades(o, m.fills, time) == log0 + Trades(o, m0.fills, time)
  }

  lemma CourseStarts(o: NewOrder, time: nat, opp0: seq<Entry>, log0: seq<Trade>)
    ensures OnCourse(o, time, opp0, log0, o.qty, opp0, log0)
  {}

  /** Where nothing more trades the course is at its end. */
  lemma CourseEnds(o: NewOrder, time: nat, opp0: seq<Entry>, log0: seq<Trade>,
                   q: nat, opp: seq<Entry>, log: seq<Trade>)
    requires OnCourse(o, time, opp0, log0, q, opp, log)
    requires q == 0 || opp == [] || !Reaches(o, opp[0].price)
    ensures var m0 := Consume(o, o.qty, opp0);
      q == m0.left && opp == m0.rest && log == log0 + Trades(o, m0.fills, time)
  {
    assert Consume(o, q, opp) == Match(q, opp, []);
    assert log + Trades(o, [], time) == log;
  }

  lemma TradeStaysOnCourse(o: NewOrder, time: nat, opp0: seq<Entry>, log0: seq<Trade>,
                           q: nat, opp: seq<Entry>, log: seq<Trade>, t: nat)
    requires OnCourse(o, time, opp0, log0, q, opp, log)
    requires q > 0 && opp != [] && Reaches(o, opp[0].price) && t == Min(q, opp[0].qty)
    ensures OnCourse(o, time, opp0, log0, q - t, AfterTrade(opp, t), log + [TradeOf(o, opp[0].(qty := t), time)])
  {
    var m := Consume(o, q, opp);
    var m' := Consume(o, q - t, AfterTrade(opp, t));
    var fill := opp[0].(qty := t);
    assert m == m'.(fills := [fill] + m'.fills);
    assert Trades(o, m.fills, time) == [TradeOf(o, fill, time)] + Trades(o, m'.fills, time);
    assert log + [TradeOf(o, fill, time)] + Trades(o, m'.fills, time) == log + Trades(o, m.fills, time);
  }

  /** A trade with the head of the best level is a trade with the head of the queue. */
  lemma FlatTrade(s: Side, v: View, p: Price, t: nat)
    requires p in v && v[p] != [] && t <= v[p][0].qty
    requires forall q :: q in v ==> Key(s, p) <= Key(s, q)
    ensures Flat(s, v) != [] && Flat(s, v)[0] == v[p][0]
    ensures Flat(s, v[p := AfterTrade(v[p], t)]) == AfterTrade(Flat(s, v), t)
  {
    hide Flat;
    FlatBest(s, v, p);
    FlatSetBest(s, v, p, AfterTrade(v[p], t));
    assert Flat(s, v)[1..] == v[p][1..] + Flat(s, v - {p});
  }

  lemma SetTwice(v: View, p: Price, a: seq<Entry>, b: seq<Entry>)
    ensures v[p := a][p := b] == v[p := b]
  {}

  lemma DropIsSplice(l: seq<Entry>, k: nat)
    requires k < |l|
    ensures l[..k] + [] + l[k + 1..] == l[..k] + l[k + 1..]
  {}

  lemma UpdateIsSplice(l: seq<Entry>, k: nat, e: Entry)
    requires k < |l|
    ensures l[k := e] == l[..k] + [e] + l[k + 1..]
  {}

  // ---------- the book ----------

  /** What an edit of the book may write: the level of `side` at `price`, these nodes, and the
      index at these ids. */
  datatype Writes = Writes(side: Side, price: Price, nodes: seq<Order>, ids: set<OrderId>)

  class OrderBook {
    const pool: OrderPool
    /** Whether a UDP publisher is attached. */
    const hasPublisher: bool
    var bids: map<Price, PriceLevel>
    var asks: map<Price, PriceLevel>
    var orderMap: map<OrderId, Order>
    var tradeLog: seq<Trade>
    /** Every message handed to the market-data ring, in order. */
    var feed: seq<Bbo>

    ghost function Levels(s: Side): map<Price, PriceLevel>
      reads this`bids, this`asks
    {
      if s == BUY then bids else asks
    }

    /** The pool, every node of it, and every level. */
    ghost function Repr(): set<object>
      reads this`bids, this`asks, pool
    {
      {pool as object} + pool.Nodes() + LevelSet()
    }

    ghost function LevelSet(): set<PriceLevel>
      reads this`bids, this`asks
    {
      bids.Values + asks.Values
    }

    // ----- the invariant -----

    /** One level is a proper list of pooled nodes of its side and price, none of them free. */
    ghost predicate LevelOk(s: Side, p: Price)
      requires p in Levels(s)
      reads this`bids, this`asks, pool, pool.Nodes(), Levels(s)[p]
    {
      var level := Levels(s)[p];
      && (forall o :: o in level.nodes ==>
            o in pool.allAllocated && o !in pool.freeList && o.side == s && o.price == p)
      && level.side == s && level.price == p && level.Valid()
    }

    ghost predicate LevelsOk()
      reads this`bids, this`asks, pool, pool.Nodes(), bids.Values, asks.Values
    {
      pool.Valid() && forall s: Side, p :: p in Levels(s) ==> LevelOk(s, p)
    }

    /** The index finds every order of the level. */
    ghost predicate LevelIndexed(s: Side, p: Price)
      requires p in Levels(s)
      reads this`orderMap, Levels(s)[p].nodes, this`bids, this`asks, pool, pool.Nodes(), bids.Values, asks.Values
    {
      forall o :: o in Levels(s)[p].nodes ==> o.id in orderMap && orderMap[o.id] == o
    }

    /** The node is in the level of its own side and price. */
    ghost predicate Queued(o: Order)
      reads this`bids, this`asks, o, bids.Values, asks.Values
    {
      o.price in Levels(o.side) && o in Levels(o.side)[o.price].nodes
    }

    /** What the index finds under `id` is a queued order with that id. */
    ghost predicate Indexed(id: OrderId)
      requires id in orderMap
      reads this`bids, this`asks, this`orderMap, bids.Values, asks.Values, orderMap[id]
    {
      orderMap[id].id == id && Queued(orderMap[id])
    }

    /** Index and levels describe the same orders. */
    ghost predicate IndexOk()
      requires LevelsOk()
      reads this`orderMap, orderMap.Values, this`bids, this`asks, pool, pool.Nodes(), bids.Values, asks.Values
    {
      && (forall s: Side, p :: p in Levels(s) ==> LevelOk(s, p) && LevelIndexed(s, p))
      && (forall id :: id in orderMap ==> Indexed(id))
    }

    ghost predicate NoEmptyLevel()
      reads this`bids, this`asks, pool, pool.Nodes(), bids.Values, asks.Values
    {
      NonEmpty(View(BUY)) && NonEmpty(View(SELL))
    }

    ghost predicate Valid()
      reads this`orderMap, orderMap.Values, this`bids, this`asks, pool, pool.Nodes(), bids.Values, asks.Values
    {
      LevelsOk() && IndexOk() && NoEmptyLevel()
    }

    /** The book without its index: what the price levels alone say. */
    ghost predicate Sound()
      reads this`bids, this`asks, pool, pool.Nodes(), bids.Values, asks.Values
    {
      LevelsOk() && NoEmptyLevel()
    }

    /** The node is in no level. */
    ghost predicate Detached(o: Order)
      reads this`bids, this`asks, bids.Values`nodes, asks.Values`nodes
    {
      forall s: Side, p :: p in Levels(s) ==> o !in Levels(s)[p].nodes
    }

    /** A node in a caller's hand: acquired, and not on the book. */
    ghost predicate InHand(o: Order)
      reads this`bids, this`asks, pool, pool.Nodes(), bids.Values, asks.Values
    {
      o in pool.HandedOut() && Detached(o)
    }

    /** Nodes acquired and not on the book: what callers hold. */
    ghost function Loose(): set<Order>
      reads this`orderMap, pool
    {
      pool.HandedOut() - orderMap.Values
    }

    // ----- the abstract value -----

    ghost function View(s: Side): View
      reads this`bids, this`asks, bids.Values, asks.Values
    {
      map p | p in Levels(s) :: Levels(s)[p].queue
    }

    ghost function Model(): Book
      reads this`bids, this`asks, bids.Values, asks.Values
    {
      Book(Flat(BUY, View(BUY)), Flat(SELL, View(SELL)))
    }

    constructor (pool: OrderPool, hasPublisher: bool)
      requires pool.Valid()
      ensures this.pool == pool && this.hasPublisher == hasPublisher
      ensures Valid() && Model() == EMPTY_BOOK && tradeLog == [] && feed == [] && orderMap == map[]
      ensures bids == map[] && asks == map[]
    {
      this.pool, this.hasPublisher := pool, hasPublisher;
      bids, asks, orderMap, tradeLog, feed := map[], map[], map[], [], [];
    }

    // ----- places -----

    /** The level object is one of the book's. */
    ghost predicate Holds(level: PriceLevel)
      reads this`bids, this`asks, level`price
    {
      level.price in Levels(level.side) && Levels(level.side)[level.price] == level
    }

    lemma HeldIsOk(level: PriceLevel)
      requires LevelsOk() && Holds(level)
      ensures LevelOk(level.side, level.price) && pool.Valid()
      ensures IndexOk() ==> LevelIndexed(level.side, level.price)
      ensures forall s: Side, p :: p in Levels(s) && (s != level.side || p != level.price) ==> Levels(s)[p] != level
    {
      assert forall s: Side, p :: p in Levels(s) ==> LevelOk(s, p);
    }

    lemma AnyLevelOk()
      requires LevelsOk()
      ensures pool.Valid() && forall s: Side, p :: p in Levels(s) ==> LevelOk(s, p)
    {}

    /** Where a queued order sits in its level: ids are unique there, so a splice by id hits it. */
    lemma PlaceOf(level: PriceLevel, order: Order, r: seq<Entry>) returns (k: nat)
      requires LevelsOk() && IndexOk() && Holds(level) && order in level.nodes
      ensures k < |level.nodes| == |level.queue| && level.nodes[k] == order && level.queue[k] == order.ToEntry()
      ensures HasId(level.queue, order.id)
      ensures Splice(level.queue, order.id, r) == level.queue[..k] + r + level.queue[k + 1..]
    {
      assert LevelOk(level.side, level.price) && LevelIndexed(level.side, level.price);
      var i :| 0 <= i < |level.nodes| && level.nodes[i] == order;
      assert level.Carries(level.nodes[i], level.queue[i]);
      k := SpliceShape(level.queue, order.id, r);
      ghost var found := level.nodes[k];
      assert level.Carries(found, level.queue[k]);
      assert found in level.nodes && found == order;
    }

    lemma IndexedNode(level: PriceLevel, order: Order)
      requires LevelsOk() && IndexOk() && Holds(level) && order in level.nodes
      ensures order.id in orderMap && orderMap[order.id] == order
      ensures (orderMap - {order.id}).Values == orderMap.Values - {order}
    {
      assert LevelIndexed(level.side, level.price);
      forall o | o in orderMap.Values && o != order ensures o in (orderMap - {order.id}).Values {
        var id :| id in orderMap && orderMap[id] == o;
        assert Indexed(id) && id in orderMap - {order.id};
      }
      forall o | o in (orderMap - {order.id}).Values ensures o in orderMap.Values && o != order {
        var id :| id in orderMap - {order.id} && (orderMap - {order.id})[id] == o;
        assert Indexed(id);
      }
    }

    /** No level but that of `w` holds any of these nodes. */
    ghost predicate OnlyIn(w: Writes)
      reads this`bids, this`asks, bids.Values, asks.Values
    {
      forall s: Side, p, o :: p in Levels(s) && (s != w.side || p != w.price) && o in w.nodes ==> o !in Levels(s)[p].nodes
    }

    lemma AloneIn(level: PriceLevel, w: Writes)
      requires LevelsOk() && Holds(level) && w.side == level.side && w.price == level.price
      requires forall o :: o in w.nodes ==> o in level.nodes || Detached(o)
      ensures OnlyIn(w)
    {
      assert LevelOk(level.side, level.price);
      forall s: Side, p, o | p in Levels(s) && (s != w.side || p != w.price) && o in w.nodes
        ensures o !in Levels(s)[p].nodes
      {
        assert LevelOk(s, p);
      }
    }

    // ----- what an edit of one level leaves alone -----

    /** Same pool, and the same levels with nothing written but the level and nodes of `w`. */
    twostate predicate OnlyTouched(new w: Writes)
      reads *
    {
      && bids == old(bids) && asks == old(asks)
      && pool.allAllocated == old(pool.allAllocated) && pool.freeList == old(pool.freeList)
      && (forall s: Side, p :: p in Levels(s) && (s != w.side || p != w.price) ==> unchanged(Levels(s)[p]))
      && (forall o :: o in pool.allAllocated && o !in w.nodes ==> unchanged(o))
    }

    twostate lemma LevelsStayOk(w: Writes)
      requires old(LevelsOk()) && OnlyTouched(w) && old(OnlyIn(w))
      requires w.price in Levels(w.side) && LevelOk(w.side, w.price)
      ensures LevelsOk()
    {
      hide PriceLevel.Linked;
      forall s: Side, p | p in Levels(s) && (s != w.side || p != w.price) ensures LevelOk(s, p) {
        assert old(LevelOk(s, p));
        assert forall o :: o in Levels(s)[p].nodes ==> unchanged(o);
        assert Levels(s)[p].Valid();
      }
    }

    twostate lemma ViewsAfter(w: Writes)
      requires OnlyTouched(w) && w.price in Levels(w.side)
      ensures View(w.side) == old(View(w.side))[w.price := Levels(w.side)[w.price].queue]
      ensures View(w.side.Opposite()) == old(View(w.side.Opposite()))
    {
      forall p | p in Levels(w.side) && p != w.price ensures View(w.side)[p] == old(View(w.side))[p] {
        assert unchanged(Levels(w.side)[p]);
      }
      forall p | p in Levels(w.side.Opposite())
        ensures View(w.side.Opposite())[p] == old(View(w.side.Opposite()))[p]
      {
        assert unchanged(Levels(w.side.Opposite())[p]);
      }
    }

    /** The index was written only at the ids of `w`, none of which belongs to another level; the
        level of `w` is indexed, and its other orders kept their places. */
    twostate predicate IndexEdited(w: Writes)
      requires w.price in Levels(w.side) && w.price in old(Levels(w.side))
      reads *
    {
      var now := Levels(w.side)[w.price];
      var before := old(Levels(w.side)[w.price].nodes);
      && (forall id :: id !in w.ids ==>
            && (id in orderMap <==> id in old(orderMap))
            && (id in orderMap ==> orderMap[id] == old(orderMap[id])))
      && (forall id :: id in w.ids && id in old(orderMap) ==> old(orderMap[id]) in before)
      && LevelIndexed(w.side, w.price)
      && (forall id :: id in w.ids && id in orderMap ==> Indexed(id))
      && (forall o :: o in before && old(o.id) !in w.ids ==>
            o in now.nodes && o.id == old(o.id) && o.price == old(o.price) && o.side == old(o.side))
    }

    twostate lemma IndexStaysOk(w: Writes)
      requires old(LevelsOk()) && old(IndexOk()) && OnlyTouched(w) && old(OnlyIn(w)) && LevelsOk()
      requires w.price in Levels(w.side) && IndexEdited(w)
      ensures IndexOk()
    {
      forall s: Side, p | p in Levels(s) ensures LevelIndexed(s, p) {
        if s != w.side || p != w.price {
          assert old(LevelIndexed(s, p)) && old(LevelOk(s, p)) && old(LevelOk(w.side, w.price));
        }
      }
      forall id | id in orderMap ensures Indexed(id) {
        if id !in w.ids {
          assert old(Indexed(id));
          var o := orderMap[id];
          if old(o.side) != w.side || old(o.price) != w.price {
            assert old(LevelOk(o.side, o.price));
          }
        }
      }
    }

    // ----- the edits -----

    method ReduceInPlace(level: PriceLevel, order: Order, newQty: Quantity)
      requires LevelsOk() && IndexOk() && Holds(level)
      requires order in level.nodes && newQty <= order.quantity
      modifies order`quantity, level`totalVolume, level`queue
      ensures LevelsOk() && IndexOk() && order.quantity == newQty
      ensures level.queue == Splice(old(level.queue), order.id, [order.ToEntry()])
      ensures View(level.side) == old(View(level.side))[level.price := level.queue]
      ensures View(level.side.Opposite()) == old(View(level.side.Opposite()))
    {
      hide LevelsOk, IndexOk, OnlyIn, PriceLevel.Valid, PriceLevel.Linked, OrderPool.Valid;
      ghost var w := Writes(level.side, level.price, [order], {});
      ghost var k := PlaceOf(level, order, [Entry(order.id, order.price, newQty)]);
      UpdateIsSplice(level.queue, k, Entry(order.id, order.price, newQty));
      HeldIsOk(level);
      AloneIn(level, w);
      level.Reduce(order, k, newQty);
      LevelsStayOk(w);
      IndexStaysOk(w);
      ViewsAfter(w);
    }

    /** The writes of a removal: the index entry, and `removeOrder` on the level. */
    method RemoveFrom(level: PriceLevel, order: Order, ghost k: nat)
      requires LevelsOk() && Holds(level) && k < |level.nodes| == |level.queue| && level.nodes[k] == order
      modifies this`orderMap, level`head, level`tail, level`totalVolume, level`nodes, level`queue
      modifies level.nodes`next, level.nodes`prev
      ensures LevelsOk() && Detached(order) && order.next == null && order.prev == null
      ensures orderMap == old(orderMap) - {order.id}
      ensures level.queue == old(level.queue)[..k] + old(level.queue)[k + 1..]
      ensures forall o :: o in level.nodes <==> o in old(level.nodes) && o != order
      ensures old(level.head) == order ==> level.head == old(order.next)
      ensures View(level.side) == old(View(level.side))[level.price := level.queue]
      ensures View(level.side.Opposite()) == old(View(level.side.Opposite()))
    {
      hide LevelsOk, OnlyIn, PriceLevel.Valid, PriceLevel.Linked, OrderPool.Valid, View;
      ghost var w := Writes(level.side, level.price, level.nodes, {});
      HeldIsOk(level);
      level.NodesDistinct();
      AloneIn(level, w);
      orderMap := orderMap - {order.id};
      level.RemoveOrder(order, k);
      LevelsStayOk(w);
      ViewsAfter(w);
    }

    /** Takes a queued order out of the index and its level, as cancel, modify and matching do. */
    method Detach(level: PriceLevel, order: Order)
      requires LevelsOk() && IndexOk() && Holds(level) && order in level.nodes
      modifies this`orderMap, level`head, level`tail, level`totalVolume, level`nodes, level`queue
      modifies level.nodes`next, level.nodes`prev
      ensures LevelsOk() && IndexOk() && Detached(order) && order.next == null && order.prev == null
      ensures orderMap == old(orderMap) - {order.id}
      ensures level.queue == Splice(old(level.queue), order.id, [])
      ensures forall o :: o in level.nodes ==> o in old(level.nodes)
      ensures old(level.head) == order ==> level.head == old(order.next)
      ensures View(level.side) == old(View(level.side))[level.price := level.queue]
      ensures View(level.side.Opposite()) == old(View(level.side.Opposite()))
    {
      hide LevelsOk, IndexOk, OnlyIn, PriceLevel.Valid, OrderPool.Valid, OrderPool.Nodes, View, Detached,
        Splice, HasId;
      ghost var w := Writes(level.side, level.price, level.nodes, {order.id});
      ghost var k := PlaceOf(level, order, []);
      DropIsSplice(level.queue, k);
      HeldIsOk(level);
      AloneIn(level, w);
      RemoveFrom(level, order, k);
      IndexStaysOk(w);
    }

    /** A queued order that its own id no longer leads to. */
    lemma LostOrder(o: Order, s: Side, p: Price)
      requires LevelsOk() && p in Levels(s) && o in Levels(s)[p].nodes
      requires o.id in orderMap && orderMap[o.id] != o
      ensures !IndexOk()
    {
      assert IndexOk() ==> LevelIndexed(s, p);
    }

    /** A new id in place, in the level and in the index. The index survives if and only if no other
        live order had that id. */
    method RenameInPlace(level: PriceLevel, order: Order, newId: OrderId)
      requires LevelsOk() && IndexOk() && Holds(level) && order in level.nodes
      modifies this`orderMap, order`id, level`queue
      ensures LevelsOk() && (IndexOk() <==> newId == old(order.id) || newId !in old(orderMap))
      ensures order.id == newId && orderMap == (old(orderMap) - {old(order.id)})[newId := order]
      ensures level.queue == Splice(old(level.queue), old(order.id), [order.ToEntry()])
      ensures View(level.side) == old(View(level.side))[level.price := level.queue]
      ensures View(level.side.Opposite()) == old(View(level.side.Opposite()))
    {
      hide LevelsOk, IndexOk, OnlyIn, OnlyTouched, PriceLevel.Valid, OrderPool.Valid, OrderPool.Nodes, View, Splice, HasId, Lookup;
      ghost var w := Writes(level.side, level.price, [order], {order.id, newId});
      ghost var other := if newId in orderMap then orderMap[newId] else order;
      if newId in orderMap { FindLevel(newId); }
      HeldIsOk(level);
      AloneIn(level, w);
      RenameWrites(level, order, newId);
      if newId != old(order.id) && newId in old(orderMap) {
        LostOrder(other, other.side, other.price);
      } else {
        assert LevelIndexed(level.side, level.price);
        assert Indexed(newId);
        IndexStaysOk(w);
      }
    }

    method RenameWrites(level: PriceLevel, order: Order, newId: OrderId)
      requires LevelsOk() && IndexOk() && Holds(level) && order in level.nodes
      modifies this`orderMap, order`id, level`queue
      ensures LevelsOk() && order.id == newId
      ensures OnlyTouched(Writes(level.side, level.price, [order], {old(order.id), newId}))
      ensures orderMap == (old(orderMap) - {old(order.id)})[newId := order]
      ensures level.queue == Splice(old(level.queue), old(order.id), [order.ToEntry()])
      ensures View(level.side) == old(View(level.side))[level.price := level.queue]
      ensures View(level.side.Opposite()) == old(View(level.side.Opposite()))
    {
      hide LevelsOk, IndexOk, OnlyIn, PriceLevel.Valid, OrderPool.Valid, OrderPool.Nodes, View, Splice, HasId;
      ghost var e := Entry(newId, order.price, order.quantity);
      ghost var w := Writes(level.side, level.price, [order], {order.id, newId});
      ghost var k := PlaceOf(level, order, [e]);
      UpdateIsSplice(level.queue, k, e);
      HeldIsOk(level);
      AloneIn(level, w);
      orderMap := (orderMap - {order.id})[newId := order];
      level.Rename(order, k, newId);
      LevelsStayOk(w);
      ViewsAfter(w);
    }

    /** The writes of an addition: the index entry, and `appendOrder` on the level. */
    method AppendWrites(level: PriceLevel, order: Order)
      requires LevelsOk() && Holds(level) && InHand(order)
      requires order.side == level.side && order.price == level.price
      requires order.next == null && order.prev == null
      modifies this`orderMap, level`head, level`tail, level`totalVolume, level`nodes, level`queue
      modifies level.NodeSet()`next, order`prev
      ensures LevelsOk() && orderMap == old(orderMap)[order.id := order]
      ensures OnlyTouched(Writes(level.side, level.price, old(level.nodes) + [order], {order.id}))
      ensures level.nodes == old(level.nodes) + [order] && level.queue == old(level.queue) + [order.ToEntry()]
      ensures View(level.side) == old(View(level.side))[level.price := level.queue]
      ensures View(level.side.Opposite()) == old(View(level.side.Opposite()))
    {
      hide LevelsOk, OnlyIn, PriceLevel.Valid, OrderPool.Valid;
      ghost var w := Writes(level.side, level.price, level.nodes + [order], {order.id});
      HeldIsOk(level);
      AloneIn(level, w);
      orderMap := orderMap[order.id := order];
      level.AppendOrder(order);
      LevelsStayOk(w);
      ViewsAfter(w);
    }

    /** The last of the nodes of `w`, under an id that was not live, was appended to its level and
        indexed. */
    twostate lemma AppendIndexed(w: Writes)
      requires old(LevelsOk()) && old(IndexOk()) && LevelsOk() && OnlyTouched(w) && old(OnlyIn(w))
      requires w.price in Levels(w.side) && w.price in old(Levels(w.side)) && old(LevelIndexed(w.side, w.price))
      requires Levels(w.side)[w.price].nodes == w.nodes && w.nodes != []
      requires var order, before := w.nodes[|w.nodes| - 1], w.nodes[..|w.nodes| - 1];
        && old(Levels(w.side)[w.price].nodes) == before && order.side == w.side && order.price == w.price
        && w.ids == {order.id} && order.id !in old(orderMap) && orderMap == old(orderMap)[order.id := order]
        && forall o :: o in before ==> o.id == old(o.id) && o.price == old(o.price) && o.side == old(o.side)
      ensures IndexOk()
    {
      hide LevelsOk, IndexOk, OnlyIn, OnlyTouched, LevelOk;
      ghost var order := w.nodes[|w.nodes| - 1];
      assert w.nodes == w.nodes[..|w.nodes| - 1] + [order];
      assert Indexed(order.id);
      IndexStaysOk(w);
    }

    /** The index survives if and only if the id was not live: otherwise the entry of the older
        order is overwritten and that order can no longer be found. */
    method AppendTo(level: PriceLevel, order: Order)
      requires LevelsOk() && IndexOk() && Holds(level) && InHand(order)
      requires order.side == level.side && order.price == level.price
      requires order.next == null && order.prev == null
      modifies this`orderMap, level`head, level`tail, level`totalVolume, level`nodes, level`queue
      modifies level.NodeSet()`next, order`prev
      ensures LevelsOk() && (IndexOk() <==> order.id !in old(orderMap))
      ensures orderMap == old(orderMap)[order.id := order]
      ensures level.queue == old(level.queue) + [order.ToEntry()]
      ensures View(level.side) == old(View(level.side))[level.price := level.queue]
      ensures View(level.side.Opposite()) == old(View(level.side.Opposite()))
    {
      hide LevelsOk, IndexOk, OnlyIn, PriceLevel.Valid, OrderPool.Valid, View, OrderPool.Nodes, HasId, Lookup, LevelOk, OnlyTouched;
      ghost var w := Writes(level.side, level.price, level.nodes + [order], {order.id});
      ghost var older := if order.id in orderMap then orderMap[order.id] else order;
      if order.id in orderMap { FindLevel(order.id); }
      HeldIsOk(level);
      AloneIn(level, w);
      AppendWrites(level, order);
      if order.id in old(orderMap) {
        LostOrder(older, older.side, older.price);
      } else {
        AppendIndexed(w);
      }
    }

    // ----- what leaves every queue alone: pool traffic, and empty levels coming and going -----

    twostate predicate QueuesKept()
      reads *
    {
      && orderMap == old(orderMap)
      && pool.Valid() && old(pool.allAllocated) <= pool.allAllocated
      && (forall s: Side, p :: p in Levels(s) ==>
            if p in old(Levels(s)) && Levels(s)[p] == old(Levels(s)[p]) then
              && unchanged(Levels(s)[p]) && unchanged(Levels(s)[p].nodes)
              && (forall o :: o in Levels(s)[p].nodes ==> o !in pool.freeList)
            else
              Levels(s)[p].nodes == [] && LevelOk(s, p))
      && (forall s: Side, p :: p in old(Levels(s)) && old(Levels(s)[p].nodes) != [] ==>
            p in Levels(s) && Levels(s)[p] == old(Levels(s)[p]))
    }

    twostate lemma QueuesKeptOk()
      requires old(LevelsOk()) && old(IndexOk()) && QueuesKept()
      ensures LevelsOk() && IndexOk()
    {
      forall s: Side, p | p in Levels(s) ensures LevelOk(s, p) {
        if p in old(Levels(s)) && Levels(s)[p] == old(Levels(s)[p]) {
          assert old(LevelOk(s, p));
          assert Levels(s)[p].Valid();
        }
      }
      forall s: Side, p | p in Levels(s) ensures LevelIndexed(s, p) {
        if p in old(Levels(s)) && Levels(s)[p] == old(Levels(s)[p]) {
          assert old(LevelIndexed(s, p));
        }
      }
      forall id | id in orderMap ensures Indexed(id) {
        assert old(Indexed(id));
        var o := orderMap[id];
        var s, p := old(o.side), old(o.price);
        assert p in Levels(s) && unchanged(Levels(s)[p].nodes);
      }
    }

    method AddEmptyLevel(s: Side, p: Price) returns (level: PriceLevel)
      requires LevelsOk() && IndexOk() && p !in Levels(s)
      modifies this`bids, this`asks
      ensures LevelsOk() && IndexOk() && level.side == s && level.price == p
      ensures fresh(level) && level.nodes == [] && level.queue == []
      ensures Levels(s) == old(Levels(s))[p := level] && Levels(s.Opposite()) == old(Levels(s.Opposite()))
    {
      hide LevelsOk, IndexOk, PriceLevel.Linked, OrderPool.Valid;
      AnyLevelOk();
      level := new PriceLevel(p, s);
      if s == BUY {
        bids := bids[p := level];
      } else {
        asks := asks[p := level];
      }
      QueuesKeptOk();
    }

    /** `try_emplace`: the level at this price, a new empty one if there was none. */
    method Emplace(s: Side, p: Price) returns (level: PriceLevel)
      requires LevelsOk() && IndexOk()
      modifies this`bids, this`asks
      ensures LevelsOk() && IndexOk() && Holds(level) && level.side == s && level.price == p
      ensures level.queue == At(old(View(s)), p)
      ensures View(s) == old(View(s))[p := level.queue]
      ensures View(s.Opposite()) == old(View(s.Opposite()))
      ensures p in old(Levels(s)) ==> Levels(s) == old(Levels(s))
      ensures p !in old(Levels(s)) ==> fresh(level) && level.nodes == [] && Levels(s) == old(Levels(s))[p := level]
      ensures Levels(s.Opposite()) == old(Levels(s.Opposite()))
      ensures forall l :: l in LevelSet() ==> l in old(LevelSet()) || fresh(l)
    {
      hide LevelsOk, IndexOk, PriceLevel.Valid, OrderPool.Valid;
      AnyLevelOk();
      assert p in Levels(s) ==> LevelOk(s, p);
      if s == BUY {
        if p in bids { return bids[p]; }
      } else {
        if p in asks { return asks[p]; }
      }
      level := AddEmptyLevel(s, p);
    }

    /** Erases the level when its list is empty. */
    method DropIfEmpty(s: Side, p: Price)
      requires LevelsOk() && IndexOk() && p in Levels(s)
      modifies this`bids, this`asks
      ensures LevelsOk() && IndexOk()
      ensures var q := old(View(s)[p]); View(s) == if q == [] then old(View(s)) - {p} else old(View(s))
      ensures View(s.Opposite()) == old(View(s.Opposite()))
      ensures forall o :: o in pool.HandedOut() && old(Detached(o)) ==> Detached(o)
      ensures Levels(s) == if old(View(s)[p]) == [] then old(Levels(s)) - {p} else old(Levels(s))
      ensures Levels(s.Opposite()) == old(Levels(s.Opposite()))
    {
      hide PriceLevel.Linked, IndexOk;
      assert LevelOk(s, p);
      Levels(s)[p].HeadOfQueue();
      if s == BUY {
        if bids[p].head == null { bids := bids - {p}; }
      } else {
        if asks[p].head == null { asks := asks - {p}; }
      }
      QueuesKeptOk();
    }

    method ReleaseToPool(order: Order)
      requires LevelsOk() && IndexOk() && InHand(order)
      modifies pool`freeList, order`next, order`prev
      ensures LevelsOk() && IndexOk()
      ensures pool.HandedOut() == old(pool.HandedOut()) - {order}
      ensures pool.freeList == old(pool.freeList) + [order]
      ensures View(BUY) == old(View(BUY)) && View(SELL) == old(View(SELL))
    {
      pool.Release(order);
      QueuesKeptOk();
    }

    // ----- matching -----

    method TakeFrom(taker: Order, t: Quantity)
      requires LevelsOk() && IndexOk() && InHand(taker) && t <= taker.quantity
      modifies taker`quantity
      ensures LevelsOk() && IndexOk() && taker.quantity == old(taker.quantity) - t
    {
      taker.quantity := taker.quantity - t;
      QueuesKeptOk();
    }

    method RecordTrade(buyId: OrderId, sellId: OrderId, price: Price, qty: Quantity, time: nat)
      requires LevelsOk() && IndexOk()
      modifies this`tradeLog
      ensures LevelsOk() && IndexOk()
      ensures tradeLog == old(tradeLog) + [Trade(buyId, sellId, price, qty, time)]
    {
      tradeLog := tradeLog + [Trade(buyId, sellId, price, qty, time)];
      QueuesKeptOk();
    }

    /** The quantities and the log of one trade with the head of a level. */
    method Exchange(level: PriceLevel, resting: Order, taker: Order, time: nat)
      requires LevelsOk() && IndexOk() && InHand(taker) && taker.side == level.side.Opposite()
      requires Holds(level) && level.head == resting && taker.quantity > 0
      modifies this`tradeLog, taker`quantity, resting`quantity, level`totalVolume, level`queue
      ensures LevelsOk() && IndexOk() && InHand(taker)
      ensures old(level.queue) != [] && old(level.queue)[0].price == level.price
      ensures var q := old(level.queue); var t := Min(old(taker.quantity), q[0].qty);
        && taker.quantity == old(taker.quantity) - t && resting.quantity == q[0].qty - t
        && q[0].id == resting.id
        && level.queue == [q[0].(qty := q[0].qty - t)] + q[1..]
        && tradeLog == old(tradeLog) + [TradeOf(old(taker.Incoming()), q[0].(qty := t), time)]
      ensures View(level.side) == old(View(level.side))[level.price := level.queue]
      ensures View(level.side.Opposite()) == old(View(level.side.Opposite()))
    {
      hide LevelsOk, IndexOk, OrderPool.Valid, PriceLevel.Valid, Detached, OrderPool.Nodes, View, LevelOk, LevelIndexed;
      HeldIsOk(level);
      level.HeadOfQueue();
      var tradeQty := Min(taker.quantity, resting.quantity);
      TakeFrom(taker, tradeQty);
      ReduceInPlace(level, resting, resting.quantity - tradeQty);
      if taker.side == BUY {
        RecordTrade(taker.id, resting.id, level.price, tradeQty, time);
      } else {
        RecordTrade(resting.id, taker.id, level.price, tradeQty, time);
      }
    }

    /** A filled head leaves the index and the level and goes back to the pool. */
    method Recycle(level: PriceLevel, resting: Order, ghost taker: Order)
      requires LevelsOk() && IndexOk() && Holds(level) && InHand(taker)
      requires level.head == resting
      modifies this`orderMap, pool`freeList
      modifies level`head, level`tail, level`totalVolume, level`nodes, level`queue
      modifies level.nodes`next, level.nodes`prev
      ensures LevelsOk() && IndexOk() && InHand(taker)
      ensures old(level.queue) != [] && level.queue == old(level.queue)[1..]
      ensures View(level.side) == old(View(level.side))[level.price := level.queue]
      ensures View(level.side.Opposite()) == old(View(level.side.Opposite()))
      ensures level.head == old(resting.next)
      ensures forall o :: o in level.nodes ==> o in old(level.nodes)
      ensures Loose() == old(Loose())
    {
      hide LevelsOk, IndexOk, OrderPool.Valid, PriceLevel.Valid, View;
      HeldIsOk(level);
      level.HeadOfQueue();
      IndexedNode(level, resting);
      Detach(level, resting);
      ReleaseToPool(resting);
    }

    /** One pass of the inner matching loop: the taker trades with the head of the level, which is
        unlinked and recycled when nothing of it is left. */
    method TradeWithHead(level: PriceLevel, taker: Order, time: nat) returns (nextResting: Order?)
      requires LevelsOk() && IndexOk() && InHand(taker) && taker.side == level.side.Opposite()
      requires Holds(level) && level.head != null && taker.quantity > 0
      modifies this`orderMap, this`tradeLog, taker`quantity, pool`freeList
      modifies level`head, level`tail, level`totalVolume, level`nodes, level`queue
      modifies level.NodeSet()`quantity, level.NodeSet()`next, level.NodeSet()`prev
      ensures LevelsOk() && IndexOk() && InHand(taker) && Loose() == old(Loose())
      ensures old(level.queue) != [] && old(level.queue)[0].price == level.price
      ensures var q := old(level.queue); var t := Min(old(taker.quantity), q[0].qty);
        && taker.quantity == old(taker.quantity) - t
        && level.queue == AfterTrade(q, t)
        && tradeLog == old(tradeLog) + [TradeOf(old(taker.Incoming()), q[0].(qty := t), time)]
      ensures View(level.side) == old(View(level.side))[level.price := level.queue]
      ensures View(level.side.Opposite()) == old(View(level.side.Opposite()))
      ensures taker.quantity > 0 ==> nextResting == level.head && |level.queue| < |old(level.queue)|
      ensures level.NodeSet() <= old(level.NodeSet())
    {
      hide LevelsOk, IndexOk, OrderPool.Valid, PriceLevel.Valid, InHand, Loose, View, OrderPool.Nodes;
      HeldIsOk(level);
      level.HeadOfQueue();
      var resting := level.head;
      Exchange(level, resting, taker, time);
      nextResting := resting.next;
      if resting.quantity == 0 {
        Recycle(level, resting, taker);
      }
    }

    /** The level is `begin()` of its map. */
    ghost predicate IsBest(level: PriceLevel)
      reads this`bids, this`asks, level`price
    {
      Holds(level) && forall p :: p in Levels(level.side) ==> Key(level.side, level.price) <= Key(level.side, p)
    }

    lemma LevelHead(level: PriceLevel)
      requires LevelsOk() && Holds(level)
      ensures level.head == null <==> level.queue == []
      ensures level.head != null ==> level.queue[0].price == level.price
    {
      HeldIsOk(level);
      level.HeadOfQueue();
    }

    lemma QueueInView(level: PriceLevel)
      requires Holds(level)
      ensures level.price in View(level.side) && View(level.side)[level.price] == level.queue
      ensures View(level.side)[level.price := level.queue] == View(level.side)
    {}

    lemma TradeOnCourse(level: PriceLevel, o: NewOrder, time: nat, opp0: seq<Entry>, log0: seq<Trade>,
                        q: nat, log: seq<Trade>)
      requires IsBest(level) && level.queue != [] && level.queue[0].price == level.price
      requires q > 0 && Reaches(o, level.price)
      requires OnCourse(o, time, opp0, log0, q, Flat(level.side, View(level.side)), log)
      ensures var e := level.queue[0]; var t := Min(q, e.qty);
        OnCourse(o, time, opp0, log0, q - t,
                 Flat(level.side, View(level.side)[level.price := AfterTrade(level.queue, t)]),
                 log + [TradeOf(o, e.(qty := t), time)])
    {
      var t := Min(q, level.queue[0].qty);
      FlatTrade(level.side, View(level.side), level.price, t);
      TradeStaysOnCourse(o, time, opp0, log0, q, Flat(level.side, View(level.side)), log, t);
    }

    /** The inner matching loop: trades with the orders of the best level, first in line first,
        until the taker is filled or the level is empty. */
    method SweepLevel(level: PriceLevel, taker: Order, time: nat,
                      ghost o: NewOrder, ghost opp0: seq<Entry>, ghost log0: seq<Trade>)
      requires LevelsOk() && IndexOk() && InHand(taker) && taker.side == level.side.Opposite()
      requires Holds(level) && IsBest(level) && Reaches(o, level.price) && o == taker.Incoming().(qty := o.qty)
      requires OnCourse(o, time, opp0, log0, taker.quantity, Flat(level.side, View(level.side)), tradeLog)
      modifies this`orderMap, this`tradeLog, taker`quantity, pool`freeList
      modifies level`head, level`tail, level`totalVolume, level`nodes, level`queue
      modifies level.NodeSet()`quantity, level.NodeSet()`next, level.NodeSet()`prev
      ensures LevelsOk() && IndexOk() && InHand(taker) && Loose() == old(Loose())
      ensures OnCourse(o, time, opp0, log0, taker.quantity, Flat(level.side, View(level.side)), tradeLog)
      ensures View(level.side) == old(View(level.side))[level.price := level.queue]
      ensures View(level.side.Opposite()) == old(View(level.side.Opposite()))
      ensures taker.quantity == 0 || level.queue == []
    {
      hide LevelsOk, IndexOk, OrderPool.Valid, PriceLevel.Valid, InHand, Loose, View, OrderPool.Nodes,
        OnCourse, IsBest, Holds, LevelOk, Levels, Flat, Reaches;
      QueueInView(level);
      var resting := level.head;
      while resting != null && taker.quantity > 0
        invariant LevelsOk() && IndexOk() && InHand(taker) && Loose() == old(Loose())
        invariant OnCourse(o, time, opp0, log0, taker.quantity, Flat(level.side, View(level.side)), tradeLog)
        invariant View(level.side) == old(View(level.side))[level.price := level.queue]
        invariant View(level.side.Opposite()) == old(View(level.side.Opposite()))
        invariant level.NodeSet() <= old(level.NodeSet())
        invariant taker.quantity > 0 ==> resting == level.head
        decreases |level.queue|, taker.quantity
      {
        LevelHead(level);
        TradeOnCourse(level, o, time, opp0, log0, taker.quantity, tradeLog);
        resting := TradeWithHead(level, taker, time);
      }
      LevelHead(level);
    }

    lemma PooledNodes(level: PriceLevel)
      requires LevelsOk() && Holds(level)
      ensures level.NodeSet() <= pool.Nodes()
    {
      HeldIsOk(level);
    }

    /** One pass of the outer matching loop: sweep the best level, and erase it when it is empty. */
    method SweepBest(s: Side, best: Price, taker: Order, time: nat,
                     ghost o: NewOrder, ghost opp0: seq<Entry>, ghost log0: seq<Trade>)
      requires Valid() && InHand(taker) && taker.side == s.Opposite()
      requires best in Levels(s) && forall p :: p in Levels(s) ==> Key(s, best) <= Key(s, p)
      requires Reaches(o, best) && o == taker.Incoming().(qty := o.qty)
      requires OnCourse(o, time, opp0, log0, taker.quantity, Flat(s, View(s)), tradeLog)
      modifies this`bids, this`asks, this`orderMap, this`tradeLog, taker`quantity, pool`freeList
      modifies Levels(s)[best], pool.Nodes()`quantity, pool.Nodes()`next, pool.Nodes()`prev
      ensures Valid() && InHand(taker) && Loose() == old(Loose())
      ensures taker.next == old(taker.next) && taker.prev == old(taker.prev)
      ensures OnCourse(o, time, opp0, log0, taker.quantity, Flat(s, View(s)), tradeLog)
      ensures View(s.Opposite()) == old(View(s.Opposite())) && Levels(s.Opposite()) == old(Levels(s.Opposite()))
      ensures Levels(s) == old(Levels(s)) - {best} || (Levels(s) == old(Levels(s)) && taker.quantity == 0)
    {
      hide LevelsOk, IndexOk, OrderPool.Valid, PriceLevel.Valid, Loose, OrderPool.Nodes, OnCourse, Flat,
        Reaches, Detached, LevelIndexed, Consume;
      assert LevelsOk() && IndexOk();
      AnyLevelOk();
      assert LevelOk(s, best);
      ghost var level := Levels(s)[best];
      PooledNodes(level);
      SweepLevel(if s == BUY then bids[best] else asks[best], taker, time, o, opp0, log0);
      ghost var v := View(s);
      DropIfEmpty(s, best);
      if v[best] == [] {
        FlatDropEmpty(s, v, best);
      }
    }

    lemma ViewWellPriced(s: Side)
      requires LevelsOk()
      ensures WellPriced(View(s)) && View(s).Keys == Levels(s).Keys
    {
      forall p, i | p in View(s) && 0 <= i < |View(s)[p]| ensures View(s)[p][i].price == p {
        assert LevelOk(s, p);
        assert Levels(s)[p].Carries(Levels(s)[p].nodes[i], Levels(s)[p].queue[i]);
      }
    }

    /** The queue of a side starts at the key of `begin()`. */
    lemma FrontIsBest(s: Side)
      requires Valid() && Levels(s).Keys != {}
      ensures Flat(s, View(s)) != [] && Flat(s, View(s))[0].price == Best(s, Levels(s).Keys)
    {
      ViewWellPriced(s);
      FlatHead(s, View(s));
    }

    lemma NoLevels(s: Side)
      requires Levels(s).Keys == {}
      ensures Flat(s, View(s)) == []
    {
      assert View(s).Keys == {};
    }

    lemma Fewer(levels: map<Price, PriceLevel>, p: Price)
      requires p in levels
      ensures |levels - {p}| < |levels|
    {
      assert (levels - {p}).Keys == levels.Keys - {p};
    }

    method MatchBuyOrder(buyOrder: Order, time: nat)
      requires Valid() && InHand(buyOrder) && buyOrder.side == BUY
      modifies this`bids, this`asks, this`orderMap, this`tradeLog, buyOrder`quantity, pool`freeList
      modifies asks.Values, pool.Nodes()`quantity, pool.Nodes()`next, pool.Nodes()`prev
      ensures Valid() && InHand(buyOrder) && Loose() == old(Loose())
      ensures buyOrder.next == old(buyOrder.next) && buyOrder.prev == old(buyOrder.prev)
      ensures var m := Consume(old(buyOrder.Incoming()), old(buyOrder.quantity), old(Model().asks));
        && buyOrder.quantity == m.left
        && Model() == old(Model()).(asks := m.rest)
        && tradeLog == old(tradeLog) + Trades(old(buyOrder.Incoming()), m.fills, time)
      ensures bids == old(bids) && asks.Values <= old(asks.Values)
    {
      hide LevelsOk, IndexOk, OrderPool.Valid, PriceLevel.Valid, InHand, Loose, Flat, NoEmptyLevel, Detached,
        OnCourse, Consume;
      ghost var o, opp0, log0 := buyOrder.Incoming(), Flat(SELL, View(SELL)), tradeLog;
      CourseStarts(o, time, opp0, log0);
      while buyOrder.quantity > 0 && asks.Keys != {}
        invariant Valid() && InHand(buyOrder) && Loose() == old(Loose())
        invariant buyOrder.next == old(buyOrder.next) && buyOrder.prev == old(buyOrder.prev)
        invariant OnCourse(o, time, opp0, log0, buyOrder.quantity, Flat(SELL, View(SELL)), tradeLog)
        invariant View(BUY) == old(View(BUY))
        invariant bids == old(bids) && asks.Values <= old(asks.Values)
        decreases |asks|, buyOrder.quantity
      {
        var best := Best(SELL, asks.Keys);
        FrontIsBest(SELL);
        Fewer(asks, best);
        if !buyOrder.isMarket && buyOrder.price < best { break; }
        SweepBest(SELL, best, buyOrder, time, o, opp0, log0);
      }
      if asks.Keys == {} { NoLevels(SELL); } else { FrontIsBest(SELL); }
      CourseEnds(o, time, opp0, log0, buyOrder.quantity, Flat(SELL, View(SELL)), tradeLog);
    }

    method MatchSellOrder(sellOrder: Order, time: nat)
      requires Valid() && InHand(sellOrder) && sellOrder.side == SELL
      modifies this`bids, this`asks, this`orderMap, this`tradeLog, sellOrder`quantity, pool`freeList
      modifies bids.Values, pool.Nodes()`quantity, pool.Nodes()`next, pool.Nodes()`prev
      ensures Valid() && InHand(sellOrder) && Loose() == old(Loose())
      ensures sellOrder.next == old(sellOrder.next) && sellOrder.prev == old(sellOrder.prev)
      ensures var m := Consume(old(sellOrder.Incoming()), old(sellOrder.quantity), old(Model().bids));
        && sellOrder.quantity == m.left
        && Model() == old(Model()).(bids := m.rest)
        && tradeLog == old(tradeLog) + Trades(old(sellOrder.Incoming()), m.fills, time)
      ensures asks == old(asks) && bids.Values <= old(bids.Values)
    {
      hide LevelsOk, IndexOk, OrderPool.Valid, PriceLevel.Valid, InHand, Loose, Flat, NoEmptyLevel, Detached,
        OnCourse, Consume;
      ghost var o, opp0, log0 := sellOrder.Incoming(), Flat(BUY, View(BUY)), tradeLog;
      CourseStarts(o, time, opp0, log0);
      while sellOrder.quantity > 0 && bids.Keys != {}
        invariant Valid() && InHand(sellOrder) && Loose() == old(Loose())
        invariant sellOrder.next == old(sellOrder.next) && sellOrder.prev == old(sellOrder.prev)
        invariant OnCourse(o, time, opp0, log0, sellOrder.quantity, Flat(BUY, View(BUY)), tradeLog)
        invariant View(SELL) == old(View(SELL))
        invariant asks == old(asks) && bids.Values <= old(bids.Values)
        decreases |bids|, sellOrder.quantity
      {
        var best := Best(BUY, bids.Keys);
        FrontIsBest(BUY);
        Fewer(bids, best);
        if !sellOrder.isMarket && sellOrder.price > best { break; }
        SweepBest(BUY, best, sellOrder, time, o, opp0, log0);
      }
      if bids.Keys == {} { NoLevels(BUY); } else { FrontIsBest(BUY); }
      CourseEnds(o, time, opp0, log0, sellOrder.quantity, Flat(BUY, View(BUY)), tradeLog);
    }

    // ----- index and abstract value -----

    lemma IdsOfLevel(s: Side, p: Price, id: OrderId)
      requires LevelsOk() && IndexOk() && p in Levels(s) && HasId(Levels(s)[p].queue, id)
      ensures id in orderMap && orderMap[id] in Levels(s)[p].nodes
      ensures orderMap[id].side == s && orderMap[id].price == p
    {
      assert LevelOk(s, p) && LevelIndexed(s, p);
      var level := Levels(s)[p];
      var i :| 0 <= i < |level.queue| && level.queue[i].id == id;
      assert level.Carries(level.nodes[i], level.queue[i]);
      assert level.nodes[i] in level.nodes;
    }

    /** The level of an indexed order, which holds its id and is the only one to do so. */
    lemma FindLevel(id: OrderId)
      requires LevelsOk() && IndexOk() && id in orderMap
      ensures var o := orderMap[id];
        && o.id == id && o.price in Levels(o.side) && Holds(Levels(o.side)[o.price])
        && Levels(o.side)[o.price].side == o.side && Levels(o.side)[o.price].price == o.price
        && o in Levels(o.side)[o.price].nodes && o in pool.HandedOut()
        && o.price in View(o.side) && HasId(View(o.side)[o.price], id)
        && Lookup(View(o.side)[o.price], id) == Some(o.ToEntry())
        && forall q :: q in View(o.side) && q != o.price ==> !HasId(View(o.side)[q], id)
    {
      var o := orderMap[id];
      assert Indexed(id) && LevelOk(o.side, o.price);
      var level := Levels(o.side)[o.price];
      var k := PlaceOf(level, o, []);
      var k' := SpliceShape(level.queue, id, []);
      assert level.queue[k'].id == id;
      UniqueInLevel(level);
      forall q | q in View(o.side) && q != o.price ensures !HasId(View(o.side)[q], id) {
        if HasId(View(o.side)[q], id) { IdsOfLevel(o.side, q, id); }
      }
    }

    lemma UniqueInLevel(level: PriceLevel)
      requires LevelsOk() && IndexOk() && Holds(level)
      ensures UniqueIds(level.queue)
    {
      assert LevelOk(level.side, level.price) && LevelIndexed(level.side, level.price);
      forall i, j | 0 <= i < j < |level.queue| ensures level.queue[i].id != level.queue[j].id {
        assert level.Carries(level.nodes[i], level.queue[i]) && level.Carries(level.nodes[j], level.queue[j]);
        assert level.nodes[i] in level.nodes && level.nodes[j] in level.nodes;
      }
    }

    /** The index knows exactly the ids of the abstract book, each on its side. */
    lemma IndexAgrees(id: OrderId)
      requires LevelsOk() && IndexOk()
      ensures id in orderMap <==> Live(Model(), id)
      ensures forall s: Side :: HasId(Model().On(s), id) <==> id in orderMap && orderMap[id].side == s
    {
      forall s: Side ensures HasId(Model().On(s), id) <==> id in orderMap && orderMap[id].side == s {
        ViewWellPriced(s);
        FlatHasId(s, View(s), id);
        if p :| p in View(s) && HasId(View(s)[p], id) { IdsOfLevel(s, p, id); }
        if id in orderMap && orderMap[id].side == s { FindLevel(id); }
      }
      assert HasId(Model().On(BUY), id) <==> id in orderMap && orderMap[id].side == BUY;
      assert HasId(Model().On(SELL), id) <==> id in orderMap && orderMap[id].side == SELL;
    }

    /** The heap invariant makes the abstract book well-formed. */
    lemma ModelWf()
      requires LevelsOk() && IndexOk()
      ensures Wf(Model())
    {
      forall s: Side ensures ListOk(s, Model().On(s)) {
        ViewWellPriced(s);
        FlatSorted(s, View(s));
        SideUnique(s);
        FlatUnique(s, View(s));
      }
      assert ListOk(BUY, Model().On(BUY)) && ListOk(SELL, Model().On(SELL));
      forall id | HasId(Model().bids, id) ensures !HasId(Model().asks, id) {
        IndexAgrees(id);
        assert HasId(Model().On(BUY), id);
        assert HasId(Model().On(SELL), id) ==> false;
      }
      WfByLists(Model());
    }

    lemma SideUnique(s: Side)
      requires LevelsOk() && IndexOk()
      ensures ViewUnique(View(s))
    {
      forall p | p in View(s) ensures UniqueIds(View(s)[p]) {
        assert LevelOk(s, p);
        UniqueInLevel(Levels(s)[p]);
      }
      forall p, q, id | p in View(s) && q in View(s) && p != q && HasId(View(s)[p], id)
        ensures !HasId(View(s)[q], id)
      {
        IdsOfLevel(s, p, id);
        if HasId(View(s)[q], id) { IdsOfLevel(s, q, id); }
      }
    }

    // ----- the operations -----

    method AddOrder(order: Order)
      requires LevelsOk() && IndexOk() && InHand(order) && order.next == null && order.prev == null
      modifies this`bids, this`asks, this`orderMap, order`prev
      modifies LevelSet(), pool.Nodes()`next
      ensures LevelsOk() && (IndexOk() <==> order.id !in old(orderMap))
      ensures orderMap == old(orderMap)[order.id := order]
      ensures View(order.side) == Appended(old(View(order.side)), order.ToEntry())
      ensures View(order.side.Opposite()) == old(View(order.side.Opposite()))
      ensures forall l :: l in LevelSet() ==> l in old(LevelSet()) || fresh(l)
    {
      hide LevelsOk, IndexOk, OrderPool.Valid, PriceLevel.Valid, View, OrderPool.Nodes, LevelOk;
      ghost var v := View(order.side);
      var level := Emplace(order.side, order.price);
      PooledNodes(level);
      assert InHand(order);
      SetTwice(v, order.price, level.queue, level.queue + [order.ToEntry()]);
      AppendTo(level, order);
    }

    // ----- the top of the book and its feed -----

    function GetBestBid(): Price
      reads this`bids
    {
      if bids.Keys == {} then 0 else Best(BUY, bids.Keys)
    }

    function GetBestAsk(): Price
      reads this`asks
    {
      if asks.Keys == {} then 0 else Best(SELL, asks.Keys)
    }

    /** The message of `publishBBO`: best prices with the running volumes of their levels. */
    function TopMessage(): Bbo
      reads this`bids, this`asks, bids.Values, asks.Values
    {
      Bbo(GetBestBid(), GetBestAsk(),
          if bids.Keys == {} then 0 else bids[GetBestBid()].totalVolume,
          if asks.Keys == {} then 0 else asks[GetBestAsk()].totalVolume)
    }

    /** The accessors and the running volumes are the top of the abstract book. */
    lemma TopAgrees()
      requires Sound()
      ensures TopMessage() == TopOfBook(Model())
      ensures GetBestBid() == BestPrice(Model().bids) && GetBestAsk() == BestPrice(Model().asks)
    {
      SideTop(BUY);
      SideTop(SELL);
    }

    lemma SideTop(s: Side)
      requires Sound()
      ensures Levels(s).Keys == {} ==> Model().On(s) == []
      ensures Levels(s).Keys != {} ==>
        && BestPrice(Model().On(s)) == Best(s, Levels(s).Keys)
        && Levels(s)[Best(s, Levels(s).Keys)].totalVolume == TopVolume(Model().On(s))
    {
      ViewWellPriced(s);
      if Levels(s).Keys != {} {
        assert LevelOk(s, Best(s, Levels(s).Keys));
        FlatHead(s, View(s));
        FlatTopVolume(s, View(s));
      }
    }

    /** `publishBBO`: the message goes to the ring whether or not the ring has room. */
    method PublishBBO()
      requires Sound()
      modifies this`feed
      ensures Sound() && (IndexOk() <==> old(IndexOk()))
      ensures feed == old(feed) + if hasPublisher then [TopOfBook(Model())] else []
      ensures hasPublisher ==> |feed| == |old(feed)| + 1 && Shows(feed[|feed| - 1], Model())
    {
      hide LevelsOk, IndexOk, NoEmptyLevel, OrderPool.Nodes;
      if !hasPublisher { return; }
      TopAgrees();
      var msg := TopMessage();
      feed := feed + [msg];
      NothingMoved();
    }

    /** Only the log or the feed was written. */
    twostate lemma NothingMoved()
      requires old(Sound()) && unchanged(this`bids, this`asks, this`orderMap) && unchanged(pool)
      requires unchanged(bids.Values) && unchanged(asks.Values) && unchanged(pool.Nodes())
      ensures Sound() && (IndexOk() <==> old(IndexOk()))
    {
      forall s: Side, p | p in Levels(s)
        ensures LevelOk(s, p) && (LevelIndexed(s, p) <==> old(LevelIndexed(s, p)))
      {
        assert old(LevelOk(s, p));
        assert Levels(s)[p].Valid();
      }
      assert LevelsOk();
      if old(IndexOk()) {
        forall id | id in orderMap ensures Indexed(id) {
          assert old(Indexed(id));
          var s, p := old(orderMap[id].side), old(orderMap[id].price);
          assert p in Levels(s) && old(LevelOk(s, p));
        }
      }
      if IndexOk() {
        forall s: Side, p | p in old(Levels(s)) ensures old(LevelIndexed(s, p)) {
          assert LevelIndexed(s, p);
        }
        forall id | id in orderMap ensures old(Indexed(id)) {
          assert Indexed(id);
          var s, p := orderMap[id].side, orderMap[id].price;
          assert p in Levels(s) && LevelOk(s, p);
        }
      }
    }

    method PublishIfMoved(bidBefore: Price, askBefore: Price, ghost before: Book)
      requires Sound() && bidBefore == BestPrice(before.bids) && askBefore == BestPrice(before.asks)
      modifies this`feed
      ensures Sound() && (IndexOk() <==> old(IndexOk()))
      ensures feed == old(feed) + if hasPublisher then Matching.PublishIfMoved(before, Model()) else []
    {
      hide LevelsOk, IndexOk, NoEmptyLevel;
      TopAgrees();
      if bidBefore != GetBestBid() || askBefore != GetBestAsk() {
        PublishBBO();
      }
    }

    // ----- processOrder -----

    lemma ValuesWith(order: Order)
      requires order.id !in orderMap
      ensures orderMap[order.id := order].Values == orderMap.Values + {order}
    {
      var m := orderMap[order.id := order];
      forall o | o in orderMap.Values ensures o in m.Values {
        var id :| id in orderMap && orderMap[id] == o;
        assert m[id] == o;
      }
      assert m[order.id] == order;
    }

    /** What is left of a matched order rests, or its node goes back to the pool. */
    method Settle(order: Order)
      requires Valid() && InHand(order) && order.next == null && order.prev == null
      modifies this`bids, this`asks, this`orderMap, pool`freeList
      modifies LevelSet(), pool.Nodes()`next, pool.Nodes()`prev
      ensures Sound()
      ensures var rests := order.quantity > 0 && !order.isMarket; var b := old(Model());
        && Model() == (if rests then b.With(order.side, Insert(order.side, b.On(order.side), order.ToEntry())) else b)
        && (Valid() <==> !(rests && order.id in old(orderMap)))
      ensures Valid() ==> Loose() == old(Loose()) - {order}
      ensures forall l :: l in LevelSet() ==> l in old(LevelSet()) || fresh(l)
    {
      hide LevelSet, LevelsOk, IndexOk, NoEmptyLevel, NonEmpty, OrderPool.Valid, PriceLevel.Valid, InHand,
        View, Appended;
      NodeInHand(order);
      SidesNonEmpty(order.side);
      if order.quantity > 0 && !order.isMarket {
        ViewWellPriced(order.side);
        FlatInsert(order.side, View(order.side), order.ToEntry());
        AppendedNonEmpty(View(order.side), order.ToEntry());
        if order.id !in orderMap { ValuesWith(order); }
        AddOrder(order);
      } else {
        ReleaseToPool(order);
      }
      SidesNonEmpty(order.side);
    }

    lemma SidesNonEmpty(s: Side)
      ensures NoEmptyLevel() <==> NonEmpty(View(s)) && NonEmpty(View(s.Opposite()))
    {}

    lemma QueuedNotDetached(id: OrderId)
      requires LevelsOk() && IndexOk() && id in orderMap
      ensures !Detached(orderMap[id])
    {
      assert Indexed(id);
      var s, p := orderMap[id].side, orderMap[id].price;
      assert p in Levels(s) && orderMap[id] in Levels(s)[p].nodes;
    }

    lemma NodeInHand(o: Order)
      requires LevelsOk() && IndexOk() && InHand(o)
      ensures o in pool.Nodes() && o in Loose()
    {
      forall id | id in orderMap ensures orderMap[id] != o {
        QueuedNotDetached(id);
      }
    }

    /** Either matching function: the opposite side is consumed from the front. */
    method Match(order: Order, time: nat)
      requires Valid() && InHand(order)
      modifies this`bids, this`asks, this`orderMap, this`tradeLog, order`quantity, pool`freeList
      modifies LevelSet(), pool.Nodes()`quantity, pool.Nodes()`next, pool.Nodes()`prev
      ensures Valid() && InHand(order) && Loose() == old(Loose())
      ensures order.next == old(order.next) && order.prev == old(order.prev)
      ensures var o := old(order.Incoming()); var b := old(Model()); var opp := o.side.Opposite();
        var m := Consume(o, o.qty, b.On(opp));
        && order.Incoming() == o.(qty := m.left)
        && Model() == b.With(opp, m.rest)
        && tradeLog == old(tradeLog) + Trades(o, m.fills, time)
      ensures LevelSet() <= old(LevelSet())
    {
      hide LevelsOk, IndexOk, NoEmptyLevel, OrderPool.Valid, PriceLevel.Valid, InHand, View, Loose, Flat, Consume;
      if order.side == BUY {
        MatchBuyOrder(order, time);
      } else {
        MatchSellOrder(order, time);
      }
    }

    /** `processOrder`: match, rest or recycle, publish if the top price moved. Its result on the
        abstract book, the trade log and the feed is `Submitted`. The whole invariant holds again if
        and only if the order does not come to rest under an id that is still live - in particular
        whenever its id is fresh - and then the caller's node is the only one that changed hands. */
    method ProcessOrder(order: Order, time: nat)
      requires Valid() && InHand(order) && order.next == null && order.prev == null
      modifies this`bids, this`asks, this`orderMap, this`tradeLog, this`feed, pool`freeList
      modifies LevelSet(), pool.Nodes()`quantity, pool.Nodes()`next, pool.Nodes()`prev
      ensures Sound()
      ensures var o := old(order.Incoming()); var b := old(Model()); var r := Submitted(b, o, time);
        && Model() == r.book && tradeLog == old(tradeLog) + r.trades
        && feed == old(feed) + if hasPublisher then r.published else []
      ensures Valid() <==> !RestsOnLiveId(old(Model()), old(order.Incoming()))
      ensures Valid() ==> Loose() == old(Loose()) - {order}
      ensures forall l :: l in LevelSet() ==> l in old(LevelSet()) || fresh(l)
    {
      hide LevelSet, LevelsOk, IndexOk, NoEmptyLevel, OrderPool.Valid, PriceLevel.Valid, InHand, View, Loose,
        Flat, Consume, OrderPool.Nodes, Submitted, Insert;
      ghost var b := Model();
      NodeInHand(order);
      TopAgrees();
      var bidBefore, askBefore := GetBestBid(), GetBestAsk();
      Match(order, time);
      IndexAgrees(order.id);
      SubmittedParts(b, old(order.Incoming()), time);
      Settle(order);
      PublishIfMoved(bidBefore, askBefore, b);
    }

    // ----- cancelOrder and modifyOrder -----

    /** The view of a side after the queue at `p` became `q`. */
    ghost function Edited(v: View, p: Price, q: seq<Entry>): View {
      if q == [] then v[p := q] - {p} else v[p := q]
    }

    method DetachAndDrop(order: Order)
      requires LevelsOk() && IndexOk() && order.id in orderMap && orderMap[order.id] == order
      modifies this`bids, this`asks, this`orderMap
      modifies LevelSet(), pool.Nodes()`next, pool.Nodes()`prev
      ensures LevelsOk() && IndexOk() && Detached(order) && order.next == null && order.prev == null
      ensures orderMap == old(orderMap) - {order.id}
      ensures View(order.side.Opposite()) == old(View(order.side.Opposite()))
      ensures order.price in old(View(order.side))
      ensures View(order.side) == Edited(old(View(order.side)), order.price,
                                         Splice(old(View(order.side)[order.price]), order.id, []))
      ensures LevelSet() <= old(LevelSet())
    {
      hide LevelsOk, IndexOk, OrderPool.Valid, PriceLevel.Valid, View, OrderPool.Nodes, LevelOk, Lookup, HasId,
        Splice;
      FindLevel(order.id);
      ghost var level := Levels(order.side)[order.price];
      QueueInView(level);
      PooledNodes(level);
      if order.side == BUY {
        Detach(bids[order.price], order);
        DropIfEmpty(BUY, order.price);
      } else {
        Detach(asks[order.price], order);
        DropIfEmpty(SELL, order.price);
      }
    }

    /** A live order leaves the index and its level, and the level the map if that emptied it. */
    method Withdraw(order: Order)
      requires Valid() && order.id in orderMap && orderMap[order.id] == order
      modifies this`bids, this`asks, this`orderMap
      modifies LevelSet(), pool.Nodes()`next, pool.Nodes()`prev
      ensures Valid() && InHand(order) && order.next == null && order.prev == null
      ensures orderMap == old(orderMap) - {order.id} && Loose() == old(Loose()) + {order}
      ensures View(order.side.Opposite()) == old(View(order.side.Opposite()))
      ensures Flat(order.side, View(order.side)) == Splice(old(Flat(order.side, View(order.side))), order.id, [])
      ensures LevelSet() <= old(LevelSet())
    {
      hide LevelSet, LevelsOk, IndexOk, NoEmptyLevel, NonEmpty, OrderPool.Valid, PriceLevel.Valid, View,
        OrderPool.Nodes, LevelOk, Lookup, HasId, Detached, Edited;
      FindLevel(order.id);
      IndexedNode(Levels(order.side)[order.price], order);
      GiveBack(pool.HandedOut(), orderMap.Values, order);
      SidesNonEmpty(order.side);
      EditedFlat(order.side, View(order.side), order.price, order.id);
      DetachAndDrop(order);
      SidesNonEmpty(order.side);
    }

    /** `cancelOrder`: an unknown id is ignored; a live order is unlinked, its node goes back to the
        pool, and the top of the book is published. */
    method CancelOrder(id: OrderId)
      requires Valid()
      modifies this`bids, this`asks, this`orderMap, this`feed, pool`freeList
      modifies LevelSet(), pool.Nodes()`next, pool.Nodes()`prev
      ensures Valid() && Loose() == old(Loose())
      ensures var r := Cancelled(old(Model()), id);
        && Model() == r.book && feed == old(feed) + if hasPublisher then r.published else []
      ensures forall l :: l in LevelSet() ==> l in old(LevelSet()) || fresh(l)
    {
      hide LevelSet, LevelsOk, IndexOk, NonEmpty, OrderPool.Valid, PriceLevel.Valid, View, OrderPool.Nodes,
        Flat, Splice;
      IndexAgrees(id);
      if id !in orderMap { return; }
      var order := orderMap[id];
      FindLevel(id);
      Withdraw(order);
      ReleaseToPool(order);
      PublishBBO();
    }

    method ReduceAndRename(order: Order, newId: OrderId, newQty: Quantity)
      requires LevelsOk() && IndexOk() && order.id in orderMap && orderMap[order.id] == order
      requires newQty < order.quantity
      modifies this`orderMap, LevelSet(), order`id, order`quantity
      ensures LevelsOk() && (IndexOk() <==> newId == old(order.id) || newId !in old(orderMap))
      ensures orderMap == (old(orderMap) - {old(order.id)})[newId := order]
      ensures order.price in old(View(order.side))
      ensures View(order.side.Opposite()) == old(View(order.side.Opposite()))
      ensures View(order.side) == old(View(order.side))[order.price :=
                Splice(old(View(order.side)[order.price]), old(order.id), [Entry(newId, order.price, newQty)])]
    {
      hide LevelsOk, IndexOk, OrderPool.Valid, PriceLevel.Valid, View, OrderPool.Nodes, Splice, HasId, Lookup,
        LevelOk;
      FindLevel(order.id);
      ghost var level := Levels(order.side)[order.price];
      QueueInView(level);
      SpliceTwice(level.queue, order.id, Entry(order.id, order.price, newQty), Entry(newId, order.price, newQty));
      if order.side == BUY {
        ReduceInPlace(bids[order.price], order, newQty);
        RenameInPlace(bids[order.price], order, newId);
      } else {
        ReduceInPlace(asks[order.price], order, newQty);
        RenameInPlace(asks[order.price], order, newId);
      }
    }

    /** Same price, smaller quantity: the order keeps its place. */
    method ReduceOrder(order: Order, newId: OrderId, newQty: Quantity)
      requires Valid() && order.id in orderMap && orderMap[order.id] == order && newQty < order.quantity
      modifies this`orderMap, LevelSet(), order`id, order`quantity
      ensures Sound() && (Valid() <==> newId == old(order.id) || newId !in old(orderMap))
      ensures Valid() ==> Loose() == old(Loose())
      ensures View(order.side.Opposite()) == old(View(order.side.Opposite()))
      ensures Flat(order.side, View(order.side))
           == Splice(old(Flat(order.side, View(order.side))), old(order.id), [Entry(newId, order.price, newQty)])
    {
      hide LevelsOk, IndexOk, NoEmptyLevel, NonEmpty, OrderPool.Valid, PriceLevel.Valid, View, OrderPool.Nodes,
        Splice, HasId, Lookup;
      FindLevel(order.id);
      ghost var s, p, v, e := order.side, order.price, View(order.side), Entry(newId, order.price, newQty);
      FlatSplice(s, v, p, order.id, [e]);
      SidesNonEmpty(s);
      SplicedNonEmpty(v, p, order.id, e);
      if newId == order.id || newId !in orderMap { RenamedValues(order, newId); }
      ReduceAndRename(order, newId, newQty);
      SidesNonEmpty(s);
    }

    lemma RenamedValues(order: Order, newId: OrderId)
      requires LevelsOk() && IndexOk() && order.id in orderMap && orderMap[order.id] == order
      requires newId == order.id || newId !in orderMap
      ensures (orderMap - {order.id})[newId := order].Values == orderMap.Values
    {
      var m := (orderMap - {order.id})[newId := order];
      assert m[newId] == order;
      forall o | o in orderMap.Values ensures o in m.Values {
        var id :| id in orderMap && orderMap[id] == o;
        if id != order.id { assert m[id] == o; }
      }
    }

    /** New terms for a node off the book. */
    method Relabel(order: Order, newId: OrderId, newPrice: Price, newQty: Quantity)
      requires Valid() && InHand(order)
      modifies order`id, order`price, order`quantity, order`next, order`prev
      ensures Valid() && InHand(order) && order.ToEntry() == Entry(newId, newPrice, newQty)
      ensures order.next == null && order.prev == null
    {
      order.id := newId;
      order.price := newPrice;
      order.quantity := newQty;
      order.next := null;
      order.prev := null;
      QueuesKeptOk();
    }

    /** A node off the book is queued, unmatched. */
    method Requeue(order: Order)
      requires Valid() && InHand(order) && order.next == null && order.prev == null
      modifies this`bids, this`asks, this`orderMap, order`prev
      modifies LevelSet(), pool.Nodes()`next
      ensures Sound() && (Valid() <==> order.id !in old(orderMap))
      ensures Valid() ==> Loose() == old(Loose()) - {order}
      ensures View(order.side.Opposite()) == old(View(order.side.Opposite()))
      ensures Flat(order.side, View(order.side))
           == Insert(order.side, old(Flat(order.side, View(order.side))), order.ToEntry())
      ensures forall l :: l in LevelSet() ==> l in old(LevelSet()) || fresh(l)
    {
      hide LevelSet, LevelsOk, IndexOk, NoEmptyLevel, NonEmpty, OrderPool.Valid, PriceLevel.Valid, InHand,
        View, Appended;
      NodeInHand(order);
      SidesNonEmpty(order.side);
      ViewWellPriced(order.side);
      FlatInsert(order.side, View(order.side), order.ToEntry());
      AppendedNonEmpty(View(order.side), order.ToEntry());
      if order.id !in orderMap { ValuesWith(order); }
      AddOrder(order);
      SidesNonEmpty(order.side);
    }

    /** New price, or a larger quantity: the order goes to the back of its new level, unmatched. */
    method MoveOrder(order: Order, newId: OrderId, newPrice: Price, newQty: Quantity)
      requires Valid() && order.id in orderMap && orderMap[order.id] == order
      modifies this`bids, this`asks, this`orderMap, order
      modifies LevelSet(), pool.Nodes()`next, pool.Nodes()`prev
      ensures Sound() && (Valid() <==> newId == old(order.id) || newId !in old(orderMap))
      ensures Valid() ==> Loose() == old(Loose())
      ensures order.side == old(order.side)
      ensures View(order.side.Opposite()) == old(View(order.side.Opposite()))
      ensures Flat(order.side, View(order.side))
           == Insert(order.side, Splice(old(Flat(order.side, View(order.side))), old(order.id), []),
                     Entry(newId, newPrice, newQty))
      ensures forall l :: l in LevelSet() ==> l in old(LevelSet()) || fresh(l)
    {
      hide LevelSet, LevelsOk, IndexOk, NoEmptyLevel, OrderPool.Valid, PriceLevel.Valid, View, OrderPool.Nodes,
        Splice, Loose, InHand, Insert, Flat;
      NodeIndexed(order);
      Withdraw(order);
      Relabel(order, newId, newPrice, newQty);
      Requeue(order);
    }

    lemma NodeIndexed(order: Order)
      requires LevelsOk() && IndexOk() && order.id in orderMap && orderMap[order.id] == order
      ensures order !in Loose()
    {
      assert order in orderMap.Values;
    }

    /** `modifyOrder`: an unknown id is ignored. A live order with the same price and a smaller
        quantity keeps its place under its new id; otherwise it is queued afresh, without being
        matched. The invariant holds again if and only if the new id was the old one or not live. */
    method ModifyOrder(origId: OrderId, newId: OrderId, newPrice: Price, newQty: Quantity)
      requires Valid()
      modifies this`bids, this`asks, this`orderMap, this`feed
      modifies LevelSet(), pool.Nodes()
      ensures Sound()
      ensures var r := Modified(old(Model()), origId, newId, newPrice, newQty);
        && Model() == r.book && feed == old(feed) + if hasPublisher then r.published else []
      ensures Valid() <==> !Live(old(Model()), origId) || newId == origId || !Live(old(Model()), newId)
      ensures Valid() ==> Loose() == old(Loose())
      ensures forall l :: l in LevelSet() ==> l in old(LevelSet()) || fresh(l)
    {
      hide LevelSet, LevelsOk, IndexOk, NoEmptyLevel, OrderPool.Valid, PriceLevel.Valid, View, OrderPool.Nodes,
        Flat, Splice, Insert, Loose;
      IndexAgrees(origId);
      IndexAgrees(newId);
      if origId !in orderMap { return; }
      ghost var b := Model();
      var order := orderMap[origId];
      FindInModel(origId);
      TopAgrees();
      var bidBefore, askBefore := GetBestBid(), GetBestAsk();
      if newPrice == order.price && newQty < order.quantity {
        ReduceOrder(order, newId, newQty);
      } else {
        MoveOrder(order, newId, newPrice, newQty);
      }
      PublishIfMoved(bidBefore, askBefore, b);
    }

    /** What the abstract book says about an indexed order. */
    lemma FindInModel(id: OrderId)
      requires LevelsOk() && IndexOk() && id in orderMap
      ensures var o := orderMap[id];
        o.id == id && o in pool.Nodes() && SideOf(Model(), id) == o.side
        && Lookup(Model().On(o.side), id) == Some(o.ToEntry())
    {
      hide OrderPool.Valid, PriceLevel.Valid, Flat, View, IndexOk, LevelsOk, Lookup, WellPriced, UniqueIds;
      var o := orderMap[id];
      FindLevel(id);
      IndexAgrees(id);
      ModelWf();
      assert HasId(Model().On(BUY), id) <==> o.side == BUY;
      ViewWellPriced(o.side);
      LookupInFlat(o.side, View(o.side), o.price, id);
    }

    /** Ownership: every node the pool ever allocated is free, in the level of its own side and price,
        or in a caller's hand, and only one of the three. On the book and in the index are the same. */
    lemma OnePlace(o: Order)
      requires Valid() && o in pool.Nodes()
      ensures Queued(o) <==> o in orderMap.Values
      ensures Detached(o) <==> !Queued(o)
      ensures o in pool.freeList ==> !Queued(o) && o !in Loose()
      ensures o !in pool.freeList ==> (Queued(o) <==> o !in Loose())
    {
      if o in orderMap.Values {
        var id :| id in orderMap && orderMap[id] == o;
        assert Indexed(id);
        assert LevelOk(o.side, o.price);
      }
      if Queued(o) {
        var s, p := o.side, o.price;
        assert p in Levels(s) && o in Levels(s)[p].nodes;
      }
      if !Detached(o) {
        var s: Side, p :| p in Levels(s) && o in Levels(s)[p].nodes;
        assert LevelOk(s, p) && LevelIndexed(s, p);
        assert o.id in orderMap && orderMap[o.id] == o && o in orderMap.Values;
      }
    }

    /** The running volume of a level is the sum of its orders modulo 2^32, and that sum itself if and
        only if the sum fits in 32 bits. */
    lemma LevelVolume(s: Side, p: Price)
      requires Valid() && p in Levels(s)
      ensures var level := Levels(s)[p]; var sum := Volume(View(s)[p]);
        level.totalVolume == sum % TWO32 && (level.totalVolume == sum <==> sum < TWO32)
    {
      assert LevelOk(s, p);
    }

    /** No indexed node is free. */
    lemma IndexedAreOut()
      requires LevelsOk() && IndexOk()
      ensures orderMap.Values <= pool.HandedOut()
    {
      forall id | id in orderMap ensures orderMap[id] in pool.HandedOut() {
        var o := orderMap[id];
        assert Indexed(id) && LevelOk(o.side, o.price);
      }
    }

    /** `pool->acquire` as the gateway and the market maker call it: the book does not notice. */
    method AcquireNode(id: OrderId, p: Price, q: Quantity, s: Side, m: bool) returns (order: Order)
      requires Valid()
      modifies pool, pool.Nodes()
      ensures Valid() && InHand(order) && order.Incoming() == NewOrder(id, p, q, s, m)
      ensures order.next == null && order.prev == null
      ensures Loose() == old(Loose()) + {order} && order !in old(Loose())
      ensures Model() == old(Model())
      ensures forall o :: o in pool.Nodes() ==> o in old(pool.Nodes()) || fresh(o)
    {
      hide IndexOk, LevelIndexed, PriceLevel.Linked, Flat;
      IndexedAreOut();
      order := pool.Acquire(id, p, q, s, m);
      forall s: Side, p | p in Levels(s) ensures order !in Levels(s)[p].nodes {
        assert old(LevelOk(s, p));
      }
      QueuesKeptOk();
    }

    /** A node from the pool straight into the book, the way every caller submits an order. */
    method Enter(id: OrderId, p: Price, q: Quantity, s: Side, m: bool, time: nat)
      requires Valid()
      modifies this`bids, this`asks, this`orderMap, this`tradeLog, this`feed, Repr()
      ensures Sound()
      ensures var r := Submitted(old(Model()), NewOrder(id, p, q, s, m), time);
        && Model() == r.book && tradeLog == old(tradeLog) + r.trades
        && feed == old(feed) + if hasPublisher then r.published else []
      ensures Valid() <==> !RestsOnLiveId(old(Model()), NewOrder(id, p, q, s, m))
      ensures Valid() ==> Loose() == old(Loose())
      ensures forall x :: x in Repr() ==> x in old(Repr()) || fresh(x)
    {
      hide LevelsOk, IndexOk, NoEmptyLevel, View, Model, Loose, InHand, Submitted, RestsOnLiveId;
      var order := AcquireNode(id, p, q, s, m);
      ProcessOrder(order, time);
    }

    lemma EditedFlat(s: Side, v: View, p: Price, id: OrderId)
      requires p in v && HasId(v[p], id) && NonEmpty(v)
      requires forall q :: q in v && q != p ==> !HasId(v[q], id)
      ensures var v' := Edited(v, p, Splice(v[p], id, [])); Flat(s, v') == Splice(Flat(s, v), id, []) && NonEmpty(v')
    {
      var q := Splice(v[p], id, []);
      FlatSplice(s, v, p, id, []);
      if q == [] { FlatDropEmpty(s, v[p := q], p); }
    }
  }

  /** An entry found in its level is found in the flat list. */
  lemma LookupInFlat(s: Side, v: View, p: Price, id: OrderId)
    requires WellPriced(v) && p in v && HasId(v[p], id) && UniqueIds(Flat(s, v))
    ensures Lookup(Flat(s, v), id) == Lookup(v[p], id)
  {
    hide Flat, Lookup;
    var l := Flat(s, v);
    var e := Lookup(v[p], id).value;
    assert e in v[p] && e.price == p;
    FlatMembers(s, v, e);
    assert HasId(l, id);
    var k := SpliceShape(l, id, []);
    assert Lookup(l, id).value in l;
  }

  lemma SpliceTwice(l: seq<Entry>, id: OrderId, e: Entry, e': Entry)
    requires HasId(l, id) && e.id == id
    ensures Splice(Splice(l, id, [e]), id, [e']) == Splice(l, id, [e'])
  {
    var k := SpliceShape(l, id, [e]);
    var k0 := SpliceShape(l, id, [e']);
    var l' := Splice(l, id, [e]);
    assert l'[k] == e;
    var k' := SpliceShape(l', id, [e']);
    assert k' == k == k0;
    assert l'[..k] == l[..k] && l'[k + 1..] == l[k + 1..];
  }

  lemma SplicedNonEmpty(v: View, p: Price, id: OrderId, e: Entry)
    requires NonEmpty(v) && p in v && HasId(v[p], id)
    ensures NonEmpty(v[p := Splice(v[p], id, [e])])
  {
    var k := SpliceShape(v[p], id, [e]);
  }

  lemma GiveBack<T>(all: set<T>, used: set<T>, x: T)
    requires x in all
    ensures all - (used - {x}) == (all - used) + {x}
  {}

  /** The order has something left to rest, and its id is still live once it has been matched. */
  predicate RestsOnLiveId(b: Book, o: NewOrder) {
    var opp := o.side.Opposite();
    var m := Consume(o, o.qty, b.On(opp));
    m.left > 0 && !o.isMarket && Live(b.With(opp, m.rest), o.id)
  }

  lemma SubmittedParts(b: Book, o: NewOrder, time: nat)
    ensures var opp := o.side.Opposite(); var m := Consume(o, o.qty, b.On(opp)); var b1 := b.With(opp, m.rest);
      var b2 := if m.left > 0 && !o.isMarket
                then b1.With(o.side, Insert(o.side, b1.On(o.side), Entry(o.id, o.price, m.left))) else b1;
      Submitted(b, o, time) == Outcome(b2, Trades(o, m.fills, time), PublishIfMoved(b, b2))
  {}

  /** Matching brings no id to life: a fresh id never rests on a live one. */
  lemma FreshIdIsSafe(b: Book, o: NewOrder)
    ensures !Live(b, o.id) ==> !RestsOnLiveId(b, o)
  {
    hide Consume;
    var opp := b.On(o.side.Opposite());
    var rest := Consume(o, o.qty, opp).rest;
    RestIsSuffix(o, o.qty, opp);
    if !Live(b, o.id) {
      forall i | 0 <= i < |rest| ensures rest[i].id != o.id {
        assert opp[|opp| - |rest| + i].id == rest[i].id;
      }
      assert !HasId(rest, o.id);
    }
  }
}
