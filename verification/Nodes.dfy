/** The heap objects under the book: pooled order nodes, the intrusive list of one price level,
    and the pool that owns every node. */
module Nodes {
  import opened Types
  import opened Matching
  import opened MatchingLemmas

  class Order {
    var id: OrderId
    var price: Price
    var quantity: Quantity
    var side: Side
    var isMarket: bool
    var next: Order?
    var prev: Order?

    constructor (id: OrderId, price: Price, quantity: Quantity, side: Side, isMarket: bool)
      ensures this.id == id && this.price == price && this.quantity == quantity
      ensures this.side == side && this.isMarket == isMarket
      ensures next == null && prev == null
    {
      this.id, this.price, this.quantity, this.side, this.isMarket := id, price, quantity, side, isMarket;
      next, prev := null, null;
    }

    function ToEntry(): Entry
      reads this`id, this`price, this`quantity
    {
      Entry(id, price, quantity)
    }

    /** The order as it arrives at the book. */
    function Incoming(): NewOrder
      reads this
    {
      NewOrder(id, price, quantity, side, isMarket)
    }
  }

  /** One price level: a doubly linked FIFO threaded through the orders themselves, with its
      running volume. `nodes` is the list from head to tail and `queue` what it stands for; `side`
      is the map the level is in. */
  class PriceLevel {
    ghost const side: Side
    var price: Price
    var head: Order?
    var tail: Order?
    var totalVolume: Quantity
    ghost var nodes: seq<Order>
    ghost var queue: seq<Entry>

    constructor (price: Price, ghost side: Side)
      ensures this.price == price && this.side == side && nodes == [] && queue == [] && Valid()
    {
      this.price, head, tail, totalVolume := price, null, null, 0;
      nodes, queue := [], [];
      this.side := side;
    }

    ghost function NodeSet(): set<Order>
      reads this`nodes
    {
      set o | o in nodes
    }

    /** A proper acyclic doubly linked list: no node twice, and every pointer as `nodes` says. */
    ghost predicate Linked()
      reads this`head, this`tail, this`nodes, nodes`next, nodes`prev
    {
      && head == (if nodes == [] then null else nodes[0])
      && tail == (if nodes == [] then null else nodes[|nodes| - 1])
      && (forall i {:trigger nodes[i].next} :: 0 <= i < |nodes| ==>
            nodes[i].next == if i == |nodes| - 1 then null else nodes[i + 1])
      && (forall i {:trigger nodes[i].prev} :: 0 <= i < |nodes| ==>
            nodes[i].prev == if i == 0 then null else nodes[i - 1])
      && (forall i, j :: 0 <= i < j < |nodes| ==> nodes[i] != nodes[j])
    }

    ghost predicate Carries(o: Order, e: Entry)
      reads this`price, o`id, o`price, o`quantity, o`side
    {
      o.ToEntry() == e && o.price == price && o.side == side
    }

    /** The nodes carry the queue, all of it of this side and price, and the running volume is the
        32-bit sum of its quantities. */
    ghost predicate Valid()
      reads this, nodes
    {
      && Linked()
      && |queue| == |nodes|
      && (forall i :: 0 <= i < |nodes| ==> Carries(nodes[i], queue[i]))
      && totalVolume == Wrap32(Volume(queue))
    }

    /** The head carries the front of the queue. */
    lemma HeadOfQueue()
      requires Valid()
      ensures head == null <==> queue == []
      ensures head != null ==> head in nodes && queue[0] == head.ToEntry() && queue[0].price == price
    {
      assert nodes != [] ==> Carries(nodes[0], queue[0]);
    }

    lemma NodesDistinct()
      requires Valid()
      ensures forall i, j :: 0 <= i < j < |nodes| ==> nodes[i] != nodes[j]
    {}

    /** The pointer writes of `appendOrder`. */
    method LinkLast(order: Order)
      requires Linked() && order !in nodes && order.next == null && order.prev == null
      modifies this`head, this`tail, this`nodes, nodes`next, order`prev
      ensures Linked() && nodes == old(nodes) + [order]
    {
      if head == null {
        head := order;
        tail := order;
      } else {
        tail.next := order;
        order.prev := tail;
        tail := order;
      }
      nodes := nodes + [order];
    }

    /** The pointer writes of `removeOrder`. */
    method Unlink(order: Order, ghost k: nat)
      requires Linked() && k < |nodes| && nodes[k] == order
      modifies this`head, this`tail, this`nodes, nodes`next, nodes`prev
      ensures Linked() && order.next == null && order.prev == null && order !in nodes
      ensures nodes == old(nodes)[..k] + old(nodes)[k + 1..]
      ensures old(head) == order ==> head == old(order.next)
    {
      ghost var ns := nodes;
      assert order.prev == (if k == 0 then null else ns[k - 1]);
      assert order.next == (if k == |ns| - 1 then null else ns[k + 1]);
      if order.prev != null {
        order.prev.next := order.next;
      } else {
        head := order.next;
      }
      if order.next != null {
        order.next.prev := order.prev;
      } else {
        tail := order.prev;
      }
      order.next := null;
      order.prev := null;
      nodes := nodes[..k] + nodes[k + 1..];
      assert forall i :: 0 <= i < k ==> nodes[i] == ns[i];
      assert forall i :: k <= i < |nodes| ==> nodes[i] == ns[i + 1];
    }

    method AppendOrder(order: Order)
      requires Valid() && order !in nodes && order.next == null && order.prev == null
      requires order.price == price && order.side == side
      modifies this`head, this`tail, this`totalVolume, this`nodes, this`queue, nodes`next, order`prev
      ensures Valid() && nodes == old(nodes) + [order] && queue == old(queue) + [order.ToEntry()]
    {
      hide Linked, Volume;
      VolumeConcat(queue, [order.ToEntry()]);
      VolumeOne(order.ToEntry());
      LinkLast(order);
      totalVolume := Wrap32(totalVolume + order.quantity);
      queue := queue + [order.ToEntry()];
    }

    method RemoveOrder(order: Order, ghost k: nat)
      requires Valid() && k < |nodes| && nodes[k] == order
      modifies this`head, this`tail, this`totalVolume, this`nodes, this`queue, nodes`next, nodes`prev
      ensures Valid() && order.next == null && order.prev == null && order !in nodes
      ensures nodes == old(nodes)[..k] + old(nodes)[k + 1..]
      ensures queue == old(queue)[..k] + old(queue)[k + 1..]
      ensures old(head) == order ==> head == old(order.next)
    {
      hide Linked, Volume;
      ghost var ns, qs := nodes, queue;
      VolumeWithout(queue, k);
      Unlink(order, k);
      totalVolume := Wrap32(totalVolume - order.quantity);
      queue := queue[..k] + queue[k + 1..];
      forall i | 0 <= i < |nodes| ensures Carries(nodes[i], queue[i]) {
        var j := if i < k then i else i + 1;
        assert nodes[i] == ns[j] && queue[i] == qs[j] && old(Carries(ns[j], qs[j]));
      }
      assert Linked();
      WrapSum(Volume(qs), 0 - order.quantity);
    }

    /** Quantity and volume come down together; the order keeps its place. */
    method Reduce(order: Order, ghost k: nat, newQty: Quantity)
      requires Valid() && k < |nodes| && nodes[k] == order && newQty <= order.quantity
      modifies this`totalVolume, this`queue, order`quantity
      ensures Valid() && order.quantity == newQty
      ensures queue == old(queue)[k := order.ToEntry()]
    {
      hide Linked, Volume;
      NodesDistinct();
      VolumeUpdate(queue, k, newQty);
      totalVolume := Wrap32(totalVolume - (order.quantity - newQty));
      order.quantity := newQty;
      queue := queue[k := order.ToEntry()];
    }

    /** A new id in the same place. */
    method Rename(order: Order, ghost k: nat, newId: OrderId)
      requires Valid() && k < |nodes| && nodes[k] == order
      modifies this`queue, order`id
      ensures Valid() && order.id == newId
      ensures queue == old(queue)[k := order.ToEntry()]
    {
      VolumeSameQty(queue, k, Entry(newId, order.price, order.quantity));
      order.id := newId;
      queue := queue[k := order.ToEntry()];
      assert forall i :: 0 <= i < |nodes| && i != k ==> nodes[i] != order;
    }
  }

  lemma {:induction false} VolumeSameQty(l: seq<Entry>, k: nat, e: Entry)
    requires k < |l| && e.qty == l[k].qty
    ensures Volume(l[k := e]) == Volume(l)
  {
    if k > 0 {
      VolumeSameQty(l[1..], k - 1, e);
      assert l[k := e][1..] == l[1..][k - 1 := e];
    }
  }

  lemma VolumeOne(e: Entry)
    ensures Volume([e]) == e.qty
  {
    assert [e][1..] == [];
  }

  lemma VolumeWithout(l: seq<Entry>, k: nat)
    requires k < |l|
    ensures Volume(l[..k] + l[k + 1..]) == Volume(l) - l[k].qty
  {
    hide Volume;
    assert l == l[..k] + [l[k]] + l[k + 1..];
    VolumeConcat(l[..k] + [l[k]], l[k + 1..]);
    VolumeConcat(l[..k], [l[k]]);
    VolumeConcat(l[..k], l[k + 1..]);
    VolumeOne(l[k]);
  }

  lemma VolumeUpdate(l: seq<Entry>, k: nat, q: nat)
    requires k < |l|
    ensures Volume(l[k := l[k].(qty := q)]) == Volume(l) - l[k].qty + q
  {
    var l' := l[k := l[k].(qty := q)];
    VolumeWithout(l, k);
    VolumeWithout(l', k);
    assert l'[..k] + l'[k + 1..] == l[..k] + l[k + 1..];
  }

  /** Owner of every node: a node is free or handed out, and never free twice. */
  class OrderPool {
    var freeList: seq<Order>
    var allAllocated: seq<Order>

    ghost predicate Valid()
      reads this
    {
      && (forall i, j :: 0 <= i < j < |freeList| ==> freeList[i] != freeList[j])
      && (forall i, j :: 0 <= i < j < |allAllocated| ==> allAllocated[i] != allAllocated[j])
      && (forall o :: o in freeList ==> o in allAllocated)
    }

    ghost function Nodes(): set<Order>
      reads this`allAllocated
    {
      set o | o in allAllocated
    }

    /** Nodes that have been acquired and not released. */
    ghost function HandedOut(): set<Order>
      reads this
    {
      Nodes() - (set o | o in freeList)
    }

    constructor (poolSize: nat)
      ensures Valid() && fresh(allAllocated) && HandedOut() == {}
      ensures |allAllocated| == |freeList| == poolSize
    {
      freeList, allAllocated := [], [];
      new;
      for i := 0 to poolSize
        invariant freeList == allAllocated && |freeList| == i && Valid()
        invariant fresh(allAllocated)
      {
        var o := new Order(0, 0, 0, BUY, false);
        freeList := freeList + [o];
        allAllocated := allAllocated + [o];
      }
    }

    method Acquire(id: OrderId, p: Price, q: Quantity, s: Side, m: bool) returns (order: Order)
      requires Valid()
      modifies this, freeList
      ensures Valid()
      ensures order.Incoming() == NewOrder(id, p, q, s, m) && order.next == null && order.prev == null
      ensures HandedOut() == old(HandedOut()) + {order} && order !in old(HandedOut())
      ensures old(freeList) != [] ==> old(freeList) == freeList + [order] && allAllocated == old(allAllocated)
      ensures old(freeList) == [] ==>
                freeList == [] && fresh(order) && allAllocated == old(allAllocated) + [order]
    {
      if freeList == [] {
        order := new Order(id, p, q, s, m);
        allAllocated := allAllocated + [order];
        return;
      }
      order := freeList[|freeList| - 1];
      freeList := freeList[..|freeList| - 1];
      order.id, order.price, order.quantity, order.side, order.isMarket := id, p, q, s, m;
      order.next, order.prev := null, null;
    }

    method Release(order: Order)
      requires Valid() && order in HandedOut()
      modifies this`freeList, order`next, order`prev
      ensures Valid() && freeList == old(freeList) + [order]
      ensures HandedOut() == old(HandedOut()) - {order}
      ensures order.next == null && order.prev == null
    {
      order.next := null;
      order.prev := null;
      freeList := freeList + [order];
    }
  }
}
