/** The order book as a value: one sequence of resting orders per side in price-time order,
    and the three operations of OrderBook as functions on it. The heap implementation in
    OrderBook.dfy is proved to compute exactly these functions. */
module Matching {
  import opened Types

  /** Orders prices so that a smaller key is a better price for an order resting on side `s`:
      the comparators of the two `std::map`s. */
  function Key(s: Side, p: Price): int {
    if s == BUY then -p else p
  }

  /** Whether an incoming order is willing to trade at a resting price. */
  predicate Reaches(o: NewOrder, p: Price) {
    o.isMarket || if o.side == BUY then p <= o.price else p >= o.price
  }

  datatype Book = Book(bids: seq<Entry>, asks: seq<Entry>) {
    function On(s: Side): seq<Entry> {
      if s == BUY then bids else asks
    }

    function With(s: Side, l: seq<Entry>): Book {
      if s == BUY then this.(bids := l) else this.(asks := l)
    }
  }

  const EMPTY_BOOK := Book([], [])

  predicate HasId(l: seq<Entry>, id: OrderId) {
    exists i :: 0 <= i < |l| && l[i].id == id
  }

  predicate Live(b: Book, id: OrderId) {
    HasId(b.bids, id) || HasId(b.asks, id)
  }

  predicate Sorted(s: Side, l: seq<Entry>) {
    forall i, j :: 0 <= i < j < |l| ==> Key(s, l[i].price) <= Key(s, l[j].price)
  }

  predicate UniqueIds(l: seq<Entry>) {
    forall i, j :: 0 <= i < j < |l| ==> l[i].id != l[j].id
  }

  predicate Wf(b: Book) {
    && Sorted(BUY, b.bids) && Sorted(SELL, b.asks)
    && UniqueIds(b.bids) && UniqueIds(b.asks)
    && forall i, j :: 0 <= i < |b.bids| && 0 <= j < |b.asks| ==> b.bids[i].id != b.asks[j].id
  }

  function Volume(l: seq<Entry>): nat {
    if l == [] then 0 else l[0].qty + Volume(l[1..])
  }

  /** Quantity resting (or filled, when `l` is a list of fills) under one id. */
  function QtyOf(l: seq<Entry>, id: OrderId): nat {
    if l == [] then 0 else (if l[0].id == id then l[0].qty else 0) + QtyOf(l[1..], id)
  }

  function VolumeAt(l: seq<Entry>, p: Price): nat {
    if l == [] then 0 else (if l[0].price == p then l[0].qty else 0) + VolumeAt(l[1..], p)
  }

  // ---------- matching ----------

  /** `left` of the taker is unfilled, `rest` stays on the opposite side, and `fills` are the
      resting orders traded against, in order, each with the quantity it gave up. */
  datatype Match = Match(left: nat, rest: seq<Entry>, fills: seq<Entry>)

  /** Greedy consumption from the front. */
  function Consume(o: NewOrder, q: nat, opp: seq<Entry>): Match {
    if q == 0 || opp == [] || !Reaches(o, opp[0].price) then
      Match(q, opp, [])
    else if q < opp[0].qty then
      Match(0, [opp[0].(qty := opp[0].qty - q)] + opp[1..], [opp[0].(qty := q)])
    else
      var m := Consume(o, q - opp[0].qty, opp[1..]);
      m.(fills := [opp[0]] + m.fills)
  }

  function TradeOf(o: NewOrder, e: Entry, time: nat): Trade {
    if o.side == BUY then Trade(o.id, e.id, e.price, e.qty, time)
    else Trade(e.id, o.id, e.price, e.qty, time)
  }

  function Trades(o: NewOrder, fills: seq<Entry>, time: nat): (ts: seq<Trade>)
    ensures |ts| == |fills|
    ensures forall i :: 0 <= i < |ts| ==> ts[i] == TradeOf(o, fills[i], time)
  {
    seq(|fills|, i requires 0 <= i < |fills| => TradeOf(o, fills[i], time))
  }

  /** Price-time insertion: behind every order whose price is at least as good. */
  function Insert(s: Side, l: seq<Entry>, e: Entry): seq<Entry> {
    if l == [] || Key(s, e.price) < Key(s, l[0].price) then [e] + l
    else [l[0]] + Insert(s, l[1..], e)
  }

  /** The first entry with this id is replaced by `r`; nothing else moves. */
  function Splice(l: seq<Entry>, id: OrderId, r: seq<Entry>): seq<Entry> {
    if l == [] then []
    else if l[0].id == id then r + l[1..]
    else [l[0]] + Splice(l[1..], id, r)
  }

  function Lookup(l: seq<Entry>, id: OrderId): (e: Option<Entry>)
    ensures e.Some? <==> HasId(l, id)
    ensures e.Some? ==> e.value.id == id && e.value in l
  {
    if l == [] then None
    else if l[0].id == id then Some(l[0])
    else
      assert forall i :: 0 < i < |l| ==> l[i] == l[1..][i - 1];
      Lookup(l[1..], id)
  }

  // ---------- the three operations ----------

  datatype Outcome = Outcome(book: Book, trades: seq<Trade>, published: seq<Bbo>)

  function BestPrice(l: seq<Entry>): Price {
    if l == [] then 0 else l[0].price
  }

  /** The running `totalVolume` of the best level: a 32-bit sum. */
  function TopVolume(l: seq<Entry>): Quantity {
    if l == [] then 0 else Wrap32(VolumeAt(l, l[0].price))
  }

  function TopOfBook(b: Book): Bbo {
    Bbo(BestPrice(b.bids), BestPrice(b.asks), TopVolume(b.bids), TopVolume(b.asks))
  }

  /** The message shows the book, field by field: price and volume of each side at its first order, the
      volume modulo 2^32, and 0 and 0 for an empty side. */
  predicate Shows(m: Bbo, b: Book) {
    && (if b.bids == [] then m.bidPrice == 0 && m.bidQty == 0
        else m.bidPrice == b.bids[0].price && m.bidQty == VolumeAt(b.bids, b.bids[0].price) % TWO32)
    && (if b.asks == [] then m.askPrice == 0 && m.askQty == 0
        else m.askPrice == b.asks[0].price && m.askQty == VolumeAt(b.asks, b.asks[0].price) % TWO32)
  }

  predicate Moved(before: Book, after: Book) {
    BestPrice(before.bids) != BestPrice(after.bids) || BestPrice(before.asks) != BestPrice(after.asks)
  }

  function PublishIfMoved(before: Book, after: Book): seq<Bbo> {
    if Moved(before, after) then [TopOfBook(after)] else []
  }

  function SubmittedBook(b: Book, o: NewOrder): Book {
    var m := Consume(o, o.qty, b.On(o.side.Opposite()));
    var b' := b.With(o.side.Opposite(), m.rest);
    if m.left > 0 && !o.isMarket then
      b'.With(o.side, Insert(o.side, b'.On(o.side), Entry(o.id, o.price, m.left)))
    else b'
  }

  function SubmittedTrades(b: Book, o: NewOrder, time: nat): seq<Trade> {
    Trades(o, Consume(o, o.qty, b.On(o.side.Opposite())).fills, time)
  }

  function Submitted(b: Book, o: NewOrder, time: nat): Outcome {
    var b' := SubmittedBook(b, o);
    Outcome(b', SubmittedTrades(b, o, time), PublishIfMoved(b, b'))
  }

  /** The side an id rests on (meaningful when it is live). */
  function SideOf(b: Book, id: OrderId): Side {
    if HasId(b.bids, id) then BUY else SELL
  }

  function CancelledBook(b: Book, id: OrderId): Book {
    var s := SideOf(b, id);
    b.With(s, Splice(b.On(s), id, []))
  }

  function Cancelled(b: Book, id: OrderId): Outcome {
    if !Live(b, id) then Outcome(b, [], [])
    else var b' := CancelledBook(b, id); Outcome(b', [], [TopOfBook(b')])
  }

  /** Same price and a smaller quantity keeps the place in the queue; anything else goes to the
      back of the new level, without being matched. */
  function ModifiedBook(b: Book, origId: OrderId, newId: OrderId, newPrice: Price, newQty: nat): Book
    requires Live(b, origId)
  {
    var s := SideOf(b, origId);
    var resting := Lookup(b.On(s), origId).value;
    var e := Entry(newId, newPrice, newQty);
    if newPrice == resting.price && newQty < resting.qty then b.With(s, Splice(b.On(s), origId, [e]))
    else b.With(s, Insert(s, Splice(b.On(s), origId, []), e))
  }

  function Modified(b: Book, origId: OrderId, newId: OrderId, newPrice: Price, newQty: nat): Outcome {
    if !Live(b, origId) then Outcome(b, [], [])
    else var b' := ModifiedBook(b, origId, newId, newPrice, newQty); Outcome(b', [], PublishIfMoved(b, b'))
  }

  datatype Op =
    | Submit(order: NewOrder, time: nat)
    | Cancel(id: OrderId)
    | Modify(origId: OrderId, newId: OrderId, newPrice: Price, newQty: nat)

  function Step(b: Book, op: Op): Outcome {
    match op
    case Submit(o, time) => Submitted(b, o, time)
    case Cancel(id) => Cancelled(b, id)
    case Modify(orig, new_, p, q) => Modified(b, orig, new_, p, q)
  }

  /** What the engine relies on without checking: an id that enters the book is not live there. */
  predicate Admissible(b: Book, op: Op) {
    match op
    case Submit(o, _) => !Live(b, o.id)
    case Cancel(_) => true
    case Modify(orig, new_, _, _) => new_ == orig || !Live(b, new_)
  }

  function Run(b: Book, ops: seq<Op>): Outcome
    decreases |ops|
  {
    if ops == [] then Outcome(b, [], [])
    else
      var first := Step(b, ops[0]);
      var later := Run(first.book, ops[1..]);
      Outcome(later.book, first.trades + later.trades, first.published + later.published)
  }

  predicate AdmissibleRun(b: Book, ops: seq<Op>)
    decreases |ops|
  {
    ops == [] || (Admissible(b, ops[0]) && AdmissibleRun(Step(b, ops[0]).book, ops[1..]))
  }
}
