/** Values shared by every component: sides, trades, resting entries and the fixed-width
    integers of src/core/types.h. */
module Types {
  const TWO32: int := 0x1_0000_0000
  const TWO64: int := 0x1_0000_0000_0000_0000

  /** A price in units of 1/10000 of a dollar (int64_t in the source; never added to inside the book). */
  type Price = int
  type OrderId = nat
  /** uint32_t */
  type Quantity = q: int | 0 <= q < TWO32

  datatype Option<+T> = None | Some(value: T)

  datatype Side = BUY | SELL {
    function Opposite(): Side {
      if this == BUY then SELL else BUY
    }
  }

  datatype Trade = Trade(buyId: OrderId, sellId: OrderId, price: Price, qty: nat, time: nat)

  /** An order as it arrives, before any of it has traded. */
  datatype NewOrder = NewOrder(id: OrderId, price: Price, qty: nat, side: Side, isMarket: bool)

  /** An order resting on the book; its side is the list it is in. */
  datatype Entry = Entry(id: OrderId, price: Price, qty: nat)

  /** Top of book, as it is handed to the market-data ring. */
  datatype Bbo = Bbo(bidPrice: Price, askPrice: Price, bidQty: Quantity, askQty: Quantity)

  function Wrap32(x: int): Quantity { x % TWO32 }

  /** Wrapping early or late makes no difference to a running sum. */
  lemma WrapSum(x: int, d: int)
    ensures Wrap32(Wrap32(x) + d) == Wrap32(x + d)
  {}

  function Min(x: int, y: int): int { if x <= y then x else y }

  function Abs(x: int): int { if x < 0 then -x else x }

  /** C++ integer division: the quotient is truncated toward zero. */
  function TruncDiv(x: int, d: int): int
    requires d > 0
  {
    if x >= 0 then x / d else -((-x) / d)
  }

  lemma Assoc<T>(a: seq<T>, b: seq<T>, c: seq<T>)
    ensures a + b + c == a + (b + c)
  {}
}
