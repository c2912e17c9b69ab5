/** Value types of the order book: sides, orders, price levels, the side
    comparator and the top-of-book (L1) snapshot. */
module OrderTypes {

  /** Sentinel price of a side that has no level (INT32_MAX). */
  const UNDEF_PRICE: int := 0x7FFF_FFFF

  /** B = 0 (bid, buy), S = 1 (ask, sell). */
  datatype Side = B | S

  /** A resting order; `qty` is its remaining quantity and is the only field
      the book changes. */
  datatype Order = Order(id: int, exchTime: nat, price: int, qty: int, side: Side, symbol: string)

  /** Field-by-field comparison of two orders (`operator==` on Order). */
  function OrderEq(o1: Order, o2: Order): (r: bool)
    ensures r <==> o1 == o2
  {
    !(o1.id != o2.id ||
      o1.exchTime != o2.exchTime ||
      o1.price != o2.price ||
      o1.qty != o2.qty ||
      o1.side != o2.side ||
      o1.symbol != o2.symbol)
  }

  function OrderNe(o1: Order, o2: Order): (r: bool)
    ensures r <==> o1 != o2
  {
    !OrderEq(o1, o2)
  }

  /** All orders resting at one price on one side, in arrival order. */
  datatype PriceLevel = PriceLevel(price: int, volume: int, count: int, orders: seq<Order>)

  /** The default level `PriceLevel{}` that `operator[]` value-initialises. */
  const EmptyLevel: PriceLevel := PriceLevel(0, 0, 0, [])

  /** The iterator walk of `operator==` on PriceLevel: both order lists are
      compared position by position, so the same orders in another order differ. */
  function OrdersEq(s1: seq<Order>, s2: seq<Order>): (r: bool)
    requires |s1| == |s2|
    ensures r <==> s1 == s2
  {
    if s1 == [] then true
    else if OrderNe(s1[0], s2[0]) then false
    else
      var r := OrdersEq(s1[1..], s2[1..]);
      assert s1 == [s1[0]] + s1[1..] && s2 == [s2[0]] + s2[1..];
      r
  }

  /** `operator==` on PriceLevel: the aggregates, then the size, then the orders in position. */
  function LevelEq(pl1: PriceLevel, pl2: PriceLevel): (r: bool)
    ensures r <==> pl1 == pl2
  {
    if pl1.price != pl2.price || pl1.volume != pl2.volume || pl1.count != pl2.count then false
    else if |pl1.orders| != |pl2.orders| then false
    else OrdersEq(pl1.orders, pl2.orders)
  }

  function LevelNe(pl1: PriceLevel, pl2: PriceLevel): (r: bool)
    ensures r <==> pl1 != pl2
  {
    !LevelEq(pl1, pl2)
  }

  /** Two levels holding the same orders in swapped positions are not equal. */
  lemma LevelEqIsPositional(a: Order, b: Order, price: int, volume: int)
    requires a != b
    ensures LevelNe(PriceLevel(price, volume, 2, [a, b]), PriceLevel(price, volume, 2, [b, a]))
  {
    assert [a, b][0] != [b, a][0];
  }

  /** `sideBookComp<int>`: the `do_greater` flag is initialised from the side
      (B = 0 gives false, S = 1 gives true) and greater-than is used when the
      flag equals B, i.e. when it is false. */
  datatype SideBookComp = SideBookComp(doGreater: bool) {
    function Apply(x: int, y: int): bool {
      if doGreater == false then x > y else x < y
    }
  }

  function MakeComp(dir: Side): SideBookComp {
    SideBookComp(dir == S)
  }

  /** x is strictly better than y on `side`: higher for bids, lower for asks. */
  function Better(side: Side, x: int, y: int): (r: bool)
    ensures side == B ==> (r <==> x > y)
    ensures side == S ==> (r <==> x < y)
  {
    MakeComp(side).Apply(x, y)
  }

  /** The comparator is a strict total order on prices, on either side. */
  lemma BetterIsStrictTotalOrder(side: Side, x: int, y: int, z: int)
    ensures !Better(side, x, x)
    ensures Better(side, x, y) ==> !Better(side, y, x)
    ensures Better(side, x, y) && Better(side, y, z) ==> Better(side, x, z)
    ensures x != y ==> Better(side, x, y) || Better(side, y, x)
  {
  }

  /** A pair of per-side values, indexed by Side like the source's `int[2]` arrays. */
  datatype PerSide = PerSide(bid: int, ask: int) {
    function Of(side: Side): int {
      if side == B then bid else ask
    }
  }

  /** One top-of-book snapshot. */
  datatype L1Datum = L1Datum(exchTime: nat, price: PerSide, volume: PerSide, count: PerSide, symbol: string)

  /** The errors the book raises as `std::invalid_argument`. */
  datatype BookError =
    | UnknownOrder(id: int)
    | InvalidExecution(execQty: int, qty: int)
    | NoLevelAtIndex(index: nat, side: Side)
    | NoLevelAtPrice(price: int, side: Side)

  datatype Result<T> = Ok(value: T) | Err(error: BookError)

  datatype Outcome = Pass | Fail(error: BookError)
}
