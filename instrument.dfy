/** `Instrument`: one symbol's order book as an object whose fields the
    operations update in place. Each operation is proved against the value
    model of BookSpec: the new state is the spec function of the old one,
    and a snapshot is emitted exactly when the source's `L1Update` test held. */
module OrderBook {
  import opened OrderTypes
  import opened BookSpec

  class Instrument {
    const symbol: string
    /** `bookSides[B].priceLevels` and `bookSides[S].priceLevels`. */
    var bids: map<int, PriceLevel>
    var asks: map<int, PriceLevel>
    var ordersById: map<int, Location>
    /** The cached last-emitted top of book. */
    var L1: L1Datum
    /** Every snapshot passed to the callback, oldest first. */
    ghost var emitted: seq<L1Datum>

    function State(): Book
      reads this`bids, this`asks, this`ordersById
    {
      Book(bids, asks, ordersById)
    }

    /** The book is well formed, and the cached L1 describes its current top. */
    ghost predicate Valid()
      reads this
    {
      State().Valid() && L1Current(State(), L1) && L1.symbol == symbol
    }

    /** `Instrument(sym)`: empty book, L1 with both prices undefined at time 0. */
    constructor (sym: string)
      ensures Valid() && symbol == sym && State() == EmptyBook && emitted == []
      ensures L1 == L1Datum(0, PerSide(UNDEF_PRICE, UNDEF_PRICE), PerSide(0, 0), PerSide(0, 0), sym)
    {
      symbol := sym;
      bids, asks, ordersById := map[], map[], map[];
      L1 := L1Datum(0, PerSide(UNDEF_PRICE, UNDEF_PRICE), PerSide(0, 0), PerSide(0, 0), sym);
      emitted := [];
    }

    /** `getLevelPointer`: `operator[]` on the side's map, which inserts a
        default level when the price is absent. */
    method GetLevelPointer(price: int, side: Side) returns (pl: PriceLevel)
      modifies this
      ensures ordersById == old(ordersById) && L1 == old(L1) && emitted == old(emitted)
      ensures State().Levels(Other(side)) == old(State().Levels(Other(side)))
      ensures price in old(State().Levels(side)) ==>
                pl == old(State().Levels(side))[price] && State().Levels(side) == old(State().Levels(side))
      ensures price !in old(State().Levels(side)) ==>
                pl == EmptyLevel && State().Levels(side) == old(State().Levels(side))[price := EmptyLevel]
    {
      if side == B {
        if price !in bids { bids := bids[price := EmptyLevel]; }
        pl := bids[price];
      } else {
        if price !in asks { asks := asks[price := EmptyLevel]; }
        pl := asks[price];
      }
    }

    /** Writes a level back through the pointer. */
    method PutLevel(side: Side, price: int, pl: PriceLevel)
      modifies this
      ensures ordersById == old(ordersById) && L1 == old(L1) && emitted == old(emitted)
      ensures State() == old(State()).WithLevels(side, old(State().Levels(side))[price := pl])
    {
      if side == B { bids := bids[price := pl]; } else { asks := asks[price := pl]; }
    }

    /** `priceLevels.erase(price)`. */
    method EraseLevel(side: Side, price: int)
      modifies this
      ensures ordersById == old(ordersById) && L1 == old(L1) && emitted == old(emitted)
      ensures State() == old(State()).WithLevels(side, old(State().Levels(side)) - {price})
    {
      if side == B { bids := bids - {price}; } else { asks := asks - {price}; }
    }

    /** `addOrder`: evaluate the emission test, append the order to the level
        at its price, register it, then emit if the test held. */
    method AddOrder(order: Order)
      requires Valid() && order.id !in ordersById
      modifies this
      ensures Valid() && State() == AddSpec(old(State()), order)
      ensures var emit := EmitCondition(old(L1), order.side, order.price);
              L1 == (if emit then Snapshot(State(), order.exchTime, symbol) else old(L1))
              && emitted == old(emitted) + (if emit then [L1] else [])
    {
      ghost var b := State();
      var l1Update := EmitCondition(L1, order.side, order.price);
      InsertOrder(order);
      AddStep(b, L1, order);
      if l1Update {
        CallbackL1(order.exchTime);
      }
    }

    /** The body of `addOrder` between the test and the emission: the level
        at the order's price (created if absent) takes its price, the order
        at its end, its quantity and one more count; the registry maps the
        id to the level. */
    method InsertOrder(order: Order)
      modifies this
      ensures State() == AddSpec(old(State()), order)
      ensures L1 == old(L1) && emitted == old(emitted)
    {
      var pl := GetLevelPointer(order.price, order.side);
      pl := pl.(price := order.price);
      pl := pl.(orders := pl.orders + [order]);
      ordersById := ordersById[order.id := Location(order.side, order.price)];
      pl := pl.(volume := pl.volume + order.qty);
      pl := pl.(count := pl.count + 1);
      PutLevel(order.side, order.price, pl);
    }

    /** `removeOrder(it, time)`: evaluate the emission test, lower the
        level's volume and count, erase the level if it is now empty (else
        the order from it), erase the registry entry, then emit if the test held. */
    method RemoveOrderAt(it: OrderRef, time: nat)
      requires Valid() && State().RefValid(it)
      modifies this
      ensures Valid() && State() == RemoveSpec(old(State()), it)
      ensures var emit := EmitCondition(old(L1), it.side, it.price);
              L1 == (if emit then Snapshot(State(), time, symbol) else old(L1))
              && emitted == old(emitted) + (if emit then [L1] else [])
    {
      ghost var b := State();
      RemoveStep(b, L1, it);
      var order := State().OrderAt(it);
      var l1Update := EmitCondition(L1, order.side, order.price);
      DetachOrder(it);
      if l1Update {
        CallbackL1(time);
      }
    }

    /** The body of `removeOrder` between the test and the emission: the
        level loses the order's quantity and one from its count, is erased
        when the count reaches 0 and otherwise loses the order, and the id
        leaves the registry. The order's side and price are those of its level. */
    method DetachOrder(it: OrderRef)
      requires State().RefValid(it)
      requires State().OrderAt(it).side == it.side && State().OrderAt(it).price == it.price
      modifies this
      ensures State() == RemoveSpec(old(State()), it)
      ensures L1 == old(L1) && emitted == old(emitted)
    {
      var order := State().OrderAt(it);
      var orderId := order.id;
      var pl := GetLevelPointer(order.price, order.side);
      pl := pl.(volume := pl.volume - order.qty);
      pl := pl.(count := pl.count - 1);
      if pl.count == 0 {
        EraseLevel(order.side, order.price);
      } else {
        pl := pl.(orders := RemoveAt(pl.orders, it.index));
        PutLevel(order.side, order.price, pl);
      }
      ordersById := ordersById - {orderId};
    }

    /** `removeOrder(id, time)`: UnknownOrder, with nothing changed, when the
        id is not resident; otherwise the removal of that order. */
    method RemoveOrder(id: int, time: nat) returns (out: Outcome)
      requires Valid()
      modifies this
      ensures Valid()
      ensures out.Fail? <==> id !in old(ordersById)
      ensures out.Fail? ==> out.error == UnknownOrder(id) && unchanged(this)
      ensures out.Pass? ==>
                var it := old(State()).OrderPtr(id).value;
                var emit := EmitCondition(old(L1), it.side, it.price);
                State() == RemoveSpec(old(State()), it)
                && L1 == (if emit then Snapshot(State(), time, symbol) else old(L1))
                && emitted == old(emitted) + (if emit then [L1] else [])
    {
      var ptr := GetOrderPtr(id);
      if ptr.Err? {
        return Fail(ptr.error);
      }
      RemoveOrderAt(ptr.value, time);
      out := Pass;
    }

    /** `executeOrder(it, execQty, time)`: InvalidExecution, with nothing
        changed, when execQty exceeds the order's quantity; a removal when it
        equals it; otherwise the order's quantity and its level's volume fall
        by execQty in place, with the emission test evaluated first. */
    method ExecuteOrderAt(it: OrderRef, execQty: int, time: nat) returns (out: Outcome)
      requires Valid() && State().RefValid(it)
      modifies this
      ensures Valid()
      ensures out.Fail? <==> old(State().OrderAt(it)).qty < execQty
      ensures out.Fail? ==> out.error == InvalidExecution(execQty, old(State().OrderAt(it)).qty) && unchanged(this)
      ensures out.Pass? ==>
                var emit := EmitCondition(old(L1), it.side, it.price);
                State() == ExecuteSpec(old(State()), it, execQty)
                && L1 == (if emit then Snapshot(State(), time, symbol) else old(L1))
                && emitted == old(emitted) + (if emit then [L1] else [])
    {
      ghost var b := State();
      var order := State().OrderAt(it);
      OrderAtLevel(b, it);
      if order.qty < execQty {
        return Fail(InvalidExecution(execQty, order.qty));
      }
      if order.qty == execQty {
        RemoveOrderAt(it, time);
      } else {
        PartialExecuteAt(it, execQty, time);
      }
      out := Pass;
    }

    /** The partial branch of `executeOrder`: evaluate the emission test,
        fill in place, then emit if the test held. */
    method PartialExecuteAt(it: OrderRef, execQty: int, time: nat)
      requires Valid() && State().RefValid(it)
      modifies this
      ensures Valid() && State() == PartialFillSpec(old(State()), it, execQty)
      ensures var emit := EmitCondition(old(L1), it.side, it.price);
              L1 == (if emit then Snapshot(State(), time, symbol) else old(L1))
              && emitted == old(emitted) + (if emit then [L1] else [])
    {
      ghost var b := State();
      PartialFillStep(b, L1, it, execQty);
      var order := State().OrderAt(it);
      var l1Update := EmitCondition(L1, order.side, order.price);
      FillInPlace(it, execQty);
      if l1Update {
        CallbackL1(time);
      }
    }

    /** The partial branch of `executeOrder` between the test and the
        emission: the order's quantity (through the iterator) and its
        level's volume both fall by execQty. */
    method FillInPlace(it: OrderRef, execQty: int)
      requires State().RefValid(it)
      requires State().OrderAt(it).side == it.side && State().OrderAt(it).price == it.price
      modifies this
      ensures State() == PartialFillSpec(old(State()), it, execQty)
      ensures L1 == old(L1) && emitted == old(emitted)
    {
      var order := State().OrderAt(it);
      var pl := GetLevelPointer(order.price, order.side);
      pl := pl.(orders := pl.orders[it.index := order.(qty := order.qty - execQty)]);
      pl := pl.(volume := pl.volume - execQty);
      PutLevel(order.side, order.price, pl);
    }

    /** `executeOrder(id, execQty, time)`: UnknownOrder for an id that is
        not resident, otherwise `executeOrder` on that order's iterator. */
    method ExecuteOrder(id: int, execQty: int, time: nat) returns (out: Outcome)
      requires Valid()
      modifies this
      ensures Valid()
      ensures id !in old(ordersById) ==> out == Fail(UnknownOrder(id)) && unchanged(this)
      ensures id in old(ordersById) ==>
                var it := old(State()).OrderPtr(id).value;
                (out.Fail? <==> old(State().OrderAt(it)).qty < execQty)
                && (out.Fail? ==> out.error == InvalidExecution(execQty, old(State().OrderAt(it)).qty) && unchanged(this))
                && (out.Pass? ==>
                      var emit := EmitCondition(old(L1), it.side, it.price);
                      State() == ExecuteSpec(old(State()), it, execQty)
                      && L1 == (if emit then Snapshot(State(), time, symbol) else old(L1))
                      && emitted == old(emitted) + (if emit then [L1] else []))
    {
      var ptr := GetOrderPtr(id);
      if ptr.Err? {
        return Fail(ptr.error);
      }
      out := ExecuteOrderAt(ptr.value, execQty, time);
    }

    /** `getOrderPtr`: the iterator registered for the id, or UnknownOrder. */
    method GetOrderPtr(id: int) returns (r: Result<OrderRef>)
      requires Valid()
      ensures r == State().OrderPtr(id)
    {
      r := State().OrderPtr(id);
    }

    /** `getOrderById`. */
    method GetOrderById(id: int) returns (r: Result<Order>)
      requires Valid()
      ensures r == State().OrderById(id)
    {
      var ptr := GetOrderPtr(id);
      if ptr.Err? {
        return Err(ptr.error);
      }
      r := Ok(State().OrderAt(ptr.value));
    }

    /** `getLevelByIndex`. */
    method GetLevelByIndex(index: nat, side: Side) returns (r: Result<PriceLevel>)
      ensures r == State().LevelByIndex(index, side)
    {
      r := State().LevelByIndex(index, side);
    }

    /** `getLevelByPrice`. */
    method GetLevelByPrice(price: int, side: Side) returns (r: Result<PriceLevel>)
      ensures r == State().LevelByPrice(price, side)
    {
      r := State().LevelByPrice(price, side);
    }

    /** `callbackL1`: read the rank-0 level of each side (a level with the
        undefined price, volume 0 and count 0 when the side is empty), cache
        the snapshot built from them and hand it to the callback. */
    method CallbackL1(t: nat)
      modifies this`L1, this`emitted
      ensures L1 == Snapshot(State(), t, symbol)
      ensures L1Current(State(), L1) && L1.symbol == symbol
      ensures emitted == old(emitted) + [L1]
    {
      TopLevelIsIndexZero(State(), B);
      TopLevelIsIndexZero(State(), S);
      var bestBid, bestAsk;
      var rb := GetLevelByIndex(0, B);
      if rb.Ok? { bestBid := rb.value; } else { bestBid := PriceLevel(UNDEF_PRICE, 0, 0, []); }
      var ra := GetLevelByIndex(0, S);
      if ra.Ok? { bestAsk := ra.value; } else { bestAsk := PriceLevel(UNDEF_PRICE, 0, 0, []); }
      L1 := L1Datum(t, PerSide(bestBid.price, bestAsk.price), PerSide(bestBid.volume, bestAsk.volume),
                    PerSide(bestBid.count, bestAsk.count), symbol);
      emitted := emitted + [L1];
    }
  }
}
