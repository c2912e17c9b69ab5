# OrderBook core in Dafny

This project models the engine of the OrderBook library (`lib.cpp`): one
`Instrument` per traded symbol keeps two sides of price levels (bids best-first
descending, asks best-first ascending), a registry from order id to the order's
place in its level, and a cached top-of-book snapshot (`L1Datum`). Adding,
cancelling and executing orders update these in place. Each of the three
operations first evaluates the `L1Update` test against the cached snapshot
(lib.cpp:292, 309, 340). The test holds when the order's side has no cached
price (`UNDEF_PRICE`), or the order's price equals the cached price, or is
strictly better. When it held, the instrument builds a new snapshot after the
mutation and hands it to a callback. The library also holds a
fixed-capacity circular `RingBuffer<T>` that overwrites its oldest element
when full.

Modules:

- `OrderTypes` (`order_types.dfy`): sides, orders, price levels, their
  field-wise `==`/`!=`, the side comparator `sideBookComp`, the `L1Datum`
  snapshot, and the errors the library throws as `std::invalid_argument`.
- `PriceIndex` (`price_index.dfy`): the iteration order of a side's
  `std::map<int, PriceLevel, sideBookComp<int>>`. The best price is the first
  key, and the k-th key is the price with exactly k better prices.
- `BookSpec` (`book_spec.dfy`): the instrument's state as a value (`Book`).
  It holds its queries, its invariant, the mutations as functions (`AddSpec`,
  `RemoveSpec`, `PartialFillSpec`, `ExecuteSpec`), the snapshot
  (`Snapshot`, `EmitCondition`), and the proofs that the mutations keep the
  invariant and have the promised effects.
- `OrderBook` (`instrument.dfy`): class `Instrument`, whose fields the methods
  update step by step as the source does. Each method is proved against the
  `BookSpec` function of the old state. The callback is a ghost log
  `emitted` of the snapshots passed to it.
- `RingBuffers` (`ring_buffer.dfy`): class `RingBuffer<T>` over an array,
  proved against a pure bounded FIFO (`Push`, `PushAll`, `Last`).

The book invariant (`Book.Valid`) has these parts:

- Each level's volume is the sum of its orders' remaining quantities.
- Its count is the number of its orders, and no level is empty.
- Every order rests at its level's price and side, and ids within a level are
  distinct.
- Every resting order is registered at its level, and every registered id
  rests where the registry says.

`Instrument.Valid` adds that the cached L1 always equals the snapshot of the
current book.

Two points of the source to note:

- `getOrderById` reports a missing id with the same `UnknownOrder` error as
  cancel and execute (lib.cpp:356-358, 397-400).
- The ring buffer's read cursor has no initialiser (lib.cpp:252, see
  Findings). The model starts it at 0 so that reads return the adds in order.

The query methods `GetOrderPtr`, `GetOrderById`, `GetLevelByIndex` and
`GetLevelByPrice` of `Instrument` delegate to the `Book` queries of the same
name. Their promises are those functions' contracts and the lemmas about them
(`LevelByIndexRank`, `NotResidentNotReported`).

## Model

| member | source | states |
|---|---|---|
| OrderTypes.OrderEq | lib.cpp:51-61 | true exactly when the two orders agree on all six fields, i.e. they are the same order value |
| OrderTypes.OrderNe | lib.cpp:63-65 | true exactly when the orders differ |
| OrderTypes.OrdersEq | lib.cpp:77-87 | the position-by-position walk over two equally long order lists is true exactly when the lists are equal |
| OrderTypes.LevelEq | lib.cpp:75-88 | level equality (aggregates, then size, then orders in position) is true exactly when the levels are equal |
| OrderTypes.LevelNe | lib.cpp:90-92 | true exactly when the levels differ |
| OrderTypes.LevelEqIsPositional | lib.cpp:78-86 | two levels with the same two distinct orders in swapped positions compare unequal |
| OrderTypes.SideBookComp.Apply | lib.cpp:137-139 | the comparator's call: greater-than when the `do_greater` flag equals B (false), less-than otherwise; its meaning per side is `Better` and `BetterIsStrictTotalOrder` |
| OrderTypes.MakeComp | lib.cpp:136-149 | the comparator built from a side stores `do_greater` as the side's value (B = false, S = true); used through `Better` |
| OrderTypes.Better | lib.cpp:134-141 | the comparator built from B is "greater than", the one built from S is "less than" |
| OrderTypes.BetterIsStrictTotalOrder | lib.cpp:134-147 | on either side the comparator is irreflexive, asymmetric, transitive and total on distinct prices, so each side map has one key order |
| PriceIndex.BestExists | lib.cpp:143-150 | a side with at least one price has a price beating all others |
| PriceIndex.BestUnique | lib.cpp:143-150 | that best price is unique |
| PriceIndex.BestPrice | lib.cpp:360-364 | the first key of a non-empty side beats every other key |
| PriceIndex.BestAfterInsert | lib.cpp:292-296 | a price strictly better than the side's best, or on an empty side, is the best once its level is inserted |
| PriceIndex.Ranked | lib.cpp:360-364 | iteration visits as many prices as the side holds, each of them resident |
| PriceIndex.RankedRank | lib.cpp:360-364 | the index-th price visited has exactly index better resident prices |
| PriceIndex.RankedSorted | lib.cpp:147 | iteration is strictly best-first: an earlier price beats every later one |
| PriceIndex.RankGrows | lib.cpp:147 | a better resident price is visited before a worse one |
| PriceIndex.RankInjective | lib.cpp:360-364 | distinct resident prices are visited at distinct indexes |
| PriceIndex.BetterThanRemoveBest | lib.cpp:360-364 | dropping the best price moves every other price one index earlier |
| BookSpec.Book.WithLevels | lib.cpp:386-389 | replacing one side's map leaves the other side and the registry as they were |
| BookSpec.Book.OrderPtr | lib.cpp:397-401 | an iterator exactly when the id is registered, pointing at an order with that id in the registered level; otherwise UnknownOrder(id) |
| BookSpec.Book.OrderById | lib.cpp:356-358 | the order with that id, resting in its registered level, exactly when the id is registered; otherwise UnknownOrder(id) |
| BookSpec.Book.LevelByIndex | lib.cpp:360-367 | a level exactly when index < number of levels on the side; otherwise NoLevelAtIndex(index, side) |
| BookSpec.Book.LevelByIndexRank | lib.cpp:360-364 | the level at an index is a resident level with exactly index better prices; index 0 is the best |
| BookSpec.Book.LevelByPrice | lib.cpp:369-373 | the resident level at that price exactly when there is one (carrying that price and a count equal to its non-zero order count); otherwise NoLevelAtPrice |
| BookSpec.SumQty | lib.cpp:67-73 | the sum of the remaining quantities of a level's orders, which the level invariant `LevelValid` equates with `volume`; its behaviour under append, erase and update is `SumQtyConcat`, `SumQtyRemove` and `SumQtyUpdate` |
| BookSpec.SumQtyConcat | lib.cpp:296-297 | the quantity of two order lists joined is the sum of their quantities |
| BookSpec.SumQtyRemove | lib.cpp:312-317 | erasing one order lowers the level's total quantity by exactly that order's quantity |
| BookSpec.SumQtyUpdate | lib.cpp:341-342 | changing one order's quantity changes the total by the difference |
| BookSpec.RemoveAt | lib.cpp:317 | `list::erase` keeps the orders before and after the erased one in order |
| BookSpec.FindIdFirst | lib.cpp:397-400 | no order before the position found has the id |
| BookSpec.FindIdFound | lib.cpp:397-400 | an id present at position i is found at or before i |
| BookSpec.FindIdPrefix | lib.cpp:397-400 | appending orders after a found id does not move where it is found |
| BookSpec.FindId | lib.cpp:397-400 | the position found holds an order with the id, or is past the end; `FindIdFirst` proves no earlier order has the id, `FindIdFound` that a present id is found, `FindIdPrefix` that appending does not move it |
| BookSpec.AddSpec | lib.cpp:291-299 | the book after `addOrder`: the order appended to the level at its price (a default level when absent) with its price set, volume + qty and count + 1, and the id registered there; its promises are `AddValid`, `AddLevelEffect` and `AddRegistryEffect` |
| BookSpec.RemoveSpec | lib.cpp:306-320 | the book after `removeOrder(it)`: volume - qty and count - 1, the level erased when the count reaches 0 and otherwise the order erased from it, and the id unregistered; its promises are `RemoveValid`, `RemoveLevelEffect` and `RemoveRegistryEffect` |
| BookSpec.PartialFillSpec | lib.cpp:339-342 | the book after the partial branch of `executeOrder`: the order's qty and its level's volume fall by execQty in place; its promises are `PartialFillValid` and `PartialFillEffect` |
| BookSpec.ExecuteSpec | lib.cpp:335-349 | the book after `executeOrder` once execQty <= qty: a removal when equal, a partial fill otherwise; its promise is `ExecuteValid` |
| BookSpec.TopLevel | lib.cpp:405-415 | the level `callbackL1` reads for a side: the level at the best price, or `{UNDEF_PRICE}` with volume and count 0 on an empty side; `TopLevelIsIndexZero` proves it is `getLevelByIndex(0, side)` |
| BookSpec.Snapshot | lib.cpp:416-425 | the L1Datum `callbackL1(t)` builds from both sides' top levels, the time and the symbol; its content is stated by `SnapshotContent` |
| BookSpec.EmitCondition | lib.cpp:292 | the `L1Update` test (the same test at lines 309 and 340) on the cached L1: the side's cached price is UNDEF_PRICE, equals the price, or the price is strictly better; its meaning is `EmitConditionMeaning` |
| BookSpec.OrderAtLevel | lib.cpp:306-310 | in a valid book, the order an iterator points at has its level's side and price |
| BookSpec.TopLevelIsIndexZero | lib.cpp:405-415 | the level used for the snapshot is `getLevelByIndex(0, side)` when that succeeds, and exactly when the side is non-empty |
| BookSpec.SnapshotContent | lib.cpp:403-425 | a snapshot carries its time and symbol and, per side, the best level's price, volume and count, or UNDEF_PRICE, 0, 0 for an empty side |
| BookSpec.EmitConditionMeaning | lib.cpp:292 | with a current cache, the emission test holds exactly when the side is empty, its best is the sentinel, or the price is at or better than the best |
| BookSpec.TopUnchanged | lib.cpp:292-303 | a change confined to a price worse than a side's best leaves that side's top level as it was |
| BookSpec.AddValid | lib.cpp:291-299 | adding an order with a new id keeps the book invariant |
| BookSpec.AddSideValid | lib.cpp:294-298 | the order's side stays well formed and registered |
| BookSpec.AddOtherSideValid | lib.cpp:294-298 | the other side stays well formed and registered |
| BookSpec.AddLevelValid | lib.cpp:294-298 | the level the order lands in is well formed and registered |
| BookSpec.AppendLevelValid | lib.cpp:295-298 | appending an order with a new id at the level's price and side keeps the level invariant and its registration |
| BookSpec.SingleLevelValid | lib.cpp:294-298 | a level created by the add holds just the order and is valid |
| BookSpec.AppendDistinct | lib.cpp:296 | appending an order with a new id keeps the level's ids distinct |
| BookSpec.AddRegistryValid | lib.cpp:296 | the registry still resolves every id after an add |
| BookSpec.AddShape | lib.cpp:294-298 | an add changes exactly the level at the order's price (created if absent) and the order's registry entry |
| BookSpec.AddLevelEffect | lib.cpp:294-298 | after an add, the level at the order's price has the old orders plus the order at the end, volume + qty and count + 1; every other level is unchanged |
| BookSpec.AddRegistryEffect | lib.cpp:296 | after an add, `getOrderById` returns the new order and every other id resolves as before |
| BookSpec.AddKeepsOther | lib.cpp:296 | an add does not change the lookup of any other id |
| BookSpec.AddedIdIsLast | lib.cpp:296 | the new id occurs nowhere earlier in its level |
| BookSpec.RemoveValid | lib.cpp:306-320 | removing a resting order keeps the book invariant |
| BookSpec.RemoveSideValid | lib.cpp:312-318 | the order's side stays well formed and registered |
| BookSpec.RemoveOtherSideValid | lib.cpp:312-320 | the other side stays well formed and registered |
| BookSpec.RemoveLevelValid | lib.cpp:312-318 | a level that survives the removal stays well formed and registered |
| BookSpec.LevelRemoveValid | lib.cpp:312-317 | erasing one order from a level of two or more keeps the level invariant, and the erased id is gone from it |
| BookSpec.FindIdRemoveAt | lib.cpp:317 | erasing another order moves an id's position back by one exactly when it came after |
| BookSpec.FindIdAfterRemove | lib.cpp:317 | an id other than the erased one is still found |
| BookSpec.RegisteredErase | lib.cpp:317-320 | a level stays registered once its erased order leaves the registry |
| BookSpec.RegisteredExtend | lib.cpp:296 | registering a fresh id keeps every level registered |
| BookSpec.RegisteredShrink | lib.cpp:320 | unregistering an id of another level keeps a level registered |
| BookSpec.RemoveRegistryValid | lib.cpp:320 | the registry still resolves every id after a removal |
| BookSpec.RemoveShape | lib.cpp:312-320 | a removal erases the level when the count reaches 0, else only the order, and erases exactly that id from the registry |
| BookSpec.RemoveLevelEffect | lib.cpp:312-318 | after a removal, a level whose last order went is reported by neither price nor index; otherwise it has volume - qty, count - 1 and the order erased; every other level is unchanged |
| BookSpec.NotResidentNotReported | lib.cpp:360-373 | a price without a level is found neither by price nor at any index |
| BookSpec.RemoveRegistryEffect | lib.cpp:320 | after a removal, `getOrderById` of the id fails with UnknownOrder and every other id resolves as before |
| BookSpec.RemoveKeepsOther | lib.cpp:320 | a removal does not change the lookup of any other id |
| BookSpec.PartialFillValid | lib.cpp:341-342 | a partial fill keeps the book invariant |
| BookSpec.PartialFillSideValid | lib.cpp:341-342 | the filled side stays well formed and registered |
| BookSpec.PartialFillRegistryValid | lib.cpp:341-342 | the registry still resolves every id after a partial fill |
| BookSpec.LevelFillValid | lib.cpp:341-342 | lowering one order's quantity and the level's volume by the same amount keeps the level invariant |
| BookSpec.FillKeepsIds | lib.cpp:341 | changing an order's quantity moves no id |
| BookSpec.FindIdSameIds | lib.cpp:341 | lists with the same ids in the same positions find every id at the same place |
| BookSpec.FillShape | lib.cpp:341-342 | a partial fill changes only the order's level and leaves the registry unchanged |
| BookSpec.PartialFillEffect | lib.cpp:339-342 | after a partial fill the order keeps its place and id, its quantity falls by execQty, its level's volume falls by execQty and count is kept; nothing else changes |
| BookSpec.ExecuteValid | lib.cpp:335-349 | an execution of at most the order's quantity keeps the book invariant |
| BookSpec.TopLevelOfSide | lib.cpp:405-415 | a side's top level depends only on that side's levels |
| BookSpec.QuietKeepsL1 | lib.cpp:292-303 | a change at one price that fails the emission test leaves the cached L1 current |
| BookSpec.AddQuiet | lib.cpp:291-304 | an add that fails the emission test does not move the top of book |
| BookSpec.RemoveQuiet | lib.cpp:306-326 | a removal that fails the emission test does not move the top of book |
| BookSpec.PartialFillQuiet | lib.cpp:339-348 | a partial fill that fails the emission test does not move the top of book |
| BookSpec.AddBetterBecomesBest | lib.cpp:291-304 | an order strictly better than its side's best, or on an empty side, is that side's price in the snapshot emitted for it |
| BookSpec.AddStep | lib.cpp:291-304 | one add keeps the invariant, and without emission keeps the cache current |
| BookSpec.RemoveStep | lib.cpp:306-326 | one removal keeps the invariant, and without emission keeps the cache current |
| BookSpec.PartialFillStep | lib.cpp:339-348 | one partial fill keeps the invariant, and without emission keeps the cache current |
| OrderBook.Instrument.constructor | lib.cpp:262-274 | empty book; L1 with both prices UNDEF_PRICE, volumes and counts 0, time 0 and the symbol |
| OrderBook.Instrument.GetLevelPointer | lib.cpp:393-395 | the resident level, or a default level inserted at that price |
| OrderBook.Instrument.PutLevel | lib.cpp:295-298 | the level written through the pointer replaces the one at that price; nothing else changes |
| OrderBook.Instrument.EraseLevel | lib.cpp:315 | the level at that price is erased; nothing else changes |
| OrderBook.Instrument.AddOrder | lib.cpp:291-304 | the new state is AddSpec of the old; a snapshot of the new book is cached and emitted exactly when the emission test held on the old cache |
| OrderBook.Instrument.InsertOrder | lib.cpp:294-298 | the step-by-step updates yield AddSpec of the old state |
| OrderBook.Instrument.RemoveOrderAt | lib.cpp:306-326 | the new state is RemoveSpec of the old; a snapshot is cached and emitted exactly when the emission test held |
| OrderBook.Instrument.DetachOrder | lib.cpp:310-320 | the step-by-step updates yield RemoveSpec of the old state |
| OrderBook.Instrument.RemoveOrder | lib.cpp:328-331 | UnknownOrder with nothing changed when the id is not resident; otherwise the removal of the registered order |
| OrderBook.Instrument.ExecuteOrderAt | lib.cpp:335-349 | InvalidExecution with nothing changed when execQty exceeds the quantity; otherwise ExecuteSpec (full fill = removal), with emission exactly when the test held |
| OrderBook.Instrument.PartialExecuteAt | lib.cpp:339-348 | the new state is PartialFillSpec of the old, with emission exactly when the test held |
| OrderBook.Instrument.FillInPlace | lib.cpp:341-342 | the step-by-step updates yield PartialFillSpec of the old state |
| OrderBook.Instrument.ExecuteOrder | lib.cpp:351-354 | UnknownOrder with nothing changed for an id that is not resident; otherwise ExecuteOrderAt on the registered order |
| OrderBook.Instrument.GetOrderPtr | lib.cpp:397-401 | the registered iterator or UnknownOrder, as `Book.OrderPtr` |
| OrderBook.Instrument.GetOrderById | lib.cpp:356-358 | the registered order or UnknownOrder, as `Book.OrderById` |
| OrderBook.Instrument.GetLevelByIndex | lib.cpp:360-367 | the index-th level or NoLevelAtIndex, as `Book.LevelByIndex` |
| OrderBook.Instrument.GetLevelByPrice | lib.cpp:369-373 | the level at the price or NoLevelAtPrice, as `Book.LevelByPrice` |
| OrderBook.Instrument.CallbackL1 | lib.cpp:403-431 | the cached L1 becomes the snapshot of the current book at time t and is appended to the emitted log |
| RingBuffers.Last | lib.cpp:214-256 | the last n elements of a history (all of it when shorter) |
| RingBuffers.Push | lib.cpp:222-236 | adding to a queue bounded by cap puts the element last, grows the queue when it is not full and drops the oldest when full |
| RingBuffers.PushIsLast | lib.cpp:222-236 | one add keeps exactly the last cap elements of the queue followed by the new one |
| RingBuffers.LastThenPush | lib.cpp:222-236 | bounding the history first and then adding loses nothing more than bounding afterwards |
| RingBuffers.PushAllIsLast | lib.cpp:222-247 | after any sequence of adds the queue holds the last cap elements of the whole history, in add order |
| RingBuffers.FromEmpty | lib.cpp:222-247 | from an empty buffer, the queue holds the last cap elements added, in order |
| RingBuffers.Slot | lib.cpp:226-246 | the cursor after advancing by i wraps to a slot below the size, equal to start + i or start + i - size |
| RingBuffers.WindowOverwrite | lib.cpp:224-229 | overwriting the oldest slot of a full buffer and advancing the read cursor rotates the contents |
| RingBuffers.WindowAppend | lib.cpp:232-234 | writing past the end of a buffer that is not full appends to the contents |
| RingBuffers.WindowAdvance | lib.cpp:243-245 | advancing the read cursor drops the oldest element |
| RingBuffers.RingBuffer.constructor | lib.cpp:218 | an empty buffer of the given size over freshly allocated storage of its own, diagnostics off |
| RingBuffers.RingBuffer.WithDiagnostics | lib.cpp:220 | an empty buffer of the given size over freshly allocated storage of its own, with the diagnostics flag given |
| RingBuffers.RingBuffer.Add | lib.cpp:222-236 | returns true exactly when the buffer was not full; the contents become Push of the old contents (oldest overwritten when full); the new slots and cursors are exactly `AddOnCursors` of the old ones (write cursor advanced with wrap-around; when full, the read cursor advanced too and the fill count kept) |
| RingBuffers.RingBuffer.Get | lib.cpp:238-247 | on an empty buffer returns T() and changes nothing; otherwise returns the oldest element and removes it, the new slots and cursors being exactly `GetOnCursors` of the old ones |
| RingBuffers.FreshAsDeclared | lib.cpp:250-253 | a fresh buffer as declared has all slots, write cursor 0 and no elements, with the read cursor left at its storage's value |
| RingBuffers.AddOnCursors | lib.cpp:222-236 | `add` on the value form of the cursors keeps the slot count and a valid write cursor |
| RingBuffers.GetOnCursors | lib.cpp:238-247 | `get` on the value form returns T() when empty, else the slot under the read cursor |
| RingBuffers.Unread | lib.cpp:250-253 | the unread elements of consistent cursors, oldest first: exactly `numFilled` of them, read from the read cursor onwards with wrap-around |
| RingBuffers.AddOnCursorsIsPush | lib.cpp:222-236 | on consistent cursors, `add` keeps them consistent, returns true exactly when there was room, and pushes the element onto the unread queue (the oldest dropped when full) |
| RingBuffers.GetOnCursorsIsPop | lib.cpp:238-247 | on consistent cursors, `get` returns T() and changes nothing when empty, otherwise returns the oldest unread element and removes it; it is never out of bounds |
| RingBuffers.AddAllOnCursors | lib.cpp:222-236 | a run of `add`s keeps the cursors consistent and the slot count unchanged |
| RingBuffers.AddAllIsPushAll | lib.cpp:222-236 | a run of `add`s pushes its elements onto the unread queue in order |
| RingBuffers.FromZeroKeepsLast | lib.cpp:218-253 | with the read cursor starting at 0, a fresh buffer is consistent and empty, and after any run of adds its unread elements are the last `size` added, in order |
| RingBuffers.FirstReadFromZero | lib.cpp:222-247 | with the read cursor starting at 0, the first read returns the first element added |
| RingBuffers.StaleReadCursorMissesAdd | lib.cpp:250-253 | with the read cursor starting at 1 in two slots, the first read after adding x returns T(), not x |
| RingBuffers.StaleReadCursorOutOfBounds | lib.cpp:250-253 | with the read cursor starting at or past the size, the first read is out of bounds |

## Left out

- The JSON event decoding and the driver loop (main.cpp). The renderer `to_string(Side)` (lib.cpp:34-36) is string formatting, and the `operator<<` renderers (lib.cpp:94-132) are string formatting with a `double` division.
- The commented-out semaphore (lib.cpp:164-211) and the commented-out thread launch in `callbackL1` (lib.cpp:429-430): concurrency is not modelled.
- `setCallback` and the raw callback pointer. The callback is the ghost log `emitted`, so what it does with a snapshot is not modelled.
- `getSymbol`: a plain field read.
- The `std::cerr` diagnostics of `RingBuffer`. The flag is kept as a field with no effect besides the returned values.
- OrderBook.Instrument.AddOrder: requires an id that is not resident. With a duplicate id the source re-points the registry entry and leaves the earlier order in its level, unregistered. The model does not cover that state.
- OrderBook.Instrument.RemoveOrderAt, ExecuteOrderAt: require an iterator into a resident order. A stale iterator is undefined behaviour in the source.
- Iterator stability of `std::list` across other insertions and erasures is not modelled. An iterator is a (side, price, position) triple used right after it is obtained.
- The 32-bit `int` of prices, quantities and volumes: integers are unbounded. An overflowing volume is undefined behaviour in the source, and `execQty` is not checked for sign (a negative one raises the quantity, in the model too).
- The `__gnu_pbds` hash table alternative for the registry (commented out) and hashing performance. The registry is a `map`.
- The default constructors `Instrument()` and `RingBuffer()`. The latter has size 0, so its first `add` writes out of bounds. Both ring-buffer constructors require a size above 0.
- RingBuffers.RingBuffer.constructor: starts the read cursor at 0, which the source does not do (see Findings).
- RingBuffers.RingBuffer.WithDiagnostics: starts the read cursor at 0 as well, which the source does not do either (see Findings).
- `PRICE_FACTOR` (lib.cpp:21): it only scales prices in the renderers and in the text of the NoLevelAtPrice message, which are not modelled.
- The `int sz` of the diagnostics constructor: a negative size converted to `size_t` is not modelled (size is a `nat`).

## Findings

| source | as written | input that shows it | evidently intended | confidence | as-written member | corrected member |
|---|---|---|---|---|---|---|
| lib.cpp:252 | `size_t readPos, writePos = 0;` initialises only `writePos`; a fresh `RingBuffer` has an indeterminate read cursor | size 2 with leftover read cursor 1: `add(x)` then `get()` returns the blank slot, not x; with a cursor at or past the size the first `get` reads out of bounds | both cursors start at 0, so that reads return the adds in order | high (not executed) | RingBuffers.StaleReadCursorMissesAdd | RingBuffers.RingBuffer.constructor |
