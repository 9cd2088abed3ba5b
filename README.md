# LRU cache with batch eviction, in Dafny

This project models `LRUCache` from `src/utilities/LRUCache.js`, the cache that
a 3D tiles renderer uses to decide which loaded tiles to free. The cache keeps:

- a set of tracked items;
- the subset of items marked *used* in the current cycle;
- a recency order, from least recently used (head) to most recently used (tail);
- one release callback per item.

`add` admits an item at the tail, marked used. `markUsed` moves an item to the
tail. `markAllUnused` starts a new cycle. `remove` releases one item at once.
A cleanup pass (`unloadUnusedContent`) releases a batch of items from the head
of the order. The batch size is the ceiling of `unloadPercent` times the
excess over `minSize`, where the excess is never taken below `minSize`. The
batch never exceeds the number of unused items. `scheduleUnload` defers a
pass to the end of the current turn and merges repeated requests into one.

The modules:

- `RecencyList` (`recency_list.dfy`). The recency order as a sequence. It
  carries the contract of the linked list the source keeps it in: `push`
  appends, `pop` takes the head, and `remove` is `Remove`. It also holds the
  facts about distinct orders and about used items forming a suffix of the
  order.
- `EvictionPolicy` (`eviction_policy.dfy`). The pass-size formula in exact
  integer arithmetic. `unloadPercent` is the rational `unloadNum / unloadDen`;
  the default 0.2 is 1/5.
- `CacheState` (`cache_state.dfy`). Value-level invariants and step lemmas, one
  per way the source changes its four collections. It also holds the release
  loop of a pass (`PopFront`) and the release log (`Releases`). Each callback
  invocation is recorded as `Release(item, callback)`.
- `Cache` (`lru_cache.dfy`). The class `LRUCache`. Its fields are the source's
  `usedSet`, `itemSet`, `itemList` and `callbacks`, plus the `scheduled`
  flag. Two further fields are the flag of the pending request
  (`pendingReset`) and a ghost log of every callback invocation
  (`released`). Every method states its whole new state.
- `Scenarios` (`scenarios.dfy`). Concrete runs: touching the head of
  1, 2, 3 gives 2, 3, 1, and the following pass sizes. Client methods drive a
  cache through the size limit, a repeated removal and two coalesced
  requests.

Three invariants are layered. The `Valid()` bookkeeping holds after every
operation:

- the order has no duplicates;
- the order holds exactly the tracked items;
- exactly the tracked items have a callback.

`UsedTracked()` says that every used item is tracked. `RecencyInvariant()`
adds that used items sit after every unused item in the order. Every
operation preserves `RecencyInvariant()`, and every constructor establishes
it. Under it, a pass pops at most as many items as are unused, and those are
exactly the head items. Hence no used item is ever evicted, and the used
marks stay tracked. The pass itself does not check marks and does not delete
them: the source never removes a released item from `usedSet` (lines 124-132).
`UnloadUnusedContent` states both sides. It says outright which marks survive
a pass, and it says that under the recency discipline none of the released
items was used.

## Model

| member | source | states |
|---|---|---|
| RecencyList.Remove | src/utilities/LRUCache.js:70 | unlinking an item leaves every other item of the order and nothing else, and keeps the order duplicate-free |
| RecencyList.RemoveAt | src/utilities/LRUCache.js:90-91 | in a duplicate-free order, removing the item at position k splices out that position and keeps the others in their relative order (so A, B, C touched at A gives B, C, A) |
| RecencyList.DropElements | src/utilities/LRUCache.js:124-129 | after popping k items of a duplicate-free order, the rest holds exactly the items not popped |
| RecencyList.PopUnused | src/utilities/LRUCache.js:124-126 | when used items form a suffix, the first (size - used) items are all unused, and after popping them the used items are still tracked and still a suffix |
| RecencyList.SpliceUsed | src/utilities/LRUCache.js:70-71 | splicing an item out of the order keeps the used items a suffix, whether or not its mark is dropped too |
| EvictionPolicy.CeilDiv | src/utilities/LRUCache.js:121 | the result is the least integer q with a <= q * b, i.e. the ceiling of a / b |
| EvictionPolicy.EvictionCount | src/utilities/LRUCache.js:114-122 | the count is min(unused, Batch), where Excess is the `Math.max` step and Batch the `Math.ceil` step of lines 120-121; a pass releases nothing unless the cache is above the target and has an unused item; it never releases more than the unused items; with a positive fraction it releases at least one when it runs |
| EvictionPolicy.EvictionCountIsCeiling | src/utilities/LRUCache.js:120-122 | a pass that runs releases the smaller of the unused count and the ceiling of the fraction of max(size - minSize, minSize): never more than the unused items, never more than the ceiling, and the ceiling itself unless the unused items are fewer |
| EvictionPolicy.BatchFloor | src/utilities/LRUCache.js:120 | because the excess is floored at minSize, a pass releases at least the fraction of minSize (or every unused item, if fewer) |
| EvictionPolicy.BatchMonotone | src/utilities/LRUCache.js:120-121 | the ceiling figure does not shrink as the cache grows |
| EvictionPolicy.DefaultPass | src/utilities/LRUCache.js:120-122 | with the defaults (target 600, fraction 0.2) a cache of 750 unused items releases 120 |
| EvictionPolicy.PassUndershootsTarget | src/utilities/LRUCache.js:116-122 | a cache of 601 unused items with the defaults also releases 120 and so ends 119 below its target |
| CacheState.Releases | src/utilities/LRUCache.js:126-127 | the release log of a sequence of popped items has one entry per item, in order, pairing each with its own callback |
| CacheState.BookkeepingCard | src/utilities/LRUCache.js:28 | under the bookkeeping the tracked set has as many items as the order |
| CacheState.Admit | src/utilities/LRUCache.js:50-53 | appending an untracked item, marking it used and registering its callback keeps the bookkeeping and the recency discipline, and grows the cache by one |
| CacheState.Unlink | src/utilities/LRUCache.js:70-73 | forgetting a tracked item in all four collections keeps the bookkeeping and the recency discipline and shortens the order by one |
| CacheState.Touch | src/utilities/LRUCache.js:90-92 | moving a tracked unused item to the tail and marking it used keeps the bookkeeping and the recency discipline |
| CacheState.Pop | src/utilities/LRUCache.js:124-129 | popping n head items and forgetting them and their callbacks keeps the bookkeeping and shrinks the cache by exactly n |
| CacheState.PopRecency | src/utilities/LRUCache.js:124-132 | the marks, which a pass leaves alone, stay tracked exactly when no popped item was used; under the recency discipline, popping at most the unused count pops no used item and keeps the discipline |
| CacheState.PopOne | src/utilities/LRUCache.js:126-129 | the next pop yields the next item of the original order with its original callback, and extends the popped prefix and the release log by that item |
| CacheState.PopFront | src/utilities/LRUCache.js:124-132 | the release loop pops the first n items of the order: the rest of the order stays, the popped items and their callbacks are forgotten, the log has one release per popped item in order, and the bookkeeping holds with n fewer items |
| Cache.LRUCache.PassSize | src/utilities/LRUCache.js:114-122 | the number of items the next pass releases is at most the order's length, and is positive exactly when the cache is above the target, has an unused item and the fraction is positive |
| Cache.LRUCache.constructor | src/utilities/LRUCache.js:11-23 | the defaults 800, 600 and 1/5, and an empty cache with no pass pending |
| Cache.LRUCache.Configure | src/utilities/LRUCache.js:14-21 | an empty cache with the given options, which the source's callers assign after construction |
| Cache.LRUCache.IsFull | src/utilities/LRUCache.js:26-30 | full exactly when the number of tracked items is at least maxSize; changes nothing |
| Cache.LRUCache.Add | src/utilities/LRUCache.js:32-57 | succeeds exactly for an untracked item in a cache that is not full, and then appends it at the tail, marks it used and registers its callback; otherwise nothing changes; the used-mark invariants are kept |
| Cache.LRUCache.Remove | src/utilities/LRUCache.js:59-81 | succeeds exactly for a tracked item, and then invokes its callback once and forgets it everywhere; otherwise nothing changes; afterwards the item is never tracked, so a second remove fails |
| Cache.LRUCache.MarkUsed | src/utilities/LRUCache.js:83-96 | a tracked unused item moves to the tail and is marked used, with the set and callbacks unchanged; otherwise nothing changes |
| Cache.LRUCache.MarkAllUnused | src/utilities/LRUCache.js:98-102 | clears the used marks only; order, items and callbacks stay |
| Cache.LRUCache.UnloadUnusedContent | src/utilities/LRUCache.js:106-136 | releases exactly the first PassSize() items of the order, head first, each with its own callback, and forgets them; the marks are untouched, they stay tracked exactly when no released item was used, and under the recency discipline none was |
| Cache.LRUCache.ReleaseHead | src/utilities/LRUCache.js:124-132 | the release loop on the cache's fields: the first n items are released and forgotten, the rest of the state stays |
| Cache.LRUCache.ScheduleUnload | src/utilities/LRUCache.js:138-157 | afterwards a pass is pending; a request while one is pending changes nothing, so the first request's reset flag stands; no collection changes now |
| Cache.LRUCache.RunScheduled | src/utilities/LRUCache.js:143-153 | the deferred body clears the pending flag, runs a pass sized by the marks as they were, and only then clears the marks if the request asked so; under the recency discipline no item marked used before the pass is released by it |
| Scenarios.TouchHead | src/utilities/LRUCache.js:90-91 | touching item 1 of the order 1, 2, 3 gives 2, 3, 1 |
| Scenarios.SmallPass | src/utilities/LRUCache.js:114-122 | with the order 2, 3, 1 and item 1 used, target 2 and fraction 1/3 releases item 2 only; target 0 and fraction 1 releases 2 and 3 and keeps the touched item |
| Scenarios.FullBoundary | src/utilities/LRUCache.js:32-45 | with maxSize 2, two additions succeed, the cache is then full and a third addition fails; re-adding a tracked item fails |
| Scenarios.RemoveTwice | src/utilities/LRUCache.js:66-79 | the first removal succeeds and the second fails, with the callback invoked exactly once |
| Scenarios.Coalescing | src/utilities/LRUCache.js:140-149 | two requests in one turn make one pending pass with the first request's flag, and the marks are cleared after it although the second request asked not to |

## Left out

- The deferral through `Promise.resolve().then` (lines 143-153) is modelled as the `scheduled` flag, the `pendingReset` flag and the method `RunScheduled`, which a caller invokes to stand for the end of the turn. The microtask queue and other code running before the pass are not modelled.
- What a release callback does is opaque to the cache and is not modelled. A callback is a value of type `Cb`, and invoking it is an entry in the ghost log `released`. A callback that throws, or that calls back into the cache during `remove` or a pass, is not modelled.
- `src/utilities/LinkedList.js` is not part of this model. The order is a sequence with the list's contract: `push` appends at the tail, `pop` removes and returns the head (the least recently used item), and `remove` unlinks one item. The list's nodes, its O(1) costs and the aliasing of the `const itemList = this.itemList` locals are not modelled.
- `unloadPercent` is a JavaScript double; the model uses the exact rational `unloadNum / unloadDen`. The pass size can differ where the floating-point product lands just above an integer and `Math.ceil` rounds it up. For the default 0.2 on 750 items both give 120.
- `maxSize`, `minSize` and `unloadPercent` are public fields that callers may reassign at any time. The model fixes them at construction; the constructor `Configure` takes them.
- `prioritySortCb` of `unloadUnusedContent` and `scheduleUnload` is never used in the source and is not a parameter here. The TODO comments about sorting by priority describe no behaviour.
- `scheduled` starts out `undefined` in the source and is modelled as `false`; both are falsy in the test at line 140.
- A non-integer or negative `maxSize` or `minSize` is not modelled; the options are integers.
- `UnloadUnusedContent` delegates its loop (lines 124-132) to `ReleaseHead`, which runs the value-level loop `CacheState.PopFront` on copies of the fields and writes them back. The source changes the fields in place through the aliases taken at lines 110-113. Callbacks do not re-enter the cache in this model, so copying and writing back gives the same final state. The split keeps the arithmetic of the pass size apart from the loop's proof.
- `RunScheduled` requires a pending pass. Running the deferred body a second time, which the promise machinery never does, is not modelled.
