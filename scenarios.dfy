/**
 * Small concrete runs: the recency order after a touch and the size of the
 * pass that follows (on the functions that specify MarkUsed and
 * UnloadUnusedContent), and client methods that drive a cache through the
 * size limit, a repeated removal and two coalesced cleanup requests.
 */
module Scenarios {
  import opened CacheState
  import L = RecencyList
  import P = EvictionPolicy
  import Cache

  /** Touching the head of 1, 2, 3 moves it to the tail. */
  lemma TouchHead()
    ensures L.Remove([1, 2, 3], 1) + [1] == [2, 3, 1]
  {
    assert L.Remove([1, 2, 3], 1) == [1, 2, 3][1..] == [2, 3];
  }

  /**
   * After that touch, three items with one used: with target 2 and fraction
   * 1/3 one item goes, the head 2; with target 0 and fraction 1 both unused
   * items go and the touched item 1 stays.
   */
  lemma SmallPass()
    ensures P.EvictionCount(3, 1, 2, 1, 3) == 1 && [2, 3, 1][1..] == [3, 1]
    ensures P.EvictionCount(3, 1, 0, 1, 1) == 2 && [2, 3, 1][2..] == [1]
  {
    assert P.Excess(3, 2) == 2;
    assert P.CeilDiv(2, 3) == 1;
  }

  /**
   * With a maximum of 2 the first two additions succeed, the cache is then
   * full and a third addition is refused; re-adding a tracked item is refused
   * even when there is room.
   */
  method FullBoundary() returns (first: bool, second: bool, full: bool, third: bool, again: bool)
    ensures first && second && full && !third
    ensures !again
  {
    var c := new Cache.LRUCache.Configure(2, 0, 1, 1);
    first := c.Add(1, "a");
    again := c.Add(1, "a2");
    second := c.Add(2, "b");
    full := c.IsFull();
    third := c.Add(3, "c");
  }

  /**
   * Removing an item twice: the first removal succeeds and calls the
   * callback, the second is refused, and the callback ran exactly once.
   */
  method RemoveTwice() returns (first: bool, second: bool, ghost log: seq<Release<int, string>>)
    ensures first && !second
    ensures log == [Release(1, "a")]
  {
    var c := new Cache.LRUCache();
    var _ := c.Add(1, "a");
    first := c.Remove(1);
    second := c.Remove(1);
    log := c.released;
  }

  /**
   * Two cleanup requests in one turn make one pass, and the pass keeps the
   * flag of the first request: the only item is in use, so the pass releases
   * nothing, and the marks are cleared afterwards even though the second
   * request asked not to clear them.
   */
  method Coalescing() returns (pending: bool, afterPass: seq<int>, used: set<int>, ghost log: seq<Release<int, string>>)
    ensures pending
    ensures afterPass == [1] && log == []
    ensures used == {}
  {
    var c := new Cache.LRUCache.Configure(4, 0, 1, 2);
    var _ := c.Add(1, "a");
    c.ScheduleUnload(true);
    c.ScheduleUnload(false);
    pending := c.scheduled && c.pendingReset;
    c.RunScheduled();
    afterPass := c.itemList;
    used := c.usedSet;
    log := c.released;
  }
}
