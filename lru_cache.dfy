/**
 * The batch-evicting LRU cache of src/utilities/LRUCache.js. It tracks a set
 * of items, the subset used in the current cycle, the recency order of the
 * items and one release callback per item. A cleanup pass pops the least
 * recently used items from the head of the order and calls their callbacks.
 */
module Cache {
  import L = RecencyList
  import P = EvictionPolicy
  import opened CacheState

  /**
   * The cache. Items are values of T; a release callback is identified by a
   * value of Cb, since what it does is opaque to the cache.
   */
  class LRUCache<T(==), Cb> {
    // options
    const maxSize: int
    const minSize: int
    const unloadNum: nat
    const unloadDen: nat

    var usedSet: set<T>
    var itemSet: set<T>
    var itemList: seq<T>
    var callbacks: map<T, Cb>

    // the pending deferred pass of ScheduleUnload, and the flag it was given
    var scheduled: bool
    var pendingReset: bool

    // every release callback invocation, in order
    ghost var released: seq<Release<T, Cb>>

    /** The bookkeeping that every operation keeps, used marks or not. */
    ghost predicate Valid()
      reads this
    {
      unloadDen > 0 && Bookkeeping(itemList, itemSet, callbacks)
    }

    /** Every item marked used is tracked. */
    ghost predicate UsedTracked()
      reads this
    {
      usedSet <= itemSet
    }

    /** Used items are tracked and sit after all unused items in the order. */
    ghost predicate RecencyInvariant()
      reads this
    {
      Recency(itemList, itemSet, usedSet)
    }

    /** The number of items the next cleanup pass releases. */
    ghost function PassSize(): (k: nat)
      reads this
      requires Valid()
      ensures k <= |itemList|
      ensures k > 0 <==> |itemSet| > minSize && |itemSet| - |usedSet| > 0 && unloadNum > 0
    {
      BookkeepingCard(itemList, itemSet, callbacks);
      P.EvictionCount(|itemSet|, |usedSet|, minSize, unloadNum, unloadDen)
    }

    /** A cache with the default options: at most 800 items, target 600, fraction 0.2. */
    constructor ()
      ensures Valid() && RecencyInvariant()
      ensures maxSize == 800 && minSize == 600 && unloadNum == 1 && unloadDen == 5
      ensures itemList == [] && itemSet == {} && usedSet == {} && callbacks == map[]
      ensures !scheduled && !pendingReset && released == []
    {
      maxSize, minSize := 800, 600;
      unloadNum, unloadDen := 1, 5;
      usedSet, itemSet := {}, {};
      itemList := [];
      callbacks := map[];
      scheduled, pendingReset := false, false;
      released := [];
    }

    /** An empty cache with the options a caller sets after construction. */
    constructor Configure(maxSize: int, minSize: int, unloadNum: nat, unloadDen: nat)
      requires unloadDen > 0
      ensures Valid() && RecencyInvariant()
      ensures this.maxSize == maxSize && this.minSize == minSize
      ensures this.unloadNum == unloadNum && this.unloadDen == unloadDen
      ensures itemList == [] && itemSet == {} && usedSet == {} && callbacks == map[]
      ensures !scheduled && !pendingReset && released == []
    {
      this.maxSize, this.minSize := maxSize, minSize;
      this.unloadNum, this.unloadDen := unloadNum, unloadDen;
      usedSet, itemSet := {}, {};
      itemList := [];
      callbacks := map[];
      scheduled, pendingReset := false, false;
      released := [];
    }

    /** Whether the cache has reached its maximum size; changes nothing. */
    method IsFull() returns (full: bool)
      requires Valid()
      ensures full <==> |itemSet| >= maxSize
      ensures full <==> |itemList| >= maxSize
    {
      BookkeepingCard(itemList, itemSet, callbacks);
      full := |itemSet| >= maxSize;
    }

    /**
     * Admits `item` with its release callback at the tail of the order, marked
     * used. Refuses, changing nothing, an item already tracked or a full cache.
     */
    method Add(item: T, removeCb: Cb) returns (added: bool)
      requires Valid()
      modifies this
      ensures Valid()
      ensures added <==> item !in old(itemSet) && |old(itemSet)| < maxSize
      ensures added ==>
                && itemList == old(itemList) + [item]
                && itemSet == old(itemSet) + {item}
                && usedSet == old(usedSet) + {item}
                && callbacks == old(callbacks)[item := removeCb]
                && |itemSet| == |old(itemSet)| + 1
                && scheduled == old(scheduled) && pendingReset == old(pendingReset)
                && released == old(released)
      ensures !added ==> unchanged(this)
      ensures old(UsedTracked()) ==> UsedTracked()
      ensures old(RecencyInvariant()) ==> RecencyInvariant()
    {
      if item in itemSet {
        return false;
      }
      var full := IsFull();
      if full {
        return false;
      }
      Admit(itemList, itemSet, usedSet, callbacks, item, removeCb);
      itemList := itemList + [item];
      usedSet := usedSet + {item};
      itemSet := itemSet + {item};
      callbacks := callbacks[item := removeCb];
      added := true;
    }

    /**
     * Releases a tracked item: calls its callback once, then unlinks it from
     * the order and forgets it everywhere. An untracked item is refused
     * without any change.
     */
    method Remove(item: T) returns (removed: bool)
      requires Valid()
      modifies this
      ensures Valid()
      ensures removed <==> item in old(itemSet)
      ensures removed ==>
                && released == old(released) + [Release(item, old(callbacks)[item])]
                && itemList == L.Remove(old(itemList), item)
                && usedSet == old(usedSet) - {item}
                && itemSet == old(itemSet) - {item}
                && callbacks == old(callbacks) - {item}
                && |itemSet| == |old(itemSet)| - 1
                && scheduled == old(scheduled) && pendingReset == old(pendingReset)
      ensures !removed ==> unchanged(this)
      ensures item !in itemSet
      ensures old(UsedTracked()) ==> UsedTracked()
      ensures old(RecencyInvariant()) ==> RecencyInvariant()
    {
      if item in itemSet {
        released := released + [Release(item, callbacks[item])];
        Unlink(itemList, itemSet, usedSet, callbacks, item);
        BookkeepingCard(itemList, itemSet, callbacks);
        itemList := L.Remove(itemList, item);
        usedSet := usedSet - {item};
        itemSet := itemSet - {item};
        callbacks := callbacks - {item};
        BookkeepingCard(itemList, itemSet, callbacks);
        return true;
      }
      return false;
    }

    /**
     * Marks a tracked, not yet used item used and moves it to the tail of the
     * order; anything else is left as it is.
     */
    method MarkUsed(item: T)
      requires Valid()
      modifies this
      ensures Valid()
      ensures item in old(itemSet) && item !in old(usedSet) ==>
                && itemList == L.Remove(old(itemList), item) + [item]
                && usedSet == old(usedSet) + {item}
                && itemSet == old(itemSet) && callbacks == old(callbacks)
                && scheduled == old(scheduled) && pendingReset == old(pendingReset)
                && released == old(released)
      ensures !(item in old(itemSet) && item !in old(usedSet)) ==> unchanged(this)
      ensures old(UsedTracked()) ==> UsedTracked()
      ensures old(RecencyInvariant()) ==> RecencyInvariant()
    {
      if item in itemSet && item !in usedSet {
        Touch(itemList, itemSet, usedSet, callbacks, item);
        itemList := L.Remove(itemList, item);
        itemList := itemList + [item];
        usedSet := usedSet + {item};
      }
    }

    /** Clears the used marks; the order, the items and the callbacks stay. */
    method MarkAllUnused()
      requires Valid()
      modifies this
      ensures Valid() && RecencyInvariant()
      ensures usedSet == {}
      ensures itemList == old(itemList) && itemSet == old(itemSet) && callbacks == old(callbacks)
      ensures scheduled == old(scheduled) && pendingReset == old(pendingReset)
      ensures released == old(released)
    {
      usedSet := {};
    }

    /**
     * The cleanup pass: releases the first PassSize() items of the order,
     * head first, calling each one's callback and forgetting it. The used
     * marks are not touched, so they all stay tracked only if no released
     * item was used; under the recency discipline none was.
     */
    method UnloadUnusedContent()
      requires Valid()
      modifies this
      ensures Valid()
      ensures var k := old(PassSize());
              && itemList == old(itemList)[k..]
              && itemSet == old(itemSet) - L.Elements(old(itemList)[..k])
              && callbacks == old(callbacks) - L.Elements(old(itemList)[..k])
              && released == old(released) + Releases(old(itemList)[..k], old(callbacks))
              && |itemSet| == |old(itemSet)| - k
      ensures usedSet == old(usedSet)
      ensures scheduled == old(scheduled) && pendingReset == old(pendingReset)
      ensures old(UsedTracked()) ==>
                (UsedTracked() <==> forall i :: 0 <= i < old(PassSize()) ==> old(itemList)[i] !in usedSet)
      ensures old(RecencyInvariant()) ==>
                && RecencyInvariant()
                && forall i :: 0 <= i < old(PassSize()) ==> old(itemList)[i] !in usedSet
    {
      ghost var k := PassSize();
      PopRecency(itemList, itemSet, usedSet, callbacks, k);
      var unused := |itemSet| - |usedSet|;
      if |itemSet| > minSize && unused > 0 {
        var nodesToUnload := P.Batch(|itemSet|, minSize, unloadNum, unloadDen);
        nodesToUnload := P.Min(unused, nodesToUnload);
        assert nodesToUnload == k;
        ReleaseHead(nodesToUnload);
      } else {
        assert k == 0 && itemList == itemList[0..] && itemList[..0] == [];
      }
    }

    /**
     * The release loop of a cleanup pass: pops the head of the order n times,
     * calling each popped item's callback and forgetting the item and its
     * callback. The used marks are left alone.
     */
    method ReleaseHead(n: nat)
      requires Valid() && n <= |itemList|
      modifies this
      ensures Valid()
      ensures itemList == old(itemList)[n..]
      ensures itemSet == old(itemSet) - L.Elements(old(itemList)[..n])
      ensures callbacks == old(callbacks) - L.Elements(old(itemList)[..n])
      ensures released == old(released) + Releases(old(itemList)[..n], old(callbacks))
      ensures |itemSet| == |old(itemSet)| - n
      ensures usedSet == old(usedSet)
      ensures scheduled == old(scheduled) && pendingReset == old(pendingReset)
    {
      var list, items, cbs, log := PopFront(itemList, itemSet, callbacks, n);
      itemList, itemSet, callbacks := list, items, cbs;
      released := released + log;
    }

    /**
     * Requests a cleanup pass at the end of the current turn, with the used
     * marks cleared after it unless resetUsed is false. While a pass is
     * pending, further requests change nothing.
     */
    method ScheduleUnload(resetUsed: bool := true)
      modifies this
      ensures scheduled
      ensures old(scheduled) ==> unchanged(this)
      ensures !old(scheduled) ==> pendingReset == resetUsed
      ensures itemList == old(itemList) && itemSet == old(itemSet) && usedSet == old(usedSet)
      ensures callbacks == old(callbacks) && released == old(released)
    {
      if !scheduled {
        scheduled := true;
        pendingReset := resetUsed;
      }
    }

    /**
     * The deferred body of a scheduled pass: clears the pending flag, runs the
     * cleanup pass with this cycle's used marks, and only then clears the
     * marks if the request asked for it.
     */
    method RunScheduled()
      requires Valid() && scheduled
      modifies this
      ensures Valid() && !scheduled
      ensures var k := old(PassSize());
              && itemList == old(itemList)[k..]
              && itemSet == old(itemSet) - L.Elements(old(itemList)[..k])
              && callbacks == old(callbacks) - L.Elements(old(itemList)[..k])
              && released == old(released) + Releases(old(itemList)[..k], old(callbacks))
      ensures usedSet == if old(pendingReset) then {} else old(usedSet)
      ensures pendingReset == old(pendingReset)
      ensures old(pendingReset) ==> RecencyInvariant()
      ensures old(RecencyInvariant()) ==> RecencyInvariant()
      ensures old(RecencyInvariant()) ==>
                forall i :: 0 <= i < old(PassSize()) ==> old(itemList)[i] !in old(usedSet)
    {
      scheduled := false;
      UnloadUnusedContent();
      if pendingReset {
        MarkAllUnused();
      }
    }
  }
}
