/**
 * Facts about the values the cache keeps in its fields: the recency order,
 * the tracked and used items and the callback registry. The class in
 * lru_cache.dfy states its invariants with these predicates, and each of its
 * operations rests on one of the step lemmas below.
 */
module CacheState {
  import L = RecencyList

  /** One invocation of a release callback: `callback` was called with `item`. */
  datatype Release<T, Cb> = Release(item: T, callback: Cb)

  /** The invocations made when `items` are released in order, each with its callback in `cbs`. */
  ghost function Releases<T, Cb>(items: seq<T>, cbs: map<T, Cb>): (log: seq<Release<T, Cb>>)
    requires L.Elements(items) <= cbs.Keys
    ensures |log| == |items|
    ensures forall i :: 0 <= i < |items| ==> log[i] == Release(items[i], cbs[items[i]])
  {
    if items == [] then []
    else
      var last := items[|items| - 1];
      assert L.Elements(items[..|items| - 1]) <= L.Elements(items);
      Releases(items[..|items| - 1], cbs) + [Release(last, cbs[last])]
  }

  /**
   * The order is a duplicate-free enumeration of the tracked items, and
   * exactly the tracked items have a callback.
   */
  ghost predicate Bookkeeping<T, Cb>(list: seq<T>, items: set<T>, cbs: map<T, Cb>)
  {
    L.Distinct(list) && L.Elements(list) == items && cbs.Keys == items
  }

  /**
   * The recency discipline: every used item is tracked and lies after every
   * unused item in the order.
   */
  ghost predicate Recency<T>(list: seq<T>, items: set<T>, used: set<T>)
  {
    used <= items && L.UsedSuffix(list, used)
  }

  /** As many items are tracked as the order has positions. */
  lemma BookkeepingCard<T, Cb>(list: seq<T>, items: set<T>, cbs: map<T, Cb>)
    requires Bookkeeping(list, items, cbs)
    ensures |items| == |list|
  {
    L.DistinctCard(list);
  }

  /**
   * Admitting an untracked item at the tail, marked used, with its callback:
   * the bookkeeping and the recency discipline survive and the cache grows
   * by one.
   */
  lemma Admit<T, Cb>(list: seq<T>, items: set<T>, used: set<T>, cbs: map<T, Cb>, x: T, cb: Cb)
    requires Bookkeeping(list, items, cbs) && x !in items
    ensures Bookkeeping(list + [x], items + {x}, cbs[x := cb])
    ensures |items + {x}| == |items| + 1
    ensures used <= items ==> used + {x} <= items + {x}
    ensures Recency(list, items, used) ==> Recency(list + [x], items + {x}, used + {x})
  {
    assert L.Elements(list + [x]) == items + {x};
    if L.UsedSuffix(list, used) {
      L.PushUsed(list, used, x);
    }
  }

  /**
   * Forgetting a tracked item everywhere: the order loses exactly that item,
   * the bookkeeping and the recency discipline survive.
   */
  lemma Unlink<T, Cb>(list: seq<T>, items: set<T>, used: set<T>, cbs: map<T, Cb>, x: T)
    requires Bookkeeping(list, items, cbs) && x in items
    ensures Bookkeeping(L.Remove(list, x), items - {x}, cbs - {x})
    ensures |L.Remove(list, x)| == |list| - 1
    ensures used <= items ==> used - {x} <= items - {x}
    ensures Recency(list, items, used) ==> Recency(L.Remove(list, x), items - {x}, used - {x})
  {
    var k :| 0 <= k < |list| && list[k] == x;
    L.RemoveAt(list, k);
    if L.UsedSuffix(list, used) {
      L.SpliceUsed(list, used, k);
    }
  }

  /**
   * Moving a tracked, unused item to the tail and marking it used keeps the
   * bookkeeping and the recency discipline.
   */
  lemma Touch<T, Cb>(list: seq<T>, items: set<T>, used: set<T>, cbs: map<T, Cb>, x: T)
    requires Bookkeeping(list, items, cbs) && x in items && x !in used
    ensures Bookkeeping(L.Remove(list, x) + [x], items, cbs)
    ensures used <= items ==> used + {x} <= items
    ensures Recency(list, items, used) ==> Recency(L.Remove(list, x) + [x], items, used + {x})
  {
    var k :| 0 <= k < |list| && list[k] == x;
    L.RemoveAt(list, k);
    var rest := L.Remove(list, x);
    assert x !in L.Elements(rest);
    assert L.Elements(rest + [x]) == items;
    if L.UsedSuffix(list, used) {
      L.SpliceUsed(list, used, k);
      L.PushUsed(rest, used, x);
    }
  }

  /**
   * Popping the first n items and forgetting them and their callbacks keeps
   * the bookkeeping and shrinks the cache by n.
   */
  lemma Pop<T, Cb>(list: seq<T>, items: set<T>, cbs: map<T, Cb>, n: nat)
    requires Bookkeeping(list, items, cbs) && n <= |list|
    ensures Bookkeeping(list[n..], items - L.Elements(list[..n]), cbs - L.Elements(list[..n]))
    ensures |items - L.Elements(list[..n])| == |items| - n
  {
    L.DropElements(list, n);
    L.DistinctCard(list);
    L.DistinctCard(list[n..]);
    var rest := list[n..];
    forall i, j | 0 <= i < j < |rest|
      ensures rest[i] != rest[j]
    {
      assert rest[i] == list[n + i] && rest[j] == list[n + j];
    }
  }

  /**
   * The used marks after popping the first n items (which a pass does not
   * touch): they are all still tracked exactly when no popped item was used;
   * under the recency discipline, popping at most as many items as are
   * unused pops no used item and keeps the discipline.
   */
  lemma PopRecency<T, Cb>(list: seq<T>, items: set<T>, used: set<T>, cbs: map<T, Cb>, n: nat)
    requires Bookkeeping(list, items, cbs) && n <= |list|
    ensures used <= items ==>
              (used <= items - L.Elements(list[..n]) <==> forall i :: 0 <= i < n ==> list[i] !in used)
    ensures Recency(list, items, used) && n <= |items| - |used| ==>
              && (forall i :: 0 <= i < n ==> list[i] !in used)
              && Recency(list[n..], items - L.Elements(list[..n]), used)
  {
    L.DropElements(list, n);
    if used <= items {
      L.PopKeepsUsed(list, used, n);
      if L.UsedSuffix(list, used) && n <= |items| - |used| {
        L.DistinctCard(list);
        L.PopUnused(list, used, n);
      }
    }
  }

  /**
   * The bookkeeping after the first i items of list0 were popped, each item
   * being forgotten together with its callback once that callback was
   * invoked (log records the invocations, in order).
   */
  ghost predicate PoppedFrom<T, Cb>(list0: seq<T>, items0: set<T>, cbs0: map<T, Cb>, i: nat,
                                   list: seq<T>, items: set<T>, cbs: map<T, Cb>,
                                   log: seq<Release<T, Cb>>)
  {
    && i <= |list0|
    && list == list0[i..]
    && items == items0 - L.Elements(list0[..i])
    && cbs == cbs0 - L.Elements(list0[..i])
    && L.Elements(list0[..i]) <= cbs0.Keys
    && log == Releases(list0[..i], cbs0)
  }

  /** Nothing popped yet. */
  lemma PopNone<T, Cb>(list0: seq<T>, items0: set<T>, cbs0: map<T, Cb>)
    ensures PoppedFrom(list0, items0, cbs0, 0, list0, items0, cbs0, [])
  {
    assert list0[..0] == [] && list0[0..] == list0;
  }

  /** The release log of a prefix grows by the invocation for the next item. */
  lemma ReleasesSnoc<T, Cb>(list0: seq<T>, cbs0: map<T, Cb>, i: nat)
    requires i < |list0| && L.Elements(list0[..i]) <= cbs0.Keys && list0[i] in cbs0
    ensures L.Elements(list0[..i + 1]) == L.Elements(list0[..i]) + {list0[i]}
    ensures Releases(list0[..i + 1], cbs0) == Releases(list0[..i], cbs0) + [Release(list0[i], cbs0[list0[i]])]
  {
    assert list0[..i + 1] == list0[..i] + [list0[i]];
    assert list0[..i + 1][..i] == list0[..i];
  }

  /**
   * One more pop: the head is the next item of list0 and still has its
   * original callback; invoking it and forgetting the item and its callback
   * gives the state after i + 1 pops.
   */
  lemma PopOne<T, Cb>(list0: seq<T>, items0: set<T>, cbs0: map<T, Cb>, i: nat,
                      list: seq<T>, items: set<T>, cbs: map<T, Cb>, log: seq<Release<T, Cb>>)
    requires i < |list0| && L.Distinct(list0) && L.Elements(list0) <= cbs0.Keys
    requires PoppedFrom(list0, items0, cbs0, i, list, items, cbs, log)
    ensures list != [] && list[0] == list0[i] && list[0] in cbs
    ensures PoppedFrom(list0, items0, cbs0, i + 1, list[1..], items - {list[0]}, cbs - {list[0]},
                       log + [Release(list[0], cbs[list[0]])])
  {
    L.PopStep(list0, i);
    ReleasesSnoc(list0, cbs0, i);
    ForgetMore(cbs0, L.Elements(list0[..i]), list0[i]);
  }

  /** Forgetting keys one batch after another is forgetting their union. */
  lemma ForgetMore<K, V>(m: map<K, V>, gone: set<K>, k: K)
    ensures (m - gone) - {k} == m - (gone + {k})
    ensures k in m - gone ==> (m - gone)[k] == m[k]
  {
  }

  /**
   * The release loop of a cleanup pass, on the cache's bookkeeping: pops the
   * head of the order n times, invoking each popped item's callback (the
   * invocations are recorded in log) and forgetting the item and its callback.
   */
  method PopFront<T(==), Cb>(list0: seq<T>, items0: set<T>, cbs0: map<T, Cb>, n: nat)
      returns (list: seq<T>, items: set<T>, cbs: map<T, Cb>, ghost log: seq<Release<T, Cb>>)
    requires Bookkeeping(list0, items0, cbs0) && n <= |list0|
    ensures PoppedFrom(list0, items0, cbs0, n, list, items, cbs, log)
    ensures Bookkeeping(list, items, cbs) && |items| == |items0| - n
  {
    list, items, cbs, log := list0, items0, cbs0, [];
    PopNone(list0, items0, cbs0);
    var i := 0;
    while i < n
      invariant i <= n
      invariant PoppedFrom(list0, items0, cbs0, i, list, items, cbs, log)
    {
      PopOne(list0, items0, cbs0, i, list, items, cbs, log);
      var item := list[0];
      log := log + [Release(item, cbs[item])];
      list := list[1..];
      items := items - {item};
      cbs := cbs - {item};
      i := i + 1;
    }
    Pop(list0, items0, cbs0, n);
  }
}
