/**
 * The recency order of the cache, modelled by the contract of the doubly linked
 * list it is kept in (src/utilities/LinkedList.js is not part of this model).
 * The head of a sequence is the least recently used item, the tail the most
 * recently used one. `push` is `s + [x]`, `pop` is `s[0]` with `s[1..]` left,
 * and `remove` is the function Remove below.
 */
module RecencyList {

  /** The items a sequence holds. */
  ghost function Elements<T>(s: seq<T>): set<T>
  {
    set x | x in s
  }

  /** No item occurs twice in the order. */
  ghost predicate Distinct<T>(s: seq<T>)
  {
    forall i, j :: 0 <= i < j < |s| ==> s[i] != s[j]
  }

  /**
   * Every item marked used lies after (closer to the tail than) every item
   * that is not: the unused items form a prefix of the order.
   */
  ghost predicate UsedSuffix<T>(s: seq<T>, used: set<T>)
  {
    forall i, j :: 0 <= i < j < |s| && s[i] in used ==> s[j] in used
  }

  /** Unlinks `x` from the order; the other items keep their order. */
  function Remove<T(==)>(s: seq<T>, x: T): (r: seq<T>)
    ensures Elements(r) == Elements(s) - {x}
    ensures Distinct(s) ==> Distinct(r)
    ensures |r| <= |s|
  {
    if s == [] then []
    else
      var rest := Remove(s[1..], x);
      assert Elements(s) == {s[0]} + Elements(s[1..]);
      if s[0] == x then rest
      else
        var r := [s[0]] + rest;
        assert Elements(r) == {s[0]} + Elements(rest);
        assert Distinct(s) ==> s[0] !in Elements(s[1..]);
        assert forall j :: 0 < j < |r| ==> r[j] == rest[j - 1];
        r
  }

  /** Removing an item that is not there leaves the order as it was. */
  lemma {:induction false} RemoveAbsent<T>(s: seq<T>, x: T)
    requires x !in s
    ensures Remove(s, x) == s
  {
    if s != [] {
      RemoveAbsent(s[1..], x);
    }
  }

  /**
   * In a duplicate-free order, removing the item at position k splices it out
   * and changes nothing else.
   */
  lemma {:induction false} RemoveAt<T>(s: seq<T>, k: nat)
    requires Distinct(s) && k < |s|
    ensures Remove(s, s[k]) == s[..k] + s[k + 1..]
  {
    if k == 0 {
      assert s[0] !in s[1..];
      RemoveAbsent(s[1..], s[0]);
    } else {
      assert s[1..][k - 1] == s[k];
      RemoveAt(s[1..], k - 1);
      assert s[..k] == [s[0]] + s[1..][..k - 1];
      assert s[k + 1..] == s[1..][k..];
    }
  }

  /** One pop of a duplicate-free order: the head of s[i..] is s[i], and it had not been popped before. */
  lemma PopStep<T>(s: seq<T>, i: nat)
    requires Distinct(s) && i < |s|
    ensures s[i..][0] == s[i] && s[i..][1..] == s[i + 1..]
    ensures s[..i + 1] == s[..i] + [s[i]]
    ensures Elements(s[..i + 1]) == Elements(s[..i]) + {s[i]}
    ensures s[i] in Elements(s) && s[i] !in Elements(s[..i])
  {
    assert s[..i + 1] == s[..i] + [s[i]];
  }

  /** A duplicate-free order has as many positions as distinct items. */
  lemma {:induction false} DistinctCard<T>(s: seq<T>)
    requires Distinct(s)
    ensures |Elements(s)| == |s|
  {
    if s != [] {
      DistinctCard(s[1..]);
      assert Elements(s) == {s[0]} + Elements(s[1..]);
      assert s[0] !in Elements(s[1..]);
    }
  }

  /**
   * Popping the first k items of a duplicate-free order leaves exactly the
   * items that were not popped.
   */
  lemma DropElements<T>(s: seq<T>, k: nat)
    requires Distinct(s) && k <= |s|
    ensures Elements(s[k..]) == Elements(s) - Elements(s[..k])
  {
    assert s == s[..k] + s[k..];
    forall x | x in Elements(s[k..])
      ensures x !in Elements(s[..k])
    {
      var j :| k <= j < |s| && s[j] == x;
    }
  }

  /**
   * When the used items form a suffix and are all tracked, the first
   * |s| - |used| items are unused: they are exactly the unused ones.
   */
  lemma UsedSuffixHeadUnused<T>(s: seq<T>, used: set<T>, i: nat)
    requires Distinct(s) && used <= Elements(s) && UsedSuffix(s, used)
    requires i < |s| - |used|
    ensures s[i] !in used
  {
    if s[i] in used {
      assert Elements(s[i..]) <= used;
      DistinctCard(s[i..]);
      SubsetCard(Elements(s[i..]), used);
    }
  }

  /** A subset has no more elements than its superset. */
  lemma SubsetCard<T>(a: set<T>, b: set<T>)
    requires a <= b
    ensures |a| <= |b|
  {
    assert b == a + (b - a);
  }

  /**
   * After the first k items are popped, the used items are all still in the
   * order exactly when none of the popped items was used.
   */
  lemma PopKeepsUsed<T>(s: seq<T>, used: set<T>, k: nat)
    requires Distinct(s) && used <= Elements(s) && k <= |s|
    ensures used <= Elements(s[k..]) <==> forall i :: 0 <= i < k ==> s[i] !in used
  {
    DropElements(s, k);
    if forall i :: 0 <= i < k ==> s[i] !in used {
      forall x | x in used
        ensures x in Elements(s[k..])
      {
        var j :| 0 <= j < |s| && s[j] == x;
        assert j >= k;
        assert s[k..][j - k] == x;
      }
    } else {
      var i :| 0 <= i < k && s[i] in used;
      assert s[..k][i] == s[i];
    }
  }

  /**
   * Popping the first k items of an order whose used items form a tracked
   * suffix, with k no more than the unused count: no popped item was used,
   * and the rest still holds every used item in a suffix.
   */
  lemma PopUnused<T>(s: seq<T>, used: set<T>, k: nat)
    requires Distinct(s) && used <= Elements(s) && UsedSuffix(s, used)
    requires k <= |s| - |used|
    ensures forall i :: 0 <= i < k ==> s[i] !in used
    ensures used <= Elements(s[k..]) && UsedSuffix(s[k..], used)
  {
    forall i | 0 <= i < k
      ensures s[i] !in used
    {
      UsedSuffixHeadUnused(s, used, i);
    }
    PopKeepsUsed(s, used, k);
  }

  /** Pushing a newly used item at the tail keeps the used items a suffix. */
  lemma PushUsed<T>(s: seq<T>, used: set<T>, x: T)
    requires UsedSuffix(s, used) && x !in s
    ensures UsedSuffix(s + [x], used + {x})
  {
  }

  /**
   * Splicing one item out of a duplicate-free order keeps the used items
   * after the unused ones, with or without that item's mark.
   */
  lemma SpliceUsed<T>(s: seq<T>, used: set<T>, k: nat)
    requires Distinct(s) && k < |s| && UsedSuffix(s, used)
    ensures UsedSuffix(s[..k] + s[k + 1..], used)
    ensures UsedSuffix(s[..k] + s[k + 1..], used - {s[k]})
  {
    var r := s[..k] + s[k + 1..];
    forall i | 0 <= i < |r|
      ensures r[i] == s[if i < k then i else i + 1]
    {
    }
  }
}
