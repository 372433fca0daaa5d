/**
 * The rotating cache of seen post ids: `deque(maxlen=MAX_SEEN_POSTS)`, tested with a
 * linear `in` and extended with `append`, which drops the oldest id of a full deque.
 */
module SeenCache {

  /** `MAX_SEEN_POSTS`: the number of most recent ids kept in memory. */
  const MaxSeenPosts: nat := 10_000

  predicate NoDuplicates(s: seq<string>) {
    forall i, j :: 0 <= i < j < |s| ==> s[i] != s[j]
  }

  /** The last `n` elements of `s` (all of `s` when it is shorter). */
  function KeepLast<T>(n: nat, s: seq<T>): (r: seq<T>)
    ensures |r| <= n && |r| <= |s| && r == s[|s| - |r|..]
    ensures |s| <= n ==> r == s
    ensures |s| >= n ==> |r| == n
  {
    if |s| <= n then s else s[|s| - n..]
  }

  /** Keeping the last `n` twice is keeping the last `n` once. */
  lemma KeepLastAppend<T>(n: nat, a: seq<T>, b: seq<T>)
    ensures KeepLast(n, KeepLast(n, a) + b) == KeepLast(n, a + b)
  {
    if |a| > n {
      var k := KeepLast(n, a);
      assert k + b == (a + b)[|a| - n..];
    }
  }

  /** One `if post_id in seen_posts: continue` / `seen_posts.append(post_id)` step
      under the lock, on a deque of at most `capacity` ids: the result is whether the id was
      already present, and the deque afterwards. */
  function CheckAndAddStep(items: seq<string>, capacity: nat, id: string): (r: (bool, seq<string>))
    ensures r.0 <==> id in items
    ensures |items| <= capacity ==> |r.1| <= capacity
    ensures r.0 ==> r.1 == items
    ensures !r.0 && |items| < capacity ==> r.1 == items + [id]
    ensures !r.0 && |items| == capacity > 0 ==> r.1 == items[1..] + [id]
    ensures capacity > 0 ==> id in r.1
  {
    if id in items then (true, items)
    else
      var next := KeepLast(capacity, items + [id]);
      assert |items| == capacity > 0 ==> next == items[1..] + [id];
      assert capacity > 0 ==> next[|next| - 1] == id;
      (false, next)
  }

  lemma AppendFreshKeepsDistinct(items: seq<string>, id: string)
    requires NoDuplicates(items) && id !in items
    ensures NoDuplicates(items + [id])
  {
    var all := items + [id];
    forall i, j | 0 <= i < j < |all|
      ensures all[i] != all[j]
    {
      assert all[i] == items[i];
    }
  }

  lemma SuffixKeepsDistinct(s: seq<string>, k: nat)
    requires NoDuplicates(s) && k <= |s|
    ensures NoDuplicates(s[k..])
  {
    var t := s[k..];
    forall i, j | 0 <= i < j < |t|
      ensures t[i] != t[j]
    {
      assert t[i] == s[k + i] && t[j] == s[k + j];
    }
  }

  /** The cache never holds the same id twice. */
  lemma CheckAndAddKeepsDistinct(items: seq<string>, capacity: nat, id: string)
    requires |items| <= capacity && NoDuplicates(items)
    ensures NoDuplicates(CheckAndAddStep(items, capacity, id).1)
  {
    var r := CheckAndAddStep(items, capacity, id);
    if !r.0 {
      var all := items + [id];
      AppendFreshKeepsDistinct(items, id);
      SuffixKeepsDistinct(all, |all| - |r.1|);
    }
  }

  /** Feeding a sequence of ids through the cache: the final deque and the number of ids
      that were inserted (not skipped). */
  function RunIds(items: seq<string>, capacity: nat, ids: seq<string>): (r: (seq<string>, nat))
    ensures |items| <= capacity ==> |r.0| <= capacity
    ensures r.1 <= |ids|
    decreases |ids|
  {
    if ids == [] then (items, 0)
    else
      var step := CheckAndAddStep(items, capacity, ids[0]);
      var rest := RunIds(step.1, capacity, ids[1..]);
      (rest.0, rest.1 + if step.0 then 0 else 1)
  }

  /** An id stays in the cache as long as the ids inserted after it, counted with those
      still to come, number fewer than the capacity. */
  lemma {:induction false} StaysWithinWindow(items: seq<string>, capacity: nat, ids: seq<string>, p: nat)
    requires |items| <= capacity && p < |items|
    requires |items| - 1 - p + RunIds(items, capacity, ids).1 < capacity
    ensures items[p] in RunIds(items, capacity, ids).0
    decreases |ids|
  {
    if ids != [] {
      var step := CheckAndAddStep(items, capacity, ids[0]);
      if step.0 {
        StaysWithinWindow(items, capacity, ids[1..], p);
      } else {
        var next := step.1;
        var drop := |items| + 1 - |next|;
        assert next == (items + [ids[0]])[drop..];
        assert next[p - drop] == items[p];
        StaysWithinWindow(next, capacity, ids[1..], p - drop);
      }
    }
  }

  /** A post delivered again is skipped, provided fewer than `capacity` ids were inserted
      between its first delivery (which inserted it) and the repeat. */
  lemma RedeliveryIsSkipped(items: seq<string>, capacity: nat, id: string, between: seq<string>)
    requires |items| <= capacity && capacity > 0 && id !in items
    requires RunIds(CheckAndAddStep(items, capacity, id).1, capacity, between).1 < capacity
    ensures var after := CheckAndAddStep(items, capacity, id).1;
      CheckAndAddStep(RunIds(after, capacity, between).0, capacity, id).0
  {
    var after := CheckAndAddStep(items, capacity, id).1;
    assert after[|after| - 1] == id;
    StaysWithinWindow(after, capacity, between, |after| - 1);
  }

  /** Every id of `ids` is new when it arrives: absent from `items` and from the ids
      before it. */
  predicate ArriveFresh(items: seq<string>, ids: seq<string>)
    decreases |ids|
  {
    ids == [] || (ids[0] !in items && ArriveFresh(items + [ids[0]], ids[1..]))
  }

  /** Forgetting the oldest ids keeps later arrivals fresh. */
  lemma {:induction false} ArriveFreshSuffix(a: seq<string>, b: seq<string>, ids: seq<string>)
    requires ArriveFresh(a + b, ids)
    ensures ArriveFresh(b, ids)
    decreases |ids|
  {
    if ids != [] {
      assert a + b + [ids[0]] == a + (b + [ids[0]]);
      ArriveFreshSuffix(a, b + [ids[0]], ids[1..]);
    }
  }

  /** Pairwise distinct ids that do not collide with the cache arrive fresh. */
  lemma {:induction false} DistinctArriveFresh(items: seq<string>, ids: seq<string>)
    requires NoDuplicates(items + ids)
    ensures ArriveFresh(items, ids)
    decreases |ids|
  {
    if ids != [] {
      var all := items + ids;
      forall k | 0 <= k < |items|
        ensures items[k] != ids[0]
      {
        assert all[k] == items[k] && all[|items|] == ids[0];
      }
      assert (items + [ids[0]]) + ids[1..] == all;
      DistinctArriveFresh(items + [ids[0]], ids[1..]);
    }
  }

  lemma ConsSplit(items: seq<string>, ids: seq<string>)
    requires ids != []
    ensures items + [ids[0]] + ids[1..] == items + ids
  {
  }

  /** The first id of a run is handled first and the rest of the run follows it. */
  lemma RunIdsFirst(items: seq<string>, capacity: nat, ids: seq<string>)
    requires ids != []
    ensures var step := CheckAndAddStep(items, capacity, ids[0]);
      var rest := RunIds(step.1, capacity, ids[1..]);
      RunIds(items, capacity, ids) == (rest.0, rest.1 + if step.0 then 0 else 1)
  {
  }

  /** Ids that arrive fresh are all inserted, and the cache ends up holding the most
      recent `capacity` ids, in arrival order. */
  lemma {:induction false} FreshIdsFillInOrder(items: seq<string>, capacity: nat, ids: seq<string>)
    requires |items| <= capacity && ArriveFresh(items, ids)
    ensures RunIds(items, capacity, ids) == (KeepLast(capacity, items + ids), |ids|)
    decreases |ids|
  {
    if ids == [] {
      assert items + ids == items;
      assert RunIds(items, capacity, ids) == (items, 0);
    } else {
      var all := items + [ids[0]];
      var step := CheckAndAddStep(items, capacity, ids[0]);
      assert step == (false, KeepLast(capacity, all));
      var next := step.1;
      RunIdsFirst(items, capacity, ids);
      assert ArriveFresh(next, ids[1..]) by {
        assert all == all[..|all| - |next|] + next;
        ArriveFreshSuffix(all[..|all| - |next|], next, ids[1..]);
      }
      var rest := RunIds(next, capacity, ids[1..]);
      FreshIdsFillInOrder(next, capacity, ids[1..]);
      assert rest.0 == KeepLast(capacity, next + ids[1..]) && rest.1 == |ids| - 1;
      KeepLastAppend(capacity, all, ids[1..]);
      ConsSplit(items, ids);
      assert rest.0 == KeepLast(capacity, items + ids);
      assert RunIds(items, capacity, ids).0 == rest.0;
      assert RunIds(items, capacity, ids).1 == rest.1 + 1;
    }
  }

  /** After `capacity + 1` distinct ids reach an empty cache, the first of them has been
      evicted and a new delivery of it is treated as unseen. */
  lemma OldestEvictedAfterCapacityPlusOne(capacity: nat, ids: seq<string>)
    requires |ids| == capacity + 1 && NoDuplicates(ids)
    ensures !CheckAndAddStep(RunIds([], capacity, ids).0, capacity, ids[0]).0
  {
    assert [] + ids == ids;
    DistinctArriveFresh([], ids);
    FreshIdsFillInOrder([], capacity, ids);
    var final := RunIds([], capacity, ids).0;
    assert final == ids[1..];
    forall j | 0 <= j < |final|
      ensures final[j] != ids[0]
    {
      assert final[j] == ids[j + 1];
    }
  }

  /** `seen_posts` with `seen_posts_lock`: a bounded FIFO of the ids seen most recently. */
  class SeenPostCache {
    const capacity: nat
    var items: seq<string>

    ghost predicate Valid()
      reads this
    {
      |items| <= capacity && NoDuplicates(items)
    }

    /** `deque(maxlen=capacity)`. */
    constructor (capacity: nat)
      ensures Valid() && this.capacity == capacity && items == []
    {
      this.capacity := capacity;
      items := [];
    }

    /** The check-and-append block: `seen` tells whether the id was already present
        (the caller skips the post); otherwise the id is appended at the back, evicting
        the front id of a full cache. */
    method CheckAndAdd(id: string) returns (seen: bool)
      requires Valid()
      modifies this
      ensures Valid()
      ensures (seen, items) == CheckAndAddStep(old(items), capacity, id)
    {
      var i := 0;
      seen := false;
      while i < |items| && !seen
        invariant 0 <= i <= |items|
        invariant seen <==> i > 0 && items[i - 1] == id
        invariant forall k :: 0 <= k < i - 1 ==> items[k] != id
      {
        seen := items[i] == id;
        i := i + 1;
      }
      if !seen {
        if |items| == capacity {
          if capacity > 0 {
            items := items[1..] + [id];
          }
        } else {
          items := items + [id];
        }
      }
    }
  }
}
