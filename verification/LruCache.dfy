/**
 The LRU cache with a time to live.  The source keeps its entries in a `Map`, whose iteration
 order is the order of insertion, and moves an entry to the end by deleting and re-inserting
 it; here the map is the sequence of its entries in that order, oldest first.  The clock is a
 parameter of every operation.
 */
module LruCache {
  import opened Wrappers

  datatype Item<V> = Item(key: string, value: V, createdAt: int, ttl: Option<int>)

  predicate IsExpired(item: Item, now: int) {
    item.ttl.Some? && item.ttl.value != 0 && now > item.createdAt + item.ttl.value
  }

  // ---------------------------------------------------------------- the insertion-ordered map

  predicate DistinctKeys(items: seq<Item>) {
    forall i, j :: 0 <= i < j < |items| ==> items[i].key != items[j].key
  }

  predicate Has(items: seq<Item>, key: string) {
    exists i :: 0 <= i < |items| && items[i].key == key
  }

  function Lookup<V(!new)>(items: seq<Item<V>>, key: string): (r: Option<Item<V>>)
    ensures r.Some? <==> Has(items, key)
    ensures r.Some? ==> r.value in items && r.value.key == key
  {
    if items == [] then None
    else if items[0].key == key then Some(items[0])
    else
      HasTail(items, key);
      Lookup(items[1..], key)
  }

  lemma HasTail(items: seq<Item>, key: string)
    requires items != []
    ensures Has(items, key) <==> items[0].key == key || Has(items[1..], key)
  {
    if Has(items, key) && items[0].key != key {
      var i :| 0 <= i < |items| && items[i].key == key;
      assert items[1..][i - 1].key == key;
    }
    if Has(items[1..], key) {
      var i :| 0 <= i < |items[1..]| && items[1..][i].key == key;
      assert items[i + 1].key == key;
    }
  }

  function Delete<V(!new)>(items: seq<Item<V>>, key: string): seq<Item<V>> {
    if items == [] then []
    else if items[0].key == key then Delete(items[1..], key)
    else [items[0]] + Delete(items[1..], key)
  }

  // ---------------------------------------------------------------- operations

  datatype Op<V> = Get(key: string) | Set(key: string, value: V, ttl: Option<int>) | Clear(key: string) | ClearAll

  function GetItems<V(!new)>(items: seq<Item<V>>, key: string, now: int): seq<Item<V>> {
    var hit := Lookup(items, key);
    if hit.None? then items
    else if IsExpired(hit.value, now) then Delete(items, key)
    else Delete(items, key) + [hit.value]
  }

  function GetValue<V(!new)>(items: seq<Item<V>>, key: string, now: int): Option<V> {
    var hit := Lookup(items, key);
    if hit.None? || IsExpired(hit.value, now) then None else Some(hit.value.value)
  }

  function SetItems<V(!new)>(maxSize: int, items: seq<Item<V>>, added: Item<V>): seq<Item<V>> {
    var kept :=
      if Has(items, added.key) then Delete(items, added.key)
      else if |items| >= maxSize && items != [] then items[1..]
      else items;
    kept + [added]
  }

  function Step<V(!new)>(maxSize: int, items: seq<Item<V>>, op: Op<V>, now: int): seq<Item<V>> {
    match op
    case Get(key) => GetItems(items, key, now)
    case Set(key, value, ttl) => SetItems(maxSize, items, Item(key, value, now, ttl))
    case Clear(key) => Delete(items, key)
    case ClearAll => []
  }

  /** A trace pairs every operation with the clock reading it sees. */
  type Trace<V> = seq<(Op<V>, int)>

  function Run<V(!new)>(maxSize: int, items: seq<Item<V>>, t: Trace<V>): seq<Item<V>>
    decreases |t|
  {
    if t == [] then items else Run(maxSize, Step(maxSize, items, t[0].0, t[0].1), t[1..])
  }

  // ---------------------------------------------------------------- the class

  class Cache<V(!new)> {
    var items: seq<Item<V>>
    const maxSize: int

    predicate Valid()
      reads this
    {
      DistinctKeys(items)
    }

    constructor (maxSize: int := 100)
      ensures Valid() && items == [] && this.maxSize == maxSize
    {
      items := [];
      this.maxSize := maxSize;
    }

    /** A hit moves the entry to the newest position; an expired entry is dropped on the way. */
    method Get(key: string, now: int) returns (r: Option<V>)
      requires Valid()
      modifies this`items
      ensures Valid() && items == Step(maxSize, old(items), Op<V>.Get(key), now)
      ensures r == GetValue(old(items), key, now)
      ensures r.Some? ==> items != [] && items[|items| - 1].key == key && items[|items| - 1].value == r.value
      ensures forall x :: x in items ==> x in old(items)
      ensures forall x :: x in old(items) && x.key != key ==> x in items
      ensures r.Some? <==> exists x :: x in old(items) && x.key == key && InTime(x, now)
      ensures Has(items, key) <==> r.Some?
    {
      GetIff(items, key, now);
      StepKeepsDistinct(maxSize, items, Op<V>.Get(key), now);
      DeleteMembers(items, key);
      GetMembers(items, key, now);
      var hit := Lookup(items, key);
      if hit.None? {
        return None;
      }
      items := Delete(items, key);
      if IsExpired(hit.value, now) {
        return None;
      }
      items := items + [hit.value];
      r := Some(hit.value.value);
    }

    /** Inserts at the newest position; makes room only for a key that is not there yet. */
    method Set(key: string, value: V, ttl: Option<int>, now: int)
      requires Valid()
      modifies this`items
      ensures Valid() && items == Step(maxSize, old(items), Op<V>.Set(key, value, ttl), now)
      ensures items[|items| - 1] == Item(key, value, now, ttl)
      ensures |old(items)| < maxSize || Has(old(items), key) ==>
                forall x :: x in old(items) && x.key != key ==> x in items
      ensures |old(items)| >= maxSize && old(items) != [] && !Has(old(items), key) ==>
                items == old(items)[1..] + [Item(key, value, now, ttl)]
    {
      StepKeepsDistinct(maxSize, items, Op<V>.Set(key, value, ttl), now);
      DeleteMembers(items, key);
      if Has(items, key) {
        items := Delete(items, key);
      } else if |items| >= maxSize {
        if items != [] {
          items := items[1..];
        }
      }
      items := items + [Item(key, value, now, ttl)];
    }

    method Clear(key: string)
      requires Valid()
      modifies this`items
      ensures Valid() && items == Step(maxSize, old(items), Op<V>.Clear(key), 0)
      ensures Subsequence(items, old(items))
      ensures forall x :: x in items <==> x in old(items) && x.key != key
    {
      DeleteIsSubsequence(items, key);
      StepKeepsDistinct(maxSize, items, Op<V>.Clear(key), 0);
      DeleteMembers(items, key);
      items := Delete(items, key);
    }

    method ClearAll()
      modifies this`items
      ensures Valid() && items == []
    {
      items := [];
    }
  }

  // ---------------------------------------------------------------- facts about deletion

  lemma {:induction false} DeleteMembers<V(!new)>(items: seq<Item<V>>, key: string)
    ensures forall x :: x in Delete(items, key) <==> x in items && x.key != key
    ensures !Has(Delete(items, key), key)
    ensures |Delete(items, key)| <= |items|
    ensures !Has(items, key) ==> Delete(items, key) == items
  {
    if items != [] {
      DeleteMembers(items[1..], key);
      HasTail(items, key);
      assert items == [items[0]] + items[1..];
      if items[0].key != key {
        HasTail(Delete(items, key), key);
        assert Delete(items, key)[1..] == Delete(items[1..], key);
      }
    }
  }

  lemma {:induction false} DeleteKeepsDistinct<V(!new)>(items: seq<Item<V>>, key: string)
    requires DistinctKeys(items)
    ensures DistinctKeys(Delete(items, key))
    ensures Has(items, key) ==> |Delete(items, key)| == |items| - 1
  {
    if items != [] {
      var rest := items[1..];
      DeleteKeepsDistinct(rest, key);
      DeleteMembers(rest, key);
      HasTail(items, key);
      HeadIsNew(items);
      if items[0].key != key {
        if Has(Delete(rest, key), items[0].key) {
          SubsetHas(Delete(rest, key), rest, items[0].key);
        }
        ConsDistinct(items[0], Delete(rest, key));
      }
    }
  }

  lemma HeadIsNew<V(!new)>(items: seq<Item<V>>)
    requires items != [] && DistinctKeys(items)
    ensures !Has(items[1..], items[0].key)
  {
  }

  lemma SubsetHas<V(!new)>(a: seq<Item<V>>, b: seq<Item<V>>, key: string)
    requires forall x :: x in a ==> x in b
    requires Has(a, key)
    ensures Has(b, key)
  {
    var i :| 0 <= i < |a| && a[i].key == key;
    assert a[i] in b;
  }

  lemma ConsDistinct<V(!new)>(x: Item<V>, items: seq<Item<V>>)
    requires DistinctKeys(items) && !Has(items, x.key)
    ensures DistinctKeys([x] + items)
  {
  }

  lemma StepKeepsDistinct<V(!new)>(maxSize: int, items: seq<Item<V>>, op: Op<V>, now: int)
    requires DistinctKeys(items)
    ensures DistinctKeys(Step(maxSize, items, op, now))
  {
    if !op.ClearAll? {
      DeleteKeepsDistinct(items, op.key);
      DeleteMembers(items, op.key);
      var d := Delete(items, op.key);
      match op
      case Get(key) =>
        if Has(items, key) {
          AppendDistinct(d, Lookup(items, key).value);
        }
      case Set(key, value, ttl) =>
        var added := Item(key, value, now, ttl);
        if Has(items, key) {
          AppendDistinct(d, added);
        } else if |items| >= maxSize && items != [] {
          HasTail(items, key);
          AppendDistinct(items[1..], added);
        } else {
          AppendDistinct(items, added);
        }
      case Clear(key) =>
    }
  }

  lemma AppendDistinct<V(!new)>(items: seq<Item<V>>, x: Item<V>)
    requires DistinctKeys(items) && !Has(items, x.key)
    ensures DistinctKeys(items + [x])
  {
  }

  lemma GetMembers<V(!new)>(items: seq<Item<V>>, key: string, now: int)
    ensures forall x :: x in GetItems(items, key, now) ==> x in items
    ensures forall x :: x in items && x.key != key ==> x in GetItems(items, key, now)
  {
    DeleteMembers(items, key);
    var hit := Lookup(items, key);
    if hit.Some? {
      assert forall x :: x in Delete(items, key) + [hit.value] <==> x in Delete(items, key) || x == hit.value;
    }
  }

  // ---------------------------------------------------------------- capacity

  /** What the constructor's `maxSize` amounts to: `set` never leaves the cache empty. */
  function Capacity(maxSize: int): nat {
    if maxSize < 1 then 1 else maxSize
  }

  lemma {:induction false} RunBounded<V(!new)>(maxSize: int, items: seq<Item<V>>, t: Trace<V>)
    requires DistinctKeys(items) && |items| <= Capacity(maxSize)
    ensures DistinctKeys(Run(maxSize, items, t)) && |Run(maxSize, items, t)| <= Capacity(maxSize)
    decreases |t|
  {
    if t != [] {
      var (op, now) := t[0];
      StepKeepsDistinct(maxSize, items, op, now);
      if !op.ClearAll? {
        DeleteKeepsDistinct(items, op.key);
        DeleteMembers(items, op.key);
      }
      RunBounded(maxSize, Step(maxSize, items, op, now), t[1..]);
    }
  }

  /** A cache stays within its `maxSize` over every run exactly when `maxSize` is positive. */
  lemma WithinMaxSizeIffPositive<V(!new)>(maxSize: int, v: V)
    ensures (forall t: Trace<V> :: |Run(maxSize, [], t)| <= maxSize) <==> maxSize >= 1
  {
    if maxSize >= 1 {
      forall t: Trace<V> ensures |Run(maxSize, [], t)| <= maxSize {
        RunBounded(maxSize, [], t);
      }
    } else {
      var t: Trace<V> := [(Set("k", v, None), 0)];
      assert Run(maxSize, [], t) == Run(maxSize, Step(maxSize, [], t[0].0, t[0].1), []);
      assert |Run(maxSize, [], t)| == 1;
    }
  }

  // ---------------------------------------------------------------- inclusion

  /** `a` is `b` with some entries left out: same entries, same relative order. */
  predicate Subsequence<V(!new,==)>(a: seq<Item<V>>, b: seq<Item<V>>) {
    a == [] ||
    (b != [] && ((a[0] == b[0] && Subsequence(a[1..], b[1..])) || Subsequence(a, b[1..])))
  }

  lemma {:induction false} SubMembers<V(!new)>(a: seq<Item<V>>, b: seq<Item<V>>)
    requires Subsequence(a, b)
    ensures forall x :: x in a ==> x in b
    ensures |a| <= |b|
  {
    if a != [] {
      if a[0] == b[0] && Subsequence(a[1..], b[1..]) {
        SubMembers(a[1..], b[1..]);
        assert forall x :: x in a ==> x == a[0] || x in a[1..];
      } else {
        SubMembers(a, b[1..]);
      }
    }
  }

  lemma {:induction false} SubDropLeft<V(!new)>(a: seq<Item<V>>, b: seq<Item<V>>)
    requires Subsequence(a, b) && a != []
    ensures Subsequence(a[1..], b)
  {
    if a[0] == b[0] && Subsequence(a[1..], b[1..]) {
      SubSkip(a[1..], b);
    } else {
      SubDropLeft(a, b[1..]);
      SubSkip(a[1..], b);
    }
  }

  lemma SubSkip<V(!new)>(a: seq<Item<V>>, b: seq<Item<V>>)
    requires b != [] && Subsequence(a, b[1..])
    ensures Subsequence(a, b)
  {
  }

  lemma SubDropBoth<V(!new)>(a: seq<Item<V>>, b: seq<Item<V>>)
    requires Subsequence(a, b) && a != []
    ensures b != [] && Subsequence(a[1..], b[1..])
  {
    if !(a[0] == b[0] && Subsequence(a[1..], b[1..])) {
      SubDropLeft(a, b[1..]);
    }
  }

  lemma {:induction false} SubAppendRight<V(!new)>(a: seq<Item<V>>, b: seq<Item<V>>, x: Item<V>)
    requires Subsequence(a, b)
    ensures Subsequence(a, b + [x])
  {
    if a != [] {
      assert (b + [x])[1..] == b[1..] + [x];
      if a[0] == b[0] && Subsequence(a[1..], b[1..]) {
        SubAppendRight(a[1..], b[1..], x);
      } else {
        SubAppendRight(a, b[1..], x);
      }
    }
  }

  lemma {:induction false} SubAppendBoth<V(!new)>(a: seq<Item<V>>, b: seq<Item<V>>, x: Item<V>)
    requires Subsequence(a, b)
    ensures Subsequence(a + [x], b + [x])
    decreases |b|
  {
    if b == [] {
      assert a + [x] == [x] && b + [x] == [x];
      assert Subsequence([x][1..], [x][1..]);
    } else {
      assert (b + [x])[1..] == b[1..] + [x];
      if a == [] {
        SubAppendBoth(a, b[1..], x);
      } else if a[0] == b[0] && Subsequence(a[1..], b[1..]) {
        SubAppendBoth(a[1..], b[1..], x);
        assert (a + [x])[1..] == a[1..] + [x];
      } else {
        SubAppendBoth(a, b[1..], x);
      }
    }
  }

  lemma {:induction false} SubDelete<V(!new)>(a: seq<Item<V>>, b: seq<Item<V>>, key: string)
    requires Subsequence(a, b)
    ensures Subsequence(Delete(a, key), Delete(b, key))
    decreases |b|
  {
    if a != [] {
      if a[0] == b[0] && Subsequence(a[1..], b[1..]) {
        SubDelete(a[1..], b[1..], key);
        if a[0].key != key {
          var da, db := Delete(a, key), Delete(b, key);
          assert da[1..] == Delete(a[1..], key) && db[1..] == Delete(b[1..], key);
        }
      } else {
        SubDelete(a, b[1..], key);
        if b[0].key != key {
          assert Delete(b, key)[1..] == Delete(b[1..], key);
          SubSkip(Delete(a, key), Delete(b, key));
        }
      }
    }
  }

  lemma {:induction false} LookupAgrees<V(!new)>(a: seq<Item<V>>, b: seq<Item<V>>, key: string)
    requires Subsequence(a, b) && DistinctKeys(b) && Has(a, key)
    ensures Lookup(b, key) == Lookup(a, key)
  {
    SubMembers(a, b);
    var x := Lookup(a, key).value;
    assert x in b;
    var i :| 0 <= i < |b| && b[i] == x;
    var y := Lookup(b, key);
    assert Has(b, key);
    var j :| 0 <= j < |b| && b[j] == y.value;
  }

  /** Deleting keeps the order of the others. */
  lemma {:induction false} DeleteIsSubsequence<V(!new)>(items: seq<Item<V>>, key: string)
    ensures Subsequence(Delete(items, key), items)
  {
    if items != [] {
      DeleteIsSubsequence(items[1..], key);
      if items[0].key == key {
        SubSkip(Delete(items, key), items);
      }
    }
  }

  /** The invariant of a small and a large cache fed the same trace. */
  ghost predicate Included<V(!new)>(k: int, small: seq<Item<V>>, K: int, large: seq<Item<V>>) {
    && Subsequence(small, large)
    && DistinctKeys(small) && DistinctKeys(large)
    && |small| <= Capacity(k) && |large| <= Capacity(K)
    && |large| - |small| <= Capacity(K) - Capacity(k)
  }

  lemma StepIncluded<V(!new)>(k: int, small: seq<Item<V>>, K: int, large: seq<Item<V>>, op: Op<V>, now: int)
    requires k <= K && Included(k, small, K, large)
    ensures Included(k, Step(k, small, op, now), K, Step(K, large, op, now))
    ensures op.Get? && GetValue(small, op.key, now).Some? ==>
              GetValue(large, op.key, now) == GetValue(small, op.key, now)
  {
    StepKeepsDistinct(k, small, op, now);
    StepKeepsDistinct(K, large, op, now);
    RunBounded(k, small, [(op, now)]);
    RunBounded(K, large, [(op, now)]);
    assert Run(k, small, [(op, now)]) == Run(k, Step(k, small, op, now), []);
    assert Run(K, large, [(op, now)]) == Run(K, Step(K, large, op, now), []);
    match op
    case Get(key) => GetIncluded(k, small, K, large, key, now);
    case Set(key, value, ttl) => SetIncluded(k, small, K, large, Item(key, value, now, ttl));
    case Clear(key) =>
      SubDelete(small, large, key);
      DeleteSizes(small, large, key);
    case ClearAll =>
  }

  lemma DeleteSizes<V(!new)>(small: seq<Item<V>>, large: seq<Item<V>>, key: string)
    requires Subsequence(small, large) && DistinctKeys(small) && DistinctKeys(large)
    ensures |Delete(large, key)| - |Delete(small, key)| <= |large| - |small|
    ensures Has(small, key) ==> Has(large, key)
  {
    DeleteKeepsDistinct(small, key);
    DeleteKeepsDistinct(large, key);
    DeleteMembers(small, key);
    DeleteMembers(large, key);
    if Has(small, key) {
      LookupAgrees(small, large, key);
    }
  }

  lemma GetIncluded<V(!new)>(k: int, small: seq<Item<V>>, K: int, large: seq<Item<V>>, key: string, now: int)
    requires k <= K && Included(k, small, K, large)
    ensures Subsequence(GetItems(small, key, now), GetItems(large, key, now))
    ensures |GetItems(large, key, now)| - |GetItems(small, key, now)| <= |large| - |small|
    ensures GetValue(small, key, now).Some? ==> GetValue(large, key, now) == GetValue(small, key, now)
  {
    SubDelete(small, large, key);
    DeleteSizes(small, large, key);
    DeleteMembers(small, key);
    DeleteKeepsDistinct(large, key);
    DeleteKeepsDistinct(small, key);
    if Has(small, key) {
      LookupAgrees(small, large, key);
      SubAppendBoth(Delete(small, key), Delete(large, key), Lookup(small, key).value);
    } else if Has(large, key) {
      SubAppendRight(small, Delete(large, key), Lookup(large, key).value);
    }
  }

  lemma SetIncluded<V(!new)>(k: int, small: seq<Item<V>>, K: int, large: seq<Item<V>>, added: Item<V>)
    requires k <= K && Included(k, small, K, large)
    ensures Subsequence(SetItems(k, small, added), SetItems(K, large, added))
    ensures |SetItems(K, large, added)| - |SetItems(k, small, added)| <= Capacity(K) - Capacity(k)
  {
    var key := added.key;
    SubDelete(small, large, key);
    DeleteSizes(small, large, key);
    DeleteMembers(small, key);
    DeleteKeepsDistinct(large, key);
    DeleteKeepsDistinct(small, key);
    SubMembers(small, large);
    var a, b := SetItems(k, small, added), SetItems(K, large, added);
    var keptA, keptB := a[..|a| - 1], b[..|b| - 1];
    assert a == keptA + [added] && b == keptB + [added];
    if !Has(small, key) && |small| >= k && small != [] {
      assert keptA == small[1..];
      if Has(large, key) {
        SubDropLeft(small, Delete(large, key));
      } else if |large| >= K && large != [] {
        SubDropBoth(small, large);
      } else {
        SubDropLeft(small, large);
      }
    }
    SubAppendBoth(keptA, keptB, added);
  }

  /** The results of the `get`s of a run, in order. */
  function Hits<V(!new)>(maxSize: int, items: seq<Item<V>>, t: Trace<V>): seq<Option<V>>
    decreases |t|
  {
    if t == [] then []
    else
      (if t[0].0.Get? then [GetValue(items, t[0].0.key, t[0].1)] else [])
      + Hits(maxSize, Step(maxSize, items, t[0].0, t[0].1), t[1..])
  }

  /**
   Two caches driven by one trace on one clock: the smaller one's entries are always among
   the larger one's, in the same order, with at most K - k extras there, and each hit in the
   smaller one is the same hit in the larger one.
   */
  lemma {:induction false} InclusionOverRuns<V(!new)>(k: int, small: seq<Item<V>>, K: int, large: seq<Item<V>>, t: Trace<V>)
    requires k <= K && Included(k, small, K, large)
    ensures Included(k, Run(k, small, t), K, Run(K, large, t))
    ensures |Hits(k, small, t)| == |Hits(K, large, t)|
    ensures forall i :: 0 <= i < |Hits(k, small, t)| && Hits(k, small, t)[i].Some? ==>
                          Hits(K, large, t)[i] == Hits(k, small, t)[i]
    decreases |t|
  {
    if t != [] {
      StepIncluded(k, small, K, large, t[0].0, t[0].1);
      InclusionOverRuns(k, Step(k, small, t[0].0, t[0].1), K, Step(K, large, t[0].0, t[0].1), t[1..]);
    }
  }

  /** The same from two empty caches. */
  lemma InclusionFromEmpty<V(!new)>(k: int, K: int, t: Trace<V>)
    requires k <= K
    ensures Included(k, Run<V>(k, [], t), K, Run<V>(K, [], t))
  {
    InclusionOverRuns<V>(k, [], K, [], t);
  }

  // ---------------------------------------------------------------- the clock

  /** Without a time to live, or with one of zero, an entry is always in time; otherwise up to its end. */
  predicate InTime(item: Item, now: int) {
    item.ttl.None? || item.ttl == Some(0) || now <= item.createdAt + item.ttl.value
  }

  /** A key is found exactly when it has an entry in time; looking it up drops any other. */
  lemma GetIff<V(!new)>(items: seq<Item<V>>, key: string, now: int)
    requires DistinctKeys(items)
    ensures GetValue(items, key, now).Some? <==> exists x :: x in items && x.key == key && InTime(x, now)
    ensures GetValue(items, key, now).Some? <==> Has(GetItems(items, key, now), key)
  {
    DeleteMembers(items, key);
    var hit := Lookup(items, key);
    if hit.Some? {
      assert forall x :: x in items && x.key == key ==> x == hit.value;
      var kept := Delete(items, key) + [hit.value];
      assert kept[|kept| - 1] == hit.value;
    } else {
      forall x | x in items ensures x.key != key {
        var i :| 0 <= i < |items| && items[i] == x;
      }
    }
  }

  /** What was just set is found exactly as long as its time to live says, with the clock written out. */
  lemma SetThenGetIff<V(!new)>(maxSize: int, items: seq<Item<V>>, key: string, v: V, at: int, ttl: Option<int>, now: int)
    ensures
      var r := GetValue(SetItems(maxSize, items, Item(key, v, at, ttl)), key, now);
      && (r == Some(v) <==> ttl.None? || ttl == Some(0) || now <= at + ttl.value)
      && (r.None? || r == Some(v))
  {
    var added := Item(key, v, at, ttl);
    var after := SetItems(maxSize, items, added);
    DeleteMembers(items, key);
    var before := after[..|after| - 1];
    assert after == before + [added];
    assert !Has(before, key);
    LookupLast(before, added);
  }

  lemma {:induction false} LookupLast<V(!new)>(before: seq<Item<V>>, x: Item<V>)
    requires !Has(before, x.key)
    ensures Lookup(before + [x], x.key) == Some(x)
  {
    if before != [] {
      HasTail(before, x.key);
      LookupLast(before[1..], x);
      assert (before + [x])[1..] == before[1..] + [x];
    }
  }

  // ---------------------------------------------------------------- retention

  /** The keys that `get` and `set` name in a trace. */
  function Touched<V(!new)>(t: Trace<V>): set<string> {
    if t == [] then {}
    else (if t[0].0.Get? || t[0].0.Set? then {t[0].0.key} else {}) + Touched(t[1..])
  }

  /** No operation of the trace overwrites, clears or finds expired the given entry. */
  predicate Spares<V(!new)>(item: Item<V>, t: Trace<V>) {
    forall i :: 0 <= i < |t| ==>
      match t[i].0
      case Get(key) => key == item.key ==> InTime(item, t[i].1)
      case Set(key, _, _) => key != item.key
      case Clear(key) => key != item.key
      case ClearAll => false
  }

  /** The entry is there and only keys of `newer` come after it. */
  ghost predicate Recent<V(!new)>(items: seq<Item<V>>, item: Item<V>, newer: set<string>) {
    exists p :: 0 <= p < |items| && items[p] == item && NewerAfter(items, p, newer)
  }

  predicate NewerAfter(items: seq<Item>, p: nat, newer: set<string>) {
    forall j :: p < j < |items| ==> items[j].key in newer
  }

  lemma {:induction false} DistinctFitsInSet<V(!new)>(items: seq<Item<V>>, p: nat, keys: set<string>)
    requires DistinctKeys(items) && p <= |items|
    requires forall j :: p <= j < |items| ==> items[j].key in keys
    ensures |items| - p <= |keys|
    decreases |items| - p
  {
    if p < |items| {
      DistinctFitsInSet(items, p + 1, keys - {items[p].key});
    }
  }

  lemma {:induction false} DeleteKeepsRecent<V(!new)>(items: seq<Item<V>>, item: Item<V>, newer: set<string>, key: string)
    requires Recent(items, item, newer) && item.key != key
    ensures Recent(Delete(items, key), item, newer)
  {
    var p :| 0 <= p < |items| && items[p] == item && NewerAfter(items, p, newer);
    var d := Delete(items, key);
    if p == 0 {
      assert d[0] == item && d[1..] == Delete(items[1..], key);
      DeleteMembers(items[1..], key);
      forall j | 0 < j < |d| ensures d[j].key in newer {
        assert d[j] == d[1..][j - 1] && d[j] in Delete(items[1..], key);
        var i :| 0 <= i < |items[1..]| && items[1..][i] == d[j];
        assert items[i + 1] == d[j];
      }
      assert NewerAfter(d, 0, newer);
    } else {
      var rest := items[1..];
      assert rest[p - 1] == item && NewerAfter(rest, p - 1, newer);
      DeleteKeepsRecent(rest, item, newer, key);
      if items[0].key != key {
        var dr := Delete(rest, key);
        var q :| 0 <= q < |dr| && dr[q] == item && NewerAfter(dr, q, newer);
        assert d == [items[0]] + dr;
        assert d[q + 1] == item && NewerAfter(d, q + 1, newer);
      }
    }
  }

  lemma AppendKeepsRecent<V(!new)>(items: seq<Item<V>>, item: Item<V>, newer: set<string>, x: Item<V>)
    requires Recent(items, item, newer) && x.key in newer
    ensures Recent(items + [x], item, newer)
  {
    var p :| 0 <= p < |items| && items[p] == item && NewerAfter(items, p, newer);
    assert (items + [x])[p] == item && NewerAfter(items + [x], p, newer);
  }

  lemma StepKeepsRecent<V(!new)>(
    maxSize: int, items: seq<Item<V>>, item: Item<V>, newer: set<string>, op: Op<V>, now: int)
    requires DistinctKeys(items) && Recent(items, item, newer)
    requires Spares(item, [(op, now)])
    requires (op.Get? || op.Set?) && op.key != item.key ==> op.key in newer
    requires |newer| < Capacity(maxSize)
    ensures Recent(Step(maxSize, items, op, now), item, newer)
  {
    assert [(op, now)][0] == (op, now);
    var p :| 0 <= p < |items| && items[p] == item && NewerAfter(items, p, newer);
    if !op.ClearAll? && op.key != item.key {
      DeleteKeepsRecent(items, item, newer, op.key);
    }
    match op
    case Get(key) =>
      var hit := Lookup(items, key);
      if hit.Some? && key == item.key {
        var j :| 0 <= j < |items| && items[j] == hit.value;
        assert hit.value == item;
        var r := Delete(items, key) + [item];
        assert r[|r| - 1] == item && NewerAfter(r, |r| - 1, newer);
      } else if hit.Some? && !IsExpired(hit.value, now) {
        AppendKeepsRecent(Delete(items, key), item, newer, hit.value);
      }
    case Set(key, value, ttl) =>
      var added := Item(key, value, now, ttl);
      if Has(items, key) {
        AppendKeepsRecent(Delete(items, key), item, newer, added);
      } else if |items| >= maxSize {
        if p == 0 {
          // Everything newer, and the new key besides, would have to fit in `newer`.
          forall j | 1 <= j < |items| ensures items[j].key in newer - {key} {
            assert items[j].key != key;
          }
          DistinctFitsInSet(items, 1, newer - {key});
          assert false;
        }
        assert items[1..][p - 1] == item && NewerAfter(items[1..], p - 1, newer);
        AppendKeepsRecent(items[1..], item, newer, added);
      } else {
        AppendKeepsRecent(items, item, newer, added);
      }
    case Clear(key) =>
  }

  lemma {:induction false} RunKeepsRecent<V(!new)>(
    maxSize: int, items: seq<Item<V>>, item: Item<V>, newer: set<string>, t: Trace<V>)
    requires DistinctKeys(items) && Recent(items, item, newer)
    requires Spares(item, t) && Touched(t) - {item.key} <= newer
    requires |newer| < Capacity(maxSize)
    ensures DistinctKeys(Run(maxSize, items, t)) && Recent(Run(maxSize, items, t), item, newer)
    decreases |t|
  {
    if t != [] {
      var (op, now) := t[0];
      assert Spares(item, [(op, now)]) by {
        assert t[0].0 == op;
      }
      StepKeepsDistinct(maxSize, items, op, now);
      StepKeepsRecent(maxSize, items, item, newer, op, now);
      assert forall i :: 0 <= i < |t[1..]| ==> t[1..][i] == t[i + 1];
      assert Spares(item, t[1..]);
      RunKeepsRecent(maxSize, Step(maxSize, items, op, now), item, newer, t[1..]);
    }
  }

  /**
   What a least-recently-used policy promises: from any state, a value that was set is still
   found after every trace that touches fewer than capacity other keys and does not itself
   overwrite, clear or outlive it.
   */
  lemma SetIsRetained<V(!new)>(maxSize: int, items: seq<Item<V>>, added: Item<V>, t: Trace<V>, now: int)
    requires DistinctKeys(items)
    requires Spares(added, t) && InTime(added, now)
    requires |Touched(t) - {added.key}| < Capacity(maxSize)
    ensures GetValue(Run(maxSize, SetItems(maxSize, items, added), t), added.key, now) == Some(added.value)
  {
    var start := SetItems(maxSize, items, added);
    StepKeepsDistinct(maxSize, items, Set(added.key, added.value, added.ttl), added.createdAt);
    assert added == Item(added.key, added.value, added.createdAt, added.ttl);
    var newer := Touched(t) - {added.key};
    assert start[|start| - 1] == added && NewerAfter(start, |start| - 1, newer);
    RunKeepsRecent(maxSize, start, added, newer, t);
    var end := Run(maxSize, start, t);
    var p :| 0 <= p < |end| && end[p] == added && NewerAfter(end, p, newer);
    var hit := Lookup(end, added.key);
    assert Has(end, added.key);
    var j :| 0 <= j < |end| && end[j] == hit.value;
  }

  /**
   In particular an entry without a time to live is found at any time, after every trace that
   touches fewer than capacity other keys and does not set or clear its key or clear all.
   */
  lemma NoTtlIsKept<V(!new)>(maxSize: int, items: seq<Item<V>>, added: Item<V>, t: Trace<V>, now: int)
    requires DistinctKeys(items) && (added.ttl.None? || added.ttl == Some(0))
    requires forall i :: 0 <= i < |t| ==> t[i].0 != ClearAll && (t[i].0.key == added.key ==> t[i].0.Get?)
    requires |Touched(t) - {added.key}| < Capacity(maxSize)
    ensures GetValue(Run(maxSize, SetItems(maxSize, items, added), t), added.key, now) == Some(added.value)
  {
    SetIsRetained(maxSize, items, added, t, now);
  }
}
