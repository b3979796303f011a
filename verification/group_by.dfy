/**
 * `groupBy` (src/utils.ts, duplicated in src/tokens/tokenAmount.ts): folds the
 * input into a record from key to the items having that key. The record's
 * keys are kept as a sequence in the order they are first inserted.
 * `Object.keys` follows that order only for keys that do not look like array
 * indices, which it lists first in ascending order.
 */
module GroupBy {

  /** The distinct keys of `arr`, in order of first occurrence. */
  function GroupKeys<T, K(==)>(arr: seq<T>, key: T -> K): seq<K>
  {
    if arr == [] then []
    else
      var ks := GroupKeys(arr[..|arr| - 1], key);
      var k := key(arr[|arr| - 1]);
      if k in ks then ks else ks + [k]
  }

  /** The items of `arr` whose key is `k`, in input order. */
  function Group<T, K(==)>(arr: seq<T>, key: T -> K, k: K): seq<T>
  {
    if arr == [] then []
    else
      Group(arr[..|arr| - 1], key, k)
      + (if key(arr[|arr| - 1]) == k then [arr[|arr| - 1]] else [])
  }

  /**
   * The fold itself: `(groups[key(item)] ||= []).push(item)` for every item.
   * Returns the record's keys in insertion order and the record.
   */
  method GroupByKey<T, K(==)>(arr: seq<T>, key: T -> K) returns (keys: seq<K>, groups: map<K, seq<T>>)
    ensures keys == GroupKeys(arr, key)
    ensures forall k :: k in groups <==> k in keys
    ensures forall k :: k in groups ==> groups[k] == Group(arr, key, k)
  {
    keys, groups := [], map[];
    var i := 0;
    while i < |arr|
      invariant 0 <= i <= |arr|
      invariant keys == GroupKeys(arr[..i], key)
      invariant forall k :: k in groups <==> k in keys
      invariant forall k :: k in groups ==> groups[k] == Group(arr[..i], key, k)
    {
      var item := arr[i];
      var k := key(item);
      assert arr[..i + 1][..i] == arr[..i];
      if k !in groups {
        AbsentKeyEmptyGroup(arr[..i], key, k);
        groups := groups[k := []];
        keys := keys + [k];
      }
      groups := groups[k := groups[k] + [item]];
      i := i + 1;
    }
    assert arr[..i] == arr;
  }

  /** No key is listed twice. */
  lemma {:induction false} GroupKeysDistinct<T, K>(arr: seq<T>, key: T -> K)
    ensures forall i, j :: 0 <= i < j < |GroupKeys(arr, key)| ==> GroupKeys(arr, key)[i] != GroupKeys(arr, key)[j]
  {
    if arr != [] {
      GroupKeysDistinct(arr[..|arr| - 1], key);
    }
  }

  /** The keys are exactly the keys of the input items. */
  lemma {:induction false} GroupKeysAreInputKeys<T, K>(arr: seq<T>, key: T -> K, k: K)
    ensures k in GroupKeys(arr, key) <==> exists i :: 0 <= i < |arr| && key(arr[i]) == k
  {
    if arr != [] {
      var init := arr[..|arr| - 1];
      GroupKeysAreInputKeys(init, key, k);
      if exists i :: 0 <= i < |init| && key(init[i]) == k {
        var i :| 0 <= i < |init| && key(init[i]) == k;
        assert arr[i] == init[i];
      }
      if exists i :: 0 <= i < |arr| && key(arr[i]) == k {
        var i :| 0 <= i < |arr| && key(arr[i]) == k;
        if i < |init| {
          assert init[i] == arr[i];
        }
      }
    }
  }

  /** A group holds exactly the input items with its key. */
  lemma {:induction false} GroupMembers<T, K>(arr: seq<T>, key: T -> K, k: K)
    ensures forall y :: y in Group(arr, key, k) ==> y in arr && key(y) == k
    ensures forall i :: 0 <= i < |arr| && key(arr[i]) == k ==> arr[i] in Group(arr, key, k)
  {
    if arr != [] {
      var init := arr[..|arr| - 1];
      GroupMembers(init, key, k);
      assert arr == init + [arr[|arr| - 1]];
      forall i | 0 <= i < |arr| && key(arr[i]) == k
        ensures arr[i] in Group(arr, key, k)
      {
        if i < |init| {
          assert init[i] == arr[i];
        }
      }
    }
  }

  /** Every input item is in the group of its own key. */
  lemma ItemInItsGroup<T, K>(arr: seq<T>, key: T -> K, i: nat)
    requires i < |arr|
    ensures key(arr[i]) in GroupKeys(arr, key)
    ensures arr[i] in Group(arr, key, key(arr[i]))
  {
    GroupKeysAreInputKeys(arr, key, key(arr[i]));
    GroupMembers(arr, key, key(arr[i]));
  }

  /** Grouping distributes over concatenation, so relative input order is kept inside a group. */
  lemma {:induction false} GroupConcat<T, K>(a: seq<T>, b: seq<T>, key: T -> K, k: K)
    ensures Group(a + b, key, k) == Group(a, key, k) + Group(b, key, k)
    decreases |b|
  {
    if b == [] {
      assert a + b == a;
    } else {
      var b' := b[..|b| - 1];
      GroupConcat(a, b', key, k);
      assert (a + b)[..|a + b| - 1] == a + b';
    }
  }

  /** A key is listed only once an item with that key was pushed: no group is empty. */
  lemma GroupsNonEmpty<T, K>(arr: seq<T>, key: T -> K)
    ensures forall k :: k in GroupKeys(arr, key) ==> |Group(arr, key, k)| > 0
  {
    forall k | k in GroupKeys(arr, key)
      ensures |Group(arr, key, k)| > 0
    {
      GroupKeysAreInputKeys(arr, key, k);
      var i :| 0 <= i < |arr| && key(arr[i]) == k;
      GroupMembers(arr, key, k);
    }
  }

  /** A key not listed has an empty group. */
  lemma AbsentKeyEmptyGroup<T, K>(arr: seq<T>, key: T -> K, k: K)
    requires k !in GroupKeys(arr, key)
    ensures Group(arr, key, k) == []
  {
    GroupKeysAreInputKeys(arr, key, k);
    GroupMembers(arr, key, k);
  }

  /** The sum of the sizes of the groups of `ks`. */
  function SizeSum<T, K(==)>(arr: seq<T>, key: T -> K, ks: seq<K>): nat
  {
    if ks == [] then 0
    else SizeSum(arr, key, ks[..|ks| - 1]) + |Group(arr, key, ks[|ks| - 1])|
  }

  lemma {:induction false} SizeSumStep<T, K>(arr: seq<T>, x: T, key: T -> K, ks: seq<K>)
    requires forall i, j :: 0 <= i < j < |ks| ==> ks[i] != ks[j]
    ensures SizeSum(arr + [x], key, ks) == SizeSum(arr, key, ks) + (if key(x) in ks then 1 else 0)
  {
    assert (arr + [x])[..|arr + [x]| - 1] == arr;
    if ks != [] {
      var init := ks[..|ks| - 1];
      SizeSumStep(arr, x, key, init);
      assert key(x) in ks <==> key(x) in init || key(x) == ks[|ks| - 1];
      assert key(x) == ks[|ks| - 1] ==> key(x) !in init;
    }
  }

  /** The group sizes add up to the input length: nothing is lost or duplicated. */
  lemma {:induction false} GroupSizesSum<T, K>(arr: seq<T>, key: T -> K)
    ensures SizeSum(arr, key, GroupKeys(arr, key)) == |arr|
  {
    if arr != [] {
      var init := arr[..|arr| - 1];
      var x := arr[|arr| - 1];
      var ks := GroupKeys(init, key);
      GroupSizesSum(init, key);
      GroupKeysDistinct(init, key);
      assert arr == init + [x];
      SizeSumStep(init, x, key, ks);
      if key(x) !in ks {
        AbsentKeyEmptyGroup(init, key, key(x));
        assert (ks + [key(x)])[..|ks|] == ks;
      }
    }
  }
}
