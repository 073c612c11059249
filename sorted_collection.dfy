/** The sorted collection of the asset store: a sequence kept in order of a
    key derived from each item, held as two parallel lists `keys` and `items`
    with keys[i] == key(items[i]) and `keys` non-decreasing. */
module SortedCollections {
  import opened Ordering
  import opened Bisect
  import opened Wrappers

  /** The exceptions the collection raises. */
  datatype Error = ValueError | IndexError | NotImplementedError

  /*** The decorated sort run by construction ***/

  /** Python's order on the decorated pairs (key(a), a): by key, and on equal
      keys by the items themselves. */
  predicate PairBefore<T, K(==)>(key: T -> K, keyLt: (K, K) -> bool, itemLt: (T, T) -> bool, a: T, b: T) {
    keyLt(key(a), key(b)) || (key(a) == key(b) && itemLt(a, b))
  }

  /** Sorted by the decorated pairs: no later item comes strictly before an earlier one. */
  ghost predicate PairSorted<T, K>(s: seq<T>, key: T -> K, keyLt: (K, K) -> bool, itemLt: (T, T) -> bool) {
    forall i, j :: 0 <= i < j < |s| ==> !PairBefore(key, keyLt, itemLt, s[j], s[i])
  }

  /** keys[i] is the key of items[i], for every i. */
  ghost predicate KeysMatch<T, K>(keys: seq<K>, items: seq<T>, key: T -> K) {
    |keys| == |items| && forall i :: 0 <= i < |items| ==> keys[i] == key(items[i])
  }

  /** The key list construction derives from the sorted items. */
  function KeysOf<T, K>(items: seq<T>, key: T -> K): (keys: seq<K>)
    ensures KeysMatch(keys, items, key)
  {
    seq(|items|, i requires 0 <= i < |items| => key(items[i]))
  }

  /** One step of the sort: `x` goes before the first item it does not follow. */
  function InsertByPair<T, K(==)>(x: T, s: seq<T>, key: T -> K, keyLt: (K, K) -> bool, itemLt: (T, T) -> bool): seq<T> {
    if s == [] || !PairBefore(key, keyLt, itemLt, s[0], x) then [x] + s
    else [s[0]] + InsertByPair(x, s[1..], key, keyLt, itemLt)
  }

  /** Python's `sorted` over the pairs (key(item), item), projected to the
      items. In this model the item order is total, so equal pairs hold
      identical items and the sort's stability cannot be observed; Python
      values that compare equal but differ (2 and 2.0) are not modelled. */
  function SortDecorated<T, K(==)>(s: seq<T>, key: T -> K, keyLt: (K, K) -> bool, itemLt: (T, T) -> bool): (r: seq<T>)
    ensures multiset(r) == multiset(s)
  {
    if s == [] then []
    else
      var tail := SortDecorated(s[1..], key, keyLt, itemLt);
      InsertByPairMultiset(s[0], tail, key, keyLt, itemLt);
      assert s == [s[0]] + s[1..];
      InsertByPair(s[0], tail, key, keyLt, itemLt)
  }

  /** Inserting `x` at position p (Python's `list.insert`). */
  function InsertAt<A>(s: seq<A>, p: nat, x: A): (r: seq<A>)
    requires p <= |s|
    ensures |r| == |s| + 1 && r[p] == x
    ensures forall j :: 0 <= j < p ==> r[j] == s[j]
    ensures forall j :: p < j < |r| ==> r[j] == s[j - 1]
    ensures multiset(r) == multiset(s) + multiset{x}
  {
    assert s == s[..p] + s[p..];
    s[..p] + [x] + s[p..]
  }

  /** Deleting position i (Python's `del s[i]`). */
  function RemoveAt<A>(s: seq<A>, i: nat): (r: seq<A>)
    requires i < |s|
    ensures |r| == |s| - 1
    ensures forall j :: 0 <= j < i ==> r[j] == s[j]
    ensures forall j :: i <= j < |r| ==> r[j] == s[j + 1]
    ensures multiset(r) == multiset(s) - multiset{s[i]}
  {
    assert s == s[..i] + [s[i]] + s[i + 1..];
    s[..i] + s[i + 1..]
  }

  /** `del s[p]` undoes `s.insert(p, x)`. */
  lemma RemoveInsertedRestores<A>(s: seq<A>, p: nat, x: A)
    requires p <= |s|
    ensures RemoveAt(InsertAt(s, p, x), p) == s
  {
    var r := RemoveAt(InsertAt(s, p, x), p);
    assert |r| == |s|;
    forall j | 0 <= j < |s|
      ensures r[j] == s[j]
    {
    }
  }

  /** The decorated order is a strict total order whenever the key order and
      the item order are. */
  lemma PairOrder<T(!new), K(!new)>(key: T -> K, keyLt: (K, K) -> bool, itemLt: (T, T) -> bool)
    requires StrictTotalOrder(keyLt) && StrictTotalOrder(itemLt)
    ensures forall a, b, c ::
      (PairBefore(key, keyLt, itemLt, a, b) && PairBefore(key, keyLt, itemLt, b, c) ==> PairBefore(key, keyLt, itemLt, a, c))
    ensures forall a, b :: a != b ==> PairBefore(key, keyLt, itemLt, a, b) || PairBefore(key, keyLt, itemLt, b, a)
    ensures forall a :: !PairBefore(key, keyLt, itemLt, a, a)
  {
  }

  /** No item of `s` comes before `y`. */
  ghost predicate NoneBefore<T, K>(s: seq<T>, y: T, key: T -> K, keyLt: (K, K) -> bool, itemLt: (T, T) -> bool) {
    forall j :: 0 <= j < |s| ==> !PairBefore(key, keyLt, itemLt, s[j], y)
  }

  lemma {:induction false} InsertByPairMultiset<T, K>(x: T, s: seq<T>, key: T -> K, keyLt: (K, K) -> bool, itemLt: (T, T) -> bool)
    ensures multiset(InsertByPair(x, s, key, keyLt, itemLt)) == multiset(s) + multiset{x}
  {
    if s != [] && PairBefore(key, keyLt, itemLt, s[0], x) {
      InsertByPairMultiset(x, s[1..], key, keyLt, itemLt);
      assert s == [s[0]] + s[1..];
    }
  }

  lemma {:induction false} InsertByPairNoneBefore<T, K>(x: T, s: seq<T>, y: T, key: T -> K, keyLt: (K, K) -> bool, itemLt: (T, T) -> bool)
    requires NoneBefore(s, y, key, keyLt, itemLt) && !PairBefore(key, keyLt, itemLt, x, y)
    ensures NoneBefore(InsertByPair(x, s, key, keyLt, itemLt), y, key, keyLt, itemLt)
  {
    if s != [] && PairBefore(key, keyLt, itemLt, s[0], x) {
      InsertByPairNoneBefore(x, s[1..], y, key, keyLt, itemLt);
      var t := InsertByPair(x, s[1..], key, keyLt, itemLt);
      forall j | 0 <= j < |t| + 1
        ensures !PairBefore(key, keyLt, itemLt, ([s[0]] + t)[j], y)
      {
        if j > 0 {
          assert ([s[0]] + t)[j] == t[j - 1];
        }
      }
    }
  }

  lemma {:induction false} InsertByPairSorted<T(!new), K(!new)>(x: T, s: seq<T>, key: T -> K, keyLt: (K, K) -> bool, itemLt: (T, T) -> bool)
    requires StrictTotalOrder(keyLt) && StrictTotalOrder(itemLt)
    requires PairSorted(s, key, keyLt, itemLt)
    ensures PairSorted(InsertByPair(x, s, key, keyLt, itemLt), key, keyLt, itemLt)
  {
    if s == [] || !PairBefore(key, keyLt, itemLt, s[0], x) {
      var r := [x] + s;
      forall i, j | 0 <= i < j < |r|
        ensures !PairBefore(key, keyLt, itemLt, r[j], r[i])
      {
        if i == 0 {
          PairOrder(key, keyLt, itemLt);
          assert r[j] == s[j - 1];
          assert !PairBefore(key, keyLt, itemLt, s[j - 1], s[0]);
        } else {
          assert r[i] == s[i - 1] && r[j] == s[j - 1];
        }
      }
    } else {
      var tail := s[1..];
      assert PairSorted(tail, key, keyLt, itemLt) by {
        forall i, j | 0 <= i < j < |tail|
          ensures !PairBefore(key, keyLt, itemLt, tail[j], tail[i])
        {
          assert tail[j] == s[j + 1] && tail[i] == s[i + 1];
        }
      }
      InsertByPairSorted(x, tail, key, keyLt, itemLt);
      assert NoneBefore(tail, s[0], key, keyLt, itemLt) by {
        forall j | 0 <= j < |tail|
          ensures !PairBefore(key, keyLt, itemLt, tail[j], s[0])
        {
          assert tail[j] == s[j + 1];
        }
      }
      PairOrder(key, keyLt, itemLt);
      assert !PairBefore(key, keyLt, itemLt, x, s[0]);
      InsertByPairNoneBefore(x, tail, s[0], key, keyLt, itemLt);
      var t := InsertByPair(x, tail, key, keyLt, itemLt);
      var r := [s[0]] + t;
      forall i, j | 0 <= i < j < |r|
        ensures !PairBefore(key, keyLt, itemLt, r[j], r[i])
      {
        assert r[j] == t[j - 1];
        if i > 0 {
          assert r[i] == t[i - 1];
        }
      }
    }
  }

  /** Construction yields the input's items, each once per occurrence, in
      the order of the decorated pairs, so the keys are non-decreasing. */
  lemma {:induction false} SortDecoratedIsSortedPermutation<T(!new), K(!new)>(s: seq<T>, key: T -> K, keyLt: (K, K) -> bool, itemLt: (T, T) -> bool)
    requires StrictTotalOrder(keyLt) && StrictTotalOrder(itemLt)
    ensures var r := SortDecorated(s, key, keyLt, itemLt);
      && multiset(r) == multiset(s)
      && PairSorted(r, key, keyLt, itemLt)
      && Sorted(KeysOf(r, key), keyLt)
  {
    var r := SortDecorated(s, key, keyLt, itemLt);
    if s != [] {
      SortDecoratedIsSortedPermutation(s[1..], key, keyLt, itemLt);
      InsertByPairSorted(s[0], SortDecorated(s[1..], key, keyLt, itemLt), key, keyLt, itemLt);
      InsertByPairMultiset(s[0], SortDecorated(s[1..], key, keyLt, itemLt), key, keyLt, itemLt);
      assert s == [s[0]] + s[1..];
    }
    var ks := KeysOf(r, key);
    forall i, j | 0 <= i < j < |ks|
      ensures !keyLt(ks[j], ks[i])
    {
      assert !PairBefore(key, keyLt, itemLt, r[j], r[i]);
    }
  }

  /** Re-sorting items that are already in decorated order changes nothing. */
  lemma {:induction false} SortDecoratedOfPairSorted<T(!new), K(!new)>(s: seq<T>, key: T -> K, keyLt: (K, K) -> bool, itemLt: (T, T) -> bool)
    requires PairSorted(s, key, keyLt, itemLt)
    ensures SortDecorated(s, key, keyLt, itemLt) == s
  {
    if s != [] {
      assert PairSorted(s[1..], key, keyLt, itemLt) by {
        forall i, j | 0 <= i < j < |s[1..]|
          ensures !PairBefore(key, keyLt, itemLt, s[1..][j], s[1..][i])
        {
          assert s[1..][j] == s[j + 1] && s[1..][i] == s[i + 1];
        }
      }
      SortDecoratedOfPairSorted(s[1..], key, keyLt, itemLt);
      if |s| > 1 {
        assert !PairBefore(key, keyLt, itemLt, s[1], s[0]);
      }
      assert s == [s[0]] + s[1..];
    }
  }

  /*** Facts about the parallel lists ***/

  /** Inserting a key between the keys below it (or at most it) and those
      not below it (or above it) keeps the keys sorted. */
  lemma SortedInsertion<K(!new)>(a: seq<K>, p: nat, x: K, lt: (K, K) -> bool)
    requires StrictTotalOrder(lt) && Sorted(a, lt) && p <= |a|
    requires forall j :: 0 <= j < p ==> !lt(x, a[j])
    requires forall j :: p <= j < |a| ==> !lt(a[j], x)
    ensures Sorted(InsertAt(a, p, x), lt)
  {
    var r := InsertAt(a, p, x);
    forall i, j | 0 <= i < j < |r|
      ensures !lt(r[j], r[i])
    {
      if j < p {
        assert r[i] == a[i] && r[j] == a[j];
      } else if j == p {
        assert r[i] == a[i];
      } else if i < p {
        assert r[i] == a[i] && r[j] == a[j - 1];
      } else if i == p {
        assert r[j] == a[j - 1];
      } else {
        assert r[i] == a[i - 1] && r[j] == a[j - 1];
      }
    }
  }

  lemma KeysMatchInsertion<T, K>(keys: seq<K>, items: seq<T>, key: T -> K, p: nat, x: T)
    requires KeysMatch(keys, items, key) && p <= |items|
    ensures KeysMatch(InsertAt(keys, p, key(x)), InsertAt(items, p, x), key)
  {
    var ks, xs := InsertAt(keys, p, key(x)), InsertAt(items, p, x);
    forall i | 0 <= i < |xs|
      ensures ks[i] == key(xs[i])
    {
      if i < p {
        assert ks[i] == keys[i] && xs[i] == items[i];
      } else if p < i {
        assert ks[i] == keys[i - 1] && xs[i] == items[i - 1];
      }
    }
  }

  lemma RemovalKeepsSortedAndMatched<T, K>(keys: seq<K>, items: seq<T>, key: T -> K, lt: (K, K) -> bool, i: nat)
    requires KeysMatch(keys, items, key) && Sorted(keys, lt) && i < |items|
    ensures KeysMatch(RemoveAt(keys, i), RemoveAt(items, i), key)
    ensures Sorted(RemoveAt(keys, i), lt)
  {
    var ks, xs := RemoveAt(keys, i), RemoveAt(items, i);
    forall j | 0 <= j < |xs|
      ensures ks[j] == key(xs[j])
    {
      if j < i {
        assert ks[j] == keys[j] && xs[j] == items[j];
      } else {
        assert ks[j] == keys[j + 1] && xs[j] == items[j + 1];
      }
    }
    forall a, b | 0 <= a < b < |ks|
      ensures !lt(ks[b], ks[a])
    {
      var a', b' := if a < i then a else a + 1, if b < i then b else b + 1;
      assert ks[a] == keys[a'] && ks[b] == keys[b'];
    }
  }

  /** Every occurrence of `x` lies in the key run [bisect_left, bisect_right)
      of key(x), so the membership test, the count and the index that look
      only inside that run agree with a search of the whole item list. */
  lemma {:induction false} RunHoldsAllOccurrences<T(!new), K(!new)>(keys: seq<K>, items: seq<T>, key: T -> K, lt: (K, K) -> bool, x: T)
    requires StrictTotalOrder(lt) && Sorted(keys, lt) && KeysMatch(keys, items, key)
    ensures var lo, hi := FirstNotBelow(keys, key(x), lt), FirstAbove(keys, key(x), lt);
      && lo <= hi <= |items|
      && (x in items[lo..hi] <==> x in items)
      && multiset(items[lo..hi])[x] == multiset(items)[x]
      && (x in items ==> FirstEqual(items[lo..hi], x) + lo == FirstEqual(items, x))
  {
    var lo, hi := FirstNotBelow(keys, key(x), lt), FirstAbove(keys, key(x), lt);
    EqualRun(keys, key(x), lt);
    assert x !in items[..lo] by {
      forall j | 0 <= j < lo
        ensures items[..lo][j] != x
      {
        assert keys[j] != key(x);
      }
    }
    assert x !in items[hi..] by {
      forall j | 0 <= j < |items| - hi
        ensures items[hi..][j] != x
      {
        assert keys[hi + j] != key(x);
      }
    }
    assert items == items[..lo] + items[lo..hi] + items[hi..];
    OccurrencesInMiddle(items[..lo], items[lo..hi], items[hi..], x);
  }

  /** When `x` occurs neither before nor after the middle part, every
      question about its occurrences can be answered on the middle part. */
  lemma OccurrencesInMiddle<A>(before: seq<A>, middle: seq<A>, after: seq<A>, x: A)
    requires x !in before && x !in after
    ensures var s := before + middle + after;
      && (x in middle <==> x in s)
      && multiset(middle)[x] == multiset(s)[x]
      && (x in s ==> FirstEqual(middle, x) + |before| == FirstEqual(s, x))
  {
    var s := before + middle + after;
    assert multiset(s) == multiset(before) + multiset(middle) + multiset(after);
    if x in s {
      var f, g := FirstEqual(s, x), FirstEqual(middle, x);
      assert s[|before| + g] == x;
      assert middle[f - |before|] == s[f];
    }
  }

  /** `insert` then `remove` of the same item restores the item list: the
      inserted copy is the first occurrence, as nothing before it shares its key. */
  lemma InsertThenRemoveRestores<T(!new), K(!new)>(keys: seq<K>, items: seq<T>, key: T -> K, lt: (K, K) -> bool, x: T)
    requires StrictTotalOrder(lt) && KeysMatch(keys, items, key)
    ensures var p := FirstNotBelow(keys, key(x), lt);
      && FirstEqual(InsertAt(items, p, x), x) == p
      && RemoveAt(InsertAt(items, p, x), p) == items
  {
    var p := FirstNotBelow(keys, key(x), lt);
    var r := InsertAt(items, p, x);
    forall j | 0 <= j < p
      ensures r[j] != x
    {
      assert r[j] == items[j] && keys[j] == key(items[j]);
    }
    assert r[p] == x;
    RemoveInsertedRestores(items, p, x);
  }

  /** `insert_right` then `remove` restores the item list when the item was
      not present before; otherwise `remove` takes out an earlier equal copy. */
  lemma InsertRightThenRemoveRestores<T(!new), K(!new)>(keys: seq<K>, items: seq<T>, key: T -> K, lt: (K, K) -> bool, x: T)
    requires x !in items && |keys| == |items|
    ensures var p := FirstAbove(keys, key(x), lt);
      && FirstEqual(InsertAt(items, p, x), x) == p
      && RemoveAt(InsertAt(items, p, x), p) == items
  {
    var p := FirstAbove(keys, key(x), lt);
    var r := InsertAt(items, p, x);
    forall j | 0 <= j < p
      ensures r[j] != x
    {
      assert r[j] == items[j];
    }
    assert r[p] == x;
    RemoveInsertedRestores(items, p, x);
  }

  /** `copy` as written re-sorts equal-key items by their own order, so it
      can reorder a collection that `insert_right` (or `insert`) left with
      equal-key items out of that order. With key x => x / 10: building from
      [15] and then `insert_right(12)` gives items [15, 12], while a rebuild of
      those items, which is what `copy` does, gives [12, 15]. */
  lemma CopyAsWrittenReordersTies()
    ensures var key := (x: int) => x / 10;
      var lt := (a: int, b: int) => a < b;
      var built := SortDecorated([15], key, lt, lt);
      var afterInsertRight := InsertAt(built, FirstAbove(KeysOf(built, key), key(12), lt), 12);
      && built == [15]
      && afterInsertRight == [15, 12]
      && SortDecorated(afterInsertRight, key, lt, lt) == [12, 15]
      && SortDecorated(afterInsertRight, key, lt, lt) != afterInsertRight
  {
    var key := (x: int) => x / 10;
    var lt := (a: int, b: int) => a < b;
    assert SortDecorated([15], key, lt, lt) == [15];
    assert KeysOf([15], key) == [1];
    assert FirstAbove([1], key(12), lt) == 1;
    assert InsertAt([15], 1, 12) == [15, 12];
    assert SortDecorated([12], key, lt, lt) == [12];
    assert PairBefore(key, lt, lt, 12, 15);
    assert InsertByPair(15, [12], key, lt, lt) == [12, 15];
  }

  /** The sequence slice bound Python computes: a missing bound takes the
      default, a negative one counts from the end, and both are clamped to [0, n]. */
  function SliceBound(b: Option<int>, default: nat, n: nat): (r: nat)
    requires default <= n
    ensures r <= n
    ensures b.None? ==> r == default
    ensures b.Some? && 0 <= b.value <= n ==> r == b.value
    ensures b.Some? && -(n as int) <= b.value < 0 ==> r == n + b.value
    ensures b.Some? && b.value > n ==> r == n
    ensures b.Some? && b.value < -(n as int) ==> r == 0
  {
    match b
    case None => default
    case Some(v) => if v < 0 then (if n + v < 0 then 0 else n + v) else if v > n then n else v
  }

  /** Returns the reverse of `s`. */
  function Reverse<A>(s: seq<A>): (r: seq<A>)
    ensures |r| == |s|
    ensures forall i :: 0 <= i < |s| ==> r[i] == s[|s| - 1 - i]
  {
    if s == [] then [] else Reverse(s[1..]) + [s[0]]
  }

  /*** The collection ***/

  class SortedCollection<T(==,!new), K(==,!new)> {
    var keys: seq<K>
    var items: seq<T>
    var key: T -> K
    /** Stands for the identity of the key function: the source compares
        key functions with `is`, which a function value cannot do here. */
    var keyId: nat
    /** Python's `<` on keys and on items. */
    const keyLt: (K, K) -> bool
    const itemLt: (T, T) -> bool

    ghost predicate Valid()
      reads this
    {
      && StrictTotalOrder(keyLt)
      && StrictTotalOrder(itemLt)
      && KeysMatch(keys, items, key)
      && Sorted(keys, keyLt)
    }

    /** `SortedCollection(iterable, key)`: sorts the decorated pairs and splits them. */
    constructor (iterable: seq<T>, key: T -> K, keyId: nat, keyLt: (K, K) -> bool, itemLt: (T, T) -> bool)
      requires StrictTotalOrder(keyLt) && StrictTotalOrder(itemLt)
      ensures Valid()
      ensures this.key == key && this.keyId == keyId && this.keyLt == keyLt && this.itemLt == itemLt
      ensures items == SortDecorated(iterable, key, keyLt, itemLt) && keys == KeysOf(items, key)
      ensures multiset(items) == multiset(iterable) && PairSorted(items, key, keyLt, itemLt)
    {
      var sorted := SortDecorated(iterable, key, keyLt, itemLt);
      SortDecoratedIsSortedPermutation(iterable, key, keyLt, itemLt);
      this.keyLt := keyLt;
      this.itemLt := itemLt;
      this.key := key;
      this.keyId := keyId;
      items := sorted;
      keys := KeysOf(sorted, key);
    }

    /** A duplicate of `other`'s two lists, key and orders. */
    constructor Duplicate(other: SortedCollection<T, K>)
      requires other.Valid()
      ensures Valid()
      ensures keys == other.keys && items == other.items && key == other.key && keyId == other.keyId
      ensures keyLt == other.keyLt && itemLt == other.itemLt
    {
      keys := other.keys;
      items := other.items;
      key := other.key;
      keyId := other.keyId;
      keyLt := other.keyLt;
      itemLt := other.itemLt;
    }

    /** Re-running `__init__` on this object with new contents and key. */
    method Reinit(iterable: seq<T>, newKey: T -> K, newKeyId: nat)
      requires Valid()
      modifies this
      ensures Valid()
      ensures key == newKey && keyId == newKeyId
      ensures items == SortDecorated(iterable, newKey, keyLt, itemLt) && keys == KeysOf(items, newKey)
      ensures multiset(items) == multiset(iterable) && PairSorted(items, newKey, keyLt, itemLt)
    {
      var sorted := SortDecorated(iterable, newKey, keyLt, itemLt);
      SortDecoratedIsSortedPermutation(iterable, newKey, keyLt, itemLt);
      key := newKey;
      keyId := newKeyId;
      items := sorted;
      keys := KeysOf(sorted, newKey);
    }

    /** Assigning the `key` property: the same key function changes nothing,
        another one re-sorts the same items by the new key. */
    method SetKey(newKey: T -> K, newKeyId: nat)
      requires Valid()
      requires newKeyId == keyId ==> newKey == key
      modifies this
      ensures Valid() && key == newKey && keyId == newKeyId
      ensures old(keyId) == newKeyId ==> keys == old(keys) && items == old(items)
      ensures old(keyId) != newKeyId ==> items == SortDecorated(old(items), newKey, keyLt, itemLt)
      ensures multiset(items) == multiset(old(items))
    {
      if newKeyId != keyId {
        Reinit(items, newKey, newKeyId);
      }
    }

    /** `clear`: empty both lists, keep the key. */
    method Clear()
      requires Valid()
      modifies this
      ensures Valid() && items == [] && keys == []
      ensures key == old(key) && keyId == old(keyId)
    {
      Reinit([], key, keyId);
    }

    /** `copy` as written: a new collection built from this one's items and
        key, which re-sorts items that share a key by their own order. */
    method CopyAsWritten() returns (c: SortedCollection<T, K>)
      requires Valid()
      ensures fresh(c) && c.Valid()
      ensures c.key == key && c.keyId == keyId && c.keyLt == keyLt && c.itemLt == itemLt
      ensures c.items == SortDecorated(items, key, keyLt, itemLt)
      ensures multiset(c.items) == multiset(items)
    {
      c := new SortedCollection(items, key, keyId, keyLt, itemLt);
    }

    /** `copy`, corrected: a new collection with the same two lists. Being
        fresh, it is unaffected by later changes to this one. */
    method Copy() returns (c: SortedCollection<T, K>)
      requires Valid()
      ensures fresh(c) && c.Valid()
      ensures c.keys == keys && c.items == items
      ensures c.key == key && c.keyId == keyId && c.keyLt == keyLt && c.itemLt == itemLt
    {
      c := new SortedCollection.Duplicate(this);
    }

    /** `__len__` */
    function Length(): (n: nat)
      reads this
      requires Valid()
      ensures n == |items| && n == |keys|
    {
      |items|
    }

    /** `__getitem__` with an integer index; a negative one counts from the end. */
    function GetItem(i: int): (r: Result<T, Error>)
      reads this
      requires Valid()
      ensures r.Ok? <==> -|items| <= i < |items|
      ensures 0 <= i < |items| ==> r == Ok(items[i])
      ensures -|items| <= i < 0 ==> r == Ok(items[|items| + i])
      ensures r.Err? ==> r.error == IndexError
    {
      if 0 <= i < |items| then Ok(items[i])
      else if -|items| <= i < 0 then Ok(items[|items| + i])
      else Err(IndexError)
    }

    /** `__getitem__` with a slice `[start:stop]`. */
    function Slice(start: Option<int>, stop: Option<int>): (r: seq<T>)
      reads this
      requires Valid()
      ensures var lo, hi := SliceBound(start, 0, |items|), SliceBound(stop, |items|, |items|);
        && |r| == (if lo < hi then hi - lo else 0)
        && forall i :: 0 <= i < |r| ==> r[i] == items[lo + i]
      ensures start.None? && stop.None? ==> r == items
      ensures forall i, j :: 0 <= i < j < |r| ==> !keyLt(key(r[j]), key(r[i]))
    {
      var lo, hi := SliceBound(start, 0, |items|), SliceBound(stop, |items|, |items|);
      if lo < hi then items[lo..hi] else []
    }

    /** `__reversed__`: the items from last to first, so in non-increasing key order. */
    function Reversed(): (r: seq<T>)
      reads this
      requires Valid()
      ensures |r| == |items|
      ensures forall i :: 0 <= i < |r| ==> r[i] == items[|items| - 1 - i]
      ensures forall i, j :: 0 <= i < j < |r| ==> !keyLt(key(r[i]), key(r[j]))
    {
      Reverse(items)
    }

    /** `__setitem__` always raises. */
    method SetItem(i: int, item: T) returns (r: Outcome<Error>)
      ensures r == Fail(NotImplementedError)
    {
      r := Fail(NotImplementedError);
    }

    /** `__delitem__` always raises. */
    method DelItem(i: int) returns (r: Outcome<Error>)
      ensures r == Fail(NotImplementedError)
    {
      r := Fail(NotImplementedError);
    }

    /** `__contains__`: looks only inside the run of keys equal to key(item),
        which holds every occurrence of item. */
    method Contains(item: T) returns (b: bool)
      requires Valid()
      ensures b <==> item in items
    {
      var k := key(item);
      var i := BisectLeft(keys, k, keyLt);
      var j := BisectRight(keys, k, keyLt);
      RunHoldsAllOccurrences(keys, items, key, keyLt, item);
      b := item in items[i..j];
    }

    /** `index`: position of the first occurrence of item. */
    method Index(item: T) returns (r: Result<nat, Error>)
      requires Valid()
      ensures item in items ==> r == Ok(FirstEqual(items, item))
      ensures item !in items ==> r == Err(ValueError)
    {
      var k := key(item);
      var i := BisectLeft(keys, k, keyLt);
      var j := BisectRight(keys, k, keyLt);
      RunHoldsAllOccurrences(keys, items, key, keyLt, item);
      var run := items[i..j];
      var p := FirstEqual(run, item);
      if p == |run| {
        r := Err(ValueError);
      } else {
        r := Ok(p + i);
      }
    }

    /** `count`: the number of occurrences of item. */
    method Count(item: T) returns (c: nat)
      requires Valid()
      ensures c == multiset(items)[item]
    {
      var k := key(item);
      var i := BisectLeft(keys, k, keyLt);
      var j := BisectRight(keys, k, keyLt);
      RunHoldsAllOccurrences(keys, items, key, keyLt, item);
      c := multiset(items[i..j])[item];
    }

    /** `insert`: add item before every item with an equal key. */
    method Insert(item: T)
      requires Valid()
      modifies this`keys, this`items
      ensures Valid()
      ensures var p := FirstNotBelow(old(keys), key(item), keyLt);
        && keys == InsertAt(old(keys), p, key(item))
        && items == InsertAt(old(items), p, item)
        && (forall j :: 0 <= j < p ==> keyLt(keys[j], key(item)))
    {
      var k := key(item);
      var i := BisectLeft(keys, k, keyLt);
      forall j | 0 <= j < i
        ensures !keyLt(k, keys[j])
      {
        assert keyLt(keys[j], k);
      }
      forall j | i <= j < |keys|
        ensures !keyLt(keys[j], k)
      {
        NotBelowFromLeftBoundary(keys, k, keyLt, j);
      }
      SortedInsertion(keys, i, k, keyLt);
      KeysMatchInsertion(keys, items, key, i, item);
      keys := InsertAt(keys, i, k);
      items := InsertAt(items, i, item);
    }

    /** `insert_right`: add item after every item with an equal key. */
    method InsertRight(item: T)
      requires Valid()
      modifies this`keys, this`items
      ensures Valid()
      ensures var p := FirstAbove(old(keys), key(item), keyLt);
        && keys == InsertAt(old(keys), p, key(item))
        && items == InsertAt(old(items), p, item)
        && (forall j :: p < j < |keys| ==> keyLt(key(item), keys[j]))
    {
      var k := key(item);
      var i := BisectRight(keys, k, keyLt);
      forall j | i <= j < |keys|
        ensures !keyLt(keys[j], k)
      {
        AboveFromRightBoundary(keys, k, keyLt, j);
      }
      SortedInsertion(keys, i, k, keyLt);
      KeysMatchInsertion(keys, items, key, i, item);
      ghost var oldKeys := keys;
      keys := InsertAt(keys, i, k);
      items := InsertAt(items, i, item);
      forall j | i < j < |keys|
        ensures keyLt(k, keys[j])
      {
        assert keys[j] == oldKeys[j - 1];
        AboveFromRightBoundary(oldKeys, k, keyLt, j - 1);
      }
    }

    /** `replace`: overwrite the item at idx, provided the new item has the
        same key; otherwise raise and change nothing. */
    method Replace(idx: int, item: T) returns (r: Outcome<Error>)
      requires Valid()
      modifies this`items
      ensures Valid()
      ensures !(-|old(items)| <= idx < |old(items)|) ==> r == Fail(IndexError) && items == old(items)
      ensures -|old(items)| <= idx < |old(items)| ==>
        var i := if idx < 0 then |old(items)| + idx else idx;
        if keys[i] != key(item) then r == Fail(ValueError) && items == old(items)
        else r == Pass && items == old(items)[i := item]
    {
      if !(-|items| <= idx < |items|) {
        return Fail(IndexError);
      }
      var i := if idx < 0 then |items| + idx else idx;
      var k := key(item);
      if keys[i] != k {
        return Fail(ValueError);
      }
      items := items[i := item];
      r := Pass;
    }

    /** `remove`: delete the first occurrence of item from both lists, or
        raise when there is none. */
    method Remove(item: T) returns (r: Outcome<Error>)
      requires Valid()
      modifies this`keys, this`items
      ensures Valid()
      ensures item !in old(items) ==> r == Fail(ValueError) && keys == old(keys) && items == old(items)
      ensures item in old(items) ==>
        var i := FirstEqual(old(items), item);
        r == Pass && keys == RemoveAt(old(keys), i) && items == RemoveAt(old(items), i)
    {
      var found := Index(item);
      if found.Err? {
        return Fail(found.error);
      }
      var i := found.value;
      RemovalKeepsSortedAndMatched(keys, items, key, keyLt, i);
      keys := RemoveAt(keys, i);
      items := RemoveAt(items, i);
      r := Pass;
    }

    /** `find_with_index`: the first item whose key equals k, with its index. */
    method FindWithIndex(k: K) returns (r: Result<(T, nat), Error>)
      requires Valid()
      ensures var i := FirstEqual(keys, k);
        if i < |keys| then r == Ok((items[i], i)) else r == Err(ValueError)
    {
      var i := BisectLeft(keys, k, keyLt);
      FirstEqualAtLeftBoundary(keys, k, keyLt);
      if i != |items| && keys[i] == k {
        return Ok((items[i], i));
      }
      r := Err(ValueError);
    }

    /** `find`: the first item whose key equals k. */
    method Find(k: K) returns (r: Result<T, Error>)
      requires Valid()
      ensures var i := FirstEqual(keys, k);
        if i < |keys| then r == Ok(items[i]) else r == Err(ValueError)
    {
      var found := FindWithIndex(k);
      if found.Err? {
        return Err(found.error);
      }
      r := Ok(found.value.0);
    }

    /** `find_le`: the last item whose key is at most k. */
    method FindLe(k: K) returns (r: Result<T, Error>)
      requires Valid()
      ensures var i := LastAtMost(keys, k, keyLt);
        if 0 <= i then r == Ok(items[i]) else r == Err(ValueError)
    {
      var i := BisectRight(keys, k, keyLt);
      LastAtMostBeforeRightBoundary(keys, k, keyLt);
      if i != 0 {
        return Ok(items[i - 1]);
      }
      r := Err(ValueError);
    }

    /** `find_lt`: the last item whose key is below k. */
    method FindLt(k: K) returns (r: Result<T, Error>)
      requires Valid()
      ensures var i := LastBelow(keys, k, keyLt);
        if 0 <= i then r == Ok(items[i]) else r == Err(ValueError)
    {
      var i := BisectLeft(keys, k, keyLt);
      LastBelowBeforeLeftBoundary(keys, k, keyLt);
      if i != 0 {
        return Ok(items[i - 1]);
      }
      r := Err(ValueError);
    }

    /** `find_ge`: the first item whose key is at least k. */
    method FindGe(k: K) returns (r: Result<T, Error>)
      requires Valid()
      ensures var i := FirstNotBelow(keys, k, keyLt);
        if i < |keys| then r == Ok(items[i]) else r == Err(ValueError)
    {
      var i := BisectLeft(keys, k, keyLt);
      if i != |items| {
        return Ok(items[i]);
      }
      r := Err(ValueError);
    }

    /** `find_gt`: the first item whose key is above k. */
    method FindGt(k: K) returns (r: Result<T, Error>)
      requires Valid()
      ensures var i := FirstAbove(keys, k, keyLt);
        if i < |keys| then r == Ok(items[i]) else r == Err(ValueError)
    {
      var i := BisectRight(keys, k, keyLt);
      if i != |items| {
        return Ok(items[i]);
      }
      r := Err(ValueError);
    }
  }
}
