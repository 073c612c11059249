/** Binary search over a non-decreasing sequence of keys (Python's
    `bisect_left` and `bisect_right`), and the linear scans that say what each
    boundary means. The scans are also the reference answers the collection's
    find-queries are checked against: first key equal to, at or above, above
    a probe; last key below or at most a probe. */
module Bisect {
  import opened Ordering

  /** Index of the first element not below `x`, or |a| when every element is
      below it: the insertion point `bisect_left` reports. */
  function FirstNotBelow<K>(a: seq<K>, x: K, lt: (K, K) -> bool): (i: nat)
    ensures i <= |a|
    ensures forall j :: 0 <= j < i ==> lt(a[j], x)
    ensures i < |a| ==> !lt(a[i], x)
  {
    if |a| == 0 || !lt(a[0], x) then 0 else 1 + FirstNotBelow(a[1..], x, lt)
  }

  /** Index of the first element above `x`, or |a| when there is none: the
      insertion point `bisect_right` reports. */
  function FirstAbove<K>(a: seq<K>, x: K, lt: (K, K) -> bool): (i: nat)
    ensures i <= |a|
    ensures forall j :: 0 <= j < i ==> !lt(x, a[j])
    ensures i < |a| ==> lt(x, a[i])
  {
    if |a| == 0 || lt(x, a[0]) then 0 else 1 + FirstAbove(a[1..], x, lt)
  }

  /** Index of the last element below `x`, or -1 when there is none (a scan
      from the end). */
  function LastBelow<K>(a: seq<K>, x: K, lt: (K, K) -> bool): (i: int)
    ensures -1 <= i < |a|
    ensures forall j :: i < j < |a| ==> !lt(a[j], x)
    ensures 0 <= i ==> lt(a[i], x)
  {
    if |a| == 0 then -1
    else if lt(a[|a| - 1], x) then |a| - 1
    else LastBelow(a[..|a| - 1], x, lt)
  }

  /** Index of the last element at most `x`, or -1 when there is none (a
      scan from the end). */
  function LastAtMost<K>(a: seq<K>, x: K, lt: (K, K) -> bool): (i: int)
    ensures -1 <= i < |a|
    ensures forall j :: i < j < |a| ==> lt(x, a[j])
    ensures 0 <= i ==> !lt(x, a[i])
  {
    if |a| == 0 then -1
    else if !lt(x, a[|a| - 1]) then |a| - 1
    else LastAtMost(a[..|a| - 1], x, lt)
  }

  /** Index of the first element equal to `x`, or |a| when there is none:
      Python's `list.index` with the miss reported as |a|. */
  function FirstEqual<A(==)>(a: seq<A>, x: A): (i: nat)
    ensures i <= |a|
    ensures forall j :: 0 <= j < i ==> a[j] != x
    ensures i < |a| <==> x in a
    ensures i < |a| ==> a[i] == x
  {
    if |a| == 0 then 0
    else if a[0] == x then 0
    else 1 + FirstEqual(a[1..], x)
  }

  /** On a sorted sequence everything from the left boundary on is not below `x`. */
  lemma NotBelowFromLeftBoundary<K(!new)>(a: seq<K>, x: K, lt: (K, K) -> bool, j: int)
    requires StrictTotalOrder(lt) && Sorted(a, lt)
    requires FirstNotBelow(a, x, lt) <= j < |a|
    ensures !lt(a[j], x)
  {
    var i := FirstNotBelow(a, x, lt);
    if i < j {
      assert !lt(a[j], a[i]);
    }
  }

  /** On a sorted sequence everything from the right boundary on is above `x`. */
  lemma AboveFromRightBoundary<K(!new)>(a: seq<K>, x: K, lt: (K, K) -> bool, j: int)
    requires StrictTotalOrder(lt) && Sorted(a, lt)
    requires FirstAbove(a, x, lt) <= j < |a|
    ensures lt(x, a[j])
  {
    var i := FirstAbove(a, x, lt);
    if i < j {
      assert !lt(a[j], a[i]);
      assert a[i] == a[j] || lt(a[i], a[j]);
    }
  }

  /** On a sorted sequence the last element below `x` sits just before the
      left boundary: `find_lt` may use `bisect_left - 1`. */
  lemma LastBelowBeforeLeftBoundary<K(!new)>(a: seq<K>, x: K, lt: (K, K) -> bool)
    requires StrictTotalOrder(lt) && Sorted(a, lt)
    ensures LastBelow(a, x, lt) == FirstNotBelow(a, x, lt) - 1
  {
    var i, l := FirstNotBelow(a, x, lt), LastBelow(a, x, lt);
    if l >= i {
      NotBelowFromLeftBoundary(a, x, lt, l);
    }
  }

  /** On a sorted sequence the last element at most `x` sits just before the
      right boundary: `find_le` may use `bisect_right - 1`. */
  lemma LastAtMostBeforeRightBoundary<K(!new)>(a: seq<K>, x: K, lt: (K, K) -> bool)
    requires StrictTotalOrder(lt) && Sorted(a, lt)
    ensures LastAtMost(a, x, lt) == FirstAbove(a, x, lt) - 1
  {
    var i, l := FirstAbove(a, x, lt), LastAtMost(a, x, lt);
    if l >= i {
      AboveFromRightBoundary(a, x, lt, l);
    }
  }

  /** On a sorted sequence the elements equal to `x` are exactly those in
      [bisect_left, bisect_right). */
  lemma EqualRun<K(!new)>(a: seq<K>, x: K, lt: (K, K) -> bool)
    requires StrictTotalOrder(lt) && Sorted(a, lt)
    ensures FirstNotBelow(a, x, lt) <= FirstAbove(a, x, lt)
    ensures forall j :: 0 <= j < |a| ==>
      (a[j] == x <==> FirstNotBelow(a, x, lt) <= j < FirstAbove(a, x, lt))
  {
    var lo, hi := FirstNotBelow(a, x, lt), FirstAbove(a, x, lt);
    forall j | 0 <= j < |a|
      ensures a[j] == x <==> lo <= j < hi
    {
      if lo <= j {
        NotBelowFromLeftBoundary(a, x, lt, j);
      }
      if hi <= j {
        AboveFromRightBoundary(a, x, lt, j);
      }
    }
  }

  /** On a sorted sequence the first element equal to `x` is at the left
      boundary when it is there at all: `find` may use `bisect_left`. */
  lemma FirstEqualAtLeftBoundary<K(!new)>(a: seq<K>, x: K, lt: (K, K) -> bool)
    requires StrictTotalOrder(lt) && Sorted(a, lt)
    ensures var i := FirstNotBelow(a, x, lt);
      FirstEqual(a, x) == if i < |a| && a[i] == x then i else |a|
  {
    EqualRun(a, x, lt);
    var i, e := FirstNotBelow(a, x, lt), FirstEqual(a, x);
    if e < |a| {
      assert a[e] == x;
    }
  }

  /** Python's `bisect_left`: binary search for the leftmost insertion point. */
  method BisectLeft<K(!new)>(a: seq<K>, x: K, lt: (K, K) -> bool) returns (i: nat)
    requires StrictTotalOrder(lt) && Sorted(a, lt)
    ensures i == FirstNotBelow(a, x, lt)
  {
    var lo, hi := 0, |a|;
    while lo < hi
      invariant 0 <= lo <= hi <= |a|
      invariant forall j :: 0 <= j < lo ==> lt(a[j], x)
      invariant forall j :: hi <= j < |a| ==> !lt(a[j], x)
    {
      var mid := (lo + hi) / 2;
      if lt(a[mid], x) {
        forall j | 0 <= j <= mid
          ensures lt(a[j], x)
        {
          if j < mid {
            assert !lt(a[mid], a[j]);
            assert a[j] == a[mid] || lt(a[j], a[mid]);
          }
        }
        lo := mid + 1;
      } else {
        hi := mid;
      }
    }
    assert lo < |a| ==> !lt(a[lo], x);
    i := lo;
  }

  /** Python's `bisect_right`: binary search for the rightmost insertion point. */
  method BisectRight<K(!new)>(a: seq<K>, x: K, lt: (K, K) -> bool) returns (i: nat)
    requires StrictTotalOrder(lt) && Sorted(a, lt)
    ensures i == FirstAbove(a, x, lt)
  {
    var lo, hi := 0, |a|;
    while lo < hi
      invariant 0 <= lo <= hi <= |a|
      invariant forall j :: 0 <= j < lo ==> !lt(x, a[j])
      invariant forall j :: hi <= j < |a| ==> lt(x, a[j])
    {
      var mid := (lo + hi) / 2;
      if lt(x, a[mid]) {
        forall j | mid <= j < |a|
          ensures lt(x, a[j])
        {
          if mid < j {
            assert !lt(a[j], a[mid]);
            assert a[j] == a[mid] || lt(a[mid], a[j]);
          }
        }
        hi := mid;
      } else {
        lo := mid + 1;
      }
    }
    assert lo < |a| ==> lt(x, a[lo]);
    i := lo;
  }
}
