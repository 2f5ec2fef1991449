/**
 * Python's `bisect.bisect_left` and `bisect.bisect_right` (alias
 * `bisect.bisect`) with a `key`: the binary search CPython runs, over the
 * sequence of keys. On every input the index lies in 0..|keys|; on sorted keys
 * it splits them into the part below `x` and the rest.
 */
module Bisect {

  predicate SortedKeys(keys: seq<int>)
  {
    forall i, j :: 0 <= i < j < |keys| ==> keys[i] <= keys[j]
  }

  /** The first index whose key is at least `x` (on sorted keys). */
  method BisectLeft(keys: seq<int>, x: int) returns (lo: nat)
    ensures lo <= |keys|
    ensures lo > 0 ==> keys[lo - 1] < x
    ensures SortedKeys(keys) ==> forall k :: 0 <= k < lo ==> keys[k] < x
    ensures SortedKeys(keys) ==> forall k :: lo <= k < |keys| ==> x <= keys[k]
  {
    var hi := |keys|;
    lo := 0;
    while lo < hi
      invariant 0 <= lo <= hi <= |keys|
      invariant lo > 0 ==> keys[lo - 1] < x
      invariant SortedKeys(keys) ==> forall k :: 0 <= k < lo ==> keys[k] < x
      invariant SortedKeys(keys) ==> forall k :: hi <= k < |keys| ==> x <= keys[k]
    {
      var mid := (lo + hi) / 2;
      if keys[mid] < x {
        lo := mid + 1;
      } else {
        hi := mid;
      }
    }
  }

  /** The first index whose key is above `x` (on sorted keys). */
  method BisectRight(keys: seq<int>, x: int) returns (lo: nat)
    ensures lo <= |keys|
    ensures lo > 0 ==> keys[lo - 1] <= x
    ensures SortedKeys(keys) ==> forall k :: 0 <= k < lo ==> keys[k] <= x
    ensures SortedKeys(keys) ==> forall k :: lo <= k < |keys| ==> x < keys[k]
  {
    var hi := |keys|;
    lo := 0;
    while lo < hi
      invariant 0 <= lo <= hi <= |keys|
      invariant lo > 0 ==> keys[lo - 1] <= x
      invariant SortedKeys(keys) ==> forall k :: 0 <= k < lo ==> keys[k] <= x
      invariant SortedKeys(keys) ==> forall k :: hi <= k < |keys| ==> x < keys[k]
    {
      var mid := (lo + hi) / 2;
      if x < keys[mid] {
        hi := mid;
      } else {
        lo := mid + 1;
      }
    }
  }
}
