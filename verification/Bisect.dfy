/** Python's `bisect` on sorted lists of reals, as binary search against a counting definition. */
module Bisect {

  predicate Sorted(d: seq<real>) {
    forall i, j :: 0 <= i <= j < |d| ==> d[i] <= d[j]
  }

  predicate Increasing(d: seq<real>) {
    forall i, j :: 0 <= i < j < |d| ==> d[i] < d[j]
  }

  lemma InOrder(d: seq<real>, i: nat, j: nat)
    requires Increasing(d) && i < |d| && j < |d| && d[i] <= d[j]
    ensures i <= j
  {
  }

  /** How many entries are at most `x`. */
  function Right(d: seq<real>, x: real): (r: nat)
    requires Sorted(d)
    ensures r <= |d|
    ensures forall k :: 0 <= k < r ==> d[k] <= x
    ensures forall k :: r <= k < |d| ==> x < d[k]
  {
    if d == [] then 0
    else if d[|d| - 1] <= x then |d|
    else Right(d[..|d| - 1], x)
  }

  /** How many entries are below `x`. */
  function Left(d: seq<real>, x: real): (r: nat)
    requires Sorted(d)
    ensures r <= |d|
    ensures forall k :: 0 <= k < r ==> d[k] < x
    ensures forall k :: r <= k < |d| ==> x <= d[k]
  {
    if d == [] then 0
    else if d[|d| - 1] < x then |d|
    else Left(d[..|d| - 1], x)
  }

  method FindRight(d: seq<real>, x: real) returns (low: nat)
    requires Sorted(d)
    ensures low == Right(d, x)
  {
    low := 0;
    var high := |d|;
    while low < high
      invariant low <= high <= |d|
      invariant forall k :: 0 <= k < low ==> d[k] <= x
      invariant forall k :: high <= k < |d| ==> x < d[k]
    {
      var mid := (low + high) / 2;
      if x < d[mid] {
        high := mid;
      } else {
        low := mid + 1;
      }
    }
    RightUnique(d, x, low);
  }

  method FindLeft(d: seq<real>, x: real) returns (low: nat)
    requires Sorted(d)
    ensures low == Left(d, x)
  {
    low := 0;
    var high := |d|;
    while low < high
      invariant low <= high <= |d|
      invariant forall k :: 0 <= k < low ==> d[k] < x
      invariant forall k :: high <= k < |d| ==> x <= d[k]
    {
      var mid := (low + high) / 2;
      if d[mid] < x {
        low := mid + 1;
      } else {
        high := mid;
      }
    }
    LeftUnique(d, x, low);
  }

  lemma {:induction false} RightUnique(d: seq<real>, x: real, r: nat)
    requires Sorted(d) && r <= |d|
    requires forall k :: 0 <= k < r ==> d[k] <= x
    requires forall k :: r <= k < |d| ==> x < d[k]
    ensures Right(d, x) == r
  {
    if d != [] && x < d[|d| - 1] {
      RightUnique(d[..|d| - 1], x, r);
    }
  }

  lemma {:induction false} LeftUnique(d: seq<real>, x: real, r: nat)
    requires Sorted(d) && r <= |d|
    requires forall k :: 0 <= k < r ==> d[k] < x
    requires forall k :: r <= k < |d| ==> x <= d[k]
    ensures Left(d, x) == r
  {
    if d != [] && x <= d[|d| - 1] {
      LeftUnique(d[..|d| - 1], x, r);
    }
  }

  lemma {:induction false} RightMonotone(d: seq<real>, x: real, y: real)
    requires Sorted(d) && x <= y
    ensures Right(d, x) <= Right(d, y)
  {
    if d != [] && y < d[|d| - 1] {
      RightMonotone(d[..|d| - 1], x, y);
    }
  }
}
