/** Option and Result wrappers, and the one error the analyzer's checked
    indexing can raise. */
module Wrappers {

  datatype Option<+T> = None | Some(value: T)

  datatype Result<+R, +E> = Success(value: R) | Failure(error: E)

  /** `std::vector::at` called with an index outside the vector: it throws
      `std::out_of_range`, which nothing in the analyzer catches, so the
      exception leaves `analyze` and ends the event's processing. */
  datatype Fault = OutOfRange(index: int)

  /** Whether index i addresses an element of a container of n elements. */
  predicate InBounds(i: int, n: int)
  {
    0 <= i < n
  }

  /** The first index of the inclusive range [lo, hi], visited upwards, that
      lies outside [0, n); None when every index of the range is inside (in
      particular when the range is empty). */
  function FirstOutOfRange(lo: int, hi: int, n: int): (r: Option<int>)
    ensures r.None? <==> forall i :: lo <= i <= hi ==> InBounds(i, n)
    ensures r.Some? ==> lo <= r.value <= hi && !InBounds(r.value, n)
    ensures r.Some? ==> forall i :: lo <= i < r.value ==> InBounds(i, n)
  {
    if lo > hi then None
    else if lo < 0 then assert !InBounds(lo, n); Some(lo)
    else if hi >= n then
      var first := if lo < n then n else lo;
      assert !InBounds(first, n);
      Some(first)
    else None
  }
}
