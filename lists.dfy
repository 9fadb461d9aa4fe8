/**
  The parts of Python's list and slice semantics the modelled code relies on:
  `[x] * n`, `slice.indices(length)`, the elements of `range(start, stop, step)`
  and `xs[slice]` on a list.
 */
module Lists {
  import opened Outcomes

  /** `[x] * n`: `n` copies of `x`, and the empty list when `n <= 0`. */
  function Repeat<T>(x: T, n: int): (r: seq<T>)
    ensures |r| == if n <= 0 then 0 else n
    ensures forall i :: 0 <= i < |r| ==> r[i] == x
  {
    if n <= 0 then [] else seq(n, _ => x)
  }

  /** A Python slice object; each component may be `None`. */
  datatype Slice = Slice(start: Option<int>, stop: Option<int>, step: Option<int>)

  /** The normalised `(start, stop, step)` triple that `slice.indices` returns. */
  datatype Bounds = Bounds(start: int, stop: int, step: int)

  /** The k-th element of `range(start, stop, step)`. */
  function RangeAt(start: int, step: int, k: int): int
  {
    start + k * step
  }

  /** `x` lies in the half-open interval that `range(start, stop, step)` walks through. */
  predicate Within(start: int, stop: int, step: int, x: int)
  {
    if step > 0 then start <= x < stop else stop < x <= start
  }

  lemma CountUp(d: int, t: int, k: int)
    requires d >= 0 && t > 0 && 0 <= k <= d / t
    ensures k * t <= d < (d / t + 1) * t
  {
    assert (d / t) * t + d % t == d;
    assert k * t <= (d / t) * t by {
      assert (d / t - k) * t >= 0;
    }
  }

  /** The elements of an ascending range, counted as CPython counts them. */
  lemma Ascending(start: int, stop: int, step: int)
    requires step > 0 && start < stop
    ensures var n := 1 + (stop - 1 - start) / step;
      && (forall k {:trigger RangeAt(start, step, k)} :: 0 <= k < n ==> start <= RangeAt(start, step, k) < stop)
      && RangeAt(start, step, n) >= stop
  {
    var d := stop - 1 - start;
    var n := 1 + d / step;
    forall k | 0 <= k < n ensures start <= RangeAt(start, step, k) < stop {
      CountUp(d, step, k);
    }
    CountUp(d, step, 0);
  }

  /** The elements of a descending range, counted as CPython counts them. */
  lemma Descending(start: int, stop: int, step: int)
    requires step < 0 && start > stop
    ensures var n := 1 + (start - 1 - stop) / -step;
      && (forall k {:trigger RangeAt(start, step, k)} :: 0 <= k < n ==> stop < RangeAt(start, step, k) <= start)
      && RangeAt(start, step, n) <= stop
  {
    var d := start - 1 - stop;
    var t := -step;
    var n := 1 + d / t;
    forall k | 0 <= k < n ensures stop < RangeAt(start, step, k) <= start {
      CountUp(d, t, k);
      assert k * step == -(k * t);
    }
    CountUp(d, t, 0);
    assert n * step == -(n * t);
  }

  /**
    `len(range(start, stop, step))`, computed as CPython does. Every element below
    that count lies strictly between `start` and `stop` in the walking direction,
    and the element at the count has reached `stop`, so the count is exact.
   */
  function RangeLength(start: int, stop: int, step: int): (n: nat)
    requires step != 0
    ensures forall k {:trigger RangeAt(start, step, k)} :: 0 <= k < n ==> Within(start, stop, step, RangeAt(start, step, k))
    ensures !Within(start, stop, step, RangeAt(start, step, n))
  {
    if step > 0 then
      if start < stop then Ascending(start, stop, step); 1 + (stop - 1 - start) / step else 0
    else
      if start > stop then Descending(start, stop, step); 1 + (start - 1 - stop) / -step else 0
  }

  /** One bound of `slice.indices`: a negative index counts from the end, then it is clamped. */
  function Clamp(i: int, length: int, lower: int, upper: int): int
  {
    if i < 0 then (if i + length < lower then lower else i + length)
    else (if i > upper then upper else i)
  }

  /**
    `slice.indices(length)`: raises `ValueError` for a negative length or a zero
    step; otherwise every bound is clamped so that the range it describes stays
    inside `[0, length)`.
   */
  function Indices(sl: Slice, length: int): (r: Result<Bounds>)
    ensures r.Ok? <==> length >= 0 && sl.step != Some(0)
    ensures r.Err? ==> r.error == ValueError
    ensures r.Ok? ==> r.value.step == (if sl.step.Some? then sl.step.value else 1)
    ensures r.Ok? && r.value.step > 0 ==> 0 <= r.value.start <= length && 0 <= r.value.stop <= length
    ensures r.Ok? && r.value.step < 0 ==> -1 <= r.value.start < length && -1 <= r.value.stop < length
  {
    if length < 0 || sl.step == Some(0) then Err(ValueError)
    else
      var step := if sl.step.Some? then sl.step.value else 1;
      var lower := if step < 0 then -1 else 0;
      var upper := if step < 0 then length - 1 else length;
      var start := if sl.start.Some? then Clamp(sl.start.value, length, lower, upper)
                   else if step < 0 then upper else lower;
      var stop := if sl.stop.Some? then Clamp(sl.stop.value, length, lower, upper)
                  else if step < 0 then lower else upper;
      Ok(Bounds(start, stop, step))
  }

  /** Every index a successfully normalised slice produces is a valid position of a list of that length. */
  lemma IndicesInBounds(sl: Slice, length: int, k: int)
    requires Indices(sl, length).Ok?
    requires var b := Indices(sl, length).value; 0 <= k < RangeLength(b.start, b.stop, b.step)
    ensures var b := Indices(sl, length).value; 0 <= RangeAt(b.start, b.step, k) < length
  {
    var b := Indices(sl, length).value;
    assert Within(b.start, b.stop, b.step, RangeAt(b.start, b.step, k));
  }

  /** `xs[sl]` on a Python list. */
  function SliceSeq<T>(xs: seq<T>, sl: Slice): (r: Result<seq<T>>)
    ensures r.Ok? <==> sl.step != Some(0)
  {
    match Indices(sl, |xs|)
    case Err(e) => Err(e)
    case Ok(b) =>
      var n := RangeLength(b.start, b.stop, b.step);
      Ok(seq(n, k requires 0 <= k < n => xs[RangeAt(b.start, b.step, k)]))
  }

  function Min(a: int, b: int): int { if a < b then a else b }

  /**
    `xs[a:b]` with non-negative bounds and no step is the contiguous run of
    `xs` from `a` to `b`, both cut at the end of the list (empty when `a >= b`).
   */
  lemma {:induction false} SliceForward<T>(xs: seq<T>, a: int, b: int)
    requires 0 <= a && 0 <= b
    ensures var lo := Min(a, |xs|); var hi := Min(b, |xs|);
      SliceSeq(xs, Slice(Some(a), Some(b), None)) == Ok(if lo <= hi then xs[lo..hi] else [])
  {
    var lo := Min(a, |xs|);
    var hi := Min(b, |xs|);
    var sl := Slice(Some(a), Some(b), None);
    assert Indices(sl, |xs|) == Ok(Bounds(lo, hi, 1));
    var n := RangeLength(lo, hi, 1);
    if lo < hi {
      assert n == hi - lo;
    } else {
      assert n == 0;
    }
    var got := SliceSeq(xs, sl).value;
    assert |got| == n;
    forall k | 0 <= k < n ensures got[k] == xs[lo + k] {
      assert RangeAt(lo, 1, k) == lo + k;
    }
    if lo < hi {
      assert got == xs[lo..hi];
    } else {
      assert got == [];
    }
  }
}
