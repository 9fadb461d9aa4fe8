/**
  `AnnotationsFromFrameLevelTxtFileAnnotations`: one annotation line per frame,
  read through an accessor that tolerates indices up to `max_overflow_value`
  past the last line and answers those with a fallback value. The file's lines
  are given as a sequence.
 */
module FrameAnnotations {
  import opened Outcomes
  import opened Lists

  /** Default fallback for positions past the last line (`PREFILL_VALUE`). */
  const PrefillDefault: string := "nothing"

  /** Default number of positions accepted past the last line (`MAX_OVERFLOW_VALUE`). */
  const MaxOverflowDefault: int := 100

  /** What `__getitem__` is called with: an `int`, a `slice`, or anything else. */
  datatype Index = IntIndex(i: int) | SliceIndex(s: Slice) | OtherIndex

  /** What `__getitem__` returns: one line for an `int`, a list for a `slice`. */
  datatype Item = Single(value: string) | Many(values: seq<string>)

  class AnnotationsFromFrameLevelTxtFile {
    const id: string
    const lines: seq<string>
    const prefillValue: string
    const maxOverflow: int

    constructor (id: string, lines: seq<string>, prefillValue: string := PrefillDefault, maxOverflow: int := MaxOverflowDefault)
      ensures this.id == id && this.lines == lines
      ensures this.prefillValue == prefillValue && this.maxOverflow == maxOverflow
    {
      this.id := id;
      this.lines := lines;
      this.prefillValue := prefillValue;
      this.maxOverflow := maxOverflow;
    }

    /** `len(self) + self.max_overflow_value`: the length the accessor presents. */
    function Bound(): int
    {
      |lines| + maxOverflow
    }

    /** `__get_annotation`: the line at `index`, or the fallback past the last line. */
    function Lookup(index: nat): (annotation: string)
      ensures Bound() >= 0 && index < Bound() ==> annotation == Extended()[index]
    {
      if index >= |lines| then prefillValue else lines[index]
    }

    /**
      `__get_annotations`: walks `range(start, stop, step)` and appends, for each
      index, its line or the fallback past the last line.
     */
    method Collect(start: int, stop: int, step: int) returns (values: seq<string>)
      requires step != 0
      requires step > 0 ==> start >= 0
      requires step < 0 ==> stop >= -1
      ensures |values| == RangeLength(start, stop, step)
      ensures forall k :: 0 <= k < |values| ==>
        var i := RangeAt(start, step, k);
        0 <= i && values[k] == if i < |lines| then lines[i] else prefillValue
    {
      values := [];
      var n := RangeLength(start, stop, step);
      for k := 0 to n
        invariant |values| == k
        invariant forall j :: 0 <= j < k ==>
          var i := RangeAt(start, step, j);
          0 <= i && values[j] == if i < |lines| then lines[i] else prefillValue
      {
        var i := RangeAt(start, step, k);
        assert Within(start, stop, step, i);
        if i >= |lines| {
          values := values + [prefillValue];
        } else {
          values := values + [lines[i]];
        }
      }
    }

    /** The list a slice of this accessor yields, or the `ValueError` of `slice.indices`. */
    function Select(sl: Slice): (r: Result<seq<string>>)
      ensures r.Ok? <==> Bound() >= 0 && sl.step != Some(0)
      ensures r.Err? ==> r.error == ValueError
    {
      match Indices(sl, Bound())
      case Err(e) => Err(e)
      case Ok(b) =>
        var n := RangeLength(b.start, b.stop, b.step);
        Ok(seq(n, k requires 0 <= k < n => Lookup(RangeAt(b.start, b.step, k))))
    }

    /**
      `__getitem__`: an `int` is accepted exactly in `[0, Bound())` and yields its
      line, or the fallback past the last line; a `slice` is clamped by
      `slice.indices(Bound())` and collected; anything else raises `TypeError`.
     */
    method GetItem(index: Index) returns (r: Result<Item>)
      ensures index.IntIndex? ==> (r.Ok? <==> 0 <= index.i < Bound())
      ensures index.IntIndex? && r.Err? ==> r.error == IndexError
      ensures index.IntIndex? && r.Ok? ==>
        r.value == Single(if index.i < |lines| then lines[index.i] else prefillValue)
      ensures index.SliceIndex? ==> (r.Ok? <==> Select(index.s).Ok?)
      ensures index.SliceIndex? && r.Err? ==> r.error == ValueError
      ensures index.SliceIndex? && r.Ok? ==> r.value == Many(Select(index.s).value)
      ensures index.OtherIndex? ==> r == Err(TypeError)
    {
      match index
      case IntIndex(i) =>
        if i < 0 || i >= Bound() {
          r := Err(IndexError);
        } else {
          r := Ok(Single(Lookup(i)));
        }
      case SliceIndex(sl) =>
        var bounds := Indices(sl, Bound());
        if bounds.Err? {
          r := Err(bounds.error);
        } else {
          var b := bounds.value;
          var values := Collect(b.start, b.stop, b.step);
          assert values == Select(sl).value;
          r := Ok(Many(values));
        }
      case OtherIndex =>
        r := Err(TypeError);
    }

    /** The list this accessor behaves like: the lines cut or extended with the fallback to `Bound()` entries. */
    function Extended(): (xs: seq<string>)
      requires Bound() >= 0
      ensures |xs| == Bound()
    {
      if maxOverflow <= 0 then lines[..Bound()] else lines + Repeat(prefillValue, maxOverflow)
    }

    /**
      Slicing the accessor is slicing `Extended()` as a Python list: no index
      reaches `Bound()`, the real lines are never replaced by the fallback, and
      the fallback fills only the positions past the last line.
     */
    lemma SelectMatchesExtended(sl: Slice)
      requires Bound() >= 0
      ensures Select(sl) == SliceSeq(Extended(), sl)
    {
      var xs := Extended();
      match Indices(sl, Bound())
      case Err(_) =>
      case Ok(b) =>
        var n := RangeLength(b.start, b.stop, b.step);
        var got, want := Select(sl).value, SliceSeq(xs, sl).value;
        assert |got| == n == |want|;
        forall k | 0 <= k < n ensures got[k] == want[k] {
          IndicesInBounds(sl, Bound(), k);
          var i := RangeAt(b.start, b.step, k);
          assert got[k] == Lookup(i) && want[k] == xs[i];
          if maxOverflow > 0 && i >= |lines| {
            assert xs[i] == Repeat(prefillValue, maxOverflow)[i - |lines|];
          }
        }
        assert got == want;
    }

    /** A window `[a, b)` of the accessor, as `__getitem__` of the dataset takes it. */
    lemma WindowOfExtended(a: int, b: int)
      requires Bound() >= 0 && 0 <= a <= b
      ensures var lo := Min(a, Bound()); var hi := Min(b, Bound());
        && Select(Slice(Some(a), Some(b), None)) == Ok(Extended()[lo..hi])
        && |Select(Slice(Some(a), Some(b), None)).value| == hi - lo
    {
      SelectMatchesExtended(Slice(Some(a), Some(b), None));
      SliceForward(Extended(), a, b);
    }
  }
}
