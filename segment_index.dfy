/**
  The segment arithmetic of `VideoDataset`: each video holds `len(video) // segment_size`
  whole segments, the dataset length is their sum, and a flat index is resolved to
  the owning video and the first frame of its segment with running sums and
  `bisect_right`. Videos appear here only through their frame counts.
 */
module SegmentIndex {
  import opened Outcomes

  /** The owning video and the first frame of a resolved segment. */
  datatype Segment = Segment(video: nat, start: int)

  /** `[len(video) // segment_size for video in videos]`: whole segments per video, trailing frames dropped. */
  function Counts(lengths: seq<nat>, segmentSize: nat): (counts: seq<nat>)
    requires segmentSize > 0
    ensures |counts| == |lengths|
  {
    seq(|lengths|, i requires 0 <= i < |lengths| => lengths[i] / segmentSize)
  }

  /** Each count is the floor quotient: `c` whole segments fit in the video and `c + 1` do not. */
  lemma CountIsFloor(lengths: seq<nat>, segmentSize: nat, i: nat)
    requires segmentSize > 0 && i < |lengths|
    ensures var c := Counts(lengths, segmentSize)[i];
      c * segmentSize <= lengths[i] < (c + 1) * segmentSize
  {
    var c := Counts(lengths, segmentSize)[i];
    assert c == lengths[i] / segmentSize;
    assert c * segmentSize + lengths[i] % segmentSize == lengths[i];
  }

  /** Python's `sum` over a list of counts. */
  function Sum(xs: seq<nat>): nat
  {
    if xs == [] then 0 else xs[0] + Sum(xs[1..])
  }

  lemma {:induction false} SumConcat(xs: seq<nat>, ys: seq<nat>)
    ensures Sum(xs + ys) == Sum(xs) + Sum(ys)
  {
    if xs == [] {
      assert xs + ys == ys;
    } else {
      assert (xs + ys)[1..] == xs[1..] + ys;
      SumConcat(xs[1..], ys);
    }
  }

  /** A sum of counts is zero exactly when every count is zero. */
  lemma {:induction false} SumZero(xs: seq<nat>)
    ensures Sum(xs) == 0 <==> forall i :: 0 <= i < |xs| ==> xs[i] == 0
  {
    if xs != [] {
      SumZero(xs[1..]);
      assert forall i :: 1 <= i < |xs| ==> xs[i] == xs[1..][i - 1];
    }
  }

  /** A video holds no whole segment exactly when it is shorter than one segment. */
  lemma CountsZero(lengths: seq<nat>, segmentSize: nat)
    requires segmentSize > 0
    ensures var counts := Counts(lengths, segmentSize);
      forall i :: 0 <= i < |lengths| ==> (counts[i] == 0 <==> lengths[i] < segmentSize)
  {
    var counts := Counts(lengths, segmentSize);
    forall i | 0 <= i < |lengths| ensures counts[i] == 0 <==> lengths[i] < segmentSize {
      CountIsFloor(lengths, segmentSize, i);
      if counts[i] > 0 {
        assert counts[i] * segmentSize >= segmentSize;
      }
    }
  }

  /**
    `__len__`: the number of whole segments over all videos, in id order. It is
    zero exactly when every video is shorter than one segment.
   */
  function Total(lengths: seq<nat>, segmentSize: nat): (n: nat)
    requires segmentSize > 0
    ensures n == 0 <==> forall i :: 0 <= i < |lengths| ==> lengths[i] < segmentSize
  {
    SumZero(Counts(lengths, segmentSize));
    CountsZero(lengths, segmentSize);
    Sum(Counts(lengths, segmentSize))
  }

  /** `itertools.accumulate` continued from a running total. */
  function Accumulate(xs: seq<nat>, total: nat): (sums: seq<nat>)
    ensures |sums| == |xs|
    ensures forall i :: 0 <= i < |xs| ==> sums[i] == total + Sum(xs[..i + 1])
    decreases |xs|
  {
    if xs == [] then []
    else
      var rest := Accumulate(xs[1..], total + xs[0]);
      var sums := [total + xs[0]] + rest;
      assert forall i :: 0 <= i < |xs| ==> sums[i] == total + Sum(xs[..i + 1]) by {
        forall i | 0 <= i < |xs| ensures sums[i] == total + Sum(xs[..i + 1]) {
          assert xs[..i + 1][1..] == xs[1..][..i];
        }
      }
      sums
  }

  /** `list(itertools.accumulate(counts))`: entry `i` is the sum of the first `i + 1` counts. */
  function PrefixSums(xs: seq<nat>): (sums: seq<nat>)
    ensures |sums| == |xs|
    ensures forall i :: 0 <= i < |xs| ==> sums[i] == Sum(xs[..i + 1])
  {
    Accumulate(xs, 0)
  }

  ghost predicate NonDecreasing(a: seq<int>)
  {
    forall i, j :: 0 <= i <= j < |a| ==> a[i] <= a[j]
  }

  /** Running sums of counts never decrease. */
  lemma PrefixSumsNonDecreasing(xs: seq<nat>)
    ensures NonDecreasing(PrefixSums(xs))
  {
    var sums := PrefixSums(xs);
    forall i, j | 0 <= i <= j < |sums| ensures sums[i] <= sums[j] {
      assert xs[..j + 1] == xs[..i + 1] + xs[i + 1..j + 1];
      SumConcat(xs[..i + 1], xs[i + 1..j + 1]);
    }
  }

  /**
    The loop of `bisect.bisect_right` on `a[lo:hi]`. On a non-decreasing list
    whose entries below `lo` are `<= x` and whose entries from `hi` on are
    `> x`, the result splits `a` into entries `<= x` and entries `> x`.
   */
  function Search(a: seq<int>, x: int, lo: nat, hi: nat): (r: nat)
    requires lo <= hi <= |a|
    ensures lo <= r <= hi
    ensures NonDecreasing(a) && (forall i :: 0 <= i < lo ==> a[i] <= x) && (forall i :: hi <= i < |a| ==> x < a[i])
      ==> (forall i :: 0 <= i < r ==> a[i] <= x) && (forall i :: r <= i < |a| ==> x < a[i])
    decreases hi - lo
  {
    if lo < hi then
      var mid := (lo + hi) / 2;
      if x < a[mid] then Search(a, x, lo, mid) else Search(a, x, mid + 1, hi)
    else lo
  }

  /** `bisect.bisect_right(a, x)`: on a sorted list, the first position whose entry exceeds `x`. */
  function BisectRight(a: seq<int>, x: int): (r: nat)
    ensures r <= |a|
    ensures NonDecreasing(a) ==>
      (forall i :: 0 <= i < r ==> a[i] <= x) && (forall i :: r <= i < |a| ==> x < a[i])
  {
    Search(a, x, 0, |a|)
  }

  /**
    The lookup half of `__translate_virtual_video_index_to_video_index`: the
    owning video (`bisect_right` over the running sums) and the number of the
    segment within it, or `ValueError` past the last running sum.
   */
  function Locate(counts: seq<nat>, g: int): (r: Result<(nat, int)>)
    ensures r.Err? ==> r.error == ValueError
    ensures r.Ok? ==> r.value.0 < |counts|
  {
    var cumulative := PrefixSums(counts);
    var v := BisectRight(cumulative, g);
    if v >= |counts| then Err(ValueError)
    else
      var previous := if v == 0 then 0 else cumulative[v - 1];
      Ok((v, g - previous))
  }

  /** `__translate_virtual_video_index_to_video_index`: the start frame is the local segment number times the segment size. */
  function Translate(lengths: seq<nat>, segmentSize: nat, g: int): (r: Result<Segment>)
    requires segmentSize > 0 && g >= 0
    ensures r.Err? ==> r.error == ValueError
    ensures r.Ok? ==> r.value.video < |lengths|
  {
    match Locate(Counts(lengths, segmentSize), g)
    case Err(e) => Err(e)
    case Ok((v, k)) => Ok(Segment(v, k * segmentSize))
  }

  /** The flat index of local segment `k` of video `v`: the segments of all earlier videos, then `k`. */
  function GlobalIndex(lengths: seq<nat>, segmentSize: nat, v: nat, k: nat): nat
    requires segmentSize > 0 && v <= |lengths|
  {
    Sum(Counts(lengths, segmentSize)[..v]) + k
  }

  /** The running sum before video `v`, with `cum[-1] = 0`. */
  lemma Before(counts: seq<nat>, v: nat)
    requires v <= |counts|
    ensures Sum(counts[..v]) == if v == 0 then 0 else PrefixSums(counts)[v - 1]
  {
    if v == 0 {
      assert counts[..0] == [];
    } else {
      assert counts[..v - 1 + 1] == counts[..v];
    }
  }

  /** The running sum up to and including video `v`. */
  lemma Through(counts: seq<nat>, v: nat)
    requires v < |counts|
    ensures PrefixSums(counts)[v] == Sum(counts[..v]) + counts[v]
  {
    assert counts[..v + 1] == counts[..v] + [counts[v]];
    SumConcat(counts[..v], [counts[v]]);
    assert Sum([counts[v]]) == counts[v] + Sum([]);
  }

  /**
    The lookup picks the smallest video whose running sum exceeds `g`:
    `cum[v-1] <= g < cum[v]` with `cum[-1] = 0`, all earlier running sums are
    `<= g`, and the local segment number is `g - cum[v-1]`.
   */
  lemma LocateOwner(counts: seq<nat>, g: int)
    requires g >= 0 && Locate(counts, g).Ok?
    ensures var cum := PrefixSums(counts);
      var v := Locate(counts, g).value.0; var k := Locate(counts, g).value.1;
      && (forall u :: 0 <= u < v ==> cum[u] <= g)
      && g < cum[v]
      && Sum(counts[..v]) <= g < Sum(counts[..v]) + counts[v]
      && k == g - Sum(counts[..v])
  {
    var cum := PrefixSums(counts);
    PrefixSumsNonDecreasing(counts);
    var v := Locate(counts, g).value.0;
    assert v == BisectRight(cum, g);
    Before(counts, v);
    Through(counts, v);
  }

  /**
    Resolution picks the smallest video whose running sum exceeds `g`:
    `cum[v-1] <= g < cum[v]` with `cum[-1] = 0`, and all earlier running sums are `<= g`;
    the start frame is the local segment number times the segment size.
   */
  lemma TranslateOwner(lengths: seq<nat>, segmentSize: nat, g: int)
    requires segmentSize > 0 && g >= 0
    requires Translate(lengths, segmentSize, g).Ok?
    ensures var counts := Counts(lengths, segmentSize); var cum := PrefixSums(counts);
      var seg := Translate(lengths, segmentSize, g).value; var v := seg.video;
      && (forall u :: 0 <= u < v ==> cum[u] <= g)
      && g < cum[v]
      && Sum(counts[..v]) <= g < Sum(counts[..v]) + counts[v]
      && seg.start == (g - Sum(counts[..v])) * segmentSize
  {
    LocateOwner(Counts(lengths, segmentSize), g);
  }

  /** Resolution succeeds exactly for the flat indices below the dataset length. */
  lemma TranslateSucceeds(lengths: seq<nat>, segmentSize: nat, g: int)
    requires segmentSize > 0 && g >= 0
    ensures Translate(lengths, segmentSize, g).Ok? <==> g < Total(lengths, segmentSize)
  {
    var counts := Counts(lengths, segmentSize);
    var cum := PrefixSums(counts);
    PrefixSumsNonDecreasing(counts);
    var n := |counts|;
    if n == 0 {
      assert Total(lengths, segmentSize) == 0;
    } else {
      assert counts[..n] == counts;
      assert cum[n - 1] == Total(lengths, segmentSize);
    }
  }

  /** With no video long enough for one segment (or no video at all), every flat index fails. */
  lemma NoSegmentWhenAllShort(lengths: seq<nat>, segmentSize: nat, g: int)
    requires segmentSize > 0 && g >= 0
    requires forall i :: 0 <= i < |lengths| ==> lengths[i] < segmentSize
    ensures Translate(lengths, segmentSize, g) == Err(ValueError)
  {
    TranslateSucceeds(lengths, segmentSize, g);
  }

  lemma MulMono(a: int, b: int, s: int)
    requires 0 <= a <= b && s >= 0
    ensures 0 <= a * s <= b * s
  {
    assert b * s - a * s == (b - a) * s;
  }

  /** Division by a positive divisor is determined by quotient and remainder. */
  lemma DivUnique(x: int, s: int, q: int, r: int)
    requires s > 0 && 0 <= r < s && x == q * s + r
    ensures x / s == q && x % s == r
  {
    var q', r' := x / s, x % s;
    assert q' * s + r' == x;
    if q' > q {
      MulMono(1, q' - q, s);
    } else if q' < q {
      MulMono(1, q - q', s);
    }
  }

  /** Local segment `k` of a video holding `count` whole segments lies inside the video. */
  lemma WindowArith(k: int, count: int, length: int, s: int)
    requires s > 0 && 0 <= k < count && count * s <= length
    ensures 0 <= k * s && (k * s) % s == 0 && k * s + s <= length && s <= length
  {
    DivUnique(k * s, s, k, 0);
    MulMono(k + 1, count, s);
    MulMono(1, k + 1, s);
  }

  /**
    A resolved segment is a whole window of its video: it starts at a
    non-negative multiple of the segment size, ends inside the video, and so
    the video has at least one whole segment (shorter videos are never chosen).
   */
  lemma TranslateWindow(lengths: seq<nat>, segmentSize: nat, g: int)
    requires segmentSize > 0 && g >= 0
    requires Translate(lengths, segmentSize, g).Ok?
    ensures var seg := Translate(lengths, segmentSize, g).value;
      && 0 <= seg.start
      && seg.start % segmentSize == 0
      && seg.start + segmentSize <= lengths[seg.video]
      && segmentSize <= lengths[seg.video]
  {
    var counts := Counts(lengths, segmentSize);
    var seg := Translate(lengths, segmentSize, g).value;
    var v := seg.video;
    LocateOwner(counts, g);
    CountIsFloor(lengths, segmentSize, v);
    WindowArith(g - Sum(counts[..v]), counts[v], lengths[v], segmentSize);
  }

  /** Index round-trip: the segments before the owning video plus the local segment number give back `g`. */
  lemma TranslateRoundTrip(lengths: seq<nat>, segmentSize: nat, g: int)
    requires segmentSize > 0 && g >= 0
    requires Translate(lengths, segmentSize, g).Ok?
    ensures var seg := Translate(lengths, segmentSize, g).value;
      seg.start >= 0 && GlobalIndex(lengths, segmentSize, seg.video, seg.start / segmentSize) == g
  {
    var counts := Counts(lengths, segmentSize);
    LocateOwner(counts, g);
    var k := Locate(counts, g).value.1;
    DivUnique(k * segmentSize, segmentSize, k, 0);
    MulMono(0, k, segmentSize);
  }

  /** The other direction: local segment `k` of video `v` is found again from its flat index. */
  lemma TranslateInverse(lengths: seq<nat>, segmentSize: nat, v: nat, k: nat)
    requires segmentSize > 0 && v < |lengths|
    requires k < Counts(lengths, segmentSize)[v]
    ensures Translate(lengths, segmentSize, GlobalIndex(lengths, segmentSize, v, k)) == Ok(Segment(v, k * segmentSize))
  {
    var counts := Counts(lengths, segmentSize);
    var cum := PrefixSums(counts);
    var g := GlobalIndex(lengths, segmentSize, v, k);
    PrefixSumsNonDecreasing(counts);
    Before(counts, v);
    Through(counts, v);
    assert BisectRight(cum, g) == v;
  }

  lemma StrictMul(a: int, b: int, s: int)
    requires 0 <= a < b && s > 0
    ensures a * s < b * s
  {
    MulMono(a + 1, b, s);
  }

  /** A larger flat index resolves to a later video, or to a later window of the same video. */
  lemma TranslateMonotone(lengths: seq<nat>, segmentSize: nat, g1: int, g2: int)
    requires segmentSize > 0 && 0 <= g1 < g2
    requires Translate(lengths, segmentSize, g1).Ok? && Translate(lengths, segmentSize, g2).Ok?
    ensures var s1, s2 := Translate(lengths, segmentSize, g1).value, Translate(lengths, segmentSize, g2).value;
      s1.video < s2.video || (s1.video == s2.video && s1.start < s2.start)
  {
    var counts := Counts(lengths, segmentSize);
    var s1, s2 := Translate(lengths, segmentSize, g1).value, Translate(lengths, segmentSize, g2).value;
    var v1, v2 := s1.video, s2.video;
    TranslateOwner(lengths, segmentSize, g1);
    TranslateOwner(lengths, segmentSize, g2);
    if v1 == v2 {
      var p := Sum(counts[..v1]);
      StrictMul(g1 - p, g2 - p, segmentSize);
    }
  }

  /** Distinct flat indices resolve to distinct segments. */
  lemma TranslateInjective(lengths: seq<nat>, segmentSize: nat, g1: int, g2: int)
    requires segmentSize > 0 && 0 <= g1 && 0 <= g2 && g1 != g2
    requires Translate(lengths, segmentSize, g1).Ok? && Translate(lengths, segmentSize, g2).Ok?
    ensures Translate(lengths, segmentSize, g1).value != Translate(lengths, segmentSize, g2).value
  {
    if g1 < g2 {
      TranslateMonotone(lengths, segmentSize, g1, g2);
    } else {
      TranslateMonotone(lengths, segmentSize, g2, g1);
    }
  }
}
