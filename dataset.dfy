/**
  `VideoDataset`: a list of videos and the annotation accessors for the same
  ids, in the same order, cut into segments of `segment_size` frames. A video is
  the sequence of its frames; the id listing, path checks and processor
  construction that produce these lists are not modelled.
 */
module Datasets {
  import opened Outcomes
  import opened Lists
  import opened SegmentIndex
  import opened FrameAnnotations

  /** The `segment_size` argument as Python sees it: an `int`, a `bool` (an `int` subclass), or anything else. */
  datatype SegmentSizeArg = IntArg(n: int) | BoolArg(b: bool) | OtherArg

  /**
    The `segment_size` checks of `__params_check`: it must be an `int` and
    positive, else `ValueError`. `True` is an `int` equal to 1 and passes.
   */
  function CheckSegmentSize(arg: SegmentSizeArg): (r: Result<nat>)
    ensures r.Ok? <==> (arg.IntArg? && arg.n > 0) || arg == BoolArg(true)
    ensures r.Err? ==> r.error == ValueError
    ensures r.Ok? ==> r.value > 0 && (arg.IntArg? ==> r.value == arg.n)
    ensures arg == BoolArg(true) ==> r == Ok(1)
  {
    match arg
    case IntArg(n) => if n <= 0 then Err(ValueError) else Ok(n)
    case BoolArg(b) => if b then Ok(1) else Err(ValueError)
    case OtherArg => Err(ValueError)
  }

  /** An optional per-item transform: applied when present, the identity otherwise. */
  function Apply<T>(transform: Option<T -> T>, x: T): (y: T)
    ensures transform.None? ==> y == x
    ensures transform.Some? ==> y == transform.value(x)
  {
    match transform
    case None => x
    case Some(f) => f(x)
  }

  /**
    A built dataset. The annotation processor is fixed to the frame-level text
    accessor, the one concrete `Annotations` class of the library.
   */
  datatype VideoDataset<!F> = VideoDataset(
    videos: seq<seq<F>>,
    annotations: seq<AnnotationsFromFrameLevelTxtFile>,
    segmentSize: nat,
    framesTransform: Option<seq<F> -> seq<F>>,
    annotationsTransform: Option<seq<string> -> seq<string>>)
  {
    /** What construction guarantees: a positive segment size, one accessor per video. */
    predicate Valid()
    {
      segmentSize > 0 && |videos| == |annotations|
    }

    /** The frame count of every video, in id order. */
    function Lengths(): (lengths: seq<nat>)
      ensures |lengths| == |videos|
      ensures forall i :: 0 <= i < |videos| ==> lengths[i] == |videos[i]|
    {
      seq(|videos|, i requires 0 <= i < |videos| => |videos[i]|)
    }

    /**
      `__len__`: the whole segments of all videos. It is zero exactly when no
      video holds a whole segment, the empty dataset included.
     */
    function Length(): (n: nat)
      requires Valid()
      ensures n == 0 <==> forall i :: 0 <= i < |videos| ==> |videos[i]| < segmentSize
    {
      Total(Lengths(), segmentSize)
    }

    /** `[start:start + segment_size]`, the window `__getitem__` cuts from both halves. */
    function Window(seg: Segment): Slice
    {
      Slice(Some(seg.start), Some(seg.start + segmentSize), None)
    }

    /**
      `__getitem__`: resolves `g`, cuts the same window from the owning video and
      from its annotations, then applies each optional transform to its own half.
     */
    method GetItem(g: int) returns (r: Result<(seq<F>, seq<string>)>)
      requires Valid() && g >= 0
      ensures g >= Length() ==> r == Err(ValueError)
      ensures Translate(Lengths(), segmentSize, g).Err? ==> r == Err(ValueError)
      ensures Translate(Lengths(), segmentSize, g).Ok? ==>
        var seg := Translate(Lengths(), segmentSize, g).value;
        var labels := annotations[seg.video].Select(Window(seg));
        && (r.Ok? <==> labels.Ok?)
        && (r.Err? ==> r.error == ValueError)
        && (r.Ok? ==> r.value == (Apply(framesTransform, SliceSeq(videos[seg.video], Window(seg)).value),
                                  Apply(annotationsTransform, labels.value)))
    {
      TranslateSucceeds(Lengths(), segmentSize, g);
      var resolved := Translate(Lengths(), segmentSize, g);
      if resolved.Err? {
        r := Err(ValueError);
        return;
      }
      var seg := resolved.value;
      var window := Window(seg);
      var frames := SliceSeq(videos[seg.video], window).value;
      var labels := annotations[seg.video].GetItem(SliceIndex(window));
      if labels.Err? {
        r := Err(labels.error);
        return;
      }
      match labels.value
      case Single(_) =>
        assert false;
      case Many(values) =>
        r := Ok((Apply(framesTransform, frames), Apply(annotationsTransform, values)));
    }

    /** A window that starts at a non-negative frame and ends inside its video is cut whole. */
    lemma WindowFrames(seg: Segment)
      requires Valid() && seg.video < |videos| && 0 <= seg.start && seg.start + segmentSize <= |videos[seg.video]|
      ensures SliceSeq(videos[seg.video], Window(seg)) == Ok(videos[seg.video][seg.start..seg.start + segmentSize])
    {
      SliceForward(videos[seg.video], seg.start, seg.start + segmentSize);
    }

    /** Every resolvable index cuts exactly `segment_size` frames `[start, start + segment_size)` from its video. */
    lemma SegmentFrames(g: int)
      requires Valid() && g >= 0 && Translate(Lengths(), segmentSize, g).Ok?
      ensures var seg := Translate(Lengths(), segmentSize, g).value;
        && 0 <= seg.start && seg.start + segmentSize <= |videos[seg.video]|
        && SliceSeq(videos[seg.video], Window(seg)) == Ok(videos[seg.video][seg.start..seg.start + segmentSize])
    {
      TranslateWindow(Lengths(), segmentSize, g);
      WindowFrames(Translate(Lengths(), segmentSize, g).value);
    }

    /**
      The annotation half of a window starting at a non-negative frame is read
      from the lines extended with the fallback; it has `segment_size` entries
      exactly when the window ends within `len(lines) + max_overflow_value`.
     */
    lemma WindowLabels(seg: Segment)
      requires Valid() && seg.video < |annotations| && 0 <= seg.start
      requires annotations[seg.video].Bound() >= 0
      ensures var source := annotations[seg.video];
        var end := Min(seg.start + segmentSize, source.Bound());
        && source.Select(Window(seg)).Ok?
        && (seg.start <= source.Bound() ==> source.Select(Window(seg)).value == source.Extended()[seg.start..end])
        && (|source.Select(Window(seg)).value| == segmentSize <==> seg.start + segmentSize <= source.Bound())
    {
      annotations[seg.video].WindowOfExtended(seg.start, seg.start + segmentSize);
    }

    /** Every resolvable index yields a full annotation half when its window ends within the accessor's bound. */
    lemma SegmentLabels(g: int)
      requires Valid() && g >= 0 && Translate(Lengths(), segmentSize, g).Ok?
      requires annotations[Translate(Lengths(), segmentSize, g).value.video].Bound() >= 0
      ensures var seg := Translate(Lengths(), segmentSize, g).value;
        var labels := annotations[seg.video].Select(Window(seg));
        labels.Ok? && (|labels.value| == segmentSize <==> seg.start + segmentSize <= annotations[seg.video].Bound())
    {
      TranslateWindow(Lengths(), segmentSize, g);
      WindowLabels(Translate(Lengths(), segmentSize, g).value);
    }
  }

  /**
    `__segment_size_check`, the last step of construction. For each video whose
    length is not a multiple of `segment_size` it warns when `verbose` is set,
    and building that warning evaluates `len(len(video))`, which raises
    `TypeError`. Without `verbose` nothing is raised.
   */
  function SegmentSizeCheck(lengths: seq<nat>, segmentSize: nat, verbose: bool): (r: Result<()>)
    requires segmentSize > 0
    ensures r.Ok? <==> !verbose || forall i :: 0 <= i < |lengths| ==> lengths[i] % segmentSize == 0
    ensures r.Err? ==> r.error == TypeError
  {
    if lengths == [] then Ok(())
    else if verbose && lengths[0] % segmentSize != 0 then Err(TypeError)
    else
      assert forall i :: 1 <= i < |lengths| ==> lengths[i] == lengths[1..][i - 1];
      SegmentSizeCheck(lengths[1..], segmentSize, verbose)
  }

  /**
    Construction: the `segment_size` checks of `__params_check` come first and
    raise `ValueError`; then `__segment_size_check` runs over the videos built
    from the same ids as the annotations.
   */
  function New<F>(
    videos: seq<seq<F>>,
    annotations: seq<AnnotationsFromFrameLevelTxtFile>,
    segmentSize: SegmentSizeArg,
    framesTransform: Option<seq<F> -> seq<F>>,
    annotationsTransform: Option<seq<string> -> seq<string>>,
    verbose: bool := true): (r: Result<VideoDataset<F>>)
    requires |videos| == |annotations|
    ensures CheckSegmentSize(segmentSize).Err? ==> r == Err(ValueError)
    ensures CheckSegmentSize(segmentSize).Ok? ==>
      var size := CheckSegmentSize(segmentSize).value;
      && (r.Ok? <==> !verbose || forall i :: 0 <= i < |videos| ==> |videos[i]| % size == 0)
      && (r.Err? ==> r.error == TypeError)
    ensures r.Ok? ==> r.value.Valid() && r.value.videos == videos && r.value.annotations == annotations
    ensures r.Ok? ==> r.value.segmentSize == CheckSegmentSize(segmentSize).value
    ensures r.Ok? ==> r.value.framesTransform == framesTransform && r.value.annotationsTransform == annotationsTransform
  {
    match CheckSegmentSize(segmentSize)
    case Err(e) => Err(e)
    case Ok(size) =>
      var dataset := VideoDataset(videos, annotations, size, framesTransform, annotationsTransform);
      match SegmentSizeCheck(dataset.Lengths(), size, verbose)
      case Err(e) => Err(e)
      case Ok(_) => Ok(dataset)
  }
}
