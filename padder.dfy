/**
  The padding policies of `padder.py`. Frames are opaque values of type `F`
  (one frame of a numpy batch), annotations opaque values of type `A`; a padder
  extends a short segment to a target length.
 */
module Padders {
  import opened Outcomes
  import opened Lists

  /** The three padding policies; `ValuePadder` carries its two fill values. */
  datatype Padder<F, A> =
    | NoPadder
    | ValuePadder(framesPaddingValue: F, annotationsPaddingValue: A)
    | LastValuePadder

  /**
    A buffer of `target` copies of `fill` (`np.full`, `[v] * target`) whose
    prefix is then overwritten in place by `prefix` (`padded[:n] = prefix`).
   */
  method FillThenOverwrite<T>(prefix: seq<T>, fill: T, target: int) returns (padded: seq<T>)
    requires |prefix| <= target
    ensures padded == prefix + Repeat(fill, target - |prefix|)
  {
    var buffer := new T[target](_ => fill);
    for i := 0 to |prefix|
      invariant buffer[..i] == prefix[..i]
      invariant forall j :: i <= j < target ==> buffer[j] == fill
    {
      buffer[i] := prefix[i];
    }
    padded := buffer[..];
    assert padded == prefix + Repeat(fill, target - |prefix|);
  }

  /** `ValuePadder.__pad_frames`: the numpy prefix assignment needs `n <= target`. */
  method ValuePadFrames<F>(frames: seq<F>, fill: F, target: int) returns (padded: seq<F>)
    requires |frames| <= target
    ensures |padded| == target
    ensures padded[..|frames|] == frames
    ensures forall i :: |frames| <= i < target ==> padded[i] == fill
  {
    padded := FillThenOverwrite(frames, fill, target);
  }

  /**
    `ValuePadder.__pad_annotations`. When the list is already at least `target`
    long, the slice assignment `padded[:n] = annotations` replaces the whole
    (shorter) buffer, so the annotations come back unchanged.
   */
  method ValuePadAnnotations<A>(annotations: seq<A>, fill: A, target: int) returns (padded: seq<A>)
    ensures padded == annotations + Repeat(fill, target - |annotations|)
  {
    if |annotations| <= target {
      padded := FillThenOverwrite(annotations, fill, target);
    } else {
      padded := annotations;
    }
  }

  /**
    `np.vstack` of a list of frame batches: the first batch stays in front, and
    batches of one frame each stack to one frame per batch.
   */
  function Stack<T>(batches: seq<seq<T>>): (stacked: seq<T>)
    ensures batches != [] ==> |batches[0]| <= |stacked| && stacked[..|batches[0]|] == batches[0]
    ensures (forall k :: 0 <= k < |batches| ==> |batches[k]| == 1) ==> |stacked| == |batches|
  {
    if batches == [] then [] else batches[0] + Stack(batches[1..])
  }

  lemma {:induction false} StackRepeated<T>(x: T, n: int)
    ensures Stack(Repeat([x], n)) == Repeat(x, n)
  {
    if n > 0 {
      assert Repeat([x], n)[1..] == Repeat([x], n - 1);
      StackRepeated(x, n - 1);
      assert Repeat(x, n) == [x] + Repeat(x, n - 1);
    }
  }

  lemma {:induction false} StackEmpties<T>(n: int)
    ensures Stack(Repeat<seq<T>>([], n)) == []
  {
    if n > 0 {
      assert Repeat<seq<T>>([], n)[1..] == Repeat<seq<T>>([], n - 1);
      StackEmpties<T>(n - 1);
    }
  }

  /**
    What the stacked padding of `LastValuePadder.__pad_frames` is: the frames
    followed by `padLength` copies of `frames[-1:]`, which is the last frame,
    or nothing when there are no frames.
   */
  lemma StackLastFrame<F>(frames: seq<F>, padLength: int)
    requires padLength > 0
    ensures var n := |frames|;
      var lastFrame := SliceSeq(frames, Slice(Some(-1), None, None)).value;
      Stack([frames] + Repeat(lastFrame, padLength)) ==
        frames + (if n > 0 then Repeat(frames[n - 1], padLength) else [])
  {
    var n := |frames|;
    var lastFrame := SliceSeq(frames, Slice(Some(-1), None, None)).value;
    var batches := [frames] + Repeat(lastFrame, padLength);
    assert batches[1..] == Repeat(lastFrame, padLength);
    if n > 0 {
      SliceForward(frames, n - 1, n);
      assert Indices(Slice(Some(-1), None, None), n) == Ok(Bounds(n - 1, n, 1));
      assert Indices(Slice(Some(n - 1), Some(n), None), n) == Ok(Bounds(n - 1, n, 1));
      assert lastFrame == [frames[n - 1]];
      StackRepeated(frames[n - 1], padLength);
    } else {
      assert lastFrame == [];
      StackEmpties<F>(padLength);
    }
  }

  /**
    `LastValuePadder.__pad_frames`: nothing to do when `target <= n`; otherwise
    the batch `frames[-1:]` is stacked `target - n` times after the frames. The
    last frame is repeated up to `target` behind the frames; with no frame at
    all, `frames[-1:]` is empty and so is the result.
   */
  function LastValuePadFrames<F>(frames: seq<F>, target: int): (padded: seq<F>)
    ensures var n := |frames|;
      && (n > 0 ==> padded == frames + Repeat(frames[n - 1], target - n))
      && (n > 0 ==> |padded| == if target > n then target else n)
      && (n == 0 ==> padded == [])
      && (target <= n ==> padded == frames)
  {
    var padLength := target - |frames|;
    if padLength <= 0 then frames
    else
      var lastFrame := SliceSeq(frames, Slice(Some(-1), None, None)).value;
      StackLastFrame(frames, padLength);
      Stack([frames] + Repeat(lastFrame, padLength))
  }

  /**
    `LastValuePadder.__pad_annotations`: `annotations[-1]` is read first, so an
    empty list raises `IndexError` whatever the target.
   */
  function LastValuePadAnnotations<A>(annotations: seq<A>, target: int): (r: Result<seq<A>>)
    ensures r.Ok? <==> |annotations| > 0
    ensures r.Err? ==> r.error == IndexError
    ensures r.Ok? ==> var n := |annotations|;
      && |r.value| == (if target > n then target else n)
      && r.value[..n] == annotations
      && forall i :: n <= i < |r.value| ==> r.value[i] == annotations[n - 1]
  {
    if |annotations| == 0 then Err(IndexError)
    else
      var last := annotations[|annotations| - 1];
      Ok(annotations + Repeat(last, target - |annotations|))
  }

  /**
    `Padder.__call__`: frames and annotations are padded separately, each from
    its own input, the target and its own fill value; an error from padding
    the annotations is raised for the whole call.
   */
  method Pad<F, A>(padder: Padder<F, A>, frames: seq<F>, annotations: seq<A>, target: int)
    returns (r: Result<(seq<F>, seq<A>)>)
    requires padder.ValuePadder? ==> |frames| <= target
    ensures padder.NoPadder? ==> r == Ok((frames, annotations))
    ensures padder.ValuePadder? ==>
      r == Ok((frames + Repeat(padder.framesPaddingValue, target - |frames|),
               annotations + Repeat(padder.annotationsPaddingValue, target - |annotations|)))
    ensures padder.LastValuePadder? ==>
      (r.Ok? <==> |annotations| > 0)
      && (r.Err? ==> r.error == IndexError)
      && (r.Ok? ==> r.value == (LastValuePadFrames(frames, target), LastValuePadAnnotations(annotations, target).value))
  {
    match padder
    case NoPadder =>
      r := Ok((frames, annotations));
    case ValuePadder(framesFill, annotationsFill) =>
      var paddedFrames := ValuePadFrames(frames, framesFill, target);
      var paddedAnnotations := ValuePadAnnotations(annotations, annotationsFill, target);
      assert paddedFrames == frames + Repeat(framesFill, target - |frames|);
      r := Ok((paddedFrames, paddedAnnotations));
    case LastValuePadder =>
      var paddedFrames := LastValuePadFrames(frames, target);
      var paddedAnnotations := LastValuePadAnnotations(annotations, target);
      if paddedAnnotations.Err? {
        r := Err(paddedAnnotations.error);
      } else {
        r := Ok((paddedFrames, paddedAnnotations.value));
      }
  }
}
