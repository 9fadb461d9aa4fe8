# video-dataset: segment indexing, padding and annotation lookup in Dafny

This project models the indexing core of `video_dataset`, a library that serves fixed-size
segments of long videos together with their per-frame annotations.

- **Segment index** (`segment_index.dfy`, module `SegmentIndex`). Each video holds
  `len(video) // segment_size` whole segments; trailing frames are dropped. The dataset
  length is the sum of these counts. A flat index `g` is resolved with the running sums of
  the counts (`itertools.accumulate`) and `bisect.bisect_right` to the owning video `v` and the
  start frame `(g - cum[v-1]) * segment_size`. Videos appear only through their frame counts.
- **Dataset** (`dataset.dfy`, module `Datasets`). Covers the `segment_size` checks of the constructor (the argument check and the divisibility warning),
  `__len__`, and `__getitem__`. `__getitem__` cuts the same window `[start, start + segment_size)`
  from the video and from its annotations, then applies each optional transform to its own half.
  A video is a sequence of opaque frames; the dataset is a value fixed at construction.
- **Padders** (`padder.dfy`, module `Padders`). `NoPadder` returns its input. `ValuePadder`
  allocates a buffer filled with a constant and overwrites its prefix in place; this is an array
  and a loop. `LastValuePadder` appends copies of the last frame and the last annotation.
- **Frame-level annotations** (`annotations.dfy`, module `FrameAnnotations`). The accessor
  accepts indices up to `len(lines) + max_overflow_value` and answers positions past the last
  line with a fallback value. Slices are clamped by `slice.indices` and collected in a loop.
  The file's lines are given as a sequence of strings.
- **Python semantics** (`lists.dfy`, module `Lists`). `[x] * n`, `slice.indices`, the length and
  elements of `range(start, stop, step)`, and list slicing, as CPython defines them.
  `outcomes.dfy` holds the `Result` type that carries the raised exception.

Behaviour that follows from the code as written, and that the model keeps:

- Segments here never overlap and have no stride. There is no whole-video mode: the count per
  video is `len // segment_size`.
- `LastValuePadder` with zero frames does not fail. `frames[-1:]` is empty, so stacking gives
  an empty batch (`Padders.LastValuePadFrames`). Only the annotation half raises
  `IndexError` on empty input.
- `ValuePadder` is not a no-op on frames longer than the target: numpy cannot broadcast them
  into the buffer. On annotations, list slice assignment returns the input unchanged.
- With `verbose=True`, the default, construction fails with `TypeError` as soon as some video's
  length is not a multiple of `segment_size`: the warning message evaluates `len(len(video))`.
  `Datasets.New` raises it; with `verbose=False` such videos only lose their trailing frames.

## Model

| member | source | states |
|---|---|---|
| `SegmentIndex.Counts` | video_dataset/dataset.py:179 | one count per video, in id order; `SegmentIndex.CountIsFloor` states each is `len // segment_size` |
| `SegmentIndex.CountIsFloor` | video_dataset/dataset.py:179 | each per-video count `c` is the floor quotient: `c * segment_size <= len < (c + 1) * segment_size`, so trailing frames are dropped |
| `SegmentIndex.Total` | video_dataset/dataset.py:155-156 | the summed count is zero exactly when every video is shorter than one segment |
| `SegmentIndex.Accumulate` | video_dataset/dataset.py:182 | running totals have one entry per count, and entry `i` is the start total plus the sum of the first `i + 1` counts |
| `SegmentIndex.PrefixSums` | video_dataset/dataset.py:182 | `accumulate(counts)[i]` is the sum of the first `i + 1` counts |
| `SegmentIndex.PrefixSumsNonDecreasing` | video_dataset/dataset.py:182 | running sums of counts never decrease, so `bisect_right` applies |
| `SegmentIndex.Search` | video_dataset/dataset.py:185 | the binary-search loop of `bisect_right` stays in `[lo, hi]` and, on a sorted list, splits it into entries `<= x` and entries `> x` |
| `SegmentIndex.BisectRight` | video_dataset/dataset.py:185 | on a sorted list, the result is the smallest position whose entry exceeds `g`: every entry before it is `<= g` and every entry from it on is `> g` |
| `SegmentIndex.Locate` | video_dataset/dataset.py:179-191 | the lookup fails only with `ValueError`, and a found video index is a valid video |
| `SegmentIndex.LocateOwner` | video_dataset/dataset.py:182-191 | for `g >= 0`, the found video is the smallest with `cum[v] > g`, and the local segment number is `g - cum[v-1]`, which is below that video's count |
| `SegmentIndex.Translate` | video_dataset/dataset.py:175-194 | a failed resolution raises `ValueError`; a resolved video index is a valid video |
| `SegmentIndex.TranslateSucceeds` | video_dataset/dataset.py:185-188 | resolution succeeds if and only if `g` is below the dataset length; otherwise `ValueError` |
| `SegmentIndex.NoSegmentWhenAllShort` | video_dataset/dataset.py:179-188 | with no videos, or with every video shorter than `segment_size`, every index fails with `ValueError` |
| `SegmentIndex.TranslateOwner` | video_dataset/dataset.py:179-191 | the resolved video is the smallest with `cum[v] > g`: `cum[v-1] <= g < cum[v]` with `cum[-1] = 0`, and the start is `(g - cum[v-1]) * segment_size` |
| `SegmentIndex.TranslateWindow` | video_dataset/dataset.py:161-192 | the start is a non-negative multiple of `segment_size`, and `start + segment_size <= len(videos[v])`, so videos with no whole segment are never chosen |
| `SegmentIndex.TranslateRoundTrip` | video_dataset/dataset.py:182-192 | `cum[v-1] + start / segment_size == g` |
| `SegmentIndex.TranslateInverse` | video_dataset/dataset.py:182-192 | local segment `k` of video `v` is resolved from the flat index `cum[v-1] + k` back to `(v, k * segment_size)` |
| `SegmentIndex.TranslateMonotone` | video_dataset/dataset.py:182-192 | a larger `g` resolves to a lexicographically larger `(video, start)` |
| `SegmentIndex.TranslateInjective` | video_dataset/dataset.py:182-192 | distinct indices resolve to distinct `(video, start)` pairs |
| `Datasets.CheckSegmentSize` | video_dataset/dataset.py:117-121 | `segment_size` is accepted if and only if it is a positive `int` (`True` counts as 1); the accepted size is that `int`, and 1 for `True`; otherwise `ValueError` |
| `Datasets.SegmentSizeCheck` | video_dataset/dataset.py:148-153 | with `verbose`, fails with `TypeError` exactly when some length is not a multiple of `segment_size`; without `verbose` it never fails |
| `Datasets.New` | video_dataset/dataset.py:79-153 | a bad `segment_size` raises `ValueError`; otherwise construction succeeds exactly when `verbose` is off or every video length is a multiple of `segment_size`, and fails with `TypeError` otherwise; a built dataset stores the given videos, annotations and transforms, and the accepted `segment_size` |
| `Datasets.Apply` | video_dataset/dataset.py:167-171 | an absent transform leaves its half unchanged; a given one is applied once to it |
| `Datasets.VideoDataset.Lengths` | video_dataset/dataset.py:156 | one frame count per video, in id order |
| `Datasets.VideoDataset.Length` | video_dataset/dataset.py:155-156 | `__len__` is zero exactly when no video holds a whole segment |
| `Datasets.VideoDataset.GetItem` | video_dataset/dataset.py:158-173 | `g >= len` raises `ValueError`; otherwise both halves are cut by the same window at the same video, and each transform is applied to its own half only |
| `Datasets.VideoDataset.WindowFrames` | video_dataset/dataset.py:161-164 | a window that starts at a non-negative frame and ends inside its video is cut whole: `videos[v][start : start + segment_size]` |
| `Datasets.VideoDataset.SegmentFrames` | video_dataset/dataset.py:159-164 | the frame half is exactly `videos[v][start : start + segment_size]`, and that window lies inside the video |
| `Datasets.VideoDataset.WindowLabels` | video_dataset/dataset.py:161-165 | the annotation half is the same window of the lines extended with the fallback; it has `segment_size` entries exactly when the window ends within `len(lines) + max_overflow_value` |
| `Datasets.VideoDataset.SegmentLabels` | video_dataset/dataset.py:159-165 | for every resolvable index, the annotation half is full exactly when its window ends within the accessor's bound |
| `Padders.FillThenOverwrite` | video_dataset/padder.py:35-45 | filling a buffer of length `target` and overwriting its prefix gives `prefix + [fill] * (target - n)` |
| `Padders.ValuePadFrames` | video_dataset/padder.py:35-39 | for `n <= target`: the length is `target`, the first `n` frames are the input, and every later frame is the fill value |
| `Padders.ValuePadAnnotations` | video_dataset/padder.py:41-45 | the result is `annotations + [fill] * (target - n)`, so the input is unchanged when `n >= target` |
| `Padders.Stack` | video_dataset/padder.py:64 | `np.vstack` keeps the first batch in front, and batches of one frame each give one frame per batch |
| `Padders.StackRepeated` | video_dataset/padder.py:63-64 | stacking `n` copies of the one-frame batch `[x]` gives `[x] * n` |
| `Padders.StackEmpties` | video_dataset/padder.py:63-64 | stacking `n` empty batches gives an empty batch |
| `Padders.LastValuePadFrames` | video_dataset/padder.py:57-66 | for `n > 0`: `frames + [frames[n-1]] * (target - n)`, of length `max(n, target)`; unchanged when `target <= n`; empty input stays empty |
| `Padders.LastValuePadAnnotations` | video_dataset/padder.py:68-72 | an empty list raises `IndexError`; otherwise the length is `max(n, target)`, the prefix is the input, and the tail repeats the last annotation |
| `Padders.Pad` | video_dataset/padder.py:17-55 | `NoPadder` returns its inputs; the other policies pad each half from its own input, the target and its own fill value; an error from the annotation half fails the call |
| `Lists.Repeat` | video_dataset/padder.py:42 | `[x] * n` has `max(0, n)` entries, all equal to `x` |
| `Lists.RangeLength` | video_dataset/annotations.py:71 | every counted element of `range(start, stop, step)` lies strictly before `stop`, and the element at the count does not |
| `Lists.Indices` | video_dataset/annotations.py:49 | `slice.indices(length)` fails with `ValueError` exactly for a negative length or a zero step, and otherwise clamps both bounds into the list |
| `Lists.IndicesInBounds` | video_dataset/annotations.py:49-71 | every index produced by a clamped slice lies in `[0, length)`, so it never reaches the bound |
| `Lists.SliceSeq` | video_dataset/dataset.py:164 | list slicing fails only for a zero step |
| `Lists.SliceForward` | video_dataset/dataset.py:164-165 | `xs[a:b]`, with non-negative bounds and no step, is the run from `min(a, len)` to `min(b, len)` |
| `FrameAnnotations.AnnotationsFromFrameLevelTxtFile.constructor` | video_dataset/annotations.py:24-32 | stores the id, lines, fallback and overflow; the defaults are `"nothing"` and `100` |
| `FrameAnnotations.AnnotationsFromFrameLevelTxtFile.Lookup` | video_dataset/annotations.py:54-62 | below the accessor's bound, the line read for an index is the entry of the lines extended with the fallback |
| `FrameAnnotations.AnnotationsFromFrameLevelTxtFile.Collect` | video_dataset/annotations.py:64-77 | entry `k` of the result is for index `start + k*step`: `lines[i]` when `i < len(lines)`, else the fallback; the result has exactly `len(range(start, stop, step))` entries |
| `FrameAnnotations.AnnotationsFromFrameLevelTxtFile.Select` | video_dataset/annotations.py:48-50 | slicing the accessor fails with `ValueError` exactly when `slice.indices` does |
| `FrameAnnotations.AnnotationsFromFrameLevelTxtFile.GetItem` | video_dataset/annotations.py:43-62 | an `int` is accepted if and only if `0 <= i < len(lines) + max_overflow_value` (else `IndexError`) and gives its line or the fallback; a slice gives the collected list; any other index raises `TypeError` |
| `FrameAnnotations.AnnotationsFromFrameLevelTxtFile.Extended` | video_dataset/annotations.py:45-49 | the list the accessor behaves like has `len(lines) + max_overflow_value` entries |
| `FrameAnnotations.AnnotationsFromFrameLevelTxtFile.SelectMatchesExtended` | video_dataset/annotations.py:48-77 | slicing the accessor equals Python slicing of the lines extended with the fallback. Real lines are never replaced, and the fallback fills only positions past the last line |
| `FrameAnnotations.AnnotationsFromFrameLevelTxtFile.WindowOfExtended` | video_dataset/annotations.py:48-77 | the window `[a:b]` of the accessor is the run of the extended lines from `min(a, bound)` to `min(b, bound)`, with that many entries |

## Left out

- File system work in the dataset constructor (video_dataset/dataset.py:99-146) is not modelled: directory checks, listing ids, building paths and processors. The video and annotation lists are inputs built from the same ids.
- The type checks on transforms, `ids` and `verbose` (video_dataset/dataset.py:123-133) are not modelled, because the typed model cannot express those wrong values.
- The warning text of `__segment_size_check` (video_dataset/dataset.py:148-153) is not modelled. Building it raises `TypeError`, because it evaluates `len(len(video))`; `Datasets.SegmentSizeCheck` models that failure.
- `Datasets.New`: promises success only with `verbose=False`, or when every video length is a multiple of `segment_size`. With `verbose=True` and a length that is not a multiple, it fails with `TypeError` as the source does.
- video.py is not part of this model. It covers decoding with PIL and OpenCV. A video is a sequence of opaque frames, and its slicing follows Python list slicing (`Lists.SliceSeq`).
- Annotation file reading is not modelled. The lines are given, and the length is their count. As written, the accessor's `__len__` opens `self.path`, which is never assigned (video_dataset/annotations.py:38), and `__getitem__` calls `__len__` first for both `int` and `slice` indices (video_dataset/annotations.py:45 and 49). So every access raises `AttributeError`, and `VideoDataset.__getitem__` with this processor always fails at video_dataset/dataset.py:165. The model follows the evident intent instead: the length is the number of lines of the file that `__get_annotation` reads.
- `Datasets.VideoDataset`: its annotations are always `AnnotationsFromFrameLevelTxtFileAnnotations` accessors. The source accepts any `annotations_processor` class (video_dataset/dataset.py:59 and 138); this is the only concrete one in annotations.py.
- `get_id` accessors and the abstract base classes are not modelled.
- `SegmentIndex.Translate`: takes `g >= 0` as a precondition. For a negative index the source behaves in two ways. With no videos, `bisect_right([], g)` is 0, which is not below `len([])`, so it raises `ValueError` (video_dataset/dataset.py:185-188). With videos, the owner is video 0 and the start frame `g * segment_size` is negative, so the slice at video_dataset/dataset.py:164 counts from the end of video 0: `g = -2` cuts `[-2s:-s]`, and `g = -1` cuts an empty window.
- `Datasets.VideoDataset.GetItem`: takes `g >= 0` as a precondition, inherited from `SegmentIndex.Translate`, for the same reason.
- `Padders.ValuePadFrames`: takes `n <= target` as a precondition, because numpy fails to broadcast longer input into the buffer. The dtype and shape of the numpy buffer are not modelled. The fill value is given as a whole frame, not as a scalar broadcast over one.
- `Padders.Pad`: takes `|frames| <= target` as a precondition for `ValuePadder`, inherited from `Padders.ValuePadFrames`, for the same reason.
- `FrameAnnotations.AnnotationsFromFrameLevelTxtFile.Lookup`: takes a non-negative index. Every caller validates or clamps first, so Python's wrap-around for negative list indices is never reached.
- The frame and annotation transforms are arbitrary user code. They are modelled as optional total functions that return a value of the same type.
- Overlap, stride, axis permutation, whole-video mode and load flags do not exist in this revision of the code.
- preprocessor.py, which runs ffmpeg, is not modelled.
