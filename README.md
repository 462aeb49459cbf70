# Abstract video generation — a verified model of the frame loop and upload checks

The repository turns a still image and a music track into a video. The image
breathes with the melody: each detected musical event stretches it along one
axis and squeezes it along the other, scaled by the loudness of the track, and
the image is always anchored at the bottom-right corner of a black canvas the
size of the original. A small web front end accepts the two uploads,
validates them and stores them under generated names.

This project models two cores in Dafny and proves properties of them.

- The per-frame loop of `generate_video` in processing.py, in three modules:
  - `Animation`: event lookup, the effect window, the stretch and its parity rule, smoothing and the floor clamp. These are pure functions over exact reals.
  - `Compositor`: the bottom-right-anchored rectangle arithmetic, and the in-place copy into a zero-filled `array2` canvas.
  - `Generator`: the frame loop itself. It is a method whose state (the two current scales and the frame list) is tied, iteration by iteration, to the specification functions `ScaleAfter` and `FramesUpTo`.
- The upload validation of app.py, in module `Upload`:
  - `allowed_file`;
  - the order of the checks in `process_files`;
  - the generated file names, storage paths and download link.

The results of audio analysis are inputs of the frame loop (`Generator.Inputs`):
- the sorted event times;
- the normalised loudness curve;
- the duration;
- the frame rate (`generate_video`'s default is 30);
- the image width and height.

The library computations the loop calls become given functions (`Generator.Oracles`):
- `librosa.time_to_frames`, a time to a natural index;
- the raised-cosine decay, an elapsed time to a real;
- `cv2.resize`, a pixel of the resized image given its size and position.

The resized sizes and the frame count are computed with `int(...)`, which truncates toward zero. The model truncates too; it does not round.

## Model

| member | source | states |
|---|---|---|
| Animation.CountAtOrBefore | processing.py:65 | the number of event times at or before t, at most the number of events (with `CountSplitsSorted`, numpy's right-side insertion point) |
| Animation.EventIndex | processing.py:65 | the event index lies in [-1, number of events) |
| Animation.CountSplitsSorted | processing.py:65 | in a sorted timeline the events at or before t are exactly the first CountAtOrBefore ones |
| Animation.EventIndexIsLatest | processing.py:65 | for sorted events the index is the largest k with events[k] <= t, and -1 exactly when every event is after t |
| Animation.SourceConfigValid | processing.py:15-20 | the program's own constants (base 0.5, max 2.0, smoothing 0.15, window 0.3 s, floor 0.05) satisfy ValidConfig, so every property stated under it applies to them |
| Animation.Stretch | processing.py:20-71 | with loudness and decay in [0,1] the stretch lies in [0, max_scale - base_scale] |
| Animation.InWindow | processing.py:65-69 | an event is at or before t and less than the effect duration has passed since it; no ensures of its own, see TargetAtRest and ParityRule |
| Animation.TargetScale | processing.py:63-78 | the target selection itself; no ensures of its own, see TargetAtRest, ParityRule and TargetRange |
| Animation.TargetAtRest | processing.py:63-69 | the target is (base, base) exactly when no event window is open or its stretch is zero; always so before the first event |
| Animation.ParityRule | processing.py:73-78 | inside a window, an even 0-based event index gives (base - s/2, base + s) and an odd one (base + s, base - s/2) |
| Animation.TargetRange | processing.py:63-78 | with valid constants, loudness in [0,1] and a decay in [0,1] over the window, each target axis lies in [base - max_stretch/2, max_scale] and one axis is at or above base |
| Animation.SmoothNeverOvershoots | processing.py:80-81 | for 0 < sf < 1 the distance to the target shrinks exactly by 1 - sf, the new value lies between old value and target, and the distance strictly shrinks unless already there |
| Animation.Smooth | processing.py:80-81 | one smoothing step; no ensures of its own, see SmoothNeverOvershoots |
| Animation.Clamp | processing.py:83-84 | max(floor, v) is at least both, and is one of them |
| Animation.Step | processing.py:80-84 | after a frame's transition both axes are at or above the floor and at or above the smoothed value |
| Animation.StepTowardTarget | processing.py:80-84 | from and toward values at or above the floor, the clamp never acts: target - new == (1 - sf) * (target - old) on each axis |
| Animation.StepShrinksDistance | processing.py:80-84 | under the same conditions the absolute distance to the target shrinks by the factor 1 - sf on each axis |
| Animation.RestIsFixedPoint | processing.py:53-84 | the initial rest scale stays put under a rest target |
| Animation.Settle | processing.py:80-84 | the state after n transitions toward one fixed target; no ensures of its own, see SettleStaysBetween |
| Animation.SettleStaysBetween | processing.py:80-84 | under a constant target, after any number of frames each axis lies between its start and the target |
| Compositor.Place | processing.py:97-104 | both rectangles lie on canvas and image, have equal width min(w, new_w) and height min(h, new_h), end at the two bottom-right corners, are a translation by the offsets, and are non-empty exactly when the canvas is |
| Compositor.AnchoredPixel | processing.py:96-108 | canvas pixel (y, x) under the bottom-right anchor; no ensures of its own, see ComposedFollowsPlacement, BottomRightCornersMeet, EnlargedIsCropped and ShrunkIsLetterboxed |
| Compositor.Composed | processing.py:96-108 | the composited frame is a w x h raster |
| Compositor.Composite | processing.py:96-108 | the zero-filled canvas after the rectangle copy equals the bottom-right-anchored frame `Composed` |
| Compositor.ComposedFollowsPlacement | processing.py:96-108 | inside the destination rectangle a canvas pixel is the resized pixel translated by the offsets; outside it the canvas stays black |
| Compositor.BottomRightCornersMeet | processing.py:97-108 | the resized image's last pixel lands on canvas pixel (h-1, w-1) |
| Compositor.EnlargedIsCropped | processing.py:97-108 | an image at least canvas size fills the canvas, with its top rows and left columns cropped |
| Compositor.ShrunkIsLetterboxed | processing.py:97-108 | an image at most canvas size appears whole in the bottom-right corner, with black above and to the left |
| Generator.Trunc | processing.py:50-88 | Python's int() of a real: the integer between the value and zero that is within one of it |
| Generator.TotalFrames | processing.py:50 | int(duration * fps); no ensures of its own, see Trunc and GenerateFrames |
| Generator.LoopCount | processing.py:57 | how often range(total_frames) iterates, zero for a non-positive total; no ensures of its own, see GenerateFrames |
| Generator.FrameTime | processing.py:58 | i / fps; no ensures of its own, see AdvanceScale |
| Generator.LoudnessIndex | processing.py:60 | min(idx, len - 1) is a valid index of a non-empty curve, equals idx when idx is in range, and is never above idx |
| Generator.FrameTarget | processing.py:58-78 | the target of frame i from its time and clamped loudness; no ensures of its own, see AdvanceScale and QuietTrackRests |
| Generator.ScaleAfter | processing.py:53-84 | after at least one frame both scales are at or above the floor |
| Generator.Resized | processing.py:94 | the resized image, a new_w x new_h raster taken from the resampling function |
| Generator.ScaledLength | processing.py:87-88 | int(length * scale); no ensures of its own, see AboveFloorIsVisible and VisibleAtFloorExactly |
| Generator.FrameSize | processing.py:87-88 | the sizes iteration i resizes to, from the state after that iteration; no ensures of its own, see NoIterationSkipped |
| Generator.Skipped | processing.py:91-92 | the guard that skips an iteration; no ensures of its own, see FrameCount and NoIterationSkipped |
| Generator.FrameAt | processing.py:87-110 | what iteration i appends: nothing when skipped, else its composited canvas; no ensures of its own, see FrameCount and FramesAreCanvasSized |
| Generator.FramesUpTo | processing.py:52-110 | the frame list after n iterations; no ensures of its own, see GenerateFrames, FrameCount, FramesOnlyGrow and FramesAreCanvasSized |
| Generator.SkippedUpTo | processing.py:91-92 | how many of the first n iterations were skipped; no ensures of its own, see FrameCount |
| Generator.GenerateFrames | processing.py:50-110 | the loop fails exactly when there is a frame to render and no loudness, and otherwise returns the frame list FramesUpTo(int(duration * fps)) |
| Generator.AdvanceScale | processing.py:58-84 | the first half of an iteration (time, clamped loudness index, target, smoothing, floor clamp) takes the state after i iterations to the state after i + 1 |
| Generator.FrameCount | processing.py:57-110 | the frame list has one entry per iteration that was not skipped, so never more entries than iterations |
| Generator.FramesOnlyGrow | processing.py:110 | frames are appended in iteration order and never changed: an earlier list is a prefix of a later one |
| Generator.FramesAreCanvasSized | processing.py:96-110 | every frame is a canvas of the original image's size |
| Generator.ScalesStayAboveFloor | processing.py:53-84 | with valid constants both scales stay at or above the floor at every iteration, whatever the targets |
| Generator.AboveFloorIsVisible | processing.py:87-92 | a side at least one pixel long at the floor scale stays at least one pixel at any larger scale |
| Generator.VisibleAtFloorExactly | processing.py:83-92 | at the floor scale a side keeps a pixel exactly when length * floor >= 1; otherwise its size truncates to 0 |
| Generator.SourceFloorNeedsTwentyPixels | processing.py:83-88 | with the program's floor of 0.05 a side survives the floor scale exactly when it is at least 20 pixels long |
| Generator.NoIterationSkipped | processing.py:83-92 | when both sides are visible at the floor, no iteration is skipped |
| Generator.OneFramePerIteration | processing.py:57-110 | in that case there is exactly one frame per iteration |
| Generator.QuietTrackRests | processing.py:53-84 | with no events or a silent loudness curve the scales stay exactly at the base scale |
| Upload.LastDot | app.py:26 | the position of the last '.' (or -1), with no '.' after it |
| Upload.Lower | app.py:26 | `.lower()` as ASCII lower-casing; no ensures of its own, see CaseInsensitive and AcceptedExtension |
| Upload.Extension | app.py:26-51 | the text after the last '.': it holds no '.', and the name is the text before, a '.', and it |
| Upload.AllowedFile | app.py:24-26 | `allowed_file` itself; no ensures of its own, see NoDotNotAllowed, OnlyLastDotCounts, TrailingDotNotAllowed, CaseInsensitive, UpperCaseExtensionAccepted and DoubleExtensionUsesLast |
| Upload.NoDotNotAllowed | app.py:25 | a name without any '.' is never allowed |
| Upload.ExtensionAfterLastDot | app.py:26 | the extension of head + "." + ext is ext whenever ext holds no '.', whatever dots head contains |
| Upload.OnlyLastDotCounts | app.py:24-26 | head + "." + ext is allowed exactly when the lower-cased ext is in the set |
| Upload.TrailingDotNotAllowed | app.py:21-26 | a name ending in '.' is neither an allowed image nor an allowed audio file |
| Upload.CaseInsensitive | app.py:26 | lower-casing a name first never changes whether it is allowed |
| Upload.UpperCaseExtensionAccepted | app.py:21-26 | "A.PNG" is an allowed image |
| Upload.DoubleExtensionUsesLast | app.py:21-26 | "x.png.mp3" is an allowed audio file and not an allowed image |
| Upload.ProcessFiles | app.py:36-60 | every rejection carries status 400 |
| Upload.GeneratedNames | app.py:54-60 | the three file names, three paths and the download link for one unique id; no ensures of its own, see AcceptedNames and StoredInFolders |
| Upload.Join | app.py:58-60 | `os.path.join` of a folder and a name; no ensures of its own, see StoredInFolders |
| Upload.ValidationOrder | app.py:36-47 | a missing field is reported first, then an empty name, then an unsupported type; the files are accepted exactly when all three checks pass |
| Upload.StoredNameKeepsExtension | app.py:54-55 | a name built from the unique id and an allowed lower-case extension is read back with that extension and passes the same check |
| Upload.AcceptedExtension | app.py:45-51 | the lower-cased extension of an accepted name is in its set, holds no '.' and is already lower-case |
| Upload.ExtensionSetsDisjoint | app.py:21-22 | no extension is both an image and an audio extension |
| Upload.AcceptedNames | app.py:50-56 | both uploads are named unique id + "." + their lower-cased extension, these names pass the same check again and differ, and the video is unique id + ".mp4" |
| Upload.StoredInFolders | app.py:58-73 | for a unique id not starting with '/', the uploads lie in "uploads", the video in "outputs", and the download link names the video |

## Left out

- Audio analysis is left out: loading, HPSS separation, onset strength, `peak_pick`, `frames_to_time` and the RMS feature (processing.py:24-43). These are floating-point library signal processing. Their results are inputs; the properties that need them assume sorted event times and loudness values in [0,1].
- The min-max normalisation of the loudness curve (processing.py:44) is floating-point numerics. It is left out, and loudness in [0,1] is assumed where needed.
- The raised-cosine decay (processing.py:70) is a given function decay of the elapsed time. `Animation.TargetRange` assumes it lies in [0,1] within the window.
- `librosa.time_to_frames` (processing.py:60) is a given function to natural numbers. Only the clamp applied to its result is modelled.
- `cv2.imread` and the interpolation of `cv2.resize` (processing.py:48, 94) are foreign image-library calls. The resized image is an arbitrary new_h x new_w raster given by the `resample` function.
- `cv2.cvtColor` (processing.py:110) is left out. It is a channel reorder in the foreign library, so frames are kept in the channel order the image was read in.
- Python floats are modelled as exact reals. Rounding of the scale arithmetic and of duration * fps is not modelled.
- Generator.GenerateFrames: an empty loudness curve with a frame to render makes the source raise an index error on its first iteration. The model returns `Failed(EmptyLoudnessCurve)` before the loop, which has the same end result: no video.
- Generator.GenerateFrames requires fps > 0. A rate of 0 gives int(duration * 0) = 0 iterations, and the only caller (app.py:68) passes the default of 30.
- The convergence of the scale toward a long constant target (a geometric bound over n frames) is not proved. The model proves the one-frame shrink law and that the state stays between its start and the target.
- Video muxing and encoding with moviepy, and progress printing (processing.py:112-121), are output I/O.
- Flask routing and the reading of `request.files` are left out (app.py:3-18, 28-31), as are saving the uploads (app.py:62-64), removing them (app.py:79-84), the JSON responses and the 500 error path (app.py:70-78), and `send_from_directory` (app.py:86-89). These are HTTP and filesystem plumbing. The uploaded files are a map from field name to file name.
- The call of `generate_video` from `process_files` (app.py:66-68) is left out: the frame loop is modelled on its own, from given analysis results.
- `uuid.uuid4()` (app.py:52) is randomness. The unique id is a parameter.
- Upload.Lower: `.lower()` is modelled as ASCII lower-casing. Python's Unicode case mapping of other letters is not modelled.
- Upload.Join models `os.path.join` with one folder and one name only: the name replaces the folder when it starts with '/'.
- static/js/script.js is browser UI and is left out.
