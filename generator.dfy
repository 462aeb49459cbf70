/** The frame loop of generate_video: one iteration per output frame, each
    advancing the animation state and, unless the scaled size is degenerate,
    appending one composited canvas to the frame list. */
module Generator {
  import opened Animation
  import opened Compositor

  /** What the frame loop starts from: the audio duration (seconds), the video
      frame rate, the original image's width and height, the event times and
      the normalised loudness curve. */
  datatype Inputs = Inputs(duration: real, fps: nat, w: nat, h: nat, events: seq<real>, rms: seq<real>)

  /** The library computations the loop relies on, as given functions:
      the time-to-analysis-frame mapping, the decay profile of an event by
      elapsed time, and the resized image, pixel (y, x) of the original
      resized to newW x newH read as resample(newW, newH, y, x). */
  datatype Oracles = Oracles(
    timeToFrames: real -> nat,
    decay: real -> real,
    resample: (int, int, int, int) -> Pixel)

  datatype Error = EmptyLoudnessCurve

  datatype Outcome = Frames(frames: seq<Image>) | Failed(error: Error)

  /** Python's int() of a float: truncation toward zero. */
  function Trunc(r: real): (n: int)
    ensures 0.0 <= r ==> 0 <= n && n as real <= r < n as real + 1.0
    ensures r < 0.0 ==> n <= 0 && n as real - 1.0 < r <= n as real
  {
    if r >= 0.0 then r.Floor else -((-r).Floor)
  }

  /** int(duration * fps), the bound of the frame loop's range. */
  function TotalFrames(inp: Inputs): int {
    Trunc(inp.duration * inp.fps as real)
  }

  /** How many times `for i in range(TotalFrames)` iterates. */
  function LoopCount(inp: Inputs): nat {
    if TotalFrames(inp) < 0 then 0 else TotalFrames(inp)
  }

  function FrameTime(inp: Inputs, i: nat): real
    requires inp.fps > 0
  {
    i as real / inp.fps as real
  }

  /** min(raw, len - 1): a raw analysis-frame index clamped to the last valid one. */
  function LoudnessIndex(raw: nat, len: nat): (k: int)
    ensures len > 0 ==> 0 <= k < len
    ensures k <= raw && (k == raw || k == len - 1)
    ensures raw < len ==> k == raw
  {
    if raw <= len - 1 then raw else len - 1
  }

  /** The target scale of frame i. */
  function FrameTarget(c: Config, inp: Inputs, o: Oracles, i: nat): Scale
    requires inp.fps > 0 && |inp.rms| > 0
  {
    var t := FrameTime(inp, i);
    TargetScale(c, inp.events, t, inp.rms[LoudnessIndex(o.timeToFrames(t), |inp.rms|)], o.decay)
  }

  /** The animation state after n iterations of the loop. */
  function ScaleAfter(c: Config, inp: Inputs, o: Oracles, n: nat): (s: Scale)
    requires inp.fps > 0 && (n == 0 || |inp.rms| > 0)
    ensures n > 0 ==> s.x >= c.minScale && s.y >= c.minScale
  {
    if n == 0 then Scale(c.baseScale, c.baseScale)
    else Step(c, ScaleAfter(c, inp, o, n - 1), FrameTarget(c, inp, o, n - 1))
  }

  /** The resized image the loop composites: newW x newH pixels from the oracle. */
  function Resized(o: Oracles, newW: int, newH: int): (img: Image)
    requires newW > 0 && newH > 0
    ensures IsNonEmptyImage(img) && IsImage(img, newW, newH)
  {
    seq(newH, y => seq(newW, x => o.resample(newW, newH, y, x)))
  }

  /** int(length * scale), a scaled image side in whole pixels. */
  function ScaledLength(length: nat, scale: real): int {
    Trunc(length as real * scale)
  }

  /** Width and height frame i resizes the image to. */
  function FrameSize(c: Config, inp: Inputs, o: Oracles, i: nat): (int, int)
    requires inp.fps > 0 && |inp.rms| > 0
  {
    var s := ScaleAfter(c, inp, o, i + 1);
    (ScaledLength(inp.w, s.x), ScaledLength(inp.h, s.y))
  }

  /** Iteration i appends nothing: its scaled width or height is not positive. */
  predicate Skipped(c: Config, inp: Inputs, o: Oracles, i: nat)
    requires inp.fps > 0 && |inp.rms| > 0
  {
    FrameSize(c, inp, o, i).0 <= 0 || FrameSize(c, inp, o, i).1 <= 0
  }

  /** The frames iteration i appends: none, or its composited canvas. */
  function FrameAt(c: Config, inp: Inputs, o: Oracles, i: nat): seq<Image>
    requires inp.fps > 0 && |inp.rms| > 0
  {
    if Skipped(c, inp, o, i) then []
    else
      var (newW, newH) := FrameSize(c, inp, o, i);
      [Composed(Resized(o, newW, newH), inp.w, inp.h)]
  }

  /** The frame list after n iterations. */
  function FramesUpTo(c: Config, inp: Inputs, o: Oracles, n: nat): seq<Image>
    requires inp.fps > 0 && (n == 0 || |inp.rms| > 0)
  {
    if n == 0 then [] else FramesUpTo(c, inp, o, n - 1) + FrameAt(c, inp, o, n - 1)
  }

  /** Number of skipped iterations among the first n. */
  function SkippedUpTo(c: Config, inp: Inputs, o: Oracles, n: nat): nat
    requires inp.fps > 0 && (n == 0 || |inp.rms| > 0)
  {
    if n == 0 then 0 else SkippedUpTo(c, inp, o, n - 1) + (if Skipped(c, inp, o, n - 1) then 1 else 0)
  }

  /** The frame loop. It fails, as the source's indexing into an empty
      loudness curve does, when there is a frame to render and no loudness. */
  method GenerateFrames(c: Config, inp: Inputs, o: Oracles) returns (r: Outcome)
    requires inp.fps > 0
    ensures r.Failed? <==> LoopCount(inp) > 0 && |inp.rms| == 0
    ensures r.Frames? ==> r.frames == FramesUpTo(c, inp, o, LoopCount(inp))
  {
    var total := TotalFrames(inp);
    if total > 0 && |inp.rms| == 0 {
      return Failed(EmptyLoudnessCurve);
    }
    var frames: seq<Image> := [];
    var scaleX, scaleY := c.baseScale, c.baseScale;
    var i: nat := 0;
    while i < total
      invariant i <= LoopCount(inp)
      invariant i > 0 ==> |inp.rms| > 0
      invariant Scale(scaleX, scaleY) == ScaleAfter(c, inp, o, i)
      invariant frames == FramesUpTo(c, inp, o, i)
    {
      scaleX, scaleY := AdvanceScale(c, inp, o, i, scaleX, scaleY);
      NextIteration(c, inp, o, i);

      var newW := ScaledLength(inp.w, scaleX);
      var newH := ScaledLength(inp.h, scaleY);
      assert (newW, newH) == FrameSize(c, inp, o, i);
      if newW > 0 && newH > 0 {
        var canvas := Composite(Resized(o, newW, newH), inp.w, inp.h);
        assert [canvas] == FrameAt(c, inp, o, i);
        frames := frames + [canvas];
      } else {
        assert FrameAt(c, inp, o, i) == [];
      }
      assert frames == FramesUpTo(c, inp, o, i + 1);
      i := i + 1;
    }
    assert i == LoopCount(inp);
    return Frames(frames);
  }

  /** The first half of iteration i: the loudness and target at the frame's
      time, then the smoothing and clamp of both scales. */
  method AdvanceScale(c: Config, inp: Inputs, o: Oracles, i: nat, scaleX0: real, scaleY0: real)
    returns (scaleX: real, scaleY: real)
    requires inp.fps > 0 && |inp.rms| > 0
    requires Scale(scaleX0, scaleY0) == ScaleAfter(c, inp, o, i)
    ensures Scale(scaleX, scaleY) == ScaleAfter(c, inp, o, i + 1)
  {
    var t := i as real / inp.fps as real;
    var loudness := inp.rms[LoudnessIndex(o.timeToFrames(t), |inp.rms|)];
    var target := TargetScale(c, inp.events, t, loudness, o.decay);
    assert target == FrameTarget(c, inp, o, i);

    scaleX := Smooth(scaleX0, target.x, c.smoothing);
    scaleY := Smooth(scaleY0, target.y, c.smoothing);
    scaleX := Clamp(c.minScale, scaleX);
    scaleY := Clamp(c.minScale, scaleY);
    assert Scale(scaleX, scaleY) == Step(c, Scale(scaleX0, scaleY0), target);
    NextIteration(c, inp, o, i);
  }

  /** What one more iteration adds to the state and to the frame list. */
  lemma NextIteration(c: Config, inp: Inputs, o: Oracles, i: nat)
    requires inp.fps > 0 && |inp.rms| > 0
    ensures ScaleAfter(c, inp, o, i + 1) == Step(c, ScaleAfter(c, inp, o, i), FrameTarget(c, inp, o, i))
    ensures FramesUpTo(c, inp, o, i + 1) == FramesUpTo(c, inp, o, i) + FrameAt(c, inp, o, i)
  {
  }

  // ---------------------------------------------------------------------------
  // Properties of the frame list

  /** Every skipped iteration shortens the frame list by one; at most one frame
      per iteration, so never more frames than iterations. */
  lemma {:induction false} FrameCount(c: Config, inp: Inputs, o: Oracles, n: nat)
    requires inp.fps > 0 && (n == 0 || |inp.rms| > 0)
    ensures |FramesUpTo(c, inp, o, n)| == n - SkippedUpTo(c, inp, o, n)
    ensures |FramesUpTo(c, inp, o, n)| <= n
  {
    if n > 0 {
      var m: nat := n - 1;
      FrameCount(c, inp, o, m);
      NextIteration(c, inp, o, m);
      NextCount(c, inp, o, m);
    }
  }

  /** Iteration i appends no frame when it is skipped and one frame otherwise. */
  lemma NextCount(c: Config, inp: Inputs, o: Oracles, i: nat)
    requires inp.fps > 0 && |inp.rms| > 0
    ensures |FrameAt(c, inp, o, i)| == if Skipped(c, inp, o, i) then 0 else 1
    ensures SkippedUpTo(c, inp, o, i + 1) == SkippedUpTo(c, inp, o, i) + (if Skipped(c, inp, o, i) then 1 else 0)
  {
  }

  /** Frames are appended in increasing iteration order and never changed:
      the list after m iterations is a prefix of the list after n >= m. */
  lemma {:induction false} FramesOnlyGrow(c: Config, inp: Inputs, o: Oracles, m: nat, n: nat)
    requires inp.fps > 0 && (n == 0 || |inp.rms| > 0) && m <= n
    ensures FramesUpTo(c, inp, o, m) <= FramesUpTo(c, inp, o, n)
  {
    if m < n {
      var k: nat := n - 1;
      FramesOnlyGrow(c, inp, o, m, k);
      NextIteration(c, inp, o, k);
      var before, added := FramesUpTo(c, inp, o, k), FrameAt(c, inp, o, k);
      assert before <= before + added;
    }
  }

  /** Every frame is a canvas of the original image's size. */
  lemma {:induction false} FramesAreCanvasSized(c: Config, inp: Inputs, o: Oracles, n: nat)
    requires inp.fps > 0 && (n == 0 || |inp.rms| > 0)
    ensures forall f :: f in FramesUpTo(c, inp, o, n) ==> IsImage(f, inp.w, inp.h)
  {
    if n > 0 {
      var m: nat := n - 1;
      FramesAreCanvasSized(c, inp, o, m);
    }
  }

  /** After every frame both scales are at or above the floor, whatever the targets. */
  lemma ScalesStayAboveFloor(c: Config, inp: Inputs, o: Oracles, n: nat)
    requires ValidConfig(c) && inp.fps > 0 && (n == 0 || |inp.rms| > 0)
    ensures ScaleAfter(c, inp, o, n).x >= c.minScale && ScaleAfter(c, inp, o, n).y >= c.minScale
  {
  }

  /** A side of this length is at least one pixel wide at the floor scale. */
  predicate VisibleAtFloor(length: nat, floor: real) {
    length as real * floor >= 1.0
  }

  /** When the floor alone keeps both scaled sizes at one pixel or more, no
      iteration is skipped... */
  lemma {:induction false} NoIterationSkipped(c: Config, inp: Inputs, o: Oracles, n: nat)
    requires inp.fps > 0 && (n == 0 || |inp.rms| > 0)
    requires VisibleAtFloor(inp.w, c.minScale) && VisibleAtFloor(inp.h, c.minScale)
    ensures SkippedUpTo(c, inp, o, n) == 0
  {
    if n > 0 {
      var m: nat := n - 1;
      NoIterationSkipped(c, inp, o, m);
      var s := ScaleAfter(c, inp, o, n);
      assert FrameSize(c, inp, o, m) == (ScaledLength(inp.w, s.x), ScaledLength(inp.h, s.y));
      AboveFloorIsVisible(inp.w, s.x, c.minScale);
      AboveFloorIsVisible(inp.h, s.y, c.minScale);
    }
  }

  /** ...and so there is exactly one frame per iteration. */
  lemma OneFramePerIteration(c: Config, inp: Inputs, o: Oracles, n: nat)
    requires inp.fps > 0 && (n == 0 || |inp.rms| > 0)
    requires VisibleAtFloor(inp.w, c.minScale) && VisibleAtFloor(inp.h, c.minScale)
    ensures |FramesUpTo(c, inp, o, n)| == n
  {
    NoIterationSkipped(c, inp, o, n);
    FrameCount(c, inp, o, n);
  }

  /** A side that is at least one pixel at the floor scale stays at least one
      pixel at any scale above the floor. */
  lemma AboveFloorIsVisible(length: nat, scale: real, floor: real)
    requires VisibleAtFloor(length, floor) && scale >= floor
    ensures ScaledLength(length, scale) >= 1
  {
    assert length as real * scale >= length as real * floor;
  }

  /** At the floor scale itself a side keeps a pixel exactly when it is
      visible at the floor; a side shorter than that (under 20 pixels at 0.05)
      truncates to 0, so the skip branch is reachable. */
  lemma VisibleAtFloorExactly(length: nat, floor: real)
    requires floor >= 0.0
    ensures ScaledLength(length, floor) >= 1 <==> VisibleAtFloor(length, floor)
    ensures !VisibleAtFloor(length, floor) ==> ScaledLength(length, floor) == 0
  {
    assert length as real * floor >= 0.0;
  }

  /** With the program's floor of 0.05 a side is visible at the floor exactly
      when it is at least 20 pixels long. */
  lemma SourceFloorNeedsTwentyPixels(length: nat)
    ensures VisibleAtFloor(length, SourceConfig.minScale) <==> length >= 20
  {
    assert length as real * 0.05 == length as real / 20.0;
  }

  /** With no events, or a silent loudness curve, the target is always the
      rest scale and the state stays exactly at the base scale. */
  lemma {:induction false} QuietTrackRests(c: Config, inp: Inputs, o: Oracles, n: nat)
    requires ValidConfig(c) && inp.fps > 0 && (n == 0 || |inp.rms| > 0)
    requires inp.events == [] || forall k :: 0 <= k < |inp.rms| ==> inp.rms[k] == 0.0
    ensures ScaleAfter(c, inp, o, n) == Scale(c.baseScale, c.baseScale)
  {
    if n > 0 {
      var m: nat := n - 1;
      QuietTrackRests(c, inp, o, m);
      assert FrameTarget(c, inp, o, m) == Scale(c.baseScale, c.baseScale);
      RestIsFixedPoint(c);
    }
  }
}
