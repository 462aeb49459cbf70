/** The scale animator of the video generator: which audio event is current at a
    frame time, which anisotropic target scale it asks for, and how the current
    scale follows that target from frame to frame. Scales are exact reals. */
module Animation {

  /** The tunable constants of generate_video. */
  datatype Config = Config(
    baseScale: real,       // scale at rest, on both axes
    maxScale: real,        // scale a full-strength event reaches on its stretched axis
    smoothing: real,       // weight of the target in one smoothing step
    effectDuration: real,  // seconds an event keeps acting after it fires
    minScale: real)        // floor both axes are clamped to after smoothing

  /** The values processing.py hard-codes. */
  const SourceConfig: Config := Config(0.5, 2.0, 0.15, 0.3, 0.05)

  /** What the hard-coded values satisfy and the properties below rely on. */
  predicate ValidConfig(c: Config) {
    0.0 < c.minScale <= c.baseScale <= c.maxScale &&
    0.0 < c.smoothing < 1.0 &&
    0.0 < c.effectDuration
  }

  /** The hard-coded values satisfy that predicate, so every property stated
      under ValidConfig holds of the program's own constants. */
  lemma SourceConfigValid()
    ensures ValidConfig(SourceConfig)
  {
  }

  /** Current (or target) scale of the image, per axis. */
  datatype Scale = Scale(x: real, y: real)

  function Abs(r: real): real { if r < 0.0 then -r else r }

  predicate Sorted(s: seq<real>) {
    forall i, j :: 0 <= i <= j < |s| ==> s[i] <= s[j]
  }

  // ---------------------------------------------------------------------------
  // Event lookup

  /** How many event times are at or before t; for sorted times this is the
      insertion point numpy's searchsorted(..., side='right') returns. */
  function CountAtOrBefore(events: seq<real>, t: real): (n: nat)
    ensures n <= |events|
  {
    if |events| == 0 then 0
    else CountAtOrBefore(events[..|events| - 1], t) + (if events[|events| - 1] <= t then 1 else 0)
  }

  /** Index of the most recent event at or before t, or -1 when there is none. */
  function EventIndex(events: seq<real>, t: real): (k: int)
    ensures -1 <= k < |events|
  {
    CountAtOrBefore(events, t) - 1
  }

  /** In a sorted timeline the events at or before t are exactly a prefix. */
  lemma {:induction false} CountSplitsSorted(events: seq<real>, t: real)
    requires Sorted(events)
    ensures forall j :: 0 <= j < |events| ==> (events[j] <= t <==> j < CountAtOrBefore(events, t))
  {
    if |events| > 0 {
      var init := events[..|events| - 1];
      assert Sorted(init);
      CountSplitsSorted(init, t);
      if events[|events| - 1] <= t {
        forall j | 0 <= j < |init| ensures init[j] <= t {
          assert events[j] <= events[|events| - 1];
        }
      }
    }
  }

  /** The event index is the largest k with events[k] <= t, and -1 exactly when
      every event lies after t. */
  lemma EventIndexIsLatest(events: seq<real>, t: real)
    requires Sorted(events)
    ensures var k := EventIndex(events, t);
      (k == -1 <==> forall j :: 0 <= j < |events| ==> t < events[j]) &&
      (k >= 0 ==> events[k] <= t) &&
      (forall j :: 0 <= j < |events| ==> (events[j] <= t <==> j <= k))
  {
    CountSplitsSorted(events, t);
    if CountAtOrBefore(events, t) > 0 {
      assert events[0] <= t;
    }
  }

  // ---------------------------------------------------------------------------
  // Target selection

  /** Stretch of the current event: full stretch range scaled by loudness and decay. */
  function Stretch(c: Config, loudness: real, decay: real): (s: real)
    ensures c.baseScale <= c.maxScale && 0.0 <= loudness <= 1.0 && 0.0 <= decay <= 1.0 ==>
      0.0 <= s <= c.maxScale - c.baseScale
  {
    var m := c.maxScale - c.baseScale;
    assert 0.0 <= loudness <= 1.0 && 0.0 <= m ==> 0.0 <= m * loudness <= m;
    assert 0.0 <= decay <= 1.0 && 0.0 <= m * loudness ==> 0.0 <= m * loudness * decay <= m * loudness;
    m * loudness * decay
  }

  /** An event is at or before t and its effect window has not yet closed. */
  predicate InWindow(c: Config, events: seq<real>, t: real) {
    var k := EventIndex(events, t);
    k >= 0 && t - events[k] < c.effectDuration
  }

  /** Stretch asked for at time t, given the loudness there and the decay profile;
      zero when no event window is open. */
  function StretchAt(c: Config, events: seq<real>, t: real, loudness: real, decay: real -> real): real {
    if InWindow(c, events, t) then
      var k := EventIndex(events, t);
      Stretch(c, loudness, decay(t - events[k]))
    else 0.0
  }

  /** Target scale at time t: the base scale on both axes outside an event
      window; inside one, the event's parity chooses the stretched axis, and
      the other axis is compressed by half the stretch. */
  function TargetScale(c: Config, events: seq<real>, t: real, loudness: real, decay: real -> real): Scale {
    if InWindow(c, events, t) then
      var k := EventIndex(events, t);
      var s := Stretch(c, loudness, decay(t - events[k]));
      if (k + 1) % 2 != 0 then Scale(c.baseScale - s * 0.5, c.baseScale + s)
      else Scale(c.baseScale + s, c.baseScale - s * 0.5)
    else Scale(c.baseScale, c.baseScale)
  }

  /** The target is the rest scale exactly when no window is open or the
      stretch of the open one is zero. */
  lemma TargetAtRest(c: Config, events: seq<real>, t: real, loudness: real, decay: real -> real)
    ensures TargetScale(c, events, t, loudness, decay) == Scale(c.baseScale, c.baseScale) <==>
      (!InWindow(c, events, t) || StretchAt(c, events, t, loudness, decay) == 0.0)
    ensures EventIndex(events, t) < 0 ==> TargetScale(c, events, t, loudness, decay) == Scale(c.baseScale, c.baseScale)
  {
  }

  /** The 0-based even events (1st, 3rd, ...) stretch y and compress x; the odd
      ones do the reverse. */
  lemma ParityRule(c: Config, events: seq<real>, t: real, loudness: real, decay: real -> real)
    requires InWindow(c, events, t)
    ensures var k := EventIndex(events, t);
      var s := StretchAt(c, events, t, loudness, decay);
      var r := TargetScale(c, events, t, loudness, decay);
      (k % 2 == 0 ==> r == Scale(c.baseScale - s / 2.0, c.baseScale + s)) &&
      (k % 2 == 1 ==> r == Scale(c.baseScale + s, c.baseScale - s / 2.0))
  {
  }

  /** With loudness in [0,1] and a decay profile in [0,1] over the window, each
      target axis lies between the base scale minus half the stretch range and
      the maximum scale, and at least one axis is at or above the base. */
  lemma TargetRange(c: Config, events: seq<real>, t: real, loudness: real, decay: real -> real)
    requires ValidConfig(c) && 0.0 <= loudness <= 1.0
    requires forall e :: 0.0 <= e < c.effectDuration ==> 0.0 <= decay(e) <= 1.0
    requires Sorted(events)
    ensures var r := TargetScale(c, events, t, loudness, decay);
      var low := c.baseScale - (c.maxScale - c.baseScale) / 2.0;
      low <= r.x <= c.maxScale && low <= r.y <= c.maxScale &&
      (r.x >= c.baseScale || r.y >= c.baseScale)
  {
    if InWindow(c, events, t) {
      var k := EventIndex(events, t);
      EventIndexIsLatest(events, t);
      var e := t - events[k];
      assert 0.0 <= e < c.effectDuration;
      assert 0.0 <= decay(e) <= 1.0;
    }
  }

  // ---------------------------------------------------------------------------
  // Smoothing and clamp

  /** One single-pole low-pass step from cur toward target, with weight sf. */
  function Smooth(cur: real, target: real, sf: real): real
  {
    cur + (target - cur) * sf
  }

  /** For 0 < sf < 1 a step keeps to the side of the target it started on
      (never overshoots) and shrinks the distance by the factor 1 - sf. */
  lemma SmoothNeverOvershoots(cur: real, target: real, sf: real)
    requires 0.0 < sf < 1.0
    ensures var r := Smooth(cur, target, sf);
      Abs(target - r) == (1.0 - sf) * Abs(target - cur) &&
      (cur <= target ==> cur <= r <= target) &&
      (target <= cur ==> target <= r <= cur) &&
      (cur != target ==> Abs(target - r) < Abs(target - cur))
  {
    var d := target - cur;
    var q := 1.0 - sf;
    assert target - Smooth(cur, target, sf) == q * d;
    ShrinkBy(q, d);
    if d < 0.0 {
      assert q * Abs(d) == -(q * d);
    }
    if d != 0.0 {
      ShrinkPositive(q, Abs(d));
    }
  }

  /** Multiplying by a factor in (0,1) moves a value toward zero without
      crossing it. */
  lemma ShrinkBy(q: real, d: real)
    requires 0.0 < q < 1.0
    ensures d >= 0.0 ==> 0.0 <= q * d <= d
    ensures d <= 0.0 ==> d <= q * d <= 0.0
  {
    if d > 0.0 {
      ShrinkPositive(q, d);
    } else if d < 0.0 {
      var e := -d;
      ShrinkPositive(q, e);
      assert q * d == -(q * e);
    }
  }

  lemma ShrinkPositive(q: real, e: real)
    requires 0.0 < q < 1.0 && 0.0 < e
    ensures 0.0 < q * e < e
  {
    assert e - q * e == (1.0 - q) * e;
  }

  /** Python's max(floor, v). */
  function Clamp(floor: real, v: real): (r: real)
    ensures r >= floor && r >= v && (r == v || r == floor)
  {
    if floor >= v then floor else v
  }

  /** The per-frame transition of the animation state: smooth each axis toward
      the target, then clamp it at the floor. */
  function Step(c: Config, cur: Scale, target: Scale): (r: Scale)
    ensures r.x >= c.minScale && r.y >= c.minScale
    ensures r.x >= Smooth(cur.x, target.x, c.smoothing) && r.y >= Smooth(cur.y, target.y, c.smoothing)
  {
    Scale(Clamp(c.minScale, Smooth(cur.x, target.x, c.smoothing)),
          Clamp(c.minScale, Smooth(cur.y, target.y, c.smoothing)))
  }

  /** When both the state and the target are at or above the floor the clamp
      never acts, so each axis follows the smoothing law exactly. */
  lemma StepTowardTarget(c: Config, cur: Scale, target: Scale)
    requires ValidConfig(c)
    requires cur.x >= c.minScale && cur.y >= c.minScale
    requires target.x >= c.minScale && target.y >= c.minScale
    ensures var r := Step(c, cur, target);
      target.x - r.x == (1.0 - c.smoothing) * (target.x - cur.x) &&
      target.y - r.y == (1.0 - c.smoothing) * (target.y - cur.y)
  {
    SmoothNeverOvershoots(cur.x, target.x, c.smoothing);
    SmoothNeverOvershoots(cur.y, target.y, c.smoothing);
  }

  /** From at or above the floor toward a target at or above the floor, a
      transition shrinks the distance on each axis by the factor (1 - smoothing). */
  lemma StepShrinksDistance(c: Config, cur: Scale, target: Scale)
    requires ValidConfig(c)
    requires cur.x >= c.minScale && cur.y >= c.minScale
    requires target.x >= c.minScale && target.y >= c.minScale
    ensures var r := Step(c, cur, target);
      Abs(target.x - r.x) == (1.0 - c.smoothing) * Abs(target.x - cur.x) &&
      Abs(target.y - r.y) == (1.0 - c.smoothing) * Abs(target.y - cur.y)
  {
    StepTowardTarget(c, cur, target);
    SmoothNeverOvershoots(cur.x, target.x, c.smoothing);
    SmoothNeverOvershoots(cur.y, target.y, c.smoothing);
  }

  /** The rest scale is a fixed point of the transition. */
  lemma RestIsFixedPoint(c: Config)
    requires c.minScale <= c.baseScale
    ensures Step(c, Scale(c.baseScale, c.baseScale), Scale(c.baseScale, c.baseScale)) == Scale(c.baseScale, c.baseScale)
  {
  }

  /** The state after n frames that all ask for the same target. */
  function Settle(c: Config, s: Scale, target: Scale, n: nat): Scale {
    if n == 0 then s else Step(c, Settle(c, s, target, n - 1), target)
  }

  /** Lies between a and b (in either order). */
  predicate Between(a: real, v: real, b: real) {
    (a <= b && a <= v <= b) || (b <= a && b <= v <= a)
  }

  /** Under a constant target each axis stays between its start and the
      target after any number of frames: the state never overshoots. */
  lemma {:induction false} SettleStaysBetween(c: Config, s: Scale, target: Scale, n: nat)
    requires ValidConfig(c)
    requires s.x >= c.minScale && s.y >= c.minScale
    requires target.x >= c.minScale && target.y >= c.minScale
    ensures var r := Settle(c, s, target, n);
      Between(s.x, r.x, target.x) && Between(s.y, r.y, target.y)
  {
    if n > 0 {
      var m: nat := n - 1;
      SettleStaysBetween(c, s, target, m);
      var prev := Settle(c, s, target, m);
      assert Settle(c, s, target, n) == Step(c, prev, target);
      StepTowardTarget(c, prev, target);
      SmoothNeverOvershoots(prev.x, target.x, c.smoothing);
      SmoothNeverOvershoots(prev.y, target.y, c.smoothing);
    }
  }
}
