/**
 * The developer overlay of crates/rg_dev_overlay/src/lib.rs: F3 toggles
 * the overlay and the gizmos with it, and a buffer of the last 100
 * (elapsed time, frame time) points feeds the frame-time readout.  Drawing
 * the overlay is not part of this model; the key state and the clock are
 * parameters, and f64 arithmetic is modelled on reals.
 */
module DevOverlay {
  /** The most points the frame-time buffer keeps. */
  const MaxPoints: nat := 100

  /** `DevOverlaySettings`: the overlay is off by default. */
  class DevOverlaySettings {
    var enabled: bool

    constructor()
      ensures !enabled
    {
      enabled := false;
    }
  }

  /** The part of the gizmo configuration the overlay drives. */
  class GizmoConfig {
    var enabled: bool

    constructor()
      ensures !enabled
    {
      enabled := false;
    }
  }

  /**
   * `handle_input`: a press of F3 this frame flips the overlay setting;
   * either way the gizmos end up enabled exactly when the overlay is.
   */
  method HandleInput(f3JustPressed: bool, settings: DevOverlaySettings, gizmos: GizmoConfig)
    modifies settings, gizmos
    ensures settings.enabled == (old(settings.enabled) != f3JustPressed)
    ensures gizmos.enabled == settings.enabled
  {
    if f3JustPressed {
      settings.enabled := !settings.enabled;
    }
    gizmos.enabled := settings.enabled;
  }

  /** The last `MaxPoints` entries of a sequence (all of it when shorter). */
  function KeepLast<T>(s: seq<T>): (r: seq<T>)
    ensures |r| <= MaxPoints && |r| == if |s| > MaxPoints then MaxPoints else |s|
    ensures r == s[|s| - |r|..]
  {
    if |s| > MaxPoints then s[|s| - MaxPoints..] else s
  }

  /** The sum of the frame times (second components). */
  function SumFrameTimes(points: seq<(real, real)>): real {
    if points == [] then 0.0 else SumFrameTimes(points[..|points| - 1]) + points[|points| - 1].1
  }

  /** Frame times within [lo, hi] sum to between n lo and n hi. */
  lemma {:induction false} SumFrameTimesBounds(points: seq<(real, real)>, lo: real, hi: real)
    requires forall i | 0 <= i < |points| :: lo <= points[i].1 <= hi
    ensures |points| as real * lo <= SumFrameTimes(points) <= |points| as real * hi
  {
    if points != [] {
      SumFrameTimesBounds(points[..|points| - 1], lo, hi);
    }
  }

  /** `FrameTimePoints`: the buffer of (elapsed seconds, frame seconds) points, oldest first. */
  class FrameTimePoints {
    var points: seq<(real, real)>

    constructor()
      ensures points == []
    {
      points := [];
    }

    /**
     * `record_frame_time`: the new point is appended, then the oldest
     * points are removed from the front while more than 100 remain.  The
     * buffer is the last (at most) 100 points recorded, in order.
     */
    method RecordFrameTime(instant: real, frameTime: real)
      modifies this
      ensures points == KeepLast(old(points) + [(instant, frameTime)])
      ensures |points| <= MaxPoints && points[|points| - 1] == (instant, frameTime)
    {
      points := points + [(instant, frameTime)];
      ghost var all := points;
      while |points| > MaxPoints
        invariant 0 < |points| <= |all| && points == all[|all| - |points|..]
        invariant |points| >= MaxPoints || points == all
        decreases |points|
      {
        points := points[1..];
      }
    }

    /** `avg_frame_time`: 0 for an empty buffer, else the mean frame time. */
    function AvgFrameTime(): (avg: real)
      reads this
      ensures points == [] ==> avg == 0.0
      ensures points != [] ==> avg * |points| as real == SumFrameTimes(points)
    {
      if points == [] then 0.0 else SumFrameTimes(points) / |points| as real
    }
  }

  /** With every frame time within [lo, hi], so is the average of a non-empty buffer. */
  lemma AvgFrameTimeBounds(f: FrameTimePoints, lo: real, hi: real)
    requires f.points != [] && forall i | 0 <= i < |f.points| :: lo <= f.points[i].1 <= hi
    ensures lo <= f.AvgFrameTime() <= hi
  {
    var n := |f.points| as real;
    SumFrameTimesBounds(f.points, lo, hi);
    assert f.AvgFrameTime() * n == SumFrameTimes(f.points);
    DivideBounds(SumFrameTimes(f.points), n, lo, hi);
  }

  lemma DivideBounds(sum: real, n: real, lo: real, hi: real)
    requires n > 0.0 && n * lo <= sum <= n * hi
    ensures lo <= sum / n <= hi
  {
    assert (sum / n) * n == sum;
  }
}
