/** The scroll schedule of the pipe: a linear move from the right edge to
    SCROLL_END over SCROLL_DURATION milliseconds, a zero-length move back
    to the right edge, repeated for ever, and frozen while the game is over
    (the freeze is applied by module Game). */
module Scroll {
  import opened State

  /** Distance the pipe covers per millisecond. */
  function Speed(vp: Viewport): real {
    (vp.width - SCROLL_END) / SCROLL_DURATION
  }

  /** Distance the pipe covers in a frame of `dt` ms. */
  function FrameDistance(vp: Viewport, dt: real): real {
    Speed(vp) * dt
  }

  /** The pipe's x one frame of `dt` ms later. A linear move stops exactly at
      its target; once there, the next frame jumps back to the right edge. */
  function ScrollStep(vp: Viewport, x: real, dt: real): (x': real)
    requires dt >= 0.0
    ensures x <= SCROLL_END ==> x' == vp.width
    ensures x > SCROLL_END && vp.width >= SCROLL_END ==> SCROLL_END <= x' <= x
    ensures x > SCROLL_END && x' != SCROLL_END ==> x - x' == FrameDistance(vp, dt)
    ensures x > SCROLL_END && x' == SCROLL_END ==> x - FrameDistance(vp, dt) <= SCROLL_END
  {
    if x <= SCROLL_END then vp.width
    else if x - FrameDistance(vp, dt) <= SCROLL_END then SCROLL_END
    else x - FrameDistance(vp, dt)
  }

  /** The scroll keeps the pipe between the end of its run and the right edge. */
  lemma ScrollStepStaysInRange(vp: Viewport, x: real, dt: real)
    requires vp.Valid()
    requires dt >= 0.0
    requires SCROLL_END <= x <= vp.width
    ensures SCROLL_END <= ScrollStep(vp, x, dt) <= vp.width
  {
  }

  /** The pipe's x after `k` frames of `dt` ms each. */
  function Steps(vp: Viewport, x: real, dt: real, k: nat): real
    requires dt >= 0.0
  {
    if k == 0 then x else ScrollStep(vp, Steps(vp, x, dt, k - 1), dt)
  }

  /** The schedule in closed form: `k` frames after leaving the right edge
      the pipe has covered `k·Speed·dt`, unless that passes the end of the
      run. */
  function Sweep(vp: Viewport, dt: real, k: nat): real {
    var covered := k as real * FrameDistance(vp, dt);
    if vp.width - covered > SCROLL_END then vp.width - covered else SCROLL_END
  }

  /** Distance covered in `k` frames is that in `k - 1` frames plus one more. */
  lemma CoveredStep(D: real, k: nat)
    requires k > 0
    ensures k as real * D == (k - 1) as real * D + D
    ensures (k as real - 1.0) * D == (k - 1) as real * D
    ensures ((k - 1) as real - 1.0) * D == (k - 1) as real * D - D
  {
  }

  /** One frame advances the closed form by one frame, before the end. */
  lemma SweepStep(vp: Viewport, dt: real, k: nat)
    requires vp.Valid()
    requires dt >= 0.0
    requires k > 0
    requires (k - 1) as real * FrameDistance(vp, dt) < vp.width - SCROLL_END
    ensures ScrollStep(vp, Sweep(vp, dt, k - 1), dt) == Sweep(vp, dt, k)
  {
    CoveredStep(FrameDistance(vp, dt), k);
  }

  /** Until it reaches the end, a run from the right edge is exactly linear:
      after `k` frames the pipe is `k·Speed·dt` to the left of the edge, or
      at the end of its run if that would overshoot. */
  lemma {:induction false} SweepIsLinear(vp: Viewport, dt: real, k: nat)
    requires vp.Valid()
    requires dt >= 0.0
    requires (k as real - 1.0) * FrameDistance(vp, dt) < vp.width - SCROLL_END
    ensures Steps(vp, vp.width, dt, k) == Sweep(vp, dt, k)
  {
    if k > 0 {
      var D := FrameDistance(vp, dt);
      assert D >= 0.0;
      CoveredStep(D, k);
      SweepIsLinear(vp, dt, k - 1);
      SweepStep(vp, dt, k);
    }
  }

  /** With `dt` fixed, the run ends at the first frame `k` with
      `k·Speed·dt` covering the whole distance, and the frame after that puts
      the pipe back at the right edge. */
  lemma SweepEndsAndRestarts(vp: Viewport, dt: real, k: nat)
    requires vp.Valid()
    requires dt >= 0.0
    requires (k as real - 1.0) * FrameDistance(vp, dt) < vp.width - SCROLL_END <= k as real * FrameDistance(vp, dt)
    ensures Steps(vp, vp.width, dt, k) == SCROLL_END
    ensures Steps(vp, vp.width, dt, k + 1) == vp.width
  {
    SweepIsLinear(vp, dt, k);
  }

  /** Before the end of the run every frame moves the pipe left (or keeps it
      in place on a zero frame time). */
  lemma SweepDescends(vp: Viewport, dt: real, k: nat)
    requires vp.Valid()
    requires dt >= 0.0
    requires k > 0
    requires (k as real - 1.0) * FrameDistance(vp, dt) < vp.width - SCROLL_END
    ensures Steps(vp, vp.width, dt, k) <= Steps(vp, vp.width, dt, k - 1)
    ensures Steps(vp, vp.width, dt, k - 1) > SCROLL_END
  {
    var D := FrameDistance(vp, dt);
    assert D >= 0.0;
    CoveredStep(D, k);
    SweepIsLinear(vp, dt, k - 1);
  }

  /** The positions the pipe takes during `k` frames of `dt` ms. */
  function Positions(vp: Viewport, x: real, dt: real, k: nat): seq<real>
    requires dt >= 0.0
  {
    seq(k + 1, i requires 0 <= i <= k => Steps(vp, x, dt, i))
  }
}
