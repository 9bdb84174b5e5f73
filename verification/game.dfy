/** The game as a whole: the tap handler, the restart, and one display
    frame, which runs the frame callback, the scroll schedule, the pipe
    reaction and the collision reaction in that order, all frozen while
    the game is over. */
module Game {
  import opened State
  import opened Physics
  import opened Collision
  import opened Pipes
  import opened Scroll

  /** Back to the start: bird a third of the way down and at rest, running,
      pipe at the right edge, score zero. The gap offset is left as it was. */
  function Restart(vp: Viewport, s: GameState): (t: GameState)
    ensures t.birdY == vp.height / 3.0 && t.birdVelocity == 0.0
    ensures !t.gameOver && t.pipeX == vp.width && t.score == 0
    ensures t.pipeOffset == s.pipeOffset
    ensures t == Initial(vp).(pipeOffset := s.pipeOffset)
  {
    GameState(vp.height / 3.0, 0.0, vp.width, s.pipeOffset, 0, false)
  }

  /** A tap restarts a game that is over and otherwise sets the bird's
      velocity to JUMP_FORCE. */
  function Tap(vp: Viewport, s: GameState): (t: GameState)
    ensures !s.gameOver ==> t.birdVelocity == JUMP_FORCE && t.(birdVelocity := s.birdVelocity) == s
    ensures s.gameOver ==> t == Restart(vp, s)
  {
    if s.gameOver then Restart(vp, s) else s.(birdVelocity := JUMP_FORCE)
  }

  /** The result of a tap while running does not depend on the velocity
      before it: the jump overwrites, it does not add. */
  lemma TapOverwritesVelocity(vp: Viewport, s: GameState, v: real)
    requires !s.gameOver
    ensures Tap(vp, s) == Tap(vp, s.(birdVelocity := v))
  {
  }

  /** Tapping twice in a row while running is tapping once. */
  lemma TapTwiceWhileRunning(vp: Viewport, s: GameState)
    requires !s.gameOver
    ensures Tap(vp, Tap(vp, s)) == Tap(vp, s)
  {
  }

  /** One display frame of `dt` ms, with `r` the random draw the pipe
      reaction uses if the pipe crosses the respawn line. The pipe reaction
      is the corrected one; FrameAsWritten uses the handler as written. */
  function Frame(vp: Viewport, s: GameState, dt: real, r: real): (t: GameState)
    requires dt >= 0.0
    requires 0.0 <= r < 1.0
    ensures s.gameOver ==> t == s
    ensures !s.gameOver ==> t.birdVelocity == s.birdVelocity + GRAVITY * dt / 1000.0
    ensures !s.gameOver ==> t.birdY == s.birdY + s.birdVelocity * dt / 1000.0
    ensures !s.gameOver ==> t.pipeX == ScrollStep(vp, s.pipeX, dt)
    ensures !s.gameOver ==>
      (t.score == s.score + 1 <==> Crosses(Some(s.pipeX), ScrollStep(vp, s.pipeX, dt), vp.PassLine()))
    ensures !s.gameOver ==>
      (t.score == s.score <==> !Crosses(Some(s.pipeX), ScrollStep(vp, s.pipeX, dt), vp.PassLine()))
    ensures !s.gameOver && !Crosses(Some(s.pipeX), ScrollStep(vp, s.pipeX, dt), RESPAWN_LINE) ==>
      t.pipeOffset == s.pipeOffset
    ensures !s.gameOver && Crosses(Some(s.pipeX), ScrollStep(vp, s.pipeX, dt), RESPAWN_LINE) ==>
      t.pipeOffset == DrawOffset(r)
    ensures !s.gameOver ==> (t.gameOver <==> HitsBounds(vp, t) || HitsPipe(vp, t))
  {
    if s.gameOver then
      s
    else
      var moved := Tick(s, Some(dt));
      var x := ScrollStep(vp, s.pipeX, dt);
      var reacted := OnPipeMoveCorrected(vp, moved.(pipeX := x), Some(s.pipeX), x, r);
      CheckCollision(vp, reacted)
  }

  /** The same frame with the pipe reaction exactly as written. */
  function FrameAsWritten(vp: Viewport, s: GameState, dt: real, r: real): (t: GameState)
    requires dt >= 0.0
    requires 0.0 <= r < 1.0
    ensures s.gameOver ==> t == s
    ensures !s.gameOver ==> t.birdVelocity == s.birdVelocity + GRAVITY * dt / 1000.0
    ensures !s.gameOver ==> t.birdY == s.birdY + s.birdVelocity * dt / 1000.0
    ensures !s.gameOver ==> t.pipeX == ScrollStep(vp, s.pipeX, dt)
    ensures !s.gameOver ==>
      (t.score == s.score + 1 <==> ScoreFires(vp, Some(s.pipeX), ScrollStep(vp, s.pipeX, dt)))
    ensures !s.gameOver ==>
      (t.score == s.score <==> !ScoreFires(vp, Some(s.pipeX), ScrollStep(vp, s.pipeX, dt)))
    ensures !s.gameOver && !RespawnFires(Some(s.pipeX), ScrollStep(vp, s.pipeX, dt)) ==>
      t.pipeOffset == s.pipeOffset
    ensures !s.gameOver && RespawnFires(Some(s.pipeX), ScrollStep(vp, s.pipeX, dt)) ==>
      t.pipeOffset == DrawOffset(r)
    ensures !s.gameOver ==> (t.gameOver <==> HitsBounds(vp, t) || HitsPipe(vp, t))
  {
    if s.gameOver then
      s
    else
      var moved := Tick(s, Some(dt));
      var x := ScrollStep(vp, s.pipeX, dt);
      var reacted := OnPipeMove(vp, moved.(pipeX := x), Some(s.pipeX), x, r);
      CheckCollision(vp, reacted)
  }

  /** The two frames agree unless the pipe starts the frame at exactly
      x = 0 or ends it exactly on the respawn line. */
  lemma FramesAgree(vp: Viewport, s: GameState, dt: real, r: real)
    requires dt >= 0.0
    requires 0.0 <= r < 1.0
    requires s.pipeX != 0.0
    requires ScrollStep(vp, s.pipeX, dt) != RESPAWN_LINE
    ensures Frame(vp, s, dt, r) == FrameAsWritten(vp, s, dt, r)
  {
    if !s.gameOver {
      var x := ScrollStep(vp, s.pipeX, dt);
      HandlersAgreeAwayFromEdges(vp, Tick(s, Some(dt)).(pipeX := x), Some(s.pipeX), x, r);
    }
  }

  /** On a 400×800 window (pass line at -3), a running frame of 300/11 ms
      moves the pipe from exactly 0 to -5, past the bird: the frame as
      written adds no point, the corrected frame adds one. */
  lemma FrameFromZeroMissesPoint(s: GameState, r: real)
    requires 0.0 <= r < 1.0
    requires !s.gameOver && s.pipeX == 0.0
    ensures ScrollStep(Viewport(400.0, 800.0), 0.0, 300.0 / 11.0) == -5.0
    ensures FrameAsWritten(Viewport(400.0, 800.0), s, 300.0 / 11.0, r).score == s.score
    ensures Frame(Viewport(400.0, 800.0), s, 300.0 / 11.0, r).score == s.score + 1
  {
  }

  /** On a 400×800 window, running frames of 600/11 ms move the pipe from
      -90 to exactly -100 and then to -110. The frames as written never
      redraw the gap offset along the way; the corrected frame redraws it
      on the first. */
  lemma ExactRespawnFrameKeepsGap(s: GameState, r1: real, r2: real)
    requires 0.0 <= r1 < 1.0 && 0.0 <= r2 < 1.0
    requires !s.gameOver && s.pipeX == -90.0
    ensures var vp := Viewport(400.0, 800.0);
            var s1 := FrameAsWritten(vp, s, 600.0 / 11.0, r1);
            var s2 := FrameAsWritten(vp, s1, 600.0 / 11.0, r2);
            && s1.pipeX == -100.0
            && (!s1.gameOver ==> s2.pipeX == -110.0)
            && s2.pipeOffset == s.pipeOffset
            && Frame(vp, s, 600.0 / 11.0, r1).pipeOffset == DrawOffset(r1)
  {
  }

  datatype Event = TapEvent | FrameEvent(dt: real, draw: real) {
    predicate WellFormed() {
      FrameEvent? ==> dt >= 0.0 && 0.0 <= draw < 1.0
    }
  }

  predicate AllWellFormed(evs: seq<Event>) {
    forall i :: 0 <= i < |evs| ==> evs[i].WellFormed()
  }

  /** Which pipe reaction a frame runs: the handler exactly as written, or
      the one with its edge detection corrected. */
  datatype Reaction = AsWritten | Corrected

  /** One event, with frames run by the chosen pipe reaction. */
  function Step(h: Reaction, vp: Viewport, s: GameState, e: Event): GameState
    requires e.WellFormed()
  {
    match e
    case TapEvent => Tap(vp, s)
    case FrameEvent(dt, r) =>
      if h == AsWritten then FrameAsWritten(vp, s, dt, r) else Frame(vp, s, dt, r)
  }

  function Run(h: Reaction, vp: Viewport, s: GameState, evs: seq<Event>): GameState
    requires AllWellFormed(evs)
    decreases |evs|
  {
    if |evs| == 0 then s else Run(h, vp, Step(h, vp, s, evs[0]), evs[1..])
  }

  /** Every event keeps the pipe in its scroll range and the offset in its
      draw range, with either pipe reaction. */
  lemma StepPreservesInv(h: Reaction, vp: Viewport, s: GameState, e: Event)
    requires vp.Valid()
    requires e.WellFormed()
    requires Inv(vp, s)
    ensures Inv(vp, Step(h, vp, s, e))
  {
    if e.FrameEvent? && !s.gameOver {
      ScrollStepStaysInRange(vp, s.pipeX, e.dt);
    }
  }

  lemma {:induction false} RunPreservesInv(h: Reaction, vp: Viewport, s: GameState, evs: seq<Event>)
    requires vp.Valid()
    requires AllWellFormed(evs)
    requires Inv(vp, s)
    ensures Inv(vp, Run(h, vp, s, evs))
    decreases |evs|
  {
    if |evs| > 0 {
      StepPreservesInv(h, vp, s, evs[0]);
      RunPreservesInv(h, vp, Step(h, vp, s, evs[0]), evs[1..]);
    }
  }

  /** The score goes down only through a tap on a game that is over, and
      then to zero; the flag is cleared only by that same restart. */
  lemma OnlyRestartResets(h: Reaction, vp: Viewport, s: GameState, e: Event)
    requires e.WellFormed()
    ensures Step(h, vp, s, e).score < s.score ==> e.TapEvent? && s.gameOver && Step(h, vp, s, e).score == 0
    ensures s.gameOver && !Step(h, vp, s, e).gameOver ==> e.TapEvent?
  {
  }

  predicate AllFrames(evs: seq<Event>) {
    forall i :: 0 <= i < |evs| ==> evs[i].FrameEvent?
  }

  /** Without taps, a game that is over stays exactly as it is. */
  lemma {:induction false} FramesFrozenWhileOver(h: Reaction, vp: Viewport, s: GameState, evs: seq<Event>)
    requires AllWellFormed(evs) && AllFrames(evs)
    requires s.gameOver
    ensures Run(h, vp, s, evs) == s
    decreases |evs|
  {
    if |evs| > 0 {
      FramesFrozenWhileOver(h, vp, Step(h, vp, s, evs[0]), evs[1..]);
    }
  }

  /** Without taps the score never goes down and rises by at most one per
      frame. */
  lemma {:induction false} FramesScoreMonotone(h: Reaction, vp: Viewport, s: GameState, evs: seq<Event>)
    requires AllWellFormed(evs) && AllFrames(evs)
    ensures s.score <= Run(h, vp, s, evs).score <= s.score + |evs|
    decreases |evs|
  {
    if |evs| > 0 {
      FramesScoreMonotone(h, vp, Step(h, vp, s, evs[0]), evs[1..]);
    }
  }

  // ---------------------------------------------------------------------
  // Frames at a constant rate

  /** Frames of `dt` ms each, the i-th using draw `rs[i]`. */
  function RunFrames(vp: Viewport, s: GameState, dt: real, rs: seq<real>): GameState
    requires dt >= 0.0
    requires forall i :: 0 <= i < |rs| ==> 0.0 <= rs[i] < 1.0
    decreases |rs|
  {
    if |rs| == 0 then s
    else Frame(vp, RunFrames(vp, s, dt, rs[..|rs| - 1]), dt, rs[|rs| - 1])
  }

  /** As long as the game is running, frames at a constant rate move the
      pipe along the scroll schedule, and the score they add is the number
      of times the pipe crossed the pass line. */
  lemma {:induction false} RunningFramesFollowSchedule(vp: Viewport, s: GameState, dt: real, rs: seq<real>)
    requires dt >= 0.0
    requires forall i :: 0 <= i < |rs| ==> 0.0 <= rs[i] < 1.0
    requires !RunFrames(vp, s, dt, rs).gameOver
    ensures RunFrames(vp, s, dt, rs).pipeX == Steps(vp, s.pipeX, dt, |rs|)
    ensures RunFrames(vp, s, dt, rs).score
         == s.score + CrossingCount(Positions(vp, s.pipeX, dt, |rs|), vp.PassLine())
    decreases |rs|
  {
    var k := |rs|;
    if k > 0 {
      var init := rs[..k - 1];
      var prev := RunFrames(vp, s, dt, init);
      assert !prev.gameOver;
      RunningFramesFollowSchedule(vp, s, dt, init);
      var xs := Positions(vp, s.pipeX, dt, k - 1);
      var ys := Positions(vp, s.pipeX, dt, k);
      assert ys == xs + [Steps(vp, s.pipeX, dt, k)];
      CrossingCountSnoc(xs, Steps(vp, s.pipeX, dt, k), vp.PassLine());
    }
  }

  /** One full cycle of the scroll at a constant frame rate, from the right
      edge to the end of the run, crosses the pass line once and the
      respawn line once. */
  lemma {:induction false} CycleCrossesOnce(vp: Viewport, dt: real, k: nat)
    requires vp.Valid()
    requires dt >= 0.0
    requires (k as real - 1.0) * FrameDistance(vp, dt) < vp.width - SCROLL_END <= k as real * FrameDistance(vp, dt)
    ensures CrossingCount(Positions(vp, vp.width, dt, k), vp.PassLine()) == 1
    ensures CrossingCount(Positions(vp, vp.width, dt, k), RESPAWN_LINE) == 1
  {
    var xs := Positions(vp, vp.width, dt, k);
    var D := FrameDistance(vp, dt);
    assert D >= 0.0;
    assert Descending(xs) by {
      forall i | 0 < i < |xs|
        ensures xs[i] <= xs[i - 1]
      {
        assert (k as real - 1.0) * D - (i as real - 1.0) * D == (k - i) as real * D;
        assert (k - i) as real * D >= 0.0;
        SweepDescends(vp, dt, i);
      }
    }
    SweepEndsAndRestarts(vp, dt, k);
    DescendingCrossesOnce(xs, vp.PassLine());
    DescendingCrossesOnce(xs, RESPAWN_LINE);
  }

  /** A game that starts a scroll cycle at the right edge and is still
      running after the cycle and the jump back has scored exactly one
      point in it. */
  lemma OnePointPerCycle(vp: Viewport, s: GameState, dt: real, k: nat, rs: seq<real>)
    requires vp.Valid()
    requires dt >= 0.0
    requires forall i :: 0 <= i < |rs| ==> 0.0 <= rs[i] < 1.0
    requires |rs| == k + 1 && s.pipeX == vp.width
    requires (k as real - 1.0) * FrameDistance(vp, dt) < vp.width - SCROLL_END <= k as real * FrameDistance(vp, dt)
    requires !RunFrames(vp, s, dt, rs).gameOver
    ensures RunFrames(vp, s, dt, rs).score == s.score + 1
    ensures RunFrames(vp, s, dt, rs).pipeX == vp.width
  {
    RunningFramesFollowSchedule(vp, s, dt, rs);
    CycleCrossesOnce(vp, dt, k);
    SweepEndsAndRestarts(vp, dt, k);
    var xs := Positions(vp, vp.width, dt, k);
    assert Positions(vp, vp.width, dt, k + 1) == xs + [vp.width];
    CrossingCountSnoc(xs, vp.width, vp.PassLine());
  }

  /** The worked example on a 400×800 window: a 16 ms frame from the start
      leaves the bird where it is and gives it a velocity of 16; a tap and
      another 16 ms frame then give velocity -484 and lift the bird by 8. */
  lemma WorkedExample(r1: real, r2: real)
    requires 0.0 <= r1 < 1.0 && 0.0 <= r2 < 1.0
    ensures var vp := Viewport(400.0, 800.0);
            var s1 := Frame(vp, Initial(vp), 16.0, r1);
            var s3 := Frame(vp, Tap(vp, s1), 16.0, r2);
            && s1.birdVelocity == 16.0 && s1.birdY == 800.0 / 3.0
            && !s1.gameOver
            && s3.birdVelocity == -484.0 && s3.birdY == 800.0 / 3.0 - 8.0
  {
    var vp := Viewport(400.0, 800.0);
    var s1 := Frame(vp, Initial(vp), 16.0, r1);
    assert !HitsPipe(vp, s1) by {
      HitsPipeIffOutsideGap(vp, s1);
    }
  }
}
