/** The reaction to the pipe's x: edge detection on the previous and the
    current x that redraws the gap offset when the pipe crosses the respawn
    line and adds a point when it crosses the pass line.

    OnPipeMove models the handler as written. OnPipeMoveCorrected removes
    two gaps in its edge detection (a previous x of exactly 0 is taken for
    "no previous value", and an x landing exactly on the respawn line
    hides the crossing); the game loop in module Game uses the corrected
    handler. */
module Pipes {
  import opened State

  /** The gap offset drawn from `r`, a draw from [0, 1). */
  function DrawOffset(r: real): (o: real)
    requires 0.0 <= r < 1.0
    ensures OFFSET_MIN <= o < OFFSET_MIN + OFFSET_SPAN
  {
    r * OFFSET_SPAN + OFFSET_MIN
  }

  /** The draw is a bijection from [0, 1) onto the offset range, so every
      offset in the range is reached, by exactly one draw. */
  lemma DrawOffsetOnto(o: real)
    requires OFFSET_MIN <= o < OFFSET_MIN + OFFSET_SPAN
    ensures 0.0 <= (o - OFFSET_MIN) / OFFSET_SPAN < 1.0
    ensures DrawOffset((o - OFFSET_MIN) / OFFSET_SPAN) == o
    ensures forall r :: 0.0 <= r < 1.0 && DrawOffset(r) == o ==> r == (o - OFFSET_MIN) / OFFSET_SPAN
  {
  }

  // ---------------------------------------------------------------------
  // Crossings

  /** A crossing of `line` from the previous x to the current one: strictly
      before it, then on or past it. */
  predicate Crosses(prev: Option<real>, cur: real, line: real) {
    prev.Some? && prev.value > line >= cur
  }

  // ---------------------------------------------------------------------
  // The handler as written

  /** `previousValue` defaults to 0 when absent, and a JavaScript number is
      truthy unless it is 0. */
  predicate Truthy(prev: Option<real>) {
    prev.Some? && prev.value != 0.0
  }

  function PreviousOrZero(prev: Option<real>): real {
    if prev.Some? then prev.value else 0.0
  }

  /** The respawn test as written, strict on both sides: a crossing of the
      respawn line, except from a previous x of 0 or onto the line itself. */
  function RespawnFires(prev: Option<real>, cur: real): (b: bool)
    ensures b <==> Crosses(prev, cur, RESPAWN_LINE) && Truthy(prev) && cur != RESPAWN_LINE
  {
    Truthy(prev) && cur < RESPAWN_LINE && PreviousOrZero(prev) > RESPAWN_LINE
  }

  /** The score test as written: a crossing of the pass line, except from
      a previous x of 0. Its test that x changed is implied by the crossing. */
  function ScoreFires(vp: Viewport, prev: Option<real>, cur: real): (b: bool)
    ensures b <==> Crosses(prev, cur, vp.PassLine()) && Truthy(prev)
  {
    && cur != PreviousOrZero(prev)
    && Truthy(prev)
    && cur <= vp.PassLine()
    && PreviousOrZero(prev) > vp.PassLine()
  }

  /** The handler as written: redraws the offset from `r` on a respawn
      crossing, adds one point on a pass crossing, and touches nothing else. */
  function OnPipeMove(vp: Viewport, s: GameState, prev: Option<real>, cur: real, r: real): (t: GameState)
    requires 0.0 <= r < 1.0
    ensures t.(pipeOffset := s.pipeOffset, score := s.score) == s
    ensures t.score == s.score + 1 <==> ScoreFires(vp, prev, cur)
    ensures t.score == s.score <==> !ScoreFires(vp, prev, cur)
    ensures !RespawnFires(prev, cur) ==> t.pipeOffset == s.pipeOffset
    ensures RespawnFires(prev, cur) ==> OFFSET_MIN <= t.pipeOffset < OFFSET_MIN + OFFSET_SPAN
  {
    var respawned := if RespawnFires(prev, cur) then s.(pipeOffset := DrawOffset(r)) else s;
    if ScoreFires(vp, prev, cur) then respawned.(score := respawned.score + 1) else respawned
  }

  // ---------------------------------------------------------------------
  // The handler with its edge detection corrected

  function OnPipeMoveCorrected(vp: Viewport, s: GameState, prev: Option<real>, cur: real, r: real): (t: GameState)
    requires 0.0 <= r < 1.0
    ensures t.(pipeOffset := s.pipeOffset, score := s.score) == s
    ensures t.score == s.score + 1 <==> Crosses(prev, cur, vp.PassLine())
    ensures t.score == s.score <==> !Crosses(prev, cur, vp.PassLine())
    ensures !Crosses(prev, cur, RESPAWN_LINE) ==> t.pipeOffset == s.pipeOffset
    ensures Crosses(prev, cur, RESPAWN_LINE) ==> OFFSET_MIN <= t.pipeOffset < OFFSET_MIN + OFFSET_SPAN
  {
    var respawned := if Crosses(prev, cur, RESPAWN_LINE) then s.(pipeOffset := DrawOffset(r)) else s;
    if Crosses(prev, cur, vp.PassLine()) then respawned.(score := respawned.score + 1) else respawned
  }

  /** The two handlers agree except when the previous x is exactly 0 or
      the current x is exactly on the respawn line. */
  lemma HandlersAgreeAwayFromEdges(vp: Viewport, s: GameState, prev: Option<real>, cur: real, r: real)
    requires 0.0 <= r < 1.0
    requires prev.Some? ==> prev.value != 0.0
    requires cur != RESPAWN_LINE
    ensures OnPipeMove(vp, s, prev, cur, r) == OnPipeMoveCorrected(vp, s, prev, cur, r)
  {
  }

  // ---------------------------------------------------------------------
  // Properties of one reaction

  /** A pipe that did not move fires nothing: this covers the frozen pipe
      while the game is over. */
  lemma StillPipeFiresNothing(vp: Viewport, s: GameState, x: real, r: real)
    requires 0.0 <= r < 1.0
    ensures OnPipeMove(vp, s, Some(x), x, r) == s
    ensures OnPipeMoveCorrected(vp, s, Some(x), x, r) == s
  {
  }

  /** The first reaction, with no previous value, fires nothing. */
  lemma FirstReactionFiresNothing(vp: Viewport, s: GameState, cur: real, r: real)
    requires 0.0 <= r < 1.0
    ensures OnPipeMove(vp, s, None, cur, r) == s
    ensures OnPipeMoveCorrected(vp, s, None, cur, r) == s
  {
  }

  /** A move to the right edge, from wherever the pipe was, neither scores
      nor redraws: this covers the jump back at the end of the scroll, so
      a respawn never resets the score, and the move a restart makes. */
  lemma ResetJumpFiresNothing(vp: Viewport, s: GameState, prev: Option<real>, r: real)
    requires vp.Valid()
    requires 0.0 <= r < 1.0
    ensures OnPipeMove(vp, s, prev, vp.width, r) == s
    ensures OnPipeMoveCorrected(vp, s, prev, vp.width, r) == s
  {
  }

  /** A reaction never lowers the score. */
  lemma ReactionNeverLowersScore(vp: Viewport, s: GameState, prev: Option<real>, cur: real, r: real)
    requires 0.0 <= r < 1.0
    ensures s.score <= OnPipeMove(vp, s, prev, cur, r).score <= s.score + 1
    ensures s.score <= OnPipeMoveCorrected(vp, s, prev, cur, r).score <= s.score + 1
  {
  }

  // ---------------------------------------------------------------------
  // Crossings along a run of observed positions

  /** Positions that never move right. */
  predicate Descending(xs: seq<real>) {
    forall i :: 0 < i < |xs| ==> xs[i] <= xs[i - 1]
  }

  /** How many consecutive pairs of `xs` cross `line`. */
  function CrossingCount(xs: seq<real>, line: real): nat
    decreases |xs|
  {
    if |xs| < 2 then 0
    else (if Crosses(Some(xs[0]), xs[1], line) then 1 else 0) + CrossingCount(xs[1..], line)
  }

  /** A run of positions that never moves right crosses a line exactly once
      if it starts strictly before the line and ends on or past it, and
      never otherwise. */
  lemma {:induction false} DescendingCrossesOnce(xs: seq<real>, line: real)
    requires |xs| > 0
    requires Descending(xs)
    ensures CrossingCount(xs, line) == if xs[0] > line >= xs[|xs| - 1] then 1 else 0
    decreases |xs|
  {
    if |xs| >= 2 {
      var rest := xs[1..];
      assert Descending(rest) by {
        forall i | 0 < i < |rest|
          ensures rest[i] <= rest[i - 1]
        {
          assert rest[i] == xs[i + 1];
        }
      }
      DescendingCrossesOnce(rest, line);
      assert rest[|rest| - 1] == xs[|xs| - 1];
      assert xs[|xs| - 1] <= rest[0] by {
        DescendingEndsLowest(rest);
      }
    }
  }

  lemma {:induction false} DescendingEndsLowest(xs: seq<real>)
    requires |xs| > 0
    requires Descending(xs)
    ensures xs[|xs| - 1] <= xs[0]
    decreases |xs|
  {
    if |xs| >= 2 {
      var init := xs[..|xs| - 1];
      assert Descending(init) by {
        forall i | 0 < i < |init|
          ensures init[i] <= init[i - 1]
        {
          assert init[i] == xs[i];
        }
      }
      DescendingEndsLowest(init);
    }
  }

  /** Extending a run by one position adds that last step's crossing. */
  lemma {:induction false} CrossingCountSnoc(xs: seq<real>, y: real, line: real)
    requires |xs| > 0
    ensures CrossingCount(xs + [y], line)
         == CrossingCount(xs, line) + if Crosses(Some(xs[|xs| - 1]), y, line) then 1 else 0
    decreases |xs|
  {
    if |xs| > 1 {
      assert (xs + [y])[1..] == xs[1..] + [y];
      CrossingCountSnoc(xs[1..], y, line);
    }
  }

  /** The score the handler as written adds along a run of positions. */
  function ScoreCountAsWritten(vp: Viewport, xs: seq<real>): nat
    decreases |xs|
  {
    if |xs| < 2 then 0
    else (if ScoreFires(vp, Some(xs[0]), xs[1]) then 1 else 0) + ScoreCountAsWritten(vp, xs[1..])
  }

  /** How many times the handler as written redraws the offset along a run. */
  function RespawnCountAsWritten(xs: seq<real>): nat
    decreases |xs|
  {
    if |xs| < 2 then 0
    else (if RespawnFires(Some(xs[0]), xs[1]) then 1 else 0) + RespawnCountAsWritten(xs[1..])
  }

  /** On a 400-unit-wide window the pass line is at -3. A pipe observed at
      1, then exactly 0, then -5 has passed the bird, but the handler as
      written reads the 0 as "no previous value" and adds nothing; the
      corrected handler adds one point. */
  lemma ZeroPreviousMissesScore()
    ensures Viewport(400.0, 800.0).PassLine() == -3.0
    ensures ScoreCountAsWritten(Viewport(400.0, 800.0), [1.0, 0.0, -5.0]) == 0
    ensures CrossingCount([1.0, 0.0, -5.0], Viewport(400.0, 800.0).PassLine()) == 1
  {
    var vp := Viewport(400.0, 800.0);
    assert !ScoreFires(vp, Some(1.0), 0.0);
    assert !ScoreFires(vp, Some(0.0), -5.0);
    assert [1.0, 0.0, -5.0][1..] == [0.0, -5.0];
    assert [0.0, -5.0][1..] == [-5.0];
    DescendingCrossesOnce([1.0, 0.0, -5.0], vp.PassLine());
  }

  /** A pipe observed at -90, then exactly -100, then -110 crosses the
      respawn line, but neither step satisfies both strict comparisons, so
      the handler as written keeps the old gap for the next pass; the
      corrected handler redraws it once. */
  lemma ExactRespawnLineMissesRedraw()
    ensures RespawnCountAsWritten([-90.0, -100.0, -110.0]) == 0
    ensures CrossingCount([-90.0, -100.0, -110.0], RESPAWN_LINE) == 1
  {
    assert [-90.0, -100.0, -110.0][1..] == [-100.0, -110.0];
    assert [-100.0, -110.0][1..] == [-110.0];
    DescendingCrossesOnce([-90.0, -100.0, -110.0], RESPAWN_LINE);
  }
}
