/** The frame callback: a semi-implicit Euler step of the bird's vertical
    motion, skipped on a missing or zero frame time and while the game is
    over. */
module Physics {
  import opened State

  /** The callback integrates only when `dt` is present and non-zero and
      the game is running. */
  predicate Integrates(s: GameState, dt: Option<real>) {
    dt.Some? && dt.value != 0.0 && !s.gameOver
  }

  /** One frame of `dt` milliseconds. The position moves with the velocity
      from before the step; gravity is added to the velocity after. */
  function Tick(s: GameState, dt: Option<real>): (t: GameState)
    ensures !Integrates(s, dt) ==> t == s
    ensures Integrates(s, dt) ==> t.birdY - s.birdY == s.birdVelocity * dt.value / 1000.0
    ensures Integrates(s, dt) ==> t.birdVelocity - s.birdVelocity == GRAVITY * dt.value / 1000.0
    ensures t.(birdY := s.birdY, birdVelocity := s.birdVelocity) == s
  {
    if !Integrates(s, dt) then
      s
    else
      var y := s.birdY + (s.birdVelocity * dt.value) / 1000.0;
      s.(birdY := y, birdVelocity := s.birdVelocity + (GRAVITY * dt.value) / 1000.0)
  }

  /** A run of frames with the given times and no taps in between. */
  function Ticks(s: GameState, dts: seq<real>): GameState
    decreases |dts|
  {
    if |dts| == 0 then s else Ticks(Tick(s, Some(dts[0])), dts[1..])
  }

  /** Total time of a run of frames. */
  function Sum(dts: seq<real>): real
    decreases |dts|
  {
    if |dts| == 0 then 0.0 else dts[0] + Sum(dts[1..])
  }

  function SumSquares(dts: seq<real>): real
    decreases |dts|
  {
    if |dts| == 0 then 0.0 else dts[0] * dts[0] + SumSquares(dts[1..])
  }

  /** Frames touch the bird and nothing else, and never the flag. */
  lemma {:induction false} TicksKeepRest(s: GameState, dts: seq<real>)
    ensures Ticks(s, dts).(birdY := s.birdY, birdVelocity := s.birdVelocity) == s
    decreases |dts|
  {
    if |dts| > 0 {
      TicksKeepRest(Tick(s, Some(dts[0])), dts[1..]);
    }
  }

  /** While the game is over, no run of frames moves the bird. */
  lemma {:induction false} TicksFrozen(s: GameState, dts: seq<real>)
    requires s.gameOver
    ensures Ticks(s, dts) == s
    decreases |dts|
  {
    if |dts| > 0 {
      TicksFrozen(Tick(s, Some(dts[0])), dts[1..]);
    }
  }

  /** Without taps the velocity grows by gravity times the elapsed time,
      however that time is split into frames. */
  lemma {:induction false} TicksVelocity(s: GameState, dts: seq<real>)
    requires !s.gameOver
    ensures Ticks(s, dts).birdVelocity == s.birdVelocity + GRAVITY * Sum(dts) / 1000.0
    decreases |dts|
  {
    if |dts| > 0 {
      var s1 := Tick(s, Some(dts[0]));
      TicksVelocity(s1, dts[1..]);
    }
  }

  /** Position after time `T` ms of free fall from `y` at velocity `v`,
      less a lag of GRAVITY·Q/2000000. With `Q` zero this is the exact
      parabola. */
  function Parabola(y: real, v: real, T: real, Q: real): real {
    y + v * T / 1000.0 + GRAVITY * (T * T - Q) / 2000000.0
  }

  /** Without taps the position after frames totalling T ms is the exact
      free-fall parabola minus a lag of GRAVITY·Σdt²/2000000, which the
      stepwise update accumulates because each step moves with the
      velocity from before it. */
  lemma {:induction false} TicksPosition(s: GameState, dts: seq<real>)
    requires !s.gameOver
    ensures Ticks(s, dts).birdY == Parabola(s.birdY, s.birdVelocity, Sum(dts), SumSquares(dts))
    decreases |dts|
  {
    if |dts| > 0 {
      TicksPosition(Tick(s, Some(dts[0])), dts[1..]);
      FirstFrameThenParabola(s, dts);
    }
  }

  /** The algebra of one induction step of TicksPosition. */
  lemma FirstFrameThenParabola(s: GameState, dts: seq<real>)
    requires !s.gameOver
    requires |dts| > 0
    ensures Parabola(Tick(s, Some(dts[0])).birdY, Tick(s, Some(dts[0])).birdVelocity,
                     Sum(dts[1..]), SumSquares(dts[1..]))
         == Parabola(s.birdY, s.birdVelocity, Sum(dts), SumSquares(dts))
  {
    var d, rest := dts[0], dts[1..];
    var s1 := Tick(s, Some(d));
    TickMoves(s, d);
    PositionStep(s.birdY, s.birdVelocity, d, s1.birdY, s1.birdVelocity,
                 Sum(rest), SumSquares(rest), Sum(dts), SumSquares(dts));
  }

  /** A running frame of `d` ms, zero included, moves the bird by the
      semi-implicit Euler rule. */
  lemma TickMoves(s: GameState, d: real)
    requires !s.gameOver
    ensures Tick(s, Some(d)).birdY == s.birdY + s.birdVelocity * d / 1000.0
    ensures Tick(s, Some(d)).birdVelocity == s.birdVelocity + GRAVITY * d / 1000.0
  {
  }

  /** One frame of `d` ms, taking (y, v) to (y1, v1), followed by the
      parabola of the remaining frames is the parabola of all of them. */
  lemma PositionStep(y: real, v: real, d: real, y1: real, v1: real, T1: real, Q1: real, T: real, Q: real)
    requires y1 == y + v * d / 1000.0 && v1 == v + GRAVITY * d / 1000.0
    requires T == d + T1 && Q == d * d + Q1
    ensures Parabola(y1, v1, T1, Q1) == Parabola(y, v, T, Q)
  {
    var dT := d * T1;
    assert T * T == d * d + 2.0 * dT + T1 * T1;
    assert v1 * T1 == v * T1 + GRAVITY * dT / 1000.0;
    assert v * T == v * d + v * T1;
  }

  /** The stepwise position never lies below the exact parabola
      (y grows downwards, so the bird trails the analytic fall). */
  lemma TicksTrailParabola(s: GameState, dts: seq<real>)
    requires !s.gameOver
    ensures Ticks(s, dts).birdY <= Parabola(s.birdY, s.birdVelocity, Sum(dts), 0.0)
  {
    TicksPosition(s, dts);
    SumSquaresNonNegative(dts);
  }

  lemma {:induction false} SumSquaresNonNegative(dts: seq<real>)
    ensures SumSquares(dts) >= 0.0
    decreases |dts|
  {
    if |dts| > 0 {
      SumSquaresNonNegative(dts[1..]);
    }
  }
}
