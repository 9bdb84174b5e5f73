/** The state the game component keeps in shared animated values, the
    layout constants it works with, and the state it starts from.

    Positions are in screen units with y growing downwards; velocities are
    in units per second; frame times are in milliseconds. */
module State {

  /** A value that may be absent, as a frame time or a reaction's
      previous value may be. */
  datatype Option<+T> = None | Some(value: T)

  /** Downward acceleration of the bird, units per second squared. */
  const GRAVITY: real := 1000.0
  /** Velocity a tap gives the bird; negative is upwards. */
  const JUMP_FORCE: real := -500.0

  /** Height of the ground band drawn at the bottom of the screen. */
  const BASE_HEIGHT: real := 150.0
  /** Slack below the top of the ground band before the bird counts as grounded. */
  const GROUND_MARGIN: real := 24.0
  const PIPE_WIDTH: real := 103.0
  const PIPE_HEIGHT: real := 640.0
  /** Size the bird sprite is drawn at. */
  const BIRD_WIDTH: real := 64.0
  const BIRD_HEIGHT: real := 48.0
  /** Offset of the bird sprite's centre from its top-left corner, as the
      collision code writes it. */
  const BIRD_CENTER_DX: real := 32.0
  const BIRD_CENTER_DY: real := 24.0

  /** The scroll runs the pipe from the right edge to SCROLL_END in
      SCROLL_DURATION milliseconds, then jumps back. */
  const SCROLL_END: real := -150.0
  const SCROLL_DURATION: real := 3000.0
  /** Crossing this x draws the gap offset for the next pass. */
  const RESPAWN_LINE: real := -100.0
  /** Gap offsets are drawn from [OFFSET_MIN, OFFSET_MIN + OFFSET_SPAN). */
  const OFFSET_MIN: real := -200.0
  const OFFSET_SPAN: real := 400.0

  /** Window dimensions, fixed for the life of the game. */
  datatype Viewport = Viewport(width: real, height: real) {

    predicate Valid() {
      width > 0.0 && height > 0.0
    }

    /** Fixed x of the bird sprite's left edge. */
    function BirdX(): real {
      width / 4.0
    }

    /** A pipe whose x has reached this line has passed the bird. */
    function PassLine(): real {
      BirdX() - PIPE_WIDTH
    }
  }

  /** Everything the simulation mutates. */
  datatype GameState = GameState(
    birdY: real,
    birdVelocity: real,
    pipeX: real,
    pipeOffset: real,
    score: nat,
    gameOver: bool)

  /** The state at mount: bird a third of the way down and at rest, pipe at
      the right edge with no gap offset, score zero, running. On any window
      it satisfies the invariant and the bird starts inside the band between
      the ceiling and the ground. */
  function Initial(vp: Viewport): (s: GameState)
    ensures !s.gameOver && s.score == 0
    ensures vp.Valid() ==> Inv(vp, s)
    ensures vp.Valid() ==> 0.0 < s.birdY
    ensures s.birdY <= vp.height - BASE_HEIGHT + GROUND_MARGIN
        <==> vp.height >= 3.0 * (BASE_HEIGHT - GROUND_MARGIN) / 2.0
  {
    GameState(vp.height / 3.0, 0.0, vp.width, 0.0, 0, false)
  }

  /** What stays true of every reachable state: the pipe is within its
      scroll range and the gap offset within its draw range. */
  predicate Inv(vp: Viewport, s: GameState) {
    && SCROLL_END <= s.pipeX <= vp.width
    && OFFSET_MIN <= s.pipeOffset < OFFSET_MIN + OFFSET_SPAN
  }
}
