# Flappy Bird simulation core, modelled in Dafny

The game is a single React Native component. Without its drawing code it is
a small state machine over six values: the bird's y and vertical velocity,
the pipe pair's x and gap offset, the score, and a game-over flag. Five
pieces of logic act on them:

- the **frame callback**, a semi-implicit Euler step of the bird under
  gravity, skipped on a missing or zero frame time and while the game is
  over (module `Physics`);
- the **tap handler**, which sets the bird's velocity to the jump force while
  running and restarts the game when it is over (module `Game`);
- the **collision reaction**, which sets game-over when the bird leaves the
  band between ceiling and ground or when its centre lies in either pipe
  rectangle, with closed bounds on all four edges (module `Collision`);
- the **pipe reaction**, edge detection on the previous and current pipe x
  that redraws the gap offset on crossing x = -100 and adds a point on
  crossing the line `width/4 - 103` (module `Pipes`);
- the **scroll schedule**, a linear move of the pipe from the right edge to
  -150 over 3000 ms followed by a jump back, frozen once the game is over
  (module `Scroll`).

Module `State` holds the constants, the `GameState` record and its initial
value; module `Game` composes the pieces into one display frame (`Frame`), a
tap (`Tap`), and runs of events, and proves the state-machine properties:
the invariant on pipe position and gap offset, the freeze while game-over,
and that only a restart lowers the score or clears the flag. Runs of events
take a `Reaction` choosing the pipe reaction as written or corrected, and
these properties are proved for both. That a full scroll cycle at a steady
frame rate scores exactly one point is proved for the corrected reaction.

Positions and velocities are `real`; the random draw is a parameter `r` with
`0 <= r < 1`; the window size is a `Viewport` parameter fixed for the game.
Frame times are in milliseconds, as in the source.

In three places the model follows App.js where a reader might expect
otherwise:

- A restart does not redraw or reset the gap offset: the offset from before
  the restart is kept (App.js:186-195).
- The pipe reaction only redraws the offset; the pipe's return to the right
  edge is done by the scroll schedule, not by the respawn detection.
- Point-in-rectangle is closed on every edge, so a centre exactly on an edge
  collides.

The pipe reaction itself is the one place where the model departs from the
code on purpose: `Game.Frame` uses a corrected crossing test, and
`Game.FrameAsWritten` keeps the test exactly as written (see "## Findings").

## Model

| member | source | states |
|---|---|---|
| Physics.Tick | App.js:177-184 | with no frame time, a zero frame time or the game over, the state is unchanged; otherwise y moves by the velocity from before the step times dt/1000, and only then does the velocity gain GRAVITY·dt/1000; nothing but the bird changes |
| Physics.TicksKeepRest | App.js:177-184 | any run of frames changes only the bird's y and velocity, never the pipe, score or flag |
| Physics.TicksFrozen | App.js:178-180 | while the game is over, any run of frames leaves the state unchanged |
| Physics.TicksVelocity | App.js:182-183 | with no taps, the final velocity is v0 + GRAVITY·(total time)/1000, however the time is split into frames |
| Physics.TicksPosition | App.js:182-183 | with no taps, the final y is y0 + v0·T/1000 + GRAVITY·(T² − Σdt²)/2000000 for frames totalling T: the free-fall parabola minus the lag the position-first update accumulates |
| Physics.TicksTrailParabola | App.js:182-183 | the stepwise y never lies below the exact free-fall parabola through the same start |
| Collision.IsPointCollidingWithRect | App.js:132-141 | a point collides with a well-formed rectangle exactly when it is its own nearest point of the rectangle (distance zero) |
| Collision.EdgesCollide | App.js:132-141 | every corner and every point on each of the four edges collides |
| Collision.OutsideAnyEdgeMisses | App.js:132-141 | a point strictly beyond any one edge does not collide |
| Collision.BirdCenter | App.js:58-59 | the collision point is the centre of the 64×48 bird sprite: the offsets 32 and 24 are half its drawn size |
| Collision.Obstacles | App.js:65-89 | two 103×640 rectangles at the pipe's x, bottom first; the top one ends at offset+320, and the bottom one starts height−640 below that, so the gap's height does not depend on the offset |
| Collision.HitsBounds | App.js:148-150 | the bird is out of bounds exactly when its y lies outside the closed band [0, height−150+24], both ends of which are safe |
| Collision.HitsPipeIffOutsideGap | App.js:58-89 | the centre (width/4+32, y+24) is in a pipe rectangle exactly when it is in the pipe's 103-wide column, within the pair's vertical extent, and not strictly inside the gap between offset+320 and height−320+offset |
| Collision.CheckCollision | App.js:144-165 | the flag becomes true exactly when it was already true, y > height−150+24, y < 0, or the centre hits a pipe; it is never cleared and nothing else changes |
| Collision.CheckCollisionIdempotent | App.js:144-165 | running the collision test again changes nothing |
| Collision.ThroughGapIsSafe | App.js:144-165 | a bird inside the ceiling/ground band whose centre is strictly inside the gap leaves the state unchanged |
| Pipes.DrawOffset | App.js:118 | a draw from [0, 1) gives an offset in [-200, 200) |
| Pipes.DrawOffsetOnto | App.js:118 | every offset in [-200, 200) comes from exactly one draw in [0, 1) |
| Pipes.RespawnFires | App.js:117 | the respawn test as written fires exactly on a crossing of -100 (previous > -100 ≥ current) whose previous x is not 0 and whose current x is not exactly -100 |
| Pipes.ScoreFires | App.js:121-126 | the score test as written fires exactly on a crossing of the pass line whose previous x is not 0; its test that x changed adds nothing |
| Pipes.OnPipeMove | App.js:111-130 | the handler as written: one point is added exactly when x changed, the previous x is non-zero, previous > width/4−103 ≥ current; the offset is redrawn into [-200, 200) only when the previous x is non-zero and previous > -100 > current, else kept; nothing else changes |
| Pipes.OnPipeMoveCorrected | App.js:111-130 | one point exactly when a previous x exists and previous > width/4−103 ≥ current; a redraw into [-200, 200) exactly when previous > -100 ≥ current; nothing else changes |
| Pipes.HandlersAgreeAwayFromEdges | App.js:113-128 | the handler as written and the corrected one agree unless the previous x is exactly 0 or the current x is exactly -100 |
| Pipes.StillPipeFiresNothing | App.js:111-130 | a pipe that did not move (as while the game is over) neither scores nor redraws |
| Pipes.FirstReactionFiresNothing | App.js:113-128 | with no previous value the reaction changes nothing |
| Pipes.ResetJumpFiresNothing | App.js:113-128 | a move to the right edge from any previous x, or with none, neither scores nor redraws: the jump back from -150 never touches the score, and neither does the pipe's move when a restart puts it back at the right edge |
| Pipes.ReactionNeverLowersScore | App.js:121-128 | a reaction adds zero or one point, never removes any |
| Pipes.DescendingCrossesOnce | App.js:121-128 | a run of positions that never moves right crosses a line exactly once if it starts strictly before it and ends on or past it, and never otherwise |
| Pipes.ZeroPreviousMissesScore | App.js:113-128 | on a 400-wide window the run 1, 0, -5 passes the pass line at -3 yet the handler as written adds no point |
| Pipes.ExactRespawnLineMissesRedraw | App.js:117-119 | the run -90, -100, -110 crosses -100 yet the handler as written never redraws the offset |
| Scroll.ScrollStep | App.js:95-108 | at the end of the run the pipe jumps to the right edge; before it, a frame moves it left by Speed·dt, stopping exactly at -150 if that would overshoot |
| Scroll.ScrollStepStaysInRange | App.js:95-108 | the pipe's x stays within [-150, width] |
| Scroll.SweepIsLinear | App.js:96-101 | from the right edge, after k frames of dt the pipe is at width − k·Speed·dt, or at -150 once that would overshoot |
| Scroll.SweepEndsAndRestarts | App.js:96-105 | the run ends at -150 at the first frame whose cumulated distance covers width+150, and the next frame puts the pipe back at the right edge |
| Scroll.SweepDescends | App.js:96-101 | before the end of the run no frame moves the pipe right |
| State.Initial | App.js:41-64 | the start is running with score 0, satisfies the invariant on every window, has the bird below the ceiling, and has it above the ground test's threshold exactly when the window is at least 189 high |
| Game.Restart | App.js:186-195 | after a restart y = height/3, velocity 0, not over, pipe at the right edge, score 0, gap offset as before: the initial state but for the offset |
| Game.Tap | App.js:197-203 | a tap while running sets the velocity to -500 and changes nothing else; a tap while over is a restart |
| Game.TapOverwritesVelocity | App.js:200-202 | the state after a tap while running does not depend on the velocity before it |
| Game.TapTwiceWhileRunning | App.js:200-202 | two taps in a row while running equal one |
| Game.Frame | App.js:95-184 | a frame while over changes nothing; while running it integrates the bird, moves the pipe along the scroll, adds one point exactly when that move crosses the pass line and none otherwise, redraws the offset from the draw exactly when it crosses -100 and keeps it otherwise, and ends the game exactly when the resulting state hits the bounds or a pipe |
| Game.FrameAsWritten | App.js:95-184 | the same frame with the pipe reaction as written: a point exactly when the score test as written fires, a redraw exactly when the respawn test as written fires, and otherwise as `Game.Frame` |
| Game.FramesAgree | App.js:113-128 | the two frames give the same state unless the pipe starts the frame at exactly 0 or ends it exactly at -100 |
| Game.FrameFromZeroMissesPoint | App.js:113-126 | on a 400×800 window a running frame of 300/11 ms takes the pipe from 0 to -5, past the pass line at -3: the frame as written adds no point, the corrected one adds one |
| Game.ExactRespawnFrameKeepsGap | App.js:113-119 | on a 400×800 window running frames of 600/11 ms take the pipe from -90 to -100 to -110: the frames as written keep the old offset, the corrected frame redraws it on the first |
| Game.StepPreservesInv | App.js:95-119 | with the pipe reaction as written or corrected, every tap or frame keeps the pipe in [-150, width] and the offset in [-200, 200) |
| Game.RunPreservesInv | App.js:95-119 | so does every run of events, with either reaction |
| Game.OnlyRestartResets | App.js:186-203 | with either reaction, the score goes down only through a tap while over, and then to 0; the flag is cleared only by that tap |
| Game.FramesFrozenWhileOver | App.js:167-180 | with either reaction, without taps a game that is over stays exactly as it is |
| Game.FramesScoreMonotone | App.js:121-128 | with either reaction, without taps the score never decreases and rises at most one per frame |
| Game.RunningFramesFollowSchedule | App.js:95-130 | while the game keeps running, frames at a constant rate move the pipe along the scroll schedule and add exactly as many points as pass-line crossings |
| Game.CycleCrossesOnce | App.js:95-128 | one scroll cycle from the right edge to -150 crosses the pass line once and the respawn line once |
| Game.OnePointPerCycle | App.js:95-128 | a game still running after one scroll cycle and the jump back has scored exactly one point in it and has the pipe back at the right edge |
| Game.WorkedExample | App.js:177-203 | on a 400×800 window a 16 ms frame from the start gives velocity 16 with y unchanged; a tap and another 16 ms frame give velocity -484 and y lowered by 8 |

## Findings

| source | as written | input that shows it | evidently intended | confidence | as-written member | corrected member |
|---|---|---|---|---|---|---|
| App.js:113-128 | `previousValue &&` is meant to skip the first call, which has no previous value, but also skips a real previous x of exactly 0 | window 400 wide (pass line -3): x observed at 1, then 0, then -5 passes the bird and no point is added | skip only when there is no previous value | low (needs x to land on exactly 0; not executed) | Pipes.ZeroPreviousMissesScore | Pipes.OnPipeMoveCorrected |
| App.js:117 | the respawn test is strict on both sides, `currentValue < -100 && previousValue > -100` | x observed at -90, then exactly -100, then -110 crosses -100 and the offset is never redrawn | a half-open crossing test, `previous > -100 >= current`, as the score test already uses | medium (needs x to land on exactly -100; not executed) | Pipes.ExactRespawnLineMissesRedraw | Pipes.OnPipeMoveCorrected |

`Pipes.OnPipeMove` keeps the handler exactly as written and
`Game.FrameAsWritten` the frame built on it; `Game.Frame` uses
`Pipes.OnPipeMoveCorrected`. `Pipes.HandlersAgreeAwayFromEdges` and
`Game.FramesAgree` show that the two differ only on those exact values, and
`Game.FrameFromZeroMissesPoint` and `Game.ExactRespawnFrameKeepsGap` show each
difference over whole frames.

## Left out

- Game.Frame: its scoring and redraw clauses describe the corrected pipe reaction, not App.js as written; App.js misses the point when a frame starts with the pipe at exactly 0, and misses the redraw when a frame ends exactly at -100. `Game.FrameAsWritten` states what the code does, and `Game.FramesAgree` bounds the difference.
- Game.RunningFramesFollowSchedule: the score equal to the number of pass-line crossings holds for the corrected reaction; as written, a crossing whose frame starts at exactly x = 0 adds no point.
- Game.OnePointPerCycle: exactly one point per scroll cycle holds for the corrected reaction; as written, the cycle scores nothing if one of its frames starts at exactly x = 0 and then crosses the pass line.
- Game.CycleCrossesOnce: states crossings of the schedule, not what the handler as written reacts to; the redraw as written is missed when a frame lands exactly on -100.

- Drawing: the Skia canvas, sprite images, asset loading, font matching and the score text (App.js:43-49, 224-326), and the commented-out debug shapes. They only read the state.
- The bird's tilt (App.js:205-216): a clamped interpolation of the velocity that feeds only the renderer.
- The animation engine: `withRepeat`, `withSequence`, `withTiming` and `cancelAnimation` are replaced by `Scroll.ScrollStep`, a linear move of Speed·dt per frame clamped at -150, then a jump to the right edge on the next frame. The engine's own timestamp bookkeeping is not modelled.
- React state and thread hops: `useState`, `runOnJS` and the `score` captured by the reaction's closure; the score update is modelled as an increment applied at once.
- Reaction triggering: the collision reaction in the source runs when the bird's y changes; `Game.Frame` runs the collision test on every running frame, and `Game.Tap` does not run it after a restart moves the bird. Since the collision test only ever sets the flag, this differs only for a frame in which the bird's y is unchanged. `Game.Tap` does not run the pipe reaction for the restart's move of the pipe to the right edge either; `Pipes.ResetJumpFiresNothing` shows that reaction would change nothing.
- IEEE floating point: rounding and NaN (for which `!dt` is also true) are not modelled; arithmetic is exact.
- The randomness source: the draw is a parameter in [0, 1).
- Window size discovery and gesture wiring: the viewport is a fixed parameter and a tap is an event.
- Negative frame times: the source does not guard against them, and `Physics.Tick` integrates them as given; `Game.Frame` requires dt ≥ 0 because the scroll runs on a monotonic clock.
- Scroll speed growing with the score is not in this version of the component.
