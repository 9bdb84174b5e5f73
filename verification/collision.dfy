/** The collision reaction: the bird ends the game when it leaves the band
    between the ceiling and the ground, or when its centre point lies in
    either rectangle of the pipe pair. */
module Collision {
  import opened State

  datatype Point = Point(x: real, y: real)

  /** An axis-aligned rectangle given by its top-left corner and size. */
  datatype Rect = Rect(x: real, y: real, w: real, h: real) {
    predicate WellFormed() {
      w >= 0.0 && h >= 0.0
    }
  }

  /** Closed point-in-rectangle test: all four edges belong to the
      rectangle, so a point collides exactly when it is its own nearest
      point of the rectangle, that is, at distance zero from it. */
  function IsPointCollidingWithRect(p: Point, r: Rect): (b: bool)
    ensures r.WellFormed() ==> (b <==> Nearest(p, r) == p)
  {
    && p.x >= r.x
    && p.x <= r.x + r.w
    && p.y >= r.y
    && p.y <= r.y + r.h
  }

  function Clamp(v: real, lo: real, hi: real): real
    requires lo <= hi
  {
    if v < lo then lo else if v > hi then hi else v
  }

  /** The point of a rectangle closest to `p`. */
  function Nearest(p: Point, r: Rect): Point
    requires r.WellFormed()
  {
    Point(Clamp(p.x, r.x, r.x + r.w), Clamp(p.y, r.y, r.y + r.h))
  }

  /** Every point on the boundary collides: the four corners and any point
      along an edge. */
  lemma EdgesCollide(r: Rect, a: real)
    requires r.WellFormed()
    requires 0.0 <= a <= 1.0
    ensures IsPointCollidingWithRect(Point(r.x + a * r.w, r.y), r)
    ensures IsPointCollidingWithRect(Point(r.x + a * r.w, r.y + r.h), r)
    ensures IsPointCollidingWithRect(Point(r.x, r.y + a * r.h), r)
    ensures IsPointCollidingWithRect(Point(r.x + r.w, r.y + a * r.h), r)
  {
    assert 0.0 <= a * r.w <= r.w;
    assert 0.0 <= a * r.h <= r.h;
  }

  /** A point strictly beyond any one edge does not collide. */
  lemma OutsideAnyEdgeMisses(p: Point, r: Rect)
    requires p.x < r.x || p.x > r.x + r.w || p.y < r.y || p.y > r.y + r.h
    ensures !IsPointCollidingWithRect(p, r)
  {
  }

  /** Centre of the bird sprite, from the offsets the collision code uses:
      they are half the size the sprite is drawn at. */
  function BirdCenter(vp: Viewport, s: GameState): (c: Point)
    ensures c.x == vp.BirdX() + BIRD_WIDTH / 2.0
    ensures c.y == s.birdY + BIRD_HEIGHT / 2.0
  {
    Point(vp.BirdX() + BIRD_CENTER_DX, s.birdY + BIRD_CENTER_DY)
  }

  /** Top edge of the top pipe, centred on the gap offset. */
  function TopPipeY(s: GameState): real {
    s.pipeOffset - PIPE_HEIGHT / 2.0
  }

  /** Top edge of the bottom pipe, which is also the lower edge of the gap. */
  function BottomPipeY(vp: Viewport, s: GameState): real {
    vp.height - PIPE_HEIGHT / 2.0 + s.pipeOffset
  }

  /** Lower edge of the top pipe, which is the upper edge of the gap. */
  function GapTop(s: GameState): real {
    TopPipeY(s) + PIPE_HEIGHT
  }

  /** The two pipe rectangles, bottom first, at the pipe's x. Both have the
      pipe's size; the gap between them is `height - PIPE_HEIGHT` high
      whatever the offset, which only moves it up or down. */
  function Obstacles(vp: Viewport, s: GameState): (r: seq<Rect>)
    ensures |r| == 2
    ensures forall i :: 0 <= i < |r| ==>
      r[i].WellFormed() && r[i].x == s.pipeX && r[i].w == PIPE_WIDTH && r[i].h == PIPE_HEIGHT
    ensures r[1].y + r[1].h == GapTop(s)
    ensures r[0].y - GapTop(s) == vp.height - PIPE_HEIGHT
  {
    [ Rect(s.pipeX, BottomPipeY(vp, s), PIPE_WIDTH, PIPE_HEIGHT),
      Rect(s.pipeX, TopPipeY(s), PIPE_WIDTH, PIPE_HEIGHT) ]
  }

  /** The bird is below the top of the ground band (plus a margin) or above
      the top of the screen: it is safe exactly on the closed band between
      the two, both ends included. */
  function HitsBounds(vp: Viewport, s: GameState): (b: bool)
    ensures b <==> !(0.0 <= s.birdY <= vp.height - BASE_HEIGHT + GROUND_MARGIN)
  {
    s.birdY > vp.height - BASE_HEIGHT + GROUND_MARGIN || s.birdY < 0.0
  }

  /** Some pipe rectangle contains the bird's centre. */
  predicate HitsPipe(vp: Viewport, s: GameState) {
    var obstacles := Obstacles(vp, s);
    exists i :: 0 <= i < |obstacles| && IsPointCollidingWithRect(BirdCenter(vp, s), obstacles[i])
  }

  /** A pipe hit, stated without rectangles: the centre is in the pipe's
      column, within the vertical extent of the pair, and not strictly
      inside the gap between the two pipes. When the window is 640 units
      high or less the pipes overlap and there is no gap at all. */
  lemma HitsPipeIffOutsideGap(vp: Viewport, s: GameState)
    requires vp.Valid()
    ensures HitsPipe(vp, s) <==>
      var c := BirdCenter(vp, s);
      && s.pipeX <= c.x <= s.pipeX + PIPE_WIDTH
      && GapTop(s) - PIPE_HEIGHT <= c.y <= BottomPipeY(vp, s) + PIPE_HEIGHT
      && !(GapTop(s) < c.y < BottomPipeY(vp, s))
  {
    var c := BirdCenter(vp, s);
    var obstacles := Obstacles(vp, s);
    if HitsPipe(vp, s) {
      var i :| 0 <= i < |obstacles| && IsPointCollidingWithRect(c, obstacles[i]);
      if i == 0 {
        assert BottomPipeY(vp, s) <= c.y <= BottomPipeY(vp, s) + PIPE_HEIGHT;
      } else {
        assert GapTop(s) - PIPE_HEIGHT <= c.y <= GapTop(s);
      }
    } else {
      assert !IsPointCollidingWithRect(c, obstacles[0]);
      assert !IsPointCollidingWithRect(c, obstacles[1]);
    }
  }

  /** Runs both tests and sets the flag when either fires. The flag is
      only ever set here, never cleared. */
  function CheckCollision(vp: Viewport, s: GameState): (t: GameState)
    ensures t.(gameOver := s.gameOver) == s
    ensures s.gameOver ==> t.gameOver
    ensures t.gameOver <==> s.gameOver || HitsBounds(vp, s) || HitsPipe(vp, s)
    ensures HitsBounds(vp, t) == HitsBounds(vp, s) && HitsPipe(vp, t) == HitsPipe(vp, s)
  {
    assert Obstacles(vp, s.(gameOver := true)) == Obstacles(vp, s);
    var grounded := if HitsBounds(vp, s) then s.(gameOver := true) else s;
    if HitsPipe(vp, s) then grounded.(gameOver := true) else grounded
  }

  /** Checking twice is checking once. */
  lemma CheckCollisionIdempotent(vp: Viewport, s: GameState)
    ensures CheckCollision(vp, CheckCollision(vp, s)) == CheckCollision(vp, s)
  {
  }

  /** A bird inside the screen band whose centre is strictly inside the gap
      flies on. */
  lemma ThroughGapIsSafe(vp: Viewport, s: GameState)
    requires vp.Valid()
    requires 0.0 <= s.birdY <= vp.height - BASE_HEIGHT + GROUND_MARGIN
    requires GapTop(s) < BirdCenter(vp, s).y < BottomPipeY(vp, s)
    ensures CheckCollision(vp, s) == s
  {
    HitsPipeIffOutsideGap(vp, s);
  }
}
