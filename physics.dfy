/**
  The game's constants and the two entities, the bird and a pipe, as
  values: what one tick of gravity, a flap, the construction of a pipe
  and the leftward scroll of a pipe do to them, and the collision and
  scoring tests on them.
*/
module Physics {
  import opened Geometry

  const SCREEN_WIDTH: int := 800
  const SCREEN_HEIGHT: int := 600
  /** Vertical opening between a pipe's two rectangles (integer division, 120). */
  const GAP_SIZE: int := SCREEN_HEIGHT / 5
  /** Width of both rectangles of every pipe (integer division, 53). */
  const PIPE_WIDTH: int := SCREEN_WIDTH / 15
  /** Pixels every pipe moves left per tick. */
  const MOVEMENT_SPEED: int := 2
  /** Added to the bird's velocity every tick. */
  const GRAVITY: int := 1
  /** The velocity a flap sets (negative is upwards). */
  const JUMP_SPEED: int := -10
  /** The bird's column: the horizontal centre of the screen. */
  const BIRD_X: int := SCREEN_WIDTH / 2
  /** Side of the bird's square box, as the environment builds it. */
  const BIRD_SIZE: int := 20

  // ---------------------------------------------------------------- bird

  datatype BirdState = BirdState(rect: Rect, velocity: int)

  /** The bird as `Bird(y_pos, size)` builds it: at rest, in the centre column. */
  function NewBird(yPos: int, size: int): BirdState {
    BirdState(Rect(BIRD_X, yPos, size, size), 0)
  }

  /** One tick of `Bird.update`: velocity gains gravity, then the box moves by the new velocity. */
  function Fall(b: BirdState): BirdState {
    var v := b.velocity + GRAVITY;
    BirdState(b.rect.MoveBy(0, v), v)
  }

  /** `Bird.flap`: the velocity is overwritten, not added to. */
  function Flapped(b: BirdState): BirdState {
    b.(velocity := JUMP_SPEED)
  }

  /** n consecutive ticks of gravity with no flap. */
  function FallTicks(b: BirdState, n: nat): BirdState {
    if n == 0 then b else Fall(FallTicks(b, n - 1))
  }

  /** 0 + 1 + ... + n */
  function Triangle(n: nat): nat {
    if n == 0 then 0 else Triangle(n - 1) + n
  }

  /**
    Closed form of free fall: after n ticks the velocity has grown by
    n * GRAVITY and the bird has moved down by n * v + (1 + 2 + ... + n),
    while its column and size stay the same.
  */
  lemma {:induction false} FallTicksClosedForm(b: BirdState, n: nat)
    ensures FallTicks(b, n).velocity == b.velocity + n * GRAVITY
    ensures FallTicks(b, n).rect == b.rect.MoveBy(0, n * b.velocity + Triangle(n) * GRAVITY)
  {
    if n > 0 {
      FallTicksClosedForm(b, n - 1);
      assert n * b.velocity == (n - 1) * b.velocity + b.velocity;
    }
  }

  /** From y = 300 at rest, three ticks give velocity 3 and y = 300 + 1 + 2 + 3. */
  lemma ThreeTicksFromRest()
    ensures FallTicks(NewBird(SCREEN_HEIGHT / 2, BIRD_SIZE), 3).velocity == 3
    ensures FallTicks(NewBird(SCREEN_HEIGHT / 2, BIRD_SIZE), 3).rect.y == 306
  {
    FallTicksClosedForm(NewBird(SCREEN_HEIGHT / 2, BIRD_SIZE), 3);
  }

  /**
    A flap overrides whatever velocity had accumulated: the tick after a
    flap always rises by 9 pixels and leaves velocity -9.
  */
  lemma FlapThenFall(b: BirdState)
    ensures Fall(Flapped(b)).velocity == JUMP_SPEED + GRAVITY
    ensures Fall(Flapped(b)).rect == b.rect.MoveBy(0, JUMP_SPEED + GRAVITY)
  {
  }

  // ---------------------------------------------------------------- pipe

  datatype PipeState = PipeState(upper: Rect, lower: Rect, passed: bool)

  /**
    `Pipe(x_pos)` with the random split height supplied by the caller:
    the upper rectangle covers rows [0, h), the lower one rows
    [h + GAP_SIZE, SCREEN_HEIGHT), both at column x_pos with PIPE_WIDTH.
  */
  function NewPipe(xPos: int, randomHeight: int): PipeState {
    PipeState(
      Rect(xPos, 0, PIPE_WIDTH, randomHeight),
      Rect(xPos, randomHeight + GAP_SIZE, PIPE_WIDTH, SCREEN_HEIGHT - randomHeight - GAP_SIZE),
      false)
  }

  /** The shape every pipe keeps for its whole life. */
  predicate WellFormed(p: PipeState) {
    && p.upper.y == 0
    && 0 <= p.upper.h <= SCREEN_HEIGHT - GAP_SIZE
    && p.lower.y == p.upper.Bottom() + GAP_SIZE
    && p.lower.Bottom() == SCREEN_HEIGHT
    && p.lower.h >= 0
    && p.lower.x == p.upper.x
    && p.upper.w == PIPE_WIDTH && p.lower.w == PIPE_WIDTH
  }

  /** A freshly built pipe for any height the random draw can give. */
  lemma NewPipeShape(xPos: int, randomHeight: int)
    requires 0 <= randomHeight <= SCREEN_HEIGHT - GAP_SIZE
    ensures var p := NewPipe(xPos, randomHeight);
      && p.upper == Rect(xPos, 0, PIPE_WIDTH, randomHeight)
      && p.lower.Top() == randomHeight + GAP_SIZE
      && p.lower.Bottom() == SCREEN_HEIGHT
      && p.upper.h >= 0 && p.lower.h >= 0
      && p.lower.x == p.upper.x && p.lower.w == p.upper.w
      && !p.passed
      && WellFormed(p)
  {
  }

  /** `Pipe.update`, as a value: both rectangles shift left by MOVEMENT_SPEED. */
  function Moved(p: PipeState): PipeState {
    p.(upper := p.upper.MoveBy(-MOVEMENT_SPEED, 0), lower := p.lower.MoveBy(-MOVEMENT_SPEED, 0))
  }

  /** Scrolling changes the column and nothing else, and keeps a pipe well formed. */
  lemma MovedOnlyShifts(p: PipeState)
    ensures Moved(p).upper == p.upper.(x := p.upper.x - MOVEMENT_SPEED)
    ensures Moved(p).lower == p.lower.(x := p.lower.x - MOVEMENT_SPEED)
    ensures Moved(p).passed == p.passed
    ensures WellFormed(p) ==> WellFormed(Moved(p))
  {
  }

  /** n consecutive scrolls. */
  function MovedTicks(p: PipeState, n: nat): PipeState {
    if n == 0 then p else Moved(MovedTicks(p, n - 1))
  }

  /** After n ticks a pipe has moved exactly n * MOVEMENT_SPEED pixels left and kept its shape. */
  lemma {:induction false} MovedTicksShift(p: PipeState, n: nat)
    ensures MovedTicks(p, n) == p.(upper := p.upper.MoveBy(-(n as int) * MOVEMENT_SPEED, 0),
                                   lower := p.lower.MoveBy(-(n as int) * MOVEMENT_SPEED, 0))
  {
    if n > 0 {
      MovedTicksShift(p, n - 1);
    }
  }

  /**
    A pipe built at the right edge reaches x = 0 after SCREEN_WIDTH / 2
    ticks, but its right edge is left of 0 (so it may be removed) only
    from tick 427 on, once it has also scrolled its own width.
  */
  lemma NewPipeLeavesScreen(randomHeight: int, n: nat)
    ensures MovedTicks(NewPipe(SCREEN_WIDTH, randomHeight), SCREEN_WIDTH / 2).upper.x == 0
    ensures MovedTicks(NewPipe(SCREEN_WIDTH, randomHeight), n).upper.Right() < 0 <==> n >= 427
  {
    MovedTicksShift(NewPipe(SCREEN_WIDTH, randomHeight), SCREEN_WIDTH / 2);
    MovedTicksShift(NewPipe(SCREEN_WIDTH, randomHeight), n);
  }

  /** `Pipe.collide(box)`: the box overlaps the upper or the lower rectangle. */
  predicate Collides(p: PipeState, box: Rect) {
    Overlaps(p.upper, box) || Overlaps(p.lower, box)
  }

  /**
    A box that lies entirely inside a pipe's gap, or entirely beside the
    pipe's column, does not collide with it; a box that reaches into the
    column and into either rectangle's rows does.
  */
  lemma CollidesExactly(p: PipeState, box: Rect)
    requires WellFormed(p)
    ensures (box.Right() <= p.upper.Left() || p.upper.Right() <= box.Left()) ==> !Collides(p, box)
    ensures (p.upper.Bottom() <= box.Top() && box.Bottom() <= p.lower.Top()) ==> !Collides(p, box)
    ensures (box.Left() < p.upper.Right() && p.upper.Left() < box.Right() &&
             box.Top() < p.upper.Bottom() && 0 < box.Bottom()) ==> Collides(p, box)
    ensures (box.Left() < p.upper.Right() && p.upper.Left() < box.Right() &&
             box.Top() < SCREEN_HEIGHT && p.lower.Top() < box.Bottom()) ==> Collides(p, box)
  {
  }

  /** The condition under which `update_game` marks a pipe as passed and scores it. */
  predicate ScoresOn(p: PipeState, box: Rect) {
    !p.passed && p.upper.Right() < box.Left() && !Overlaps(p.upper, box)
  }

  /** The pipe after the scoring test of one tick. */
  function Scored(p: PipeState, box: Rect): PipeState {
    if ScoresOn(p, box) then p.(passed := true) else p
  }

  /**
    Scoring only ever sets `passed`, from false to true, and only when
    the pipe's trailing edge is left of the box's leading edge.
  */
  lemma ScoredOnlyFlips(p: PipeState, box: Rect)
    ensures Scored(p, box).upper == p.upper && Scored(p, box).lower == p.lower
    ensures p.passed ==> Scored(p, box).passed
    ensures !p.passed && Scored(p, box).passed ==> p.upper.Right() < box.Left() && !Overlaps(p.upper, box)
    ensures Scored(p, box).passed <==> p.passed || ScoresOn(p, box)
  {
  }
}
