/**
  The game's objects as the program keeps them: a bird and pipes whose
  fields are updated in place, and the environment that owns one bird,
  a FIFO list of pipes and the score. Each method is proved to do what
  the value-level definitions of modules Physics and Simulation say.
*/
module FlappyBird {
  import opened Geometry
  import opened Physics
  import opened Simulation

  class Bird {
    var rect: Rect
    var velocity: int

    function View(): BirdState
      reads this
    {
      BirdState(rect, velocity)
    }

    /** `Bird(y_pos, size)`: a size-by-size box in the centre column, at rest. */
    constructor (yPos: int, size: int)
      ensures rect == Rect(BIRD_X, yPos, size, size) && velocity == 0
      ensures View() == NewBird(yPos, size)
    {
      rect := Rect(BIRD_X, yPos, size, size);
      velocity := 0;
    }

    /** `Bird.update`: gravity first, then the box moves by the new velocity. */
    method Update()
      modifies this
      ensures velocity == old(velocity) + GRAVITY
      ensures rect == old(rect).MoveBy(0, velocity)
      ensures View() == Fall(old(View()))
    {
      velocity := velocity + GRAVITY;
      rect := rect.MoveBy(0, velocity);
    }

    /** `Bird.flap`: the velocity becomes JUMP_SPEED, whatever it was; the box stays. */
    method Flap()
      modifies this
      ensures velocity == JUMP_SPEED && rect == old(rect)
      ensures View() == Flapped(old(View()))
    {
      velocity := JUMP_SPEED;
    }
  }

  class Pipe {
    var upperRect: Rect
    var lowerRect: Rect
    var passed: bool

    function View(): PipeState
      reads this
    {
      PipeState(upperRect, lowerRect, passed)
    }

    /** `Pipe(x_pos)`, the split height drawn by the caller from [0, SCREEN_HEIGHT - GAP_SIZE]. */
    constructor (xPos: int, randomHeight: int)
      requires 0 <= randomHeight <= SCREEN_HEIGHT - GAP_SIZE
      ensures View() == NewPipe(xPos, randomHeight)
      ensures WellFormed(View()) && !passed
    {
      upperRect := Rect(xPos, 0, PIPE_WIDTH, randomHeight);
      lowerRect := Rect(xPos, randomHeight + GAP_SIZE, PIPE_WIDTH, SCREEN_HEIGHT - randomHeight - GAP_SIZE);
      passed := false;
    }

    /** `Pipe.update`: both rectangles move left by MOVEMENT_SPEED; the flag is untouched. */
    method Update()
      modifies this
      ensures upperRect == old(upperRect).MoveBy(-MOVEMENT_SPEED, 0)
      ensures lowerRect == old(lowerRect).MoveBy(-MOVEMENT_SPEED, 0)
      ensures passed == old(passed)
      ensures View() == Moved(old(View()))
    {
      upperRect := upperRect.MoveBy(-MOVEMENT_SPEED, 0);
      lowerRect := lowerRect.MoveBy(-MOVEMENT_SPEED, 0);
    }
  }

  /** The values of a list of pipes, index by index. */
  function Views(ps: seq<Pipe>): (vs: seq<PipeState>)
    reads set p | p in ps
    ensures |vs| == |ps|
    ensures forall k :: 0 <= k < |ps| ==> vs[k] == ps[k].View()
  {
    seq(|ps|, k requires 0 <= k < |ps| reads set p | p in ps => ps[k].View())
  }

  /** No pipe object appears twice in the list. */
  predicate Distinct(ps: seq<Pipe>) {
    forall i, j :: 0 <= i < j < |ps| ==> ps[i] != ps[j]
  }

  class FlappyBirdEnvironment {
    var bird: Bird
    var pipes: seq<Pipe>
    var score: int

    function View(): EnvState
      reads this, bird, set p | p in pipes
    {
      EnvState(bird.View(), Views(pipes), score)
    }

    ghost predicate Valid()
      reads this, bird, set p | p in pipes
    {
      Distinct(pipes) && Inv(View())
    }

    /** `FlappyBirdEnvironment()`: a fresh bird at mid-height, one pipe at the right edge, score 0. */
    constructor (randomHeight: int)
      requires 0 <= randomHeight <= SCREEN_HEIGHT - GAP_SIZE
      ensures Valid()
      ensures View() == Initial(randomHeight)
      ensures fresh(bird) && forall p :: p in pipes ==> fresh(p)
    {
      bird := new Bird(SCREEN_HEIGHT / 2, BIRD_SIZE);
      var first := new Pipe(SCREEN_WIDTH, randomHeight);
      pipes := [first];
      score := 0;
      InitialInv(randomHeight);
    }

    /** `initialize_game`: the same reset, overwriting the old bird, pipes and score. */
    method InitializeGame(randomHeight: int)
      requires 0 <= randomHeight <= SCREEN_HEIGHT - GAP_SIZE
      modifies this
      ensures Valid()
      ensures View() == Initial(randomHeight)
      ensures fresh(bird) && forall p :: p in pipes ==> fresh(p)
    {
      bird := new Bird(SCREEN_HEIGHT / 2, BIRD_SIZE);
      var first := new Pipe(SCREEN_WIDTH, randomHeight);
      pipes := [first];
      score := 0;
      InitialInv(randomHeight);
    }

    /**
      `get_state`: search the pipes front to back for the first one not
      yet passed and report the bird's y with that pipe's gap corners.
    */
    method GetState() returns (obs: seq<int>)
      requires Valid()
      requires HasUnpassed(View().pipes)
      ensures obs == Observation(View())
      ensures |obs| == 5 && obs[1] == obs[3] && obs[4] == obs[2] + GAP_SIZE
    {
      var pipeToReturn: Pipe? := null;
      var i := 0;
      while i < |pipes|
        invariant 0 <= i <= |pipes|
        invariant pipeToReturn == null
        invariant forall k :: 0 <= k < i ==> pipes[k].passed
      {
        if !pipes[i].passed {
          pipeToReturn := pipes[i];
          break;
        }
        i := i + 1;
      }
      if pipeToReturn == null {
        assert false;
      }
      assert i < |pipes| && pipeToReturn == pipes[i];
      assert FirstUnpassed(View().pipes) == i;
      obs := [bird.rect.y, pipeToReturn.upperRect.Left(), pipeToReturn.upperRect.Bottom(),
              pipeToReturn.lowerRect.Left(), pipeToReturn.lowerRect.Top()];
      ObservationShowsGap(View());
    }

    /** `perform_action(output)`: flap when output >= 0.5; otherwise change nothing. */
    method PerformAction(output: real)
      requires Valid()
      modifies bird
      ensures Valid()
      ensures output >= 0.5 ==> bird.velocity == JUMP_SPEED && bird.rect == old(bird.rect)
      ensures output < 0.5 ==> bird.velocity == old(bird.velocity) && bird.rect == old(bird.rect)
      ensures View() == Act(old(View()), output)
    {
      if output >= 0.5 {
        bird.Flap();
      }
    }

    /**
      One pass of the loop of `update_game` over the pipe `curr`: scroll
      it, report a collision with the bird, and otherwise mark and score
      it if the bird has just cleared it.
    */
    method VisitPipe(curr: Pipe) returns (hit: bool)
      modifies this`score, curr
      ensures var p := Moved(old(curr.View()));
        && hit == Collides(p, bird.rect)
        && curr.View() == (if hit then p else Scored(p, bird.rect))
        && score == old(score) + (if !hit && ScoresOn(p, bird.rect) then 1 else 0)
    {
      curr.Update();
      if Collides(curr.View(), bird.rect) {
        return true;
      } else if !curr.passed && curr.upperRect.Right() < bird.rect.Left() && !Overlaps(curr.upperRect, bird.rect) {
        curr.passed := true;
        score := score + 1;
      }
      hit := false;
    }

    /**
      The loop of `update_game`: visit each pipe in order, stopping at
      the first one that collides with the bird.
    */
    method SweepPipes() returns (collided: bool)
      requires Distinct(pipes)
      modifies this`score, set p | p in pipes
      ensures var ps0 := old(Views(pipes)); var c := FirstCollision(ps0, bird.rect);
        && Views(pipes) == Swept(ps0, bird.rect)
        && score == old(score) + Gain(ps0[..c], bird.rect)
        && collided == (c < |ps0|)
    {
      ghost var ps0 := Views(pipes);
      ghost var box := bird.rect;
      ghost var c := FirstCollision(ps0, box);
      var i := 0;
      while i < |pipes|
        invariant 0 <= i <= |pipes| == |ps0|
        invariant i <= c
        invariant forall k :: 0 <= k < |pipes| ==>
          pipes[k].View() == if k < i then Scored(Moved(ps0[k]), box) else ps0[k]
        invariant score == old(score) + Gain(ps0[..i], box)
      {
        var hit := VisitPipe(pipes[i]);
        assert ps0[..i + 1][..i] == ps0[..i];
        if hit {
          assert c == i by { FirstCollisionIsFirst(ps0, box); }
          SweptFromPointwise(ps0, box, Views(pipes));
          return true;
        }
        assert i < c by { FirstCollisionIsFirst(ps0, box); }
        i := i + 1;
      }
      assert ps0[..i] == ps0[..c];
      SweptFromPointwise(ps0, box, Views(pipes));
      collided := false;
    }

    /**
      The bookkeeping of `update_game`: append a pipe at the right edge
      when the newest has moved far enough left, then pop the oldest when
      it is off the left edge.
    */
    method SpawnAndDespawn(randomHeight: int)
      requires Distinct(pipes)
      requires 0 <= randomHeight <= SCREEN_HEIGHT - GAP_SIZE
      modifies this`pipes
      ensures Distinct(pipes)
      ensures forall p :: p in pipes ==> p in old(pipes) || fresh(p)
      ensures Views(pipes) == Despawned(Spawned(old(Views(pipes)), randomHeight))
    {
      ghost var ps0 := Views(pipes);
      if |pipes| > 0 && pipes[|pipes| - 1].upperRect.Right() < SCREEN_WIDTH - PIPE_WIDTH * 3 {
        var spawn := new Pipe(SCREEN_WIDTH, randomHeight);
        pipes := pipes + [spawn];
      }
      assert Views(pipes) == Spawned(ps0, randomHeight);
      ghost var spawned := Views(pipes);
      if |pipes| > 0 && pipes[0].upperRect.Right() < 0 {
        pipes := pipes[1..];
      }
      assert Views(pipes) == Despawned(spawned);
    }

    /**
      `update_game`: one tick. Returns true at the score cap (changing
      nothing), on the first collision (the sweep stops there, nothing is
      spawned or removed) and when the bird has left the screen.
    */
    method UpdateGame(randomHeight: int) returns (gameOver: bool)
      requires Valid()
      requires 0 <= randomHeight <= SCREEN_HEIGHT - GAP_SIZE
      modifies this, bird, set p | p in pipes
      ensures Valid()
      ensures StepResult(View(), gameOver) == Step(old(View()), randomHeight)
    {
      ghost var e0 := View();
      if score >= SCORE_CAP {
        StepPreservesInv(e0, randomHeight);
        return true;
      }
      bird.Update();
      ghost var b1 := bird.View();
      assert Views(pipes) == e0.pipes;
      var collided := SweepPipes();
      ghost var s1 := Views(pipes);
      ghost var score1 := score;
      if collided {
        assert View() == EnvState(b1, s1, score1);
        StepBelowCap(e0, randomHeight);
        StepPreservesInv(e0, randomHeight);
        return true;
      }
      SpawnAndDespawn(randomHeight);
      gameOver := bird.rect.y > SCREEN_HEIGHT || bird.rect.y < 0;
      assert View() == EnvState(b1, Despawned(Spawned(s1, randomHeight)), score1);
      StepBelowCap(e0, randomHeight);
      StepPreservesInv(e0, randomHeight);
    }
  }
}
