/**
  The environment as a value and one tick of `update_game` as a total
  function on it, with the properties of a tick: the two early exits,
  how pipes are scrolled and scored, how the FIFO of pipes grows at the
  tail and shrinks at the head, when the episode ends, and the invariant
  every tick preserves. The class in module FlappyBird is proved to
  follow these definitions.
*/
module Simulation {
  import opened Geometry
  import opened Physics

  /** `update_game` stops at once, as a win, when the score reaches this cap. */
  const SCORE_CAP: int := 9999

  datatype EnvState = EnvState(bird: BirdState, pipes: seq<PipeState>, score: int)

  /** What one tick produces: the new state and whether the episode is over. */
  datatype StepResult = StepResult(next: EnvState, gameOver: bool)

  /** The state `initialize_game` sets up, with the first pipe's random height supplied. */
  function Initial(randomHeight: int): EnvState {
    EnvState(NewBird(SCREEN_HEIGHT / 2, BIRD_SIZE), [NewPipe(SCREEN_WIDTH, randomHeight)], 0)
  }

  // ------------------------------------------------------ the pipe sweep

  /**
    Index of the first pipe that, once scrolled, collides with the box;
    |ps| when none does. This is where the sweep of a tick stops.
  */
  function FirstCollision(ps: seq<PipeState>, box: Rect): (c: nat)
    ensures c <= |ps|
  {
    if ps == [] then 0
    else if Collides(Moved(ps[0]), box) then 0
    else 1 + FirstCollision(ps[1..], box)
  }

  /**
    FirstCollision is what its name says: no pipe before it collides
    once scrolled, and the one at that index (if any) does.
  */
  lemma {:induction false} FirstCollisionIsFirst(ps: seq<PipeState>, box: Rect)
    ensures forall k :: 0 <= k < FirstCollision(ps, box) ==> !Collides(Moved(ps[k]), box)
    ensures FirstCollision(ps, box) < |ps| ==> Collides(Moved(ps[FirstCollision(ps, box)]), box)
  {
    if ps != [] && !Collides(Moved(ps[0]), box) {
      FirstCollisionIsFirst(ps[1..], box);
      forall k | 0 <= k < FirstCollision(ps, box)
        ensures !Collides(Moved(ps[k]), box)
      {
        if k > 0 {
          assert ps[k] == ps[1..][k - 1];
        }
      }
    }
  }

  /**
    The pipes after the sweep of one tick: those before the first
    collision are scrolled and scored, the colliding one is scrolled
    only, and those after it are left as they were.
  */
  function Swept(ps: seq<PipeState>, box: Rect): seq<PipeState> {
    var c := FirstCollision(ps, box);
    seq(|ps|, k requires 0 <= k < |ps| =>
      if k < c then Scored(Moved(ps[k]), box)
      else if k == c then Moved(ps[k])
      else ps[k])
  }

  /** How many of the pipes satisfy the scoring test once scrolled. */
  function Gain(ps: seq<PipeState>, box: Rect): nat {
    if ps == [] then 0
    else Gain(ps[..|ps| - 1], box) + (if ScoresOn(Moved(ps[|ps| - 1]), box) then 1 else 0)
  }

  /** How many `passed` flags are false in `before` and true at the same index in `after`. */
  function Flips(before: seq<PipeState>, after: seq<PipeState>): nat
    requires |before| == |after|
  {
    if before == [] then 0
    else
      var n := |before| - 1;
      Flips(before[..n], after[..n]) + (if !before[n].passed && after[n].passed then 1 else 0)
  }

  // ------------------------------------------------------ spawn, despawn

  /** The spawn threshold: the newest pipe's right edge must be left of this. */
  const SPAWN_EDGE: int := SCREEN_WIDTH - PIPE_WIDTH * 3

  /** Append a pipe at the right edge when the newest one has moved far enough left. */
  function Spawned(ps: seq<PipeState>, randomHeight: int): seq<PipeState> {
    if |ps| > 0 && ps[|ps| - 1].upper.Right() < SPAWN_EDGE
    then ps + [NewPipe(SCREEN_WIDTH, randomHeight)]
    else ps
  }

  /** Remove the oldest pipe once it is entirely off the left edge. */
  function Despawned(ps: seq<PipeState>): seq<PipeState> {
    if |ps| > 0 && ps[0].upper.Right() < 0 then ps[1..] else ps
  }

  /** The bird has left the screen; the bounds themselves are still in play. */
  predicate OutOfBounds(b: BirdState) {
    b.rect.y > SCREEN_HEIGHT || b.rect.y < 0
  }

  // ------------------------------------------------------ one tick

  /** One call of `update_game`, the spawned pipe's random height supplied. */
  function Step(e: EnvState, randomHeight: int): StepResult {
    if e.score >= SCORE_CAP then StepResult(e, true)
    else
      var bird := Fall(e.bird);
      var c := FirstCollision(e.pipes, bird.rect);
      var swept := Swept(e.pipes, bird.rect);
      var score := e.score + Gain(e.pipes[..c], bird.rect);
      if c < |e.pipes| then StepResult(EnvState(bird, swept, score), true)
      else StepResult(EnvState(bird, Despawned(Spawned(swept, randomHeight)), score), OutOfBounds(bird))
  }

  /** `perform_action(output)`: flap at or above the 0.5 threshold, otherwise nothing. */
  function Act(e: EnvState, output: real): EnvState {
    if output >= 0.5 then e.(bird := Flapped(e.bird)) else e
  }

  // ------------------------------------------------------ the invariant

  /** Pipes are ordered by column, oldest (leftmost) first. */
  predicate OrderedByX(ps: seq<PipeState>) {
    forall i, j :: 0 <= i < j < |ps| ==> ps[i].upper.x < ps[j].upper.x
  }

  /**
    What holds of the pipes in every reachable state, given the bird's
    column: every pipe keeps its shape, pipes are ordered oldest first,
    and a passed pipe lies wholly left of the bird.
  */
  predicate PipesInv(ps: seq<PipeState>, birdX: int) {
    && (forall k :: 0 <= k < |ps| ==> WellFormed(ps[k]))
    && OrderedByX(ps)
    && (forall k :: 0 <= k < |ps| && ps[k].passed ==> ps[k].upper.Right() < birdX)
  }

  /**
    What holds in every reachable state: the bird stays in the centre
    column with its size, there is always at least one pipe, the pipes
    satisfy PipesInv, and the score is not negative.
  */
  predicate Inv(e: EnvState) {
    && e.bird.rect.x == BIRD_X && e.bird.rect.w == BIRD_SIZE && e.bird.rect.h == BIRD_SIZE
    && |e.pipes| >= 1
    && PipesInv(e.pipes, e.bird.rect.x)
    && e.score >= 0
  }

  lemma InitialInv(randomHeight: int)
    requires 0 <= randomHeight <= SCREEN_HEIGHT - GAP_SIZE
    ensures Inv(Initial(randomHeight))
    ensures Initial(randomHeight).bird.rect == Rect(BIRD_X, 300, BIRD_SIZE, BIRD_SIZE)
    ensures Initial(randomHeight).bird.velocity == 0 && Initial(randomHeight).score == 0
    ensures Initial(randomHeight).pipes == [NewPipe(SCREEN_WIDTH, randomHeight)]
  {
  }

  /** Pointwise description of the sweep, used by the lemmas below. */
  lemma SweptAt(ps: seq<PipeState>, box: Rect, k: int)
    requires 0 <= k < |ps|
    ensures |Swept(ps, box)| == |ps|
    ensures var c := FirstCollision(ps, box); var q := Swept(ps, box)[k];
      && q.lower.y == ps[k].lower.y && q.lower.h == ps[k].lower.h && q.lower.w == ps[k].lower.w
      && q.upper.y == ps[k].upper.y && q.upper.h == ps[k].upper.h && q.upper.w == ps[k].upper.w
      && q.upper.x == ps[k].upper.x - (if k <= c then MOVEMENT_SPEED else 0)
      && q.lower.x == ps[k].lower.x - (if k <= c then MOVEMENT_SPEED else 0)
      && (q.passed <==> ps[k].passed || (k < c && ScoresOn(Moved(ps[k]), box)))
  {
  }

  /** The sweep is determined by what it does at each index. */
  lemma SweptFromPointwise(ps: seq<PipeState>, box: Rect, s: seq<PipeState>)
    requires |s| == |ps|
    requires forall k :: 0 <= k < |ps| ==>
      s[k] == (var c := FirstCollision(ps, box);
               if k < c then Scored(Moved(ps[k]), box) else if k == c then Moved(ps[k]) else ps[k])
    ensures s == Swept(ps, box)
  {
  }

  /** The sweep keeps the pipe invariant: pipes behind the stop moved, those after it did not. */
  lemma SweptKeepsPipesInv(ps: seq<PipeState>, box: Rect)
    requires PipesInv(ps, box.x)
    ensures PipesInv(Swept(ps, box), box.x)
  {
    var s := Swept(ps, box);
    forall k | 0 <= k < |s|
      ensures WellFormed(s[k])
      ensures s[k].passed ==> s[k].upper.Right() < box.x
    {
      SweptAt(ps, box, k);
    }
    forall i, j | 0 <= i < j < |s|
      ensures s[i].upper.x < s[j].upper.x
    {
      SweptAt(ps, box, i);
      SweptAt(ps, box, j);
    }
  }

  /**
    Spawning keeps the pipe invariant, never shrinks the list, and
    always fires when a lone pipe is already off screen, so that the
    despawn that follows cannot empty the list.
  */
  lemma SpawnedKeepsPipesInv(ps: seq<PipeState>, randomHeight: int, birdX: int)
    requires PipesInv(ps, birdX)
    requires 0 <= randomHeight <= SCREEN_HEIGHT - GAP_SIZE
    ensures PipesInv(Spawned(ps, randomHeight), birdX)
    ensures |Spawned(ps, randomHeight)| >= |ps|
    ensures |ps| >= 1 && ps[0].upper.Right() < 0 ==> |Spawned(ps, randomHeight)| >= 2
  {
    var sp := Spawned(ps, randomHeight);
    if |sp| > |ps| {
      assert sp == ps + [NewPipe(SCREEN_WIDTH, randomHeight)];
      forall i, j | 0 <= i < j < |sp|
        ensures sp[i].upper.x < sp[j].upper.x
      {
        if j == |ps| && i < |ps| - 1 {
          assert sp[i].upper.x < ps[|ps| - 1].upper.x;
        }
      }
    }
  }

  /** Removing the oldest pipe keeps the pipe invariant. */
  lemma DespawnedKeepsPipesInv(ps: seq<PipeState>, birdX: int)
    requires PipesInv(ps, birdX)
    ensures PipesInv(Despawned(ps), birdX)
  {
    if |ps| > 0 && ps[0].upper.Right() < 0 {
      var d := ps[1..];
      forall i, j | 0 <= i < j < |d|
        ensures d[i].upper.x < d[j].upper.x
      {
        assert d[i] == ps[i + 1] && d[j] == ps[j + 1];
      }
    }
  }

  /** Every tick keeps the invariant, whatever the random height of a spawned pipe. */
  lemma StepPreservesInv(e: EnvState, randomHeight: int)
    requires Inv(e)
    requires 0 <= randomHeight <= SCREEN_HEIGHT - GAP_SIZE
    ensures Inv(Step(e, randomHeight).next)
  {
    if e.score < SCORE_CAP {
      var box := Fall(e.bird).rect;
      var s := Swept(e.pipes, box);
      SweptKeepsPipesInv(e.pipes, box);
      SpawnedKeepsPipesInv(s, randomHeight, box.x);
      DespawnedKeepsPipesInv(Spawned(s, randomHeight), box.x);
    }
  }

  // ------------------------------------------------------ tick properties

  /** A tick below the cap, spelled out for the sweep's two outcomes. */
  lemma StepBelowCap(e: EnvState, randomHeight: int)
    requires e.score < SCORE_CAP
    ensures var bird := Fall(e.bird); var c := FirstCollision(e.pipes, bird.rect);
      var swept := Swept(e.pipes, bird.rect); var score := e.score + Gain(e.pipes[..c], bird.rect);
      Step(e, randomHeight) ==
        if c < |e.pipes| then StepResult(EnvState(bird, swept, score), true)
        else StepResult(EnvState(bird, Despawned(Spawned(swept, randomHeight)), score), OutOfBounds(bird))
  {
  }

  /** The first early exit: at the score cap a tick returns True and changes nothing. */
  lemma StepAtScoreCap(e: EnvState, randomHeight: int)
    requires e.score >= SCORE_CAP
    ensures Step(e, randomHeight) == StepResult(e, true)
  {
  }

  /**
    The second early exit: when a pipe collides, the tick ends there.
    The colliding pipe has been scrolled but not scored, every later
    pipe is untouched, no pipe is added or removed, and the tick
    reports game over.
  */
  lemma StepStopsAtCollision(e: EnvState, randomHeight: int)
    requires e.score < SCORE_CAP
    requires FirstCollision(e.pipes, Fall(e.bird).rect) < |e.pipes|
    ensures var r := Step(e, randomHeight); var c := FirstCollision(e.pipes, Fall(e.bird).rect);
      && r.gameOver
      && |r.next.pipes| == |e.pipes|
      && r.next.pipes[c] == Moved(e.pipes[c])
      && r.next.pipes[c].passed == e.pipes[c].passed
      && (forall k :: c < k < |e.pipes| ==> r.next.pipes[k] == e.pipes[k])
  {
  }

  /** The sweep flags a pipe exactly when it scores; these are the only flips. */
  lemma {:induction false} GainCountsFlips(ps: seq<PipeState>, box: Rect, m: nat)
    requires m <= |ps|
    ensures var c := FirstCollision(ps, box);
      Flips(ps[..m], Swept(ps, box)[..m]) == Gain(ps[..if m < c then m else c], box)
  {
    var c := FirstCollision(ps, box);
    var s := Swept(ps, box);
    if m > 0 {
      GainCountsFlips(ps, box, m - 1);
      assert ps[..m][..m - 1] == ps[..m - 1];
      assert s[..m][..m - 1] == s[..m - 1];
      SweptAt(ps, box, m - 1);
      if m <= c {
        assert ps[..m][..m - 1] == ps[..m - 1];
      } else {
        assert !(!ps[m - 1].passed && s[m - 1].passed);
      }
    }
  }

  /**
    Scoring: the score never decreases, and it increases by exactly the
    number of `passed` flags the sweep turned from false to true. A flag
    never goes back to false, and one that was turned on belongs to a
    pipe whose right edge is left of the bird and whose upper rectangle
    does not overlap it.
  */
  lemma StepScore(e: EnvState, randomHeight: int)
    requires e.score < SCORE_CAP
    ensures var r := Step(e, randomHeight);
      var box := Fall(e.bird).rect; var s := Swept(e.pipes, box);
      && r.next.score >= e.score
      && r.next.score == e.score + Flips(e.pipes, s)
      && (forall k :: 0 <= k < |e.pipes| && e.pipes[k].passed ==> s[k].passed)
      && (forall k :: 0 <= k < |e.pipes| && !e.pipes[k].passed && s[k].passed ==>
            s[k].upper.Right() < box.Left() && !Overlaps(s[k].upper, box))
  {
    var box := Fall(e.bird).rect;
    GainCountsFlips(e.pipes, box, |e.pipes|);
    assert e.pipes[..|e.pipes|] == e.pipes;
    assert Swept(e.pipes, box)[..|e.pipes|] == Swept(e.pipes, box);
    forall k | 0 <= k < |e.pipes|
      ensures e.pipes[k].passed ==> Swept(e.pipes, box)[k].passed
    {
      SweptAt(e.pipes, box, k);
    }
  }

  /**
    Spawn and despawn on a tick without collision: the swept pipes keep
    their order, at most one pipe is removed, only the oldest and only
    when its right edge is left of 0, and at most one is added, at the
    right edge of the screen and only when the newest pipe's right edge
    is left of SPAWN_EDGE.
  */
  lemma StepBookkeeping(e: EnvState, randomHeight: int)
    requires e.score < SCORE_CAP
    requires FirstCollision(e.pipes, Fall(e.bird).rect) == |e.pipes|
    ensures var r := Step(e, randomHeight); var s := Swept(e.pipes, Fall(e.bird).rect);
      var added := |s| > 0 && s[|s| - 1].upper.Right() < SPAWN_EDGE;
      var removed := |s| > 0 && s[0].upper.Right() < 0;
      && r.next.pipes == (if removed then s[1..] else s) +
                         (if added then [NewPipe(SCREEN_WIDTH, randomHeight)] else [])
      && |e.pipes| - 1 <= |r.next.pipes| <= |e.pipes| + 1
  {
  }

  /**
    When the episode ends: at the cap, on a collision, or when the bird
    has left the screen (strictly above row 0 or below SCREEN_HEIGHT).
  */
  lemma StepGameOver(e: EnvState, randomHeight: int)
    ensures Step(e, randomHeight).gameOver <==>
      e.score >= SCORE_CAP ||
      FirstCollision(e.pipes, Fall(e.bird).rect) < |e.pipes| ||
      Fall(e.bird).rect.y > SCREEN_HEIGHT || Fall(e.bird).rect.y < 0
    ensures e.score < SCORE_CAP ==> Step(e, randomHeight).next.bird == Fall(e.bird)
  {
  }

  /** The sweep runs to the end exactly when no pipe, once scrolled, overlaps the box. */
  lemma SweepCompletes(ps: seq<PipeState>, box: Rect)
    ensures FirstCollision(ps, box) == |ps| <==> forall k :: 0 <= k < |ps| ==> !Collides(Moved(ps[k]), box)
  {
    FirstCollisionIsFirst(ps, box);
  }

  // ------------------------------------------------------ observation

  predicate HasUnpassed(ps: seq<PipeState>) {
    exists k :: 0 <= k < |ps| && !ps[k].passed
  }

  /** Index of the first pipe, in FIFO order, that has not been passed. */
  function FirstUnpassed(ps: seq<PipeState>): (k: nat)
    requires HasUnpassed(ps)
    ensures k < |ps| && !ps[k].passed
    ensures forall j :: 0 <= j < k ==> ps[j].passed
  {
    if !ps[0].passed then 0
    else
      assert HasUnpassed(ps[1..]) by {
        var k :| 0 <= k < |ps| && !ps[k].passed;
        assert ps[1..][k - 1] == ps[k];
      }
      1 + FirstUnpassed(ps[1..])
  }

  /**
    `get_state`: the bird's y, the bottom-left corner of the nearest
    unpassed pipe's upper rectangle and the top-left corner of its lower one.
  */
  function Observation(e: EnvState): seq<int>
    requires HasUnpassed(e.pipes)
  {
    var p := e.pipes[FirstUnpassed(e.pipes)];
    [e.bird.rect.y, p.upper.Left(), p.upper.Bottom(), p.lower.Left(), p.lower.Top()]
  }

  /**
    What a controller sees in a reachable state: five numbers, the two
    corners share their column, and they are exactly GAP_SIZE apart
    vertically, the gap lying within the screen.
  */
  lemma ObservationShowsGap(e: EnvState)
    requires Inv(e) && HasUnpassed(e.pipes)
    ensures var obs := Observation(e);
      && |obs| == 5
      && obs[0] == e.bird.rect.y
      && obs[1] == obs[3]
      && obs[4] == obs[2] + GAP_SIZE
      && 0 <= obs[2] && obs[4] <= SCREEN_HEIGHT
  {
  }

  /**
    After a tick that does not end the episode the newest pipe has not
    been passed (its right edge is at least SPAWN_EDGE, far right of the
    bird), so the observation the controller asks for next is defined.
  */
  lemma StepLeavesUnpassedPipe(e: EnvState, randomHeight: int)
    requires Inv(e)
    requires 0 <= randomHeight <= SCREEN_HEIGHT - GAP_SIZE
    ensures var r := Step(e, randomHeight);
      !r.gameOver ==>
        && |r.next.pipes| >= 1
        && r.next.pipes[|r.next.pipes| - 1].upper.Right() >= SPAWN_EDGE
        && !r.next.pipes[|r.next.pipes| - 1].passed
        && HasUnpassed(r.next.pipes)
  {
    var box := Fall(e.bird).rect;
    if e.score < SCORE_CAP && FirstCollision(e.pipes, box) == |e.pipes| {
      SweptKeepsPipesInv(e.pipes, box);
      var d := Despawned(Spawned(Swept(e.pipes, box), randomHeight));
      BookkeepingKeepsNewest(Swept(e.pipes, box), randomHeight, box.x);
      StepBelowCap(e, randomHeight);
      assert Step(e, randomHeight).next.pipes == d;
      assert !d[|d| - 1].passed;
    }
  }

  /**
    After the spawn and despawn of a tick the newest pipe is at least
    SPAWN_EDGE from the left edge (so it is never the one removed) and,
    lying right of the bird, has not been passed.
  */
  lemma BookkeepingKeepsNewest(ps: seq<PipeState>, randomHeight: int, birdX: int)
    requires PipesInv(ps, birdX) && |ps| >= 1 && birdX <= SPAWN_EDGE
    requires 0 <= randomHeight <= SCREEN_HEIGHT - GAP_SIZE
    ensures var d := Despawned(Spawned(ps, randomHeight));
      && |d| >= 1
      && d[|d| - 1].upper.Right() >= SPAWN_EDGE
      && !d[|d| - 1].passed
  {
    var sp := Spawned(ps, randomHeight);
    SpawnedKeepsPipesInv(ps, randomHeight, birdX);
    var last := sp[|sp| - 1];
    assert last.upper.Right() >= SPAWN_EDGE;
    assert !last.passed;
    if |sp| > 0 && sp[0].upper.Right() < 0 {
      assert |sp| >= 2;
      assert sp[1..][|sp| - 2] == last;
    }
  }

  /** The first observation of an episode is defined too. */
  lemma InitialHasUnpassed(randomHeight: int)
    ensures HasUnpassed(Initial(randomHeight).pipes)
  {
    assert !Initial(randomHeight).pipes[0].passed;
  }

  // ------------------------------------------------------ an episode

  /** What the controller does on one tick: the height the spawn would draw and the network's output. */
  datatype Tick = Tick(randomHeight: int, output: real)

  /**
    The evaluation loop: tick, and while the episode is not over let the
    controller act and tick again. The controller's outputs and the
    random heights are given up front; when they run out before the
    episode ends the result says so with gameOver false.
  */
  function Run(e: EnvState, ticks: seq<Tick>): StepResult
    decreases |ticks|
  {
    if ticks == [] then StepResult(e, false)
    else
      var r := Step(e, ticks[0].randomHeight);
      if r.gameOver then r else Run(Act(r.next, ticks[0].output), ticks[1..])
  }

  predicate HeightsInRange(ticks: seq<Tick>) {
    forall i :: 0 <= i < |ticks| ==> 0 <= ticks[i].randomHeight <= SCREEN_HEIGHT - GAP_SIZE
  }

  /**
    Over a whole episode the invariant holds throughout and the score,
    the controller's fitness, never goes down.
  */
  lemma {:induction false} RunKeepsInvAndScore(e: EnvState, ticks: seq<Tick>)
    requires Inv(e) && HeightsInRange(ticks)
    ensures Inv(Run(e, ticks).next)
    ensures Run(e, ticks).next.score >= e.score
    decreases |ticks|
  {
    if ticks != [] {
      var r := Step(e, ticks[0].randomHeight);
      StepPreservesInv(e, ticks[0].randomHeight);
      if e.score < SCORE_CAP {
        StepScore(e, ticks[0].randomHeight);
      }
      if !r.gameOver {
        assert HeightsInRange(ticks[1..]) by {
          forall i | 0 <= i < |ticks[1..]|
            ensures 0 <= ticks[1..][i].randomHeight <= SCREEN_HEIGHT - GAP_SIZE
          {
            assert ticks[1..][i] == ticks[i + 1];
          }
        }
        RunKeepsInvAndScore(Act(r.next, ticks[0].output), ticks[1..]);
      }
    }
  }

  /**
    Every `get_state` call of the evaluation loop finds a pipe: after
    each tick that does not end the episode there is an unpassed pipe.
  */
  predicate ObservableThroughout(e: EnvState, ticks: seq<Tick>)
    decreases |ticks|
  {
    ticks == [] ||
    var r := Step(e, ticks[0].randomHeight);
    r.gameOver || (HasUnpassed(r.next.pipes) && ObservableThroughout(Act(r.next, ticks[0].output), ticks[1..]))
  }

  /** From any reachable state the evaluation loop never asks for an observation that does not exist. */
  lemma {:induction false} RunNeverLacksObservation(e: EnvState, ticks: seq<Tick>)
    requires Inv(e) && HeightsInRange(ticks)
    ensures ObservableThroughout(e, ticks)
    decreases |ticks|
  {
    if ticks != [] {
      var r := Step(e, ticks[0].randomHeight);
      StepPreservesInv(e, ticks[0].randomHeight);
      StepLeavesUnpassedPipe(e, ticks[0].randomHeight);
      if !r.gameOver {
        assert HeightsInRange(ticks[1..]) by {
          forall i | 0 <= i < |ticks[1..]|
            ensures 0 <= ticks[1..][i].randomHeight <= SCREEN_HEIGHT - GAP_SIZE
          {
            assert ticks[1..][i] == ticks[i + 1];
          }
        }
        RunNeverLacksObservation(Act(r.next, ticks[0].output), ticks[1..]);
      }
    }
  }
}
