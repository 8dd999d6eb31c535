# Flappy Bird environment — a verified model of the game core

This project models the deterministic game core of `main.py` in Dafny. The core is the environment a
NEAT controller is trained against:

- the `Bird`, which falls under gravity and flaps;
- the `Pipe`, two rectangles with a gap that scroll left;
- the `FlappyBirdEnvironment`, which owns one bird, a FIFO list of pipes and the score.

The environment resets the game, reports a five-number observation, applies the network's output
and advances the game by one tick (`update_game`).

The model has three layers:

- `geometry.dfy` (module `Geometry`): the part of pygame's `Rect` that is used. This covers the
  edges, `move_ip` as a shifted value and `colliderect` as a strict overlap.
- `physics.dfy` (module `Physics`) and `simulation.dfy` (module `Simulation`): the constants, the
  bird, a pipe and the whole environment as values. One tick of `update_game` is the total function
  `Step`; the evaluation loop of `eval_genomes` is `Run`. The properties of the game are proved
  about these functions.
- `game.dfy` (module `FlappyBird`): the three classes as the program keeps them. The fields are
  updated in place, the pipe list is a `seq<Pipe>` field that is reassigned, and the tick is a loop
  over the pipe objects with the same early `return` on a collision. Every method is proved against
  the value layer, for example `StepResult(View(), gameOver) == Step(old(View()), randomHeight)`.
  The invariant of the value layer is kept as `Valid()`.

The random split height of a new pipe (`random.randint(0, SCREEN_HEIGHT - GAP_SIZE)`) is a parameter
`randomHeight` that callers must supply from that range. The network's output is a parameter of
type `real`.

## Model

| member | source | states |
|---|---|---|
| Geometry.OverlapsSymmetric | main.py:56-57 | whether two rectangles collide does not depend on which one asks |
| Geometry.SeparatedDoNotOverlap | main.py:56-57 | rectangles that are side by side or one above the other (touching edges included) do not collide |
| Physics.FallTicksClosedForm | main.py:36-38 | after n ticks without a flap the velocity has grown by n·GRAVITY and the bird has moved down by n·v + (1+…+n)·GRAVITY in the same column |
| Physics.ThreeTicksFromRest | main.py:29-38 | a new bird at y = 300 has velocity 3 and y = 306 after three ticks |
| Physics.FlapThenFall | main.py:36-41 | a flap replaces any accumulated velocity: the next tick always leaves velocity -9 and moves the bird up 9 pixels |
| Physics.NewPipeShape | main.py:45-50 | a new pipe's upper rectangle covers rows [0, h) and its lower one covers [h+GAP_SIZE, SCREEN_HEIGHT) in the same column and width; both heights are non-negative; the pipe is not passed |
| Physics.MovedOnlyShifts | main.py:59-61 | a scroll moves both rectangles MOVEMENT_SPEED pixels left, keeps the flag and keeps a pipe well formed |
| Physics.MovedTicksShift | main.py:59-61 | after n scrolls a pipe has moved exactly n·MOVEMENT_SPEED pixels left and is otherwise unchanged |
| Physics.NewPipeLeavesScreen | main.py:59-61 | a pipe spawned at x = 800 reaches x = 0 after 400 ticks; its right edge is left of 0 (so it can be removed) exactly from tick 427 on |
| Physics.CollidesExactly | main.py:56-57 | a box beside the pipe's column or wholly inside its gap does not collide; a box reaching into the column and into either rectangle's rows does |
| Physics.ScoredOnlyFlips | main.py:100-103 | the scoring test changes only `passed`, never from true to false, and sets it exactly when the pipe is unpassed, its right edge is left of the bird and its upper rectangle does not overlap the bird |
| Simulation.InitialInv | main.py:68-77 | a new or reset game has the bird at rest at (400, 300) with size 20, one new pipe at the right edge and score 0, and satisfies the invariant |
| Simulation.InitialHasUnpassed | main.py:76-86 | the first observation of an episode exists |
| Simulation.FirstCollisionIsFirst | main.py:96-99 | the loop stops at the first pipe that collides after its scroll: no earlier pipe collides, and the one it stops at does |
| Simulation.SweepCompletes | main.py:96-99 | the loop runs to the end exactly when no scrolled pipe collides with the bird |
| Simulation.SweptKeepsPipesInv | main.py:96-103 | the loop keeps every pipe well formed, keeps the pipes ordered by column, and keeps every passed pipe wholly left of the bird |
| Simulation.SpawnedKeepsPipesInv | main.py:105-106 | appending a new pipe keeps the pipe invariant and never shrinks the list; when the head is about to be removed there are at least two pipes |
| Simulation.DespawnedKeepsPipesInv | main.py:108-109 | removing the head pipe keeps the pipe invariant |
| Simulation.BookkeepingKeepsNewest | main.py:105-109 | after the spawn and the removal the list is not empty, and its newest pipe is at least 641 pixels from the left edge and unpassed |
| Simulation.StepPreservesInv | main.py:92-114 | every tick keeps the invariant: the bird keeps its column and size, there is at least one pipe, pipes are well formed, ordered and passed only when left of the bird, and the score is non-negative |
| Simulation.StepAtScoreCap | main.py:93-94 | at score 9999 a tick changes nothing and ends the episode |
| Simulation.StepStopsAtCollision | main.py:96-99 | on a collision the tick ends: the colliding pipe is scrolled but not scored, later pipes are untouched, no pipe is added or removed, and the episode is over |
| Simulation.GainCountsFlips | main.py:100-103 | the points scored by the loop over any prefix equal the number of `passed` flags it turned on there |
| Simulation.StepScore | main.py:100-103 | the score never decreases and grows by exactly the number of pipes newly marked passed; flags are never cleared; a newly set flag belongs to a pipe left of the bird that does not overlap it |
| Simulation.StepBookkeeping | main.py:105-109 | a tick without a collision appends a new pipe at x = 800 exactly when the newest one's right edge is left of 641, and drops the oldest exactly when its right edge is left of 0, so the length changes by at most one |
| Simulation.StepGameOver | main.py:92-114 | a tick ends the episode if and only if the score is at the cap, a pipe collides, or the moved bird's y is above 600 or below 0; below the cap the bird always falls one tick |
| Simulation.StepLeavesUnpassedPipe | main.py:105-109 | after a tick that does not end the episode, the newest pipe is unpassed and at least 641 pixels from the left edge, so `get_state` finds a pipe |
| Simulation.FirstUnpassed | main.py:80-84 | `get_state`'s search returns the first pipe in list order that is not passed: it is unpassed and every earlier pipe is passed |
| Simulation.ObservationShowsGap | main.py:85-86 | the observation has five numbers: the bird's y, then the bottom-left corner of the upper rectangle and the top-left corner of the lower one, which share a column, are exactly GAP_SIZE apart and lie on the screen |
| Simulation.RunKeepsInvAndScore | main.py:124-132 | over a whole evaluation episode the invariant holds and the fitness (the final score) is at least the starting score |
| Simulation.RunNeverLacksObservation | main.py:127-131 | in the evaluation loop, every `get_state` call that follows a tick which did not end the game finds an unpassed pipe |
| FlappyBird.Bird.constructor | main.py:29-31 | a bird of the given size at the given y in column 400, at rest |
| FlappyBird.Bird.Update | main.py:36-38 | gravity is added to the velocity first, and then the box moves by the new velocity |
| FlappyBird.Bird.Flap | main.py:40-41 | the velocity becomes -10 whatever it was, and the box does not move |
| FlappyBird.Pipe.constructor | main.py:45-50 | the two rectangles around a gap of GAP_SIZE at the drawn height; not passed; well formed |
| FlappyBird.Pipe.Update | main.py:59-61 | both rectangles move MOVEMENT_SPEED pixels left and the flag is untouched |
| FlappyBird.FlappyBirdEnvironment.constructor | main.py:68-72 | a new bird and a single new pipe (fresh objects), score 0, the initial state, invariant established |
| FlappyBird.FlappyBirdEnvironment.InitializeGame | main.py:74-77 | the reset replaces the bird, the pipes and the score with the initial state, using fresh objects |
| FlappyBird.FlappyBirdEnvironment.GetState | main.py:79-86 | the loop with `break` returns the observation of the first unpassed pipe; its corners share a column and are GAP_SIZE apart |
| FlappyBird.FlappyBirdEnvironment.PerformAction | main.py:88-90 | an output at or above 0.5 flaps; any other output changes nothing; the invariant is kept |
| FlappyBird.FlappyBirdEnvironment.VisitPipe | main.py:97-103 | one iteration of the loop: scroll the pipe, report a collision, and otherwise mark and score the pipe when the bird has cleared it |
| FlappyBird.FlappyBirdEnvironment.SweepPipes | main.py:96-103 | the loop over the pipe objects leaves them as the value-level sweep says, adds the points of the pipes visited before a collision, and reports whether it stopped on one |
| FlappyBird.FlappyBirdEnvironment.SpawnAndDespawn | main.py:105-109 | the append and pop on the pipe list do what the value-level bookkeeping says; the only new pipe object is fresh and the list holds no object twice |
| FlappyBird.FlappyBirdEnvironment.UpdateGame | main.py:92-114 | one tick in place produces exactly the state and the game-over flag of `Step`, and keeps the invariant |

## Left out

- Drawing and display are not modelled because they have no effect on the game state. This covers `Bird.draw`, `Pipe.draw`, `display_score`, the pygame screen, the caption, the clock and `pygame.init`.
- `Pipe.__str__` is left out because it is only used for debugging output.
- The NEAT side is not part of this model: `eval_genomes`' network creation and fitness assignment, `get_winner_net`, `play_winner`, `pickle` and `replay.py`. The network's outputs are given to `Run` as a sequence, and the fitness is the score that `Run` returns.
- `random.randint` is not modelled. The drawn height is a parameter of `Pipe`'s constructor and of every tick, constrained to the same inclusive range.
- `spawn_timer` (from `pygame.time.get_ticks()`) and `spawn_rate` are left out because they are set but never read by the game logic.
- Pixel coordinates are unbounded integers. pygame keeps them as C ints, and its `colliderect` treats rectangles of zero width or height specially. The model uses the plain strict overlap test; the only zero-size rectangles that can occur are a pipe's upper rectangle when the drawn height is 0, or its lower rectangle when the drawn height is 480.
- Simulation.Run: models the `while not update_game()` loop for a finite, given sequence of ticks. When the ticks run out before the game ends, the result reports game over as false.
- FlappyBird.FlappyBirdEnvironment.GetState: requires that an unpassed pipe exists, instead of modelling the `None` attribute error the program would raise without one. Simulation.StepLeavesUnpassedPipe and Simulation.RunNeverLacksObservation show that this requirement holds at every call the evaluation loop makes.
