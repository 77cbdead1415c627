# Flappy Floes — a Dafny model of the frame simulation

Flappy Floes is a browser game. A bird falls under gravity, and a key press or
a click makes it flap upward. Pipe pairs scroll in from the right. The game
ends when the bird drops below the canvas or hits a pipe. This project models
the simulation in `script.js` as pure functions over one immutable session
record, and proves properties about them:

- the flap and the two input handlers (`flapBird`, `handleKeyDown`,
  `handleCanvasClick`);
- the start gate of `gameLoop`;
- pipe generation and the spawn counter (`generatePipe`);
- the update step (`update`): gravity, the floor check, spawning, the pipe
  loop with its removals and score, the collision test, the game-speed
  counter.

Modules:

- `GameState` (game_state.dfy): `Bird`, `Pipe`, `PipeField`, `Canvas` and
  `Game`, the session built at page load, and the invariant `Valid`.
- `Input` (input.dfy): flap, key-down and click handlers.
- `Collision` (collision.dfy): the bird/pipe test, its interval form and its
  exact boundaries.
- `Spawner` (spawner.dfy): gap placement, `GeneratePipe`, the spawn step.
- `PipeSweep` (pipe_sweep.dfy): the pipe loop as the recursive `Sweep`.
- `Engine` (engine.dfy): `Update`, `Frame`, multi-frame `Run`, `Reload`.

Modelling decisions:

- Numbers are `real`; score and the spawn counter are integers.
- `Math.random()` becomes a draw `r` with `0 <= r < 1`, passed to each frame.
- `location.reload()` becomes a sticky `terminated` flag. Reloading does not
  stop the running `update` call, so the rest of the step still runs in the
  model too. `Engine.Reload` stands for the reload that follows: it replaces
  a terminated session with `NewGame` on the same canvas.
- The loop's quirks are kept as written. `pipe.pipes.shift()` removes the head
  of the queue, not the pipe being visited, and the index is not moved back.
  So the pipe after a removal is not visited in that frame. The collision
  test still uses the moved pipe, even one that was just removed.
- Only the floor check clears `isGameStarted`. A pipe collision only asks for
  a reload. There is no ceiling check.

Behaviour of the code worth knowing, all kept in the model:

- A floor breach does not end `update`: spawning, the pipe loop and the speed
  counter still run in the same frame (script.js:89-124).
- A removal takes the head of the queue, whichever pipe crossed. The index
  is not moved back, so the pipe after the visited one is neither moved nor
  tested for collision that frame (script.js:102-121).
- The gap top `r*(height-2*gap)+gap` with `0 <= r < 1` lies in the half-open
  range `[gap, height-gap)` when `height > 2*gap` (script.js:74).
- A click starts the game and flaps only before the start; afterwards it does
  nothing. Space and ArrowUp always flap (script.js:36-50).
- Canvas y grows downward. Without a flap the bird does not rise
  (`bird.y` does not decrease) only while velocity plus gravity is not
  negative (`Engine.FallsWithoutLift`); after a flap it keeps rising for
  several frames as gravity eats the jump velocity (script.js:86-87).

## Model

| member | source | states |
|---|---|---|
| GameState.NewGame | script.js:5-30 | a loaded page starts not started and not terminated, with score 0, an empty pipe queue, counter 0, and the bird at half the canvas height with zero velocity |
| GameState.NewGameValid | script.js:16-25 | the initial session satisfies the invariant (positive cadence, counter in range, room for two gaps) on any canvas at least 300 high |
| Input.Flap | script.js:53-56 | after a flap the velocity equals the jump constant whatever it was before, and nothing else about the bird changes |
| Input.FlapIdempotent | script.js:53-56 | a second flap changes nothing: flaps do not accumulate |
| Input.FlapForgetsVelocity | script.js:53-56 | two birds that differ only in velocity are identical after a flap |
| Input.KeyDown | script.js:36-43 | Space or ArrowUp always leaves the game started with velocity equal to jump and nothing else changed; any other key leaves the session unchanged |
| Input.Click | script.js:45-50 | a click before the start starts the game and flaps, changing nothing else; a click during the game leaves the session unchanged |
| Input.HandlersKeepSession | script.js:36-56 | key and click handlers keep the session invariant, the pipes, the score, the game speed, the canvas, the bird's x and the terminated flag, so the multi-frame properties hold with input between frames |
| Input.ClickAgreesWithKeyBeforeStart | script.js:36-50 | before the start, a click, Space and ArrowUp all have the same effect |
| Collision.CollidesIff | script.js:113-117 | the literal test regrouped into interval terms: collision holds exactly when the bird's open horizontal extent meets the pipe's and the bird's closed vertical extent is not inside the gap |
| Collision.GapTangentIsSafe | script.js:116 | a bird inside the gap that touches its bottom or top edge exactly does not collide |
| Collision.LeavingGapCollides | script.js:113-117 | with horizontal overlap, going past the gap's bottom or top by any positive amount is a collision |
| Collision.EdgeContactIsSafe | script.js:114-115 | touching the pipe's left or right edge exactly is not a collision, at any height |
| Spawner.GapTopBounds | script.js:74 | for a draw in [0,1), the gap top lies in [gap, height-gap] when height >= 2*gap, strictly below height-gap when height > 2*gap, and in (height-gap, gap] on a shorter canvas |
| Spawner.GapTopOnto | script.js:74 | when height > 2*gap, each gap top in [gap, height-gap) comes from exactly one draw in [0,1) |
| Spawner.GeneratePipe | script.js:73-81 | one pipe is appended at the tail with x equal to the canvas width and, when the canvas is at least two gaps high, its gap inside the canvas; earlier pipes are kept; the counter resets to 0; the pipe constants are unchanged |
| Spawner.SpawnTick | script.js:96-99 | the counter is incremented; exactly when it reaches the spawn rate one pipe is appended at the canvas width and the counter resets to 0; otherwise the queue is unchanged; with a positive rate the counter stays in [0, rate) |
| Spawner.SpawnTickKeepsGaps | script.js:73-99 | after the spawn step every queued gap is still inside a canvas at least two gaps high |
| PipeSweep.Sweep | script.js:102-121 | the queue left behind plus the number of removals equals the queue's original length, so each removal shortens the queue by exactly one |
| PipeSweep.SweepTracks | script.js:102-110 | pipe j of the result is pipe j+removed of the input: only heads are removed, no gap top changes, pipes before the start index are untouched, and every other pipe moved by exactly speed or not at all (which ones move: `PipeSweep.SweepSkipsAtMostRemoved`) |
| PipeSweep.SweepSkipsAtMostRemoved | script.js:102-110 | with a non-zero speed, at most as many surviving pipes from the start index keep their x as there were removals: one skipped pipe per shift, every other visited pipe moves by exactly speed |
| PipeSweep.SweepHit | script.js:102-121 | the hit flag is set if the first visited pipe hits the bird after moving, and it is set only if some pipe from the start index on would hit the bird after moving |
| PipeSweep.SweepWithoutCrossing | script.js:102-117 | when no pipe crosses, the loop moves every pipe from the start index by exactly speed, removes nothing, and raises the hit flag exactly when one of those pipes, once moved, hits the bird |
| PipeSweep.HeadRemovalSkipsNext | script.js:102-117 | when only the head crosses, it is removed for one point and the second pipe is skipped, neither moved nor collision-tested, that frame; the head and the rest are tested and the rest move |
| PipeSweep.RemovalTakesHeadNotCrossedPipe | script.js:107-110 | when the second of two pipes crosses, the uncrossed head is the one removed, the crossed pipe stays, and one point is scored |
| PipeSweep.RemovedPipeStillCollides | script.js:102-120 | a pipe removed in this frame is still tested against the bird in the same frame |
| Engine.Update | script.js:84-125 | velocity gains gravity, then height gains the new velocity; the bird's x and constants never change; started is cleared exactly on a floor breach, which terminates; termination is sticky; the counter follows the spawn rule and stays in range; score never decreases; score plus queue length grows by exactly the pipes spawned; game speed increases |
| Engine.UpdateTermination | script.js:84-121 | a hit on the first queued pipe terminates the game; on a frame with no crossing a hit on any queued pipe terminates it; a running game with no floor breach, no hit on any queued pipe and a bird left of the spawn column stays running |
| Engine.UpdateMovesEveryPipe | script.js:95-105 | when no pipe crosses, every queued pipe moves by exactly speed; on a spawn frame the new pipe is appended at canvas width minus speed; the score is unchanged |
| Engine.UpdateKeepsValid | script.js:84-125 | the update step preserves the invariant: counter in [0, rate), a canvas at least two gaps high, every queued gap inside the canvas |
| Engine.FlapThenUpdate | script.js:84-87 | a flap key followed by an update leaves velocity equal to jump plus gravity, and gives the same session whatever the prior velocity |
| Engine.FallsWithoutLift | script.js:86-87 | with velocity plus gravity not negative, an update does not raise the bird |
| Engine.Frame | script.js:59-63 | a frame of a game that has not started changes nothing; a frame of a started game runs the update step |
| Engine.RunFrozen | script.js:59-70 | any number of frames leave a game that has not started exactly as it was |
| Engine.RunMonotone | script.js:84-125 | over any number of frames the invariant is kept, score and game speed never decrease, the bird's x and the canvas never change, and termination is never withdrawn |
| Engine.FloorBreachRestarts | script.js:89-93 | a floor breach in a running game, followed by the reload, gives a session that is not started, not terminated, with no pipes and score 0 |

## Left out

- Rendering (`render`, script.js:128-169) is a read-only projection of the state onto the canvas.
- DOM lookup and event-listener registration (script.js:2-3, 33-34) are host plumbing. A key event is modelled by its `event.code` string.
- `requestAnimationFrame` self-scheduling (script.js:69, 172) is replaced by `Engine.Run` over a finite sequence of frames.
- `location.reload()` as a real effect is replaced by the `terminated` flag and `Engine.Reload`.
- `Math.random()` is replaced by a draw passed to each frame.
- The unused fields `pipe.x` and `pipe.maxYPos` (script.js:17, 20) are not part of the model.
- JavaScript doubles are modelled as exact reals. With doubles, repeated `+ 0.1` and `+ 0.01` accumulate rounding.
- Engine.Update: states that game speed increases, not that it grows by exactly 0.01 per frame. Nothing reads the value.
- Input events arriving between frames are modelled one at a time, as calls to `Input.KeyDown` / `Input.Click` between frames; `Engine.Run` itself holds frames only, and `Input.HandlersKeepSession` carries its properties across the calls.
