/**
  One frame of the game: the update step (gravity, the floor check, spawning,
  the pipe loop, the speed counter), the start gate in front of it, runs of
  many frames, and the reload that follows a game over.
 */
module Engine {
  import opened GameState
  import opened Spawner
  import opened Collision
  import opened PipeSweep
  import opened Input

  /** Explicit Euler step: gravity is added to the velocity first, then the
      new velocity to the height. */
  function Fall(b: Bird): Bird
  {
    var v := b.velocity + b.gravity;
    b.(velocity := v, y := b.y + v)
  }

  /** The bird's bottom edge is below the canvas. There is no ceiling test. */
  predicate FloorBreached(b: Bird, canvas: Canvas)
  {
    b.y + b.radius > canvas.height
  }

  /** The queue the pipe loop walks: last frame's queue after the spawn step. */
  function Spawned(g: Game, r: real): PipeField
    requires 0.0 <= r < 1.0
  {
    SpawnTick(g.pipe, g.canvas, r)
  }

  /** The update step. A game over (floor or pipe) only sets `terminated`;
      the rest of the step still runs, as the reload it stands for does not
      stop the step either. Only the floor check clears `started`. */
  function Update(g: Game, r: real): (g': Game)
    requires 0.0 <= r < 1.0
    ensures g'.bird.velocity == g.bird.velocity + g.bird.gravity
    ensures g'.bird.y == g.bird.y + g'.bird.velocity
    ensures g'.bird.(y := g.bird.y, velocity := g.bird.velocity) == g.bird
    ensures g'.canvas == g.canvas
    ensures g'.pipe.(pipes := g.pipe.pipes, spawnCounter := g.pipe.spawnCounter) == g.pipe
    ensures g'.started <==> g.started && !FloorBreached(g'.bird, g.canvas)
    ensures FloorBreached(g'.bird, g.canvas) ==> g'.terminated
    ensures g.terminated ==> g'.terminated
    ensures g'.pipe.spawnCounter == if SpawnDue(g.pipe) then 0 else g.pipe.spawnCounter + 1
    ensures g.pipe.spawnRate > 0 && 0 <= g.pipe.spawnCounter < g.pipe.spawnRate
            ==> 0 <= g'.pipe.spawnCounter < g'.pipe.spawnRate
    ensures g'.score >= g.score
    ensures g'.score + |g'.pipe.pipes| == g.score + |g.pipe.pipes| + (if SpawnDue(g.pipe) then 1 else 0)
    ensures g'.gameSpeed > g.gameSpeed
  {
    var bird := Fall(g.bird);
    var floor := FloorBreached(bird, g.canvas);
    var started := if floor then false else g.started;
    var pf := Spawned(g, r);
    var sw := Sweep(pf.pipes, 0, bird, pf.width, pf.gap, pf.speed);
    Game(g.canvas, bird, pf.(pipes := sw.pipes), g.score + sw.removed,
         g.gameSpeed + 0.01, started, g.terminated || floor || sw.hit)
  }

  /** On a frame where no queued pipe crosses the left edge once moved, and
      a pipe spawned this frame would not either, no pipe of the walked queue
      crosses. */
  lemma SpawnedWithoutCrossing(g: Game, r: real)
    requires 0.0 <= r < 1.0
    requires forall k :: 0 <= k < |g.pipe.pipes| ==> !Crossed(Advance(g.pipe.pipes[k], g.pipe.speed), g.pipe.width)
    requires g.canvas.width - g.pipe.speed + g.pipe.width > 0.0
    ensures var ps := Spawned(g, r);
            forall j :: 0 <= j < |ps.pipes| ==> !Crossed(Advance(ps.pipes[j], ps.speed), ps.width)
    ensures var ps := Spawned(g, r);
            forall k :: 0 <= k < |g.pipe.pipes| ==> ps.pipes[k] == g.pipe.pipes[k]
  {
    var ps := Spawned(g, r);
    var n := |g.pipe.pipes|;
    forall j | 0 <= j < |ps.pipes|
      ensures !Crossed(Advance(ps.pipes[j], ps.speed), ps.width)
      ensures j < n ==> ps.pipes[j] == g.pipe.pipes[j]
    {
      if j < n {
        assert ps.pipes[j] == ps.pipes[..n][j];
      }
    }
  }

  /** A pipe collision ends the game. A hit on the first pipe of the queue,
      once moved, always terminates the step; on a frame where no pipe
      crosses the left edge every queued pipe is tested, so a hit on any of
      them terminates it. Conversely a step that neither breaches the floor
      nor meets a pipe (including one spawned this frame, at the right edge)
      leaves a running game running. */
  lemma UpdateTermination(g: Game, r: real)
    requires 0.0 <= r < 1.0
    ensures var ps := Spawned(g, r);
            |ps.pipes| > 0 && Collides(Fall(g.bird), Advance(ps.pipes[0], ps.speed), ps.width, ps.gap)
            ==> Update(g, r).terminated
    ensures (&& (forall k :: 0 <= k < |g.pipe.pipes| ==>
                   !Crossed(Advance(g.pipe.pipes[k], g.pipe.speed), g.pipe.width))
             && g.canvas.width - g.pipe.speed + g.pipe.width > 0.0
             && (exists k :: 0 <= k < |g.pipe.pipes| &&
                   Collides(Fall(g.bird), Advance(g.pipe.pipes[k], g.pipe.speed), g.pipe.width, g.pipe.gap)))
            ==> Update(g, r).terminated
    ensures (&& !g.terminated
             && !FloorBreached(Fall(g.bird), g.canvas)
             && (forall k :: 0 <= k < |g.pipe.pipes| ==>
                   !Collides(Fall(g.bird), Advance(g.pipe.pipes[k], g.pipe.speed), g.pipe.width, g.pipe.gap))
             && g.bird.x + g.bird.radius <= g.canvas.width - g.pipe.speed)
            ==> !Update(g, r).terminated
  {
    var ps := Spawned(g, r);
    var bird := Fall(g.bird);
    SweepHit(ps.pipes, 0, bird, ps.width, ps.gap, ps.speed);
    if Sweep(ps.pipes, 0, bird, ps.width, ps.gap, ps.speed).hit
       && forall k :: 0 <= k < |g.pipe.pipes| ==>
            !Collides(bird, Advance(g.pipe.pipes[k], g.pipe.speed), g.pipe.width, g.pipe.gap)
    {
      var j :| 0 <= j < |ps.pipes| && Collides(bird, Advance(ps.pipes[j], ps.speed), ps.width, ps.gap);
      if j >= |g.pipe.pipes| {
        assert ps.pipes[j].x == g.canvas.width;
      }
    }
    if && (forall k :: 0 <= k < |g.pipe.pipes| ==>
             !Crossed(Advance(g.pipe.pipes[k], g.pipe.speed), g.pipe.width))
       && g.canvas.width - g.pipe.speed + g.pipe.width > 0.0
       && (exists k :: 0 <= k < |g.pipe.pipes| &&
             Collides(bird, Advance(g.pipe.pipes[k], g.pipe.speed), g.pipe.width, g.pipe.gap))
    {
      SpawnedWithoutCrossing(g, r);
      SweepWithoutCrossing(ps.pipes, 0, bird, ps.width, ps.gap, ps.speed);
      var k :| 0 <= k < |g.pipe.pipes| &&
               Collides(bird, Advance(g.pipe.pipes[k], g.pipe.speed), g.pipe.width, g.pipe.gap);
      assert Collides(bird, Advance(ps.pipes[k], ps.speed), ps.width, ps.gap);
    }
  }

  /** Every pipe moves by exactly `speed` when none of them crosses the left
      edge: the queue after the step is the old queue moved, followed (on a
      spawn frame) by the new pipe, which moves in the frame it appears. The
      score is unchanged. */
  lemma UpdateMovesEveryPipe(g: Game, r: real)
    requires 0.0 <= r < 1.0
    requires forall k :: 0 <= k < |g.pipe.pipes| ==> !Crossed(Advance(g.pipe.pipes[k], g.pipe.speed), g.pipe.width)
    requires g.canvas.width - g.pipe.speed + g.pipe.width > 0.0
    ensures Update(g, r).score == g.score
    ensures |Update(g, r).pipe.pipes| >= |g.pipe.pipes|
    ensures var g' := Update(g, r);
            g'.pipe.pipes[..|g.pipe.pipes|] == AdvanceAll(g.pipe.pipes, g.pipe.speed)
    ensures SpawnDue(g.pipe) ==> |Update(g, r).pipe.pipes| == |g.pipe.pipes| + 1
    ensures SpawnDue(g.pipe) ==> Update(g, r).pipe.pipes[|g.pipe.pipes|].x == g.canvas.width - g.pipe.speed
    ensures !SpawnDue(g.pipe) ==> Update(g, r).pipe.pipes == AdvanceAll(g.pipe.pipes, g.pipe.speed)
  {
    var ps := Spawned(g, r);
    var n := |g.pipe.pipes|;
    SpawnedWithoutCrossing(g, r);
    SweepWithoutCrossing(ps.pipes, 0, Fall(g.bird), ps.width, ps.gap, ps.speed);
    var out := AdvanceAll(ps.pipes, ps.speed);
    assert ps.pipes[..0] + out == out;
    assert ps.pipes[0..] == ps.pipes;
    forall j | 0 <= j < n
      ensures out[..n][j] == AdvanceAll(g.pipe.pipes, g.pipe.speed)[j]
    {
      assert ps.pipes[j] == g.pipe.pipes[j];
    }
  }

  /** The update step keeps the session invariant: the spawn counter stays
      inside the cadence and every queued gap stays inside the canvas. */
  lemma UpdateKeepsValid(g: Game, r: real)
    requires 0.0 <= r < 1.0
    requires Valid(g)
    ensures Valid(Update(g, r))
  {
    var ps := Spawned(g, r);
    var bird := Fall(g.bird);
    SpawnTickKeepsGaps(g.pipe, g.canvas, r);
    SweepTracks(ps.pipes, 0, bird, ps.width, ps.gap, ps.speed);
    var sw := Sweep(ps.pipes, 0, bird, ps.width, ps.gap, ps.speed);
    var g' := Update(g, r);
    assert g'.pipe.pipes == sw.pipes;
    forall k | 0 <= k < |sw.pipes|
      ensures GapInCanvas(sw.pipes[k], g'.pipe, g'.canvas)
    {
      assert sw.pipes[k].y == ps.pipes[k + sw.removed].y;
      assert GapInCanvas(ps.pipes[k + sw.removed], ps, g.canvas);
    }
  }

  /** A flap key followed by an update step leaves the velocity at jump plus
      gravity, and the whole session the same, whatever the bird's velocity
      was before the key. */
  lemma FlapThenUpdate(g: Game, r: real, v: real)
    requires 0.0 <= r < 1.0
    ensures Update(KeyDown(g, "Space"), r).bird.velocity == g.bird.jump + g.bird.gravity
    ensures Update(KeyDown(g.(bird := g.bird.(velocity := v)), "Space"), r) == Update(KeyDown(g, "Space"), r)
  {
    FlapForgetsVelocity(g.bird, v);
  }

  /** Without a flap, a bird whose velocity plus gravity is not upward does
      not rise during the step. */
  lemma FallsWithoutLift(g: Game, r: real)
    requires 0.0 <= r < 1.0
    requires g.bird.velocity + g.bird.gravity >= 0.0
    ensures Update(g, r).bird.y >= g.bird.y
  {
  }

  /** One frame: the update step runs only once the game has started. */
  function Frame(g: Game, r: real): (g': Game)
    requires 0.0 <= r < 1.0
    ensures !g.started ==> g' == g
    ensures g.started ==> g'.gameSpeed > g.gameSpeed
    ensures g.started ==> g'.bird.velocity == g.bird.velocity + g.bird.gravity
  {
    if g.started then Update(g, r) else g
  }

  /** Every draw of the random source lies in `[0, 1)`. */
  predicate Draws(ds: seq<real>)
  {
    forall k :: 0 <= k < |ds| ==> 0.0 <= ds[k] < 1.0
  }

  /** Frames in succession, one random draw per frame. */
  function Run(g: Game, ds: seq<real>): Game
    requires Draws(ds)
    decreases |ds|
  {
    if |ds| == 0 then g else Run(Frame(g, ds[0]), ds[1..])
  }

  /** A game that has not started stays exactly as it is, however many
      frames pass. */
  lemma {:induction false} RunFrozen(g: Game, ds: seq<real>)
    requires Draws(ds)
    requires !g.started
    ensures Run(g, ds) == g
    decreases |ds|
  {
    if |ds| > 0 {
      RunFrozen(Frame(g, ds[0]), ds[1..]);
    }
  }

  /** Over any number of frames the session invariant holds, score and game
      speed never decrease, the bird never moves sideways, and a requested
      game over is never withdrawn. */
  lemma {:induction false} RunMonotone(g: Game, ds: seq<real>)
    requires Draws(ds)
    ensures Valid(g) ==> Valid(Run(g, ds))
    ensures Run(g, ds).score >= g.score
    ensures Run(g, ds).gameSpeed >= g.gameSpeed
    ensures Run(g, ds).bird.x == g.bird.x
    ensures Run(g, ds).canvas == g.canvas
    ensures g.terminated ==> Run(g, ds).terminated
    decreases |ds|
  {
    if |ds| > 0 {
      var g1 := Frame(g, ds[0]);
      if Valid(g) && g.started {
        UpdateKeepsValid(g, ds[0]);
      }
      RunMonotone(g1, ds[1..]);
    }
  }

  /** The reload a game over asks for: a fresh session on the same canvas. */
  function Reload(g: Game): Game
  {
    if g.terminated then NewGame(g.canvas) else g
  }

  /** A floor breach in a running game leads, after the reload, to a fresh
      session that has not started, with no pipes and no score. */
  lemma FloorBreachRestarts(g: Game, r: real)
    requires 0.0 <= r < 1.0
    requires g.started
    requires FloorBreached(Fall(g.bird), g.canvas)
    ensures var g' := Reload(Frame(g, r));
            !g'.started && !g'.terminated && g'.pipe.pipes == [] && g'.score == 0
  {
  }
}
