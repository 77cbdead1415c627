/**
  The state of one Flappy Floes session: the bird, the pipe field with its
  queue of pipes, the score, the (unused) game speed and the start flag.

  Numbers are Dafny `real`s. The game keeps them in JavaScript doubles; the
  rounding of those doubles is not modelled.
 */
module GameState {

  /** One pipe pair: `x` is its left edge, `y` the top of its gap. */
  datatype Pipe = Pipe(x: real, y: real)

  /** The bird. `x`, `radius`, `gravity` and `jump` are constants of the session. */
  datatype Bird = Bird(x: real, y: real, radius: real, gravity: real, velocity: real, jump: real)

  /** The pipe constants together with the queue of live pipes (oldest first)
      and the frame counter that paces spawning. */
  datatype PipeField = PipeField(
    width: real,
    gap: real,
    speed: real,
    pipes: seq<Pipe>,
    spawnRate: int,
    spawnCounter: int)

  /** The drawing surface; only its size matters to the simulation. */
  datatype Canvas = Canvas(width: real, height: real)

  /** A whole session. `terminated` stands for a requested page reload: once
      set it stays set, and the rest of the frame still runs. */
  datatype Game = Game(
    canvas: Canvas,
    bird: Bird,
    pipe: PipeField,
    score: nat,
    gameSpeed: real,
    started: bool,
    terminated: bool)

  /** The session the page builds when it loads (or reloads). */
  function NewGame(canvas: Canvas): (g: Game)
    ensures !g.started && !g.terminated
    ensures g.score == 0 && g.pipe.pipes == [] && g.pipe.spawnCounter == 0
    ensures g.bird.y == canvas.height / 2.0 && g.bird.velocity == 0.0
    ensures g.canvas == canvas
  {
    Game(
      canvas,
      Bird(50.0, canvas.height / 2.0, 20.0, 0.1, 0.0, -3.0),
      PipeField(80.0, 150.0, 2.0, [], 180, 0),
      0,
      2.0,
      false,
      false)
  }

  /** The gap of `p` lies wholly inside the canvas. */
  predicate GapInCanvas(p: Pipe, pf: PipeField, canvas: Canvas)
  {
    pf.gap <= p.y <= canvas.height - pf.gap
  }

  /** The invariant a running session keeps: a positive spawn cadence, a
      counter inside it, a canvas tall enough for two gaps, and every queued
      pipe's gap inside the canvas. */
  predicate Valid(g: Game)
  {
    && g.pipe.spawnRate > 0
    && 0 <= g.pipe.spawnCounter < g.pipe.spawnRate
    && g.canvas.height >= 2.0 * g.pipe.gap
    && forall k :: 0 <= k < |g.pipe.pipes| ==> GapInCanvas(g.pipe.pipes[k], g.pipe, g.canvas)
  }

  /** A freshly loaded session is valid whenever the canvas can hold two gaps. */
  lemma NewGameValid(canvas: Canvas)
    requires canvas.height >= 300.0
    ensures Valid(NewGame(canvas))
  {
  }
}
