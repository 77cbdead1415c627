/**
  The input handlers: a flap, the key-down handler and the canvas click
  handler. Each is a pure function from the session to the session.
 */
module Input {
  import opened GameState

  /** Flapping first zeroes the velocity and then adds the jump impulse, so
      the result never depends on the velocity the bird had before. */
  function Flap(b: Bird): (r: Bird)
    ensures r.velocity == b.jump
    ensures r.(velocity := b.velocity) == b
  {
    var reset := b.(velocity := 0.0);
    reset.(velocity := reset.velocity + b.jump)
  }

  /** Repeated flaps do not accumulate. */
  lemma FlapIdempotent(b: Bird)
    ensures Flap(Flap(b)) == Flap(b)
  {
  }

  /** Two birds that differ only in velocity are the same bird after a flap. */
  lemma FlapForgetsVelocity(b: Bird, v: real)
    ensures Flap(b.(velocity := v)) == Flap(b)
  {
  }

  /** Is `code` one of the keys that make the bird flap? */
  predicate IsFlapKey(code: string)
  {
    code == "Space" || code == "ArrowUp"
  }

  /** The key-down handler: a flap key starts the game (if needed) and flaps;
      any other key does nothing. */
  function KeyDown(g: Game, code: string): (r: Game)
    ensures IsFlapKey(code) ==> r.started && r.bird.velocity == g.bird.jump
    ensures IsFlapKey(code) ==> r.(started := g.started, bird := g.bird) == g
    ensures IsFlapKey(code) ==> r.bird.(velocity := g.bird.velocity) == g.bird
    ensures !IsFlapKey(code) ==> r == g
  {
    if IsFlapKey(code) then
      var g1 := if !g.started then g.(started := true) else g;
      g1.(bird := Flap(g1.bird))
    else
      g
  }

  /** The click handler: a click before the game starts starts it and flaps;
      a click during the game is ignored. */
  function Click(g: Game): (r: Game)
    ensures g.started ==> r == g
    ensures !g.started ==> r.started && r.bird.velocity == g.bird.jump
    ensures !g.started ==> r.(started := false, bird := g.bird) == g
    ensures !g.started ==> r.bird.(velocity := g.bird.velocity) == g.bird
  {
    if !g.started then
      var g1 := g.(started := true);
      g1.(bird := Flap(g1.bird))
    else
      g
  }

  /** A click flaps exactly when the game had not started, while a flap key
      always flaps: the two handlers agree on a session that is not running. */
  lemma ClickAgreesWithKeyBeforeStart(g: Game)
    requires !g.started
    ensures Click(g) == KeyDown(g, "Space") == KeyDown(g, "ArrowUp")
  {
  }

  /** The handlers touch only the start flag and the bird's velocity: the
      session invariant, the pipes, the score, the game speed, the canvas, the
      bird's x and a requested game over all survive any input between
      frames. */
  lemma HandlersKeepSession(g: Game, code: string)
    ensures Valid(g) ==> Valid(KeyDown(g, code)) && Valid(Click(g))
    ensures KeyDown(g, code).pipe == g.pipe && Click(g).pipe == g.pipe
    ensures KeyDown(g, code).score == g.score && Click(g).score == g.score
    ensures KeyDown(g, code).gameSpeed == g.gameSpeed && Click(g).gameSpeed == g.gameSpeed
    ensures KeyDown(g, code).canvas == g.canvas && Click(g).canvas == g.canvas
    ensures KeyDown(g, code).bird.x == g.bird.x && Click(g).bird.x == g.bird.x
    ensures KeyDown(g, code).terminated == g.terminated && Click(g).terminated == g.terminated
  {
  }
}
