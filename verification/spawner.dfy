/**
  Pipe generation and the spawn counter. The call to `Math.random()` is
  replaced by the draw `r`, which callers supply from `[0, 1)`.
 */
module Spawner {
  import opened GameState

  /** The span the gap top is drawn from: the canvas height less two gaps. */
  function Span(height: real, gap: real): real
  {
    height - gap * 2.0
  }

  /** The gap top chosen for the draw `r`. */
  function GapTop(height: real, gap: real, r: real): real
  {
    r * Span(height, gap) + gap
  }

  /** `0 <= r < 1` scales a non-negative span `s` into `[0, s]`, and into
      `[0, s)` when `s` is positive; a negative span lands in `(s, 0]`. The
      product is passed in as `rs`, so callers get facts linear in it. */
  lemma ScaleBounds(r: real, s: real, rs: real)
    requires 0.0 <= r < 1.0
    requires rs == r * s
    ensures s >= 0.0 ==> 0.0 <= rs <= s
    ensures s > 0.0 ==> rs < s
    ensures s < 0.0 ==> s < rs <= 0.0
  {
    var d := 1.0 - r;
    assert s - rs == d * s;
    if s > 0.0 {
      assert d * s > 0.0;
    } else if s < 0.0 {
      assert d * s < 0.0;
      assert rs <= 0.0;
    }
  }

  /** The gap top lies in `[gap, height - gap]`, strictly below the upper end
      when the canvas is taller than two gaps. On a shorter canvas it falls
      in `(height - gap, gap]`, so the gap reaches past the bottom. */
  lemma GapTopBounds(height: real, gap: real, r: real)
    requires 0.0 <= r < 1.0
    ensures height >= 2.0 * gap ==> gap <= GapTop(height, gap, r) <= height - gap
    ensures height > 2.0 * gap ==> GapTop(height, gap, r) < height - gap
    ensures height < 2.0 * gap ==> height - gap < GapTop(height, gap, r) <= gap
  {
    ScaleBounds(r, Span(height, gap), GapTop(height, gap, r) - gap);
  }

  /** Dividing by a non-zero span and scaling back gives the value again. */
  lemma DivThenScale(a: real, s: real)
    requires s != 0.0
    ensures (a / s) * s == a
  {
  }

  /** Scaling by a positive span is strictly monotone: the product `qs`
      reaches `s` once `q` reaches 1, and is negative when `q` is. */
  lemma ScaleMonotone(q: real, s: real, qs: real)
    requires s > 0.0
    requires qs == q * s
    ensures q >= 1.0 ==> qs >= s
    ensures q < 0.0 ==> qs < 0.0
  {
    if q >= 1.0 {
      var d := q - 1.0;
      assert qs == s + d * s;
    }
  }

  /** Scaling by a non-zero span is one-to-one. */
  lemma ScaleInjective(x: real, y: real, s: real, xs: real, ys: real)
    requires s != 0.0
    requires xs == x * s && ys == y * s
    requires xs == ys
    ensures x == y
  {
    assert (x - y) * s == 0.0;
  }

  /** Every gap top in `[gap, height - gap)` is reached by exactly one draw
      in `[0, 1)`: the draw is a bijection onto that range. */
  lemma GapTopOnto(height: real, gap: real, t: real)
    requires height > 2.0 * gap
    requires gap <= t < height - gap
    ensures var r := (t - gap) / Span(height, gap);
            0.0 <= r < 1.0 && GapTop(height, gap, r) == t
    ensures forall r :: GapTop(height, gap, r) == t ==> r == (t - gap) / Span(height, gap)
  {
    var s := Span(height, gap);
    var r := (t - gap) / s;
    DivThenScale(t - gap, s);
    ScaleMonotone(r, s, GapTop(height, gap, r) - gap);
    forall r' | GapTop(height, gap, r') == t
      ensures r' == r
    {
      ScaleInjective(r', r, s, GapTop(height, gap, r') - gap, GapTop(height, gap, r) - gap);
    }
  }

  /** Generating a pipe appends one pipe at the right edge of the canvas and
      resets the counter; nothing else in the field changes. */
  function GeneratePipe(pf: PipeField, canvas: Canvas, r: real): (pf': PipeField)
    requires 0.0 <= r < 1.0
    ensures |pf'.pipes| == |pf.pipes| + 1
    ensures pf'.pipes[..|pf.pipes|] == pf.pipes
    ensures pf'.pipes[|pf.pipes|].x == canvas.width
    ensures canvas.height >= 2.0 * pf.gap ==> GapInCanvas(pf'.pipes[|pf.pipes|], pf, canvas)
    ensures canvas.height > 2.0 * pf.gap ==> pf'.pipes[|pf.pipes|].y < canvas.height - pf.gap
    ensures pf'.spawnCounter == 0
    ensures pf'.(pipes := pf.pipes, spawnCounter := pf.spawnCounter) == pf
  {
    GapTopBounds(canvas.height, pf.gap, r);
    var yPos := GapTop(canvas.height, pf.gap, r);
    pf.(pipes := pf.pipes + [Pipe(canvas.width, yPos)], spawnCounter := 0)
  }

  /** Does the counter, once incremented, reach the cadence this frame? */
  predicate SpawnDue(pf: PipeField)
  {
    pf.spawnCounter + 1 == pf.spawnRate
  }

  /** The spawn step of a frame: bump the counter, and exactly when it reaches
      the cadence append one pipe and start counting again from zero. */
  function SpawnTick(pf: PipeField, canvas: Canvas, r: real): (pf': PipeField)
    requires 0.0 <= r < 1.0
    ensures SpawnDue(pf) ==> |pf'.pipes| == |pf.pipes| + 1 && pf'.spawnCounter == 0
    ensures SpawnDue(pf) ==> pf'.pipes[|pf.pipes|].x == canvas.width
    ensures !SpawnDue(pf) ==> pf'.pipes == pf.pipes && pf'.spawnCounter == pf.spawnCounter + 1
    ensures pf'.pipes[..|pf.pipes|] == pf.pipes
    ensures pf'.spawnRate > 0 && 0 <= pf.spawnCounter < pf.spawnRate
            ==> 0 <= pf'.spawnCounter < pf'.spawnRate
    ensures pf'.(pipes := pf.pipes, spawnCounter := pf.spawnCounter) == pf
  {
    var counted := pf.(spawnCounter := pf.spawnCounter + 1);
    if counted.spawnCounter == counted.spawnRate then GeneratePipe(counted, canvas, r) else counted
  }

  /** Every pipe the spawn step leaves in the queue has its gap inside a
      canvas tall enough for two gaps, if that held before. */
  lemma SpawnTickKeepsGaps(pf: PipeField, canvas: Canvas, r: real)
    requires 0.0 <= r < 1.0
    requires canvas.height >= 2.0 * pf.gap
    requires forall k :: 0 <= k < |pf.pipes| ==> GapInCanvas(pf.pipes[k], pf, canvas)
    ensures var pf' := SpawnTick(pf, canvas, r);
            forall k :: 0 <= k < |pf'.pipes| ==> GapInCanvas(pf'.pipes[k], pf', canvas)
  {
    var pf' := SpawnTick(pf, canvas, r);
    forall k | 0 <= k < |pf'.pipes|
      ensures GapInCanvas(pf'.pipes[k], pf', canvas)
    {
      if k < |pf.pipes| {
        assert pf'.pipes[k] == pf'.pipes[..|pf.pipes|][k];
      }
    }
  }
}
