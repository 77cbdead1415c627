/**
  The bird-against-pipe test of the update loop. The bird is treated as the
  square of half-side `radius` around its centre; a pipe pair is the column
  `[x, x + width]` with a free gap `[y, y + gap]`. Every comparison is strict.
 */
module Collision {
  import opened GameState

  /** The test exactly as the update loop writes it. */
  predicate Collides(b: Bird, p: Pipe, width: real, gap: real)
  {
    && b.x + b.radius > p.x
    && b.x - b.radius < p.x + width
    && (b.y - b.radius < p.y || b.y + b.radius > p.y + gap)
  }

  /** The open intervals `(lo1, hi1)` and `(lo2, hi2)` share a point. */
  predicate OpenOverlap(lo1: real, hi1: real, lo2: real, hi2: real)
  {
    lo1 < hi2 && lo2 < hi1
  }

  /** The closed interval `[lo1, hi1]` lies inside `[lo2, hi2]`. */
  predicate Within(lo1: real, hi1: real, lo2: real, hi2: real)
  {
    lo2 <= lo1 && hi1 <= hi2
  }

  /** The same test regrouped (by De Morgan) into interval terms: the bird's
      open horizontal extent meets the pipe's, and its closed vertical extent
      is not inside the gap. The boundary behaviour this implies is spelled
      out by the three lemmas below. */
  lemma CollidesIff(b: Bird, p: Pipe, width: real, gap: real)
    ensures Collides(b, p, width, gap)
        <==> OpenOverlap(b.x - b.radius, b.x + b.radius, p.x, p.x + width)
             && !Within(b.y - b.radius, b.y + b.radius, p.y, p.y + gap)
  {
  }

  /** Touching the bottom or the top of the gap exactly is not a collision. */
  lemma GapTangentIsSafe(b: Bird, p: Pipe, width: real, gap: real)
    requires b.y - b.radius >= p.y && b.y + b.radius <= p.y + gap
    requires b.y + b.radius == p.y + gap || b.y - b.radius == p.y
    ensures !Collides(b, p, width, gap)
  {
  }

  /** With horizontal overlap, leaving the gap by any positive amount, at the
      bottom or at the top, is a collision. */
  lemma LeavingGapCollides(b: Bird, p: Pipe, width: real, gap: real, d: real)
    requires OpenOverlap(b.x - b.radius, b.x + b.radius, p.x, p.x + width)
    requires d > 0.0
    ensures b.y + b.radius == p.y + gap ==> Collides(b.(y := b.y + d), p, width, gap)
    ensures b.y - b.radius == p.y ==> Collides(b.(y := b.y - d), p, width, gap)
  {
  }

  /** Touching the pipe's left or right edge exactly is not an overlap, so
      not a collision, wherever the bird is vertically. */
  lemma EdgeContactIsSafe(b: Bird, p: Pipe, width: real, gap: real)
    requires b.x + b.radius == p.x || b.x - b.radius == p.x + width
    ensures !Collides(b, p, width, gap)
  {
  }
}
