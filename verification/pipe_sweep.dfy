/**
  The pipe loop of the update step. It walks the queue by index; each visited
  pipe moves left by `speed`; a moved pipe whose right edge reaches `x <= 0`
  triggers a removal from the queue and a point. The removal drops the HEAD
  of the queue (not necessarily the pipe just visited) and the index is not
  adjusted, so the pipe after a removal is skipped this frame. The collision
  test is still made against the moved pipe, even when that pipe was the one
  removed.
 */
module PipeSweep {
  import opened GameState
  import opened Collision

  /** A pipe after one frame of leftward motion. */
  function Advance(p: Pipe, speed: real): Pipe
  {
    p.(x := p.x - speed)
  }

  /** The pipe's right edge has reached the left side of the canvas. */
  predicate Crossed(p: Pipe, width: real)
  {
    p.x + width <= 0.0
  }

  /** Every pipe of `ps` moved by one frame. */
  function AdvanceAll(ps: seq<Pipe>, speed: real): seq<Pipe>
  {
    seq(|ps|, k requires 0 <= k < |ps| => Advance(ps[k], speed))
  }

  /** What the loop leaves behind: the queue, how many removals it made
      (each worth one point), and whether any visited pipe hit the bird. */
  datatype SweepResult = SweepResult(pipes: seq<Pipe>, removed: nat, hit: bool)

  /** The loop from index `i` onwards. Every removal shortens the queue by one,
      so the removals and the queue left behind account for the whole queue. */
  function Sweep(pipes: seq<Pipe>, i: nat, b: Bird, width: real, gap: real, speed: real): (r: SweepResult)
    ensures |r.pipes| + r.removed == |pipes|
    ensures i >= |pipes| ==> r.removed == 0
    decreases |pipes| - i
  {
    if i >= |pipes| then
      SweepResult(pipes, 0, false)
    else
      var p := Advance(pipes[i], speed);
      var moved := pipes[i := p];
      var crossed := Crossed(p, width);
      var after := if crossed then moved[1..] else moved;
      var rest := Sweep(after, i + 1, b, width, gap, speed);
      SweepResult(rest.pipes, rest.removed + (if crossed then 1 else 0), Collides(b, p, width, gap) || rest.hit)
  }

  /** `out` is what is left of `inp` after `m` removals from the head, with
      a loop that started at index `i`: pipe `j` of `out` is pipe `j + m` of
      `inp` with the same gap; one before index `i` is untouched; any other
      has moved by `speed` or not at all. */
  predicate TracksInput(out: seq<Pipe>, inp: seq<Pipe>, m: nat, i: nat, speed: real)
    requires |out| + m == |inp|
  {
    forall j :: 0 <= j < |out| ==>
      && out[j].y == inp[j + m].y
      && (j + m < i ==> out[j] == inp[j + m])
      && (i <= j + m ==> out[j].x == inp[j + m].x || out[j].x == inp[j + m].x - speed)
  }

  /** One step of the loop keeps the tracking: if what the rest of the loop
      leaves tracks the queue as it stood after visiting index `i` (moving
      that pipe and, when `c == 1`, dropping the head), it tracks the queue as
      it stood before. */
  lemma TracksStep(out: seq<Pipe>, pipes: seq<Pipe>, i: nat, c: nat, m: nat, speed: real)
    requires i < |pipes| && c <= 1
    requires |out| + m + c == |pipes|
    requires TracksInput(out, pipes[i := Advance(pipes[i], speed)][c..], m, i + 1, speed)
    ensures TracksInput(out, pipes, m + c, i, speed)
  {
    var moved := pipes[i := Advance(pipes[i], speed)];
    var after := moved[c..];
    forall j | 0 <= j < |out|
      ensures out[j].y == pipes[j + m + c].y
      ensures j + m + c < i ==> out[j] == pipes[j + m + c]
      ensures i <= j + m + c ==>
                out[j].x == pipes[j + m + c].x || out[j].x == pipes[j + m + c].x - speed
    {
      var k := j + m;
      assert after[k] == moved[k + c];
    }
  }

  /** One visit of the loop: the pipe at index `i` moves, the head is dropped
      when that pipe crosses (`c == 1`), and the rest of the loop runs on
      what is left from index `i + 1`. */
  lemma SweepUnfold(pipes: seq<Pipe>, i: nat, b: Bird, width: real, gap: real, speed: real)
    requires i < |pipes|
    ensures var c := if Crossed(Advance(pipes[i], speed), width) then 1 else 0;
            var rest := Sweep(pipes[i := Advance(pipes[i], speed)][c..], i + 1, b, width, gap, speed);
            && Sweep(pipes, i, b, width, gap, speed).pipes == rest.pipes
            && Sweep(pipes, i, b, width, gap, speed).removed == rest.removed + c
  {
    var moved := pipes[i := Advance(pipes[i], speed)];
    assert moved[0..] == moved;
  }

  /** One visit of the loop keeps the tracking of what the rest of the loop
      leaves behind. */
  lemma TracksVisit(pipes: seq<Pipe>, i: nat, b: Bird, width: real, gap: real, speed: real)
    requires i < |pipes|
    requires var c := if Crossed(Advance(pipes[i], speed), width) then 1 else 0;
             var after := pipes[i := Advance(pipes[i], speed)][c..];
             var rest := Sweep(after, i + 1, b, width, gap, speed);
             TracksInput(rest.pipes, after, rest.removed, i + 1, speed)
    ensures var r := Sweep(pipes, i, b, width, gap, speed);
            TracksInput(r.pipes, pipes, r.removed, i, speed)
  {
    var r := Sweep(pipes, i, b, width, gap, speed);
    var c := if Crossed(Advance(pipes[i], speed), width) then 1 else 0;
    var after := pipes[i := Advance(pipes[i], speed)][c..];
    SweepUnfold(pipes, i, b, width, gap, speed);
    var rest := Sweep(after, i + 1, b, width, gap, speed);
    assert r.pipes == rest.pipes && r.removed == rest.removed + c;
    TracksStep(rest.pipes, pipes, i, c, rest.removed, speed);
    assert TracksInput(r.pipes, pipes, r.removed, i, speed);
  }

  /** Removals only ever take the head of the queue, gaps never change, and
      no pipe moves more than once in a frame. */
  lemma {:induction false} SweepTracks(pipes: seq<Pipe>, i: nat, b: Bird, width: real, gap: real, speed: real)
    ensures var r := Sweep(pipes, i, b, width, gap, speed);
            TracksInput(r.pipes, pipes, r.removed, i, speed)
    decreases |pipes| - i
  {
    if i < |pipes| {
      var c := if Crossed(Advance(pipes[i], speed), width) then 1 else 0;
      SweepTracks(pipes[i := Advance(pipes[i], speed)][c..], i + 1, b, width, gap, speed);
      TracksVisit(pipes, i, b, width, gap, speed);
    } else {
      var r := Sweep(pipes, i, b, width, gap, speed);
      assert r.pipes == pipes && r.removed == 0;
      assert TracksInput(r.pipes, pipes, r.removed, i, speed);
    }
  }

  /** The indices of `out` whose pipe kept its x although it lies at or
      after the loop's start index `i` in `inp`: the pipes the loop skipped. */
  function Kept(out: seq<Pipe>, inp: seq<Pipe>, m: nat, i: nat): set<int>
    requires |out| + m == |inp|
  {
    set j | 0 <= j < |out| && i <= j + m && out[j].x == inp[j + m].x
  }

  /** A subset is no larger than its superset. */
  lemma SubsetSize(a: set<int>, b: set<int>)
    requires a <= b
    ensures |a| <= |b|
  {
    assert b == a + (b - a);
    assert a * (b - a) == {};
  }

  /** Where a pipe that kept its x after one visit came from: it was skipped
      by the rest of the loop, or it is the one pipe that slid into the
      visited slot when the head was dropped (`c == 1`, index `i - m`). */
  lemma KeptMember(out: seq<Pipe>, pipes: seq<Pipe>, i: nat, c: nat, m: nat, speed: real, j: int)
    requires i < |pipes| && c <= 1
    requires |out| + m + c == |pipes|
    requires speed != 0.0
    requires TracksInput(out, pipes[i := Advance(pipes[i], speed)][c..], m, i + 1, speed)
    requires j in Kept(out, pipes, m + c, i)
    ensures j in Kept(out, pipes[i := Advance(pipes[i], speed)][c..], m, i + 1)
            || (c == 1 && j == i - m)
  {
    var moved := pipes[i := Advance(pipes[i], speed)];
    var after := moved[c..];
    assert 0 <= j < |out| && i <= j + m + c && out[j].x == pipes[j + m + c].x;
    assert after[j + m] == moved[j + m + c];
    if j + m < i + 1 {
      assert out[j] == moved[j + m + c];
    } else {
      assert out[j].x == after[j + m].x;
    }
  }

  /** One step of the loop skips at most the one pipe that slides into the
      visited slot when the head is dropped (`c == 1`), and none otherwise. */
  lemma KeptStep(out: seq<Pipe>, pipes: seq<Pipe>, i: nat, c: nat, m: nat, speed: real)
    requires i < |pipes| && c <= 1
    requires |out| + m + c == |pipes|
    requires speed != 0.0
    requires TracksInput(out, pipes[i := Advance(pipes[i], speed)][c..], m, i + 1, speed)
    requires |Kept(out, pipes[i := Advance(pipes[i], speed)][c..], m, i + 1)| <= m
    ensures |Kept(out, pipes, m + c, i)| <= m + c
  {
    var after := pipes[i := Advance(pipes[i], speed)][c..];
    var before := Kept(out, after, m, i + 1);
    var now := Kept(out, pipes, m + c, i);
    var extra: set<int> := if c == 1 then {i - m} else {};
    forall j | j in now
      ensures j in before + extra
    {
      KeptMember(out, pipes, i, c, m, speed, j);
      if j !in before {
        assert j in extra;
      }
    }
    SubsetSize(now, before + extra);
  }

  /** One visit of the loop adds at most one skipped pipe per removal to
      what the rest of the loop skips. */
  lemma SkipsStep(pipes: seq<Pipe>, i: nat, b: Bird, width: real, gap: real, speed: real)
    requires i < |pipes|
    requires speed != 0.0
    requires var c := if Crossed(Advance(pipes[i], speed), width) then 1 else 0;
             var after := pipes[i := Advance(pipes[i], speed)][c..];
             var rest := Sweep(after, i + 1, b, width, gap, speed);
             |Kept(rest.pipes, after, rest.removed, i + 1)| <= rest.removed
    ensures var r := Sweep(pipes, i, b, width, gap, speed);
            |Kept(r.pipes, pipes, r.removed, i)| <= r.removed
  {
    var r := Sweep(pipes, i, b, width, gap, speed);
    var c := if Crossed(Advance(pipes[i], speed), width) then 1 else 0;
    var after := pipes[i := Advance(pipes[i], speed)][c..];
    SweepUnfold(pipes, i, b, width, gap, speed);
    SweepTracks(after, i + 1, b, width, gap, speed);
    var rest := Sweep(after, i + 1, b, width, gap, speed);
    assert r.pipes == rest.pipes && r.removed == rest.removed + c;
    KeptStep(rest.pipes, pipes, i, c, rest.removed, speed);
    assert |Kept(r.pipes, pipes, r.removed, i)| <= r.removed;
  }

  /** With a non-zero speed, every removal lets at most one pipe from the
      start index on go unmoved: all other surviving pipes it reaches move by
      exactly `speed` (their gaps never change, by `SweepTracks`). */
  lemma {:induction false} SweepSkipsAtMostRemoved(pipes: seq<Pipe>, i: nat, b: Bird, width: real, gap: real, speed: real)
    requires speed != 0.0
    ensures var r := Sweep(pipes, i, b, width, gap, speed);
            |Kept(r.pipes, pipes, r.removed, i)| <= r.removed
    decreases |pipes| - i
  {
    if i < |pipes| {
      var c := if Crossed(Advance(pipes[i], speed), width) then 1 else 0;
      SweepSkipsAtMostRemoved(pipes[i := Advance(pipes[i], speed)][c..], i + 1, b, width, gap, speed);
      SkipsStep(pipes, i, b, width, gap, speed);
    } else {
      var r := Sweep(pipes, i, b, width, gap, speed);
      assert Kept(r.pipes, pipes, r.removed, i) == {};
    }
  }

  /** The hit flag is raised when the first visited pipe, once moved, hits the
      bird, and only when some pipe from the start index on would. */
  lemma {:induction false} SweepHit(pipes: seq<Pipe>, i: nat, b: Bird, width: real, gap: real, speed: real)
    ensures i < |pipes| && Collides(b, Advance(pipes[i], speed), width, gap)
            ==> Sweep(pipes, i, b, width, gap, speed).hit
    ensures Sweep(pipes, i, b, width, gap, speed).hit
            ==> exists j :: i <= j < |pipes| && Collides(b, Advance(pipes[j], speed), width, gap)
    decreases |pipes| - i
  {
    if i < |pipes| {
      var p := Advance(pipes[i], speed);
      var moved := pipes[i := p];
      var crossed := Crossed(p, width);
      var after := if crossed then moved[1..] else moved;
      SweepHit(after, i + 1, b, width, gap, speed);
      var rest := Sweep(after, i + 1, b, width, gap, speed);
      if rest.hit && !Collides(b, p, width, gap) {
        var j' :| i + 1 <= j' < |after| && Collides(b, Advance(after[j'], speed), width, gap);
        var j := if crossed then j' + 1 else j';
        assert after[j'] == pipes[j];
      }
    }
  }

  /** Some pipe from index `i` on, once moved, hits the bird. */
  predicate HitsFrom(b: Bird, pipes: seq<Pipe>, i: nat, width: real, gap: real, speed: real)
  {
    exists j :: i <= j < |pipes| && Collides(b, Advance(pipes[j], speed), width, gap)
  }

  /** Reference case: when no pipe from the start index on crosses, the loop
      is a plain map that moves each of them by `speed` and scores nothing,
      and it tests every one of them: the hit flag is raised exactly when one
      of them, once moved, hits the bird. */
  lemma {:induction false} SweepWithoutCrossing(pipes: seq<Pipe>, i: nat, b: Bird, width: real, gap: real, speed: real)
    requires i <= |pipes|
    requires forall j :: i <= j < |pipes| ==> !Crossed(Advance(pipes[j], speed), width)
    ensures Sweep(pipes, i, b, width, gap, speed).pipes == pipes[..i] + AdvanceAll(pipes[i..], speed)
    ensures Sweep(pipes, i, b, width, gap, speed).removed == 0
    ensures Sweep(pipes, i, b, width, gap, speed).hit <==> HitsFrom(b, pipes, i, width, gap, speed)
    decreases |pipes| - i
  {
    if i < |pipes| {
      var p := Advance(pipes[i], speed);
      var moved := pipes[i := p];
      forall j | i + 1 <= j < |moved|
        ensures !Crossed(Advance(moved[j], speed), width)
        ensures moved[j] == pipes[j]
      {
      }
      SweepWithoutCrossing(moved, i + 1, b, width, gap, speed);
      if HitsFrom(b, pipes, i, width, gap, speed) && !Collides(b, p, width, gap) {
        var j :| i <= j < |pipes| && Collides(b, Advance(pipes[j], speed), width, gap);
        assert Collides(b, Advance(moved[j], speed), width, gap);
      }
      if HitsFrom(b, moved, i + 1, width, gap, speed) {
        var j :| i + 1 <= j < |moved| && Collides(b, Advance(moved[j], speed), width, gap);
        assert Collides(b, Advance(pipes[j], speed), width, gap);
      }
      assert moved[..i + 1] == pipes[..i] + [p];
      assert moved[i + 1..] == pipes[i + 1..];
      assert AdvanceAll(pipes[i..], speed) == [p] + AdvanceAll(pipes[i + 1..], speed);
    } else {
      assert pipes[i..] == [];
    }
  }

  /** The usual removal: the head pipe crosses and no later pipe from the
      third on does. The head is dropped, the second pipe is skipped (it does
      not move this frame, nor is it tested against the bird), the rest
      move and are tested, and one point is scored. */
  lemma HeadRemovalSkipsNext(pipes: seq<Pipe>, b: Bird, width: real, gap: real, speed: real)
    requires |pipes| >= 2
    requires Crossed(Advance(pipes[0], speed), width)
    requires forall j :: 2 <= j < |pipes| ==> !Crossed(Advance(pipes[j], speed), width)
    ensures Sweep(pipes, 0, b, width, gap, speed).pipes == [pipes[1]] + AdvanceAll(pipes[2..], speed)
    ensures Sweep(pipes, 0, b, width, gap, speed).removed == 1
    ensures Sweep(pipes, 0, b, width, gap, speed).hit
            <==> Collides(b, Advance(pipes[0], speed), width, gap) || HitsFrom(b, pipes, 2, width, gap, speed)
  {
    var after := pipes[0 := Advance(pipes[0], speed)][1..];
    assert after == pipes[1..];
    forall j | 1 <= j < |after|
      ensures !Crossed(Advance(after[j], speed), width)
    {
      assert after[j] == pipes[j + 1];
    }
    SweepWithoutCrossing(after, 1, b, width, gap, speed);
    assert after[..1] == [pipes[1]];
    assert after[1..] == pipes[2..];
    if HitsFrom(b, after, 1, width, gap, speed) {
      var j :| 1 <= j < |after| && Collides(b, Advance(after[j], speed), width, gap);
      assert Collides(b, Advance(pipes[j + 1], speed), width, gap);
    }
    if HitsFrom(b, pipes, 2, width, gap, speed) {
      var j :| 2 <= j < |pipes| && Collides(b, Advance(pipes[j], speed), width, gap);
      assert Collides(b, Advance(after[j - 1], speed), width, gap);
    }
  }

  /** When the second of two pipes crosses but the first does not, the
      removal drops the first pipe, which has not crossed, and keeps the
      crossed one; the point is scored all the same. */
  lemma RemovalTakesHeadNotCrossedPipe(p0: Pipe, p1: Pipe, b: Bird, width: real, gap: real, speed: real)
    requires !Crossed(Advance(p0, speed), width)
    requires Crossed(Advance(p1, speed), width)
    ensures Sweep([p0, p1], 0, b, width, gap, speed).pipes == [Advance(p1, speed)]
    ensures Sweep([p0, p1], 0, b, width, gap, speed).removed == 1
  {
    var moved0 := [p0, p1][0 := Advance(p0, speed)];
    assert moved0 == [Advance(p0, speed), p1];
    var moved1 := moved0[1 := Advance(p1, speed)];
    assert moved1 == [Advance(p0, speed), Advance(p1, speed)];
    assert moved1[1..] == [Advance(p1, speed)];
    assert Sweep(moved0, 1, b, width, gap, speed).pipes == [Advance(p1, speed)];
  }

  /** A removed pipe is still tested against the bird in the same frame. */
  lemma RemovedPipeStillCollides(p: Pipe, b: Bird, width: real, gap: real, speed: real)
    requires Crossed(Advance(p, speed), width)
    ensures Sweep([p], 0, b, width, gap, speed)
            == SweepResult([], 1, Collides(b, Advance(p, speed), width, gap))
  {
    assert [p][0 := Advance(p, speed)][1..] == [];
  }
}
