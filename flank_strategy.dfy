/** Intercept (engine/strategies/FlankStrategy.ts): a greedy step toward the cell three
    steps beyond Neo, away from the centroid of the non-destroyed smiths. */
module FlankStrategy {
  import opened Types
  import opened World
  import opened Movement

  function SumX(ps: seq<Position>): int {
    if |ps| == 0 then 0 else SumX(ps[..|ps| - 1]) + ps[|ps| - 1].x
  }

  function SumY(ps: seq<Position>): int {
    if |ps| == 0 then 0 else SumY(ps[..|ps| - 1]) + ps[|ps| - 1].y
  }

  /** `Math.sign` of a real. */
  function RealSign(v: real): int {
    if v > 0.0 then 1 else if v < 0.0 then -1 else 0
  }

  /** `smithPositions.length || 1`. */
  function Divisor(ps: seq<Position>): nat {
    if |ps| == 0 then 1 else |ps|
  }

  /** The predicted escape point: on each axis Neo's coordinate plus three times the sign of
      (Neo minus the centroid), clamped into the grid. The escape coordinates are integers,
      so the source's `Math.round` leaves them as they are. */
  function Target(neo: Position, ps: seq<Position>, n: int): Position {
    var meanX := SumX(ps) as real / Divisor(ps) as real;
    var meanY := SumY(ps) as real / Divisor(ps) as real;
    Position(Clamp(neo.x + RealSign(neo.x as real - meanX) * 3, n),
             Clamp(neo.y + RealSign(neo.y as real - meanY) * 3, n))
  }

  /** The cell a flanking smith at `pos` moves to. */
  function Move(pos: Position, neo: Position, ps: seq<Position>, n: int): Position {
    GreedyStep(pos, Target(neo, ps, n), n)
  }

  /** Comparing Neo with the mean is comparing `m` times Neo with the sum. */
  lemma SignOfCentroidOffset(a: int, s: int, m: int)
    requires m > 0
    ensures RealSign(a as real - s as real / m as real) == Sign(m * a - s)
  {
    var q := s as real / m as real;
    assert q * m as real == s as real;
    assert (a as real - q) * m as real == (m * a - s) as real;
    if m * a - s > 0 {
      assert a as real - q > 0.0;
    } else if m * a - s < 0 {
      assert a as real - q < 0.0;
    } else {
      assert a as real - q == 0.0;
    }
  }

  /** The target in integer arithmetic: Neo's coordinate moved 3 away from the centroid
      (or not at all when Neo is level with it), then clamped into the grid. */
  lemma TargetInIntegers(neo: Position, ps: seq<Position>, n: int)
    ensures var m := Divisor(ps);
      Target(neo, ps, n) == Position(Clamp(neo.x + 3 * Sign(m * neo.x - SumX(ps)), n),
                                     Clamp(neo.y + 3 * Sign(m * neo.y - SumY(ps)), n))
  {
    SignOfCentroidOffset(neo.x, SumX(ps), Divisor(ps));
    SignOfCentroidOffset(neo.y, SumY(ps), Divisor(ps));
  }

  /** The target is on the grid, and on an axis where Neo is level with the centroid it is
      Neo's own coordinate. */
  lemma TargetSpec(neo: Position, ps: seq<Position>, n: int)
    requires n >= 1
    ensures InBounds(Target(neo, ps, n), n)
    ensures InBounds(neo, n) && Divisor(ps) * neo.x == SumX(ps) ==> Target(neo, ps, n).x == neo.x
    ensures InBounds(neo, n) && Divisor(ps) * neo.y == SumY(ps) ==> Target(neo, ps, n).y == neo.y
  {
    TargetInIntegers(neo, ps, n);
  }

  /** The summing loop of the centroid: the coordinate sums of the positions, as reals. */
  method SumPositions(ps: seq<Position>) returns (sx: real, sy: real)
    ensures sx == SumX(ps) as real && sy == SumY(ps) as real
  {
    sx, sy := 0.0, 0.0;
    var i := 0;
    while i < |ps|
      invariant 0 <= i <= |ps|
      invariant sx == SumX(ps[..i]) as real && sy == SumY(ps[..i]) as real
    {
      assert ps[..i + 1][..i] == ps[..i];
      sx := sx + ps[i].x as real;
      sy := sy + ps[i].y as real;
      i := i + 1;
    }
    assert ps[..|ps|] == ps;
  }

  /** The centroid, then the greedy step toward the clamped escape point. */
  method GetMove(smith: SmithAgentState, neo: Position, ps: seq<Position>, n: int) returns (p: Position)
    ensures p == Move(smith.position, neo, ps, n)
    ensures p == FirstImproving(smith.position, Target(neo, ps, n), n, 0)
    ensures p == smith.position || p in Neighbors(smith.position, n)
    ensures Distance(p, Target(neo, ps, n)) <= Distance(smith.position, Target(neo, ps, n))
  {
    var meanX, meanY := SumPositions(ps);
    var divisor := if |ps| == 0 then 1 else |ps|;
    meanX := meanX / divisor as real;
    meanY := meanY / divisor as real;
    var escapeX := neo.x + RealSign(neo.x as real - meanX) * 3;
    var escapeY := neo.y + RealSign(neo.y as real - meanY) * 3;
    var target := Position(Clamp(escapeX, n), Clamp(escapeY, n));
    p := GreedyMove(smith.position, target, n);
    GreedyStepSpec(smith.position, target, n);
    GreedyIsFirstImproving(smith.position, target, n);
  }
}
