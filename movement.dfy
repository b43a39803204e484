/** The greedy one-step search shared, line for line, by the three movement strategies
    (the files under engine/strategies): start from the current cell and walk the orthogonal
    neighbours up, down, left, right, keeping a neighbour whenever it is on the grid and
    strictly closer to the target than the best cell so far. */
module Movement {
  import opened Types
  import opened World

  /** The best cell after the loop has looked at the first `k` directions. */
  function GreedyPrefix(from: Position, target: Position, n: int, k: nat): Position
    requires k <= 4
  {
    if k == 0 then from
    else
      var best := GreedyPrefix(from, target, n, k - 1);
      var nb := Shift(from, Dirs4[k - 1]);
      if InBounds(nb, n) && Distance(nb, target) < Distance(best, target) then nb else best
  }

  /** The cell the greedy loop returns. */
  function GreedyStep(from: Position, target: Position, n: int): Position {
    GreedyPrefix(from, target, n, |Dirs4|)
  }

  /** Neighbour `k` of `from` is on the grid and strictly closer to `target` than `from`. */
  predicate Improves(from: Position, target: Position, n: int, k: nat)
    requires k < 4
  {
    InBounds(Shift(from, Dirs4[k]), n) && Distance(Shift(from, Dirs4[k]), target) < Distance(from, target)
  }

  /** Reference definition of the step: the first strictly improving direction at or after
      `k`, in the order up, down, left, right; staying put when there is none. */
  function FirstImproving(from: Position, target: Position, n: int, k: nat): Position
    requires k <= 4
    decreases 4 - k
  {
    if k == 4 then from
    else if Improves(from, target, n, k) then Shift(from, Dirs4[k])
    else FirstImproving(from, target, n, k + 1)
  }

  /** Moving one cell orthogonally changes the distance to any target by exactly one. */
  lemma OrthogonalStepDistance(from: Position, target: Position, k: nat)
    requires k < 4
    ensures Distance(Shift(from, Dirs4[k]), target) == Distance(from, target) + 1
         || Distance(Shift(from, Dirs4[k]) , target) + 1 == Distance(from, target)
  {
  }

  /** Keeping the minimum with ties to the earliest is the same as taking the first
      strictly improving direction: once one improving neighbour is kept, no later one
      can be strictly closer. */
  lemma GreedyIsFirstImproving(from: Position, target: Position, n: int)
    ensures GreedyStep(from, target, n) == FirstImproving(from, target, n, 0)
  {
    OrthogonalStepDistance(from, target, 0);
    OrthogonalStepDistance(from, target, 1);
    OrthogonalStepDistance(from, target, 2);
    OrthogonalStepDistance(from, target, 3);
    var nb0, nb1 := Shift(from, Dirs4[0]), Shift(from, Dirs4[1]);
    var nb2, nb3 := Shift(from, Dirs4[2]), Shift(from, Dirs4[3]);
    var i0, i1 := Improves(from, target, n, 0), Improves(from, target, n, 1);
    var i2, i3 := Improves(from, target, n, 2), Improves(from, target, n, 3);
    assert GreedyPrefix(from, target, n, 1) == if i0 then nb0 else from;
    assert GreedyPrefix(from, target, n, 2) == if i0 then nb0 else if i1 then nb1 else from;
    assert GreedyPrefix(from, target, n, 3) ==
      if i0 then nb0 else if i1 then nb1 else if i2 then nb2 else from;
    assert GreedyPrefix(from, target, n, 4) ==
      if i0 then nb0 else if i1 then nb1 else if i2 then nb2 else if i3 then nb3 else from;
  }

  lemma FirstImprovingMoves(from: Position, target: Position, n: int, k: nat)
    requires k <= 4
    ensures var r := FirstImproving(from, target, n, k);
      || r == from
      || exists j :: k <= j < 4 && Improves(from, target, n, j) && r == Shift(from, Dirs4[j])
    decreases 4 - k
  {
    if k < 4 && !Improves(from, target, n, k) {
      FirstImprovingMoves(from, target, n, k + 1);
    }
  }

  /** The step stays put or moves to an in-bounds orthogonal neighbour, never increases the
      distance to the target, decreases it by exactly one when it moves, and stays put only
      when no neighbour on the grid is closer. */
  lemma GreedyStepSpec(from: Position, target: Position, n: int)
    ensures var r := GreedyStep(from, target, n);
      && (r == from || r in Neighbors(from, n))
      && Distance(r, target) <= Distance(from, target)
      && (r != from ==> Distance(r, target) + 1 == Distance(from, target))
      && (r == from ==> forall q :: q in Neighbors(from, n) ==> Distance(q, target) > Distance(from, target))
      && (from == target ==> r == from)
  {
    GreedyIsFirstImproving(from, target, n);
    NeighborsSpec(from, n);
    OrthogonalStepDistance(from, target, 0);
    OrthogonalStepDistance(from, target, 1);
    OrthogonalStepDistance(from, target, 2);
    OrthogonalStepDistance(from, target, 3);
    var r := GreedyStep(from, target, n);
    FirstImprovingMoves(from, target, n, 0);
    if r == from {
      assert !Improves(from, target, n, 0) && !Improves(from, target, n, 1);
      assert !Improves(from, target, n, 2) && !Improves(from, target, n, 3);
      forall q | q in Neighbors(from, n)
        ensures Distance(q, target) > Distance(from, target)
      {
        assert q == Shift(from, Dirs4[0]) || q == Shift(from, Dirs4[1])
            || q == Shift(from, Dirs4[2]) || q == Shift(from, Dirs4[3]);
      }
    }
  }

  /** When both cells are on the grid and distinct, some neighbour is closer, so the step
      closes the distance by exactly one. */
  lemma GreedyStepCloses(from: Position, target: Position, n: int)
    requires InBounds(from, n) && InBounds(target, n) && from != target
    ensures Distance(GreedyStep(from, target, n), target) + 1 == Distance(from, target)
  {
    GreedyStepSpec(from, target, n);
    NeighborsSpec(from, n);
    var q :=
      if target.y < from.y then Shift(from, Dirs4[0])
      else if target.y > from.y then Shift(from, Dirs4[1])
      else if target.x < from.x then Shift(from, Dirs4[2])
      else Shift(from, Dirs4[3]);
    assert q in Neighbors(from, n) && Distance(q, target) < Distance(from, target);
  }

  /** The search loop of `getMove`. */
  method GreedyMove(from: Position, target: Position, n: int) returns (bestPos: Position)
    ensures bestPos == GreedyStep(from, target, n)
  {
    bestPos := from;
    var bestDist := Distance(from, target);
    var i := 0;
    while i < 4
      invariant 0 <= i <= 4
      invariant bestPos == GreedyPrefix(from, target, n, i)
      invariant bestDist == Distance(bestPos, target)
    {
      var neighbor := Shift(from, Dirs4[i]);
      if InBounds(neighbor, n) {
        var dist := Distance(neighbor, target);
        if dist < bestDist {
          bestDist := dist;
          bestPos := neighbor;
        }
      }
      i := i + 1;
    }
  }
}
