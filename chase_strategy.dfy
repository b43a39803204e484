/** Pursue (engine/strategies/ChaseStrategy.ts): a greedy step toward Neo's own cell. */
module ChaseStrategy {
  import opened Types
  import opened World
  import opened Movement

  /** The cell a chasing smith at `pos` moves to. */
  function Move(pos: Position, neo: Position, n: int): Position {
    GreedyStep(pos, neo, n)
  }

  /** A chasing smith stays or steps to an in-bounds orthogonal neighbour, taking the first
      direction (up, down, left, right) that brings it strictly closer to Neo; it never
      moves away, stays when it is on Neo, and closes in by exactly one when both are on
      the grid. The smith record itself is a value and is not changed. */
  method GetMove(smith: SmithAgentState, neo: Position, n: int) returns (p: Position)
    ensures p == Move(smith.position, neo, n)
    ensures p == FirstImproving(smith.position, neo, n, 0)
    ensures p == smith.position || p in Neighbors(smith.position, n)
    ensures Distance(p, neo) <= Distance(smith.position, neo)
    ensures smith.position == neo ==> p == smith.position
    ensures InBounds(smith.position, n) && InBounds(neo, n) && smith.position != neo ==>
      Distance(p, neo) + 1 == Distance(smith.position, neo)
  {
    p := GreedyMove(smith.position, neo, n);
    GreedyStepSpec(smith.position, neo, n);
    GreedyIsFirstImproving(smith.position, neo, n);
    if InBounds(smith.position, n) && InBounds(neo, n) && smith.position != neo {
      GreedyStepCloses(smith.position, neo, n);
    }
  }

  /** A chasing smith one cell east of Neo steps onto Neo. */
  lemma ChaseFromEast(neo: Position, n: int)
    requires InBounds(neo, n) && InBounds(Position(neo.x + 1, neo.y), n)
    ensures Move(Position(neo.x + 1, neo.y), neo, n) == neo
  {
    var from := Position(neo.x + 1, neo.y);
    GreedyStepCloses(from, neo, n);
    DistanceIsMetric(Move(from, neo, n), neo, neo);
  }
}
