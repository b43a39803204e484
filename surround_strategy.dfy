/** Encircle (engine/strategies/SurroundStrategy.ts): a greedy step toward this smith's slot
    on a ring of radius 2 around Neo. The ring point itself comes from trigonometry and is
    supplied as a function of the slot and the number of slots. */
module SurroundStrategy {
  import opened Types
  import opened World
  import opened Movement

  /** `findIndex` by coordinates: the first index holding `p`, or -1. */
  function FindIndex(ps: seq<Position>, p: Position): (r: int)
    ensures -1 <= r < |ps|
    ensures r == -1 <==> p !in ps
    ensures 0 <= r ==> ps[r] == p && p !in ps[..r]
  {
    if |ps| == 0 then -1
    else if ps[0] == p then 0
    else
      var k := FindIndex(ps[1..], p);
      assert ps == [ps[0]] + ps[1..];
      if k == -1 then -1
      else
        assert ps[..k + 1] == [ps[0]] + ps[1..][..k];
        k + 1
  }

  /** `Math.max(0, smithIndex)`: smiths on one cell share the first slot of that cell. */
  function Slot(ps: seq<Position>, p: Position): nat {
    var k := FindIndex(ps, p);
    if k < 0 then 0 else k
  }

  /** The slot's ring point, clamped into the grid. */
  function Target(pos: Position, neo: Position, ps: seq<Position>, n: int, ring: RingOffsets): (t: Position)
    ensures n >= 1 ==> InBounds(t, n)
  {
    var off := ring(Slot(ps, pos), |ps|);
    Position(Clamp(neo.x + off.x, n), Clamp(neo.y + off.y, n))
  }

  /** The cell an encircling smith at `pos` moves to. With no positions listed the angle is
      0/0, the target is NaN, no distance comparison succeeds, and the smith stays. The swarm
      never takes that branch: only an active smith moves, and its own cell is always among
      the positions of the non-destroyed smiths. */
  function Move(pos: Position, neo: Position, ps: seq<Position>, n: int, ring: RingOffsets): Position {
    if |ps| == 0 then pos else GreedyStep(pos, Target(pos, neo, ps, n, ring), n)
  }

  /** The slot lookup, then the greedy step toward the clamped ring point; a smith already
      on its ring point stays. */
  method GetMove(smith: SmithAgentState, neo: Position, ps: seq<Position>, n: int, ring: RingOffsets)
    returns (p: Position)
    ensures p == Move(smith.position, neo, ps, n, ring)
    ensures p == smith.position || p in Neighbors(smith.position, n)
    ensures |ps| > 0 ==> p == FirstImproving(smith.position, Target(smith.position, neo, ps, n, ring), n, 0)
    ensures |ps| > 0 ==>
      Distance(p, Target(smith.position, neo, ps, n, ring))
        <= Distance(smith.position, Target(smith.position, neo, ps, n, ring))
    ensures |ps| > 0 && smith.position == Target(smith.position, neo, ps, n, ring) ==> p == smith.position
  {
    var smithIndex := FindIndex(ps, smith.position);
    var totalSmiths := |ps|;
    if totalSmiths == 0 {
      p := smith.position;
      return;
    }
    var off := ring(if smithIndex < 0 then 0 else smithIndex, totalSmiths);
    var target := Position(Clamp(neo.x + off.x, n), Clamp(neo.y + off.y, n));
    p := GreedyMove(smith.position, target, n);
    GreedyStepSpec(smith.position, target, n);
    GreedyIsFirstImproving(smith.position, target, n);
  }
}
