/** One smith (engine/SmithAgent.ts): creation, the per-tick state machine
    (destroyed, stunned, active), stunning and destruction. A smith is a record value;
    each operation returns the updated record. */
module SmithAgent {
  import opened Types
  import opened World
  import opened Movement
  import ChaseStrategy
  import FlankStrategy
  import SurroundStrategy

  /** `createSmith` once the id counter has been advanced to `id`: active, not stunned,
      chasing, at a copy of `position`. */
  function NewSmith(id: nat, position: Position, generation: int): SmithAgentState {
    SmithAgentState(id, position, Active, 0, generation, Chase)
  }

  /** The move of the strategy the smith is tagged with; `ps` are the positions of the
      non-destroyed smiths at the moment of the call. */
  function StrategyMove(s: SmithAgentState, neo: Position, ps: seq<Position>, n: int, ring: RingOffsets): Position {
    match s.strategy
    case Chase => ChaseStrategy.Move(s.position, neo, n)
    case Flank => FlankStrategy.Move(s.position, neo, ps, n)
    case Surround => SurroundStrategy.Move(s.position, neo, ps, n, ring)
  }

  /** Every strategy stays put or steps to an in-bounds orthogonal neighbour. */
  lemma StrategyMoveIsLocal(s: SmithAgentState, neo: Position, ps: seq<Position>, n: int, ring: RingOffsets)
    ensures var p := StrategyMove(s, neo, ps, n, ring);
      p == s.position || p in Neighbors(s.position, n)
  {
    match s.strategy
    case Chase => GreedyStepSpec(s.position, neo, n);
    case Flank => GreedyStepSpec(s.position, FlankStrategy.Target(neo, ps, n), n);
    case Surround =>
      if |ps| > 0 {
        GreedyStepSpec(s.position, SurroundStrategy.Target(s.position, neo, ps, n, ring), n);
      }
  }

  /** `smithTick` on a record value. */
  function Step(s: SmithAgentState, neo: Position, ps: seq<Position>, n: int, ring: RingOffsets): SmithAgentState {
    match s.state
    case Destroyed => s
    case Stunned =>
      var t := s.stunnedTicks - 1;
      s.(stunnedTicks := t, state := if t <= 0 then Active else Stunned)
    case Active => s.(position := StrategyMove(s, neo, ps, n, ring))
  }

  /** What one tick can change of a smith: never its id, generation or strategy tag, never
      whether it is destroyed, and its position by at most one orthogonal in-bounds step. */
  predicate Successor(s: SmithAgentState, r: SmithAgentState, n: int) {
    && r.id == s.id && r.generation == s.generation && r.strategy == s.strategy
    && (r.state == Destroyed <==> s.state == Destroyed)
    && (r.position == s.position || (InBounds(r.position, n) && Distance(s.position, r.position) == 1))
  }

  /** The state machine of one tick: a destroyed smith is left exactly as it is; a stunned
      smith stays where it is, loses one tick of stun and becomes active when none is left;
      an active smith stays active and makes its strategy's move. */
  lemma StepSpec(s: SmithAgentState, neo: Position, ps: seq<Position>, n: int, ring: RingOffsets)
    ensures var r := Step(s, neo, ps, n, ring);
      && Successor(s, r, n)
      && (s.state == Destroyed ==> r == s)
      && (s.state == Stunned ==>
            && r.position == s.position && r.stunnedTicks == s.stunnedTicks - 1
            && (r.state == Active <==> s.stunnedTicks <= 1)
            && (r.state == Stunned <==> s.stunnedTicks > 1))
      && (s.state == Active ==>
            r.state == Active && r.stunnedTicks == s.stunnedTicks
            && r.position == StrategyMove(s, neo, ps, n, ring))
  {
    StrategyMoveIsLocal(s, neo, ps, n, ring);
    NeighborsSpec(s.position, n);
  }

  /** `smithTick`: the strategy's search loop runs only for an active smith. */
  method Tick(s: SmithAgentState, neo: Position, ps: seq<Position>, n: int, ring: RingOffsets)
    returns (r: SmithAgentState)
    ensures r == Step(s, neo, ps, n, ring)
    ensures Successor(s, r, n)
  {
    StepSpec(s, neo, ps, n, ring);
    if s.state == Destroyed {
      return s;
    }
    if s.state == Stunned {
      var t := s.stunnedTicks - 1;
      r := s.(stunnedTicks := t);
      if t <= 0 {
        r := r.(state := Active);
      }
      return;
    }
    var newPos: Position;
    match s.strategy {
      case Chase => newPos := ChaseStrategy.GetMove(s, neo, n);
      case Flank => newPos := FlankStrategy.GetMove(s, neo, ps, n);
      case Surround => newPos := SurroundStrategy.GetMove(s, neo, ps, n, ring);
    }
    r := s.(position := newPos);
  }

  /** `stunSmith`: whatever the smith was doing, it is stunned for `ticks` ticks. */
  function Stun(s: SmithAgentState, ticks: int): (r: SmithAgentState)
    ensures r.state == Stunned && r.stunnedTicks == ticks
    ensures r.(state := s.state, stunnedTicks := s.stunnedTicks) == s
  {
    s.(state := Stunned, stunnedTicks := ticks)
  }

  /** `destroySmith`. */
  function Destroy(s: SmithAgentState): (r: SmithAgentState)
    ensures r.state == Destroyed
    ensures r.(state := s.state) == s
  {
    s.(state := Destroyed)
  }

  /** Consecutive ticks of one smith, each with its own Neo cell and position list. */
  function Steps(s: SmithAgentState, inputs: seq<(Position, seq<Position>)>, n: int, ring: RingOffsets): SmithAgentState
    decreases |inputs|
  {
    if |inputs| == 0 then s
    else Steps(Step(s, inputs[0].0, inputs[0].1, n, ring), inputs[1..], n, ring)
  }

  /** A smith stunned for k >= 1 ticks stays stunned, without moving, for k - 1 ticks
      whatever happens around it, and is active again, on the same cell, after the k-th. */
  lemma {:induction false} StunLasts(s: SmithAgentState, inputs: seq<(Position, seq<Position>)>, n: int, ring: RingOffsets)
    requires s.state == Stunned && 1 <= s.stunnedTicks && |inputs| <= s.stunnedTicks
    ensures |inputs| < s.stunnedTicks ==>
      Steps(s, inputs, n, ring) == s.(stunnedTicks := s.stunnedTicks - |inputs|)
    ensures |inputs| == s.stunnedTicks ==>
      Steps(s, inputs, n, ring) == s.(state := Active, stunnedTicks := 0)
    decreases |inputs|
  {
    if |inputs| > 0 {
      var s1 := Step(s, inputs[0].0, inputs[0].1, n, ring);
      if s.stunnedTicks == 1 {
        assert s1 == s.(state := Active, stunnedTicks := 0);
        assert Steps(s, inputs, n, ring) == Steps(s1, inputs[1..], n, ring);
        assert inputs[1..] == [];
      } else {
        assert s1 == s.(stunnedTicks := s.stunnedTicks - 1);
        StunLasts(s1, inputs[1..], n, ring);
      }
    }
  }

  /** Destruction is final under the tick: a destroyed smith never moves or wakes up. */
  lemma {:induction false} DestroyedIsFinal(s: SmithAgentState, inputs: seq<(Position, seq<Position>)>, n: int, ring: RingOffsets)
    requires s.state == Destroyed
    ensures Steps(s, inputs, n, ring) == s
    decreases |inputs|
  {
    if |inputs| > 0 {
      DestroyedIsFinal(Step(s, inputs[0].0, inputs[0].1, n, ring), inputs[1..], n, ring);
    }
  }

  /** Stunning is the one way out of destruction: a destroyed smith that is stunned for
      k >= 1 ticks is active again after k ticks, at its old cell. */
  lemma StunRevivesDestroyed(s: SmithAgentState, k: int, inputs: seq<(Position, seq<Position>)>, n: int, ring: RingOffsets)
    requires s.state == Destroyed && k >= 1 && |inputs| == k
    ensures Steps(Stun(s, k), inputs, n, ring).state == Active
    ensures Steps(Stun(s, k), inputs, n, ring).position == s.position
  {
    StunLasts(Stun(s, k), inputs, n, ring);
  }
}
