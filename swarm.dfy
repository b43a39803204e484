/** The smith population (engine/Swarm.ts): initial placement, the swarm-wide strategy,
    the sequential tick of every smith, replication next to a random parent, and the
    purge of destroyed smiths. */
module Swarm {
  import opened Types
  import opened World
  import SmithAgent

  /** `getActive`: the smiths that are not destroyed (stunned ones included), in order. */
  function NonDestroyed(ss: seq<SmithAgentState>): (r: seq<SmithAgentState>)
    ensures |r| <= |ss|
    ensures forall i :: 0 <= i < |r| ==> r[i].state != Destroyed
  {
    if |ss| == 0 then []
    else
      var init := ss[..|ss| - 1];
      var last := ss[|ss| - 1];
      assert ss == init + [last];
      if last.state != Destroyed then NonDestroyed(init) + [last] else NonDestroyed(init)
  }

  /** The filter keeps exactly the smiths that are not destroyed. */
  lemma {:induction false} NonDestroyedMembers(ss: seq<SmithAgentState>)
    ensures forall s :: s in NonDestroyed(ss) <==> s in ss && s.state != Destroyed
  {
    if |ss| > 0 {
      NonDestroyedMembers(ss[..|ss| - 1]);
      assert ss == ss[..|ss| - 1] + [ss[|ss| - 1]];
    }
  }

  /** Filtering distributes over concatenation. */
  lemma {:induction false} NonDestroyedAppend(a: seq<SmithAgentState>, b: seq<SmithAgentState>)
    ensures NonDestroyed(a + b) == NonDestroyed(a) + NonDestroyed(b)
    decreases |b|
  {
    if |b| == 0 {
      assert a + b == a;
    } else {
      var b0 := b[..|b| - 1];
      assert (a + b)[..|a + b| - 1] == a + b0;
      assert (a + b)[|a + b| - 1] == b[|b| - 1];
      NonDestroyedAppend(a, b0);
    }
  }

  /** Two populations that agree, smith by smith, on who is destroyed have as many
      non-destroyed smiths. */
  lemma {:induction false} NonDestroyedCount(a: seq<SmithAgentState>, b: seq<SmithAgentState>)
    requires |a| == |b|
    requires forall i :: 0 <= i < |a| ==> (a[i].state == Destroyed <==> b[i].state == Destroyed)
    ensures |NonDestroyed(a)| == |NonDestroyed(b)|
    decreases |a|
  {
    if |a| > 0 {
      NonDestroyedCount(a[..|a| - 1], b[..|b| - 1]);
    }
  }

  /** `getPositions`: copies of the cells of the non-destroyed smiths, in order. */
  function Positions(ss: seq<SmithAgentState>): seq<Position> {
    if |ss| == 0 then []
    else
      var last := ss[|ss| - 1];
      Positions(ss[..|ss| - 1]) + (if last.state != Destroyed then [last.position] else [])
  }

  /** The `some` test of `findAdjacentEmpty`: a non-destroyed smith stands on `q`. */
  predicate Occupied(ss: seq<SmithAgentState>, q: Position) {
    exists i :: 0 <= i < |ss| && ss[i].state != Destroyed && ss[i].position == q
  }

  /** The position list holds exactly the occupied cells. */
  lemma {:induction false} PositionsAreOccupied(ss: seq<SmithAgentState>, q: Position)
    ensures q in Positions(ss) <==> Occupied(ss, q)
  {
    if |ss| > 0 {
      var init := ss[..|ss| - 1];
      var last := ss[|ss| - 1];
      PositionsAreOccupied(init, q);
      if Occupied(ss, q) && !(last.state != Destroyed && last.position == q) {
        var i :| 0 <= i < |ss| && ss[i].state != Destroyed && ss[i].position == q;
        assert i < |init| && init[i] == ss[i];
      }
      if Occupied(init, q) {
        var i :| 0 <= i < |init| && init[i].state != Destroyed && init[i].position == q;
        assert ss[i] == init[i];
      }
    }
  }

  /** The position list is the cells of the filtered population. */
  lemma {:induction false} PositionsOfNonDestroyed(ss: seq<SmithAgentState>)
    ensures |Positions(ss)| == |NonDestroyed(ss)|
    ensures forall i :: 0 <= i < |Positions(ss)| ==> Positions(ss)[i] == NonDestroyed(ss)[i].position
  {
    if |ss| > 0 {
      PositionsOfNonDestroyed(ss[..|ss| - 1]);
    }
  }

  /** `updateStrategy`: encircle from 10 non-destroyed smiths on, intercept from 5, chase
      below. */
  function StrategyFor(count: int): (st: SwarmStrategy)
    ensures st == Surround <==> count >= 10
    ensures st == Flank <==> 5 <= count < 10
    ensures st == Chase <==> count < 5
  {
    if count >= 10 then Surround else if count >= 5 then Flank else Chase
  }

  /** The escalation order of the strategies. */
  function Rank(st: SwarmStrategy): nat {
    match st
    case Chase => 0
    case Flank => 1
    case Surround => 2
  }

  /** A larger swarm never uses a less aggressive strategy. */
  lemma StrategyMonotone(a: int, b: int)
    requires a <= b
    ensures Rank(StrategyFor(a)) <= Rank(StrategyFor(b))
  {
  }

  /** The retagging loop applied to one smith. */
  function Retag(s: SmithAgentState, st: SwarmStrategy): SmithAgentState {
    if s.state != Destroyed then s.(strategy := st) else s
  }

  function RetagAll(ss: seq<SmithAgentState>, st: SwarmStrategy): (r: seq<SmithAgentState>)
    ensures |r| == |ss|
    ensures forall i :: 0 <= i < |ss| ==> r[i] == Retag(ss[i], st)
  {
    if |ss| == 0 then [] else RetagAll(ss[..|ss| - 1], st) + [Retag(ss[|ss| - 1], st)]
  }

  /** The smith loop of `tick` after its first `k` iterations: smith `k - 1` ticks against
      the positions of the population as the earlier iterations left it. */
  function TickPrefix(ss: seq<SmithAgentState>, k: nat, neo: Position, n: int, ring: RingOffsets): (r: seq<SmithAgentState>)
    requires k <= |ss|
    ensures |r| == |ss|
  {
    if k == 0 then ss
    else
      var prev := TickPrefix(ss, k - 1, neo, n, ring);
      prev[k - 1 := SmithAgent.Step(prev[k - 1], neo, Positions(prev), n, ring)]
  }

  /** After `k` iterations the first `k` smiths have each made one tick and the rest are
      untouched. */
  lemma {:induction false} TickPrefixSpec(ss: seq<SmithAgentState>, k: nat, neo: Position, n: int, ring: RingOffsets)
    requires k <= |ss|
    ensures var r := TickPrefix(ss, k, neo, n, ring);
      && (forall i :: 0 <= i < k ==> SmithAgent.Successor(ss[i], r[i], n))
      && (forall i :: k <= i < |ss| ==> r[i] == ss[i])
  {
    if k > 0 {
      TickPrefixSpec(ss, k - 1, neo, n, ring);
      var prev := TickPrefix(ss, k - 1, neo, n, ring);
      SmithAgent.StepSpec(prev[k - 1], neo, Positions(prev), n, ring);
    }
  }

  /** Smith `i` after `k > i` iterations is exactly its own `tick` from its old state,
      against the positions the first `i` iterations left; no later iteration touches it. */
  lemma {:induction false} TickPrefixStep(ss: seq<SmithAgentState>, k: nat, neo: Position, n: int, ring: RingOffsets)
    requires k <= |ss|
    ensures forall i :: 0 <= i < k ==>
      TickPrefix(ss, k, neo, n, ring)[i] == SmithAgent.Step(ss[i], neo, Positions(TickPrefix(ss, i, neo, n, ring)), n, ring)
  {
    if k > 0 {
      TickPrefixStep(ss, k - 1, neo, n, ring);
      TickPrefixSpec(ss, k - 1, neo, n, ring);
      assert TickPrefix(ss, k - 1, neo, n, ring)[k - 1] == ss[k - 1];
    }
  }

  /** The random choices of one replication: the value `Math.random() * active.length`
      floors to, and the shuffled order of the eight directions. */
  datatype ReplicationDice = ReplicationDice(parentPick: nat, order: seq<Position>)

  /** The shuffle is a permutation of the eight directions. */
  predicate ValidDice(dice: ReplicationDice) {
    multiset(dice.order) == multiset(Dirs8)
  }

  /** Direction `d` is of no use for a new smith next to `pos`: its cell is off the grid
      or taken by a non-destroyed smith. */
  predicate Blocked(pos: Position, ss: seq<SmithAgentState>, d: Position, n: int) {
    !InBounds(Shift(pos, d), n) || Occupied(ss, Shift(pos, d))
  }

  /** The index of the first direction of `order` that is not blocked (`|order|` if none). */
  function FirstFree(pos: Position, ss: seq<SmithAgentState>, order: seq<Position>, n: int): (k: nat)
    ensures k <= |order|
    ensures forall j :: 0 <= j < k ==> Blocked(pos, ss, order[j], n)
    ensures k < |order| ==> !Blocked(pos, ss, order[k], n)
    decreases |order|
  {
    if |order| == 0 then 0
    else if !Blocked(pos, ss, order[0], n) then 0
    else
      var k := FirstFree(pos, ss, order[1..], n);
      assert forall j :: 1 <= j < |order| ==> order[j] == order[1..][j - 1];
      1 + k
  }

  /** `findAdjacentEmpty`: the cell of the first direction, in the shuffled order, that is
      on the grid and not taken by a non-destroyed smith. */
  function AdjacentEmpty(pos: Position, ss: seq<SmithAgentState>, order: seq<Position>, n: int): Option<Position> {
    var k := FirstFree(pos, ss, order, n);
    if k < |order| then Some(Shift(pos, order[k])) else None
  }

  /** With a shuffle of the eight directions the cell found touches the parent, and no cell
      is found only when every cell around the parent is off the grid or taken. */
  lemma AdjacentEmptyAround(pos: Position, ss: seq<SmithAgentState>, dice: ReplicationDice, n: int)
    requires ValidDice(dice)
    ensures var r := AdjacentEmpty(pos, ss, dice.order, n);
      && (r.Some? ==> Adjacent8(pos, r.value))
      && (r.None? ==> forall q :: Adjacent8(pos, q) && InBounds(q, n) ==> Occupied(ss, q))
  {
    var order := dice.order;
    var k := FirstFree(pos, ss, order, n);
    if k < |order| {
      assert order[k] in multiset(order);
      DirectionIsAdjacent(pos, order[k]);
    } else {
      forall q | Adjacent8(pos, q) && InBounds(q, n)
        ensures Occupied(ss, q)
      {
        var d := Position(q.x - pos.x, q.y - pos.y);
        DirectionOfAdjacent(pos, q);
        assert d in multiset(order);
        var j :| 0 <= j < |order| && order[j] == d;
        assert Blocked(pos, ss, order[j], n);
      }
    }
  }

  /** The population, counters and timers of a swarm. `counter` is the id counter of
      `createSmith`. */
  datatype SwarmData = SwarmData(
    smiths: seq<SmithAgentState>,
    generation: int,
    strategy: SwarmStrategy,
    nextReplication: int,
    counter: nat)

  /** Every smith is on the grid, and the ids are distinct and drawn from 1..counter. */
  predicate WellFormed(ss: seq<SmithAgentState>, counter: nat, n: int) {
    && (forall i :: 0 <= i < |ss| ==> InBounds(ss[i].position, n) && 1 <= ss[i].id <= counter)
    && (forall i, j :: 0 <= i < j < |ss| ==> ss[i].id != ss[j].id)
  }

  /** Appending a fresh smith with the next id keeps the population well formed. */
  lemma AppendFreshSmith(ss: seq<SmithAgentState>, counter: nat, n: int, s: SmithAgentState)
    requires WellFormed(ss, counter, n) && s.id == counter + 1 && InBounds(s.position, n)
    ensures WellFormed(ss + [s], counter + 1, n)
  {
  }

  /** The cell a replication fills, if any: none with no non-destroyed smith or with
      `maxSmiths` of them, otherwise the first free cell around the picked parent. */
  function Offspring(ss: seq<SmithAgentState>, cfg: Config, dice: ReplicationDice): Option<Position> {
    var active := NonDestroyed(ss);
    if |active| == 0 || |active| >= cfg.maxSmiths then None
    else AdjacentEmpty(active[dice.parentPick % |active|].position, ss, dice.order, cfg.gridSize)
  }

  /** `replicate`: a new smith of the next generation on the offspring cell, with one info
      event. The second component is the events pushed. */
  function ReplicateStep(d: SwarmData, cfg: Config, dice: ReplicationDice, tick: int): (SwarmData, seq<SimulationEvent>) {
    match Offspring(d.smiths, cfg, dice)
    case None => (d, [])
    case Some(q) =>
      var g := d.generation + 1;
      (d.(smiths := d.smiths + [SmithAgent.NewSmith(d.counter + 1, q, g)], generation := g, counter := d.counter + 1),
       [SimulationEvent(tick, Info)])
  }

  /** The retagging and smith loops of `tick`. */
  function Moved(ss: seq<SmithAgentState>, st: SwarmStrategy, neo: Position, n: int, ring: RingOffsets): seq<SmithAgentState> {
    var tagged := RetagAll(ss, st);
    TickPrefix(tagged, |tagged|, neo, n, ring)
  }

  /** `tick`: choose the strategy from the non-destroyed count, tag the non-destroyed smiths
      with it, tick every smith in order, then count down to the next replication; the
      countdown restarts only when a replication is attempted. */
  function SwarmStep(d: SwarmData, cfg: Config, neo: Position, ring: RingOffsets, dice: ReplicationDice, tick: int)
    : (SwarmData, seq<SimulationEvent>)
  {
    var st := StrategyFor(|NonDestroyed(d.smiths)|);
    var moved := Moved(d.smiths, st, neo, cfg.gridSize, ring);
    var d1 := d.(smiths := moved, strategy := st, nextReplication := d.nextReplication - 1);
    if d1.nextReplication <= 0 && |NonDestroyed(moved)| < cfg.maxSmiths then
      var (d2, evs) := ReplicateStep(d1, cfg, dice, tick);
      (d2.(nextReplication := cfg.replicationInterval), evs)
    else (d1, [])
  }

  /** The offspring cell is on the grid and free; with a shuffle of the eight directions it
      touches a non-destroyed parent, and there is none below the cap only when every cell
      around the parent is off the grid or taken. */
  lemma OffspringSpec(ss: seq<SmithAgentState>, cfg: Config, dice: ReplicationDice)
    ensures var r := Offspring(ss, cfg, dice);
      var active := NonDestroyed(ss);
      && (r.Some? ==> 0 < |active| < cfg.maxSmiths && InBounds(r.value, cfg.gridSize)
                      && !Occupied(ss, r.value) && r.value !in Positions(ss))
      && (ValidDice(dice) && r.Some? ==> exists p :: p in active && Adjacent8(p.position, r.value))
      && (ValidDice(dice) && r.None? && 0 < |active| < cfg.maxSmiths ==>
            var parent := active[dice.parentPick % |active|];
            forall q :: Adjacent8(parent.position, q) && InBounds(q, cfg.gridSize) ==> Occupied(ss, q))
  {
    var r := Offspring(ss, cfg, dice);
    var active := NonDestroyed(ss);
    if 0 < |active| < cfg.maxSmiths {
      var parent := active[dice.parentPick % |active|];
      if ValidDice(dice) {
        AdjacentEmptyAround(parent.position, ss, dice, cfg.gridSize);
      }
      if r.Some? {
        PositionsAreOccupied(ss, r.value);
      }
    }
  }

  /** What a replication does: either nothing, or exactly one new active, chasing smith of
      generation g + 1 with id counter + 1 on the offspring cell, announced by one info
      event; the strategy and the countdown are left alone. */
  lemma ReplicateSpec(d: SwarmData, cfg: Config, dice: ReplicationDice, tick: int)
    ensures var (d2, evs) := ReplicateStep(d, cfg, dice, tick);
      && d2.strategy == d.strategy && d2.nextReplication == d.nextReplication
      && (Offspring(d.smiths, cfg, dice).None? ==> d2 == d && evs == [])
      && (Offspring(d.smiths, cfg, dice).Some? ==>
            var q := Offspring(d.smiths, cfg, dice).value;
            && d2.generation == d.generation + 1 && d2.counter == d.counter + 1
            && d2.smiths == d.smiths + [SmithAgent.NewSmith(d.counter + 1, q, d.generation + 1)]
            && evs == [SimulationEvent(tick, Info)]
            && |NonDestroyed(d2.smiths)| == |NonDestroyed(d.smiths)| + 1)
  {
    var r := Offspring(d.smiths, cfg, dice);
    if r.Some? {
      var born := SmithAgent.NewSmith(d.counter + 1, r.value, d.generation + 1);
      NonDestroyedAppend(d.smiths, [born]);
      assert NonDestroyed([born]) == [born];
    }
  }

  /** A replication keeps the population well formed: the new smith stands on the grid and
      takes the next id. */
  lemma ReplicateWellFormed(d: SwarmData, cfg: Config, dice: ReplicationDice, tick: int)
    requires WellFormed(d.smiths, d.counter, cfg.gridSize)
    ensures var d2 := ReplicateStep(d, cfg, dice, tick).0;
      WellFormed(d2.smiths, d2.counter, cfg.gridSize)
  {
    var r := Offspring(d.smiths, cfg, dice);
    if r.Some? {
      AppendFreshSmith(d.smiths, d.counter, cfg.gridSize, SmithAgent.NewSmith(d.counter + 1, r.value, d.generation + 1));
    }
  }

  /** The two loops keep the population's length, ids, generations and destroyed statuses,
      so also its non-destroyed count; each smith moves at most one orthogonal step, and the
      non-destroyed ones carry the new tag. */
  lemma MovedSpec(ss: seq<SmithAgentState>, st: SwarmStrategy, neo: Position, n: int, ring: RingOffsets)
    ensures var r := Moved(ss, st, neo, n, ring);
      && |r| == |ss|
      && (forall i :: 0 <= i < |ss| ==> SmithAgent.Successor(Retag(ss[i], st), r[i], n))
      && |NonDestroyed(r)| == |NonDestroyed(ss)|
  {
    var tagged := RetagAll(ss, st);
    var r := TickPrefix(tagged, |tagged|, neo, n, ring);
    TickPrefixSpec(tagged, |tagged|, neo, n, ring);
    NonDestroyedCount(ss, tagged);
    NonDestroyedCount(tagged, r);
  }

  /** Each smith after the two loops is its retagged self after exactly one `tick`, against
      the positions the earlier smiths left. */
  lemma MovedStep(ss: seq<SmithAgentState>, st: SwarmStrategy, neo: Position, n: int, ring: RingOffsets)
    ensures var r := Moved(ss, st, neo, n, ring);
      |r| == |ss| &&
      forall i :: 0 <= i < |ss| ==>
        r[i] == SmithAgent.Step(Retag(ss[i], st), neo, Positions(TickPrefix(RetagAll(ss, st), i, neo, n, ring)), n, ring)
  {
    TickPrefixStep(RetagAll(ss, st), |ss|, neo, n, ring);
  }

  /** The two loops keep the population well formed. */
  lemma MovedWellFormed(ss: seq<SmithAgentState>, st: SwarmStrategy, neo: Position, n: int, ring: RingOffsets, counter: nat)
    requires WellFormed(ss, counter, n)
    ensures WellFormed(Moved(ss, st, neo, n, ring), counter, n)
  {
    var tagged := RetagAll(ss, st);
    TickPrefixSpec(tagged, |tagged|, neo, n, ring);
  }

  /** The population bound of one swarm tick: ticking changes no smith's destroyed status,
      and replication adds at most one smith, only below the cap. So the non-destroyed count
      grows by at most one and never past `maxSmiths` unless it was already there. */
  lemma SwarmStepPopulation(d: SwarmData, cfg: Config, neo: Position, ring: RingOffsets, dice: ReplicationDice, tick: int)
    ensures var d2 := SwarmStep(d, cfg, neo, ring, dice, tick).0;
      var before := |NonDestroyed(d.smiths)|;
      var after := |NonDestroyed(d2.smiths)|;
      && before <= after <= before + 1
      && after <= Max(before, cfg.maxSmiths)
  {
    var st := StrategyFor(|NonDestroyed(d.smiths)|);
    var moved := Moved(d.smiths, st, neo, cfg.gridSize, ring);
    MovedSpec(d.smiths, st, neo, cfg.gridSize, ring);
    var d1 := d.(smiths := moved, strategy := st, nextReplication := d.nextReplication - 1);
    ReplicateSpec(d1, cfg, dice, tick);
  }

  /** One swarm tick, smith by smith: the swarm strategy is the one for its non-destroyed
      count, every old smith has made one tick (keeping its id, generation and destroyed
      status, moving at most one orthogonal step) and, if not destroyed, is tagged with
      that strategy; at most one smith is appended, with one info event. The countdown
      restarts at `replicationInterval` exactly when it has run out below the cap, and
      otherwise keeps counting down, also below zero. */
  lemma SwarmStepSpec(d: SwarmData, cfg: Config, neo: Position, ring: RingOffsets, dice: ReplicationDice, tick: int)
    ensures var (d2, evs) := SwarmStep(d, cfg, neo, ring, dice, tick);
      var st := StrategyFor(|NonDestroyed(d.smiths)|);
      && d2.strategy == st
      && |d.smiths| <= |d2.smiths| <= |d.smiths| + 1
      && (forall i :: 0 <= i < |d.smiths| ==>
            && SmithAgent.Successor(Retag(d.smiths[i], st), d2.smiths[i], cfg.gridSize)
            && d2.smiths[i].strategy == (if d.smiths[i].state == Destroyed then d.smiths[i].strategy else st))
      && (|d2.smiths| == |d.smiths| + 1 <==> evs == [SimulationEvent(tick, Info)])
      && (|d2.smiths| == |d.smiths| <==> evs == [])
      && (|d2.smiths| == |d.smiths| ==> d2.generation == d.generation && d2.counter == d.counter)
      && (|d2.smiths| == |d.smiths| + 1 ==>
            && d2.generation == d.generation + 1 && d2.counter == d.counter + 1
            && d2.smiths[|d.smiths|] == SmithAgent.NewSmith(d2.counter, d2.smiths[|d.smiths|].position, d2.generation))
      && (d.nextReplication - 1 <= 0 && |NonDestroyed(d.smiths)| < cfg.maxSmiths ==>
            d2.nextReplication == cfg.replicationInterval)
      && (!(d.nextReplication - 1 <= 0 && |NonDestroyed(d.smiths)| < cfg.maxSmiths) ==>
            d2.nextReplication == d.nextReplication - 1 && |d2.smiths| == |d.smiths|)
  {
    var st := StrategyFor(|NonDestroyed(d.smiths)|);
    var moved := Moved(d.smiths, st, neo, cfg.gridSize, ring);
    MovedSpec(d.smiths, st, neo, cfg.gridSize, ring);
    var d1 := d.(smiths := moved, strategy := st, nextReplication := d.nextReplication - 1);
    ReplicateSpec(d1, cfg, dice, tick);
  }

  /** Every old smith after a swarm tick is its retagged self after exactly one `tick`,
      against the positions the earlier smiths left; replication only appends. */
  lemma SwarmStepSmiths(d: SwarmData, cfg: Config, neo: Position, ring: RingOffsets, dice: ReplicationDice, tick: int)
    ensures var d2 := SwarmStep(d, cfg, neo, ring, dice, tick).0;
      var st := StrategyFor(|NonDestroyed(d.smiths)|);
      |d.smiths| <= |d2.smiths| &&
      forall i :: 0 <= i < |d.smiths| ==>
        d2.smiths[i] == SmithAgent.Step(Retag(d.smiths[i], st), neo,
          Positions(TickPrefix(RetagAll(d.smiths, st), i, neo, cfg.gridSize, ring)), cfg.gridSize, ring)
  {
    var st := StrategyFor(|NonDestroyed(d.smiths)|);
    var moved := Moved(d.smiths, st, neo, cfg.gridSize, ring);
    MovedStep(d.smiths, st, neo, cfg.gridSize, ring);
    var d1 := d.(smiths := moved, strategy := st, nextReplication := d.nextReplication - 1);
    ReplicateSpec(d1, cfg, dice, tick);
  }

  /** One swarm tick keeps every smith on the grid and the ids distinct and within the
      counter. */
  lemma SwarmStepWellFormed(d: SwarmData, cfg: Config, neo: Position, ring: RingOffsets, dice: ReplicationDice, tick: int)
    requires WellFormed(d.smiths, d.counter, cfg.gridSize)
    ensures var d2 := SwarmStep(d, cfg, neo, ring, dice, tick).0;
      WellFormed(d2.smiths, d2.counter, cfg.gridSize)
  {
    var st := StrategyFor(|NonDestroyed(d.smiths)|);
    var moved := Moved(d.smiths, st, neo, cfg.gridSize, ring);
    MovedWellFormed(d.smiths, st, neo, cfg.gridSize, ring, d.counter);
    var d1 := d.(smiths := moved, strategy := st, nextReplication := d.nextReplication - 1);
    ReplicateWellFormed(d1, cfg, dice, tick);
  }

  /** The centre of the grid, `Math.floor(gridSize / 2)` on both axes. */
  function Center(n: int): Position {
    Position(n / 2, n / 2)
  }

  /** The samples the rejection loop of `getSpawnPositions` keeps: those at distance at
      least 5 from the centre, in order. */
  function Accepted(samples: seq<Position>, n: int): (r: seq<Position>)
    ensures |r| <= |samples|
  {
    if |samples| == 0 then []
    else (if Distance(samples[0], Center(n)) >= 5 then [samples[0]] else []) + Accepted(samples[1..], n)
  }

  /** Every accepted cell is one of the samples, at distance at least 5 from the centre. */
  lemma {:induction false} AcceptedSpec(samples: seq<Position>, n: int)
    ensures forall p :: p in Accepted(samples, n) ==> p in samples && Distance(p, Center(n)) >= 5
  {
    if |samples| > 0 {
      AcceptedSpec(samples[1..], n);
    }
  }

  /** `createSmith` over a list of cells, with ids counted on from `counter`. */
  function Spawned(ps: seq<Position>, counter: nat, generation: int): (r: seq<SmithAgentState>)
    ensures |r| == |ps|
  {
    if |ps| == 0 then []
    else Spawned(ps[..|ps| - 1], counter, generation) + [SmithAgent.NewSmith(counter + |ps|, ps[|ps| - 1], generation)]
  }

  lemma {:induction false} SpawnedSpec(ps: seq<Position>, counter: nat, generation: int)
    ensures forall i :: 0 <= i < |ps| ==>
      Spawned(ps, counter, generation)[i] == SmithAgent.NewSmith(counter + i + 1, ps[i], generation)
  {
    if |ps| > 0 {
      SpawnedSpec(ps[..|ps| - 1], counter, generation);
    }
  }

  /** `init`: generation 1, chasing, a fresh countdown, and one new smith on each of the
      first `initialSmiths` accepted samples. */
  function InitData(cfg: Config, samples: seq<Position>, counter: nat): SwarmData
    requires |Accepted(samples, cfg.gridSize)| >= cfg.initialSmiths
  {
    var ps := Accepted(samples, cfg.gridSize)[..cfg.initialSmiths];
    SwarmData(Spawned(ps, counter, 1), 1, Chase, cfg.replicationInterval, counter + cfg.initialSmiths)
  }

  /** After `init` there are exactly `initialSmiths` smiths, active, chasing, of generation 1,
      with ids counter + 1, counter + 2, ..., all at distance at least 5 from the centre; when
      the samples are cells of the grid the population is well formed. */
  lemma InitSpec(cfg: Config, samples: seq<Position>, counter: nat)
    requires |Accepted(samples, cfg.gridSize)| >= cfg.initialSmiths
    ensures var d := InitData(cfg, samples, counter);
      && |d.smiths| == cfg.initialSmiths
      && (forall i :: 0 <= i < |d.smiths| ==>
            && d.smiths[i] == SmithAgent.NewSmith(counter + i + 1, d.smiths[i].position, 1)
            && Distance(d.smiths[i].position, Center(cfg.gridSize)) >= 5
            && d.smiths[i].position in samples)
      && ((forall p :: p in samples ==> InBounds(p, cfg.gridSize)) ==>
            WellFormed(d.smiths, d.counter, cfg.gridSize))
  {
    var ps := Accepted(samples, cfg.gridSize)[..cfg.initialSmiths];
    SpawnedSpec(ps, counter, 1);
    AcceptedSpec(samples, cfg.gridSize);
    forall i | 0 <= i < |ps|
      ensures Distance(ps[i], Center(cfg.gridSize)) >= 5 && ps[i] in samples
    {
      assert ps[i] in Accepted(samples, cfg.gridSize);
    }
  }

  /** `removeDestroyed` keeps the non-destroyed smiths and the well-formedness of the
      population, and changes nothing a strategy or a replication can see. */
  lemma RemoveDestroyedSpec(ss: seq<SmithAgentState>, counter: nat, n: int)
    ensures forall i :: 0 <= i < |NonDestroyed(ss)| ==> NonDestroyed(ss)[i].state != Destroyed
    ensures NonDestroyed(NonDestroyed(ss)) == NonDestroyed(ss)
    ensures Positions(NonDestroyed(ss)) == Positions(ss)
    ensures forall q :: Occupied(NonDestroyed(ss), q) <==> Occupied(ss, q)
    ensures WellFormed(ss, counter, n) ==> WellFormed(NonDestroyed(ss), counter, n)
  {
    NonDestroyedIdempotent(ss);
    forall q
      ensures Occupied(NonDestroyed(ss), q) <==> Occupied(ss, q)
    {
      PositionsAreOccupied(ss, q);
      PositionsAreOccupied(NonDestroyed(ss), q);
    }
    if WellFormed(ss, counter, n) {
      NonDestroyedWellFormed(ss, counter, n);
    }
  }

  lemma {:induction false} NonDestroyedIdempotent(ss: seq<SmithAgentState>)
    ensures NonDestroyed(NonDestroyed(ss)) == NonDestroyed(ss)
  {
    if |ss| > 0 {
      var init := ss[..|ss| - 1];
      var last := ss[|ss| - 1];
      NonDestroyedIdempotent(init);
      if last.state != Destroyed {
        NonDestroyedAppend(NonDestroyed(init), [last]);
        assert NonDestroyed([last]) == [last];
      }
    }
  }

  /** Filtering keeps the cells on the grid and the ids distinct and within the counter. */
  lemma {:induction false} NonDestroyedWellFormed(ss: seq<SmithAgentState>, counter: nat, n: int)
    requires WellFormed(ss, counter, n)
    ensures WellFormed(NonDestroyed(ss), counter, n)
  {
    if |ss| > 0 {
      var init := ss[..|ss| - 1];
      var last := ss[|ss| - 1];
      NonDestroyedWellFormed(init, counter, n);
      if last.state != Destroyed {
        var r := NonDestroyed(init);
        NonDestroyedMembers(init);
        forall i | 0 <= i < |r|
          ensures r[i].id != last.id
        {
          assert r[i] in init;
        }
        assert NonDestroyed(ss) == r + [last];
      }
    }
  }

  /** The swarm of the simulation. The id counter of `createSmith`, a module-level variable
      in the source, is the field `smithCounter`. */
  class Swarm {
    const cfg: Config
    var smiths: seq<SmithAgentState>
    var generation: int
    var strategy: SwarmStrategy
    var nextReplication: int
    var smithCounter: nat

    function Data(): SwarmData
      reads this
    {
      SwarmData(smiths, generation, strategy, nextReplication, smithCounter)
    }

    constructor (cfg: Config)
      ensures this.cfg == cfg
      ensures Data() == SwarmData([], 1, Chase, cfg.replicationInterval, 0)
    {
      this.cfg := cfg;
      smiths := [];
      generation := 1;
      strategy := Chase;
      nextReplication := cfg.replicationInterval;
      smithCounter := 0;
    }

    /** `init`, with the random cells drawn by `getSpawnPositions` given as `samples`. */
    method Init(samples: seq<Position>)
      requires |Accepted(samples, cfg.gridSize)| >= cfg.initialSmiths
      modifies this
      ensures Data() == InitData(cfg, samples, old(smithCounter))
    {
      smiths := [];
      generation := 1;
      strategy := Chase;
      nextReplication := cfg.replicationInterval;
      var positions := GetSpawnPositions(cfg.initialSmiths, samples);
      var c0 := smithCounter;
      var i := 0;
      while i < |positions|
        invariant 0 <= i <= |positions|
        invariant smiths == Spawned(positions[..i], c0, 1)
        invariant smithCounter == c0 + i
        invariant generation == 1 && strategy == Chase && nextReplication == cfg.replicationInterval
      {
        assert positions[..i + 1][..i] == positions[..i];
        smithCounter := smithCounter + 1;
        smiths := smiths + [SmithAgent.NewSmith(smithCounter, positions[i], 1)];
        i := i + 1;
      }
      assert positions[..i] == positions;
    }

    /** The rejection loop: draw cells until `count` of them lie at distance 5 or more from
        the centre. */
    method GetSpawnPositions(count: nat, samples: seq<Position>) returns (positions: seq<Position>)
      requires |Accepted(samples, cfg.gridSize)| >= count
      ensures positions == Accepted(samples, cfg.gridSize)[..count]
    {
      positions := [];
      var center := Center(cfg.gridSize);
      var minDist := 5;
      var k := 0;
      while |positions| < count
        invariant 0 <= k <= |samples|
        invariant |positions| <= count
        invariant positions + Accepted(samples[k..], cfg.gridSize) == Accepted(samples, cfg.gridSize)
        decreases |samples| - k
      {
        var p := samples[k];
        assert samples[k..][1..] == samples[k + 1..];
        var dist := Abs(p.x - center.x) + Abs(p.y - center.y);
        if dist >= minDist {
          positions := positions + [p];
        }
        k := k + 1;
      }
      assert (positions + Accepted(samples[k..], cfg.gridSize))[..count] == positions;
    }

    /** `tick`, with the random choices of a replication given as `dice`; returns the
        events pushed. */
    method Tick(tick: int, neoPos: Position, ring: RingOffsets, dice: ReplicationDice)
      returns (newEvents: seq<SimulationEvent>)
      modifies this
      ensures (Data(), newEvents) == SwarmStep(old(Data()), cfg, neoPos, ring, dice, tick)
    {
      UpdateStrategy();
      RetagActive();
      TickSmiths(neoPos, ring);
      nextReplication := nextReplication - 1;
      newEvents := [];
      if nextReplication <= 0 && |NonDestroyed(smiths)| < cfg.maxSmiths {
        newEvents := Replicate(tick, dice);
        nextReplication := cfg.replicationInterval;
      }
    }

    method UpdateStrategy()
      modifies this
      ensures Data() == old(Data()).(strategy := StrategyFor(|NonDestroyed(old(smiths))|))
    {
      var activeCount := |NonDestroyed(smiths)|;
      if activeCount >= 10 {
        strategy := Surround;
      } else if activeCount >= 5 {
        strategy := Flank;
      } else {
        strategy := Chase;
      }
    }

    /** The loop tagging every non-destroyed smith with the swarm strategy. */
    method RetagActive()
      modifies this
      ensures Data() == old(Data()).(smiths := RetagAll(old(smiths), strategy))
    {
      var i := 0;
      while i < |smiths|
        invariant 0 <= i <= |smiths| == |old(smiths)|
        invariant forall j :: 0 <= j < i ==> smiths[j] == Retag(old(smiths)[j], strategy)
        invariant forall j :: i <= j < |smiths| ==> smiths[j] == old(smiths)[j]
        invariant Data() == old(Data()).(smiths := smiths)
      {
        if smiths[i].state != Destroyed {
          smiths := smiths[i := smiths[i].(strategy := strategy)];
        }
        i := i + 1;
      }
    }

    /** The loop ticking every smith in order, each against the live position list. */
    method TickSmiths(neoPos: Position, ring: RingOffsets)
      modifies this
      ensures Data() == old(Data()).(smiths := TickPrefix(old(smiths), |old(smiths)|, neoPos, cfg.gridSize, ring))
    {
      var i := 0;
      while i < |smiths|
        invariant 0 <= i <= |smiths| == |old(smiths)|
        invariant smiths == TickPrefix(old(smiths), i, neoPos, cfg.gridSize, ring)
        invariant Data() == old(Data()).(smiths := smiths)
      {
        var s := SmithAgent.Tick(smiths[i], neoPos, Positions(smiths), cfg.gridSize, ring);
        smiths := smiths[i := s];
        i := i + 1;
      }
    }

    /** `replicate`, with the parent pick and the shuffle given as `dice`; returns the
        events pushed. */
    method Replicate(tick: int, dice: ReplicationDice) returns (newEvents: seq<SimulationEvent>)
      modifies this
      ensures (Data(), newEvents) == ReplicateStep(old(Data()), cfg, dice, tick)
    {
      newEvents := [];
      var active := NonDestroyed(smiths);
      if |active| == 0 || |active| >= cfg.maxSmiths {
        return;
      }
      var parent := active[dice.parentPick % |active|];
      var spawnPos := FindAdjacentEmpty(parent.position, dice.order);
      if spawnPos.Some? {
        generation := generation + 1;
        smithCounter := smithCounter + 1;
        smiths := smiths + [SmithAgent.NewSmith(smithCounter, spawnPos.value, generation)];
        newEvents := [SimulationEvent(tick, Info)];
      }
    }

    /** The search over the shuffled directions. */
    method FindAdjacentEmpty(pos: Position, order: seq<Position>) returns (r: Option<Position>)
      ensures r == AdjacentEmpty(pos, smiths, order, cfg.gridSize)
    {
      var i := 0;
      while i < |order|
        invariant 0 <= i <= FirstFree(pos, smiths, order, cfg.gridSize)
      {
        var neighbor := Shift(pos, order[i]);
        if InBounds(neighbor, cfg.gridSize) {
          var occupied := Occupied(smiths, neighbor);
          if !occupied {
            return Some(neighbor);
          }
        }
        i := i + 1;
      }
      return None;
    }

    /** `resetSmithCounter`: ids start again from one. */
    method ResetSmithCounter()
      modifies this
      ensures Data() == old(Data()).(counter := 0)
    {
      smithCounter := 0;
    }

    method RemoveDestroyed()
      modifies this
      ensures Data() == old(Data()).(smiths := NonDestroyed(old(smiths)))
    {
      smiths := NonDestroyed(smiths);
    }
  }
}
