/** The orchestrator (engine/Simulation.ts): the tick counter and the phase, the bullet-time
    skip of the swarm, Neo's turn, the periodic purge of destroyed smiths, the end of the
    game, the render cache and the external spawn and strategy override. */
module Simulation {
  import opened Types
  import opened World
  import SmithAgent
  import Swarm
  import FleetAgent
  import NeoAgent

  /** How many events a snapshot shows. */
  const ShownEvents: nat := 20

  /** `updatePhase`: the phase a tick count falls in while the game is undecided. */
  function PhaseFor(t: int, cfg: Config): (ph: SimPhase)
    ensures ph != Resolution
    ensures ph == Hunt <==> t <= cfg.huntPhaseEnd
    ensures ph == Replication <==> cfg.huntPhaseEnd < t <= cfg.replicationPhaseEnd
    ensures ph == BurlyBrawl <==> cfg.huntPhaseEnd < t && cfg.replicationPhaseEnd < t
  {
    if t <= cfg.huntPhaseEnd then Hunt
    else if t <= cfg.replicationPhaseEnd then Replication
    else BurlyBrawl
  }

  /** Everything one tick reads and writes: the fields of the simulation, Neo's record, the
      swarm, and the fleet and its id counter that the simulation carries for Neo. */
  datatype SimData = SimData(
    tickCount: int,
    phase: SimPhase,
    events: seq<SimulationEvent>,
    result: SimResult,
    bulletTimeActive: int,
    neo: NeoState,
    swarm: Swarm.SwarmData,
    fleet: FleetState,
    fleetCounter: nat)

  /** Steps 1 and 2 of `tick`: count the tick and update the phase. */
  function Advance(d: SimData, cfg: Config): SimData {
    d.(tickCount := d.tickCount + 1, phase := PhaseFor(d.tickCount + 1, cfg))
  }

  /** Step 3: the swarm moves from Neo's current cell, unless bullet time holds it, in which
      case the bullet-time counter drops by one. */
  function SwarmPhase(d: SimData, cfg: Config, ring: RingOffsets, dice: Swarm.ReplicationDice): SimData {
    if d.bulletTimeActive > 0 then d.(bulletTimeActive := d.bulletTimeActive - 1)
    else
      var (s, e) := Swarm.SwarmStep(d.swarm, cfg, d.neo.position, ring, dice, d.tickCount);
      d.(swarm := s, events := d.events + e)
  }

  /** Step 4: Neo's turn against the swarm's list; bullet time restarts at its duration when
      Neo triggers it. */
  function NeoPhase(d: SimData, cfg: Config, orders: seq<seq<Position>>): SimData
    requires |orders| >= 4
  {
    var o := NeoAgent.NeoStep(d.neo, d.swarm.smiths, d.fleet, d.fleetCounter, d.tickCount, cfg, orders);
    d.(neo := o.neo, swarm := d.swarm.(smiths := o.smiths), fleet := o.fleet, fleetCounter := o.counter,
       events := d.events + o.events,
       bulletTimeActive := if o.bulletTime then cfg.bulletTimeDuration else d.bulletTimeActive)
  }

  /** Step 5: every tenth tick the destroyed smiths leave the list. */
  function Purge(d: SimData): SimData {
    if d.tickCount % 10 == 0 then d.(swarm := d.swarm.(smiths := Swarm.NonDestroyed(d.swarm.smiths))) else d
  }

  /** The end conditions: a dead Neo before the survival target. */
  function Verdict(alive: bool, t: int, cfg: Config): (r: SimResult)
    ensures r == SmithWins <==> !alive
    ensures r == NeoWins <==> alive && t >= cfg.survivalTarget
    ensures r == Undecided <==> alive && t < cfg.survivalTarget
  {
    if !alive then SmithWins
    else if t >= cfg.survivalTarget then NeoWins
    else Undecided
  }

  /** The event announcing a result: critical for Smith, the shockwave colour for Neo. */
  function VerdictEvents(r: SimResult, t: int): seq<SimulationEvent> {
    match r
    case Undecided => []
    case SmithWins => [SimulationEvent(t, Critical)]
    case NeoWins => [SimulationEvent(t, ShockwaveEvent)]
  }

  /** Step 6: settle the result, entering Resolution with an announcement when there is one. */
  function Settle(d: SimData, cfg: Config): SimData {
    var r := Verdict(d.neo.alive, d.tickCount, cfg);
    d.(result := r, phase := if r == Undecided then d.phase else Resolution,
       events := d.events + VerdictEvents(r, d.tickCount))
  }

  /** `tick`: nothing once decided, otherwise the six steps in order. */
  function SimStep(d: SimData, cfg: Config, ring: RingOffsets, dice: Swarm.ReplicationDice,
                   orders: seq<seq<Position>>): SimData
    requires |orders| >= 4
  {
    if d.result != Undecided then d
    else Tail(Head(d, cfg, ring, dice), cfg, orders)
  }

  /** Steps 1 to 3. */
  function Head(d: SimData, cfg: Config, ring: RingOffsets, dice: Swarm.ReplicationDice): SimData {
    SwarmPhase(Advance(d, cfg), cfg, ring, dice)
  }

  /** Steps 4 to 6. */
  function Tail(e: SimData, cfg: Config, orders: seq<seq<Position>>): SimData
    requires |orders| >= 4
  {
    Settle(Purge(NeoPhase(e, cfg, orders)), cfg)
  }

  /** The first three steps, field by field. */
  lemma HeadFields(d: SimData, cfg: Config, ring: RingOffsets, dice: Swarm.ReplicationDice)
    ensures var e := Head(d, cfg, ring, dice);
      var (sw, se) := Swarm.SwarmStep(d.swarm, cfg, d.neo.position, ring, dice, d.tickCount + 1);
      && e.tickCount == d.tickCount + 1 && e.phase == PhaseFor(d.tickCount + 1, cfg) && e.result == d.result
      && e.neo == d.neo && e.fleet == d.fleet && e.fleetCounter == d.fleetCounter
      && (d.bulletTimeActive > 0 ==>
            e.swarm == d.swarm && e.events == d.events && e.bulletTimeActive == d.bulletTimeActive - 1)
      && (d.bulletTimeActive <= 0 ==>
            e.swarm == sw && e.events == d.events + se && e.bulletTimeActive == d.bulletTimeActive)
  {
  }

  /** The last three steps, field by field. */
  lemma TailFields(e: SimData, cfg: Config, orders: seq<seq<Position>>)
    requires |orders| >= 4
    ensures var f := Tail(e, cfg, orders);
      var o := NeoAgent.NeoStep(e.neo, e.swarm.smiths, e.fleet, e.fleetCounter, e.tickCount, cfg, orders);
      var r := Verdict(o.neo.alive, e.tickCount, cfg);
      && f.tickCount == e.tickCount && f.result == r
      && f.phase == (if r == Undecided then e.phase else Resolution)
      && f.events == e.events + o.events + VerdictEvents(r, e.tickCount)
      && f.bulletTimeActive == (if o.bulletTime then cfg.bulletTimeDuration else e.bulletTimeActive)
      && f.neo == o.neo && f.fleet == o.fleet && f.fleetCounter == o.counter
      && f.swarm == e.swarm.(smiths := if e.tickCount % 10 == 0 then Swarm.NonDestroyed(o.smiths) else o.smiths)
  {
  }

  /** `init`: a fresh game with the smiths placed from `samples` and ids counted from one
      again. The fleet starts empty; its id counter is never reset. */
  function InitSim(d: SimData, cfg: Config, samples: seq<Position>): SimData
    requires |Swarm.Accepted(samples, cfg.gridSize)| >= cfg.initialSmiths
  {
    SimData(0, Hunt, [SimulationEvent(0, Info), SimulationEvent(0, Info)], Undecided, 0,
            NeoAgent.InitialState(cfg), Swarm.InitData(cfg, samples, 0), FleetState([], 0, 0), d.fleetCounter)
  }

  /** `spawnSmith`: an in-bounds cell gets a new active smith of the current generation and
      a warning; any other cell is ignored. */
  function SpawnStep(d: SimData, cfg: Config, x: int, y: int): SimData {
    if InBounds(Position(x, y), cfg.gridSize) then
      var s := SmithAgent.NewSmith(d.swarm.counter + 1, Position(x, y), d.swarm.generation);
      d.(swarm := d.swarm.(smiths := d.swarm.smiths + [s], counter := d.swarm.counter + 1),
         events := d.events + [SimulationEvent(d.tickCount, Warning)])
    else d
  }

  /** `setSwarmStrategy`: replace the swarm strategy and log a warning. */
  function OverrideStep(d: SimData, st: SwarmStrategy): SimData {
    d.(swarm := d.swarm.(strategy := st), events := d.events + [SimulationEvent(d.tickCount, Warning)])
  }

  /** `events.slice(-20)`: the last twenty events, or all of them when there are fewer. */
  function LastEvents(evs: seq<SimulationEvent>): (r: seq<SimulationEvent>)
    ensures |r| == Min(ShownEvents, |evs|)
    ensures r == evs[|evs| - |r|..]
  {
    if |evs| <= ShownEvents then evs else evs[|evs| - ShownEvents..]
  }

  /** What the render cache shows on cell `p`: Neo while alive, otherwise a smith that is not
      destroyed, otherwise nothing. */
  function RenderCell(p: Position, ss: seq<SmithAgentState>, neo: NeoState): CellType {
    if neo.alive && p == neo.position then NeoCell
    else if p in Swarm.Positions(ss) then SmithCell
    else Empty
  }

  /** The bounds a game keeps from `init` on: Neo's cooldowns and charges in range and Neo
      on the grid, a well-formed population, the bullet-time counter between 0 and its
      duration, and the result, the phase and Neo's life in agreement. */
  predicate SimInv(d: SimData, cfg: Config) {
    && NeoAgent.NeoInv(d.neo, cfg)
    && InBounds(d.neo.position, cfg.gridSize)
    && Swarm.WellFormed(d.swarm.smiths, d.swarm.counter, cfg.gridSize)
    && 0 <= d.bulletTimeActive <= cfg.bulletTimeDuration
    && d.tickCount >= 0
    && (d.result == Undecided <==> d.phase != Resolution)
    && (d.result == SmithWins <==> !d.neo.alive)
    && (d.result == NeoWins ==> d.tickCount >= cfg.survivalTarget)
  }

  /** Once a result is set, a tick changes nothing. */
  lemma DecidedTickIsNoop(d: SimData, cfg: Config, ring: RingOffsets, dice: Swarm.ReplicationDice,
                          orders: seq<seq<Position>>)
    requires |orders| >= 4 && d.result != Undecided
    ensures SimStep(d, cfg, ring, dice, orders) == d
  {
  }

  /** An undecided tick advances the counter by one and only appends events; the result is
      Smith's exactly when Neo died, Neo's when Neo is alive at the survival target, and the
      phase is Resolution exactly when a result is set and otherwise follows the counter. */
  lemma TickClock(d: SimData, cfg: Config, ring: RingOffsets, dice: Swarm.ReplicationDice,
                  orders: seq<seq<Position>>)
    requires |orders| >= 4 && d.result == Undecided
    ensures var d2 := SimStep(d, cfg, ring, dice, orders);
      && d2.tickCount == d.tickCount + 1
      && d2.events[..|d.events|] == d.events
      && (d2.result == SmithWins <==> !d2.neo.alive)
      && (d2.result == NeoWins <==> d2.neo.alive && d2.tickCount >= cfg.survivalTarget)
      && (d2.result != Undecided <==> d2.phase == Resolution)
      && (d2.result == Undecided ==> d2.phase == PhaseFor(d2.tickCount, cfg))
      && (d2.result != Undecided ==> d2.events[|d2.events| - 1] == VerdictEvents(d2.result, d2.tickCount)[0])
  {
    var e := Head(d, cfg, ring, dice);
    HeadFields(d, cfg, ring, dice);
    TailFields(e, cfg, orders);
    var f := Tail(e, cfg, orders);
    assert e.events[..|d.events|] == d.events;
    assert f.events[..|d.events|] == d.events;
  }

  /** While bullet time runs the swarm keeps its strategy, generation, countdown and id
      counter, and no smith moves or is born; the counter drops by one
      unless Neo triggers bullet time again, which restarts it at its duration. */
  lemma BulletTimeHoldsSwarm(d: SimData, cfg: Config, ring: RingOffsets, dice: Swarm.ReplicationDice,
                             orders: seq<seq<Position>>)
    requires |orders| >= 4 && d.result == Undecided && d.bulletTimeActive > 0
    ensures var d2 := SimStep(d, cfg, ring, dice, orders);
      var o := NeoAgent.NeoStep(d.neo, d.swarm.smiths, d.fleet, d.fleetCounter, d.tickCount + 1, cfg, orders);
      && d2.swarm.strategy == d.swarm.strategy && d2.swarm.generation == d.swarm.generation
      && d2.swarm.nextReplication == d.swarm.nextReplication && d2.swarm.counter == d.swarm.counter
      && d2.bulletTimeActive == (if o.bulletTime then cfg.bulletTimeDuration else d.bulletTimeActive - 1)
      && (forall s :: s in d2.swarm.smiths ==>
            exists i :: 0 <= i < |d.swarm.smiths| && d.swarm.smiths[i].id == s.id
                        && d.swarm.smiths[i].position == s.position)
  {
    var e := Head(d, cfg, ring, dice);
    HeadFields(d, cfg, ring, dice);
    TailFields(e, cfg, orders);
    var o := NeoAgent.NeoStep(d.neo, d.swarm.smiths, d.fleet, d.fleetCounter, d.tickCount + 1, cfg, orders);
    NeoAgent.NeoTickSmiths(d.neo, d.swarm.smiths, d.fleet, d.fleetCounter, d.tickCount + 1, cfg, orders);
    Swarm.NonDestroyedMembers(o.smiths);
    var f := Tail(e, cfg, orders);
    forall s | s in f.swarm.smiths
      ensures exists i :: 0 <= i < |d.swarm.smiths| && d.swarm.smiths[i].id == s.id
                          && d.swarm.smiths[i].position == s.position
    {
      assert s in o.smiths;
      var i :| 0 <= i < |o.smiths| && o.smiths[i] == s;
      assert d.swarm.smiths[i].id == s.id && d.swarm.smiths[i].position == s.position;
    }
  }

  /** Without bullet time the swarm takes its turn first, from Neo's cell before Neo moves:
      its strategy is the one for its non-destroyed count, its countdown and generation are
      those of the swarm tick, and the bullet-time counter stays unless Neo triggers it. */
  lemma SwarmMovesOutsideBulletTime(d: SimData, cfg: Config, ring: RingOffsets, dice: Swarm.ReplicationDice,
                                    orders: seq<seq<Position>>)
    requires |orders| >= 4 && d.result == Undecided && d.bulletTimeActive <= 0
    ensures var d2 := SimStep(d, cfg, ring, dice, orders);
      var sw := Swarm.SwarmStep(d.swarm, cfg, d.neo.position, ring, dice, d.tickCount + 1).0;
      var o := NeoAgent.NeoStep(d.neo, sw.smiths, d.fleet, d.fleetCounter, d.tickCount + 1, cfg, orders);
      && d2.swarm.strategy == Swarm.StrategyFor(|Swarm.NonDestroyed(d.swarm.smiths)|)
      && d2.swarm.nextReplication == sw.nextReplication && d2.swarm.generation == sw.generation
      && d2.bulletTimeActive == (if o.bulletTime then cfg.bulletTimeDuration else d.bulletTimeActive)
  {
    Swarm.SwarmStepSpec(d.swarm, cfg, d.neo.position, ring, dice, d.tickCount + 1);
    HeadFields(d, cfg, ring, dice);
    TailFields(Head(d, cfg, ring, dice), cfg, orders);
  }

  /** Destroyed smiths leave the list on every tenth tick and only then: on other ticks
      the list keeps every smith it had, in place (replication may add one). */
  lemma PurgeEveryTenthTick(d: SimData, cfg: Config, ring: RingOffsets, dice: Swarm.ReplicationDice,
                            orders: seq<seq<Position>>)
    requires |orders| >= 4 && d.result == Undecided
    ensures var d2 := SimStep(d, cfg, ring, dice, orders);
      && (d2.tickCount % 10 == 0 ==> forall i :: 0 <= i < |d2.swarm.smiths| ==> d2.swarm.smiths[i].state != Destroyed)
      && (d2.tickCount % 10 != 0 ==>
            && |d2.swarm.smiths| >= |d.swarm.smiths|
            && forall i :: 0 <= i < |d.swarm.smiths| ==> d2.swarm.smiths[i].id == d.swarm.smiths[i].id)
  {
    var e := Head(d, cfg, ring, dice);
    HeadFields(d, cfg, ring, dice);
    TailFields(e, cfg, orders);
    if d.bulletTimeActive <= 0 {
      Swarm.SwarmStepSpec(d.swarm, cfg, d.neo.position, ring, dice, d.tickCount + 1);
    }
    assert |e.swarm.smiths| >= |d.swarm.smiths|;
    assert forall i :: 0 <= i < |d.swarm.smiths| ==> e.swarm.smiths[i].id == d.swarm.smiths[i].id;
    NeoAgent.NeoTickSmiths(e.neo, e.swarm.smiths, e.fleet, e.fleetCounter, e.tickCount, cfg, orders);
  }

  /** `init` starts at tick zero, undecided, hunting, without bullet time, with Neo reset,
      exactly two events, an empty fleet and the smiths the swarm places; under a valid
      configuration and with samples on the grid the game bounds hold. */
  lemma InitSpec(d: SimData, cfg: Config, samples: seq<Position>)
    requires |Swarm.Accepted(samples, cfg.gridSize)| >= cfg.initialSmiths
    ensures var d2 := InitSim(d, cfg, samples);
      && d2.tickCount == 0 && d2.result == Undecided && d2.phase == Hunt && d2.bulletTimeActive == 0
      && d2.events == [SimulationEvent(0, Info), SimulationEvent(0, Info)]
      && d2.neo == NeoAgent.InitialState(cfg) && d2.fleet.agents == []
      && |d2.swarm.smiths| == cfg.initialSmiths
      && (ValidConfig(cfg) && (forall p :: p in samples ==> InBounds(p, cfg.gridSize)) ==> SimInv(d2, cfg))
  {
    Swarm.InitSpec(cfg, samples, 0);
    if ValidConfig(cfg) {
      NeoAgent.InitialStateSpec(cfg);
    }
  }

  /** Neo's turn keeps every smith's id and cell, so a well-formed population stays so. */
  lemma {:induction false} SameIdsAndCells(ss: seq<SmithAgentState>, ss2: seq<SmithAgentState>, counter: nat, n: int)
    requires Swarm.WellFormed(ss, counter, n) && |ss2| == |ss|
    requires forall i :: 0 <= i < |ss| ==> ss2[i].id == ss[i].id && ss2[i].position == ss[i].position
    ensures Swarm.WellFormed(ss2, counter, n)
  {
    forall i, j | 0 <= i < j < |ss2|
      ensures ss2[i].id != ss2[j].id
    {
      assert ss[i].id != ss[j].id;
    }
  }

  /** The smiths after a tick are well formed when they were before. */
  lemma StepKeepsPopulation(d: SimData, cfg: Config, ring: RingOffsets, dice: Swarm.ReplicationDice,
                            orders: seq<seq<Position>>)
    requires |orders| >= 4 && d.result == Undecided
    requires Swarm.WellFormed(d.swarm.smiths, d.swarm.counter, cfg.gridSize)
    ensures var d2 := SimStep(d, cfg, ring, dice, orders);
      Swarm.WellFormed(d2.swarm.smiths, d2.swarm.counter, cfg.gridSize)
  {
    var e := Head(d, cfg, ring, dice);
    HeadFields(d, cfg, ring, dice);
    TailFields(e, cfg, orders);
    if d.bulletTimeActive <= 0 {
      Swarm.SwarmStepWellFormed(d.swarm, cfg, d.neo.position, ring, dice, d.tickCount + 1);
    }
    assert Swarm.WellFormed(e.swarm.smiths, e.swarm.counter, cfg.gridSize);
    var o := NeoAgent.NeoStep(e.neo, e.swarm.smiths, e.fleet, e.fleetCounter, e.tickCount, cfg, orders);
    NeoAgent.NeoTickSmiths(e.neo, e.swarm.smiths, e.fleet, e.fleetCounter, e.tickCount, cfg, orders);
    SameIdsAndCells(e.swarm.smiths, o.smiths, e.swarm.counter, cfg.gridSize);
    Swarm.NonDestroyedWellFormed(o.smiths, e.swarm.counter, cfg.gridSize);
  }

  /** Under a valid configuration every tick keeps the game bounds. */
  lemma StepKeepsInv(d: SimData, cfg: Config, ring: RingOffsets, dice: Swarm.ReplicationDice,
                     orders: seq<seq<Position>>)
    requires |orders| >= 4 && ValidConfig(cfg) && SimInv(d, cfg)
    ensures SimInv(SimStep(d, cfg, ring, dice, orders), cfg)
  {
    if d.result == Undecided {
      var e := Head(d, cfg, ring, dice);
      HeadFields(d, cfg, ring, dice);
      TailFields(e, cfg, orders);
      NeoAgent.NeoTickKeepsInv(e.neo, e.swarm.smiths, e.fleet, e.fleetCounter, e.tickCount, cfg, orders);
      NeoAgent.NeoTickMoves(e.neo, e.swarm.smiths, e.fleet, e.fleetCounter, e.tickCount, cfg, orders);
      StepKeepsPopulation(d, cfg, ring, dice, orders);
    }
  }

  /** An in-bounds spawn appends exactly one active smith of the current generation with a
      fresh id and one warning, keeping the bounds; an out-of-bounds one changes nothing. */
  lemma SpawnSpec(d: SimData, cfg: Config, x: int, y: int)
    ensures var d2 := SpawnStep(d, cfg, x, y);
      && (!InBounds(Position(x, y), cfg.gridSize) ==> d2 == d)
      && (InBounds(Position(x, y), cfg.gridSize) ==>
            && d2.swarm.smiths[..|d.swarm.smiths|] == d.swarm.smiths
            && |d2.swarm.smiths| == |d.swarm.smiths| + 1
            && d2.swarm.smiths[|d.swarm.smiths|]
               == SmithAgentState(d2.swarm.counter, Position(x, y), Active, 0, d.swarm.generation, Chase)
            && d2.swarm.counter == d.swarm.counter + 1
            && d2.events == d.events + [SimulationEvent(d.tickCount, Warning)])
      && (SimInv(d, cfg) ==> SimInv(d2, cfg))
  {
    if InBounds(Position(x, y), cfg.gridSize) {
      var s := SmithAgent.NewSmith(d.swarm.counter + 1, Position(x, y), d.swarm.generation);
      if SimInv(d, cfg) {
        Swarm.AppendFreshSmith(d.swarm.smiths, d.swarm.counter, cfg.gridSize, s);
      }
      assert (d.swarm.smiths + [s])[..|d.swarm.smiths|] == d.swarm.smiths;
    }
  }

  /** The override sets the strategy and logs one warning, but the next swarm turn picks
      its strategy from the population again: the override changes nothing that turn
      computes. */
  lemma OverrideIsTransient(d: SimData, cfg: Config, st: SwarmStrategy, ring: RingOffsets,
                            dice: Swarm.ReplicationDice, t: int)
    ensures var d2 := OverrideStep(d, st);
      && d2.swarm.strategy == st && d2.events == d.events + [SimulationEvent(d.tickCount, Warning)]
      && Swarm.SwarmStep(d2.swarm, cfg, d.neo.position, ring, dice, t)
         == Swarm.SwarmStep(d.swarm, cfg, d.neo.position, ring, dice, t)
  {
  }

  /** A snapshot's event list is the most recent twenty, in order. */
  lemma LastEventsSpec(evs: seq<SimulationEvent>, e: SimulationEvent)
    ensures |LastEvents(evs)| <= ShownEvents
    ensures |evs| >= ShownEvents ==> LastEvents(evs + [e]) == LastEvents(evs)[1..] + [e]
    ensures |evs| < ShownEvents ==> LastEvents(evs + [e]) == evs + [e]
  {
    if |evs| >= ShownEvents {
      assert (evs + [e])[|evs| + 1 - ShownEvents..] == evs[|evs| - ShownEvents..][1..] + [e];
    }
  }

  /** The simulation object, owning the world, Neo and the swarm. The fleet record and the
      fleet id counter, module-level state of the fleet code in the source, are fields. */
  class Simulation {
    const cfg: Config
    const ring: RingOffsets
    const world: World
    const neo: NeoAgent.Neo
    const swarm: Swarm.Swarm
    var tickCount: int
    var phase: SimPhase
    var events: seq<SimulationEvent>
    var result: SimResult
    var bulletTimeActive: int
    var fleet: FleetState
    var fleetCounter: nat

    ghost predicate Valid()
      reads this, world
    {
      && world.Valid() && world.gridSize == cfg.gridSize
      && neo.cfg == cfg && swarm.cfg == cfg
    }

    function Data(): SimData
      reads this, neo, swarm
    {
      SimData(tickCount, phase, events, result, bulletTimeActive, neo.state, swarm.Data(), fleet, fleetCounter)
    }

    /** The render cache agrees with the smiths and Neo. */
    ghost predicate Rendered()
      reads this, world, world.grid, neo, swarm
      requires Valid()
    {
      forall y, x :: 0 <= y < cfg.gridSize && 0 <= x < cfg.gridSize ==>
        world.grid[y, x] == RenderCell(Position(x, y), swarm.smiths, neo.state)
    }

    constructor (cfg: Config, ring: RingOffsets)
      requires ValidConfig(cfg)
      ensures Valid() && this.cfg == cfg && this.ring == ring
      ensures Data() == SimData(0, Hunt, [], Undecided, 0, NeoAgent.InitialState(cfg),
                                Swarm.SwarmData([], 1, Chase, cfg.replicationInterval, 0), FleetState([], 0, 0), 0)
    {
      this.cfg := cfg;
      this.ring := ring;
      world := new World(cfg.gridSize as nat);
      neo := new NeoAgent.Neo(cfg);
      swarm := new Swarm.Swarm(cfg);
      tickCount := 0;
      phase := Hunt;
      events := [];
      result := Undecided;
      bulletTimeActive := 0;
      fleet := FleetState([], 0, 0);
      fleetCounter := 0;
    }

    /** `init`, with the random cells of the swarm's placement given as `samples`. */
    method Init(samples: seq<Position>)
      requires Valid() && |Swarm.Accepted(samples, cfg.gridSize)| >= cfg.initialSmiths
      modifies this, world, neo, swarm
      ensures Valid() && world.AllEmpty()
      ensures Data() == InitSim(old(Data()), cfg, samples)
    {
      tickCount := 0;
      phase := Hunt;
      events := [];
      result := Undecided;
      bulletTimeActive := 0;
      swarm.ResetSmithCounter();
      world.Reset();
      neo.Reset();
      swarm.Init(samples);
      fleet := FleetState([], 0, 0);
      events := events + [SimulationEvent(0, Info), SimulationEvent(0, Info)];
    }

    method UpdatePhase()
      modifies this
      ensures phase == PhaseFor(tickCount, cfg)
      ensures Data() == old(Data()).(phase := PhaseFor(tickCount, cfg))
    {
      if tickCount <= cfg.huntPhaseEnd {
        phase := Hunt;
      } else if tickCount <= cfg.replicationPhaseEnd {
        phase := Replication;
      } else {
        phase := BurlyBrawl;
      }
    }

    /** `updateGrid`: a fresh empty grid, the non-destroyed smiths, then Neo if alive. */
    method UpdateGrid()
      requires Valid()
      modifies world
      ensures Valid() && Rendered() && fresh(world.grid)
    {
      world.Reset();
      var active := Swarm.NonDestroyed(swarm.smiths);
      Swarm.PositionsOfNonDestroyed(swarm.smiths);
      var ps := Swarm.Positions(swarm.smiths);
      var i := 0;
      while i < |active|
        invariant 0 <= i <= |active| == |ps|
        invariant Valid() && fresh(world.grid)
        invariant forall y, x :: 0 <= y < cfg.gridSize && 0 <= x < cfg.gridSize ==>
          world.grid[y, x] == (if Position(x, y) in ps[..i] then SmithCell else Empty)
      {
        assert ps[..i + 1] == ps[..i] + [active[i].position];
        world.SetCell(active[i].position, SmithCell);
        i := i + 1;
      }
      assert ps[..i] == ps;
      if neo.state.alive {
        world.SetCell(neo.state.position, NeoCell);
      }
    }

    /** `tick`, with the random choices of a replication given as `dice` and the shuffled
        spawn directions of a fleet deployment as `orders`. */
    method Tick(dice: Swarm.ReplicationDice, orders: seq<seq<Position>>)
      requires Valid() && |orders| >= 4
      modifies this, world, neo, swarm
      ensures Valid()
      ensures Data() == SimStep(old(Data()), cfg, ring, dice, orders)
      ensures old(result) == Undecided ==> Rendered()
      ensures old(result) != Undecided ==> world.grid == old(world.grid)
    {
      if result != Undecided {
        return;
      }
      HeadTurn(dice);
      TailTurn(orders);
      UpdateGrid();
    }

    /** Count the tick, update the phase, then the swarm's turn. */
    method HeadTurn(dice: Swarm.ReplicationDice)
      requires swarm.cfg == cfg
      modifies this, swarm
      ensures Data() == Head(old(Data()), cfg, ring, dice)
    {
      tickCount := tickCount + 1;
      UpdatePhase();
      SwarmTurn(dice);
    }

    /** Neo's turn, the periodic purge and the end conditions. */
    method TailTurn(orders: seq<seq<Position>>)
      requires |orders| >= 4 && neo.cfg == cfg && result == Undecided
      modifies this, neo, swarm
      ensures Data() == Tail(old(Data()), cfg, orders)
    {
      NeoTurn(orders);
      if tickCount % 10 == 0 {
        swarm.RemoveDestroyed();
      }
      CheckEnd();
    }

    /** The swarm's turn, or one tick less of bullet time. */
    method SwarmTurn(dice: Swarm.ReplicationDice)
      requires swarm.cfg == cfg
      modifies this, swarm
      ensures Data() == SwarmPhase(old(Data()), cfg, ring, dice)
    {
      if bulletTimeActive > 0 {
        bulletTimeActive := bulletTimeActive - 1;
      } else {
        var swarmEvents := swarm.Tick(tickCount, neo.state.position, ring, dice);
        events := events + swarmEvents;
      }
    }

    /** Neo's turn against the swarm's list, and the restart of bullet time. */
    method NeoTurn(orders: seq<seq<Position>>)
      requires |orders| >= 4 && neo.cfg == cfg
      modifies this, neo, swarm
      ensures Data() == NeoPhase(old(Data()), cfg, orders)
    {
      var smiths, newFleet, newCounter, neoEvents, bulletTime, shockwave, deployed :=
        neo.Tick(tickCount, swarm.smiths, fleet, fleetCounter, orders);
      swarm.smiths := smiths;
      fleet := newFleet;
      fleetCounter := newCounter;
      events := events + neoEvents;
      if bulletTime {
        bulletTimeActive := cfg.bulletTimeDuration;
      }
    }

    /** The end conditions. */
    method CheckEnd()
      requires result == Undecided
      modifies this
      ensures Data() == Settle(old(Data()), cfg)
    {
      if !neo.state.alive {
        result := SmithWins;
        phase := Resolution;
        events := events + [SimulationEvent(tickCount, Critical)];
      } else if tickCount >= cfg.survivalTarget {
        result := NeoWins;
        phase := Resolution;
        events := events + [SimulationEvent(tickCount, ShockwaveEvent)];
      }
    }

    /** `getState`: a snapshot with the last twenty events and the swarm summary. */
    function GetState(): (s: SimulationState)
      reads this, world, world.grid, neo, swarm
      requires Valid()
      ensures |s.events| == Min(ShownEvents, |events|) && s.events == events[|events| - |s.events|..]
      ensures |s.grid| == cfg.gridSize
      ensures s.swarm.count == |Swarm.NonDestroyed(swarm.smiths)| <= |s.smiths|
    {
      SimulationState(tickCount, phase, world.Cells(), neo.state, swarm.smiths,
                      SwarmState(|Swarm.NonDestroyed(swarm.smiths)|, swarm.generation, swarm.strategy, swarm.nextReplication),
                      fleet, LastEvents(events), result)
    }

    /** `spawnSmith`. */
    method SpawnSmith(x: int, y: int)
      modifies this, swarm
      ensures Data() == SpawnStep(old(Data()), cfg, x, y)
    {
      var pos := Position(x, y);
      if InBounds(pos, cfg.gridSize) {
        swarm.smithCounter := swarm.smithCounter + 1;
        swarm.smiths := swarm.smiths + [SmithAgent.NewSmith(swarm.smithCounter, pos, swarm.generation)];
        events := events + [SimulationEvent(tickCount, Warning)];
      }
    }

    /** `setSwarmStrategy`. */
    method SetSwarmStrategy(strategy: SwarmStrategy)
      modifies this, swarm
      ensures Data() == OverrideStep(old(Data()), strategy)
    {
      swarm.strategy := strategy;
      events := events + [SimulationEvent(tickCount, Warning)];
    }
  }
}
