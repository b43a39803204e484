/** The record types of the pursuit simulation (engine/types.ts) and its configuration. */
module Types {

  datatype Option<+T> = None | Some(value: T)

  /** Integer grid coordinates. */
  datatype Position = Position(x: int, y: int)

  datatype CellType = Empty | NeoCell | SmithCell | FleetCell | Wall

  datatype SmithState = Active | Stunned | Destroyed

  datatype SimPhase = Hunt | Replication | BurlyBrawl | Resolution

  datatype SwarmStrategy = Chase | Flank | Surround

  /** `null` of the source is `Undecided`. */
  datatype SimResult = Undecided | NeoWins | SmithWins

  /** The source's string id `Smith-NN` is the counter value NN. */
  datatype SmithAgentState = SmithAgentState(
    id: nat,
    position: Position,
    state: SmithState,
    stunnedTicks: int,
    generation: int,
    strategy: SwarmStrategy)

  datatype FleetAgentRole = Triage | Diagnosis | Mitigation | Comms

  datatype FleetAgentStatus = FleetActive | Engaged | Expired

  datatype FleetAgentState = FleetAgentState(
    id: nat,
    role: FleetAgentRole,
    position: Position,
    status: FleetAgentStatus,
    targetSmithId: Option<nat>,
    ticksRemaining: int)

  datatype NeoState = NeoState(
    position: Position,
    shockwaveReady: bool,
    shockwaveCooldown: int,
    bulletTimeLeft: int,
    dodgeCooldown: int,
    fleetCooldown: int,
    fleetDeployed: int,
    alive: bool)

  /** The swarm summary of a snapshot. */
  datatype SwarmState = SwarmState(count: nat, generation: int, strategy: SwarmStrategy, nextReplication: int)

  datatype FleetState = FleetState(agents: seq<FleetAgentState>, totalDeployed: int, smithsDestroyed: int)

  datatype EventType = Info | Warning | Critical | ShockwaveEvent | FleetEvent

  /** An event without its display-only message. */
  datatype SimulationEvent = SimulationEvent(tick: int, kind: EventType)

  datatype SimulationState = SimulationState(
    tick: int,
    phase: SimPhase,
    grid: seq<seq<CellType>>,
    neo: NeoState,
    smiths: seq<SmithAgentState>,
    swarm: SwarmState,
    fleet: FleetState,
    events: seq<SimulationEvent>,
    result: SimResult)

  /** The tunables the engine reads from its configuration object. */
  datatype Config = Config(
    gridSize: int,
    initialSmiths: nat,
    replicationInterval: int,
    maxSmiths: int,
    surroundRange: int,
    surroundTrigger: int,
    bulletTimeRange: int,
    bulletTimeTriggerThreshold: int,
    bulletTimeUses: int,
    bulletTimeDuration: int,
    shockwaveRadius: int,
    shockwaveCooldown: int,
    dodgeCooldown: int,
    fleetDeployThreshold: int,
    fleetCooldown: int,
    maxFleetAgents: int,
    fleetSeekRange: int,
    fleetLifespan: int,
    huntPhaseEnd: int,
    replicationPhaseEnd: int,
    survivalTarget: int)

  /** A non-empty grid, and cooldowns and charges that cannot start negative. */
  predicate ValidConfig(c: Config) {
    && c.gridSize >= 1
    && c.shockwaveCooldown >= 1
    && c.dodgeCooldown >= 0
    && c.fleetCooldown >= 0
    && c.bulletTimeUses >= 0
    && c.bulletTimeDuration >= 0
  }

  /** The rounded ring offset (round(2 cos a), round(2 sin a)) for a = 2 pi slot / total. */
  type RingOffsets = (nat, nat) -> Position
}
