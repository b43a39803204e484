# Smith swarm pursuit engine, modelled in Dafny

This project models the tick-driven pursuit simulation of the `engine/` directory. Its parts:

- **World.** A square grid of cells with Manhattan distance and orthogonal neighbours. It also keeps a render cache, a two-dimensional array of cell types.
- **Movement strategies.** Chase, flank (intercept) and surround (encircle). Each is a greedy one-step search toward a target cell.
- **Smith agents.** Each smith is active, stunned or destroyed, and moves by its strategy when active.
- **The swarm.** It picks the strategy from the population size, ticks every smith in order against the live list of positions, and replicates on a countdown up to a cap.
- **The support fleet.** Four role agents (triage, diagnosis, mitigation, comms) are deployed around Neo. They seek, stun or destroy smiths, or stay near Neo. Each has a lifespan.
- **Neo.** Neo runs cooldowns and a shockwave that takes priority over bullet time. Neo also deploys the fleet, makes a scored safety move, and dodges or is captured.
- **The simulation object.** It advances one tick, tracks the phase and the result, keeps the event log, rebuilds the render cache, and offers the two external controls: spawn a smith and override the strategy.

Each mutable object of the source is a Dafny `class`:

- `World.World`, which holds an `array2` grid;
- `Swarm.Swarm`;
- `NeoAgent.Neo`;
- `Simulation.Simulation`.

Its methods are proved against pure step functions:

- `Swarm.SwarmStep`;
- `NeoAgent.NeoStep`;
- `FleetAgent.TickFleetStep`;
- `Simulation.SimStep`, with its phases `Advance`, `SwarmPhase`, `NeoPhase`, `Purge` and `Settle`.

Lemmas then prove what the source promises about those functions. The records the source mutates through shared references are datatype values: smith, fleet agent, Neo state and fleet. Every loop of the source is a `while` loop with its invariants. Each loop is tied by its `ensures` to the function that specifies it.

Two sources of outside input are modelled as parameters:

- **Randomness** is an oracle argument:
  - the samples of the spawn rejection loop;
  - the parent pick and the shuffle of a replication (`Swarm.ReplicationDice`);
  - the four shuffles of a fleet deployment (`orders`).
- **The configuration object** is a `Types.Config` parameter, constrained where needed by `Types.ValidConfig`.

The string ids `Smith-NN` and `Fleet-Role-NN` are the naturals `NN`. The two module-level id counters are fields:

- the smith counter is `Swarm.Swarm.smithCounter`;
- the fleet counter is `Simulation.Simulation.fleetCounter`.

One deliberate deviation from the code concerns the fleet. `engine/Simulation.ts:107-112` calls `neo.tick` with four arguments, without the `fleet` argument that `engine/NeoAgent.ts:44-50` declares. `getState` (`engine/Simulation.ts:181-200`) also omits the `fleet` field that `engine/types.ts:75` requires. A type check rejects that call. Code built without one runs with `fleet` undefined inside Neo's `tick`, and then every tick with Neo alive throws a TypeError before Neo's turn ends:

- while the shockwave cools down, at `engine/NeoAgent.ts:62`, where `hasCommsNearby` reads `fleet.agents` (`engine/FleetAgent.ts:272`);
- otherwise, when the deployment test gets that far, at `engine/NeoAgent.ts:107`;
- otherwise at the unconditional `tickFleet(fleet, …)` (`engine/NeoAgent.ts:118`), which reads `fleet.agents` at `engine/FleetAgent.ts:132`.

The tick counter, the phase, the swarm's turn or the bullet-time countdown, and whatever part of Neo's cooldowns and ability ran before the throw have already taken effect. Neo never moves and is never captured. The bullet-time restart, the purge, both end checks and `updateGrid` (`engine/Simulation.ts:114-143`) never run. No result is ever set, so the game never ends. In `start` (`engine/Simulation.ts:64-74`) the exception also skips the tick callback. Whether the timer keeps firing depends on the host.

`Simulation.SimStep` and `Simulation.Simulation.Tick` therefore model the intended wiring, not the code as it runs. In this model:

- the simulation object owns a `FleetState`;
- it passes that state through `NeoAgent.Neo.Tick`;
- it empties it in `init`;
- it reports it in `GetState`.

Two behaviours of the code are worth stating, because they are easy to misread:

- **Free exits.** `evaluatePosition` adds three points per free exit (`engine/NeoAgent.ts:266`), so open cells make a position more attractive.
- **Replication countdown.** The swarm restarts its replication countdown only when a replication is attempted. It is not restarted when the population is at the cap (`engine/Swarm.ts:72-79`), so below zero it keeps counting down.

## Model

| member | source | states |
|---|---|---|
| `World.DistanceIsMetric` | engine/World.ts:56-58 | The Manhattan distance is symmetric, zero exactly on equal cells, and obeys the triangle inequality. |
| `World.NeighborsSpec` | engine/World.ts:60-70 | The neighbours are exactly the on-grid cells at distance 1. There are at most four, listed in the order up, down, left, right. |
| `World.DirectionIsAdjacent` | engine/Swarm.ts:120-129 | Each of the eight search directions leads to a touching cell. |
| `World.DirectionOfAdjacent` | engine/FleetAgent.ts:90-99 | Conversely, the offset to any touching cell is one of the eight directions. |
| `World.Clamp` | engine/strategies/FlankStrategy.ts:27-30 | `max(0, min(n-1, v))` lands on the grid. It keeps a coordinate already on the grid, and maps values below to 0 and above to n-1. |
| `World.World.constructor` | engine/World.ts:8-11 | A new world has a fresh `gridSize` by `gridSize` grid of empty cells. |
| `World.World.CreateGrid` | engine/World.ts:13-22 | The row-by-row loop yields a fresh square grid whose every cell is empty. |
| `World.World.Reset` | engine/World.ts:24-26 | After a reset the grid is a fresh all-empty square. |
| `World.World.SetCell` | engine/World.ts:32-36 | An on-grid write sets exactly that cell and no other. An off-grid write changes nothing. |
| `World.World.GetCell` | engine/World.ts:38-41 | An off-grid cell reads as a wall; an on-grid cell reads as its stored value. |
| `World.World.IsWalkable` | engine/World.ts:52-54 | A cell is walkable exactly when it does not read as a wall, which implies it is on the grid. |
| `World.World.Cells` | engine/World.ts:28-30 | The grid as `gridSize` rows of `gridSize` cells, agreeing cell by cell with the array. |
| `Movement.OrthogonalStepDistance` | engine/strategies/ChaseStrategy.ts:15-25 | One orthogonal step changes the distance to any target by exactly one. |
| `Movement.GreedyIsFirstImproving` | engine/strategies/ChaseStrategy.ts:22-30 | The minimum-keeping scan (ties to the earliest) equals the reference definition: the first strictly improving direction. |
| `Movement.FirstImprovingMoves` | engine/strategies/ChaseStrategy.ts:22-30 | The reference step either stays put or takes a strictly improving direction at or after the start index. |
| `Movement.GreedyStepSpec` | engine/strategies/ChaseStrategy.ts:11-32 | The step stays put or moves to an on-grid neighbour. It never increases the distance, and lowers it by exactly one when it moves. It stays put only when no neighbour is closer, and always on the target. |
| `Movement.GreedyStepCloses` | engine/strategies/ChaseStrategy.ts:22-30 | With both cells on the grid and distinct, the step closes the distance by exactly one. |
| `Movement.GreedyMove` | engine/strategies/ChaseStrategy.ts:11-32 | The search loop shared by the three strategies computes the greedy step. |
| `ChaseStrategy.GetMove` | engine/strategies/ChaseStrategy.ts:6-33 | Chasing takes the first direction strictly closer to Neo, or stays. It never moves away and stays when on Neo. When both are on the grid it closes in by exactly one. |
| `ChaseStrategy.ChaseFromEast` | engine/strategies/ChaseStrategy.ts:22-30 | A smith one cell east of Neo steps onto Neo. |
| `FlankStrategy.SignOfCentroidOffset` | engine/strategies/FlankStrategy.ts:20-25 | The sign of Neo minus the mean equals the sign of m times Neo minus the sum. This is why the real-valued centroid can be replaced by integers. |
| `FlankStrategy.TargetInIntegers` | engine/strategies/FlankStrategy.ts:13-30 | The escape point equals Neo's coordinate moved 3 away from the centroid, or kept when level with it, then clamped. Everything is computed in integers. |
| `FlankStrategy.TargetSpec` | engine/strategies/FlankStrategy.ts:27-30 | The intercept point is on the grid. On an axis where Neo is level with the centroid, it keeps Neo's coordinate. |
| `FlankStrategy.SumPositions` | engine/strategies/FlankStrategy.ts:13-18 | The summing loop yields exactly the coordinate sums of all the positions, which `Target` divides by the count, or by 1 when there are none. |
| `FlankStrategy.GetMove` | engine/strategies/FlankStrategy.ts:6-55 | After the centroid loop, the move is the first direction strictly closer to the intercept point. It is local and never moves away from that point. |
| `SurroundStrategy.FindIndex` | engine/strategies/SurroundStrategy.ts:12-14 | The result is the first index holding the cell, or -1 exactly when the cell is not listed. |
| `SurroundStrategy.Target` | engine/strategies/SurroundStrategy.ts:17-26 | The ring point of the smith's slot, clamped, is on the grid. |
| `SurroundStrategy.GetMove` | engine/strategies/SurroundStrategy.ts:6-51 | With a non-empty list, the move is the first direction strictly closer to the ring point. It never moves away, and a smith already on the point stays. It is always local. |
| `SmithAgent.StrategyMoveIsLocal` | engine/SmithAgent.ts:49-51 | Whatever the strategy tag, the smith stays or steps to an on-grid orthogonal neighbour. |
| `SmithAgent.StepSpec` | engine/SmithAgent.ts:33-52 | The three-state machine. A destroyed smith is untouched. A stunned one stays put, loses one tick, and wakes at zero. An active one stays active and makes its strategy's move. |
| `SmithAgent.Tick` | engine/SmithAgent.ts:33-52 | `smithTick` never changes id, generation, tag or destruction, and moves at most one orthogonal on-grid step. |
| `SmithAgent.Stun` | engine/SmithAgent.ts:54-57 | The smith is stunned for exactly `ticks` ticks, from any state, and nothing else changes. |
| `SmithAgent.Destroy` | engine/SmithAgent.ts:59-61 | The smith is destroyed and nothing else changes. |
| `SmithAgent.StunLasts` | engine/SmithAgent.ts:40-46 | A smith stunned for k ≥ 1 ticks stays stunned and unmoved for k-1 ticks, whatever the inputs. After the k-th tick it is active on the same cell. |
| `SmithAgent.DestroyedIsFinal` | engine/SmithAgent.ts:38 | Under any sequence of ticks, a destroyed smith never moves or wakes. |
| `SmithAgent.StunRevivesDestroyed` | engine/SmithAgent.ts:54-57 | Stunning a destroyed smith for k ≥ 1 ticks makes it active again after k ticks, at its old cell. |
| `Swarm.NonDestroyed` | engine/Swarm.ts:147-149 | `getActive` returns a sub-list with no destroyed smith. |
| `Swarm.NonDestroyedMembers` | engine/Swarm.ts:147-149 | The filter keeps exactly the smiths that are not destroyed, stunned ones included. |
| `Swarm.NonDestroyedAppend` | engine/Swarm.ts:147-149 | Filtering distributes over concatenation. |
| `Swarm.NonDestroyedCount` | engine/Swarm.ts:147-149 | Populations that agree smith by smith on destruction have equal non-destroyed counts. |
| `Swarm.PositionsAreOccupied` | engine/Swarm.ts:151-153 | `getPositions` lists exactly the cells occupied by non-destroyed smiths. This is the same test `findAdjacentEmpty` uses. |
| `Swarm.PositionsOfNonDestroyed` | engine/Swarm.ts:151-153 | The position list is the cells of the filtered population, in order. |
| `Swarm.StrategyFor` | engine/Swarm.ts:82-91 | Surround from 10 smiths, flank from 5 to 9, chase below 5, one `iff` per strategy. |
| `Swarm.StrategyMonotone` | engine/Swarm.ts:82-91 | A larger swarm never uses a less aggressive strategy. |
| `Swarm.RetagAll` | engine/Swarm.ts:61-64 | Each smith is retagged individually and the length is kept. |
| `Swarm.TickPrefix` | engine/Swarm.ts:67-69 | The smith loop after k iterations keeps the population's length. Its content is stated by `Swarm.TickPrefixSpec` and `Swarm.TickPrefixStep`. |
| `Swarm.TickPrefixSpec` | engine/Swarm.ts:67-69 | After k iterations, each of the first k smiths keeps id, generation and destruction and moves at most one step. The rest are untouched. |
| `Swarm.TickPrefixStep` | engine/Swarm.ts:67-69 | After k iterations, smith i < k is exactly its own `tick` from its old state, against the positions the first i iterations left; no later iteration touches it again. |
| `Swarm.FirstFree` | engine/Swarm.ts:132-144 | The scan stops at the first direction that is neither off the grid nor taken. All earlier directions are blocked. |
| `Swarm.AdjacentEmptyAround` | engine/Swarm.ts:116-145 | With a shuffle of the eight directions, a found cell touches the parent, is on the grid and is free. Nothing is found only when all eight cells around the parent are blocked. |
| `Swarm.AppendFreshSmith` | engine/Swarm.ts:104-107 | Appending a new on-grid smith with the next id keeps the ids distinct and within the counter. |
| `Swarm.OffspringSpec` | engine/Swarm.ts:98-104 | No offspring cell exists with zero smiths or at the cap. Any offspring cell is on the grid, free and next to a non-destroyed parent. Below the cap it is missing only when the parent is boxed in. |
| `Swarm.ReplicateSpec` | engine/Swarm.ts:93-114 | A replication does nothing, or appends exactly one active chasing smith of generation g+1 with id counter+1 on the offspring cell, plus one info event. The strategy and the countdown are untouched. |
| `Swarm.ReplicateWellFormed` | engine/Swarm.ts:104-107 | Replication keeps every smith on the grid with distinct ids within the counter. |
| `Swarm.MovedSpec` | engine/Swarm.ts:59-69 | Retagging and ticking keep length, ids, generations and destruction, hence the non-destroyed count. Each smith moves at most one orthogonal step, and non-destroyed smiths carry the new tag. |
| `Swarm.MovedStep` | engine/Swarm.ts:59-69 | Each smith after retagging and ticking is its retagged self after exactly one `tick`, against the positions the earlier smiths left. |
| `Swarm.MovedWellFormed` | engine/Swarm.ts:61-69 | The two loops keep the population well formed. |
| `Swarm.SwarmStepSmiths` | engine/Swarm.ts:53-80 | In the full swarm tick every old smith is its retagged self after exactly one `tick`, against the positions the earlier smiths left; replication only appends. |
| `Swarm.SwarmStepPopulation` | engine/Swarm.ts:53-80 | A swarm tick adds at most one non-destroyed smith, and never pushes the count past `maxSmiths` unless it was already there. |
| `Swarm.SwarmStepSpec` | engine/Swarm.ts:53-80 | The full swarm tick, smith by smith: the strategy is the one for the count; every old smith has made one tick (which one is stated by `Swarm.SwarmStepSmiths`); at most one smith and one event are added. The countdown restarts exactly when it ran out below the cap, and otherwise keeps falling. |
| `Swarm.SwarmStepWellFormed` | engine/Swarm.ts:53-80 | A swarm tick keeps every smith on the grid and the ids distinct and within the counter. |
| `Swarm.Accepted` | engine/Swarm.ts:41-48 | The rejection loop accepts no more cells than it draws. |
| `Swarm.AcceptedSpec` | engine/Swarm.ts:41-48 | Every accepted cell is one of the draws and lies at distance at least 5 from the centre. |
| `Swarm.Spawned` | engine/Swarm.ts:31-33 | One smith per cell. Its content is stated by `Swarm.SpawnedSpec`. |
| `Swarm.SpawnedSpec` | engine/Swarm.ts:31-33 | Smith i is `createSmith`'s record with id counter+i+1 on cell i. |
| `Swarm.InitSpec` | engine/Swarm.ts:21-34 | After `init` there are exactly `initialSmiths` smiths: active, chasing, generation 1, ids counting on from the counter, at distance ≥ 5 from the centre. With on-grid samples the population is well formed. |
| `Swarm.RemoveDestroyedSpec` | engine/Swarm.ts:155-157 | Purging keeps the non-destroyed smiths and well-formedness. It leaves the position list and the non-destroyed list unchanged, which is all a strategy or replication sees. |
| `Swarm.NonDestroyedIdempotent` | engine/Swarm.ts:155-157 | Purging twice is purging once. |
| `Swarm.NonDestroyedWellFormed` | engine/Swarm.ts:155-157 | Filtering keeps cells on the grid and ids distinct and within the counter. |
| `Swarm.Swarm.constructor` | engine/Swarm.ts:11-19 | A new swarm is empty, at generation 1, chasing, with a fresh countdown. |
| `Swarm.Swarm.Init` | engine/Swarm.ts:21-34 | `init` produces exactly the state `Swarm.InitData` describes from the samples. |
| `Swarm.Swarm.GetSpawnPositions` | engine/Swarm.ts:36-51 | The rejection loop returns the first `count` accepted samples. |
| `Swarm.Swarm.Tick` | engine/Swarm.ts:53-80 | The method's new state and events are those of `Swarm.SwarmStep`, whose properties are the lemmas above. |
| `Swarm.Swarm.UpdateStrategy` | engine/Swarm.ts:82-91 | Only the strategy changes, to the one for the non-destroyed count. |
| `Swarm.Swarm.RetagActive` | engine/Swarm.ts:61-64 | Only the smiths change: each non-destroyed one gets the swarm strategy. |
| `Swarm.Swarm.TickSmiths` | engine/Swarm.ts:67-69 | The in-order loop ticks every smith against the live position list. |
| `Swarm.Swarm.Replicate` | engine/Swarm.ts:93-114 | The new state and events are those of a replication (see `Swarm.ReplicateSpec`). |
| `Swarm.Swarm.FindAdjacentEmpty` | engine/Swarm.ts:116-145 | The search returns the first free on-grid cell in the shuffled order, or none. |
| `Swarm.Swarm.ResetSmithCounter` | engine/SmithAgent.ts:14-16 | Only the id counter changes, to zero. |
| `Swarm.Swarm.RemoveDestroyed` | engine/Swarm.ts:155-157 | Only the smiths change: destroyed ones are dropped. |
| `FleetAgent.FirstOpen` | engine/FleetAgent.ts:102-110 | The spawn scan stops at the first direction that is on the grid and not used by the batch. All earlier directions are closed. |
| `FleetAgent.SpawnNearSpec` | engine/FleetAgent.ts:85-113 | `findSpawnNear` yields Neo's cell or an on-grid cell no earlier agent uses. With a shuffle it touches Neo, and it falls back only when all eight touching cells are closed. |
| `FleetAgent.FindSpawnNear` | engine/FleetAgent.ts:85-113 | The loop computes the spawn cell. |
| `FleetAgent.DeployPrefix` | engine/FleetAgent.ts:69-80 | A deployment's first k agents number k. Their content is stated by the three lemmas below. |
| `FleetAgent.DeployPrefixShape` | engine/FleetAgent.ts:60-80 | Agent i has role i (triage, diagnosis, mitigation, comms), id counter+i+1, full lifespan, active status and no target. |
| `FleetAgent.DeployPrefixApart` | engine/FleetAgent.ts:102-110 | Each agent stands on Neo's cell or on an on-grid cell no earlier agent uses. |
| `FleetAgent.DeployPrefixNear` | engine/FleetAgent.ts:102-112 | With shuffles, every agent touches or shares Neo's cell. |
| `FleetAgent.DeploySpec` | engine/FleetAgent.ts:54-83 | Always four agents, one per role in order, with the next four ids and full lifespan, near Neo (on the grid whenever Neo is), and five fleet events. |
| `FleetAgent.DeployFleet` | engine/FleetAgent.ts:54-83 | The loop returns the four-agent batch, its events, and the counter advanced by four. |
| `FleetAgent.CommsNearbyAfterDeploy` | engine/FleetAgent.ts:267-278 | Right after a deployment, a comms agent is within two steps of Neo. |
| `FleetAgent.ActiveIndices` | engine/FleetAgent.ts:130 | The snapshot indices are increasing and name exactly the active smiths among the first k. |
| `FleetAgent.Snapshot` | engine/FleetAgent.ts:130 | Every index of the `activeSmiths` snapshot is valid. Which smiths it lists is stated by `FleetAgent.ActiveIndices`. |
| `FleetAgent.BestAt` | engine/FleetAgent.ts:287-296 | The scan ends at a listed smith at least distance, the first such smith. |
| `FleetAgent.FindNearestSpec` | engine/FleetAgent.ts:282-299 | The found smith is listed, within range, nearest, and first among equals. None is found exactly when every listed smith is out of range. |
| `FleetAgent.FindNearestSmith` | engine/FleetAgent.ts:282-299 | The loop with its running best distance computes `findNearestSmith`. |
| `FleetAgent.MoveTowardSpec` | engine/FleetAgent.ts:301-320 | A step stays put, or moves one on-grid cell and closes the distance by one. It moves along x when the x gap is at least the y gap, and along y otherwise. It never moves on the target, and always moves when both ends are on the grid and distinct. |
| `FleetAgent.AgentStepSmiths` | engine/FleetAgent.ts:147-160 | One agent changes at most one snapshot smith, only to stunned (diagnosis) or destroyed (mitigation, counted). It never changes a cell, id, generation or the number of smiths. |
| `FleetAgent.ExpiryTakesNoAction` | engine/FleetAgent.ts:135-145 | An agent whose lifespan runs out expires in place with one report, and touches no smith. |
| `FleetAgent.TriageContact` | engine/FleetAgent.ts:168-193 | A triage agent locks on to the nearest snapshot smith in range and steps toward it. It reports exactly when it lands on that smith's cell, never touches a smith, and stays active. |
| `FleetAgent.DiagnosisContact` | engine/FleetAgent.ts:196-221 | A diagnosis agent locks on to the nearest snapshot smith in range and steps toward it. On landing on its cell it stuns exactly that smith for 8 ticks, engages and reports. Otherwise no smith changes and it stays active. |
| `FleetAgent.MitigationContact` | engine/FleetAgent.ts:224-251 | A mitigation agent locks on to the nearest snapshot smith in range and steps toward it. On landing on its cell it destroys exactly that smith, counts one destruction, engages and reports. Otherwise nothing is destroyed and it stays active. |
| `FleetAgent.CommsKeepsNear` | engine/FleetAgent.ts:254-264 | A comms agent touches no smith and stays active. It steps toward Neo only when more than two cells away; with both on the grid it moves exactly then, one cell closer. |
| `FleetAgent.AgentStepDestroyed` | engine/FleetAgent.ts:147-160 | An agent counts a destruction exactly when it is an active mitigation agent that engages. |
| `FleetAgent.AgentStepAgent` | engine/FleetAgent.ts:133-160 | An agent keeps its id and role. An inactive one is untouched. An active one loses a tick, expires at zero, and otherwise moves at most one step, staying on the grid. |
| `FleetAgent.AgentStepLength` | engine/FleetAgent.ts:147-160 | An agent never adds or removes a smith: the smith list after its tick has the same length. |
| `FleetAgent.RunPrefix` | engine/FleetAgent.ts:132-161 | The agent loop keeps the number of agents and of smiths. Its content is stated by `FleetAgent.RunAgents`, `FleetAgent.RunAgentStep` and `FleetAgent.RunSmiths`. |
| `FleetAgent.ActiveAgents` | engine/FleetAgent.ts:164 | The cleanup filter keeps only active agents. |
| `FleetAgent.RunAgents` | engine/FleetAgent.ts:132-161 | After k iterations, agent i < k has acted once and later agents have not: ids and roles kept, inactive agents untouched, one tick of lifespan spent, expiry exactly when none is left, at most one step moved. |
| `FleetAgent.RunAgentStep` | engine/FleetAgent.ts:132-161 | After k iterations, agent i < k is exactly its own `tick` from its old state, against the smiths as the first i agents left them and the shared snapshot. |
| `FleetAgent.RunSmiths` | engine/FleetAgent.ts:132-161 | After k agents, the smiths keep number, ids, cells and generations. Non-snapshot smiths are untouched, and a changed one is stunned or destroyed. The destroyed count grows by at most one per agent. |
| `FleetAgent.ActiveAgentsMembers` | engine/FleetAgent.ts:164 | The filter keeps exactly the active agents. |
| `FleetAgent.EngagedMitigations` | engine/FleetAgent.ts:132-161 | The number of engaged mitigation agents among the first k is at most k. |
| `FleetAgent.EngagedMitigationsPrefix` | engine/FleetAgent.ts:132-161 | The count of engaged mitigation agents reads only the first k agents. |
| `FleetAgent.RunDestroyed` | engine/FleetAgent.ts:132-161 | After k agents, the destroyed count has grown by exactly the number of them that were active mitigation agents and engaged. |
| `FleetAgent.TickFleetDestroyed` | engine/FleetAgent.ts:122-165 | `tickFleet` raises the destroyed count by exactly one per active mitigation agent that engaged during the loop. |
| `FleetAgent.TickFleetSmiths` | engine/FleetAgent.ts:122-165 | `tickFleet` keeps the number, ids, cells and generations of the smiths, and only stuns or destroys smiths that were active at the start. The destroyed count grows by at most one per agent, and the deployed total is kept. |
| `FleetAgent.TickFleetAgents` | engine/FleetAgent.ts:122-165 | Afterwards the fleet holds only active agents with lifespan left. Each was active before, is one tick older, and is at most one step away. |
| `FleetAgent.TickFleetInBounds` | engine/FleetAgent.ts:122-165 | A fleet on the grid stays on the grid. |
| `FleetAgent.FindsLoneSmith` | engine/FleetAgent.ts:282-299 | A lone smith on the agent's own cell is found whatever the range. |
| `FleetAgent.StunRevivesInSameTick` | engine/FleetAgent.ts:122-165 | As written, a mitigation agent and then a diagnosis agent on one smith leave it stunned, though counted as destroyed. This is because the snapshot is taken before the agents act. |
| `FleetAgent.Approach1` | engine/FleetAgent.ts:175-179 | The shared seek-and-step of the three seeking roles. |
| `FleetAgent.AgentTick` | engine/FleetAgent.ts:133-160 | One pass of the agent loop's body. |
| `FleetAgent.SnapshotOf` | engine/FleetAgent.ts:130 | The `activeSmiths` filter as indices. |
| `FleetAgent.RunLoop` | engine/FleetAgent.ts:132-161 | The agent loop runs every agent once, in order. |
| `FleetAgent.KeepActive` | engine/FleetAgent.ts:164 | The closing filter of `tickFleet`. |
| `FleetAgent.TickFleet` | engine/FleetAgent.ts:122-165 | The method computes `FleetAgent.TickFleetStep`, whose properties are the lemmas above. |
| `NeoAgent.InitialStateSpec` | engine/NeoAgent.ts:30-42 | The reset state is alive, at the centre on the grid, and within all cooldown and charge bounds. |
| `NeoAgent.ZeroCooldownNeverRearms` | engine/NeoAgent.ts:59-66 | A zero cooldown with Neo not ready stays zero and not ready after the countdown. A configured cooldown of zero therefore never re-arms the shockwave. |
| `NeoAgent.CooldownsSpec` | engine/NeoAgent.ts:58-72 | No cooldown grows or goes negative. A running cooldown falls by one; the shockwave's falls by two with comms aid when two or more ticks were left. Readiness flips exactly when the shockwave cooldown ends. |
| `NeoAgent.ActivePositions` | engine/NeoAgent.ts:74 | The snapshot is no longer than the smith list. |
| `NeoAgent.ActivePositionsMembers` | engine/NeoAgent.ts:74 | The snapshot lists exactly the cells of active smiths. |
| `NeoAgent.ActivePositionsAgree` | engine/NeoAgent.ts:74 | Lists that agree on cells and on activity give equal snapshots. This is why a cell snapshot can stand for the smith list during Neo's turn. |
| `NeoAgent.CountInRange` | engine/NeoAgent.ts:271-281 | The count is at most the list's length. |
| `NeoAgent.CountInRangeSpec` | engine/NeoAgent.ts:271-281 | The count is zero exactly when no cell is in range, and full exactly when all are. It grows with the range. |
| `NeoAgent.CountSmithsInRange` | engine/NeoAgent.ts:271-281 | The filter-and-count loop. |
| `NeoAgent.Blast` | engine/NeoAgent.ts:168-195 | The shockwave keeps the number of smiths. |
| `NeoAgent.BlastSpec` | engine/NeoAgent.ts:168-195 | It destroys exactly the active smiths within the radius and leaves all others untouched. Afterwards none within the radius is active. |
| `NeoAgent.BlastVictims` | engine/NeoAgent.ts:168-195 | The number destroyed equals the count of snapshot cells within the radius. |
| `NeoAgent.Warnings` | engine/NeoAgent.ts:190-194 | There are k warning events at the tick. |
| `NeoAgent.Shockwave` | engine/NeoAgent.ts:152-205 | The loop yields the blasted smiths and the events: the announcement, one warning per victim, and the result. |
| `NeoAgent.AbilitySpec` | engine/NeoAgent.ts:84-101 | The shockwave fires exactly when the surround count reaches the trigger and it is ready, and then restarts its cooldown. Otherwise bullet time may fire, spending one charge. |
| `NeoAgent.DeploymentSpec` | engine/NeoAgent.ts:103-115 | A deployment happens exactly when all three conditions hold. It adds four to both totals and to the counter, restarts the cooldown, and logs five events. Otherwise nothing changes. |
| `NeoAgent.DeploymentAgents` | engine/NeoAgent.ts:109-111 | A deployment appends four active agents with the next ids and keeps the existing ones. |
| `NeoAgent.MinDistSpec` | engine/NeoAgent.ts:236-240 | The minimum is the distance to a listed cell and to no farther than any. |
| `NeoAgent.FreeCount` | engine/NeoAgent.ts:261-265 | The exit count is at most the number of neighbours. |
| `NeoAgent.Evaluate` | engine/NeoAgent.ts:228-269 | The score is never minus infinity. It is plus infinity exactly when no smith is in the snapshot. |
| `NeoAgent.Candidates` | engine/NeoAgent.ts:211-212 | The candidates end with Neo's own cell (staying put). |
| `NeoAgent.Scores` | engine/NeoAgent.ts:217-218 | There is one score per candidate. |
| `NeoAgent.ScoresSpec` | engine/NeoAgent.ts:217-218 | Score i is the evaluation of candidate i. |
| `NeoAgent.BestIndex` | engine/NeoAgent.ts:214-223 | The scan's result lies within the scanned prefix. |
| `NeoAgent.BestIndexSpec` | engine/NeoAgent.ts:214-223 | The kept score is a highest one and the first of the highest. |
| `NeoAgent.SafeIndex` | engine/NeoAgent.ts:207-226 | The chosen index names a candidate. |
| `NeoAgent.SafeMoveIsLocal` | engine/NeoAgent.ts:207-226 | The safety move stays or takes one orthogonal on-grid step. |
| `NeoAgent.SafeMoveIsBest` | engine/NeoAgent.ts:207-226 | No candidate outscores the move and every earlier one scores strictly lower. Without smiths the move is the first candidate. |
| `NeoAgent.FirstOfEqual` | engine/NeoAgent.ts:214-223 | When all scores are plus infinity, the first is kept. |
| `NeoAgent.EscapePosition` | engine/NeoAgent.ts:120-147 | Neo ends at the first safety move, or at the second after a dodge. |
| `NeoAgent.SafeMoveTwice` | engine/NeoAgent.ts:121-138 | Two safety moves stay within two steps and on the grid. |
| `NeoAgent.EscapeMoves` | engine/NeoAgent.ts:120-147 | Steps 7 and 8 move Neo at most two cells and keep Neo on the grid. |
| `NeoAgent.TwoLocalSteps` | engine/NeoAgent.ts:121-138 | Two moves of at most one on-grid step stay within two steps and on the grid. |
| `NeoAgent.EscapeCapture` | engine/NeoAgent.ts:123-147 | Neo dies exactly when caught without a dodge ready. A dodge restarts its cooldown, and other fields are kept. |
| `NeoAgent.DeadTickIsNoop` | engine/NeoAgent.ts:55-56 | A dead Neo's tick changes nothing and reports no ability. |
| `NeoAgent.NeoTickFlags` | engine/NeoAgent.ts:84-101 | The shockwave and bullet time never fire together. The shockwave fires exactly on the trigger and readiness, and bullet time only with a charge. |
| `NeoAgent.NeoTickSmiths` | engine/NeoAgent.ts:44-150 | Neo's turn keeps the number, ids, cells and generations of the smiths. A changed smith is stunned or destroyed. After a shockwave, none within its radius is active. |
| `NeoAgent.NeoTickMoves` | engine/NeoAgent.ts:44-150 | Neo moves at most two steps per tick, on the grid. |
| `NeoAgent.NeoTickCapture` | engine/NeoAgent.ts:123-147 | Neo is never revived. A living Neo dies exactly when a snapshot smith is on the first safety cell while the dodge cools down. |
| `NeoAgent.NeoTickFleet` | engine/NeoAgent.ts:103-118 | The deployed totals and the counter grow by four on a deployment and are kept otherwise. The destroyed count only grows. |
| `NeoAgent.PhasesKeepInv` | engine/NeoAgent.ts:58-147 | Each phase keeps the cooldown and charge bounds. |
| `NeoAgent.NeoTickKeepsInv` | engine/NeoAgent.ts:44-150 | Every tick keeps the cooldown and charge bounds under a valid configuration. |
| `NeoAgent.ActiveSnapshot` | engine/NeoAgent.ts:74 | The `activeSmiths` filter as cells. |
| `NeoAgent.NearestDistance` | engine/NeoAgent.ts:236-240 | The nearest-distance loop over a non-empty list. |
| `NeoAgent.TotalDistance` | engine/NeoAgent.ts:244-247 | The loop that sums the distances. |
| `NeoAgent.CountExits` | engine/NeoAgent.ts:261-265 | The loop that counts free neighbours. |
| `NeoAgent.EvaluatePosition` | engine/NeoAgent.ts:228-269 | The method computes the score, infinite when there are no smiths. |
| `NeoAgent.ScanTurn` | engine/NeoAgent.ts:217-222 | One turn evaluates the next candidate. Afterwards the kept cell and score are the first highest of the candidates looked at so far. |
| `NeoAgent.ScanCandidates` | engine/NeoAgent.ts:214-223 | The loop, started from minus infinity, ends on the first highest-scoring candidate. |
| `NeoAgent.MoveToSafety` | engine/NeoAgent.ts:207-226 | The scan from minus infinity returns the safety move, which `NeoAgent.SafeMoveIsBest` characterises. |
| `NeoAgent.Neo.constructor` | engine/NeoAgent.ts:16-28 | A new Neo is in the initial state. |
| `NeoAgent.Neo.Reset` | engine/NeoAgent.ts:30-42 | After a reset Neo is in the initial state. |
| `NeoAgent.Neo.DecreaseCooldowns` | engine/NeoAgent.ts:58-72 | The new state is the cooldown step of the old one. |
| `NeoAgent.Neo.TriggerAbility` | engine/NeoAgent.ts:74-101 | The state, smiths, events and flags are those of the ability branch. |
| `NeoAgent.Neo.TriggerDeployment` | engine/NeoAgent.ts:103-115 | The state, fleet, counter and events are those of the deployment step. |
| `NeoAgent.Neo.MoveAndCheckCapture` | engine/NeoAgent.ts:120-147 | The state and events are those of the safety move and capture check. |
| `NeoAgent.Neo.Tick` | engine/NeoAgent.ts:44-150 | Neo's whole turn equals `NeoAgent.NeoStep`, whose properties are the lemmas above. |
| `Simulation.PhaseFor` | engine/Simulation.ts:146-154 | Hunt up to `huntPhaseEnd`, then Replication up to `replicationPhaseEnd`, then Burly Brawl, one `iff` each. It is never Resolution. |
| `Simulation.Verdict` | engine/Simulation.ts:123-140 | Smith wins exactly when Neo is dead. Neo wins exactly when alive at the survival target. Otherwise the game is undecided. |
| `Simulation.HeadFields` | engine/Simulation.ts:85-103 | Helper for `Simulation.TickClock` and the class methods, not a property: it unfolds steps 1-3 of `tick` field by field. |
| `Simulation.TailFields` | engine/Simulation.ts:105-140 | Helper for `Simulation.TickClock` and the class methods, not a property: it unfolds steps 4-6 of `tick` field by field. |
| `Simulation.LastEvents` | engine/Simulation.ts:197 | The window is `min(20, n)` long and is a suffix of the log. |
| `Simulation.LastEventsSpec` | engine/Simulation.ts:197 | The window never exceeds 20. Appending an event slides a full window and grows a short one. |
| `Simulation.DecidedTickIsNoop` | engine/Simulation.ts:86 | Once a result is set, a tick changes nothing. |
| `Simulation.TickClock` | engine/Simulation.ts:85-144 | An undecided tick counts one and only appends events. Smith wins exactly when Neo died; Neo wins when alive at the target. The phase is Resolution exactly when decided, else it follows the clock, and the last event announces the verdict. |
| `Simulation.BulletTimeHoldsSwarm` | engine/Simulation.ts:92-116 | While bullet time runs, Neo acts but the swarm does not: its strategy, generation, countdown and counter stay and no smith moves or is born. The counter drops by one unless retriggered. |
| `Simulation.SwarmMovesOutsideBulletTime` | engine/Simulation.ts:92-103 | Otherwise the swarm moves first, from Neo's pre-move cell, with the strategy for its count. |
| `Simulation.PurgeEveryTenthTick` | engine/Simulation.ts:118-121 | Destroyed smiths leave the list on every tenth tick and only then. On other ticks the list keeps every smith in place. |
| `Simulation.InitSpec` | engine/Simulation.ts:33-54 | `init` gives tick 0, undecided, Hunt, no bullet time, Neo reset, exactly two info events at tick 0, an empty fleet and `initialSmiths` freshly placed smiths. The game bounds then hold. |
| `Simulation.SameIdsAndCells` | engine/Simulation.ts:105-112 | Neo's turn keeps ids and cells, so a well-formed population stays so. |
| `Simulation.StepKeepsPopulation` | engine/Simulation.ts:85-144 | A tick keeps the population well formed. |
| `Simulation.StepKeepsInv` | engine/Simulation.ts:85-144 | Every tick keeps the game bounds. Among them: cooldowns in range, Neo on the grid, `0 ≤ bulletTimeActive ≤ duration`, and the result agreeing with the phase and Neo's life. |
| `Simulation.SpawnSpec` | engine/Simulation.ts:204-214 | An on-grid spawn appends exactly one active chasing smith of the current generation with the next id, plus one warning, keeping the bounds. An off-grid spawn changes nothing. |
| `Simulation.OverrideIsTransient` | engine/Simulation.ts:216-223 | The override sets the strategy and logs a warning, but the next swarm turn ignores it. |
| `Simulation.Simulation.constructor` | engine/Simulation.ts:27-31 | A new simulation is at tick 0, undecided, Hunt, with an empty log, a reset Neo and an empty swarm. |
| `Simulation.Simulation.Init` | engine/Simulation.ts:33-54 | The new state is `Simulation.InitSim` and the grid is all empty. |
| `Simulation.Simulation.UpdatePhase` | engine/Simulation.ts:146-154 | Only the phase changes, to the one for the tick count. |
| `Simulation.Simulation.UpdateGrid` | engine/Simulation.ts:156-164 | The rebuilt cache shows Neo wherever Neo is alive, a smith wherever a non-destroyed smith stands, and empty elsewhere. |
| `Simulation.Simulation.Tick` | engine/Simulation.ts:85-144 | The new state is `Simulation.SimStep`. An undecided tick leaves the cache rendered, and a decided one leaves the grid alone. |
| `Simulation.Simulation.HeadTurn` | engine/Simulation.ts:86-103 | Steps 1-3 of `tick`. |
| `Simulation.Simulation.TailTurn` | engine/Simulation.ts:105-140 | Steps 4-6 of `tick`. |
| `Simulation.Simulation.SwarmTurn` | engine/Simulation.ts:92-103 | The swarm's turn, or one tick less of bullet time. |
| `Simulation.Simulation.NeoTurn` | engine/Simulation.ts:105-116 | Neo's turn, and the restart of bullet time. |
| `Simulation.Simulation.CheckEnd` | engine/Simulation.ts:123-140 | The end conditions, entering Resolution with an announcement. |
| `Simulation.Simulation.GetState` | engine/Simulation.ts:181-200 | The snapshot holds the last `min(20, n)` events in order, a `gridSize`-row grid, and the non-destroyed count as the swarm count. |
| `Simulation.Simulation.SpawnSmith` | engine/Simulation.ts:204-214 | The new state is `Simulation.SpawnStep`, characterised by `Simulation.SpawnSpec`. |
| `Simulation.Simulation.SetSwarmStrategy` | engine/Simulation.ts:216-223 | The new state is the strategy override with one warning. |

## Left out

- **Timers.** `start`, `stop`, `setOnTick` and the auto-restart timer (`engine/Simulation.ts:56-83`) are not modelled. Ticks are plain method calls.
- **The outer layers.** The terminal and web renderers and the MCP tool server are not part of this model.
- **Configuration.** `config.ts` is not part of this model. Its values are the `Types.Config` parameter, and `Types.ValidConfig` asks for a non-empty grid, a shockwave cooldown of at least one, and non-negative dodge and fleet cooldowns, bullet-time charges and bullet-time duration.
- **Randomness.** `Math.random` and the `sort`-based shuffles are oracle parameters:
  - `Swarm.Swarm.Init` requires enough accepted samples, since the source loops until it finds them;
  - facts that need a real shuffle, such as adjacency, require the order to be a permutation of the eight directions;
  - the picked parent is the oracle value taken modulo the number of candidates.
- **Trigonometry.** The surround ring point is the `Types.RingOffsets` parameter (the rounded `2 cos` and `2 sin` of the slot angle), because floating-point trigonometry is not modelled. An empty list gives a NaN target, and the smith stays.
- **Real arithmetic.** The flank centroid is computed in integers, proved equivalent to the real mean by `FlankStrategy.SignOfCentroidOffset`. The mean distance of `evaluatePosition` is a Dafny `real`. JavaScript numbers are 64-bit floating point; coordinates, counters and tick numbers are modelled as unbounded integers, and no rounding or overflow is modelled.
- **Fractional coordinates.** `spawnSmith` (engine/Simulation.ts:204-214) takes any numbers and checks only `isInBounds`, and the tool server validates only the range 0 to 19 (mcp-server/src/tools.ts:76-77). A fractional `y` therefore passes, and the next `updateGrid` (engine/Simulation.ts:156-163) writes `grid[y][x]` through `setCell` (engine/World.ts:32-36) on a missing row, which throws a TypeError. Positions here are `int` pairs, so the model cannot express that input.
- **Knockback.** The computation at `engine/NeoAgent.ts:173-185` is dead code and is left out: its result is never used.
- **Message texts.** Events keep only their tick and type.
- **The world interface.** `getWorldInterface` is replaced by passing the grid size, Neo's cell and the list of smith positions directly.
- **Aliasing.** The shared mutable records are values. A snapshot that aliases the live list is modelled by indices (the fleet) or by cells (Neo, whose smiths cannot move mid-turn).
- **`resetFleetCounter`.** It has no caller, so the fleet id counter is never reset.
- **The fleet record.** The simulation object owns the record and passes it to Neo. The code as written passes no fleet, so every tick with Neo alive throws a TypeError inside Neo's turn (`engine/NeoAgent.ts:62`, `:107` or `:118`). The rest of that tick, `engine/Simulation.ts:114-143`, never runs and the game never ends. This deviation is described above.
- `Simulation.SimStep`, `Simulation.Simulation.Tick`: a known divergence. They model a tick that completes with the fleet passed through. The crash of the code as written, and the partial updates it leaves behind, are not modelled.
- `NeoAgent.NeoTickKeepsInv` requires `Types.ValidConfig`, whose shockwave cooldown is at least one. With a configured cooldown of zero, a fired shockwave sets the cooldown to zero and readiness to false (`engine/NeoAgent.ts:197-198`), and the countdown, which acts only while the cooldown is above zero (`engine/NeoAgent.ts:59-66`), never re-arms it. The invariant "ready exactly when the cooldown is zero" then fails, as `NeoAgent.ZeroCooldownNeverRearms` shows.
- `NeoAgent.PhasesKeepInv` requires the same configuration premise, for the same reason.
- `Simulation.StepKeepsInv` requires the same configuration premise, for the same reason.
- `FleetAgent.TickFleetSmiths` states bounds for the whole fleet loop, not which smith ends stunned or destroyed. Each later agent acts on the smiths as the earlier ones left them, against the same snapshot, and a stun can revive a smith destroyed earlier in the tick (`FleetAgent.StunRevivesInSameTick`). The exact effect of each agent on contact is stated by `FleetAgent.DiagnosisContact` and `FleetAgent.MitigationContact`. The exact growth of the destroyed count is stated by `FleetAgent.TickFleetDestroyed`.
- `NeoAgent.NearestDistance` requires a non-empty list. The empty case, where the infinite minimum makes the score infinite, is handled by `NeoAgent.EvaluatePosition`, which calls it only when smiths exist.
