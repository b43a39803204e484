/** The support fleet (engine/FleetAgent.ts): deployment of one agent per role around Neo,
    and the per-tick behaviour of each role: seek, stun, destroy, or stay near Neo. Agents
    and smiths are record values; the fleet tick returns the updated lists. */
module FleetAgent {
  import opened Types
  import opened World
  import SmithAgent

  /** The roles of one deployment, in order. */
  const Roles: seq<FleetAgentRole> := [Triage, Diagnosis, Mitigation, Comms]

  /** How long a diagnosis agent stuns a smith. */
  const StunTicks: int := 8

  /** How close a comms agent keeps to Neo. */
  const CommsReach: int := 2

  /** `createFleetAgent` once the id counter has been advanced to `id`. */
  function NewFleetAgent(id: nat, role: FleetAgentRole, position: Position, lifespan: int): FleetAgentState {
    FleetAgentState(id, role, position, FleetActive, None, lifespan)
  }

  /** An agent placed earlier in the same deployment stands on `p`. */
  predicate Taken(existing: seq<FleetAgentState>, p: Position) {
    exists i :: 0 <= i < |existing| && existing[i].position == p
  }

  /** Direction `d` gives no spawn cell: off the grid, or taken by an agent of the batch. */
  predicate Closed(center: Position, existing: seq<FleetAgentState>, d: Position, n: int) {
    !InBounds(Shift(center, d), n) || Taken(existing, Shift(center, d))
  }

  /** The index of the first direction of `order` that is not closed (`|order|` if none). */
  function FirstOpen(center: Position, existing: seq<FleetAgentState>, order: seq<Position>, n: int): (k: nat)
    ensures k <= |order|
    ensures forall j :: 0 <= j < k ==> Closed(center, existing, order[j], n)
    ensures k < |order| ==> !Closed(center, existing, order[k], n)
    decreases |order|
  {
    if |order| == 0 then 0
    else if !Closed(center, existing, order[0], n) then 0
    else
      var k := FirstOpen(center, existing, order[1..], n);
      assert forall j :: 1 <= j < |order| ==> order[j] == order[1..][j - 1];
      1 + k
  }

  /** `findSpawnNear`: the first open cell in the shuffled order, else Neo's own cell. */
  function SpawnNear(center: Position, existing: seq<FleetAgentState>, order: seq<Position>, n: int): Position {
    var k := FirstOpen(center, existing, order, n);
    if k < |order| then Shift(center, order[k]) else center
  }

  /** The spawn cell is Neo's cell or an in-bounds cell no earlier agent of the batch stands
      on. With a shuffle of the eight directions it touches Neo, and it falls back to Neo's
      cell only when each of the eight cells around Neo is off the grid or taken. */
  lemma SpawnNearSpec(center: Position, existing: seq<FleetAgentState>, order: seq<Position>, n: int)
    ensures var p := SpawnNear(center, existing, order, n);
      && (p == center || (InBounds(p, n) && !Taken(existing, p)))
      && (multiset(order) == multiset(Dirs8) ==>
            && (p == center || Adjacent8(center, p))
            && (p == center ==> forall q :: Adjacent8(center, q) && InBounds(q, n) ==> Taken(existing, q)))
  {
    var k := FirstOpen(center, existing, order, n);
    if multiset(order) == multiset(Dirs8) {
      if k < |order| {
        assert order[k] in multiset(order);
        DirectionIsAdjacent(center, order[k]);
      } else {
        forall q | Adjacent8(center, q) && InBounds(q, n)
          ensures Taken(existing, q)
        {
          var d := Position(q.x - center.x, q.y - center.y);
          DirectionOfAdjacent(center, q);
          assert d in multiset(order);
          var j :| 0 <= j < |order| && order[j] == d;
          assert Closed(center, existing, order[j], n);
        }
      }
    }
  }

  /** The search loop of `findSpawnNear`. */
  method FindSpawnNear(center: Position, existing: seq<FleetAgentState>, order: seq<Position>, n: int)
    returns (p: Position)
    ensures p == SpawnNear(center, existing, order, n)
  {
    var i := 0;
    while i < |order|
      invariant 0 <= i <= FirstOpen(center, existing, order, n)
    {
      var pos := Shift(center, order[i]);
      if InBounds(pos, n) && !Taken(existing, pos) {
        return pos;
      }
      i := i + 1;
    }
    return center;
  }

  /** The first `k` agents of a deployment around `center`, agent `k - 1` placed with the
      `k - 1`-th shuffle and avoiding the ones before it. */
  function DeployPrefix(center: Position, orders: seq<seq<Position>>, n: int, counter: nat, lifespan: int, k: nat)
    : (r: seq<FleetAgentState>)
    requires k <= |Roles| && k <= |orders|
    ensures |r| == k
  {
    if k == 0 then []
    else
      var prev := DeployPrefix(center, orders, n, counter, lifespan, k - 1);
      prev + [NewFleetAgent(counter + k, Roles[k - 1], SpawnNear(center, prev, orders[k - 1], n), lifespan)]
  }

  /** The events of one deployment: the announcement and one per agent. */
  function DeployEvents(tick: int): seq<SimulationEvent> {
    var e := SimulationEvent(tick, FleetEvent);
    [e, e, e, e, e]
  }

  /** A deployment in progress: agent i has role i, id counter + i + 1, the full lifespan
      and no target. */
  lemma {:induction false} DeployPrefixShape(center: Position, orders: seq<seq<Position>>, n: int, counter: nat, lifespan: int, k: nat)
    requires k <= |Roles| && k <= |orders|
    ensures var a := DeployPrefix(center, orders, n, counter, lifespan, k);
      forall i :: 0 <= i < k ==> a[i] == NewFleetAgent(counter + i + 1, Roles[i], a[i].position, lifespan)
  {
    if k > 0 {
      DeployPrefixShape(center, orders, n, counter, lifespan, k - 1);
    }
  }

  /** Each agent of a deployment stands on Neo's cell or on an in-bounds cell none of the
      agents before it uses. */
  lemma {:induction false} DeployPrefixApart(center: Position, orders: seq<seq<Position>>, n: int, counter: nat, lifespan: int, k: nat)
    requires k <= |Roles| && k <= |orders|
    ensures forall i :: 0 <= i < k ==>
      var a := DeployPrefix(center, orders, n, counter, lifespan, k);
      a[i].position == center
      || (InBounds(a[i].position, n) && forall j :: 0 <= j < i ==> a[j].position != a[i].position)
  {
    if k > 0 {
      DeployPrefixApart(center, orders, n, counter, lifespan, k - 1);
      var prev := DeployPrefix(center, orders, n, counter, lifespan, k - 1);
      var p := SpawnNear(center, prev, orders[k - 1], n);
      var a := DeployPrefix(center, orders, n, counter, lifespan, k);
      assert a == prev + [NewFleetAgent(counter + k, Roles[k - 1], p, lifespan)];
      assert forall i :: 0 <= i < k - 1 ==> a[i] == prev[i];
      SpawnNearSpec(center, prev, orders[k - 1], n);
      if p != center {
        forall j | 0 <= j < k - 1
          ensures prev[j].position != p
        {
        }
      }
    }
  }

  /** With shuffles of the eight directions, every agent of a deployment touches Neo or
      shares its cell. */
  lemma {:induction false} DeployPrefixNear(center: Position, orders: seq<seq<Position>>, n: int, counter: nat, lifespan: int, k: nat)
    requires k <= |Roles| && k <= |orders|
    requires forall i :: 0 <= i < k ==> multiset(orders[i]) == multiset(Dirs8)
    ensures forall i :: 0 <= i < k ==>
      var p := DeployPrefix(center, orders, n, counter, lifespan, k)[i].position;
      (p == center || Adjacent8(center, p)) && Distance(center, p) <= CommsReach
  {
    if k > 0 {
      var prev := DeployPrefix(center, orders, n, counter, lifespan, k - 1);
      DeployPrefixNear(center, orders, n, counter, lifespan, k - 1);
      var a := DeployPrefix(center, orders, n, counter, lifespan, k);
      assert a[k - 1].position == SpawnNear(center, prev, orders[k - 1], n);
      SpawnNearSpec(center, prev, orders[k - 1], n);
      forall i | 0 <= i < k
        ensures a[i].position == center || Adjacent8(center, a[i].position)
        ensures Distance(center, a[i].position) <= CommsReach
      {
        if i < k - 1 {
          assert a[i] == prev[i];
          assert prev[i].position == center || Adjacent8(center, prev[i].position);
        }
      }
    }
  }

  /** `deployFleet`: always four agents, triage, diagnosis, mitigation and comms in that
      order, with the next four ids, all active with the full lifespan, placed around Neo
      (on the grid whenever Neo is), and five fleet events. */
  lemma DeploySpec(center: Position, orders: seq<seq<Position>>, n: int, counter: nat, lifespan: int)
    requires |orders| >= 4
    ensures |DeployPrefix(center, orders, n, counter, lifespan, 4)| == 4
    ensures forall i :: 0 <= i < 4 ==>
      var a := DeployPrefix(center, orders, n, counter, lifespan, 4)[i];
      && a.id == counter + i + 1 && a.role == Roles[i] && a.status == FleetActive
      && a.targetSmithId == None && a.ticksRemaining == lifespan
    ensures InBounds(center, n) ==> forall i :: 0 <= i < 4 ==>
      InBounds(DeployPrefix(center, orders, n, counter, lifespan, 4)[i].position, n)
    ensures (forall i :: 0 <= i < 4 ==> multiset(orders[i]) == multiset(Dirs8)) ==> forall i :: 0 <= i < 4 ==>
      Distance(center, DeployPrefix(center, orders, n, counter, lifespan, 4)[i].position) <= CommsReach
  {
    DeployPrefixShape(center, orders, n, counter, lifespan, 4);
    DeployPrefixApart(center, orders, n, counter, lifespan, 4);
    if forall i :: 0 <= i < 4 ==> multiset(orders[i]) == multiset(Dirs8) {
      DeployPrefixNear(center, orders, n, counter, lifespan, 4);
    }
  }

  /** The loop of `deployFleet`; returns the agents, the events pushed and the advanced id
      counter. `findSpawnNear` always yields a cell, so every role gets an agent. */
  method DeployFleet(neoPos: Position, n: int, tick: int, orders: seq<seq<Position>>, counter: nat, lifespan: int)
    returns (agents: seq<FleetAgentState>, newEvents: seq<SimulationEvent>, nextCounter: nat)
    requires |orders| >= 4
    ensures agents == DeployPrefix(neoPos, orders, n, counter, lifespan, 4)
    ensures newEvents == DeployEvents(tick)
    ensures nextCounter == counter + 4
  {
    var roles := Roles;
    agents := [];
    var e := SimulationEvent(tick, FleetEvent);
    newEvents := [e];
    nextCounter := counter;
    var i := 0;
    while i < |roles|
      invariant 0 <= i <= |roles|
      invariant agents == DeployPrefix(neoPos, orders, n, counter, lifespan, i)
      invariant nextCounter == counter + i
      invariant |newEvents| == i + 1 && forall j :: 0 <= j < |newEvents| ==> newEvents[j] == e
    {
      var spawnPos := FindSpawnNear(neoPos, agents, orders[i], n);
      nextCounter := nextCounter + 1;
      var agent := NewFleetAgent(nextCounter, roles[i], spawnPos, lifespan);
      agents := agents + [agent];
      newEvents := newEvents + [e];
      i := i + 1;
    }
  }

  /** `hasCommsNearby`: an active comms agent is within two steps of Neo. */
  predicate CommsNearby(agents: seq<FleetAgentState>, neo: Position) {
    exists i :: 0 <= i < |agents| && agents[i].role == Comms && agents[i].status == FleetActive
      && Distance(agents[i].position, neo) <= CommsReach
  }

  /** Right after a deployment with shuffles of the eight directions, the new comms agent
      is close enough to Neo to speed up the shockwave cooldown. */
  lemma CommsNearbyAfterDeploy(others: seq<FleetAgentState>, center: Position, orders: seq<seq<Position>>, n: int, counter: nat, lifespan: int)
    requires |orders| >= 4 && forall i :: 0 <= i < 4 ==> multiset(orders[i]) == multiset(Dirs8)
    ensures CommsNearby(others + DeployPrefix(center, orders, n, counter, lifespan, 4), center)
  {
    var a := DeployPrefix(center, orders, n, counter, lifespan, 4);
    DeploySpec(center, orders, n, counter, lifespan);
    DistanceIsMetric(center, a[3].position, center);
    assert (others + a)[|others| + 3] == a[3];
  }

  /** All entries of `idxs` index `ss`. */
  predicate ValidIndices(idxs: seq<nat>, ss: seq<SmithAgentState>) {
    forall i :: 0 <= i < |idxs| ==> idxs[i] < |ss|
  }

  /** The indices, among the first `k`, of the smiths that are active (not stunned, not
      destroyed), in increasing order. */
  function ActiveIndices(ss: seq<SmithAgentState>, k: nat): (r: seq<nat>)
    requires k <= |ss|
    ensures forall i :: 0 <= i < |r| ==> r[i] < k && ss[r[i]].state == Active
    ensures forall j :: 0 <= j < k && ss[j].state == Active ==> j in r
    ensures forall i, j :: 0 <= i < j < |r| ==> r[i] < r[j]
  {
    if k == 0 then []
    else ActiveIndices(ss, k - 1) + (if ss[k - 1].state == Active then [k - 1] else [])
  }

  /** The `activeSmiths` of `tickFleet`, taken once before the agents act. */
  function Snapshot(ss: seq<SmithAgentState>): (r: seq<nat>)
    ensures ValidIndices(r, ss)
  {
    ActiveIndices(ss, |ss|)
  }

  /** The place in `idxs` where the scan of `findNearestSmith` ends: the first smith at the
      least distance from `pos`. */
  function BestAt(pos: Position, ss: seq<SmithAgentState>, idxs: seq<nat>): (k: nat)
    requires |idxs| > 0 && ValidIndices(idxs, ss)
    ensures k < |idxs|
    ensures forall m :: 0 <= m < |idxs| ==> Distance(pos, ss[idxs[k]].position) <= Distance(pos, ss[idxs[m]].position)
    ensures forall m :: 0 <= m < k ==> Distance(pos, ss[idxs[m]].position) > Distance(pos, ss[idxs[k]].position)
  {
    if |idxs| == 1 then 0
    else
      var init := idxs[..|idxs| - 1];
      var k := BestAt(pos, ss, init);
      assert forall m :: 0 <= m < |init| ==> init[m] == idxs[m];
      if Distance(pos, ss[idxs[|idxs| - 1]].position) < Distance(pos, ss[idxs[k]].position) then |idxs| - 1 else k
  }

  /** `findNearestSmith`: the nearest listed smith if it is within `range`. */
  function FindNearest(pos: Position, ss: seq<SmithAgentState>, idxs: seq<nat>, range: int): Option<nat>
    requires ValidIndices(idxs, ss)
  {
    if |idxs| == 0 then None
    else
      var j := idxs[BestAt(pos, ss, idxs)];
      if Distance(pos, ss[j].position) <= range then Some(j) else None
  }

  /** The smith found is listed, within range, no farther than any listed smith and listed
      before every other smith at that distance; none is found exactly when every listed
      smith is out of range (in particular when none is listed). */
  lemma FindNearestSpec(pos: Position, ss: seq<SmithAgentState>, idxs: seq<nat>, range: int)
    requires ValidIndices(idxs, ss)
    ensures var r := FindNearest(pos, ss, idxs, range);
      && (r.Some? ==>
            && r.value in idxs && Distance(pos, ss[r.value].position) <= range
            && (forall m :: 0 <= m < |idxs| ==> Distance(pos, ss[r.value].position) <= Distance(pos, ss[idxs[m]].position))
            && exists k :: 0 <= k < |idxs| && idxs[k] == r.value
                 && forall m :: 0 <= m < k ==> Distance(pos, ss[idxs[m]].position) > Distance(pos, ss[r.value].position))
      && (r.None? <==> forall m :: 0 <= m < |idxs| ==> Distance(pos, ss[idxs[m]].position) > range)
  {
    if |idxs| > 0 {
      var k := BestAt(pos, ss, idxs);
      assert idxs[k] in idxs;
    }
  }

  /** The scan of `findNearestSmith`; "no smith yet" stands for the initial infinite best
      distance. */
  method FindNearestSmith(pos: Position, ss: seq<SmithAgentState>, idxs: seq<nat>, range: int) returns (r: Option<nat>)
    requires ValidIndices(idxs, ss)
    ensures r == FindNearest(pos, ss, idxs, range)
  {
    var nearest: Option<nat> := None;
    var bestDist: nat := 0;
    var i := 0;
    while i < |idxs|
      invariant 0 <= i <= |idxs|
      invariant i == 0 ==> nearest.None?
      invariant i > 0 ==> nearest == Some(idxs[BestAt(pos, ss, idxs[..i])]) && bestDist == Distance(pos, ss[nearest.value].position)
    {
      assert idxs[..i + 1][..i] == idxs[..i];
      var dist := Distance(pos, ss[idxs[i]].position);
      if nearest.None? || dist < bestDist {
        bestDist := dist;
        nearest := Some(idxs[i]);
      }
      i := i + 1;
    }
    assert idxs[..|idxs|] == idxs;
    if nearest.Some? && bestDist <= range {
      r := nearest;
    } else {
      r := None;
    }
  }

  /** `moveToward`: one step along the axis with the larger gap (the x axis on a tie),
      taken only if it stays on the grid. */
  function MoveToward(pos: Position, target: Position, n: int): Position {
    var dx := target.x - pos.x;
    var dy := target.y - pos.y;
    var newPos := if Abs(dx) >= Abs(dy) then Position(pos.x + Sign(dx), pos.y) else Position(pos.x, pos.y + Sign(dy));
    if InBounds(newPos, n) then newPos else pos
  }

  /** A step toward a target always closes the distance by one, along the x axis when its
      gap is at least the y gap and along the y axis otherwise, and it is taken whenever
      both ends are on the grid and distinct; on the target, the agent stays. */
  lemma MoveTowardSpec(pos: Position, target: Position, n: int)
    ensures var p := MoveToward(pos, target, n);
      && (p == pos || (InBounds(p, n) && Distance(pos, p) == 1 && Distance(p, target) + 1 == Distance(pos, target)))
      && (Abs(target.x - pos.x) >= Abs(target.y - pos.y) ==> p.y == pos.y)
      && (Abs(target.x - pos.x) < Abs(target.y - pos.y) ==> p.x == pos.x)
      && (pos == target ==> p == pos)
      && (InBounds(pos, n) && InBounds(target, n) && pos != target ==> Distance(p, target) + 1 == Distance(pos, target))
  {
  }

  /** What one agent does to itself, the smiths, the destroyed count and the event list. */
  datatype Outcome = Outcome(agent: FleetAgentState, smiths: seq<SmithAgentState>, destroyed: nat, events: seq<SimulationEvent>)

  /** The common start of the seeking roles: lock on to the nearest snapshot smith within
      range and step toward it; none when there is no such smith. */
  function Approach(a: FleetAgentState, ss: seq<SmithAgentState>, snap: seq<nat>, n: int, range: int)
    : Option<(FleetAgentState, nat)>
    requires ValidIndices(snap, ss)
  {
    match FindNearest(a.position, ss, snap, range)
    case None => None
    case Some(j) =>
      Some((a.(targetSmithId := Some(ss[j].id), position := MoveToward(a.position, ss[j].position, n)), j))
  }

  /** `tickTriage`: seek, and report when on the smith's cell. */
  function TriageStep(a: FleetAgentState, ss: seq<SmithAgentState>, snap: seq<nat>, n: int, range: int, tick: int): Outcome
    requires ValidIndices(snap, ss)
  {
    match Approach(a, ss, snap, n, range)
    case None => Outcome(a, ss, 0, [])
    case Some((a2, j)) =>
      Outcome(a2, ss, 0, if a2.position == ss[j].position then [SimulationEvent(tick, FleetEvent)] else [])
  }

  /** `tickDiagnosis`: seek, and on the smith's cell stun it and stand down. */
  function DiagnosisStep(a: FleetAgentState, ss: seq<SmithAgentState>, snap: seq<nat>, n: int, range: int, tick: int): Outcome
    requires ValidIndices(snap, ss)
  {
    match Approach(a, ss, snap, n, range)
    case None => Outcome(a, ss, 0, [])
    case Some((a2, j)) =>
      if a2.position == ss[j].position then
        Outcome(a2.(status := Engaged), ss[j := SmithAgent.Stun(ss[j], StunTicks)], 0, [SimulationEvent(tick, FleetEvent)])
      else Outcome(a2, ss, 0, [])
  }

  /** `tickMitigation`: seek, and on the smith's cell destroy it and stand down. */
  function MitigationStep(a: FleetAgentState, ss: seq<SmithAgentState>, snap: seq<nat>, n: int, range: int, tick: int): Outcome
    requires ValidIndices(snap, ss)
  {
    match Approach(a, ss, snap, n, range)
    case None => Outcome(a, ss, 0, [])
    case Some((a2, j)) =>
      if a2.position == ss[j].position then
        Outcome(a2.(status := Engaged), ss[j := SmithAgent.Destroy(ss[j])], 1, [SimulationEvent(tick, FleetEvent)])
      else Outcome(a2, ss, 0, [])
  }

  /** `tickComms`: step toward Neo when farther than two steps away. */
  function CommsStep(a: FleetAgentState, neo: Position, n: int): FleetAgentState {
    if Distance(a.position, neo) > CommsReach then a.(position := MoveToward(a.position, neo, n)) else a
  }

  /** One iteration of the agent loop of `tickFleet`. */
  function AgentStep(a: FleetAgentState, ss: seq<SmithAgentState>, snap: seq<nat>, neo: Position, cfg: Config, tick: int): Outcome
    requires ValidIndices(snap, ss)
  {
    if a.status != FleetActive then Outcome(a, ss, 0, [])
    else
      var a1 := a.(ticksRemaining := a.ticksRemaining - 1);
      if a1.ticksRemaining <= 0 then Outcome(a1.(status := Expired), ss, 0, [SimulationEvent(tick, FleetEvent)])
      else
        match a1.role
        case Triage => TriageStep(a1, ss, snap, cfg.gridSize, cfg.fleetSeekRange, tick)
        case Diagnosis => DiagnosisStep(a1, ss, snap, cfg.gridSize, cfg.fleetSeekRange, tick)
        case Mitigation => MitigationStep(a1, ss, snap, cfg.gridSize, cfg.fleetSeekRange, tick)
        case Comms => Outcome(CommsStep(a1, neo, cfg.gridSize), ss, 0, [])
  }

  /** What one agent may do to the smiths: nothing to their number, ids, cells or
      generations; and at most one smith changes, a snapshot one, which ends up stunned
      (by a diagnosis agent) or destroyed (by a mitigation agent, the only case that
      counts a destruction). */
  lemma AgentStepSmiths(a: FleetAgentState, ss: seq<SmithAgentState>, snap: seq<nat>, neo: Position, cfg: Config, tick: int)
    requires ValidIndices(snap, ss)
    ensures var o := AgentStep(a, ss, snap, neo, cfg, tick);
      && |o.smiths| == |ss|
      && (forall i :: 0 <= i < |ss| ==>
            && o.smiths[i].id == ss[i].id && o.smiths[i].position == ss[i].position
            && o.smiths[i].generation == ss[i].generation)
      && (forall i :: 0 <= i < |ss| && o.smiths[i] != ss[i] ==>
            && i in snap
            && ((o.smiths[i].state == Stunned && a.role == Diagnosis) || (o.smiths[i].state == Destroyed && a.role == Mitigation))
            && forall j :: 0 <= j < |ss| && j != i ==> o.smiths[j] == ss[j])
      && o.destroyed <= 1 && (o.destroyed == 1 ==> a.role == Mitigation)
  {
    if a.status == FleetActive && a.ticksRemaining - 1 > 0 {
      if a.role != Comms {
        FindNearestSpec(a.position, ss, snap, cfg.fleetSeekRange);
      }
    }
  }

  /** What one agent does to itself: it keeps its id and role; an agent that is not active
      is left alone; an active one loses a tick of lifespan, expires when none is left, and
      otherwise moves at most one step, staying on the grid if it was on it. */
  lemma AgentStepAgent(a: FleetAgentState, ss: seq<SmithAgentState>, snap: seq<nat>, neo: Position, cfg: Config, tick: int)
    requires ValidIndices(snap, ss)
    ensures var o := AgentStep(a, ss, snap, neo, cfg, tick);
      && o.agent.id == a.id && o.agent.role == a.role
      && (a.status != FleetActive ==> o == Outcome(a, ss, 0, []))
      && (a.status == FleetActive ==>
            && o.agent.ticksRemaining == a.ticksRemaining - 1
            && (a.ticksRemaining <= 1 <==> o.agent.status == Expired)
            && (o.agent.status == FleetActive ==> o.agent.ticksRemaining >= 1))
      && (o.agent.position == a.position
          || (InBounds(o.agent.position, cfg.gridSize) && Distance(a.position, o.agent.position) == 1))
      && |o.events| <= 1
  {
    var a1 := a.(ticksRemaining := a.ticksRemaining - 1);
    MoveTowardSpec(a1.position, neo, cfg.gridSize);
    if a.status == FleetActive && a1.ticksRemaining > 0 && a.role != Comms {
      match FindNearest(a1.position, ss, snap, cfg.fleetSeekRange)
      case None =>
      case Some(j) => MoveTowardSpec(a1.position, ss[j].position, cfg.gridSize);
    }
  }

  /** An agent whose lifespan runs out expires, reports it, and takes no role action. */
  lemma ExpiryTakesNoAction(a: FleetAgentState, ss: seq<SmithAgentState>, snap: seq<nat>, neo: Position, cfg: Config, tick: int)
    requires ValidIndices(snap, ss)
    requires a.status == FleetActive && a.ticksRemaining <= 1
    ensures var o := AgentStep(a, ss, snap, neo, cfg, tick);
      && o.smiths == ss && o.destroyed == 0
      && o.agent.status == Expired && o.agent.position == a.position && o.agent.targetSmithId == a.targetSmithId
      && o.events == [SimulationEvent(tick, FleetEvent)]
  {
  }

  /** A triage agent with lifespan left steps toward the nearest snapshot smith in range,
      locks on to it and reports when it lands on its cell; it never touches a smith and
      stays active. */
  lemma TriageContact(a: FleetAgentState, ss: seq<SmithAgentState>, snap: seq<nat>, neo: Position, cfg: Config, tick: int)
    requires ValidIndices(snap, ss)
    requires a.status == FleetActive && a.ticksRemaining > 1 && a.role == Triage
    ensures var o := AgentStep(a, ss, snap, neo, cfg, tick);
      && o.smiths == ss && o.destroyed == 0
      && o.agent.status == FleetActive && o.agent.ticksRemaining == a.ticksRemaining - 1
      && (match FindNearest(a.position, ss, snap, cfg.fleetSeekRange)
          case None => o.agent.position == a.position && o.events == []
          case Some(j) =>
            var p := MoveToward(a.position, ss[j].position, cfg.gridSize);
            && o.agent.position == p && o.agent.targetSmithId == Some(ss[j].id)
            && (o.events == [SimulationEvent(tick, FleetEvent)] <==> p == ss[j].position)
            && |o.events| <= 1)
  {
  }

  /** A diagnosis agent with lifespan left steps toward the nearest snapshot smith in range
      and locks on to it; landing on its cell stuns that smith for eight ticks, engages the
      agent and reports it; otherwise no smith changes and the agent stays active. */
  lemma DiagnosisContact(a: FleetAgentState, ss: seq<SmithAgentState>, snap: seq<nat>, neo: Position, cfg: Config, tick: int)
    requires ValidIndices(snap, ss)
    requires a.status == FleetActive && a.ticksRemaining > 1 && a.role == Diagnosis
    ensures var o := AgentStep(a, ss, snap, neo, cfg, tick);
      && o.destroyed == 0 && o.agent.ticksRemaining == a.ticksRemaining - 1
      && (match FindNearest(a.position, ss, snap, cfg.fleetSeekRange)
          case None => o.smiths == ss && o.agent.status == FleetActive && o.agent.position == a.position && o.events == []
          case Some(j) =>
            var p := MoveToward(a.position, ss[j].position, cfg.gridSize);
            && o.agent.position == p && o.agent.targetSmithId == Some(ss[j].id)
            && (p == ss[j].position ==>
                  && o.smiths == ss[j := ss[j].(state := Stunned, stunnedTicks := 8)]
                  && o.agent.status == Engaged && o.events == [SimulationEvent(tick, FleetEvent)])
            && (p != ss[j].position ==> o.smiths == ss && o.agent.status == FleetActive && o.events == []))
  {
  }

  /** A mitigation agent with lifespan left steps toward the nearest snapshot smith in range
      and locks on to it; landing on its cell destroys that smith, counts one destruction,
      engages the agent and reports it; otherwise nothing is destroyed and it stays active. */
  lemma MitigationContact(a: FleetAgentState, ss: seq<SmithAgentState>, snap: seq<nat>, neo: Position, cfg: Config, tick: int)
    requires ValidIndices(snap, ss)
    requires a.status == FleetActive && a.ticksRemaining > 1 && a.role == Mitigation
    ensures var o := AgentStep(a, ss, snap, neo, cfg, tick);
      && o.agent.ticksRemaining == a.ticksRemaining - 1
      && (match FindNearest(a.position, ss, snap, cfg.fleetSeekRange)
          case None =>
            o.smiths == ss && o.destroyed == 0 && o.agent.status == FleetActive && o.agent.position == a.position && o.events == []
          case Some(j) =>
            var p := MoveToward(a.position, ss[j].position, cfg.gridSize);
            && o.agent.position == p && o.agent.targetSmithId == Some(ss[j].id)
            && (p == ss[j].position ==>
                  && o.smiths == ss[j := ss[j].(state := Destroyed)] && o.destroyed == 1
                  && o.agent.status == Engaged && o.events == [SimulationEvent(tick, FleetEvent)])
            && (p != ss[j].position ==>
                  o.smiths == ss && o.destroyed == 0 && o.agent.status == FleetActive && o.events == []))
  {
  }

  /** A comms agent with lifespan left touches no smith, stays active, and steps toward Neo
      only when more than two cells away; with both on the grid it moves exactly then, and
      one cell closer. */
  lemma CommsKeepsNear(a: FleetAgentState, ss: seq<SmithAgentState>, snap: seq<nat>, neo: Position, cfg: Config, tick: int)
    requires ValidIndices(snap, ss)
    requires a.status == FleetActive && a.ticksRemaining > 1 && a.role == Comms
    ensures var o := AgentStep(a, ss, snap, neo, cfg, tick);
      && o.smiths == ss && o.destroyed == 0 && o.events == []
      && o.agent.status == FleetActive && o.agent.targetSmithId == a.targetSmithId
      && (Distance(a.position, neo) <= 2 ==> o.agent.position == a.position)
      && (Distance(a.position, neo) > 2 ==> o.agent.position == MoveToward(a.position, neo, cfg.gridSize))
      && (InBounds(a.position, cfg.gridSize) && InBounds(neo, cfg.gridSize) ==>
            && (o.agent.position != a.position <==> Distance(a.position, neo) > 2)
            && (Distance(a.position, neo) > 2 ==> Distance(o.agent.position, neo) + 1 == Distance(a.position, neo)))
  {
    MoveTowardSpec(a.position, neo, cfg.gridSize);
  }

  /** An agent counts a destruction exactly when it is an active mitigation agent that
      engages in this iteration. */
  lemma AgentStepDestroyed(a: FleetAgentState, ss: seq<SmithAgentState>, snap: seq<nat>, neo: Position, cfg: Config, tick: int)
    requires ValidIndices(snap, ss)
    ensures var o := AgentStep(a, ss, snap, neo, cfg, tick);
      o.destroyed == if a.status == FleetActive && a.role == Mitigation && o.agent.status == Engaged then 1 else 0
  {
  }

  /** An agent never adds or removes a smith. */
  lemma AgentStepLength(a: FleetAgentState, ss: seq<SmithAgentState>, snap: seq<nat>, neo: Position, cfg: Config, tick: int)
    requires ValidIndices(snap, ss)
    ensures |AgentStep(a, ss, snap, neo, cfg, tick).smiths| == |ss|
  {
  }

  /** The state threaded through the agent loop. */
  datatype FleetRun = FleetRun(agents: seq<FleetAgentState>, smiths: seq<SmithAgentState>, smithsDestroyed: int, events: seq<SimulationEvent>)

  /** The agent loop after its first `k` iterations; agent `k - 1` acts on the smiths as the
      earlier agents left them, always against the same snapshot. */
  function RunPrefix(r0: FleetRun, snap: seq<nat>, neo: Position, cfg: Config, tick: int, k: nat): (r: FleetRun)
    requires k <= |r0.agents| && ValidIndices(snap, r0.smiths)
    ensures |r.agents| == |r0.agents| && |r.smiths| == |r0.smiths|
  {
    if k == 0 then r0
    else
      var r := RunPrefix(r0, snap, neo, cfg, tick, k - 1);
      AgentStepSmiths(r.agents[k - 1], r.smiths, snap, neo, cfg, tick);
      var o := AgentStep(r.agents[k - 1], r.smiths, snap, neo, cfg, tick);
      FleetRun(r.agents[k - 1 := o.agent], o.smiths, r.smithsDestroyed + o.destroyed, r.events + o.events)
  }

  /** The agents still active, in order. */
  function ActiveAgents(agents: seq<FleetAgentState>): (r: seq<FleetAgentState>)
    ensures |r| <= |agents|
    ensures forall i :: 0 <= i < |r| ==> r[i].status == FleetActive
  {
    if |agents| == 0 then []
    else
      var last := agents[|agents| - 1];
      ActiveAgents(agents[..|agents| - 1]) + (if last.status == FleetActive then [last] else [])
  }

  /** `tickFleet`: every agent acts once against the smiths that were active at the start,
      then the expired and engaged agents leave the fleet. Returns the fleet, the smiths
      and the events pushed. */
  function TickFleetStep(fleet: FleetState, ss: seq<SmithAgentState>, neo: Position, cfg: Config, tick: int)
    : (FleetState, seq<SmithAgentState>, seq<SimulationEvent>)
  {
    var snap := Snapshot(ss);
    var r := RunPrefix(FleetRun(fleet.agents, ss, fleet.smithsDestroyed, []), snap, neo, cfg, tick, |fleet.agents|);
    (FleetState(ActiveAgents(r.agents), fleet.totalDeployed, r.smithsDestroyed), r.smiths, r.events)
  }

  /** Every agent keeps its place in the list; agent i has acted once, the later ones not
      yet: an agent that was not active is untouched, an active one lost a tick of lifespan
      and expired exactly when none was left, and moved at most one step. */
  lemma {:induction false} RunAgents(r0: FleetRun, snap: seq<nat>, neo: Position, cfg: Config, tick: int, k: nat)
    requires k <= |r0.agents| && ValidIndices(snap, r0.smiths)
    ensures forall i :: k <= i < |r0.agents| ==> RunPrefix(r0, snap, neo, cfg, tick, k).agents[i] == r0.agents[i]
    ensures forall i :: 0 <= i < k ==>
      var a, b := r0.agents[i], RunPrefix(r0, snap, neo, cfg, tick, k).agents[i];
      && b.id == a.id && b.role == a.role
      && (a.status != FleetActive ==> b == a)
      && (a.status == FleetActive ==>
            && b.ticksRemaining == a.ticksRemaining - 1
            && (a.ticksRemaining <= 1 <==> b.status == Expired)
            && (b.status == FleetActive ==> b.ticksRemaining >= 1))
      && (b.position == a.position || (InBounds(b.position, cfg.gridSize) && Distance(a.position, b.position) == 1))
  {
    if k > 0 {
      RunAgents(r0, snap, neo, cfg, tick, k - 1);
      var r := RunPrefix(r0, snap, neo, cfg, tick, k - 1);
      assert r.agents[k - 1] == r0.agents[k - 1];
      AgentStepAgent(r.agents[k - 1], r.smiths, snap, neo, cfg, tick);
      var o := AgentStep(r.agents[k - 1], r.smiths, snap, neo, cfg, tick);
      assert RunPrefix(r0, snap, neo, cfg, tick, k).agents == r.agents[k - 1 := o.agent];
    }
  }

  /** Agent `i` after `k > i` iterations is exactly its own `tick` from its old state, against
      the smiths as the first `i` agents left them and the shared snapshot; no later
      iteration touches it. */
  lemma {:induction false} RunAgentStep(r0: FleetRun, snap: seq<nat>, neo: Position, cfg: Config, tick: int, k: nat)
    requires k <= |r0.agents| && ValidIndices(snap, r0.smiths)
    ensures forall i :: 0 <= i < k ==>
      RunPrefix(r0, snap, neo, cfg, tick, k).agents[i]
        == AgentStep(r0.agents[i], RunPrefix(r0, snap, neo, cfg, tick, i).smiths, snap, neo, cfg, tick).agent
  {
    if k > 0 {
      RunAgentStep(r0, snap, neo, cfg, tick, k - 1);
      RunAgents(r0, snap, neo, cfg, tick, k - 1);
      var r := RunPrefix(r0, snap, neo, cfg, tick, k - 1);
      assert r.agents[k - 1] == r0.agents[k - 1];
      var o := AgentStep(r.agents[k - 1], r.smiths, snap, neo, cfg, tick);
      assert RunPrefix(r0, snap, neo, cfg, tick, k).agents == r.agents[k - 1 := o.agent];
    }
  }

  /** The smiths after `k` agents: the same number, ids, cells and generations; a smith
      outside the snapshot is untouched; a changed one is stunned or destroyed; and the
      destroyed count grows by at most one per agent. */
  lemma {:induction false} RunSmiths(r0: FleetRun, snap: seq<nat>, neo: Position, cfg: Config, tick: int, k: nat)
    requires k <= |r0.agents| && ValidIndices(snap, r0.smiths)
    ensures forall i :: 0 <= i < |r0.smiths| ==>
      var s, t := r0.smiths[i], RunPrefix(r0, snap, neo, cfg, tick, k).smiths[i];
      && t.id == s.id && t.position == s.position && t.generation == s.generation
      && (i !in snap ==> t == s)
      && (t != s ==> t.state == Stunned || t.state == Destroyed)
    ensures r0.smithsDestroyed <= RunPrefix(r0, snap, neo, cfg, tick, k).smithsDestroyed <= r0.smithsDestroyed + k
  {
    if k > 0 {
      RunSmiths(r0, snap, neo, cfg, tick, k - 1);
      var r := RunPrefix(r0, snap, neo, cfg, tick, k - 1);
      AgentStepSmiths(r.agents[k - 1], r.smiths, snap, neo, cfg, tick);
    }
  }

  /** How many of the first `k` agents were active mitigation agents in `before` and are
      engaged in `after`. */
  function EngagedMitigations(before: seq<FleetAgentState>, after: seq<FleetAgentState>, k: nat): (c: nat)
    requires k <= |before| && k <= |after|
    ensures c <= k
  {
    if k == 0 then 0
    else
      EngagedMitigations(before, after, k - 1)
      + (if before[k - 1].status == FleetActive && before[k - 1].role == Mitigation && after[k - 1].status == Engaged then 1 else 0)
  }

  /** The count reads only the first `k` agents. */
  lemma {:induction false} EngagedMitigationsPrefix(before: seq<FleetAgentState>, a1: seq<FleetAgentState>, a2: seq<FleetAgentState>, k: nat)
    requires k <= |before| && k <= |a1| && k <= |a2|
    requires forall i :: 0 <= i < k ==> a1[i] == a2[i]
    ensures EngagedMitigations(before, a1, k) == EngagedMitigations(before, a2, k)
  {
    if k > 0 {
      EngagedMitigationsPrefix(before, a1, a2, k - 1);
    }
  }

  /** After `k` agents the destroyed count has grown by exactly the number of them that were
      active mitigation agents and engaged. */
  lemma {:induction false} RunDestroyed(r0: FleetRun, snap: seq<nat>, neo: Position, cfg: Config, tick: int, k: nat)
    requires k <= |r0.agents| && ValidIndices(snap, r0.smiths)
    ensures var r := RunPrefix(r0, snap, neo, cfg, tick, k);
      r.smithsDestroyed == r0.smithsDestroyed + EngagedMitigations(r0.agents, r.agents, k)
  {
    if k > 0 {
      RunDestroyed(r0, snap, neo, cfg, tick, k - 1);
      RunAgents(r0, snap, neo, cfg, tick, k - 1);
      var r := RunPrefix(r0, snap, neo, cfg, tick, k - 1);
      var a := r.agents[k - 1];
      assert a == r0.agents[k - 1];
      AgentStepDestroyed(a, r.smiths, snap, neo, cfg, tick);
      var o := AgentStep(a, r.smiths, snap, neo, cfg, tick);
      var agents := r.agents[k - 1 := o.agent];
      assert RunPrefix(r0, snap, neo, cfg, tick, k).agents == agents;
      EngagedMitigationsPrefix(r0.agents, r.agents, agents, k - 1);
    }
  }

  /** The filter keeps exactly the active agents. */
  lemma {:induction false} ActiveAgentsMembers(agents: seq<FleetAgentState>)
    ensures forall x :: x in ActiveAgents(agents) <==> x in agents && x.status == FleetActive
  {
    if |agents| > 0 {
      var init := agents[..|agents| - 1];
      ActiveAgentsMembers(init);
      assert agents == init + [agents[|agents| - 1]];
    }
  }

  /** What `tickFleet` does to the smiths and the counters: the smiths keep their number,
      ids, cells and generations, only those active at the start can change, and only to
      stunned or destroyed; the destroyed count grows by at most one per agent and the
      deployed total is kept. */
  lemma TickFleetSmiths(fleet: FleetState, ss: seq<SmithAgentState>, neo: Position, cfg: Config, tick: int)
    ensures |TickFleetStep(fleet, ss, neo, cfg, tick).1| == |ss|
    ensures forall i :: 0 <= i < |ss| ==>
      var t := TickFleetStep(fleet, ss, neo, cfg, tick).1[i];
      && t.id == ss[i].id && t.position == ss[i].position && t.generation == ss[i].generation
      && (ss[i].state != Active ==> t == ss[i])
      && (t != ss[i] ==> t.state == Stunned || t.state == Destroyed)
    ensures var f := TickFleetStep(fleet, ss, neo, cfg, tick).0;
      && fleet.smithsDestroyed <= f.smithsDestroyed <= fleet.smithsDestroyed + |fleet.agents|
      && f.totalDeployed == fleet.totalDeployed
  {
    var snap := Snapshot(ss);
    var r0 := FleetRun(fleet.agents, ss, fleet.smithsDestroyed, []);
    RunSmiths(r0, snap, neo, cfg, tick, |fleet.agents|);
  }

  /** `fleet.smithsDestroyed` rises by exactly one for each agent that was an active
      mitigation agent and engaged during the agent loop (the engaged agents then leave the
      fleet). */
  lemma TickFleetDestroyed(fleet: FleetState, ss: seq<SmithAgentState>, neo: Position, cfg: Config, tick: int)
    ensures var r := RunPrefix(FleetRun(fleet.agents, ss, fleet.smithsDestroyed, []), Snapshot(ss), neo, cfg, tick, |fleet.agents|);
      TickFleetStep(fleet, ss, neo, cfg, tick).0.smithsDestroyed
        == fleet.smithsDestroyed + EngagedMitigations(fleet.agents, r.agents, |fleet.agents|)
  {
    RunDestroyed(FleetRun(fleet.agents, ss, fleet.smithsDestroyed, []), Snapshot(ss), neo, cfg, tick, |fleet.agents|);
  }

  /** What `tickFleet` does to the fleet: it keeps only active agents with lifespan left,
      each an agent that was active before, one tick older, at most one step away. */
  lemma TickFleetAgents(fleet: FleetState, ss: seq<SmithAgentState>, neo: Position, cfg: Config, tick: int)
    ensures |TickFleetStep(fleet, ss, neo, cfg, tick).0.agents| <= |fleet.agents|
    ensures forall x :: x in TickFleetStep(fleet, ss, neo, cfg, tick).0.agents ==>
      && x.status == FleetActive && x.ticksRemaining >= 1
      && exists i :: 0 <= i < |fleet.agents| && fleet.agents[i].status == FleetActive
           && fleet.agents[i].id == x.id && fleet.agents[i].role == x.role
           && x.ticksRemaining == fleet.agents[i].ticksRemaining - 1
           && (x.position == fleet.agents[i].position
               || (InBounds(x.position, cfg.gridSize) && Distance(fleet.agents[i].position, x.position) == 1))
  {
    var snap := Snapshot(ss);
    var r0 := FleetRun(fleet.agents, ss, fleet.smithsDestroyed, []);
    var r := RunPrefix(r0, snap, neo, cfg, tick, |fleet.agents|);
    RunAgents(r0, snap, neo, cfg, tick, |fleet.agents|);
    ActiveAgentsMembers(r.agents);
    forall x | x in ActiveAgents(r.agents)
      ensures exists i :: 0 <= i < |fleet.agents| && fleet.agents[i].status == FleetActive
                 && fleet.agents[i].id == x.id && fleet.agents[i].role == x.role
                 && x.ticksRemaining == fleet.agents[i].ticksRemaining - 1
                 && (x.position == fleet.agents[i].position
                     || (InBounds(x.position, cfg.gridSize) && Distance(fleet.agents[i].position, x.position) == 1))
    {
      var i :| 0 <= i < |r.agents| && r.agents[i] == x;
    }
  }

  /** A fleet kept on the grid stays on it. */
  lemma TickFleetInBounds(fleet: FleetState, ss: seq<SmithAgentState>, neo: Position, cfg: Config, tick: int)
    requires forall i :: 0 <= i < |fleet.agents| ==> InBounds(fleet.agents[i].position, cfg.gridSize)
    ensures forall x :: x in TickFleetStep(fleet, ss, neo, cfg, tick).0.agents ==> InBounds(x.position, cfg.gridSize)
  {
    var snap := Snapshot(ss);
    var r0 := FleetRun(fleet.agents, ss, fleet.smithsDestroyed, []);
    var r := RunPrefix(r0, snap, neo, cfg, tick, |fleet.agents|);
    RunAgents(r0, snap, neo, cfg, tick, |fleet.agents|);
    ActiveAgentsMembers(r.agents);
    forall x | x in ActiveAgents(r.agents)
      ensures InBounds(x.position, cfg.gridSize)
    {
      var i :| 0 <= i < |r.agents| && r.agents[i] == x;
    }
  }

  /** A lone smith standing on `pos` is the one found from `pos`, whatever the range. */
  lemma FindsLoneSmith(pos: Position, ss: seq<SmithAgentState>, range: int)
    requires |ss| == 1 && ss[0].position == pos && range >= 0
    ensures FindNearest(pos, ss, [0], range) == Some(0)
  {
    assert BestAt(pos, ss, [0]) == 0;
  }

  /** As written, the snapshot keeps a smith that an earlier agent destroyed in the same
      tick, and stunning it brings it back: a mitigation agent and a diagnosis agent on a
      lone smith's cell leave it stunned, though counted as destroyed. */
  lemma StunRevivesInSameTick(cfg: Config, tick: int)
    requires cfg.gridSize >= 1 && cfg.fleetSeekRange >= 0
    ensures var s := SmithAgentState(1, Position(0, 0), Active, 0, 1, Chase);
      var m := NewFleetAgent(1, Mitigation, Position(0, 0), 5);
      var d := NewFleetAgent(2, Diagnosis, Position(0, 0), 5);
      var (f, ss, _) := TickFleetStep(FleetState([m, d], 2, 0), [s], Position(0, 0), cfg, tick);
      ss[0].state == Stunned && f.smithsDestroyed == 1 && f.agents == []
  {
    var origin := Position(0, 0);
    var s := SmithAgentState(1, origin, Active, 0, 1, Chase);
    var m := NewFleetAgent(1, Mitigation, origin, 5);
    var d := NewFleetAgent(2, Diagnosis, origin, 5);
    assert ActiveIndices([s], 0) == [];
    var snap := Snapshot([s]);
    assert snap == [0];
    var r0 := FleetRun([m, d], [s], 0, []);
    FindsLoneSmith(origin, [s], cfg.fleetSeekRange);
    assert MoveToward(origin, origin, cfg.gridSize) == origin;
    var o1 := AgentStep(m, [s], snap, origin, cfg, tick);
    assert o1.smiths == [SmithAgent.Destroy(s)] && o1.destroyed == 1 && o1.agent.status == Engaged;
    var r1 := RunPrefix(r0, snap, origin, cfg, tick, 1);
    assert RunPrefix(r0, snap, origin, cfg, tick, 0) == r0;
    assert [m, d][0 := o1.agent] == [o1.agent, d];
    assert r1 == FleetRun([o1.agent, d], o1.smiths, 1, o1.events);
    FindsLoneSmith(origin, o1.smiths, cfg.fleetSeekRange);
    var o2 := AgentStep(d, o1.smiths, snap, origin, cfg, tick);
    assert o2.smiths[0].state == Stunned && o2.destroyed == 0 && o2.agent.status == Engaged;
    var r2 := RunPrefix(r0, snap, origin, cfg, tick, 2);
    assert [o1.agent, d][1 := o2.agent] == [o1.agent, o2.agent];
    assert r2 == FleetRun([o1.agent, o2.agent], o2.smiths, 1, o1.events + o2.events);
    assert ActiveAgents(r2.agents) == [];
  }

  /** `tickTriage` and its two siblings share this search and step. */
  method Approach1(a: FleetAgentState, ss: seq<SmithAgentState>, snap: seq<nat>, n: int, range: int)
    returns (r: Option<(FleetAgentState, nat)>)
    requires ValidIndices(snap, ss)
    ensures r == Approach(a, ss, snap, n, range)
  {
    var nearest := FindNearestSmith(a.position, ss, snap, range);
    if nearest.None? {
      return None;
    }
    FindNearestSpec(a.position, ss, snap, range);
    var target := ss[nearest.value];
    var agent := a.(targetSmithId := Some(target.id));
    agent := agent.(position := MoveToward(agent.position, target.position, n));
    r := Some((agent, nearest.value));
  }

  /** One pass through the body of the agent loop of `tickFleet`. */
  method AgentTick(a: FleetAgentState, ss: seq<SmithAgentState>, snap: seq<nat>, neo: Position, cfg: Config, tick: int)
    returns (o: Outcome)
    requires ValidIndices(snap, ss)
    ensures o == AgentStep(a, ss, snap, neo, cfg, tick)
  {
    if a.status != FleetActive {
      return Outcome(a, ss, 0, []);
    }
    var agent := a.(ticksRemaining := a.ticksRemaining - 1);
    if agent.ticksRemaining <= 0 {
      return Outcome(agent.(status := Expired), ss, 0, [SimulationEvent(tick, FleetEvent)]);
    }
    if agent.role == Comms {
      return Outcome(CommsStep(agent, neo, cfg.gridSize), ss, 0, []);
    }
    var found := Approach1(agent, ss, snap, cfg.gridSize, cfg.fleetSeekRange);
    if found.None? {
      return Outcome(agent, ss, 0, []);
    }
    FindNearestSpec(agent.position, ss, snap, cfg.fleetSeekRange);
    var (moved, j) := found.value;
    var e := SimulationEvent(tick, FleetEvent);
    if moved.position != ss[j].position {
      return Outcome(moved, ss, 0, []);
    }
    match agent.role {
      case Triage => o := Outcome(moved, ss, 0, [e]);
      case Diagnosis => o := Outcome(moved.(status := Engaged), ss[j := SmithAgent.Stun(ss[j], StunTicks)], 0, [e]);
      case Mitigation => o := Outcome(moved.(status := Engaged), ss[j := SmithAgent.Destroy(ss[j])], 1, [e]);
    }
  }

  /** The `activeSmiths` filter of `tickFleet`, as indices. */
  method SnapshotOf(ss: seq<SmithAgentState>) returns (snap: seq<nat>)
    ensures snap == Snapshot(ss)
  {
    snap := [];
    var k := 0;
    while k < |ss|
      invariant 0 <= k <= |ss|
      invariant snap == ActiveIndices(ss, k)
    {
      if ss[k].state == Active {
        snap := snap + [k];
      }
      k := k + 1;
    }
  }

  /** The agent loop of `tickFleet`. */
  method RunLoop(r0: FleetRun, snap: seq<nat>, neo: Position, cfg: Config, tick: int) returns (r: FleetRun)
    requires ValidIndices(snap, r0.smiths)
    ensures r == RunPrefix(r0, snap, neo, cfg, tick, |r0.agents|)
  {
    r := r0;
    var i := 0;
    while i < |r0.agents|
      invariant 0 <= i <= |r0.agents|
      invariant r == RunPrefix(r0, snap, neo, cfg, tick, i)
    {
      AgentStepLength(r.agents[i], r.smiths, snap, neo, cfg, tick);
      var o := AgentTick(r.agents[i], r.smiths, snap, neo, cfg, tick);
      r := FleetRun(r.agents[i := o.agent], o.smiths, r.smithsDestroyed + o.destroyed, r.events + o.events);
      i := i + 1;
    }
  }

  /** The closing filter of `tickFleet`: only active agents stay. */
  method KeepActive(agents: seq<FleetAgentState>) returns (kept: seq<FleetAgentState>)
    ensures kept == ActiveAgents(agents)
  {
    kept := [];
    var i := 0;
    while i < |agents|
      invariant 0 <= i <= |agents|
      invariant kept == ActiveAgents(agents[..i])
    {
      assert agents[..i + 1][..i] == agents[..i];
      if agents[i].status == FleetActive {
        kept := kept + [agents[i]];
      }
      i := i + 1;
    }
    assert agents[..|agents|] == agents;
  }

  /** `tickFleet`: every agent acts against the smiths active at the start, then the
      agents that expired or engaged leave the fleet. */
  method TickFleet(fleet: FleetState, ss: seq<SmithAgentState>, neo: Position, cfg: Config, tick: int)
    returns (newFleet: FleetState, smiths: seq<SmithAgentState>, newEvents: seq<SimulationEvent>)
    ensures (newFleet, smiths, newEvents) == TickFleetStep(fleet, ss, neo, cfg, tick)
  {
    var snap := SnapshotOf(ss);
    var r := RunLoop(FleetRun(fleet.agents, ss, fleet.smithsDestroyed, []), snap, neo, cfg, tick);
    var kept := KeepActive(r.agents);
    newFleet := FleetState(kept, fleet.totalDeployed, r.smithsDestroyed);
    smiths := r.smiths;
    newEvents := r.events;
  }
}
