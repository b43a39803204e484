/** Neo (engine/NeoAgent.ts): cooldowns, the shockwave that has priority over bullet time,
    fleet deployment, the scored move to safety, and capture or dodge. The tick is specified
    by `NeoStep`, a composition of one function per phase of the source's tick. */
module NeoAgent {
  import opened Types
  import opened World
  import SmithAgent
  import FleetAgent

  /** The state `reset` and the constructor give Neo: centre of the grid, shockwave ready,
      all cooldowns clear, every bullet-time charge left. */
  function InitialState(cfg: Config): NeoState {
    NeoState(Position(cfg.gridSize / 2, cfg.gridSize / 2), true, 0, cfg.bulletTimeUses, 0, 0, 0, true)
  }

  /** The bounds every Neo state reached from `reset` keeps: cooldowns and charges between
      zero and their configured values, and the shockwave ready exactly when its cooldown
      is over. */
  predicate NeoInv(st: NeoState, cfg: Config) {
    && 0 <= st.shockwaveCooldown <= cfg.shockwaveCooldown
    && (st.shockwaveReady <==> st.shockwaveCooldown == 0)
    && 0 <= st.bulletTimeLeft <= cfg.bulletTimeUses
    && 0 <= st.dodgeCooldown <= cfg.dodgeCooldown
    && 0 <= st.fleetCooldown <= cfg.fleetCooldown
    && st.fleetDeployed >= 0
  }

  lemma InitialStateSpec(cfg: Config)
    requires ValidConfig(cfg)
    ensures NeoInv(InitialState(cfg), cfg)
    ensures InBounds(InitialState(cfg).position, cfg.gridSize)
    ensures InitialState(cfg).alive
  {
  }

  /** Step 1 of `tick`: the shockwave cooldown drops by one when running, and once more
      (not below zero) when a comms agent is near and it is still running, after which
      readiness is recomputed; the dodge and fleet cooldowns drop by one when running. */
  function Cooldowns(st: NeoState, commsNearby: bool): NeoState {
    var s1 :=
      if st.shockwaveCooldown > 0 then
        var c := st.shockwaveCooldown - 1;
        var c2 := if commsNearby && c > 0 then Max(0, c - 1) else c;
        st.(shockwaveCooldown := c2, shockwaveReady := c2 <= 0)
      else st;
    var s2 := if s1.dodgeCooldown > 0 then s1.(dodgeCooldown := s1.dodgeCooldown - 1) else s1;
    if s2.fleetCooldown > 0 then s2.(fleetCooldown := s2.fleetCooldown - 1) else s2
  }

  /** No cooldown goes below zero or grows; a running one falls by one, the shockwave's by
      two when a comms agent helps and at least two ticks were left; readiness is set
      exactly when the shockwave cooldown runs out; nothing else changes. */
  lemma CooldownsSpec(st: NeoState, commsNearby: bool)
    ensures var r := Cooldowns(st, commsNearby);
      && (st.shockwaveCooldown <= 0 ==> r.shockwaveCooldown == st.shockwaveCooldown && r.shockwaveReady == st.shockwaveReady)
      && (st.shockwaveCooldown > 0 ==>
            && r.shockwaveCooldown == (if commsNearby && st.shockwaveCooldown >= 2 then st.shockwaveCooldown - 2 else st.shockwaveCooldown - 1)
            && (r.shockwaveReady <==> r.shockwaveCooldown == 0))
      && r.dodgeCooldown == (if st.dodgeCooldown > 0 then st.dodgeCooldown - 1 else st.dodgeCooldown)
      && r.fleetCooldown == (if st.fleetCooldown > 0 then st.fleetCooldown - 1 else st.fleetCooldown)
      && (st.shockwaveCooldown >= 0 ==> r.shockwaveCooldown >= 0)
      && (st.dodgeCooldown >= 0 ==> r.dodgeCooldown >= 0)
      && (st.fleetCooldown >= 0 ==> r.fleetCooldown >= 0)
      && r.(shockwaveCooldown := st.shockwaveCooldown, shockwaveReady := st.shockwaveReady,
            dodgeCooldown := st.dodgeCooldown, fleetCooldown := st.fleetCooldown) == st
  {
  }
  /** With a configured shockwave cooldown of zero, a fired shockwave leaves the cooldown at
      zero and Neo not ready, and the countdown, which only acts on a running cooldown,
      never re-arms it: readiness then no longer follows the cooldown, which is why
      `ValidConfig` asks for a shockwave cooldown of at least one. */
  lemma ZeroCooldownNeverRearms(st: NeoState, commsNearby: bool)
    requires st.shockwaveCooldown == 0 && !st.shockwaveReady
    ensures Cooldowns(st, commsNearby).shockwaveCooldown == 0 && !Cooldowns(st, commsNearby).shockwaveReady
  {
  }


  /** The cells of the smiths that are active, in order: the `activeSmiths` snapshot of
      `tick`. Smiths never move during Neo's tick, so their cells stand for them. */
  function ActivePositions(ss: seq<SmithAgentState>): (r: seq<Position>)
    ensures |r| <= |ss|
  {
    if |ss| == 0 then []
    else
      var last := ss[|ss| - 1];
      ActivePositions(ss[..|ss| - 1]) + (if last.state == Active then [last.position] else [])
  }

  /** The snapshot lists exactly the cells of active smiths. */
  lemma {:induction false} ActivePositionsMembers(ss: seq<SmithAgentState>)
    ensures forall q :: q in ActivePositions(ss) <==> exists i :: 0 <= i < |ss| && ss[i].state == Active && ss[i].position == q
  {
    if |ss| > 0 {
      var init := ss[..|ss| - 1];
      ActivePositionsMembers(init);
      assert forall i :: 0 <= i < |init| ==> init[i] == ss[i];
    }
  }

  /** Two smith lists that agree on cells and on which smiths are active have the same
      snapshot. */
  lemma {:induction false} ActivePositionsAgree(a: seq<SmithAgentState>, b: seq<SmithAgentState>)
    requires |a| == |b|
    requires forall i :: 0 <= i < |a| ==> a[i].position == b[i].position && (a[i].state == Active <==> b[i].state == Active)
    ensures ActivePositions(a) == ActivePositions(b)
  {
    if |a| > 0 {
      ActivePositionsAgree(a[..|a| - 1], b[..|b| - 1]);
    }
  }

  /** `countSmithsInRange`: how many listed cells are within `range` of `pos`. */
  function CountInRange(ps: seq<Position>, pos: Position, range: int): (c: nat)
    ensures c <= |ps|
  {
    if |ps| == 0 then 0
    else CountInRange(ps[..|ps| - 1], pos, range) + (if Distance(ps[|ps| - 1], pos) <= range then 1 else 0)
  }

  /** The count is zero exactly when no cell is in range, is the whole list exactly when
      every cell is, and grows with the range. */
  lemma {:induction false} CountInRangeSpec(ps: seq<Position>, pos: Position, range: int, wider: int)
    requires range <= wider
    ensures CountInRange(ps, pos, range) == 0 <==> forall i :: 0 <= i < |ps| ==> Distance(ps[i], pos) > range
    ensures CountInRange(ps, pos, range) == |ps| <==> forall i :: 0 <= i < |ps| ==> Distance(ps[i], pos) <= range
    ensures CountInRange(ps, pos, range) <= CountInRange(ps, pos, wider)
  {
    if |ps| > 0 {
      var init := ps[..|ps| - 1];
      CountInRangeSpec(init, pos, range, wider);
      assert forall i :: 0 <= i < |init| ==> init[i] == ps[i];
    }
  }

  /** The filter-and-count loop of `countSmithsInRange`. */
  method CountSmithsInRange(ps: seq<Position>, pos: Position, range: int) returns (c: nat)
    ensures c == CountInRange(ps, pos, range)
  {
    c := 0;
    var i := 0;
    while i < |ps|
      invariant 0 <= i <= |ps|
      invariant c == CountInRange(ps[..i], pos, range)
    {
      assert ps[..i + 1][..i] == ps[..i];
      if Distance(ps[i], pos) <= range {
        c := c + 1;
      }
      i := i + 1;
    }
    assert ps[..|ps|] == ps;
  }

  /** What the shockwave does to one smith: an active one within `radius` of Neo is
      destroyed, any other is left as it is. */
  function Expel(s: SmithAgentState, neo: Position, radius: int): SmithAgentState {
    if s.state == Active && Distance(s.position, neo) <= radius then SmithAgent.Destroy(s) else s
  }

  /** The smiths after the shockwave loop. */
  function Blast(ss: seq<SmithAgentState>, neo: Position, radius: int): (r: seq<SmithAgentState>)
    ensures |r| == |ss|
  {
    if |ss| == 0 then []
    else Blast(ss[..|ss| - 1], neo, radius) + [Expel(ss[|ss| - 1], neo, radius)]
  }

  /** `shockwave` destroys exactly the active smiths within the radius and leaves every
      other smith untouched; afterwards no smith within the radius is active, and the
      smiths keep their ids and cells. */
  lemma {:induction false} BlastSpec(ss: seq<SmithAgentState>, neo: Position, radius: int)
    ensures forall i :: 0 <= i < |ss| ==>
      var s, t := ss[i], Blast(ss, neo, radius)[i];
      && (s.state == Active && Distance(s.position, neo) <= radius ==> t == s.(state := Destroyed))
      && (!(s.state == Active && Distance(s.position, neo) <= radius) ==> t == s)
      && !(t.state == Active && Distance(t.position, neo) <= radius)
  {
    if |ss| > 0 {
      BlastSpec(ss[..|ss| - 1], neo, radius);
    }
  }

  /** The number of smiths the shockwave destroys is the count of snapshot cells within the
      radius. */
  lemma {:induction false} BlastVictims(ss: seq<SmithAgentState>, neo: Position, radius: int)
    ensures Victims(ss, neo, radius) == CountInRange(ActivePositions(ss), neo, radius)
  {
    if |ss| > 0 {
      var init := ss[..|ss| - 1];
      BlastVictims(init, neo, radius);
      var last := ss[|ss| - 1];
      var ps := ActivePositions(ss);
      if last.state == Active {
        assert ps == ActivePositions(init) + [last.position];
        assert ps[..|ps| - 1] == ActivePositions(init) && ps[|ps| - 1] == last.position;
      } else {
        assert ps == ActivePositions(init);
      }
    }
  }

  /** How many smiths `shockwave` destroys. */
  function Victims(ss: seq<SmithAgentState>, neo: Position, radius: int): nat {
    if |ss| == 0 then 0
    else
      var last := ss[|ss| - 1];
      Victims(ss[..|ss| - 1], neo, radius) + (if last.state == Active && Distance(last.position, neo) <= radius then 1 else 0)
  }

  /** `k` warning events of one tick. */
  function Warnings(tick: int, k: nat): (r: seq<SimulationEvent>)
    ensures |r| == k && forall i :: 0 <= i < k ==> r[i] == SimulationEvent(tick, Warning)
  {
    if k == 0 then [] else Warnings(tick, k - 1) + [SimulationEvent(tick, Warning)]
  }

  /** The events of `shockwave`: the announcement, one warning per smith destroyed and
      the result line. */
  function ShockwaveEvents(tick: int, k: nat): seq<SimulationEvent> {
    [SimulationEvent(tick, ShockwaveEvent)] + Warnings(tick, k) + [SimulationEvent(tick, ShockwaveEvent)]
  }

  /** The loop of `shockwave` over every smith. */
  method Shockwave(ss: seq<SmithAgentState>, neo: Position, radius: int, tick: int)
    returns (r: seq<SmithAgentState>, newEvents: seq<SimulationEvent>)
    ensures r == Blast(ss, neo, radius)
    ensures newEvents == ShockwaveEvents(tick, Victims(ss, neo, radius))
  {
    newEvents := [SimulationEvent(tick, ShockwaveEvent)];
    var destroyed: nat := 0;
    r := [];
    var i := 0;
    while i < |ss|
      invariant 0 <= i <= |ss|
      invariant r == Blast(ss[..i], neo, radius)
      invariant destroyed == Victims(ss[..i], neo, radius)
      invariant newEvents == [SimulationEvent(tick, ShockwaveEvent)] + Warnings(tick, destroyed)
    {
      assert ss[..i + 1][..i] == ss[..i];
      var smith := ss[i];
      if smith.state == Active && Distance(smith.position, neo) <= radius {
        smith := SmithAgent.Destroy(smith);
        destroyed := destroyed + 1;
        newEvents := newEvents + [SimulationEvent(tick, Warning)];
      }
      r := r + [smith];
      i := i + 1;
    }
    assert ss[..|ss|] == ss;
    newEvents := newEvents + [SimulationEvent(tick, ShockwaveEvent)];
  }

  /** The outcome of the ability branch of `tick`. */
  datatype AbilityOut = AbilityOut(neo: NeoState, smiths: seq<SmithAgentState>, events: seq<SimulationEvent>,
                                   bulletTime: bool, shockwave: bool)

  /** Steps 3 and 4 of `tick`: count the snapshot within the two ranges, then fire the
      shockwave if enough smiths surround a ready Neo, else bullet time if enough are in
      the wider range and a charge is left. */
  function Ability(st: NeoState, ss: seq<SmithAgentState>, ps: seq<Position>, tick: int, cfg: Config): AbilityOut {
    var nearby := CountInRange(ps, st.position, cfg.surroundRange);
    var medium := CountInRange(ps, st.position, cfg.bulletTimeRange);
    if nearby >= cfg.surroundTrigger && st.shockwaveReady then
      AbilityOut(st.(shockwaveCooldown := cfg.shockwaveCooldown, shockwaveReady := false),
                 Blast(ss, st.position, cfg.shockwaveRadius),
                 ShockwaveEvents(tick, Victims(ss, st.position, cfg.shockwaveRadius)), false, true)
    else if medium >= cfg.bulletTimeTriggerThreshold && st.bulletTimeLeft > 0 then
      AbilityOut(st.(bulletTimeLeft := st.bulletTimeLeft - 1), ss, [SimulationEvent(tick, Warning)], true, false)
    else AbilityOut(st, ss, [], false, false)
  }

  /** The ability branch: the shockwave fires exactly when the surround count reaches the
      trigger and it is ready, and then restarts its cooldown; bullet time fires only when
      the shockwave does not, and then uses up exactly one of the charges, which it needs;
      other fields are kept. */
  lemma AbilitySpec(st: NeoState, ss: seq<SmithAgentState>, ps: seq<Position>, tick: int, cfg: Config)
    ensures var a := Ability(st, ss, ps, tick, cfg);
      && !(a.bulletTime && a.shockwave)
      && (a.shockwave <==> CountInRange(ps, st.position, cfg.surroundRange) >= cfg.surroundTrigger && st.shockwaveReady)
      && (a.shockwave ==> a.neo == st.(shockwaveCooldown := cfg.shockwaveCooldown, shockwaveReady := false)
                          && a.smiths == Blast(ss, st.position, cfg.shockwaveRadius))
      && (a.bulletTime <==> !a.shockwave && CountInRange(ps, st.position, cfg.bulletTimeRange) >= cfg.bulletTimeTriggerThreshold
                             && st.bulletTimeLeft > 0)
      && (a.bulletTime ==> a.neo == st.(bulletTimeLeft := st.bulletTimeLeft - 1) && a.bulletTime && a.smiths == ss)
      && (!a.bulletTime && !a.shockwave ==> a.neo == st && a.smiths == ss && a.events == [])
      && (st.bulletTimeLeft >= 0 ==> a.neo.bulletTimeLeft >= 0)
  {
  }

  /** The outcome of fleet deployment. */
  datatype DeployOut = DeployOut(neo: NeoState, fleet: FleetState, counter: nat, events: seq<SimulationEvent>, deployed: bool)

  /** Step 5 of `tick`: deploy a batch when enough smiths are active, the fleet cooldown
      is over and the fleet is below its cap. */
  function Deploy(st: NeoState, fleet: FleetState, counter: nat, activeCount: nat, tick: int, cfg: Config,
                  orders: seq<seq<Position>>): DeployOut
    requires |orders| >= 4
  {
    if activeCount >= cfg.fleetDeployThreshold && st.fleetCooldown <= 0 && |fleet.agents| < cfg.maxFleetAgents then
      var batch := FleetAgent.DeployPrefix(st.position, orders, cfg.gridSize, counter, cfg.fleetLifespan, 4);
      DeployOut(st.(fleetDeployed := st.fleetDeployed + 4, fleetCooldown := cfg.fleetCooldown),
                fleet.(agents := fleet.agents + batch, totalDeployed := fleet.totalDeployed + 4),
                counter + 4, FleetAgent.DeployEvents(tick), true)
    else DeployOut(st, fleet, counter, [], false)
  }

  /** A deployment happens exactly when the three conditions hold; it adds four to both
      deployed totals and to the id counter, restarts the fleet cooldown and logs five
      events; otherwise nothing changes. */
  lemma DeploymentSpec(st: NeoState, fleet: FleetState, counter: nat, activeCount: nat, tick: int, cfg: Config,
                       orders: seq<seq<Position>>)
    requires |orders| >= 4
    ensures var d := Deploy(st, fleet, counter, activeCount, tick, cfg, orders);
      && (d.deployed <==> activeCount >= cfg.fleetDeployThreshold && st.fleetCooldown <= 0 && |fleet.agents| < cfg.maxFleetAgents)
      && (d.deployed ==>
            && d.neo == st.(fleetDeployed := st.fleetDeployed + 4, fleetCooldown := cfg.fleetCooldown)
            && d.fleet.totalDeployed == fleet.totalDeployed + 4 && d.fleet.smithsDestroyed == fleet.smithsDestroyed
            && d.counter == counter + 4 && |d.events| == 5)
      && (!d.deployed ==> d == DeployOut(st, fleet, counter, [], false))
  {
  }

  /** A deployment appends four active agents with the next four ids, keeping the agents
      already in the fleet. */
  lemma DeploymentAgents(st: NeoState, fleet: FleetState, counter: nat, activeCount: nat, tick: int, cfg: Config,
                         orders: seq<seq<Position>>)
    requires |orders| >= 4
    ensures var d := Deploy(st, fleet, counter, activeCount, tick, cfg, orders);
      d.deployed ==>
        && |d.fleet.agents| == |fleet.agents| + 4 && d.fleet.agents[..|fleet.agents|] == fleet.agents
        && forall i :: |fleet.agents| <= i < |d.fleet.agents| ==>
             d.fleet.agents[i].status == FleetActive && d.fleet.agents[i].id == counter + 1 + (i - |fleet.agents|)
  {
    var d := Deploy(st, fleet, counter, activeCount, tick, cfg, orders);
    if d.deployed {
      var batch := FleetAgent.DeployPrefix(st.position, orders, cfg.gridSize, counter, cfg.fleetLifespan, 4);
      FleetAgent.DeployPrefixShape(st.position, orders, cfg.gridSize, counter, cfg.fleetLifespan, 4);
      assert d.fleet.agents == fleet.agents + batch;
      assert (fleet.agents + batch)[..|fleet.agents|] == fleet.agents;
      forall i | |fleet.agents| <= i < |d.fleet.agents|
        ensures d.fleet.agents[i].status == FleetActive && d.fleet.agents[i].id == counter + 1 + (i - |fleet.agents|)
      {
        assert d.fleet.agents[i] == batch[i - |fleet.agents|];
      }
    }
  }

  /** The value of `evaluatePosition`: minus infinity never occurs, plus infinity when there
      is no smith, a real number otherwise. */
  datatype Score = NegInf | Finite(value: real) | PosInf

  /** `a > b` on the extended reals. */
  predicate Above(a: Score, b: Score) {
    match a
    case NegInf => false
    case Finite(x) => b.NegInf? || (b.Finite? && x > b.value)
    case PosInf => !b.PosInf?
  }

  /** The distance from `pos` to the nearest listed cell. */
  function MinDist(pos: Position, ps: seq<Position>): (d: nat)
    requires |ps| > 0
  {
    if |ps| == 1 then Distance(pos, ps[0])
    else Min(MinDist(pos, ps[..|ps| - 1]), Distance(pos, ps[|ps| - 1]))
  }

  /** The minimum is the distance to one listed cell and to no farther than any. */
  lemma {:induction false} MinDistSpec(pos: Position, ps: seq<Position>)
    requires |ps| > 0
    ensures forall i :: 0 <= i < |ps| ==> MinDist(pos, ps) <= Distance(pos, ps[i])
    ensures exists i :: 0 <= i < |ps| && MinDist(pos, ps) == Distance(pos, ps[i])
  {
    if |ps| > 1 {
      var init := ps[..|ps| - 1];
      MinDistSpec(pos, init);
      assert forall i :: 0 <= i < |init| ==> init[i] == ps[i];
      var j :| 0 <= j < |init| && MinDist(pos, init) == Distance(pos, init[j]);
      if MinDist(pos, ps) == MinDist(pos, init) {
        assert MinDist(pos, ps) == Distance(pos, ps[j]);
      } else {
        assert MinDist(pos, ps) == Distance(pos, ps[|ps| - 1]);
      }
    } else {
      assert MinDist(pos, ps) == Distance(pos, ps[0]);
    }
  }

  /** The sum of the distances from `pos` to the listed cells. */
  function TotalDist(pos: Position, ps: seq<Position>): nat {
    if |ps| == 0 then 0 else TotalDist(pos, ps[..|ps| - 1]) + Distance(pos, ps[|ps| - 1])
  }

  /** How many of `cells` are not listed in `ps`. */
  function FreeCount(cells: seq<Position>, ps: seq<Position>): (c: nat)
    ensures c <= |cells|
  {
    if |cells| == 0 then 0
    else FreeCount(cells[..|cells| - 1], ps) + (if cells[|cells| - 1] in ps then 0 else 1)
  }

  /** The wall and corner penalty of `evaluatePosition`. */
  function Penalty(pos: Position, n: int): int {
    (if pos.x == 0 || pos.x == n - 1 then 5 else 0)
    + (if pos.y == 0 || pos.y == n - 1 then 5 else 0)
    + (if (pos.x <= 1 || pos.x >= n - 2) && (pos.y <= 1 || pos.y >= n - 2) then 15 else 0)
  }

  /** `evaluatePosition` against the snapshot cells `ps`: ten times the nearest distance,
      twice the mean distance, minus the wall and corner penalty, plus three per free
      orthogonal neighbour. */
  function Evaluate(pos: Position, ps: seq<Position>, n: int): (s: Score)
    ensures !s.NegInf?
    ensures s.PosInf? <==> |ps| == 0
  {
    if |ps| == 0 then PosInf
    else
      Finite(10.0 * MinDist(pos, ps) as real + 2.0 * (TotalDist(pos, ps) as real / |ps| as real)
             - Penalty(pos, n) as real + 3.0 * FreeCount(Neighbors(pos, n), ps) as real)
  }

  /** The cells `moveToSafety` considers: the orthogonal neighbours on the grid, in the
      order up, down, left, right, then staying put. */
  function Candidates(pos: Position, n: int): (c: seq<Position>)
    ensures |c| >= 1 && c[|c| - 1] == pos
  {
    Neighbors(pos, n) + [pos]
  }

  /** The scores of the candidates, in order. */
  function Scores(cs: seq<Position>, ps: seq<Position>, n: int): (r: seq<Score>)
    ensures |r| == |cs|
  {
    if |cs| == 0 then [] else Scores(cs[..|cs| - 1], ps, n) + [Evaluate(cs[|cs| - 1], ps, n)]
  }

  lemma {:induction false} ScoresSpec(cs: seq<Position>, ps: seq<Position>, n: int)
    ensures forall i :: 0 <= i < |cs| ==> Scores(cs, ps, n)[i] == Evaluate(cs[i], ps, n)
  {
    if |cs| > 0 {
      var init := cs[..|cs| - 1];
      ScoresSpec(init, ps, n);
      assert forall i :: 0 <= i < |init| ==> init[i] == cs[i];
    }
  }

  /** Where the scan of `moveToSafety` over the first `k` scores ends: the first of the
      highest. */
  function BestIndex(scores: seq<Score>, k: nat): (b: nat)
    requires 1 <= k <= |scores|
    ensures b < k
  {
    if k == 1 then 0
    else
      var b := BestIndex(scores, k - 1);
      if Above(scores[k - 1], scores[b]) then k - 1 else b
  }

  /** The scan keeps a highest score, and the first of them. */
  lemma {:induction false} BestIndexSpec(scores: seq<Score>, k: nat)
    requires 1 <= k <= |scores|
    ensures var b := BestIndex(scores, k);
      && (forall m :: 0 <= m < k ==> !Above(scores[m], scores[b]))
      && (forall m :: 0 <= m < b ==> Above(scores[b], scores[m]))
  {
    if k > 1 {
      BestIndexSpec(scores, k - 1);
    }
  }

  /** The position among the candidates that `moveToSafety` picks. */
  function SafeIndex(pos: Position, ps: seq<Position>, n: int): (b: nat)
    ensures b < |Candidates(pos, n)|
  {
    var cs := Candidates(pos, n);
    BestIndex(Scores(cs, ps, n), |cs|)
  }

  /** `moveToSafety`: the best-scoring candidate, the earliest on a tie. */
  function SafeMove(pos: Position, ps: seq<Position>, n: int): Position {
    Candidates(pos, n)[SafeIndex(pos, ps, n)]
  }

  /** The move stays put or takes one orthogonal step onto the grid. */
  lemma SafeMoveIsLocal(pos: Position, ps: seq<Position>, n: int)
    ensures var r := SafeMove(pos, ps, n);
      r == pos || (InBounds(r, n) && Distance(pos, r) == 1)
  {
    var cs := Candidates(pos, n);
    var b := SafeIndex(pos, ps, n);
    NeighborsSpec(pos, n);
    if b < |cs| - 1 {
      assert cs[b] in Neighbors(pos, n);
    }
  }

  /** No candidate scores higher than the move, every earlier candidate scores strictly
      lower, and without smiths (every score infinite) it is the first candidate. */
  lemma SafeMoveIsBest(pos: Position, ps: seq<Position>, n: int)
    ensures var cs, b := Candidates(pos, n), SafeIndex(pos, ps, n);
      && (forall m :: 0 <= m < |cs| ==> !Above(Evaluate(cs[m], ps, n), Evaluate(cs[b], ps, n)))
      && (forall m :: 0 <= m < b ==> Above(Evaluate(cs[b], ps, n), Evaluate(cs[m], ps, n)))
      && (|ps| == 0 ==> b == 0)
  {
    var cs := Candidates(pos, n);
    var scores := Scores(cs, ps, n);
    var b := SafeIndex(pos, ps, n);
    ScoresSpec(cs, ps, n);
    BestIndexSpec(scores, |cs|);
    forall m | 0 <= m < |cs|
      ensures !Above(Evaluate(cs[m], ps, n), Evaluate(cs[b], ps, n))
    {
      assert !Above(scores[m], scores[b]);
    }
    forall m | 0 <= m < b
      ensures Above(Evaluate(cs[b], ps, n), Evaluate(cs[m], ps, n))
    {
      assert Above(scores[b], scores[m]);
    }
    if |ps| == 0 {
      forall i | 0 <= i < |cs|
        ensures scores[i] == PosInf
      {
      }
      FirstOfEqual(scores, |cs|);
    }
  }

  /** When every score is plus infinity, the scan keeps the first. */
  lemma {:induction false} FirstOfEqual(scores: seq<Score>, k: nat)
    requires 1 <= k <= |scores|
    requires forall i :: 0 <= i < |scores| ==> scores[i] == PosInf
    ensures BestIndex(scores, k) == 0
  {
    if k > 1 {
      FirstOfEqual(scores, k - 1);
    }
  }

  /** Did some snapshot cell coincide with Neo's cell. */
  predicate Captured(ps: seq<Position>, pos: Position) {
    pos in ps
  }

  /** Steps 7 and 8 of `tick`: move to safety, then, if a snapshot cell is Neo's, dodge
      (restart the dodge cooldown and move once more) when the dodge is ready, else die. */
  function Escape(st: NeoState, ps: seq<Position>, tick: int, cfg: Config): (NeoState, seq<SimulationEvent>) {
    var moved := st.(position := SafeMove(st.position, ps, cfg.gridSize));
    if Captured(ps, moved.position) then
      if moved.dodgeCooldown <= 0 then
        (moved.(dodgeCooldown := cfg.dodgeCooldown, position := SafeMove(moved.position, ps, cfg.gridSize)),
         [SimulationEvent(tick, Info)])
      else (moved.(alive := false), [SimulationEvent(tick, Critical)])
    else (moved, [])
  }

  /** Neo ends where the first safety move took it, or where the second one did. */
  lemma EscapePosition(st: NeoState, ps: seq<Position>, tick: int, cfg: Config)
    ensures var first := SafeMove(st.position, ps, cfg.gridSize);
      var p := Escape(st, ps, tick, cfg).0.position;
      p == first || p == SafeMove(first, ps, cfg.gridSize)
  {
  }

  /** Two safety moves in a row stay within two steps and on the grid. */
  lemma SafeMoveTwice(a: Position, ps: seq<Position>, n: int)
    ensures var b := SafeMove(a, ps, n);
      var c := SafeMove(b, ps, n);
      && Distance(a, b) <= 2 && Distance(a, c) <= 2
      && (InBounds(a, n) ==> InBounds(b, n) && InBounds(c, n))
  {
    var b := SafeMove(a, ps, n);
    SafeMoveIsLocal(a, ps, n);
    SafeMoveIsLocal(b, ps, n);
    TwoLocalSteps(a, b, SafeMove(b, ps, n), n);
  }

  /** Neo moves at most two steps and stays on the grid. */
  lemma EscapeMoves(st: NeoState, ps: seq<Position>, tick: int, cfg: Config)
    ensures var r := Escape(st, ps, tick, cfg).0;
      && Distance(st.position, r.position) <= 2
      && (InBounds(st.position, cfg.gridSize) ==> InBounds(r.position, cfg.gridSize))
  {
    EscapePosition(st, ps, tick, cfg);
    SafeMoveTwice(st.position, ps, cfg.gridSize);
  }

  /** Two moves of at most one step each stay within two steps and on the grid. */
  lemma TwoLocalSteps(a: Position, b: Position, c: Position, n: int)
    requires b == a || (InBounds(b, n) && Distance(a, b) == 1)
    requires c == b || (InBounds(c, n) && Distance(b, c) == 1)
    ensures Distance(a, c) <= 2 && Distance(a, b) <= 2
    ensures InBounds(a, n) ==> InBounds(b, n) && InBounds(c, n)
  {
    DistanceIsMetric(a, b, c);
  }

  /** Neo dies exactly when caught without a dodge ready; a dodge restarts the dodge
      cooldown; the other fields are kept. */
  lemma EscapeCapture(st: NeoState, ps: seq<Position>, tick: int, cfg: Config)
    ensures var r := Escape(st, ps, tick, cfg).0;
      var caught := Captured(ps, SafeMove(st.position, ps, cfg.gridSize));
      && (r.alive <==> st.alive && !(caught && st.dodgeCooldown > 0))
      && r.dodgeCooldown == (if caught && st.dodgeCooldown <= 0 then cfg.dodgeCooldown else st.dodgeCooldown)
      && r.(position := st.position, dodgeCooldown := st.dodgeCooldown, alive := st.alive) == st
  {
  }

  /** What one call of `tick` produces. */
  datatype NeoOut = NeoOut(neo: NeoState, smiths: seq<SmithAgentState>, fleet: FleetState, counter: nat,
                           events: seq<SimulationEvent>, bulletTime: bool, shockwave: bool, fleetDeployed: bool)

  /** `tick`: nothing at all when Neo is dead; otherwise cooldowns, ability, deployment,
      the fleet's tick (from Neo's cell before moving), the safety move and capture, in
      that order, all against the snapshot taken after the cooldowns. */
  function NeoStep(st: NeoState, ss: seq<SmithAgentState>, fleet: FleetState, counter: nat, tick: int, cfg: Config,
                   orders: seq<seq<Position>>): NeoOut
    requires |orders| >= 4
  {
    if !st.alive then NeoOut(st, ss, fleet, counter, [], false, false, false)
    else
      var ps := ActivePositions(ss);
      var a := Cooldowns(st, FleetAgent.CommsNearby(fleet.agents, st.position));
      var b := Ability(a, ss, ps, tick, cfg);
      var c := Deploy(b.neo, fleet, counter, |ps|, tick, cfg, orders);
      var (f, ss2, fe) := FleetAgent.TickFleetStep(c.fleet, b.smiths, c.neo.position, cfg, tick);
      var (e, ee) := Escape(c.neo, ps, tick, cfg);
      NeoOut(e, ss2, f, c.counter, b.events + c.events + fe + ee, b.bulletTime, b.shockwave, c.deployed)
  }

  /** A dead Neo's tick changes nothing and reports no ability. */
  lemma DeadTickIsNoop(st: NeoState, ss: seq<SmithAgentState>, fleet: FleetState, counter: nat, tick: int, cfg: Config,
                       orders: seq<seq<Position>>)
    requires |orders| >= 4 && !st.alive
    ensures NeoStep(st, ss, fleet, counter, tick, cfg, orders) == NeoOut(st, ss, fleet, counter, [], false, false, false)
  {
  }

  /** The ability flags of one tick: never both, the shockwave exactly when the surround
      count after the cooldowns reaches the trigger and the shockwave is ready, bullet time
      only with a charge left. */
  lemma NeoTickFlags(st: NeoState, ss: seq<SmithAgentState>, fleet: FleetState, counter: nat, tick: int, cfg: Config,
                     orders: seq<seq<Position>>)
    requires |orders| >= 4
    ensures var o := NeoStep(st, ss, fleet, counter, tick, cfg, orders);
      var a := Cooldowns(st, FleetAgent.CommsNearby(fleet.agents, st.position));
      var ps := ActivePositions(ss);
      && !(o.bulletTime && o.shockwave)
      && (o.shockwave <==> st.alive && CountInRange(ps, st.position, cfg.surroundRange) >= cfg.surroundTrigger && a.shockwaveReady)
      && (o.bulletTime ==> st.alive && CountInRange(ps, st.position, cfg.bulletTimeRange) >= cfg.bulletTimeTriggerThreshold
                           && a.bulletTimeLeft > 0)
      && (o.fleetDeployed <==> st.alive && |ps| >= cfg.fleetDeployThreshold && a.fleetCooldown <= 0
                               && |fleet.agents| < cfg.maxFleetAgents)
  {
    if st.alive {
      var ps := ActivePositions(ss);
      var a := Cooldowns(st, FleetAgent.CommsNearby(fleet.agents, st.position));
      AbilitySpec(a, ss, ps, tick, cfg);
      var b := Ability(a, ss, ps, tick, cfg);
      DeploymentSpec(b.neo, fleet, counter, |ps|, tick, cfg, orders);
    }
  }

  /** What Neo's tick does to the smiths: their number, ids, cells and generations stay;
      a changed smith is stunned or destroyed; and after a shockwave no smith within its
      radius of Neo's cell is active. */
  lemma NeoTickSmiths(st: NeoState, ss: seq<SmithAgentState>, fleet: FleetState, counter: nat, tick: int, cfg: Config,
                      orders: seq<seq<Position>>)
    requires |orders| >= 4
    ensures var o := NeoStep(st, ss, fleet, counter, tick, cfg, orders);
      && |o.smiths| == |ss|
      && (forall i :: 0 <= i < |ss| ==>
            && o.smiths[i].id == ss[i].id && o.smiths[i].position == ss[i].position
            && o.smiths[i].generation == ss[i].generation
            && (o.smiths[i] != ss[i] ==> o.smiths[i].state == Stunned || o.smiths[i].state == Destroyed))
      && (o.shockwave ==> forall i :: 0 <= i < |ss| && Distance(ss[i].position, st.position) <= cfg.shockwaveRadius ==>
                            o.smiths[i].state != Active)
  {
    if st.alive {
      var ps := ActivePositions(ss);
      var a := Cooldowns(st, FleetAgent.CommsNearby(fleet.agents, st.position));
      var b := Ability(a, ss, ps, tick, cfg);
      var c := Deploy(b.neo, fleet, counter, |ps|, tick, cfg, orders);
      AbilitySpec(a, ss, ps, tick, cfg);
      DeploymentSpec(b.neo, fleet, counter, |ps|, tick, cfg, orders);
      BlastSpec(ss, a.position, cfg.shockwaveRadius);
      FleetAgent.TickFleetSmiths(c.fleet, b.smiths, c.neo.position, cfg, tick);
    }
  }

  /** Neo moves at most two steps per tick and stays on the grid. */
  lemma NeoTickMoves(st: NeoState, ss: seq<SmithAgentState>, fleet: FleetState, counter: nat, tick: int, cfg: Config,
                     orders: seq<seq<Position>>)
    requires |orders| >= 4
    ensures var o := NeoStep(st, ss, fleet, counter, tick, cfg, orders);
      && Distance(st.position, o.neo.position) <= 2
      && (InBounds(st.position, cfg.gridSize) ==> InBounds(o.neo.position, cfg.gridSize))
  {
    if st.alive {
      var ps := ActivePositions(ss);
      var a := Cooldowns(st, FleetAgent.CommsNearby(fleet.agents, st.position));
      var b := Ability(a, ss, ps, tick, cfg);
      var c := Deploy(b.neo, fleet, counter, |ps|, tick, cfg, orders);
      AbilitySpec(a, ss, ps, tick, cfg);
      DeploymentSpec(b.neo, fleet, counter, |ps|, tick, cfg, orders);
      EscapeMoves(c.neo, ps, tick, cfg);
    }
  }

  /** Neo is never revived by a tick, and a living Neo dies exactly when a smith of the
      snapshot stands on the cell of its first safety move while the dodge is cooling
      down. */
  lemma NeoTickCapture(st: NeoState, ss: seq<SmithAgentState>, fleet: FleetState, counter: nat, tick: int, cfg: Config,
                       orders: seq<seq<Position>>)
    requires |orders| >= 4
    ensures var o := NeoStep(st, ss, fleet, counter, tick, cfg, orders);
      var a := Cooldowns(st, FleetAgent.CommsNearby(fleet.agents, st.position));
      var ps := ActivePositions(ss);
      && (o.neo.alive ==> st.alive)
      && (st.alive ==> (!o.neo.alive <==> Captured(ps, SafeMove(st.position, ps, cfg.gridSize)) && a.dodgeCooldown > 0))
  {
    if st.alive {
      var ps := ActivePositions(ss);
      var a := Cooldowns(st, FleetAgent.CommsNearby(fleet.agents, st.position));
      var b := Ability(a, ss, ps, tick, cfg);
      var c := Deploy(b.neo, fleet, counter, |ps|, tick, cfg, orders);
      AbilitySpec(a, ss, ps, tick, cfg);
      DeploymentSpec(b.neo, fleet, counter, |ps|, tick, cfg, orders);
      EscapeCapture(c.neo, ps, tick, cfg);
    }
  }

  /** The fleet counters of one tick: the deployed total and the id counter grow by four
      on a deployment and are kept otherwise; the destroyed count only grows. */
  lemma NeoTickFleet(st: NeoState, ss: seq<SmithAgentState>, fleet: FleetState, counter: nat, tick: int, cfg: Config,
                     orders: seq<seq<Position>>)
    requires |orders| >= 4
    ensures var o := NeoStep(st, ss, fleet, counter, tick, cfg, orders);
      && o.fleet.totalDeployed == fleet.totalDeployed + (if o.fleetDeployed then 4 else 0)
      && o.counter == counter + (if o.fleetDeployed then 4 else 0)
      && o.neo.fleetDeployed == st.fleetDeployed + (if o.fleetDeployed then 4 else 0)
      && o.fleet.smithsDestroyed >= fleet.smithsDestroyed
  {
    if st.alive {
      var ps := ActivePositions(ss);
      var a := Cooldowns(st, FleetAgent.CommsNearby(fleet.agents, st.position));
      var b := Ability(a, ss, ps, tick, cfg);
      var c := Deploy(b.neo, fleet, counter, |ps|, tick, cfg, orders);
      AbilitySpec(a, ss, ps, tick, cfg);
      DeploymentSpec(b.neo, fleet, counter, |ps|, tick, cfg, orders);
      FleetAgent.TickFleetSmiths(c.fleet, b.smiths, c.neo.position, cfg, tick);
      EscapeCapture(c.neo, ps, tick, cfg);
    }
  }

  /** Each phase keeps the cooldown and charge bounds under a valid configuration. */
  lemma PhasesKeepInv(st: NeoState, comms: bool, ss: seq<SmithAgentState>, ps: seq<Position>, fleet: FleetState,
                      counter: nat, activeCount: nat, tick: int, cfg: Config, orders: seq<seq<Position>>)
    requires |orders| >= 4 && ValidConfig(cfg) && NeoInv(st, cfg)
    ensures NeoInv(Cooldowns(st, comms), cfg)
    ensures NeoInv(Ability(st, ss, ps, tick, cfg).neo, cfg)
    ensures NeoInv(Deploy(st, fleet, counter, activeCount, tick, cfg, orders).neo, cfg)
    ensures NeoInv(Escape(st, ps, tick, cfg).0, cfg)
  {
    CooldownsSpec(st, comms);
    AbilitySpec(st, ss, ps, tick, cfg);
    DeploymentSpec(st, fleet, counter, activeCount, tick, cfg, orders);
    EscapeCapture(st, ps, tick, cfg);
  }

  /** Under a valid configuration, every tick keeps the cooldown and charge bounds. */
  lemma NeoTickKeepsInv(st: NeoState, ss: seq<SmithAgentState>, fleet: FleetState, counter: nat, tick: int, cfg: Config,
                        orders: seq<seq<Position>>)
    requires |orders| >= 4 && ValidConfig(cfg) && NeoInv(st, cfg)
    ensures NeoInv(NeoStep(st, ss, fleet, counter, tick, cfg, orders).neo, cfg)
  {
    if st.alive {
      var ps := ActivePositions(ss);
      var comms := FleetAgent.CommsNearby(fleet.agents, st.position);
      var a := Cooldowns(st, comms);
      PhasesKeepInv(st, comms, ss, ps, fleet, counter, |ps|, tick, cfg, orders);
      var b := Ability(a, ss, ps, tick, cfg);
      PhasesKeepInv(a, comms, ss, ps, fleet, counter, |ps|, tick, cfg, orders);
      var c := Deploy(b.neo, fleet, counter, |ps|, tick, cfg, orders);
      PhasesKeepInv(b.neo, comms, ss, ps, fleet, counter, |ps|, tick, cfg, orders);
      PhasesKeepInv(c.neo, comms, ss, ps, fleet, counter, |ps|, tick, cfg, orders);
    }
  }

  /** The `activeSmiths` filter of `tick`, as cells. */
  method ActiveSnapshot(ss: seq<SmithAgentState>) returns (ps: seq<Position>)
    ensures ps == ActivePositions(ss)
  {
    ps := [];
    var i := 0;
    while i < |ss|
      invariant 0 <= i <= |ss|
      invariant ps == ActivePositions(ss[..i])
    {
      assert ss[..i + 1][..i] == ss[..i];
      if ss[i].state == Active {
        ps := ps + [ss[i].position];
      }
      i := i + 1;
    }
    assert ss[..|ss|] == ss;
  }

  /** The first loop of `evaluatePosition`: the nearest distance. */
  method NearestDistance(pos: Position, ps: seq<Position>) returns (minDist: nat)
    requires |ps| > 0
    ensures minDist == MinDist(pos, ps)
  {
    minDist := Distance(pos, ps[0]);
    var i := 1;
    while i < |ps|
      invariant 1 <= i <= |ps|
      invariant minDist == MinDist(pos, ps[..i])
    {
      assert ps[..i + 1][..i] == ps[..i];
      var dist := Distance(pos, ps[i]);
      if dist < minDist {
        minDist := dist;
      }
      i := i + 1;
    }
    assert ps[..|ps|] == ps;
  }

  /** The second loop of `evaluatePosition`: the sum of the distances. */
  method TotalDistance(pos: Position, ps: seq<Position>) returns (totalDist: nat)
    ensures totalDist == TotalDist(pos, ps)
  {
    totalDist := 0;
    var i := 0;
    while i < |ps|
      invariant 0 <= i <= |ps|
      invariant totalDist == TotalDist(pos, ps[..i])
    {
      assert ps[..i + 1][..i] == ps[..i];
      totalDist := totalDist + Distance(pos, ps[i]);
      i := i + 1;
    }
    assert ps[..|ps|] == ps;
  }

  /** The third loop of `evaluatePosition`: the neighbours no smith stands on. */
  method CountExits(neighbors: seq<Position>, ps: seq<Position>) returns (exits: nat)
    ensures exits == FreeCount(neighbors, ps)
  {
    exits := 0;
    var i := 0;
    while i < |neighbors|
      invariant 0 <= i <= |neighbors|
      invariant exits == FreeCount(neighbors[..i], ps)
    {
      assert neighbors[..i + 1][..i] == neighbors[..i];
      if neighbors[i] !in ps {
        exits := exits + 1;
      }
      i := i + 1;
    }
    assert neighbors[..|neighbors|] == neighbors;
  }

  /** `evaluatePosition`. With no smith the nearest distance stays infinite, and so does
      the score. */
  method EvaluatePosition(pos: Position, ps: seq<Position>, n: int) returns (score: Score)
    ensures score == Evaluate(pos, ps, n)
  {
    if |ps| == 0 {
      return PosInf;
    }
    var minDist := NearestDistance(pos, ps);
    var totalDist := TotalDistance(pos, ps);
    var exits := CountExits(Neighbors(pos, n), ps);
    score := Finite(10.0 * minDist as real + 2.0 * (totalDist as real / |ps| as real)
                    - Penalty(pos, n) as real + 3.0 * exits as real);
  }

  /** One turn of the scan: keeping the current candidate when it scores strictly higher
      than the best so far leaves the first highest of the candidates looked at. */
  lemma {:induction false} ScanStep(scores: seq<Score>, i: nat, bestScore: Score)
    requires i < |scores|
    requires i == 0 ==> bestScore == NegInf
    requires i > 0 ==> bestScore == scores[BestIndex(scores, i)]
    ensures BestIndex(scores, i + 1) == if i == 0 || Above(scores[i], bestScore) then i else BestIndex(scores, i)
  {
  }

  /** What the scan of `moveToSafety` holds after looking at the first `i` candidates:
      nothing kept yet, or the first highest of them with its score. */
  ghost predicate ScanInvariant(cs: seq<Position>, scores: seq<Score>, i: nat, bestPos: Position, bestScore: Score)
  {
    && |scores| == |cs| && i <= |cs|
    && (i == 0 ==> bestScore == NegInf)
    && (i > 0 ==> bestPos == cs[BestIndex(scores, i)] && bestScore == scores[BestIndex(scores, i)])
  }

  /** One turn of the loop of `moveToSafety`: evaluate candidate `i` and keep it when its
      score is strictly higher than the best so far. */
  method ScanTurn(cs: seq<Position>, ps: seq<Position>, n: int, i: nat, bestPos: Position, bestScore: Score)
    returns (bestPos': Position, bestScore': Score)
    requires i < |cs| && ScanInvariant(cs, Scores(cs, ps, n), i, bestPos, bestScore)
    ensures ScanInvariant(cs, Scores(cs, ps, n), i + 1, bestPos', bestScore')
  {
    ScoresSpec(cs, ps, n);
    ScanStep(Scores(cs, ps, n), i, bestScore);
    var score := EvaluatePosition(cs[i], ps, n);
    bestPos', bestScore' := bestPos, bestScore;
    if Above(score, bestScore) {
      bestPos', bestScore' := cs[i], score;
    }
  }

  /** The loop of `moveToSafety`: starting from minus infinity, keep a candidate whenever
      its score is strictly higher than the best so far. */
  method ScanCandidates(cs: seq<Position>, ps: seq<Position>, n: int) returns (bestPos: Position)
    requires |cs| >= 1
    ensures bestPos == cs[BestIndex(Scores(cs, ps, n), |cs|)]
  {
    bestPos := cs[|cs| - 1];
    var bestScore := NegInf;
    var i := 0;
    while i < |cs|
      invariant ScanInvariant(cs, Scores(cs, ps, n), i, bestPos, bestScore)
    {
      bestPos, bestScore := ScanTurn(cs, ps, n, i, bestPos, bestScore);
      i := i + 1;
    }
  }

  /** `moveToSafety`: the orthogonal neighbours on the grid and Neo's own cell, staying put
      being the last candidate and the starting best. */
  method MoveToSafety(pos: Position, ps: seq<Position>, n: int) returns (bestPos: Position)
    ensures bestPos == SafeMove(pos, ps, n)
  {
    var candidates := Candidates(pos, n);
    bestPos := ScanCandidates(candidates, ps, n);
  }

  /** Neo's record and the game rules it reads. */
  class Neo {
    const cfg: Config
    var state: NeoState

    /** The constructor, and `reset`, put Neo in its initial state. */
    constructor (cfg: Config)
      ensures this.cfg == cfg && state == InitialState(cfg)
    {
      this.cfg := cfg;
      state := InitialState(cfg);
    }

    method Reset()
      modifies this
      ensures state == InitialState(cfg)
    {
      state := InitialState(cfg);
    }

    /** Step 1 of `tick`. */
    method DecreaseCooldowns(commsNearby: bool)
      modifies this
      ensures state == Cooldowns(old(state), commsNearby)
    {
      if state.shockwaveCooldown > 0 {
        state := state.(shockwaveCooldown := state.shockwaveCooldown - 1);
        if commsNearby && state.shockwaveCooldown > 0 {
          state := state.(shockwaveCooldown := Max(0, state.shockwaveCooldown - 1));
        }
        state := state.(shockwaveReady := state.shockwaveCooldown <= 0);
      }
      if state.dodgeCooldown > 0 {
        state := state.(dodgeCooldown := state.dodgeCooldown - 1);
      }
      if state.fleetCooldown > 0 {
        state := state.(fleetCooldown := state.fleetCooldown - 1);
      }
    }

    /** Steps 3 and 4 of `tick`. */
    method TriggerAbility(ss: seq<SmithAgentState>, ps: seq<Position>, tick: int)
      returns (smiths: seq<SmithAgentState>, newEvents: seq<SimulationEvent>, bulletTime: bool, shockwave: bool)
      modifies this
      ensures AbilityOut(state, smiths, newEvents, bulletTime, shockwave) == Ability(old(state), ss, ps, tick, cfg)
    {
      var nearbyCount := CountSmithsInRange(ps, state.position, cfg.surroundRange);
      var mediumRangeCount := CountSmithsInRange(ps, state.position, cfg.bulletTimeRange);
      smiths, newEvents, bulletTime, shockwave := ss, [], false, false;
      if nearbyCount >= cfg.surroundTrigger && state.shockwaveReady {
        shockwave := true;
        smiths, newEvents := Shockwave(ss, state.position, cfg.shockwaveRadius, tick);
        state := state.(shockwaveCooldown := cfg.shockwaveCooldown, shockwaveReady := false);
      } else if mediumRangeCount >= cfg.bulletTimeTriggerThreshold && state.bulletTimeLeft > 0 {
        bulletTime := true;
        state := state.(bulletTimeLeft := state.bulletTimeLeft - 1);
        newEvents := [SimulationEvent(tick, Warning)];
      }
    }

    /** Step 5 of `tick`. */
    method TriggerDeployment(fleet: FleetState, counter: nat, activeCount: nat, tick: int, orders: seq<seq<Position>>)
      returns (newFleet: FleetState, newCounter: nat, newEvents: seq<SimulationEvent>, deployed: bool)
      requires |orders| >= 4
      modifies this
      ensures DeployOut(state, newFleet, newCounter, newEvents, deployed)
              == Deploy(old(state), fleet, counter, activeCount, tick, cfg, orders)
    {
      newFleet, newCounter, newEvents, deployed := fleet, counter, [], false;
      if activeCount >= cfg.fleetDeployThreshold && state.fleetCooldown <= 0 && |fleet.agents| < cfg.maxFleetAgents {
        var newAgents;
        newAgents, newEvents, newCounter := FleetAgent.DeployFleet(state.position, cfg.gridSize, tick, orders, counter, cfg.fleetLifespan);
        newFleet := fleet.(agents := fleet.agents + newAgents, totalDeployed := fleet.totalDeployed + |newAgents|);
        state := state.(fleetDeployed := state.fleetDeployed + |newAgents|, fleetCooldown := cfg.fleetCooldown);
        deployed := true;
      }
    }

    /** Steps 7 and 8 of `tick`. */
    method MoveAndCheckCapture(ps: seq<Position>, tick: int) returns (newEvents: seq<SimulationEvent>)
      modifies this
      ensures (state, newEvents) == Escape(old(state), ps, tick, cfg)
    {
      var p := MoveToSafety(state.position, ps, cfg.gridSize);
      state := state.(position := p);
      newEvents := [];
      if state.position in ps {
        if state.dodgeCooldown <= 0 {
          state := state.(dodgeCooldown := cfg.dodgeCooldown);
          newEvents := [SimulationEvent(tick, Info)];
          p := MoveToSafety(state.position, ps, cfg.gridSize);
          state := state.(position := p);
        } else {
          state := state.(alive := false);
          newEvents := [SimulationEvent(tick, Critical)];
        }
      }
    }

    /** `tick`: Neo's whole turn against the smiths and the fleet; returns the smiths, the
        fleet, the fleet id counter, the events pushed and the three ability flags. */
    method Tick(tick: int, ss: seq<SmithAgentState>, fleet: FleetState, counter: nat, orders: seq<seq<Position>>)
      returns (smiths: seq<SmithAgentState>, newFleet: FleetState, newCounter: nat, newEvents: seq<SimulationEvent>,
               bulletTime: bool, shockwave: bool, fleetDeployed: bool)
      requires |orders| >= 4
      modifies this
      ensures NeoOut(state, smiths, newFleet, newCounter, newEvents, bulletTime, shockwave, fleetDeployed)
              == NeoStep(old(state), ss, fleet, counter, tick, cfg, orders)
    {
      if !state.alive {
        return ss, fleet, counter, [], false, false, false;
      }
      var comms := FleetAgent.CommsNearby(fleet.agents, state.position);
      DecreaseCooldowns(comms);
      var activeSmiths := ActiveSnapshot(ss);
      var abilityEvents, deployEvents, fleetEvents, moveEvents;
      smiths, abilityEvents, bulletTime, shockwave := TriggerAbility(ss, activeSmiths, tick);
      newFleet, newCounter, deployEvents, fleetDeployed := TriggerDeployment(fleet, counter, |activeSmiths|, tick, orders);
      newFleet, smiths, fleetEvents := FleetAgent.TickFleet(newFleet, smiths, state.position, cfg, tick);
      moveEvents := MoveAndCheckCapture(activeSmiths, tick);
      newEvents := abilityEvents + deployEvents + fleetEvents + moveEvents;
    }
  }
}
