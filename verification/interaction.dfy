/** Interaction with the environment: sense (record the current lane), act (move every
    agent and count attendance), the reward assembly of react, and one whole step. */
module Interaction {
  import opened Config
  import opened Results
  import opened Arith
  import opened Learner
  import opened Environment
  import opened ResourceAbstraction

  /** The four reward signals an agent receives in a step. */
  datatype Rewards = Rewards(local: real, global: real, difference: real, coordinated: real)

  /** sense: every one of the first NumAgents agents records its lane as its previous
      state; `.at` rejects a population with fewer agents. */
  function Sense(agents: seq<Agent>): (r: Result<seq<Agent>>)
    ensures r.Ok? <==> |agents| >= NumAgents
    ensures r.Ok? ==> |r.value| == |agents|
    ensures r.Ok? ==> forall i :: 0 <= i < NumAgents ==>
      r.value[i].previousState == agents[i].state &&
      r.value[i].(previousState := agents[i].previousState) == agents[i]
    ensures r.Ok? ==> forall i :: NumAgents <= i < |agents| ==> r.value[i] == agents[i]
  {
    if |agents| < NumAgents then Err(OutOfRange)
    else Ok(seq(|agents|, i requires 0 <= i < |agents| =>
      if i < NumAgents then agents[i].(previousState := agents[i].state) else agents[i]))
  }

  /** Sensing twice records the same thing as sensing once. */
  lemma SenseIdempotent(agents: seq<Agent>)
    requires |agents| >= NumAgents
    ensures Sense(Sense(agents).value) == Sense(agents)
  {
    var once := Sense(agents).value;
    var twice := Sense(once).value;
    assert forall i :: 0 <= i < |agents| ==> twice[i] == once[i];
    assert twice == once;
  }

  /** The clamp of act: the lane nearest to x. */
  function Clamp(x: int): (r: int)
    ensures InLane(r)
    ensures forall l :: InLane(l) ==> Abs(r - x) <= Abs(l - x)
  {
    if x < 0 then 0 else if x >= Lanes then Lanes - 1 else x
  }

  /** The move of one agent in act: action a shifts the lane by a - 1, clamped to the lanes. */
  function Transition(a: Agent): (r: Agent)
    ensures InLane(r.state)
    ensures r.(state := a.state) == a
  {
    a.(state := Clamp(a.state + a.action - 1))
  }

  /** An agent on a lane that takes one of the three actions moves by exactly action - 1
      lanes, unless that would leave the highway, in which case it stays at the edge. */
  lemma TransitionMovesOneLane(a: Agent)
    requires InLane(a.state) && 0 <= a.action < Actions
    ensures Abs(Transition(a).state - a.state) <= 1
    ensures Transition(a).state ==
      if InLane(a.state + a.action - 1) then a.state + a.action - 1 else a.state
  {
  }

  /** act: moves the first NumAgents agents, then starts the highway's step and counts
      attendance. Because every move lands on a lane, counting never fails. */
  method Act(agents: seq<Agent>, h: Highway) returns (r: Result<(seq<Agent>, Highway)>)
    ensures r.Ok? <==> |agents| >= NumAgents
    ensures r.Ok? ==> |r.value.0| == |agents|
    ensures r.Ok? ==> forall i :: 0 <= i < NumAgents ==>
      r.value.0[i] == Transition(agents[i]) && InLane(r.value.0[i].state)
    ensures r.Ok? ==> forall i :: NumAgents <= i < |agents| ==> r.value.0[i] == agents[i]
    ensures r.Ok? ==>
      r.value.1 == Start(h).(attendance := Histogram(States(r.value.0, NumAgents), Lanes))
    ensures r.Ok? ==> |r.value.1.attendance| == Lanes && SumInt(r.value.1.attendance) == NumAgents
  {
    if |agents| < NumAgents {
      return Err(OutOfRange);
    }
    var moved := seq(|agents|, i requires 0 <= i < |agents| =>
      if i < NumAgents then Transition(agents[i]) else agents[i]);
    var counted := GetAttendance(Start(h), moved);
    assert counted.Ok?;
    r := Ok((moved, counted.value));
  }

  /** The reward lookups of react can be read: `.at` accepts the agent's lane. */
  predicate RewardsReadable(a: Agent, h: Highway)
  {
    0 <= a.state < |h.laneLocal| && a.state < |h.laneDifference|
  }

  /** What react reads without bounds checks: the lane's attendance, an owning group for
      the lane (findSuperLane is called for every agent), and, on an over-capacity lane,
      the group found being an index of the superlanes vector. */
  predicate GroupLookupDefined(a: Agent, h: Highway, gs: seq<SuperLane>)
  {
    && 0 <= a.state < |h.attendance|
    && Covered(gs, a.state)
    && (h.attendance[a.state] > Capacity ==> 0 <= FindSuperLane(gs, a.state) < |gs|)
  }

  /** The reward assembly of react for one agent, read at its lane after the move:
      local and difference reward of its lane, the global reward, and the coordinated
      reward, which is its superlane's reward when the lane is over capacity and the
      local reward otherwise. */
  function AgentRewards(a: Agent, h: Highway, gs: seq<SuperLane>): (r: Result<Rewards>)
    requires RewardsReadable(a, h) ==> GroupLookupDefined(a, h, gs)
    ensures r.Ok? <==> RewardsReadable(a, h)
    ensures r.Ok? ==> r.value.local == h.laneLocal[a.state]
    ensures r.Ok? ==> r.value.global == h.global
    ensures r.Ok? ==> r.value.difference == h.laneDifference[a.state]
    ensures r.Ok? ==> h.attendance[a.state] > Capacity ==>
      r.value.coordinated == gs[FindSuperLane(gs, a.state)].reward
    ensures r.Ok? ==> h.attendance[a.state] <= Capacity ==> r.value.coordinated == r.value.local
  {
    if !RewardsReadable(a, h) then Err(OutOfRange)
    else
      var local := h.laneLocal[a.state];
      var coordinated :=
        if h.attendance[a.state] > Capacity then gs[FindSuperLane(gs, a.state)].reward else local;
      Ok(Rewards(local, h.global, h.laneDifference[a.state], coordinated))
  }

  /** Under a partition whose ids are positions, the coordinated reward of an agent on an
      over-capacity lane is the reward of the one group owning that lane. */
  lemma CoordinatedIsOwnerReward(a: Agent, h: Highway, gs: seq<SuperLane>, k: int)
    requires IsPartition(gs) && IdsAreIndices(gs)
    requires 0 <= k < |gs| && a.state in gs[k].members
    requires RewardsReadable(a, h) && a.state < |h.attendance|
    ensures GroupLookupDefined(a, h, gs)
    ensures AgentRewards(a, h, gs).Ok?
    ensures AgentRewards(a, h, gs).value.coordinated ==
      if h.attendance[a.state] > Capacity then gs[k].reward else h.laneLocal[a.state]
  {
    FindSuperLaneOwner(gs, a.state, k);
  }

  /** The per-agent loop of react: the reward record of each of the first NumAgents
      agents; a missing agent, or a lane the reward vectors do not cover, stops the run. */
  method AssembleRewards(agents: seq<Agent>, h: Highway, gs: seq<SuperLane>) returns (r: Result<seq<Rewards>>)
    requires forall i :: 0 <= i < NumAgents && i < |agents| ==>
      RewardsReadable(agents[i], h) ==> GroupLookupDefined(agents[i], h, gs)
    ensures r.Ok? <==>
      |agents| >= NumAgents && forall i :: 0 <= i < NumAgents ==> RewardsReadable(agents[i], h)
    ensures r.Err? ==> r.error == OutOfRange
    ensures r.Ok? ==> |r.value| == NumAgents
    ensures r.Ok? ==> forall i :: 0 <= i < NumAgents ==> AgentRewards(agents[i], h, gs) == Ok(r.value[i])
  {
    var rewards: seq<Rewards> := [];
    var i := 0;
    while i < NumAgents
      invariant 0 <= i <= NumAgents && i <= |agents| && |rewards| == i
      invariant forall j :: 0 <= j < i ==> RewardsReadable(agents[j], h)
      invariant forall j :: 0 <= j < i ==> AgentRewards(agents[j], h, gs) == Ok(rewards[j])
    {
      if i == |agents| {
        return Err(OutOfRange);
      }
      var own := AgentRewards(agents[i], h, gs);
      if own.Err? {
        return Err(own.error);
      }
      rewards := rewards + [own.value];
      i := i + 1;
    }
    r := Ok(rewards);
  }

  /** Everything one step produces: the moved agents, the evaluated highway, the groups
      with their attendance and reward, and one reward record per agent. */
  datatype StepOutcome = StepOutcome(
    agents: seq<Agent>,
    highway: Highway,
    groups: seq<SuperLane>,
    rewards: seq<Rewards>)

  /** The highway after evaluate on a counted highway: same table and attendance, and per
      lane the local reward table[a] and the difference reward, with the global reward the
      sum of the local rewards. */
  predicate EvaluatedLanes(counted: Highway, h: Highway)
  {
    && h.lookup == counted.lookup
    && h.attendance == counted.attendance
    && |h.attendance| == Lanes
    && |h.laneLocal| == Lanes
    && |h.laneDifference| == Lanes
    && (forall l :: 0 <= l < Lanes ==>
          && 0 <= h.attendance[l] < |h.lookup|
          && h.laneLocal[l] == h.lookup[h.attendance[l]]
          && h.laneDifference[l] == Difference(h.lookup, h.attendance[l]))
    && h.global == SumReal(h.laneLocal)
  }

  /** Each group of `groups` is what calcAttendReward makes of the group at the same
      position of `gs`. */
  predicate GroupsRecomputed(gs: seq<SuperLane>, attendance: seq<int>, exp: int -> real, groups: seq<SuperLane>)
  {
    && |groups| == |gs|
    && forall k :: 0 <= k < |gs| ==>
         && IndicesIn(gs[k].members, |attendance|)
         && CalcAttendReward(gs[k], attendance, exp) == Ok(groups[k])
  }

  /** Every one of the first NumAgents agents gets the reward record of its lane. */
  predicate RewardsHandedOut(agents: seq<Agent>, h: Highway, groups: seq<SuperLane>, rewards: seq<Rewards>)
  {
    && |agents| >= NumAgents
    && |rewards| == NumAgents
    && forall i :: 0 <= i < NumAgents ==>
         && RewardsReadable(agents[i], h)
         && GroupLookupDefined(agents[i], h, groups)
         && AgentRewards(agents[i], h, groups) == Ok(rewards[i])
  }

  /** After act and evaluate the agents' lanes index every per-lane vector, and under a
      partition with ids equal to positions every lane has its group. */
  lemma RewardsDefinedAfterEvaluate(moved: seq<Agent>, h: Highway, gs: seq<SuperLane>)
    requires forall i :: 0 <= i < NumAgents && i < |moved| ==> InLane(moved[i].state)
    requires |h.laneLocal| == Lanes && |h.laneDifference| == Lanes && |h.attendance| == Lanes
    requires IsPartition(gs) && IdsAreIndices(gs)
    ensures forall i :: 0 <= i < NumAgents && i < |moved| ==>
      RewardsReadable(moved[i], h) && GroupLookupDefined(moved[i], h, gs)
  {
    forall i | 0 <= i < NumAgents && i < |moved|
      ensures RewardsReadable(moved[i], h) && GroupLookupDefined(moved[i], h, gs)
    {
      PartitionCovers(gs, moved[i].state);
      var k :| 0 <= k < |gs| && moved[i].state in gs[k].members;
      FindSuperLaneOwner(gs, moved[i].state, k);
    }
  }

  /** react, as main() calls it right after act: evaluate the highway, recompute every
      group, hand out the rewards. The lanes are those act produced (all on the highway),
      the highway has just been started and counted with a payoff table from make_lookup,
      and the groups are a partition whose ids are their positions. */
  method React(moved: seq<Agent>, h: Highway, gs: seq<SuperLane>, exp: int -> real)
    returns (r: Result<StepOutcome>)
    requires forall i :: 0 <= i < NumAgents && i < |moved| ==> InLane(moved[i].state)
    requires |h.lookup| == NumAgents + 1
    requires h.laneLocal == [] && h.laneDifference == [] && h.global == 0.0
    requires |h.attendance| == Lanes && SumInt(h.attendance) == NumAgents
    requires forall l :: 0 <= l < Lanes ==> 0 <= h.attendance[l] <= NumAgents
    requires IsPartition(gs) && IdsAreIndices(gs)
    ensures r.Ok? <==> (forall k :: 0 <= k < |gs| ==> gs[k].capacity != 0) && |moved| >= NumAgents
    ensures r.Ok? ==> r.value.agents == moved
    ensures r.Ok? ==> EvaluatedLanes(h, r.value.highway)
    ensures r.Ok? ==> GroupsRecomputed(gs, h.attendance, exp, r.value.groups)
    ensures r.Ok? ==> IsPartition(r.value.groups) && IdsAreIndices(r.value.groups)
    ensures r.Ok? ==> TotalAttendance(r.value.groups) == NumAgents
    ensures r.Ok? ==> RewardsHandedOut(moved, r.value.highway, r.value.groups, r.value.rewards)
  {
    var evaluated := Evaluate(h);
    assert evaluated.Ok?;
    var h2 := evaluated.value;
    assert h2.laneLocal[0..] == h2.laneLocal;

    PartitionMembersInRange(gs);
    var groups :- CalcAll(gs, h2.attendance, exp);
    SameMembersSamePartition(gs, groups);
    GroupAttendanceSum(groups, h2.attendance);

    RewardsDefinedAfterEvaluate(moved, h2, groups);
    var rewards :- AssembleRewards(moved, h2, groups);
    r := Ok(StepOutcome(moved, h2, groups, rewards));
  }

  /** One step of an episode: sense, act, react. The agents' `action` fields hold the
      actions decide chose; decide touches no field that sense reads or writes, so it can
      precede sense. The payoff table is the one make_lookup built and the groups are a
      partition whose ids are their positions, as main() sets them up. */
  method Step(agents: seq<Agent>, h: Highway, gs: seq<SuperLane>, exp: int -> real)
    returns (r: Result<StepOutcome>)
    requires |h.lookup| == NumAgents + 1
    requires IsPartition(gs) && IdsAreIndices(gs)
    ensures r.Ok? <==> |agents| >= NumAgents && forall k :: 0 <= k < |gs| ==> gs[k].capacity != 0
    ensures r.Ok? ==> |r.value.agents| == |agents|
    ensures r.Ok? ==> forall i :: 0 <= i < NumAgents ==>
      r.value.agents[i] == Transition(agents[i]).(previousState := agents[i].state)
    ensures r.Ok? ==> forall i :: NumAgents <= i < |agents| ==> r.value.agents[i] == agents[i]
    ensures r.Ok? ==> forall i :: 0 <= i < NumAgents ==>
      InLane(agents[i].state) && 0 <= agents[i].action < Actions ==>
        Abs(r.value.agents[i].state - agents[i].state) <= 1
    ensures r.Ok? ==>
      && r.value.highway.lookup == h.lookup
      && r.value.highway.attendance == Histogram(States(r.value.agents, NumAgents), Lanes)
      && SumInt(r.value.highway.attendance) == NumAgents
    ensures r.Ok? ==> EvaluatedLanes(r.value.highway, r.value.highway)
    ensures r.Ok? ==> GroupsRecomputed(gs, r.value.highway.attendance, exp, r.value.groups)
    ensures r.Ok? ==> IsPartition(r.value.groups) && TotalAttendance(r.value.groups) == NumAgents
    ensures r.Ok? ==> RewardsHandedOut(r.value.agents, r.value.highway, r.value.groups, r.value.rewards)
  {
    var sensed :- Sense(agents);
    var acted := Act(sensed, h);
    assert acted.Ok?;
    var moved, h1 := acted.value.0, acted.value.1;
    forall i | 0 <= i < NumAgents && InLane(agents[i].state) && 0 <= agents[i].action < Actions
      ensures Abs(moved[i].state - agents[i].state) <= 1
    {
      assert sensed[i].state == agents[i].state && sensed[i].action == agents[i].action;
      TransitionMovesOneLane(sensed[i]);
    }
    AttendanceFitsLookup(h1, moved);
    r := React(moved, h1, gs, exp);
  }
}
