# Beach Problem Domain and resource abstraction: a Dafny model

This project models the deterministic core of the Beach Problem Domain simulator
(`main.cpp`): a population of agents moves between six lanes, the highway counts the
agents on each lane and derives local, global and difference rewards from a payoff table,
and the resource-abstraction layer groups lanes into superlanes. Each superlane gets an
aggregate attendance and a group reward, and the coordinated reward is chosen from them.

Modules follow the sections of `main.cpp`:

- `Config` (config.dfy): the compile-time parameters. There are 100 agents, 6 lanes,
  capacity 6, 3 actions and 3 superlanes.
- `Results` (results.dfy): the two run-time failures of the core. `OutOfRange` is a
  `std::vector::at` outside the vector. `DivisionByZero` is a group of capacity 0.
- `Arith` (arith.dfy): sums, occurrence counts and histograms, sums over index lists and
  their invariance under permutation, and C++ integer division, which truncates toward zero.
- `Learner` (learner.dfy): the agent record, with its lane, previous lane and action.
- `Environment` (environment.dfy): `highway` with `make_lookup`, `start`,
  `get_attendance` and `evaluate`.
- `ResourceAbstraction` (superlanes.dfy): `superLane` with `reset`, `setMembers` and
  `calcAttendReward`, plus `findSuperLane`. It also defines the partition predicate and
  the lemmas about partitions.
- `Interaction` (interaction.dfy): `sense`, `act`, the reward assembly of `react`, and
  one whole step (sense, act, react).

Two functions are given as parameters and never interpreted. `exp: real -> real` is the
exponential of the payoff table. `exp: int -> real` is the exponential applied to the
group reward's integer exponent.

Every `.at` that can throw becomes a `Result` error. That includes the `pA->at(agent)`
reads of `sense`, `act` and `react` when there are fewer than NUM_AGENTS agents. `Result`
works with Dafny's `:-`, which stops at the first error and passes it on. Every unchecked
`operator[]` and the end-iterator dereference in `findSuperLane` are undefined behaviour,
so they become preconditions. `react` indexes the superlanes with the group found only
when the lane is over capacity, so only that branch needs the index to be valid.

Read as a formula over the reals, line 158 of `main.cpp` gives the group reward
`-x * exp(-x / capacity)`. The code itself computes `- this->attendance / capacity` on
two `int`s, so the exponent is truncated toward zero before `exp` is applied. The model
follows the code: `GroupExponent` is the truncating quotient. `GroupExponentTruncates`
shows that the exponent stays 0 until a group reaches its capacity. `LiveExample` gives
the exponents -2, -5 and -2 for the worked example. Real division would give -2.5, -5 and
about -2.22.

## Model

| member | source | states |
|---|---|---|
| Arith.TruncDiv | main.cpp:158 | The quotient of C++ `int` division. The remainder is smaller than the divisor in magnitude and never has the opposite sign to the dividend. |
| Environment.MakeLookup | main.cpp:86-94 | The table has exactly NUM_AGENTS + 1 entries. Entry 0 is 0. Entry x is x·exp(−x/CAPACITY). Nothing else in the highway changes. |
| Environment.Start | main.cpp:96-101 | Clears attendance, local and difference vectors, zeros the global reward, and keeps the payoff table. |
| Environment.StartForgetsStep | main.cpp:96-101 | Two highways with the same payoff table are identical after start, so nothing from the previous step survives. |
| Environment.GetAttendance | main.cpp:103-109 | Fails exactly when there are fewer than NUM_AGENTS agents or one of them is off the lanes. Otherwise attendance has LANES entries, entry l counts the agents on lane l, and the counts add up to NUM_AGENTS. |
| Environment.AttendanceFitsLookup | main.cpp:86-94 | Every count that a population of NUM_AGENTS can produce is a valid index into a table of NUM_AGENTS + 1 entries. |
| Environment.Evaluate | main.cpp:111-121 | Fails exactly when some attendance is not an index of the table. Otherwise it appends one local and one difference reward per lane and keeps the earlier entries. Local is table[a]. Difference is 0 for an empty lane, else table[a] − table[a−1]. The global reward grows by the sum of the appended local rewards. |
| ResourceAbstraction.Reset | main.cpp:139-145 | A group with no members, zero id, capacity, attendance and reward. |
| ResourceAbstraction.SetMembers | main.cpp:166-304 | Members become the live configuration for the group's id, and capacity becomes CAPACITY times the member count. The id, attendance and reward are unchanged. |
| ResourceAbstraction.BuildSuperLanes | main.cpp:414-419 | Builds one group per position. Each group's id equals its position, and its members and capacity are those setMembers gives that id. |
| ResourceAbstraction.LiveConfiguration | main.cpp:261-271 | The live groups are {0,1}, {2}, {3,4,5}, with ids 0, 1, 2 and capacities 12, 6, 18. They partition the six lanes, and their capacities add up to LANES × CAPACITY. |
| ResourceAbstraction.PartitionCovers | main.cpp:306-314 | Under a partition, a lane has an owning group if and only if it is a valid lane. |
| ResourceAbstraction.PartitionOwnerUnique | main.cpp:306-314 | Under a partition, no lane is owned by two groups. |
| ResourceAbstraction.PartitionMembersInRange | main.cpp:153-155 | Under a partition, every member index is a valid lane, so the unchecked attendance reads are safe. |
| ResourceAbstraction.PartitionCapacity | main.cpp:302-303 | For any partition whose capacities are CAPACITY per member lane, the total capacity is LANES × CAPACITY. |
| ResourceAbstraction.GroupExponentTruncates | main.cpp:158 | For attendance ≥ 0 and capacity > 0, the exponent is −(attendance div capacity). It is 0 exactly when the group is below capacity. |
| ResourceAbstraction.CalcAttendReward | main.cpp:147-159 | Fails exactly when the capacity is 0. Otherwise attendance is recomputed from scratch as the sum over the member lanes, and reward is −attendance·exp(exponent). No other field changes. |
| ResourceAbstraction.CalcAttendRewardIdempotent | main.cpp:147-159 | Applying calcAttendReward twice gives the same group as applying it once. |
| ResourceAbstraction.GroupRewardIsPenalty | main.cpp:158 | With a positive exp and non-negative lane counts, the group reward is never positive. It is zero exactly when the group is empty. |
| ResourceAbstraction.CalcAll | main.cpp:352-354 | The loop over all groups fails exactly when some group has capacity 0. Otherwise it gives each group's calcAttendReward result, in order. Each result keeps its group's members and id, and its attendance is the sum over those members. |
| ResourceAbstraction.SameMembersSamePartition | main.cpp:352-354 | Two group vectors with the same members and ids agree on being a partition and on ids being positions. So recomputing attendance and reward keeps both. |
| ResourceAbstraction.GroupAttendanceSum | main.cpp:147-155 | Under a partition, group attendances computed as sums over member lanes add up to the total lane attendance, so no agent is lost or counted twice. |
| ResourceAbstraction.OwnerFrom | main.cpp:307-313 | The scan returns the first position at or after its start whose members contain the lane. |
| ResourceAbstraction.FindSuperLane | main.cpp:306-314 | Returns the id of the first group whose members contain the lane. |
| ResourceAbstraction.FindSuperLaneOwner | main.cpp:306-314 | Under a partition whose ids are positions, findSuperLane returns the position of the one group that owns the lane. |
| ResourceAbstraction.LiveExample | main.cpp:147-158 | For lane attendance 10, 20, 30, 15, 15, 10, the live groups have attendance 30, 30, 40 and exponents −2, −5, −2. |
| Interaction.Sense | main.cpp:320-324 | Fails exactly when there are fewer than NUM_AGENTS agents. Otherwise each of the first NUM_AGENTS agents records its lane as previousState, and nothing else changes. |
| Interaction.SenseIdempotent | main.cpp:320-324 | Sensing twice gives the same population as sensing once. |
| Interaction.Clamp | main.cpp:337-342 | The result is a valid lane, and it is the lane nearest the unclamped target. |
| Interaction.Transition | main.cpp:337-342 | An agent's move lands on a valid lane and changes only its lane. |
| Interaction.TransitionMovesOneLane | main.cpp:337-342 | From a valid lane, actions 0, 1, 2 move the agent by at most one lane. The new lane is lane + action − 1 when that is a valid lane; otherwise the agent stays where it is. |
| Interaction.Act | main.cpp:334-347 | Fails exactly when there are fewer than NUM_AGENTS agents. Otherwise it moves each of those agents, leaves any others alone, and never fails to count. Attendance is recounted from the moved lanes on a freshly started highway and adds up to NUM_AGENTS. |
| Interaction.AgentRewards | main.cpp:356-377 | Fails exactly when the agent's lane is not covered by the reward vectors. Otherwise L and D are read at the agent's current lane, G is the global reward, and C is its superlane's reward when the lane holds more than CAPACITY agents and L otherwise. |
| Interaction.CoordinatedIsOwnerReward | main.cpp:364-377 | Under a partition whose ids are positions, C is the reward of the one group owning the agent's lane when the lane is over capacity, and L otherwise. |
| Interaction.AssembleRewards | main.cpp:356-390 | Fails with out_of_range exactly when there are fewer than NUM_AGENTS agents or some agent's lane is not covered. Otherwise it gives one reward record per agent, each equal to that agent's AgentRewards. |
| Interaction.RewardsDefinedAfterEvaluate | main.cpp:359-368 | After act and evaluate, every agent's lane indexes every per-lane vector and has an owning group whose id indexes the superlanes. |
| Interaction.React | main.cpp:349-391 | Called after act, react fails exactly when some group has capacity 0 or there are fewer than NUM_AGENTS agents. Otherwise there is one local and one difference reward per lane. Local is table[attendance[l]], difference is the table step below it, and global is the sum of the locals. Each group is its calcAttendReward result, the groups still form a partition, and their attendances add up to NUM_AGENTS. Every agent gets the reward record of its lane. |
| Interaction.Step | main.cpp:441-448 | One sense/act/react step fails exactly when there are too few agents or a group has capacity 0. Otherwise each of the first NUM_AGENTS agents makes its act move, with previousState holding its lane from before the move; later agents are untouched. An agent that started on a lane with a valid action moves at most one lane. Attendance is the histogram of the new lanes and adds up to NUM_AGENTS. Local, difference and global rewards are those evaluate gives, each group is its calcAttendReward result, the partition still holds, and every agent gets the reward record of its lane. |

## Left out

- The learner in `qlearning.h` is not part of this model. That covers `decide`,
  `choose_egreedy_action`, `Qupdate`, `final_Qupdate`, the decay of alpha and epsilon,
  `restart` and `start`. An agent is only its lane, previous lane and action. The reward
  setters and the `learn_with_*` switches at the end of `react` only hand the reward
  record over.
- The exponential and floating point are not modelled. `exp` is an uninterpreted
  parameter, and reals are exact, so the rounding of `global +=` is not modelled.
  Unimodality of the payoff and the sign of floating-point results are not claimed.
- Randomness (`srand`, `LYRAND`), the `command_*` flags, and the episode and run loops of
  `main` are left out. So are the terminal update and restart at the end of each episode.
- Output is left out: `report`, the `fopen`/`fprintf` calls, `console_attendance` and the
  progress messages.
- The commented-out alternative partitions of `setMembers` are left out. The partition
  lemmas hold for any partition; only the live one is instantiated.
- `decide` runs between `sense` and `act` in the source, but it sets only the action.
  `Step` therefore takes agents whose action is already chosen.
- `findSuperLane` dereferences the end iterator when a group lacks the lane (undefined
  behaviour). The model treats that case as "not found" and requires some group to
  contain the lane.
- Interaction.Transition: `int` overflow of `state + action - 1` is not modelled.
  Integers are unbounded.
- Interaction.React: it is modelled only in the situation in which `main` calls it,
  right after `act`, with a payoff table from `make_lookup` and a partition whose ids are
  positions. A missing agent is still an error. Its failures in other situations are modelled by `Evaluate`, `CalcAll` and
  `AssembleRewards` separately.
- Interaction.Step: it requires the payoff table from `make_lookup` and a partition whose
  ids are positions, which is what `main` sets up before the first step.
