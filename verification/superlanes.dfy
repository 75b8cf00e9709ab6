/** Resource abstraction: lanes grouped into superlanes, each with a capacity, an
    aggregate attendance and a group reward, and the lookup from a lane to its group. */
module ResourceAbstraction {
  import opened Config
  import opened Results
  import opened Arith

  /** A superlane: its id, capacity (per-lane capacity times member count), aggregate
      attendance of its member lanes, the member lane indices and its group reward. */
  datatype SuperLane = SuperLane(id: int, capacity: int, attendance: int, members: seq<int>, reward: real)

  /** superLane::reset: an empty group with everything zeroed. */
  function Reset(): (s: SuperLane)
    ensures s.members == [] && s.capacity == 0
    ensures s.id == 0 && s.attendance == 0 && s.reward == 0.0
  {
    SuperLane(0, 0, 0, [], 0.0)
  }

  /** The live abstraction configuration of superLane::setMembers (six lanes in three
      groups, 2 + 1 + 3); any other id gets no members. */
  function LiveMembers(id: int): seq<int>
  {
    if id == 0 then [0, 1]
    else if id == 1 then [2]
    else if id == 2 then [3, 4, 5]
    else []
  }

  /** superLane::setMembers: replaces the members by those of the group's id and sets
      the capacity to Capacity per member lane; nothing else changes. */
  function SetMembers(s: SuperLane): (r: SuperLane)
    ensures r.members == LiveMembers(s.id)
    ensures r.capacity == Capacity * |r.members|
    ensures r.(members := s.members, capacity := s.capacity) == s
  {
    s.(members := LiveMembers(s.id), capacity := Capacity * |LiveMembers(s.id)|)
  }

  /** The superlanes vector main() builds: for i in 0 .. n - 1, reset, set id i, set members. */
  function BuildSuperLanes(n: nat): (gs: seq<SuperLane>)
    ensures |gs| == n
    ensures IdsAreIndices(gs)
    ensures forall k :: 0 <= k < n ==>
      gs[k].members == LiveMembers(k) && gs[k].capacity == Capacity * |gs[k].members|
  {
    if n == 0 then [] else BuildSuperLanes(n - 1) + [SetMembers(Reset().(id := n - 1))]
  }

  /** All member lists, concatenated in group order. */
  function Flatten(gs: seq<SuperLane>): seq<int>
  {
    if |gs| == 0 then [] else gs[0].members + Flatten(gs[1..])
  }

  /** The groups partition the lanes: across all member lists, every lane 0 .. Lanes - 1
      occurs exactly once and nothing else occurs. */
  predicate IsPartition(gs: seq<SuperLane>)
  {
    multiset(Flatten(gs)) == multiset(Range(Lanes))
  }

  /** A group's id is its position in the vector, so an id can index the vector. */
  predicate IdsAreIndices(gs: seq<SuperLane>)
  {
    forall k :: 0 <= k < |gs| ==> gs[k].id == k
  }

  /** Some group lists the lane among its members. */
  predicate Covered(gs: seq<SuperLane>, lane: int)
  {
    exists k :: 0 <= k < |gs| && lane in gs[k].members
  }

  function TotalCapacity(gs: seq<SuperLane>): int
  {
    if |gs| == 0 then 0 else gs[0].capacity + TotalCapacity(gs[1..])
  }

  function TotalAttendance(gs: seq<SuperLane>): int
  {
    if |gs| == 0 then 0 else gs[0].attendance + TotalAttendance(gs[1..])
  }

  /** The live configuration: three groups {0, 1}, {2}, {3, 4, 5} with ids 0, 1, 2 and
      capacities 12, 6, 18; they partition the six lanes and their capacities add up to
      the capacity of all lanes. */
  lemma LiveConfiguration()
    ensures var gs := BuildSuperLanes(NumSuperLanes);
      && |gs| == 3
      && gs[0].members == [0, 1] && gs[1].members == [2] && gs[2].members == [3, 4, 5]
      && gs[0].capacity == 12 && gs[1].capacity == 6 && gs[2].capacity == 18
      && IsPartition(gs)
      && IdsAreIndices(gs)
      && TotalCapacity(gs) == Lanes * Capacity
  {
    var gs := BuildSuperLanes(NumSuperLanes);
    LiveGroups();
    LiveFlatten(gs);
    assert Range(Lanes) == [0, 1, 2, 3, 4, 5];
    TotalCapacityOfMembers(gs);
  }

  lemma LiveGroups()
    ensures BuildSuperLanes(NumSuperLanes) ==
      [SuperLane(0, 12, 0, [0, 1], 0.0), SuperLane(1, 6, 0, [2], 0.0), SuperLane(2, 18, 0, [3, 4, 5], 0.0)]
  {
  }

  lemma LiveFlatten(gs: seq<SuperLane>)
    requires gs ==
      [SuperLane(0, 12, 0, [0, 1], 0.0), SuperLane(1, 6, 0, [2], 0.0), SuperLane(2, 18, 0, [3, 4, 5], 0.0)]
    ensures Flatten(gs) == [0, 1, 2, 3, 4, 5]
  {
    assert gs[1..][1..][1..] == [];
    assert Flatten(gs[1..][1..]) == [3, 4, 5];
    assert Flatten(gs[1..]) == [2, 3, 4, 5];
  }

  /** A lane listed by group k occurs in the concatenated member lists. */
  lemma {:induction false} MemberInFlatten(gs: seq<SuperLane>, k: int, lane: int)
    requires 0 <= k < |gs| && lane in gs[k].members
    ensures lane in Flatten(gs)
  {
    if k > 0 {
      MemberInFlatten(gs[1..], k - 1, lane);
    }
  }

  /** A lane occurring in the concatenated member lists is listed by some group. */
  lemma {:induction false} FlattenHasOwner(gs: seq<SuperLane>, lane: int)
    requires lane in Flatten(gs)
    ensures Covered(gs, lane)
  {
    if lane !in gs[0].members {
      FlattenHasOwner(gs[1..], lane);
      var k :| 0 <= k < |gs[1..]| && lane in gs[1..][k].members;
      assert lane in gs[k + 1].members;
    }
  }

  /** A lane listed by two different groups occurs at least twice overall. */
  lemma {:induction false} TwoOwnersTwice(gs: seq<SuperLane>, j: int, k: int, lane: int)
    requires 0 <= j < k < |gs|
    requires lane in gs[j].members && lane in gs[k].members
    ensures multiset(Flatten(gs))[lane] >= 2
  {
    assert Flatten(gs) == gs[0].members + Flatten(gs[1..]);
    if j == 0 {
      MemberInFlatten(gs[1..], k - 1, lane);
      assert multiset(gs[0].members)[lane] >= 1;
      assert multiset(Flatten(gs[1..]))[lane] >= 1;
    } else {
      TwoOwnersTwice(gs[1..], j - 1, k - 1, lane);
    }
  }

  /** Under a partition, a lane has an owning group exactly when it is a valid lane. */
  lemma PartitionCovers(gs: seq<SuperLane>, lane: int)
    requires IsPartition(gs)
    ensures Covered(gs, lane) <==> InLane(lane)
  {
    RangeOnce(Lanes, lane);
    if InLane(lane) {
      assert lane in multiset(Flatten(gs));
      FlattenHasOwner(gs, lane);
    } else if Covered(gs, lane) {
      var k :| 0 <= k < |gs| && lane in gs[k].members;
      MemberInFlatten(gs, k, lane);
      assert false;
    }
  }

  /** Under a partition, no lane has two owning groups. */
  lemma PartitionOwnerUnique(gs: seq<SuperLane>, j: int, k: int, lane: int)
    requires IsPartition(gs)
    requires 0 <= j < |gs| && 0 <= k < |gs|
    requires lane in gs[j].members && lane in gs[k].members
    ensures j == k
  {
    RangeOnce(Lanes, lane);
    if j < k {
      TwoOwnersTwice(gs, j, k, lane);
    } else if k < j {
      TwoOwnersTwice(gs, k, j, lane);
    }
  }

  /** Under a partition, every member of every group is a valid lane index. */
  lemma PartitionMembersInRange(gs: seq<SuperLane>)
    requires IsPartition(gs)
    ensures forall k :: 0 <= k < |gs| ==> IndicesIn(gs[k].members, Lanes)
  {
    forall k, i | 0 <= k < |gs| && 0 <= i < |gs[k].members|
      ensures InLane(gs[k].members[i])
    {
      PartitionCovers(gs, gs[k].members[i]);
    }
  }

  /** Total capacity of groups whose capacity is Capacity per member lane. */
  lemma {:induction false} TotalCapacityOfMembers(gs: seq<SuperLane>)
    requires forall k :: 0 <= k < |gs| ==> gs[k].capacity == Capacity * |gs[k].members|
    ensures TotalCapacity(gs) == Capacity * |Flatten(gs)|
  {
    if |gs| > 0 {
      TotalCapacityOfMembers(gs[1..]);
    }
  }

  /** Any partition whose capacities were set as setMembers sets them has, in total,
      exactly the capacity of all lanes. */
  lemma PartitionCapacity(gs: seq<SuperLane>)
    requires IsPartition(gs)
    requires forall k :: 0 <= k < |gs| ==> gs[k].capacity == Capacity * |gs[k].members|
    ensures TotalCapacity(gs) == Lanes * Capacity
  {
    TotalCapacityOfMembers(gs);
    assert |Flatten(gs)| == |multiset(Flatten(gs))| == |multiset(Range(Lanes))| == Lanes;
  }

  /** The exponent of the group reward, `-attendance / capacity` evaluated in C++ int
      arithmetic: negation first, then division truncating toward zero. */
  function GroupExponent(attendance: int, capacity: int): int
    requires capacity != 0
  {
    TruncDiv(-attendance, capacity)
  }

  /** For a non-negative attendance and a positive capacity the exponent is the negated
      whole number of capacities the group holds, so it stays 0 until the group is full. */
  lemma GroupExponentTruncates(attendance: int, capacity: int)
    requires 0 <= attendance && 0 < capacity
    ensures GroupExponent(attendance, capacity) == -(attendance / capacity)
    ensures attendance < capacity <==> GroupExponent(attendance, capacity) == 0
  {
    if attendance > 0 {
      assert -attendance < 0;
    }
    QuotientZero(attendance, capacity);
  }

  /** A non-negative count divided by a positive capacity is 0 exactly below capacity. */
  lemma QuotientZero(a: int, c: int)
    requires 0 <= a && 0 < c
    ensures a / c == 0 <==> a < c
  {
    var q, rem := a / c, a % c;
    assert a == c * q + rem && 0 <= rem < c;
    if q >= 1 {
      assert c * q >= c;
    }
  }


  /** Group reward -attendance * exp(exponent): the negated payoff shape, a penalty. */
  function GroupReward(attendance: int, capacity: int, exp: int -> real): real
    requires capacity != 0
  {
    -(attendance as real) * exp(GroupExponent(attendance, capacity))
  }

  /** superLane::calcAttendReward: recomputes the group's attendance from scratch as the sum
      of its member lanes' attendance and sets the reward to
      -attendance * exp(GroupExponent(attendance, capacity)). A group with capacity 0 divides
      by zero. The member lanes are read with an unchecked index, so they must be valid. */
  function CalcAttendReward(s: SuperLane, attendance: seq<int>, exp: int -> real): (r: Result<SuperLane>)
    requires IndicesIn(s.members, |attendance|)
    ensures r.Err? <==> s.capacity == 0
    ensures r.Ok? ==> r.value.(attendance := s.attendance, reward := s.reward) == s
    ensures r.Ok? ==> r.value.attendance == SumAt(attendance, s.members)
    ensures r.Ok? ==> r.value.reward == GroupReward(r.value.attendance, s.capacity, exp)
  {
    var total := SumAt(attendance, s.members);
    if s.capacity == 0 then Err(DivisionByZero)
    else Ok(s.(attendance := total, reward := GroupReward(total, s.capacity, exp)))
  }

  /** Recomputing from scratch makes calcAttendReward idempotent. */
  lemma CalcAttendRewardIdempotent(s: SuperLane, attendance: seq<int>, exp: int -> real)
    requires IndicesIn(s.members, |attendance|)
    requires CalcAttendReward(s, attendance, exp).Ok?
    ensures CalcAttendReward(CalcAttendReward(s, attendance, exp).value, attendance, exp)
         == CalcAttendReward(s, attendance, exp)
  {
  }

  /** With a positive exponential and non-negative lane attendance the group reward is a
      penalty: never positive, and zero exactly when the group is empty. */
  lemma GroupRewardIsPenalty(s: SuperLane, attendance: seq<int>, exp: int -> real)
    requires IndicesIn(s.members, |attendance|)
    requires forall e :: exp(e) > 0.0
    requires forall l :: 0 <= l < |attendance| ==> attendance[l] >= 0
    requires s.capacity != 0
    ensures CalcAttendReward(s, attendance, exp).value.reward <= 0.0
    ensures CalcAttendReward(s, attendance, exp).value.reward == 0.0
        <==> CalcAttendReward(s, attendance, exp).value.attendance == 0
  {
    SumAtNonNegative(attendance, s.members);
    var g := CalcAttendReward(s, attendance, exp).value;
    var e := exp(GroupExponent(g.attendance, s.capacity));
    assert e > 0.0;
    assert g.reward == -(g.attendance as real) * e;
  }

  /** The loop of react() over all superlanes: calcAttendReward on each group in order;
      the first group of capacity 0 stops the run. */
  function CalcAll(gs: seq<SuperLane>, attendance: seq<int>, exp: int -> real): (r: Result<seq<SuperLane>>)
    requires forall k :: 0 <= k < |gs| ==> IndicesIn(gs[k].members, |attendance|)
    ensures r.Ok? <==> forall k :: 0 <= k < |gs| ==> gs[k].capacity != 0
    ensures r.Ok? ==> |r.value| == |gs|
    ensures r.Ok? ==> forall k :: 0 <= k < |gs| ==> CalcAttendReward(gs[k], attendance, exp) == Ok(r.value[k])
    ensures r.Ok? ==> forall k :: 0 <= k < |gs| ==>
      && r.value[k].members == gs[k].members
      && r.value[k].id == gs[k].id
      && r.value[k].attendance == SumAt(attendance, gs[k].members)
    decreases |gs|
  {
    if |gs| == 0 then Ok([])
    else
      var g :- CalcAttendReward(gs[0], attendance, exp);
      var rest :- CalcAll(gs[1..], attendance, exp);
      Ok([g] + rest)
  }

  lemma {:induction false} FlattenSameMembers(gs: seq<SuperLane>, hs: seq<SuperLane>)
    requires |gs| == |hs|
    requires forall k :: 0 <= k < |gs| ==> hs[k].members == gs[k].members
    ensures Flatten(hs) == Flatten(gs)
  {
    if |gs| > 0 {
      FlattenSameMembers(gs[1..], hs[1..]);
    }
  }

  /** Whether groups partition the lanes, and whether their ids are their positions,
      depends only on their members and ids: recomputing attendance and reward keeps both. */
  lemma SameMembersSamePartition(gs: seq<SuperLane>, hs: seq<SuperLane>)
    requires |gs| == |hs|
    requires forall k :: 0 <= k < |gs| ==> hs[k].members == gs[k].members && hs[k].id == gs[k].id
    ensures IsPartition(gs) <==> IsPartition(hs)
    ensures IdsAreIndices(gs) <==> IdsAreIndices(hs)
  {
    FlattenSameMembers(gs, hs);
  }

  /** Groups whose attendance is the sum over their members add up to the sum over all
      member lists concatenated. */
  lemma {:induction false} TotalAttendanceIsSumAt(gs: seq<SuperLane>, attendance: seq<int>)
    requires forall k :: 0 <= k < |gs| ==> IndicesIn(gs[k].members, |attendance|)
    requires forall k :: 0 <= k < |gs| ==> gs[k].attendance == SumAt(attendance, gs[k].members)
    ensures IndicesIn(Flatten(gs), |attendance|)
    ensures TotalAttendance(gs) == SumAt(attendance, Flatten(gs))
  {
    if |gs| > 0 {
      TotalAttendanceIsSumAt(gs[1..], attendance);
      SumAtConcat(attendance, gs[0].members, Flatten(gs[1..]));
    }
  }

  /** Under a partition, group attendances computed as calcAttendReward computes them add
      up to the total lane attendance: grouping loses and duplicates no agent. */
  lemma {:induction false} GroupAttendanceSum(gs: seq<SuperLane>, attendance: seq<int>)
    requires IsPartition(gs)
    requires |attendance| == Lanes
    requires forall k :: 0 <= k < |gs| ==>
      IndicesIn(gs[k].members, |attendance|) && gs[k].attendance == SumAt(attendance, gs[k].members)
    ensures TotalAttendance(gs) == SumInt(attendance)
  {
    TotalAttendanceIsSumAt(gs, attendance);
    SumAtRange(attendance);
    SumAtPermutation(attendance, Range(Lanes), Flatten(gs));
  }

  /** Position of the first group, at or after `from`, that lists the lane. */
  function OwnerFrom(gs: seq<SuperLane>, lane: int, from: nat): (k: nat)
    requires from <= |gs|
    requires exists j :: from <= j < |gs| && lane in gs[j].members
    ensures from <= k < |gs| && lane in gs[k].members
    ensures forall j :: from <= j < k ==> lane !in gs[j].members
    decreases |gs| - from
  {
    if lane in gs[from].members then from else OwnerFrom(gs, lane, from + 1)
  }

  /** findSuperLane: scans the groups in order and returns the id of the first one whose
      members include the lane. If none does, the source dereferences an end iterator and
      returns nothing, so coverage is required. */
  function FindSuperLane(gs: seq<SuperLane>, lane: int): (id: int)
    requires Covered(gs, lane)
    ensures exists k :: 0 <= k < |gs| && id == gs[k].id && lane in gs[k].members &&
                        forall j :: 0 <= j < k ==> lane !in gs[j].members
  {
    gs[OwnerFrom(gs, lane, 0)].id
  }

  /** Under a partition with ids equal to positions, findSuperLane returns the position
      of the one group that owns the lane. */
  lemma FindSuperLaneOwner(gs: seq<SuperLane>, lane: int, k: int)
    requires IsPartition(gs) && IdsAreIndices(gs)
    requires 0 <= k < |gs| && lane in gs[k].members
    ensures FindSuperLane(gs, lane) == k
  {
    var j := OwnerFrom(gs, lane, 0);
    PartitionOwnerUnique(gs, j, k, lane);
  }

  /** The worked example of the live configuration: lane attendance 10, 20, 30, 15, 15, 10
      gives group attendances 30, 30, 40, capacities 12, 6, 18 and truncated exponents
      -2, -5, -2 (real division would give -2.5, -5 and about -2.22). */
  lemma LiveExample(exp: int -> real)
    ensures var gs := BuildSuperLanes(NumSuperLanes);
      var r := CalcAll(gs, [10, 20, 30, 15, 15, 10], exp);
      && r.Ok?
      && r.value[0].attendance == 30 && r.value[1].attendance == 30 && r.value[2].attendance == 40
      && GroupExponent(30, 12) == -2 && GroupExponent(30, 6) == -5 && GroupExponent(40, 18) == -2
      && r.value[0].reward == GroupReward(30, 12, exp)
      && r.value[1].reward == GroupReward(30, 6, exp)
      && r.value[2].reward == GroupReward(40, 18, exp)
  {
    var gs := BuildSuperLanes(NumSuperLanes);
    var att := [10, 20, 30, 15, 15, 10];
    LiveConfiguration();
    PartitionMembersInRange(gs);
    var r := CalcAll(gs, att, exp);
    assert CalcAttendReward(gs[0], att, exp) == Ok(r.value[0]);
    assert CalcAttendReward(gs[1], att, exp) == Ok(r.value[1]);
    assert CalcAttendReward(gs[2], att, exp) == Ok(r.value[2]);
  }
}
