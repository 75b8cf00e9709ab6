/** The highway: lane attendance and the local, global and difference rewards derived
    from a precomputed payoff table. */
module Environment {
  import opened Config
  import opened Results
  import opened Arith
  import opened Learner

  /** `lookup[x]` is the payoff of a lane holding x agents. The other fields are rebuilt
      every step: attendance per lane, local and difference reward per lane, and the
      global reward (the sum of the local rewards). */
  datatype Highway = Highway(
    lookup: seq<real>,
    attendance: seq<int>,
    laneLocal: seq<real>,
    laneDifference: seq<real>,
    global: real)

  /** Payoff x * exp(-x / capacity) of a lane holding x agents, with the real division
      of the source (x is converted to double first). `exp` is the exponential function,
      which this model leaves uninterpreted. */
  function Payoff(x: int, exp: real -> real): real
  {
    (x as real) * exp(-(x as real) / (Capacity as real))
  }

  /** highway::make_lookup: one payoff per occupancy 0 .. NumAgents. */
  function MakeLookup(h: Highway, exp: real -> real): (r: Highway)
    ensures |r.lookup| == NumAgents + 1
    ensures r.lookup[0] == 0.0
    ensures forall x :: 0 <= x < |r.lookup| ==> r.lookup[x] == Payoff(x, exp)
    ensures r.(lookup := h.lookup) == h
  {
    h.(lookup := seq(NumAgents + 1, x => Payoff(x, exp)))
  }

  /** highway::start: clears the per-step vectors and the global reward. */
  function Start(h: Highway): (r: Highway)
    ensures r.lookup == h.lookup
    ensures r.attendance == [] && r.laneLocal == [] && r.laneDifference == []
    ensures r.global == 0.0
  {
    h.(attendance := [], laneLocal := [], laneDifference := [], global := 0.0)
  }

  /** Nothing of the previous step survives Start: only the payoff table is kept. */
  lemma StartForgetsStep(h1: Highway, h2: Highway)
    requires h1.lookup == h2.lookup
    ensures Start(h1) == Start(h2)
  {
  }

  /** highway::get_attendance: counts the first NumAgents agents per lane. `.at` rejects a
      missing agent or a lane index outside 0 .. Lanes - 1. */
  method GetAttendance(h: Highway, agents: seq<Agent>) returns (r: Result<Highway>)
    ensures r.Ok? <==>
      |agents| >= NumAgents && forall i :: 0 <= i < NumAgents ==> InLane(agents[i].state)
    ensures r.Ok? ==> r.value == h.(attendance := Histogram(States(agents, NumAgents), Lanes))
    ensures r.Ok? ==> |r.value.attendance| == Lanes
    ensures r.Ok? ==> SumInt(r.value.attendance) == NumAgents
  {
    var counts := seq(Lanes, _ => 0);
    var i := 0;
    while i < NumAgents
      invariant 0 <= i <= NumAgents && i <= |agents|
      invariant forall j :: 0 <= j < i ==> InLane(agents[j].state)
      invariant counts == Histogram(States(agents, i), Lanes)
    {
      if i >= |agents| || !InLane(agents[i].state) {
        return Err(OutOfRange);
      }
      var lane := agents[i].state;
      assert States(agents, i + 1) == States(agents, i) + [lane];
      HistogramSnoc(States(agents, i), lane, Lanes);
      counts := counts[lane := counts[lane] + 1];
      i := i + 1;
    }
    HistogramSum(States(agents, NumAgents), Lanes);
    r := Ok(h.(attendance := counts));
  }

  /** Every count a population of NumAgents agents can produce indexes the payoff table. */
  lemma AttendanceFitsLookup(h: Highway, agents: seq<Agent>)
    requires |agents| >= NumAgents
    requires |h.lookup| == NumAgents + 1
    ensures forall l :: 0 <= l < Lanes ==>
      0 <= Histogram(States(agents, NumAgents), Lanes)[l] < |h.lookup|
  {
    forall l | 0 <= l < Lanes
      ensures Histogram(States(agents, NumAgents), Lanes)[l] <= NumAgents
    {
      CountAtMostLength(States(agents, NumAgents), l);
    }
  }

  /** Difference reward of a lane holding `a` agents: its payoff minus the payoff it would
      give with one agent fewer, and 0 for an empty lane. */
  function Difference(lookup: seq<real>, a: int): real
    requires 0 <= a < |lookup|
  {
    if a == 0 then 0.0 else lookup[a] - lookup[a - 1]
  }

  /** highway::evaluate: appends one local and one difference reward per lane and adds
      every local reward to the global reward. `.at` rejects an attendance that does not
      index the payoff table. */
  method Evaluate(h: Highway) returns (r: Result<Highway>)
    ensures r.Ok? <==> forall l :: 0 <= l < |h.attendance| ==> 0 <= h.attendance[l] < |h.lookup|
    ensures r.Ok? ==> r.value.lookup == h.lookup && r.value.attendance == h.attendance
    ensures r.Ok? ==>
      && |r.value.laneLocal| == |h.laneLocal| + |h.attendance|
      && r.value.laneLocal[..|h.laneLocal|] == h.laneLocal
      && forall l :: 0 <= l < |h.attendance| ==>
           r.value.laneLocal[|h.laneLocal| + l] == h.lookup[h.attendance[l]]
    ensures r.Ok? ==>
      && |r.value.laneDifference| == |h.laneDifference| + |h.attendance|
      && r.value.laneDifference[..|h.laneDifference|] == h.laneDifference
      && forall l :: 0 <= l < |h.attendance| ==>
           r.value.laneDifference[|h.laneDifference| + l] == Difference(h.lookup, h.attendance[l])
    ensures r.Ok? ==> r.value.global == h.global + SumReal(r.value.laneLocal[|h.laneLocal|..])
  {
    var local, difference, global := h.laneLocal, h.laneDifference, h.global;
    var lane := 0;
    while lane < |h.attendance|
      invariant 0 <= lane <= |h.attendance|
      invariant forall l :: 0 <= l < lane ==> 0 <= h.attendance[l] < |h.lookup|
      invariant |local| == |h.laneLocal| + lane && local[..|h.laneLocal|] == h.laneLocal
      invariant forall l :: 0 <= l < lane ==> local[|h.laneLocal| + l] == h.lookup[h.attendance[l]]
      invariant |difference| == |h.laneDifference| + lane
      invariant difference[..|h.laneDifference|] == h.laneDifference
      invariant forall l :: 0 <= l < lane ==>
        difference[|h.laneDifference| + l] == Difference(h.lookup, h.attendance[l])
      invariant global == h.global + SumReal(local[|h.laneLocal|..])
    {
      var a := h.attendance[lane];
      if !(0 <= a < |h.lookup|) {
        return Err(OutOfRange);
      }
      SumRealSuffixSnoc(local, |h.laneLocal|, h.lookup[a]);
      local := local + [h.lookup[a]];
      global := global + h.lookup[a];
      if a == 0 {
        difference := difference + [0.0];
      } else {
        difference := difference + [h.lookup[a] - h.lookup[a - 1]];
      }
      lane := lane + 1;
    }
    r := Ok(h.(laneLocal := local, laneDifference := difference, global := global));
  }
}
