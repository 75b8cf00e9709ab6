/** The part of a Q-learning agent that the environment reads and writes. The Q-table,
    exploration and learning rates live in qlearning.h, which is not part of this model. */
module Learner {
  import opened Config

  /** `state` is the lane the agent occupies, `previousState` the lane recorded at the start
      of the step (the key of the next Q-update), `action` the move chosen by the agent. */
  datatype Agent = Agent(id: int, state: int, previousState: int, action: int)

  /** The lanes of the first n agents, in agent order. */
  function States(agents: seq<Agent>, n: nat): (s: seq<int>)
    requires n <= |agents|
    ensures |s| == n
    ensures forall i :: 0 <= i < n ==> s[i] == agents[i].state
  {
    seq(n, i requires 0 <= i < n => agents[i].state)
  }
}
