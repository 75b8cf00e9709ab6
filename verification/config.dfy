/** Compile-time parameters of the Beach Problem Domain experiment (the #defines of main.cpp). */
module Config {
  /** Agents in the population. */
  const NumAgents: nat := 100
  /** Lanes (resources) an agent can occupy; lane indices are 0 .. Lanes - 1. */
  const Lanes: nat := 6
  /** Per-lane capacity: the occupancy at which a lane's payoff peaks. */
  const Capacity: nat := 6
  /** Actions 0, 1, 2 move an agent one lane down, nowhere, one lane up. */
  const Actions: nat := 3
  /** Groups of lanes ("superlanes") used by resource abstraction. */
  const NumSuperLanes: nat := 3

  predicate InLane(l: int) {
    0 <= l < Lanes
  }
}
