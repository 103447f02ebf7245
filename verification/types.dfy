/** Shared vocabulary of the multi-agent env-runner model: identifiers, the
    failure-compatible wrappers, the environment oracle and the runner's
    configuration. */
module Types {

  /** The conventional Some/None wrapper (Python's `Optional`). */
  datatype Option<+T> = None | Some(value: T)

  /** Why a call into the runner did not produce a result. */
  datatype Error =
    | BothCountsGiven   // `sample` got both `num_timesteps` and `num_episodes`
    | EnvExhausted      // the environment oracle has no further step outcome
    | NoModule          // a module-driven step on a runner without an RL module
    | EmptyColumn       // a `to_env` column holding no per-environment entry

  datatype Result<+T> = Ok(value: T) | Err(error: Error)

  /** An append-only record, the newest item outermost. */
  datatype History<+T> = Start | Then(before: History<T>, last: T)

  /** Agent and module ids are any hashable values in the source; only
      their equality matters here. */
  type AgentId(==, !new)
  type ModuleId(==, !new)
  type Column = string

  /** Episode ids are handed out by the runner from a counter, which stands
      for the fresh unique id every new episode receives. */
  type EpisodeId = nat

  /** An opaque piece of exported state (weights, connector state). */
  type Blob = seq<int>

  /** What the environment answers to one `step` call: the agents that
      observed (in dict order), their rewards, the wall-clock time the step
      took, and whether the episode is now done for all agents. */
  datatype StepOutcome = StepOutcome(
    obs: seq<AgentId>,
    rewards: map<AgentId, int>,
    elapsed: nat,
    done: bool)

  /** The environment as an oracle: every `reset` yields observations for
      `resetObs`; the k-th `step` since the runner was built yields `steps[k]`. */
  datatype Env = Env(resetObs: seq<AgentId>, steps: seq<StepOutcome>)

  /** No element occurs twice. */
  predicate Distinct<T(==)>(s: seq<T>) {
    |s| == 0 || (s[0] !in s[1..] && Distinct(s[1..]))
  }

  lemma DistinctTail<T>(s: seq<T>)
    requires Distinct(s) && |s| > 0
    ensures Distinct(s[1..]) && s[0] !in s[1..]
  {
  }

  /** Every step's observing agents are distinct, stated step by step. */
  predicate DistinctObs(steps: seq<StepOutcome>) {
    |steps| == 0 || (Distinct(steps[0].obs) && DistinctObs(steps[1..]))
  }

  lemma {:induction false} DistinctObsAt(steps: seq<StepOutcome>, i: nat)
    requires DistinctObs(steps) && i < |steps|
    decreases i
    ensures Distinct(steps[i].obs)
  {
    if i > 0 {
      DistinctObsAt(steps[1..], i - 1);
      assert steps[1..][i - 1] == steps[i];
    }
  }

  /** Observations are dicts keyed by agent id, so no agent appears twice. */
  predicate WellFormedEnv(env: Env) {
    Distinct(env.resetObs) && DistinctObs(env.steps)
  }

  datatype BatchMode = TruncateEpisodes | CompleteEpisodes

  /** The settings the runner reads from its `AlgorithmConfig`. */
  datatype Config = Config(
    explore: bool,
    batchMode: BatchMode,
    rolloutFragmentLength: nat,
    mapping: AgentId -> ModuleId)  // the policy mapping function

  /** `make_env` always builds exactly one (non-vectorized) environment. */
  const NumEnvs: nat := 1
}
