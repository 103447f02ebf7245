# MultiAgentEnvRunner, modelled in Dafny

This project models the sampling core of RLlib's `MultiAgentEnvRunner`
(`rllib/env/multi_agent_env_runner.py`). That core is:

- `sample`, with its argument resolution;
- the two collection modes, `_sample_timesteps` and `_sample_episodes`;
- the re-mapping of the module-to-env output `to_env` into per-agent
  `extra_model_outputs`;
- `_increase_sampled_metrics` and the bookkeeping of `get_metrics`;
- `get_state` / `set_state`, with the weights sequence-number gate;
- the `get_weights` / `set_weights` wrappers.

The runner is an immutable value (`RunnerState.Runner`), and every
operation is a pure function from a runner to a result and a new runner.

The environment is an oracle (`Types.Env`). Every `reset` yields the same
observing agents. The k-th `step` since the runner was built yields
outcome `k`: the observing agents in dict order, their rewards, the
elapsed wall-clock time and whether the episode is done. The runner keeps
a cursor into that sequence. Asking for a step past its end fails with
`EnvExhausted`, which stands for an environment that has no further
outcome to give.

Episodes (`Episodes.Episode`) keep what the runner and `get_metrics`
read:

- an id;
- the env-step clock at which the chunk starts;
- the chunk's step count and duration;
- one sub-record per agent, with its module, step count and return;
- the done flag.

The metrics logger is an append-only log (`Metrics.Log`). `Peek` gives a
summing counter's value. A counter logged with `clear_on_reduce` restarts
at zero after a reduce, and `set_value` overwrites.

Callbacks, env calls, connector passes and forward passes are recorded as
events of an append-only trace (`Trace.Trace`). `TraceOk` states the
ordering the source guarantees between them. `Resets` and `Passes` count
env resets and env-to-module passes.

The two loops are recursive functions (`TimestepLoop.Loop`,
`EpisodeLoop.Run`) over a `Walk`. A walk is the part of the runner that a
loop changes. Each property of a loop is proved once for one iteration and
then by induction over the loop.

Every loop lemma takes the loop's result as parameters
(`requires Loop(...) == Ok((w', ds))`).

## Model

| member | source | states |
|---|---|---|
| Sampling.Resolve | rllib/env/multi_agent_env_runner.py:142-154 | Both counts together are refused. A missing `explore` comes from the config. With neither count, `truncate_episodes` asks for one rollout fragment of timesteps, and any other batch mode asks for one episode. A given count always wins. |
| Sampling.SampleDispatch | rllib/env/multi_agent_env_runner.py:156-179 | `sample` succeeds iff the arguments resolve and the chosen mode succeeds. It returns that mode's episodes and state, with exactly one `on_sample_end` recorded last. |
| Sampling.ForceResetIgnoredForEpisodes | rllib/env/multi_agent_env_runner.py:164-170 | In episode mode, flipping `force_reset` changes nothing. |
| Sampling.ExploreDefaultsToConfig | rllib/env/multi_agent_env_runner.py:146-147 | Leaving `explore` out equals passing the configured value. |
| Sampling.CountsDefaultToBatchMode | rllib/env/multi_agent_env_runner.py:148-154 | Leaving both counts out equals passing the fragment length (in `truncate_episodes` mode) or one episode (otherwise). |
| Sampling.SampleValid | rllib/env/multi_agent_env_runner.py:109-179 | A successful `sample` from a valid runner leaves a valid runner. |
| Sampling.EpisodesThenTimestepsResets | rllib/env/multi_agent_env_runner.py:414-416 | After an episode-mode call, the next timestep-mode call resets, whatever its `force_reset`. |
| RunnerState.Init | rllib/env/multi_agent_env_runner.py:72-106 | A new runner has a reset pending, nothing cached, an empty queue, registry and trace, every counter at zero, and sequence number 0. |
| RunnerState.InitValid | rllib/env/multi_agent_env_runner.py:72-106 | A new runner satisfies the runner invariant. |
| Stepping.IncreaseSampledMetricsCounts | rllib/env/multi_agent_env_runner.py:855-884 | Every counter grows by what the step is meant to add. The env-step counters grow by `num_steps`. An agent's two counters grow by one iff the agent observed. A module's two counters grow by the number of observing agents it controls. Nothing else moves. |
| Stepping.WindowAddedFacts | rllib/env/multi_agent_env_runner.py:855-884 | Over a stretch of env steps, the env-step counters grow by its length, an agent's counters grow by the steps in which it observed, and the episode counter does not move. |
| Stepping.Advance | rllib/env/multi_agent_env_runner.py:237-301 | One step fails without a module when actions are not random, and fails past the end of the environment. Otherwise it consumes exactly one env step and advances by `num_envs`. |
| Stepping.ActFacts | rllib/env/multi_agent_env_runner.py:239-286 | Computing actions consumes the cached env-to-module output. It makes one env-to-module pass unless the actions are random or the output was cached. It touches nothing else. |
| Stepping.RecordFacts | rllib/env/multi_agent_env_runner.py:298-327 | An env step adds one step to the episode and one to each observing agent. It logs exactly the step's counts, and fires `on_episode_step` right after the env step. |
| Stepping.WrapUpFacts | rllib/env/multi_agent_env_runner.py:331-354 | A done episode gets the terminal env-to-module pass (only with a module), then `on_episode_end`, then is finalized. Exactly that id becomes finalized as done. |
| Stepping.RestartFacts | rllib/env/multi_agent_env_runner.py:356-366 | A restart creates a fresh episode under the next id. It resets the env once, records no step and finalizes nothing. |
| TimestepLoop.TimestepStep | rllib/env/multi_agent_env_runner.py:237-366 | An iteration succeeds iff actions can be computed and the env has a step to give. It then advances the cursor by one and `ts` by `num_envs`. |
| TimestepLoop.StepDone | rllib/env/multi_agent_env_runner.py:331-366 | An iteration completes an episode iff the step says done. The completed episode is the one being collected, finalized as done and well formed, and a fresh episode under a larger id replaces it. |
| TimestepLoop.StepEvents | rllib/env/multi_agent_env_runner.py:258-366 | One env reset per completed episode. One env-to-module pass for the actions unless they are random or cached. One terminal pass per completed episode when there is a module. |
| TimestepLoop.LoopOk | rllib/env/multi_agent_env_runner.py:235-301 | The loop succeeds iff no step is wanted, or actions can be computed and the env has `target - ts` more steps to give. On success it consumes exactly that many. |
| TimestepLoop.LoopCache | rllib/env/multi_agent_env_runner.py:258-266 | A cached env-to-module output survives the loop only if no action was computed by the module. |
| TimestepLoop.LoopInv | rllib/env/multi_agent_env_runner.py:329-366 | The loop keeps the walk invariant. The returned episodes are exactly those finalized as done during the loop. Each is done, well formed and below the ongoing episode's id. |
| TimestepLoop.LoopIds | rllib/env/multi_agent_env_runner.py:354 | Completed episodes are returned in increasing id order. |
| TimestepLoop.LoopLog | rllib/env/multi_agent_env_runner.py:301 | Every counter grows by what the consumed env steps are meant to add. |
| TimestepLoop.LoopLen | rllib/env/multi_agent_env_runner.py:315-363 | Every consumed env step is recorded exactly once, in a returned episode or in the episode still being collected. |
| TimestepLoop.LoopAgentSteps | rllib/env/multi_agent_env_runner.py:315-363 | For every agent, the steps it observed in are recorded exactly once for it. |
| TimestepLoop.LoopDoneCount | rllib/env/multi_agent_env_runner.py:331-354 | The loop returns one episode per done env step it consumed. |
| TimestepLoop.LoopEvents | rllib/env/multi_agent_env_runner.py:258-366 | One env reset per returned episode. One env-to-module pass per step whose actions are not random, less one when a cached output is consumed, plus one terminal pass per returned episode when there is a module. |
| TimestepSampling.StartWalkFacts | rllib/env/multi_agent_env_runner.py:204-232 | Behind the reset gate, the loop starts from a fresh, reset episode under a new id with nothing cached. Otherwise it starts from the runner's own episode and cache. |
| TimestepSampling.SampleTimestepsOk | rllib/env/multi_agent_env_runner.py:181-376 | The call fails iff a step is wanted and either no module can act or the env runs out. Otherwise it takes exactly `n` steps, clears the reset flag, and caches an env-to-module output iff there is a module. |
| TimestepSampling.SampleTimestepsValid | rllib/env/multi_agent_env_runner.py:181-402 | `_sample_timesteps` keeps the runner invariant. |
| TimestepSampling.SampleTimestepsQueue | rllib/env/multi_agent_env_runner.py:354-379 | The completed episodes are appended to the done queue in id order. There is one per done env step. Each is done, well formed and finalized during this call, never before. |
| TimestepSampling.SampleTimestepsReturns | rllib/env/multi_agent_env_runner.py:383-402 | The call returns the completed episodes and then at most one ongoing chunk. The chunk is present iff the episode's `env_t` is positive at the cut. The chunk is not done, carries the continuation's id, and alone is appended to the registry. |
| TimestepSampling.SampleTimestepsLog | rllib/env/multi_agent_env_runner.py:301 | Each counter grows by what the `n` consumed steps are meant to add. |
| TimestepSampling.SampleTimestepsSteps | rllib/env/multi_agent_env_runner.py:301-323 | The returned episodes hold exactly `n` steps. For every agent, they hold exactly the steps in which it observed. |
| TimestepSampling.SampleTimestepsEvents | rllib/env/multi_agent_env_runner.py:204-376 | Env resets are one per completed episode plus one at the gate. Env-to-module passes are one per module-driven step (less one saved by a cache), one per completed episode and one look-ahead when there is a module. |
| TimestepSampling.ResetForgetsQueuedChunks | rllib/env/multi_agent_env_runner.py:205-213 | A forced reset drops the registered chunks of every episode still waiting in the done queue. |
| TimestepSampling.ZeroStepsReturnEmptyChunk | rllib/env/multi_agent_env_runner.py:387-396 | The chunk guard reads the episode's total clock. A zero-step call on an episode that already returned a chunk returns and registers an empty chunk. |
| TimestepSampling.ConcludeFacts | rllib/env/multi_agent_env_runner.py:368-399 | After the loop: one look-ahead pass, cached, iff there is a module. The continuation is a live, empty chunk of the same episode starting at its clock. No reset is made and no done episode is finalized. |
| TimestepSampling.ConcludeOut | rllib/env/multi_agent_env_runner.py:383-402 | The cut chunk is finalized, registered and returned iff the episode's clock is positive. |
| EpisodeLoop.Stride | rllib/env/multi_agent_env_runner.py:437-561 | An iteration succeeds iff actions can be computed and the env has a step. It completes an episode iff that step is done. |
| EpisodeLoop.StrideFacts | rllib/env/multi_agent_env_runner.py:437-561 | The completed episode is the one being collected, finalized as done after `on_episode_end`. Otherwise the walk invariant holds again. |
| EpisodeLoop.StrideCounts | rllib/env/multi_agent_env_runner.py:458-561 | One iteration's env-to-module passes and counter additions, and the step recorded for the chunk and for every observing agent. |
| EpisodeLoop.IterateFacts | rllib/env/multi_agent_env_runner.py:534-578 | A fresh episode follows a completed one unless it was the last one wanted (the `break`). |
| EpisodeLoop.RunOk | rllib/env/multi_agent_env_runner.py:435-498 | The loop succeeds iff no episode is wanted, or actions can be computed and the env holds enough further episode ends. |
| EpisodeLoop.RunStops | rllib/env/multi_agent_env_runner.py:534-566 | The loop stops right after the step that ends the last wanted episode, having consumed exactly `target - eps` episode ends. |
| EpisodeLoop.RunInv | rllib/env/multi_agent_env_runner.py:534-578 | The loop keeps the walk invariant and returns exactly `target - eps` episodes. They are exactly those finalized as done during it, each done and well formed. |
| EpisodeLoop.RunIds | rllib/env/multi_agent_env_runner.py:559-561 | Episodes are returned in increasing id order. |
| EpisodeLoop.RunLog | rllib/env/multi_agent_env_runner.py:498 | Every counter grows by what the consumed env steps are meant to add. |
| EpisodeLoop.RunSteps | rllib/env/multi_agent_env_runner.py:512-561 | Every consumed env step is in exactly one returned episode. |
| EpisodeLoop.RunAgentSteps | rllib/env/multi_agent_env_runner.py:512-561 | For every agent, the steps it observed in are recorded exactly once for it. |
| EpisodeLoop.RunEvents | rllib/env/multi_agent_env_runner.py:458-578 | One env reset per returned episode but the last. One env-to-module pass per module-driven step. One terminal pass per returned episode when there is a module. |
| EpisodeSampling.FirstWalkFacts | rllib/env/multi_agent_env_runner.py:418-432 | The call starts from a fresh, reset episode under a new id, never with a cached output. |
| EpisodeSampling.SampleEpisodesOk | rllib/env/multi_agent_env_runner.py:404-582 | The call fails iff episodes are wanted and either no module can act or the env holds fewer than `n` more episode ends. Otherwise it returns exactly `n` episodes and stops right after the last one ends. It marks the runner for a reset and leaves the runner's own episode, cache and registry alone. |
| EpisodeSampling.SampleEpisodesValid | rllib/env/multi_agent_env_runner.py:404-582 | `_sample_episodes` keeps the runner invariant. |
| EpisodeSampling.SampleEpisodesQueue | rllib/env/multi_agent_env_runner.py:559-580 | The returned episodes are appended to the done queue as they are. They are in id order, each done, well formed, and finalized during this call only. |
| EpisodeSampling.SampleEpisodesLog | rllib/env/multi_agent_env_runner.py:498 | Each counter grows by what the consumed steps are meant to add. |
| EpisodeSampling.SampleEpisodesSteps | rllib/env/multi_agent_env_runner.py:512-561 | The returned episodes hold exactly the consumed steps, each once. For every agent, they hold exactly the steps in which it observed. |
| EpisodeSampling.SampleEpisodesEvents | rllib/env/multi_agent_env_runner.py:420-578 | There is one env reset per returned episode, and one even when none is wanted. Passes are one per module-driven step plus one per returned episode when there is a module. |
| ToEnvTranspose.WriteColumn | rllib/env/multi_agent_env_runner.py:310-311 | The inner loop writes every agent of the column's dict under that column, and changes nothing else. |
| ToEnvTranspose.Transpose | rllib/env/multi_agent_env_runner.py:306-312 | It fails iff some column has no per-env entry. Otherwise it yields the reference transpose. |
| ToEnvTranspose.TransposedFacts | rllib/env/multi_agent_env_runner.py:306-312 | An agent has an entry iff it has a value in some column. The entry holds exactly the columns it has a value in, with those values. |
| ToEnvTranspose.TransposeRoundTrip | rllib/env/multi_agent_env_runner.py:306-312 | Transposing undoes the way back for every output without empty entries. |
| ToEnvTranspose.UntransposeRecovers | rllib/env/multi_agent_env_runner.py:306-312 | The way back recovers `to_env` except for columns whose per-agent dict is empty. |
| ToEnvTranspose.ColumnOfTransposed | rllib/env/multi_agent_env_runner.py:503-509 | A column of the transpose is that column's first per-env dict. |
| ToEnvTranspose.ColumnsOfTransposed | rllib/env/multi_agent_env_runner.py:503-509 | A column survives the transpose iff its per-agent dict is not empty. |
| EpisodeMetrics.LogQueueStats | rllib/env/multi_agent_env_runner.py:586-634 | When the queued ids are distinct, the loop over the done queue logs, in queue order, exactly the statistics of each queued episode with its registered chunks. This holds for the source's per-module returns and for the corrected ones. |
| EpisodeMetrics.LogQueueRegistry | rllib/env/multi_agent_env_runner.py:612-625 | The loop deletes from the registry exactly the queued ids. |
| EpisodeMetrics.LogQueuePeek | rllib/env/multi_agent_env_runner.py:586-634 | Logging episode statistics adds to no counter. |
| EpisodeMetrics.GetMetricsFacts | rllib/env/multi_agent_env_runner.py:584-648 | `get_metrics` (the source's version, and the corrected one alike) logs every queued episode's statistics in order. It empties the queue and drops exactly the queued ids' registry entries. It adds the queue length to the episode counter just before the reduce. The reduce zeroes the clear-on-reduce counters and keeps the lifetime ones. |
| EpisodeMetrics.GetMetricsValid | rllib/env/multi_agent_env_runner.py:584-648 | `get_metrics` keeps the runner invariant. |
| EpisodeMetrics.GetMetricsDrains | rllib/env/multi_agent_env_runner.py:637-645 | A second call right after the first logs no episode and counts none. |
| EpisodeMetrics.AgentKeys | rllib/env/multi_agent_env_runner.py:589-592 | An agent has a step-count entry iff it has a sub-record in the episode or in one of its chunks. |
| EpisodeMetrics.SharedModuleReturnLost | rllib/env/multi_agent_env_runner.py:603-609 | As written, two agents on one module with returns 1 and 2 give that module 2, not 3, so the module returns no longer add up to the episode return of 3. |
| EpisodeMetrics.AsWrittenAgreesUnshared | rllib/env/multi_agent_env_runner.py:603-609 | As written and corrected statistics agree whenever no two agents of the done episode share a module. |
| EpisodeMetrics.StatsListAgreeUnshared | rllib/env/multi_agent_env_runner.py:586-623 | `get_metrics` logs the same statistics as written and corrected when no queued episode has two agents on one module. |
| EpisodeMetrics.ModuleReturnsConserve | rllib/env/multi_agent_env_runner.py:586-623 | Corrected half: every sub-record's return is counted for exactly one module. There is one entry per module in use, and the entries add up to the episode's return. |
| StateSync.GetStateFacts | rllib/env/multi_agent_env_runner.py:651-678 | `get_state` fails only when asked for weights without a module. Otherwise it exports exactly the components asked for (all three by default), always with the sequence number and the lifetime counter. |
| StateSync.SetStateGate | rllib/env/multi_agent_env_runner.py:688-703 | Weights are taken over iff they come numbered 0 or higher than held, which needs a module. Whenever weights come with a positive number, the runner reports that number afterwards, taken over or not. Otherwise the number stays. |
| StateSync.SetStateCorrectedGate | rllib/env/multi_agent_env_runner.py:688-703 | Corrected half: the same weights gate, but the number never goes down. It changes exactly when positively numbered weights are taken over, and then to that number. |
| StateSync.SetStateVersionsAgree | rllib/env/multi_agent_env_runner.py:688-703 | The source's import and the corrected one fail alike and differ at most in the sequence number. |
| StateSync.SetStateFrame | rllib/env/multi_agent_env_runner.py:681-685 | `set_state` changes only the weights, the number, the logger and the connector states. Each connector state is replaced iff the state carries it. |
| StateSync.SetStateLog | rllib/env/multi_agent_env_runner.py:705-710 | The lifetime env-step counter becomes the incoming value when there is one. No other counter moves. |
| StateSync.StaleWeightsIgnored | rllib/env/multi_agent_env_runner.py:695-703 | Weights numbered no higher than held are ignored, even without a module, but their number replaces the one held. |
| StateSync.SetStateValid | rllib/env/multi_agent_env_runner.py:681-710 | `set_state` keeps the runner invariant. |
| StateSync.RestoreOwnState | rllib/env/multi_agent_env_runner.py:651-710 | Importing a runner's own full state gives back the same runner, up to a logger entry that changes no counter. |
| StateSync.TransferState | rllib/env/multi_agent_env_runner.py:651-710 | Moving a full state between runners always carries the connectors and the lifetime counter. The weights come along when the gate lets them through. A positive number always comes along, even when the target keeps its own newer weights. |
| StateSync.GetWeightsFacts | rllib/env/multi_agent_env_runner.py:939-940 | `get_weights` returns the held weights, and fails without a module. |
| StateSync.WeightsRoundTrip | rllib/env/multi_agent_env_runner.py:939-955 | `set_weights` followed by `get_weights` returns the weights set, whenever the number lets them through. |
| StateSync.SetWeightsOnlyWeights | rllib/env/multi_agent_env_runner.py:943-955 | `set_weights` touches only the weights and their number. |
| StateSync.LastNumberWins | rllib/env/multi_agent_env_runner.py:688-703 | As written, after any series of positively numbered updates the runner reports the last update's number, whatever came before. It holds its own weights or those of one of the updates. |
| StateSync.LatestWeightsWin | rllib/env/multi_agent_env_runner.py:688-703 | Corrected half: after any series of positively numbered updates, the runner holds the highest number seen and the weights sent with it, or its own when nothing newer came. |
| StateSync.StaleSeqNoRegresses | rllib/env/multi_agent_env_runner.py:701-702 | As written, a stale update lowers the number, so a later, still older update is taken over. |

## Left out

- Environment creation, `make_env`, `stop`, `assert_healthy`, `_make_module` and `_convert_to_tensor`: setup and teardown around the modelled logic. A runner simply has or lacks a module.
- The internals of `MultiAgentEpisode`: only what the runner and `get_metrics` read is modelled (ids, clocks, lengths, returns, durations, per-agent sub-records with their modules, the done flag). Observation, action and info payloads are left out, and so is the lookback buffer of `cut`.
- The reduction engine of `MetricsLogger`: windows, means and minima/maxima, and the result dict `reduce()` returns. What is modelled is which summing counters are logged, set and cleared on a reduce.
- Floating-point returns and durations: integers are used.
- Random action sampling and the action values themselves: the model records that actions were sampled, and which forward pass ran.
- The `t` argument of `forward_exploration` (the lifetime step count plus the current one): it only feeds the module.
- Connector and module internals: a connector pass is an event. The cached env-to-module output is `Pass(episode)`, and connector state does not influence it.
- Callbacks: they are trace events in the order the source fires them. User code in them is not modelled. The episode record is not part of an event: on the forced-reset path `on_episode_start` (line 221) fires before the reset observations are added (line 228), and the model does not show what the callback would see.
- EpisodeLoop.Run with random actions: in `_sample_episodes` the random `to_env[ACTIONS]` is a plain dict keyed by agent id (lines 447-453), not a one-element list as in `_sample_timesteps`. So `actions_for_env[0]` (line 496) and `actions[0]` (line 514) raise `KeyError` unless an agent is named 0. The model lets such a step succeed as in `_sample_timesteps`, and does not model that failure.
- The to_env transpose is modelled on its own (`ToEnvTranspose`), generic in the value type. The sampling loops do not carry `extra_model_outputs`.
- A falsy cached env-to-module output: the source's `or` would recompute it. Here a cached output is always used.
- An exception anywhere in a call leaves the runner as it was; the source may leave partial changes behind.
- `get_state`'s `inference_only` and `module_ids`, and `set_weights`' `global_vars` (asserted to be `None`): they do not affect the modelled state.
- Agent and module ids are abstract types with equality only; the source's `str(aid)` conversions are identities here.
- Config.mapping: the policy mapping function also receives the episode, and each `MultiAgentEpisode` keeps its own agent-to-module binding (line 841), so a binding may differ between episodes. The model uses one fixed function of the agent id for every episode.
- Episodes.AddStep: an agent first seen in a step gets a sub-record of length 1 holding that step's reward. An agent seen at the reset starts at length 0. How `MultiAgentEpisode` counts a late-joining agent's first observation is not part of this model.
- Sampling.Request: the requested counts are `nat`. The source also accepts negative counts, which act like 0 because the sampling loops do not run.
- Episode ids are drawn from a counter, standing for the unique ids new episodes receive.
- TimestepLoop.LoopOk: the env is a finite oracle, so "runs out of steps" stands for an environment the source would block on or fail in.

## Findings

| source | as written | input that shows it | evidently intended | confidence | as-written member | corrected member |
|---|---|---|---|---|---|---|
| rllib/env/multi_agent_env_runner.py:603-609 | The done episode's per-module returns are built by a dict comprehension keyed by module id, so when two agents share a module only the last agent's return is kept. Earlier chunks' returns are summed for every agent (line 623). | A done episode with agents `a` and `b`, both mapped to module `m`, with returns 1 and 2: module `m` gets 2. | The sum over all agents the module controls, 3, as for the earlier chunks. | not executed | EpisodeMetrics.SharedModuleReturnLost | EpisodeMetrics.ModuleReturnsConserve |
| rllib/env/multi_agent_env_runner.py:695-702 | The sequence number is overwritten by any positive incoming number, even when the weights were rejected as stale. | A runner at number 5 is sent weights numbered 3, then weights numbered 4. It ends holding the number-4 weights, which are older than its own. | The number moves only with the weights it describes, so stale updates change nothing. | low (line 700 calls the overwrite deliberate); not executed | StateSync.StaleSeqNoRegresses | StateSync.LatestWeightsWin |

The runner's own operations follow the source: `EpisodeMetrics.GetMetrics`
uses `EpisodeMetrics.StatsAsWritten`, and `StateSync.SetState` and
`StateSync.SetWeights` move the number as the source does.
`EpisodeMetrics.GetMetricsCorrected` (with `EpisodeMetrics.StatsOf`) and
`StateSync.SetStateCorrected` are the corrected definitions. The facts about
`get_metrics` are proved for both versions.

Two places where the code differs from its documentation:

- `set_state` overwrites the lifetime env-step counter with `set_value`,
  rather than adding to it. The model follows the code.
- The guard for returning the ongoing chunk is `env_t > 0`, the episode's
  total clock, not the chunk's own length. The model follows the code
  (`TimestepSampling.ZeroStepsReturnEmptyChunk`).

One observation that is not a finding: a forced reset clears the registry,
including entries of episodes already done and still queued
(`TimestepSampling.ResetForgetsQueuedChunks`).
