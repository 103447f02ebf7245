/** The metrics sink as an append-only log. The logger's reduction engine
    (windows, means, min/max) is not modelled; what is modelled is the
    semantics of the summing counters the runner logs: a counter logged
    with `clear_on_reduce=True` restarts at zero after every `reduce()`,
    a lifetime counter never does, and `set_value` overwrites. */
module Metrics {
  import opened Types

  datatype Key =
    | EnvStepsSampled                             // NUM_ENV_STEPS_SAMPLED
    | EnvStepsSampledLifetime                     // NUM_ENV_STEPS_SAMPLED_LIFETIME
    | AgentStepsSampled(agent: AgentId)           // (NUM_AGENT_STEPS_SAMPLED, aid)
    | AgentStepsSampledLifetime(agent: AgentId)   // (NUM_AGENT_STEPS_SAMPLED_LIFETIME, aid)
    | ModuleStepsSampled(moduleId: ModuleId)      // (NUM_MODULE_STEPS_SAMPLED, mid)
    | ModuleStepsSampledLifetime(moduleId: ModuleId)
    | NumEpisodes                                 // NUM_EPISODES

  /** The keys the runner logs with `clear_on_reduce=True`. */
  predicate ClearOnReduce(k: Key) {
    k.EnvStepsSampled? || k.AgentStepsSampled? || k.ModuleStepsSampled? || k.NumEpisodes?
  }

  /** What `_log_episode_metrics` receives for one completed episode. */
  datatype EpisodeStats = EpisodeStats(
    length: int,
    ret: int,
    duration: int,
    agentReturns: map<AgentId, int>,
    moduleReturns: map<ModuleId, int>,
    agentSteps: map<AgentId, int>)

  datatype LogEntry =
    | LogValue(key: Key, value: int)   // log_value(key, value, reduce="sum")
    | SetValue(key: Key, value: int)   // set_value(key, value, reduce="sum")
    | LogEpisode(stats: EpisodeStats)  // the windowed per-episode statistics
    | Reduce                           // reduce(), as `get_metrics` ends with

  type Log = History<LogEntry>

  /** `peek(key, default=0)` of a summing counter. */
  function Peek(log: Log, k: Key): int {
    match log
    case Start => 0
    case Then(before, entry) =>
      match entry
      case LogValue(k', v) => if k' == k then Peek(before, k) + v else Peek(before, k)
      case SetValue(k', v) => if k' == k then v else Peek(before, k)
      case LogEpisode(_) => Peek(before, k)
      case Reduce => if ClearOnReduce(k) then 0 else Peek(before, k)
  }
}
