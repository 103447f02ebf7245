/** `sample`: resolving what to collect from the call's arguments and the
    configuration, running one of the two collection modes, and the
    `on_sample_end` callback. */
module Sampling {
  import opened Types
  import opened Episodes
  import opened Trace
  import opened RunnerState
  import opened TimestepSampling
  import opened EpisodeSampling

  /** The keyword arguments of `sample`; `None` stands for an argument left
      at its default `None`. */
  datatype Request = Request(
    numTimesteps: Option<nat>,
    numEpisodes: Option<nat>,
    explore: Option<bool>,
    random: bool,
    forceReset: bool)

  /** The collection mode a call resolves to. */
  datatype Plan = Timesteps(n: nat) | Episodes(n: nat)

  /** The argument resolution: both counts together are refused; the
      missing exploration flag comes from the configuration; with neither
      count, the batch mode decides between one rollout fragment of
      timesteps and a single episode. A given count always wins. */
  function Resolve(cfg: Config, req: Request): (r: Result<(Plan, bool)>)
    ensures r.Err? <==> req.numTimesteps.Some? && req.numEpisodes.Some?
    ensures r.Err? ==> r.error == BothCountsGiven
    ensures r.Ok? ==> r.value.1 == (if req.explore.Some? then req.explore.value else cfg.explore)
    ensures r.Ok? && req.numTimesteps.Some? ==> r.value.0 == Timesteps(req.numTimesteps.value)
    ensures r.Ok? && req.numEpisodes.Some? ==> r.value.0 == Episodes(req.numEpisodes.value)
    ensures r.Ok? && req.numTimesteps.None? && req.numEpisodes.None? ==>
              r.value.0 == (if cfg.batchMode == TruncateEpisodes then Timesteps(cfg.rolloutFragmentLength) else Episodes(1))
  {
    if req.numTimesteps.Some? && req.numEpisodes.Some? then Err(BothCountsGiven)
    else
      var explore := if req.explore.Some? then req.explore.value else cfg.explore;
      var plan :=
        if req.numTimesteps.Some? then Timesteps(req.numTimesteps.value)
        else if req.numEpisodes.Some? then Episodes(req.numEpisodes.value)
        else if cfg.batchMode == TruncateEpisodes then Timesteps(cfg.rolloutFragmentLength)
        else Episodes(1);
      Ok((plan, explore))
  }

  /** The collection mode the plan names; `force_reset` only reaches the
      timestep mode. */
  function Collect(cfg: Config, s: Runner, plan: Plan, explore: bool, random: bool, forceReset: bool)
    : Result<(Runner, seq<Episode>)>
  {
    match plan
    case Timesteps(n) => SampleTimesteps(cfg, s, n, explore, random, forceReset)
    case Episodes(n) => SampleEpisodes(cfg, s, n, explore, random)
  }

  function Sample(cfg: Config, s: Runner, req: Request): Result<(Runner, seq<Episode>)> {
    match Resolve(cfg, req)
    case Err(e) => Err(e)
    case Ok((plan, explore)) =>
      match Collect(cfg, s, plan, explore, req.random, req.forceReset)
      case Err(e) => Err(e)
      case Ok((s', out)) => Ok((s'.(trace := Then(s'.trace, SampleEnd)), out))
  }

  // ---------------------------------------------------------------------

  /** A call succeeds iff its arguments resolve and the chosen mode
      succeeds; it returns that mode's samples and state, with exactly one
      `on_sample_end` callback recorded after everything the mode did. */
  lemma SampleDispatch(cfg: Config, s: Runner, req: Request)
    ensures var r := Sample(cfg, s, req);
      && (r.Ok? <==> Resolve(cfg, req).Ok? && var (plan, explore) := Resolve(cfg, req).value;
                     Collect(cfg, s, plan, explore, req.random, req.forceReset).Ok?)
      && (r.Ok? ==> var (plan, explore) := Resolve(cfg, req).value;
            var (s1, out1) := Collect(cfg, s, plan, explore, req.random, req.forceReset).value;
            && r.value.1 == out1
            && r.value.0.trace == Then(s1.trace, SampleEnd)
            && r.value.0.(trace := s1.trace) == s1)
      && (r.Err? && Resolve(cfg, req).Err? ==> r.error == BothCountsGiven)
  {
  }

  /** The callback at the end changes nothing the invariant speaks of: a
      call that succeeds from a valid runner leaves a valid runner. */
  lemma SampleValid(cfg: Config, s: Runner, req: Request)
    requires Valid(cfg, s)
    requires Sample(cfg, s, req).Ok?
    ensures Valid(cfg, Sample(cfg, s, req).value.0)
  {
    var (plan, explore) := Resolve(cfg, req).value;
    var s1 := Collect(cfg, s, plan, explore, req.random, req.forceReset).value.0;
    match plan {
      case Timesteps(n) => SampleTimestepsValid(cfg, s, n, explore, req.random, req.forceReset);
      case Episodes(n) => SampleEpisodesValid(cfg, s, n, explore, req.random);
    }
    var tr := Then(s1.trace, SampleEnd);
    Recorded(s1.trace, SampleEnd);
    QueueGrow(cfg.mapping, s1.doneQueue, s1.trace, tr);
  }

  /** In episode mode `force_reset` has no effect. */
  lemma ForceResetIgnoredForEpisodes(cfg: Config, s: Runner, req: Request)
    requires Resolve(cfg, req).Ok? && Resolve(cfg, req).value.0.Episodes?
    ensures Sample(cfg, s, req) == Sample(cfg, s, req.(forceReset := !req.forceReset))
  {
  }

  /** Leaving `explore` out is the same as passing the configured value. */
  lemma ExploreDefaultsToConfig(cfg: Config, s: Runner, req: Request)
    requires req.explore.None?
    ensures Sample(cfg, s, req) == Sample(cfg, s, req.(explore := Some(cfg.explore)))
  {
  }

  /** Leaving both counts out is the same as asking for one rollout
      fragment of timesteps in `truncate_episodes` mode, and for one
      episode otherwise. */
  lemma CountsDefaultToBatchMode(cfg: Config, s: Runner, req: Request)
    requires req.numTimesteps.None? && req.numEpisodes.None?
    ensures cfg.batchMode == TruncateEpisodes ==>
              Sample(cfg, s, req) == Sample(cfg, s, req.(numTimesteps := Some(cfg.rolloutFragmentLength)))
    ensures cfg.batchMode != TruncateEpisodes ==>
              Sample(cfg, s, req) == Sample(cfg, s, req.(numEpisodes := Some(1)))
  {
  }

  /** After an episode-mode call, the next timestep-mode call starts with
      a reset, whatever its `force_reset`. */
  lemma EpisodesThenTimestepsResets(cfg: Config, s: Runner, n: nat, explore: bool, random: bool, forceReset: bool)
    requires Valid(cfg, s)
    requires SampleEpisodes(cfg, s, n, explore, random).Ok?
    ensures ResetGate(SampleEpisodes(cfg, s, n, explore, random).value.0, forceReset)
  {
    SampleEpisodesOk(cfg, s, n, explore, random);
  }
}
