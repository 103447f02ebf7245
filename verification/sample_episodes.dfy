/** `_sample_episodes`: a fresh, reset episode every time, the step loop
    until the wanted number of episodes is done, and no cut: only done
    episodes are returned. The runner's own ongoing episode and cached
    env-to-module output are left alone, but the next timestep-mode call is
    made to reset. */
module EpisodeSampling {
  import opened Types
  import opened Episodes
  import opened Metrics
  import opened Trace
  import opened Stepping
  import opened EpisodeLoop
  import opened RunnerState

  /** The walk the loop starts from: a new episode under a fresh id, reset,
      never with a cached env-to-module output. */
  function FirstWalk(cfg: Config, s: Runner): Walk {
    Restart(s.env, cfg.mapping, WalkOf(s).(cache := None))
  }

  function SampleEpisodes(cfg: Config, s: Runner, n: nat, explore: bool, random: bool)
    : Result<(Runner, seq<Episode>)>
  {
    match Run(s.env, cfg.mapping, s.hasModule, explore, random, FirstWalk(cfg, s), 0, n)
    case Err(e) => Err(e)
    case Ok((w, dones)) =>
      Ok((s.(needsInitialReset := true, cursor := w.cursor, nextId := w.nextId, log := w.log, trace := w.trace,
             doneQueue := s.doneQueue + dones),
          dones))
  }

  // ---------------------------------------------------------------------

  /** The first walk is a live episode with no recorded step, under the
      next fresh id, after exactly one env reset. */
  lemma FirstWalkFacts(cfg: Config, s: Runner)
    requires Valid(cfg, s)
    ensures var w := FirstWalk(cfg, s);
      && WalkOk(s.env, cfg.mapping, s.hasModule, w)
      && w.cursor == s.cursor && w.log == s.log && w.nextId == s.nextId + 1 && w.cache.None?
      && w.episode.id == s.nextId && w.episode.len == 0
      && (forall a :: AgentLen(w.episode.agents, a) == 0)
      && (forall x :: DoneIn(w.trace, x) <==> DoneIn(s.trace, x))
      && Resets(w.trace) == Resets(s.trace) + 1
      && Passes(w.trace) == Passes(s.trace)
  {
    RestartFacts(s.env, cfg.mapping, s.hasModule, WalkOf(s).(cache := None));
  }

  /** The call fails iff episodes are wanted and either no module can
      compute actions or the environment holds fewer than `n` more episode
      ends. Otherwise it returns exactly `n` episodes, stops right after the
      step that ends the last of them, marks the runner for a reset, and
      leaves the runner's ongoing episode, its cache and the registry as
      they were. */
  lemma SampleEpisodesOk(cfg: Config, s: Runner, n: nat, explore: bool, random: bool)
    requires Valid(cfg, s)
    ensures var r := SampleEpisodes(cfg, s, n, explore, random);
      && (r.Ok? <==> n == 0 || ((random || s.hasModule) && DoneCount(s.env.steps, s.cursor, |s.env.steps|) >= n))
      && (r.Ok? ==> var (s', out) := r.value;
           && |out| == n && s'.needsInitialReset
           && s'.episode == s.episode && s'.cache == s.cache && s'.ongoing == s.ongoing
           && s.cursor <= s'.cursor <= |s.env.steps|
           && (n == 0 ==> s'.cursor == s.cursor)
           && (n > 0 ==> s.cursor < s'.cursor && EndsEpisode(s.env.steps, s'.cursor)
                         && DoneCount(s.env.steps, s.cursor, s'.cursor) == n))
  {
    var w := FirstWalk(cfg, s);
    FirstWalkFacts(cfg, s);
    RunOk(s.env, cfg.mapping, s.hasModule, explore, random, w, 0, n);
    if SampleEpisodes(cfg, s, n, explore, random).Ok? {
      var (w', ds) := Run(s.env, cfg.mapping, s.hasModule, explore, random, w, 0, n).value;
      RunInv(s.env, cfg.mapping, s.hasModule, explore, random, w, 0, n, w', ds);
      if n > 0 {
        RunStops(s.env, cfg.mapping, s.hasModule, explore, random, w, 0, n, w', ds);
      }
    }
  }

  /** The glue between the call and its loop. */
  lemma EpisodePhases(cfg: Config, s: Runner, n: nat, explore: bool, random: bool)
    requires Valid(cfg, s)
    requires SampleEpisodes(cfg, s, n, explore, random).Ok?
    ensures var w := FirstWalk(cfg, s);
      var r := Run(s.env, cfg.mapping, s.hasModule, explore, random, w, 0, n);
      && r.Ok? && WalkOk(s.env, cfg.mapping, s.hasModule, w)
      && var (s', out) := SampleEpisodes(cfg, s, n, explore, random).value;
      && out == r.value.1 && s'.doneQueue == s.doneQueue + out
      && s'.cursor == r.value.0.cursor && s'.log == r.value.0.log && s'.trace == r.value.0.trace
      && s'.nextId == r.value.0.nextId
  {
    FirstWalkFacts(cfg, s);
  }

  /** `_sample_episodes` keeps the runner invariant. */
  lemma SampleEpisodesValid(cfg: Config, s: Runner, n: nat, explore: bool, random: bool)
    requires Valid(cfg, s)
    requires SampleEpisodes(cfg, s, n, explore, random).Ok?
    ensures Valid(cfg, SampleEpisodes(cfg, s, n, explore, random).value.0)
  {
    EpisodePhases(cfg, s, n, explore, random);
    var w := FirstWalk(cfg, s);
    FirstWalkFacts(cfg, s);
    var (w1, dones) := Run(s.env, cfg.mapping, s.hasModule, explore, random, w, 0, n).value;
    RunInv(s.env, cfg.mapping, s.hasModule, explore, random, w, 0, n, w1, dones);
    RunIds(s.env, cfg.mapping, s.hasModule, explore, random, w, 0, n, w1, dones);
    forall d | d in dones ensures DoneIn(w1.trace, d.id) {
      assert d.id in Ids(dones);
    }
    QueueExtend(cfg.mapping, s.doneQueue, dones, s.trace, w1.trace);
  }

  /** The returned episodes are appended to the done queue as they are:
      in completion (and id) order, each done, well formed, finalized as
      done during this call and never before. */
  lemma SampleEpisodesQueue(cfg: Config, s: Runner, n: nat, explore: bool, random: bool)
    requires Valid(cfg, s)
    requires SampleEpisodes(cfg, s, n, explore, random).Ok?
    ensures var (s', out) := SampleEpisodes(cfg, s, n, explore, random).value;
      && s'.doneQueue == s.doneQueue + out
      && IncreasingIds(out)
      && (forall d | d in out :: d.done && WellFormed(d, cfg.mapping) && DoneIn(s'.trace, d.id) && !DoneIn(s.trace, d.id))
  {
    EpisodePhases(cfg, s, n, explore, random);
    var w := FirstWalk(cfg, s);
    FirstWalkFacts(cfg, s);
    var (w1, dones) := Run(s.env, cfg.mapping, s.hasModule, explore, random, w, 0, n).value;
    RunInv(s.env, cfg.mapping, s.hasModule, explore, random, w, 0, n, w1, dones);
    RunIds(s.env, cfg.mapping, s.hasModule, explore, random, w, 0, n, w1, dones);
    forall d | d in dones ensures DoneIn(w1.trace, d.id) {
      assert d.id in Ids(dones);
    }
  }

  /** Every counter grows by what the consumed env steps are meant to
      add. */
  lemma SampleEpisodesLog(cfg: Config, s: Runner, n: nat, explore: bool, random: bool)
    requires Valid(cfg, s)
    requires SampleEpisodes(cfg, s, n, explore, random).Ok?
    ensures var s' := SampleEpisodes(cfg, s, n, explore, random).value.0;
      && s.cursor <= s'.cursor <= |s.env.steps|
      && forall k :: Peek(s'.log, k) == Peek(s.log, k) + WindowAdded(s.env.steps, s.cursor, s'.cursor, cfg.mapping, k)
  {
    EpisodePhases(cfg, s, n, explore, random);
    var w := FirstWalk(cfg, s);
    FirstWalkFacts(cfg, s);
    var (w1, dones) := Run(s.env, cfg.mapping, s.hasModule, explore, random, w, 0, n).value;
    RunLog(s.env, cfg.mapping, s.hasModule, explore, random, w, 0, n, w1, dones, NumEpisodes);
    forall k ensures Peek(w1.log, k) == Peek(s.log, k) + WindowAdded(s.env.steps, s.cursor, w1.cursor, cfg.mapping, k) {
      RunLog(s.env, cfg.mapping, s.hasModule, explore, random, w, 0, n, w1, dones, k);
    }
  }

  /** The returned episodes hold exactly the env steps taken, each once,
      and for every agent exactly the steps in which it observed: each
      returned episode is whole, from its reset to its end. */
  lemma SampleEpisodesSteps(cfg: Config, s: Runner, n: nat, explore: bool, random: bool)
    requires Valid(cfg, s)
    requires SampleEpisodes(cfg, s, n, explore, random).Ok?
    ensures var (s', out) := SampleEpisodes(cfg, s, n, explore, random).value;
      && s.cursor <= s'.cursor <= |s.env.steps|
      && TotalLen(out) == s'.cursor - s.cursor
      && (forall a :: TotalAgentLen(out, a) == Participations(s.env.steps, s.cursor, s'.cursor, a))
  {
    EpisodePhases(cfg, s, n, explore, random);
    var w := FirstWalk(cfg, s);
    FirstWalkFacts(cfg, s);
    if n > 0 {
      var (w1, dones) := Run(s.env, cfg.mapping, s.hasModule, explore, random, w, 0, n).value;
      RunSteps(s.env, cfg.mapping, s.hasModule, explore, random, w, 0, n, w1, dones);
      forall a ensures TotalAgentLen(dones, a) == Participations(s.env.steps, s.cursor, w1.cursor, a) {
        RunAgentSteps(s.env, cfg.mapping, s.hasModule, explore, random, w, 0, n, w1, dones, a);
        WindowAddedFacts(s.env.steps, s.cursor, w1.cursor, cfg.mapping, a);
      }
    }
  }

  /** The environment is reset once per returned episode, and once even
      when none is wanted; the env-to-module connector runs once per
      module-driven step and once more per returned episode when there is a
      module. */
  lemma SampleEpisodesEvents(cfg: Config, s: Runner, n: nat, explore: bool, random: bool)
    requires Valid(cfg, s)
    requires SampleEpisodes(cfg, s, n, explore, random).Ok?
    ensures var s' := SampleEpisodes(cfg, s, n, explore, random).value.0;
      && s.cursor <= s'.cursor
      && Resets(s'.trace) == Resets(s.trace) + (if n == 0 then 1 else n)
      && Passes(s'.trace) == Passes(s.trace) + (if s.hasModule then n else 0) + (if random then 0 else s'.cursor - s.cursor)
  {
    EpisodePhases(cfg, s, n, explore, random);
    var w := FirstWalk(cfg, s);
    FirstWalkFacts(cfg, s);
    if n > 0 {
      var (w1, dones) := Run(s.env, cfg.mapping, s.hasModule, explore, random, w, 0, n).value;
      RunInv(s.env, cfg.mapping, s.hasModule, explore, random, w, 0, n, w1, dones);
      RunEvents(s.env, cfg.mapping, s.hasModule, explore, random, w, 0, n, w1, dones);
    }
  }
}
