/** The pieces both sampling loops are built from: computing actions,
    stepping the environment and recording the step, wrapping up a done
    episode, and starting a fresh one. They act on a `Walk`, the part of the
    runner's state a sampling loop changes. */
module Stepping {
  import opened Types
  import opened Episodes
  import opened Metrics
  import opened Trace

  /** An env-to-module connector output, identified by the episode chunk it
      was computed from and that chunk's env step. */
  datatype Batch = Batch(id: EpisodeId, t: nat)

  /** The output an env-to-module pass over `e` yields. */
  function Pass(e: Episode): Batch {
    Batch(e.id, e.EnvT())
  }

  /** The state a sampling loop threads through its iterations: the next
      outcome the environment yields, the episode being collected, the
      cached connector output, the next fresh episode id, the metrics log
      and the trace. */
  datatype Walk = Walk(
    cursor: nat,
    episode: Episode,
    cache: Option<Batch>,
    nextId: nat,
    log: Log,
    trace: Trace)

  // ---------------------------------------------------------------------
  // Counting what the environment produced.

  /** Agents of `obs` that the mapping function assigns to module `m`. */
  function ModuleObs(obs: seq<AgentId>, mapping: AgentId -> ModuleId, m: ModuleId): nat {
    if |obs| == 0 then 0 else (if mapping(obs[0]) == m then 1 else 0) + ModuleObs(obs[1..], mapping, m)
  }

  /** Step `i` exists and agent `a` observed in it. */
  predicate ObservedAt(steps: seq<StepOutcome>, i: nat, a: AgentId) {
    i < |steps| && a in steps[i].obs
  }

  /** Env steps `i` to `j` (exclusive) of `steps` in which agent `a`
      observed. */
  function Participations(steps: seq<StepOutcome>, i: nat, j: nat, a: AgentId): nat
    requires i <= j <= |steps|
    decreases j - i
  {
    if i == j then 0 else (if ObservedAt(steps, i, a) then 1 else 0) + Participations(steps, i + 1, j, a)
  }

  /** Step `c - 1` exists and ends an episode. */
  predicate EndsEpisode(steps: seq<StepOutcome>, c: nat) {
    0 < c <= |steps| && steps[c - 1].done
  }

  /** Env steps `i` to `j` (exclusive) of `steps` that ended an episode. */
  function DoneCount(steps: seq<StepOutcome>, i: nat, j: nat): nat
    requires i <= j <= |steps|
    decreases j - i
  {
    if i == j then 0 else (if EndsEpisode(steps, i + 1) then 1 else 0) + DoneCount(steps, i + 1, j)
  }

  /** The amount one `_increase_sampled_metrics(num_steps, obs, ...)` call
      is meant to add to counter `k`. */
  function SampledAdded(numSteps: nat, obs: seq<AgentId>, mapping: AgentId -> ModuleId, k: Key): int {
    match k
    case EnvStepsSampled => numSteps
    case EnvStepsSampledLifetime => numSteps
    case AgentStepsSampled(a) => if a in obs then 1 else 0
    case AgentStepsSampledLifetime(a) => if a in obs then 1 else 0
    case ModuleStepsSampled(m) => ModuleObs(obs, mapping, m)
    case ModuleStepsSampledLifetime(m) => ModuleObs(obs, mapping, m)
    case NumEpisodes => 0
  }

  /** The amount env step `i` of `steps` is meant to add to counter `k`. */
  function StepAdded(steps: seq<StepOutcome>, i: nat, mapping: AgentId -> ModuleId, k: Key): int {
    if i < |steps| then SampledAdded(NumEnvs, steps[i].obs, mapping, k) else 0
  }

  /** The amount env steps `i` to `j` (exclusive) of `steps` are meant to
      add to counter `k`. */
  function WindowAdded(steps: seq<StepOutcome>, i: nat, j: nat, mapping: AgentId -> ModuleId, k: Key): int
    requires i <= j <= |steps|
    decreases j - i
  {
    if i == j then 0 else StepAdded(steps, i, mapping, k) + WindowAdded(steps, i + 1, j, mapping, k)
  }

  /** The first step of a non-empty stretch, split off the episode ends. */
  lemma FirstDone(steps: seq<StepOutcome>, i: nat, j: nat)
    requires i < j <= |steps|
    ensures DoneCount(steps, i, j) == (if EndsEpisode(steps, i + 1) then 1 else 0) + DoneCount(steps, i + 1, j)
  {
  }

  /** The first step of a non-empty stretch, split off counter `k`'s
      additions. */
  lemma FirstAdded(steps: seq<StepOutcome>, i: nat, j: nat, mapping: AgentId -> ModuleId, k: Key)
    requires i < j <= |steps|
    ensures WindowAdded(steps, i, j, mapping, k) == StepAdded(steps, i, mapping, k) + WindowAdded(steps, i + 1, j, mapping, k)
  {
  }

  /** The arithmetic that chains one loop iteration's count to the rest of
      the loop's: what the iteration moves (`s`) and what the rest records
      (`rest`) add up to the whole window (`all`). */
  lemma Telescope(t: int, t1: int, l: int, l1: int, l2: int, s: int, all: int, rest: int)
    requires t + l1 == l + s + t1
    requires t1 + l2 == l1 + rest
    requires all == s + rest
    ensures t + l2 == l + all
  {
  }

  /** Over a stretch of env steps, the env-step counters grow by its length
      and an agent's step counters by the steps in which the agent
      observed. */
  lemma {:induction false} WindowAddedFacts(steps: seq<StepOutcome>, i: nat, j: nat, mapping: AgentId -> ModuleId, a: AgentId)
    requires i <= j <= |steps|
    decreases j - i
    ensures WindowAdded(steps, i, j, mapping, EnvStepsSampled) == j - i
    ensures WindowAdded(steps, i, j, mapping, EnvStepsSampledLifetime) == j - i
    ensures WindowAdded(steps, i, j, mapping, AgentStepsSampled(a)) == Participations(steps, i, j, a)
    ensures WindowAdded(steps, i, j, mapping, AgentStepsSampledLifetime(a)) == Participations(steps, i, j, a)
    ensures WindowAdded(steps, i, j, mapping, NumEpisodes) == 0
  {
    if i < j {
      WindowAddedFacts(steps, i + 1, j, mapping, a);
    }
  }

  // ---------------------------------------------------------------------
  // `_increase_sampled_metrics`.

  /** Logs one agent step and one module step for every agent in `obs`,
      the module being the one `e` records for the agent. */
  function LogAgents(log: Log, obs: seq<AgentId>, e: Episode, mapping: AgentId -> ModuleId): Log
    decreases |obs|
  {
    if |obs| == 0 then log
    else
      var a := obs[0];
      var m := ModuleFor(e, a, mapping);
      var log' := Then(Then(Then(Then(log, LogValue(AgentStepsSampled(a), 1)), LogValue(AgentStepsSampledLifetime(a), 1)),
                            LogValue(ModuleStepsSampled(m), 1)), LogValue(ModuleStepsSampledLifetime(m), 1));
      LogAgents(log', obs[1..], e, mapping)
  }

  /** Logs `num_steps` env steps, and one agent step and one module step for
      every agent in `obs`; returns `num_steps`, which is what the loops
      advance by. */
  function IncreaseSampledMetrics(log: Log, numSteps: nat, obs: seq<AgentId>, e: Episode,
                                  mapping: AgentId -> ModuleId): (r: (Log, nat))
    ensures r.1 == numSteps
  {
    var log' := Then(Then(log, LogValue(EnvStepsSampled, numSteps)), LogValue(EnvStepsSampledLifetime, numSteps));
    (LogAgents(log', obs, e, mapping), numSteps)
  }

  lemma {:induction false} LogAgentsPeek(log: Log, obs: seq<AgentId>, e: Episode, mapping: AgentId -> ModuleId, k: Key)
    requires Distinct(obs) && WellFormed(e, mapping)
    decreases |obs|
    ensures Peek(LogAgents(log, obs, e, mapping), k) == Peek(log, k) + SampledAdded(0, obs, mapping, k)
  {
    if |obs| > 0 {
      var a := obs[0];
      var m := ModuleFor(e, a, mapping);
      ModuleForMapped(e, a, mapping);
      DistinctTail(obs);
      var log' := Then(Then(Then(Then(log, LogValue(AgentStepsSampled(a), 1)), LogValue(AgentStepsSampledLifetime(a), 1)),
                            LogValue(ModuleStepsSampled(m), 1)), LogValue(ModuleStepsSampledLifetime(m), 1));
      LogAgentsPeek(log', obs[1..], e, mapping, k);
      var l1 := Then(log, LogValue(AgentStepsSampled(a), 1));
      var l2 := Then(l1, LogValue(AgentStepsSampledLifetime(a), 1));
      var l3 := Then(l2, LogValue(ModuleStepsSampled(m), 1));
      assert Peek(l2, k) == Peek(log, k) + (if k == AgentStepsSampled(a) || k == AgentStepsSampledLifetime(a) then 1 else 0);
      assert Peek(log', k) == Peek(l2, k) + (if k == ModuleStepsSampled(m) || k == ModuleStepsSampledLifetime(m) then 1 else 0);
      match k {
        case AgentStepsSampled(b) => assert b in obs <==> b == a || b in obs[1..];
        case AgentStepsSampledLifetime(b) => assert b in obs <==> b == a || b in obs[1..];
        case _ =>
      }
    }
  }

  /** Every counter grows by exactly what the step is meant to add: the
      env-step counters by `num_steps`, an agent's step counters by one iff
      the agent observed, a module's by the observing agents it controls. */
  lemma IncreaseSampledMetricsCounts(log: Log, numSteps: nat, obs: seq<AgentId>, e: Episode,
                                     mapping: AgentId -> ModuleId, k: Key)
    requires Distinct(obs) && WellFormed(e, mapping)
    ensures Peek(IncreaseSampledMetrics(log, numSteps, obs, e, mapping).0, k)
         == Peek(log, k) + SampledAdded(numSteps, obs, mapping, k)
  {
    var log' := Then(Then(log, LogValue(EnvStepsSampled, numSteps)), LogValue(EnvStepsSampledLifetime, numSteps));
    LogAgentsPeek(log', obs, e, mapping, k);
  }

  // ---------------------------------------------------------------------
  // One loop iteration, piece by piece.

  /** The invariant of a sampling loop between iterations: the trace is
      well formed and the episode being collected is a well-formed, live
      episode with an id already handed out and not yet finalized as done. */
  ghost predicate WalkOk(env: Env, mapping: AgentId -> ModuleId, hasModule: bool, w: Walk) {
    && WellFormedEnv(env)
    && w.cursor <= |env.steps|
    && TraceOk(w.trace, hasModule, w.nextId)
    && WellFormed(w.episode, mapping)
    && w.episode.id < w.nextId
    && !w.episode.done
    && !DoneIn(w.trace, w.episode.id)
  }

  /** The part of the loop invariant the step counts rest on: distinct
      observers in the environment and a well-formed episode record. */
  ghost predicate Collecting(env: Env, mapping: AgentId -> ModuleId, w: Walk) {
    WellFormedEnv(env) && w.cursor <= |env.steps| && WellFormed(w.episode, mapping)
  }

  /** Computing the actions: sampled at random, or by the env-to-module
      pass (skipped when a cached output exists, which is consumed), the
      forward pass and the module-to-env pass. */
  function Act(w: Walk, explore: bool, random: bool): Walk {
    if random then w.(trace := Then(w.trace, RandomActions))
    else if w.cache.Some? then w.(cache := None, trace := Then(Then(w.trace, Forward(explore)), ModuleToEnv))
    else w.(trace := Then(Then(Then(w.trace, EnvToModule(w.episode.id)), Forward(explore)), ModuleToEnv))
  }

  /** `env.step`, the step counters, `add_env_step` and `on_episode_step`;
      the second component is what `_increase_sampled_metrics` returned. */
  function Record(env: Env, mapping: AgentId -> ModuleId, w: Walk): (Walk, nat)
    requires w.cursor < |env.steps|
  {
    var o := env.steps[w.cursor];
    var (log, inc) := IncreaseSampledMetrics(w.log, NumEnvs, o.obs, w.episode, mapping);
    (w.(cursor := w.cursor + 1, log := log, episode := AddStep(w.episode, o, mapping),
        trace := Then(Then(w.trace, EnvStep), EpisodeStep(w.episode.id))),
     inc)
  }

  /** One step of either loop up to `on_episode_step`. Without a module the
      forward pass fails; past the end of the oracle the environment has no
      outcome to give. */
  function Advance(env: Env, mapping: AgentId -> ModuleId, hasModule: bool, explore: bool, random: bool, w: Walk)
    : (r: Result<(Walk, nat)>)
    ensures r.Ok? <==> (random || hasModule) && w.cursor < |env.steps|
    ensures !random && !hasModule ==> r == Err(NoModule)
    ensures r.Ok? ==> r.value.0.cursor == w.cursor + 1 && r.value.1 == NumEnvs
  {
    if !random && !hasModule then Err(NoModule)
    else if w.cursor >= |env.steps| then Err(EnvExhausted)
    else Ok(Record(env, mapping, Act(w, explore, random)))
  }

  /** The terminal env-to-module pass (only with a module), `on_episode_end`
      and `finalize` of a done episode. */
  function WrapUp(hasModule: bool, w: Walk): Walk {
    var id := w.episode.id;
    var tr := if hasModule then Then(w.trace, EnvToModule(id)) else w.trace;
    w.(trace := Then(Then(tr, EpisodeEnd(id)), Finalized(id, true)))
  }

  /** `_new_episode`, `on_episode_created`, `env.reset`, `add_env_reset` and
      `on_episode_start`. */
  function Restart(env: Env, mapping: AgentId -> ModuleId, w: Walk): Walk {
    var id := w.nextId;
    w.(episode := AddReset(New(id), env.resetObs, mapping), nextId := id + 1,
       trace := Then(Then(Then(w.trace, EpisodeCreated(id)), EnvReset), EpisodeStart(id)))
  }

  // ---------------------------------------------------------------------
  // What each piece preserves.

  lemma ActFacts(env: Env, mapping: AgentId -> ModuleId, hasModule: bool, w: Walk, explore: bool, random: bool)
    requires WalkOk(env, mapping, hasModule, w)
    ensures var w' := Act(w, explore, random);
      && w'.cursor == w.cursor && w'.episode == w.episode && w'.nextId == w.nextId && w'.log == w.log
      && w'.cache == (if random then w.cache else None)
      && WalkOk(env, mapping, hasModule, w')
      && (forall x :: DoneIn(w'.trace, x) <==> DoneIn(w.trace, x))
      && Resets(w'.trace) == Resets(w.trace)
      && Passes(w'.trace) == Passes(w.trace) + if random || w.cache.Some? then 0 else 1
  {
    var tr := w.trace;
    if random {
      Recorded(tr, RandomActions);
    } else {
      var tr1 := if w.cache.Some? then tr else Then(tr, EnvToModule(w.episode.id));
      Recorded(tr, EnvToModule(w.episode.id));
      Recorded(tr1, Forward(explore));
      Recorded(Then(tr1, Forward(explore)), ModuleToEnv);
      assert TraceOk(tr1, hasModule, w.nextId);
      assert TraceOk(Then(tr1, Forward(explore)), hasModule, w.nextId);
    }
  }

  lemma RecordFacts(env: Env, mapping: AgentId -> ModuleId, hasModule: bool, w: Walk)
    requires WalkOk(env, mapping, hasModule, w) && w.cursor < |env.steps|
    ensures var w' := Record(env, mapping, w).0; var o := env.steps[w.cursor];
      && w'.cursor == w.cursor + 1 && w'.nextId == w.nextId && w'.cache == w.cache
      && w'.episode == AddStep(w.episode, o, mapping)
      && w'.episode.id == w.episode.id && w'.episode.done == o.done
      && w'.episode.len == w.episode.len + 1 && w'.episode.EnvT() == w.episode.EnvT() + 1
      && WellFormed(w'.episode, mapping)
      && (forall a :: AgentLen(w'.episode.agents, a) == AgentLen(w.episode.agents, a) + if a in o.obs then 1 else 0)
      && TraceOk(w'.trace, hasModule, w'.nextId)
      && w'.trace.Then? && w'.trace.last == EpisodeStep(w.episode.id)
      && (forall x :: DoneIn(w'.trace, x) <==> DoneIn(w.trace, x))
      && Resets(w'.trace) == Resets(w.trace)
      && Passes(w'.trace) == Passes(w.trace)
      && (forall k :: Peek(w'.log, k) == Peek(w.log, k) + SampledAdded(NumEnvs, o.obs, mapping, k))
  {
    var o := env.steps[w.cursor];
    DistinctObsAt(env.steps, w.cursor);
    AddStepFacts(w.episode, o, mapping);
    assert TraceOk(Then(w.trace, EnvStep), hasModule, w.nextId);
    Recorded(w.trace, EnvStep);
    Recorded(Then(w.trace, EnvStep), EpisodeStep(w.episode.id));
    forall k ensures Peek(Record(env, mapping, w).0.log, k) == Peek(w.log, k) + SampledAdded(NumEnvs, o.obs, mapping, k) {
      IncreaseSampledMetricsCounts(w.log, NumEnvs, o.obs, w.episode, mapping, k);
    }
  }

  /** Wrapping up a done episode finalizes exactly that episode, after its
      `on_episode_end`, which comes after the terminal env-to-module pass
      when there is a module. */
  lemma WrapUpFacts(hasModule: bool, w: Walk)
    requires TraceOk(w.trace, hasModule, w.nextId) && w.episode.id < w.nextId
    requires w.trace.Then? && w.trace.last == EpisodeStep(w.episode.id)
    ensures var w' := WrapUp(hasModule, w);
      && w'.cursor == w.cursor && w'.episode == w.episode && w'.nextId == w.nextId
      && w'.log == w.log && w'.cache == w.cache
      && TraceOk(w'.trace, hasModule, w'.nextId)
      && (forall x :: DoneIn(w'.trace, x) <==> DoneIn(w.trace, x) || x == w.episode.id)
      && Resets(w'.trace) == Resets(w.trace)
      && Passes(w'.trace) == Passes(w.trace) + if hasModule then 1 else 0
  {
    var id := w.episode.id;
    var tr := if hasModule then Then(w.trace, EnvToModule(id)) else w.trace;
    Recorded(w.trace, EnvToModule(id));
    Recorded(tr, EpisodeEnd(id));
    Recorded(Then(tr, EpisodeEnd(id)), Finalized(id, true));
    assert TraceOk(tr, hasModule, w.nextId);
    assert TraceOk(Then(tr, EpisodeEnd(id)), hasModule, w.nextId);
  }

  /** A restart collects into a fresh, reset episode under the next id; it
      resets the environment once and finalizes nothing. */
  lemma RestartFacts(env: Env, mapping: AgentId -> ModuleId, hasModule: bool, w: Walk)
    requires WellFormedEnv(env) && w.cursor <= |env.steps| && TraceOk(w.trace, hasModule, w.nextId)
    ensures var w' := Restart(env, mapping, w);
      && w'.cursor == w.cursor && w'.log == w.log && w'.cache == w.cache
      && w'.nextId == w.nextId + 1 && w'.episode.id == w.nextId
      && w'.episode.len == 0 && w'.episode.tStarted == 0
      && (forall a :: AgentLen(w'.episode.agents, a) == 0)
      && WalkOk(env, mapping, hasModule, w')
      && (forall x :: DoneIn(w'.trace, x) <==> DoneIn(w.trace, x))
      && Resets(w'.trace) == Resets(w.trace) + 1
      && Passes(w'.trace) == Passes(w.trace)
  {
    var id := w.nextId;
    var n := w.nextId + 1;
    TraceOkMono(w.trace, hasModule, w.nextId, n);
    var tr1 := Then(w.trace, EpisodeCreated(id));
    assert TraceOk(tr1, hasModule, n);
    assert TraceOk(Then(tr1, EnvReset), hasModule, n);
    Recorded(w.trace, EpisodeCreated(id));
    Recorded(tr1, EnvReset);
    Recorded(Then(tr1, EnvReset), EpisodeStart(id));
    DoneInBelow(w.trace, hasModule, w.nextId, id);
    AddResetFacts(New(id), env.resetObs, mapping);
  }
}
