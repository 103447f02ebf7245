/** `_sample_timesteps`: the reset gate, the step loop, the look-ahead
    env-to-module pass, and the cut that splits the ongoing episode into a
    returned chunk and a continuation. */
module TimestepSampling {
  import opened Types
  import opened Episodes
  import opened Metrics
  import opened Trace
  import opened Stepping
  import opened TimestepLoop
  import opened RunnerState

  /** The gate `force_reset or self._needs_initial_reset`. */
  predicate ResetGate(s: Runner, forceReset: bool) {
    forceReset || s.needsInitialReset
  }

  /** The walk the loop starts from: after the gate, a fresh, reset episode
      with nothing cached; otherwise the runner's own episode and cache. */
  function StartWalk(cfg: Config, s: Runner, forceReset: bool): Walk {
    if ResetGate(s, forceReset) then Restart(s.env, cfg.mapping, WalkOf(s).(cache := None)) else WalkOf(s)
  }

  /** The registry after the gate: cleared on a reset. */
  function StartRegistry(s: Runner, forceReset: bool): map<EpisodeId, seq<Episode>> {
    if ResetGate(s, forceReset) then map[] else s.ongoing
  }

  function SampleTimesteps(cfg: Config, s: Runner, n: nat, explore: bool, random: bool, forceReset: bool)
    : Result<(Runner, seq<Episode>)>
  {
    match Loop(s.env, cfg.mapping, s.hasModule, explore, random, StartWalk(cfg, s, forceReset), 0, n)
    case Err(e) => Err(e)
    case Ok((w, dones)) => Ok(Conclude(s, StartRegistry(s, forceReset), w, dones))
  }

  /** After the loop: the look-ahead env-to-module pass (cached for the next
      call), the cut, and the registration of the ongoing chunk when it
      holds any env step. */
  function Conclude(s: Runner, reg: map<EpisodeId, seq<Episode>>, w: Walk, dones: seq<Episode>): (Runner, seq<Episode>) {
    var ep := w.episode;
    var tr := if s.hasModule then Then(w.trace, EnvToModule(ep.id)) else w.trace;
    var cache := if s.hasModule then Some(Pass(ep)) else w.cache;
    var s' := s.(needsInitialReset := false, cursor := w.cursor, episode := Cut(ep), cache := cache,
                 nextId := w.nextId, log := w.log, doneQueue := s.doneQueue + dones);
    if ep.EnvT() > 0 then
      var chunk := Finalize(ep);
      (s'.(trace := Then(tr, Finalized(ep.id, false)), ongoing := reg[ep.id := Registered(reg, ep.id) + [chunk]]),
       dones + [chunk])
    else
      (s'.(trace := tr, ongoing := reg), dones)
  }

  /** The wrap-up after the loop keeps the trace well formed, finalizes no
      done episode, resets nothing, runs the look-ahead pass iff there is a
      module, and leaves the continuation ready for the next call. */
  lemma ConcludeFacts(cfg: Config, s: Runner, reg: map<EpisodeId, seq<Episode>>, w: Walk, dones: seq<Episode>)
    requires WalkOk(s.env, cfg.mapping, s.hasModule, w)
    ensures var (s', out) := Conclude(s, reg, w, dones);
      && s'.cursor == w.cursor && s'.nextId == w.nextId && s'.log == w.log
      && !s'.needsInitialReset && s'.doneQueue == s.doneQueue + dones
      && s'.episode.id == w.episode.id && s'.episode.tStarted == w.episode.EnvT()
      && EpisodeLive(cfg.mapping, s'.episode, s'.nextId, s'.trace) && s'.episode.len == 0
      && (forall a :: AgentLen(s'.episode.agents, a) == 0)
      && (s.hasModule ==> s'.cache == Some(Pass(s'.episode)))
      && (!s.hasModule ==> s'.cache == w.cache)
      && TraceOk(s'.trace, s.hasModule, s'.nextId)
      && (forall x :: DoneIn(s'.trace, x) <==> DoneIn(w.trace, x))
      && Resets(s'.trace) == Resets(w.trace)
      && Passes(s'.trace) == Passes(w.trace) + (if s.hasModule then 1 else 0)
  {
    var ep := w.episode;
    CutFacts(ep, cfg.mapping);
    var tr := if s.hasModule then Then(w.trace, EnvToModule(ep.id)) else w.trace;
    Recorded(w.trace, EnvToModule(ep.id));
    Recorded(tr, Finalized(ep.id, false));
    assert TraceOk(tr, s.hasModule, w.nextId);
  }

  /** The wrap-up re-establishes the runner invariant from the loop's. */
  lemma ConcludeValid(cfg: Config, s: Runner, reg: map<EpisodeId, seq<Episode>>, w: Walk, dones: seq<Episode>)
    requires WalkOk(s.env, cfg.mapping, s.hasModule, w)
    requires !s.hasModule ==> w.cache.None?
    requires QueueOk(cfg.mapping, s.doneQueue, s.trace) && RegistryOk(cfg.mapping, reg)
    requires forall x :: DoneIn(s.trace, x) ==> DoneIn(w.trace, x)
    requires forall d | d in dones :: d.done && WellFormed(d, cfg.mapping) && DoneIn(w.trace, d.id) && !DoneIn(s.trace, d.id)
    requires IncreasingIds(dones)
    ensures Valid(cfg, Conclude(s, reg, w, dones).0)
  {
    ConcludeFacts(cfg, s, reg, w, dones);
    var s' := Conclude(s, reg, w, dones).0;
    QueueExtend(cfg.mapping, s.doneQueue, dones, s.trace, s'.trace);
    if w.episode.EnvT() > 0 {
      FinalizeFacts(w.episode, cfg.mapping);
      RegistryAppend(cfg.mapping, reg, Finalize(w.episode));
    }
  }

  /** The returned episodes: the completed ones, then the finalized chunk
      of the ongoing episode iff it holds an env step; that chunk alone is
      registered. */
  lemma ConcludeOut(cfg: Config, s: Runner, reg: map<EpisodeId, seq<Episode>>, w: Walk, dones: seq<Episode>)
    requires WalkOk(s.env, cfg.mapping, s.hasModule, w)
    ensures var (s', out) := Conclude(s, reg, w, dones);
      && (w.episode.EnvT() > 0 ==> var c := Finalize(w.episode);
            && out == dones + [c] && s'.ongoing == reg[c.id := Registered(reg, c.id) + [c]]
            && c.id == w.episode.id && !c.done && WellFormed(c, cfg.mapping)
            && c.EnvT() == w.episode.EnvT() && c.len == w.episode.len
            && (forall a :: AgentLen(c.agents, a) == AgentLen(w.episode.agents, a)))
      && (w.episode.EnvT() == 0 ==>
            && out == dones && s'.ongoing == reg
            && w.episode.len == 0 && (forall a :: AgentLen(w.episode.agents, a) == 0))
  {
    FinalizeFacts(w.episode, cfg.mapping);
    if w.episode.EnvT() == 0 {
      forall a ensures AgentLen(w.episode.agents, a) == 0 {
        EmptyChunksLen(w.episode.agents, cfg.mapping, a);
      }
    }
  }

  /** The returned episodes hold the completed ones' steps plus those of
      the chunk cut from the ongoing episode. */
  lemma ConcludeTotals(cfg: Config, s: Runner, reg: map<EpisodeId, seq<Episode>>, w: Walk, dones: seq<Episode>)
    requires WalkOk(s.env, cfg.mapping, s.hasModule, w)
    ensures var out := Conclude(s, reg, w, dones).1;
      && TotalLen(out) == TotalLen(dones) + w.episode.len
      && (forall a :: TotalAgentLen(out, a) == TotalAgentLen(dones, a) + AgentLen(w.episode.agents, a))
  {
    ConcludeOut(cfg, s, reg, w, dones);
    if w.episode.EnvT() > 0 {
      var c := Finalize(w.episode);
      TotalLenConcat(dones, [c]);
      assert [c][1..] == [];
      forall a ensures TotalAgentLen(dones + [c], a) == TotalAgentLen(dones, a) + AgentLen(w.episode.agents, a) {
        TotalAgentLenConcat(dones, [c], a);
        assert TotalAgentLen([c], a) == AgentLen(c.agents, a) + TotalAgentLen([c][1..], a);
      }
    }
  }

  // ---------------------------------------------------------------------

  /** The gate: with a reset the loop starts from a fresh episode under a
      new id, reset once, with nothing cached; without one it starts from
      the runner's own episode. Either way the start is a live chunk with no
      recorded step. */
  lemma StartWalkFacts(cfg: Config, s: Runner, forceReset: bool)
    requires Valid(cfg, s)
    ensures var w := StartWalk(cfg, s, forceReset);
      && WalkOk(s.env, cfg.mapping, s.hasModule, w)
      && w.cursor == s.cursor && w.log == s.log && w.nextId >= s.nextId
      && w.cache == (if ResetGate(s, forceReset) then None else s.cache)
      && w.episode.len == 0
      && (forall a :: AgentLen(w.episode.agents, a) == 0)
      && (forall x :: DoneIn(w.trace, x) <==> DoneIn(s.trace, x))
      && Resets(w.trace) == Resets(s.trace) + (if ResetGate(s, forceReset) then 1 else 0)
      && Passes(w.trace) == Passes(s.trace)
  {
    if ResetGate(s, forceReset) {
      RestartFacts(s.env, cfg.mapping, s.hasModule, WalkOf(s).(cache := None));
    } else {
      forall a ensures AgentLen(s.episode.agents, a) == 0 {
        EmptyChunksLen(s.episode.agents, cfg.mapping, a);
      }
    }
  }

  /** The call fails iff a step is to be taken and either no module can
      compute actions or the environment runs out of outcomes; otherwise it
      takes exactly `n` env steps, clears the reset flag, and leaves an
      env-to-module output cached iff there is a module. */
  lemma SampleTimestepsOk(cfg: Config, s: Runner, n: nat, explore: bool, random: bool, forceReset: bool)
    requires Valid(cfg, s)
    ensures var r := SampleTimesteps(cfg, s, n, explore, random, forceReset);
      && (r.Ok? <==> n == 0 || ((random || s.hasModule) && s.cursor + n <= |s.env.steps|))
      && (r.Ok? ==> var s' := r.value.0;
           && s'.cursor == s.cursor + n
           && !s'.needsInitialReset
           && (s'.cache.Some? <==> s.hasModule))
  {
    var w := StartWalk(cfg, s, forceReset);
    StartWalkFacts(cfg, s, forceReset);
    LoopOk(s.env, cfg.mapping, s.hasModule, explore, random, w, 0, n);
    var r := Loop(s.env, cfg.mapping, s.hasModule, explore, random, w, 0, n);
    if r.Ok? {
      var (w1, dones) := r.value;
      LoopInv(s.env, cfg.mapping, s.hasModule, explore, random, w, 0, n, w1, dones);
      LoopCache(s.env, cfg.mapping, s.hasModule, explore, random, w, 0, n, w1, dones);
      ConcludeFacts(cfg, s, StartRegistry(s, forceReset), w1, dones);
    }
  }

  /** `_sample_timesteps` keeps the runner invariant. */
  lemma SampleTimestepsValid(cfg: Config, s: Runner, n: nat, explore: bool, random: bool, forceReset: bool)
    requires Valid(cfg, s)
    requires SampleTimesteps(cfg, s, n, explore, random, forceReset).Ok?
    ensures Valid(cfg, SampleTimesteps(cfg, s, n, explore, random, forceReset).value.0)
  {
    var w := StartWalk(cfg, s, forceReset);
    var reg := StartRegistry(s, forceReset);
    StartWalkFacts(cfg, s, forceReset);
    var (w1, dones) := Loop(s.env, cfg.mapping, s.hasModule, explore, random, w, 0, n).value;
    LoopInv(s.env, cfg.mapping, s.hasModule, explore, random, w, 0, n, w1, dones);
    LoopIds(s.env, cfg.mapping, s.hasModule, explore, random, w, 0, n, w1, dones);
    LoopCache(s.env, cfg.mapping, s.hasModule, explore, random, w, 0, n, w1, dones);
    ConcludeValid(cfg, s, reg, w1, dones);
  }

  /** The glue between the call and its two phases. */
  lemma Phases(cfg: Config, s: Runner, n: nat, explore: bool, random: bool, forceReset: bool)
    requires Valid(cfg, s)
    requires SampleTimesteps(cfg, s, n, explore, random, forceReset).Ok?
    ensures var w := StartWalk(cfg, s, forceReset);
      var r := Loop(s.env, cfg.mapping, s.hasModule, explore, random, w, 0, n);
      && r.Ok? && WalkOk(s.env, cfg.mapping, s.hasModule, r.value.0)
      && r.value.0.cursor == s.cursor + n <= |s.env.steps|
      && SampleTimesteps(cfg, s, n, explore, random, forceReset).value
         == Conclude(s, StartRegistry(s, forceReset), r.value.0, r.value.1)
  {
    StartWalkFacts(cfg, s, forceReset);
    var w := StartWalk(cfg, s, forceReset);
    LoopOk(s.env, cfg.mapping, s.hasModule, explore, random, w, 0, n);
    var (w1, dones) := Loop(s.env, cfg.mapping, s.hasModule, explore, random, w, 0, n).value;
    LoopInv(s.env, cfg.mapping, s.hasModule, explore, random, w, 0, n, w1, dones);
  }

  /** The episodes completed during the call are appended to the done
      queue, in completion order: each done, well formed and finalized
      during this call and never before, one per done env step. */
  lemma SampleTimestepsQueue(cfg: Config, s: Runner, n: nat, explore: bool, random: bool, forceReset: bool)
    requires Valid(cfg, s)
    requires SampleTimesteps(cfg, s, n, explore, random, forceReset).Ok?
    ensures s.cursor + n <= |s.env.steps|
    ensures var s' := SampleTimesteps(cfg, s, n, explore, random, forceReset).value.0;
      && |s'.doneQueue| >= |s.doneQueue| && s'.doneQueue[..|s.doneQueue|] == s.doneQueue
      && var dones := s'.doneQueue[|s.doneQueue|..];
      && |dones| == DoneCount(s.env.steps, s.cursor, s.cursor + n)
      && IncreasingIds(dones)
      && (forall d | d in dones :: d.done && WellFormed(d, cfg.mapping) && DoneIn(s'.trace, d.id) && !DoneIn(s.trace, d.id))
  {
    Phases(cfg, s, n, explore, random, forceReset);
    var w := StartWalk(cfg, s, forceReset);
    var (w1, dones) := Loop(s.env, cfg.mapping, s.hasModule, explore, random, w, 0, n).value;
    LoopDones(cfg, s, n, explore, random, forceReset);
    ConcludeFacts(cfg, s, StartRegistry(s, forceReset), w1, dones);
    var s' := Conclude(s, StartRegistry(s, forceReset), w1, dones).0;
    assert s'.doneQueue[..|s.doneQueue|] == s.doneQueue;
    assert s'.doneQueue[|s.doneQueue|..] == dones;
  }

  /** The episodes the loop completes, seen from the runner it started
      from: one per done env step, in increasing id order, each done, well
      formed and finalized during the loop and never before. */
  lemma LoopDones(cfg: Config, s: Runner, n: nat, explore: bool, random: bool, forceReset: bool)
    requires Valid(cfg, s)
    requires Loop(s.env, cfg.mapping, s.hasModule, explore, random, StartWalk(cfg, s, forceReset), 0, n).Ok?
    ensures var (w1, dones) := Loop(s.env, cfg.mapping, s.hasModule, explore, random, StartWalk(cfg, s, forceReset), 0, n).value;
      && w1.cursor <= |s.env.steps| && s.cursor <= w1.cursor
      && |dones| == DoneCount(s.env.steps, s.cursor, w1.cursor)
      && IncreasingIds(dones)
      && (forall d | d in dones :: d.done && WellFormed(d, cfg.mapping) && DoneIn(w1.trace, d.id) && !DoneIn(s.trace, d.id))
  {
    var w := StartWalk(cfg, s, forceReset);
    StartWalkFacts(cfg, s, forceReset);
    var (w1, dones) := Loop(s.env, cfg.mapping, s.hasModule, explore, random, w, 0, n).value;
    LoopInv(s.env, cfg.mapping, s.hasModule, explore, random, w, 0, n, w1, dones);
    LoopIds(s.env, cfg.mapping, s.hasModule, explore, random, w, 0, n, w1, dones);
    LoopDoneCount(s.env, cfg.mapping, s.hasModule, explore, random, w, 0, n, w1, dones);
    forall d | d in dones ensures DoneIn(w1.trace, d.id) {
      assert d.id in Ids(dones);
    }
  }

  /** What the call returns: the completed episodes, then at most one
      ongoing chunk, present iff the episode being collected has
      `env_t > 0` at the cut. That chunk is the ongoing episode's, not done,
      and ends where the continuation starts; it alone is appended to the
      registry (which the reset gate cleared). */
  lemma SampleTimestepsReturns(cfg: Config, s: Runner, n: nat, explore: bool, random: bool, forceReset: bool)
    requires Valid(cfg, s)
    requires SampleTimesteps(cfg, s, n, explore, random, forceReset).Ok?
    ensures var (s', out) := SampleTimesteps(cfg, s, n, explore, random, forceReset).value;
      var base := StartRegistry(s, forceReset);
      && |s'.doneQueue| >= |s.doneQueue|
      && var dones := s'.doneQueue[|s.doneQueue|..];
      && |dones| <= |out| <= |dones| + 1 && out[..|dones|] == dones
      && s'.episode.len == 0
      && (|out| > |dones| <==> s'.episode.tStarted > 0)
      && (|out| > |dones| ==> var c := out[|out| - 1];
            && c.id == s'.episode.id && !c.done && c.EnvT() == s'.episode.tStarted
            && s'.ongoing == base[c.id := Registered(base, c.id) + [c]])
      && (|out| == |dones| ==> s'.ongoing == base)
  {
    Phases(cfg, s, n, explore, random, forceReset);
    var w := StartWalk(cfg, s, forceReset);
    var reg := StartRegistry(s, forceReset);
    var (w1, dones) := Loop(s.env, cfg.mapping, s.hasModule, explore, random, w, 0, n).value;
    ConcludeFacts(cfg, s, reg, w1, dones);
    ConcludeOut(cfg, s, reg, w1, dones);
    var (s', out) := Conclude(s, reg, w1, dones);
    assert s'.doneQueue[|s.doneQueue|..] == dones;
    assert out[..|dones|] == dones;
  }

  /** Every counter grows by what the `n` consumed env steps are meant to
      add. */
  lemma SampleTimestepsLog(cfg: Config, s: Runner, n: nat, explore: bool, random: bool, forceReset: bool)
    requires Valid(cfg, s)
    requires SampleTimesteps(cfg, s, n, explore, random, forceReset).Ok?
    ensures s.cursor + n <= |s.env.steps|
    ensures var s' := SampleTimesteps(cfg, s, n, explore, random, forceReset).value.0;
      forall k :: Peek(s'.log, k) == Peek(s.log, k) + WindowAdded(s.env.steps, s.cursor, s.cursor + n, cfg.mapping, k)
  {
    Phases(cfg, s, n, explore, random, forceReset);
    var w := StartWalk(cfg, s, forceReset);
    StartWalkFacts(cfg, s, forceReset);
    var (w1, dones) := Loop(s.env, cfg.mapping, s.hasModule, explore, random, w, 0, n).value;
    assert SampleTimesteps(cfg, s, n, explore, random, forceReset).value.0.log == w1.log;
    assert w.log == s.log && w.cursor == s.cursor && w1.cursor == s.cursor + n;
    LoopLogAll(s.env, cfg.mapping, s.hasModule, explore, random, w, 0, n, w1, dones);
    assert forall k :: Peek(w1.log, k) == Peek(s.log, k) + WindowAdded(s.env.steps, s.cursor, s.cursor + n, cfg.mapping, k);
  }

  /** The returned episodes hold exactly the `n` env steps taken, and for
      every agent exactly the steps in which it observed. */
  lemma SampleTimestepsSteps(cfg: Config, s: Runner, n: nat, explore: bool, random: bool, forceReset: bool)
    requires Valid(cfg, s)
    requires SampleTimesteps(cfg, s, n, explore, random, forceReset).Ok?
    ensures s.cursor + n <= |s.env.steps|
    ensures var out := SampleTimesteps(cfg, s, n, explore, random, forceReset).value.1;
      && TotalLen(out) == n
      && (forall a :: TotalAgentLen(out, a) == Participations(s.env.steps, s.cursor, s.cursor + n, a))
  {
    Phases(cfg, s, n, explore, random, forceReset);
    var w := StartWalk(cfg, s, forceReset);
    StartWalkFacts(cfg, s, forceReset);
    var (w1, dones) := Loop(s.env, cfg.mapping, s.hasModule, explore, random, w, 0, n).value;
    LoopTotals(s.env, cfg.mapping, s.hasModule, explore, random, w, n);
    ConcludeTotals(cfg, s, StartRegistry(s, forceReset), w1, dones);
  }

  /** The step totals of a loop that starts from an episode with no
      recorded step. */
  lemma LoopTotals(env: Env, mapping: AgentId -> ModuleId, hasModule: bool, explore: bool, random: bool, w: Walk, n: nat)
    requires WalkOk(env, mapping, hasModule, w)
    requires Loop(env, mapping, hasModule, explore, random, w, 0, n).Ok?
    requires w.episode.len == 0 && forall a :: AgentLen(w.episode.agents, a) == 0
    ensures var (w', ds) := Loop(env, mapping, hasModule, explore, random, w, 0, n).value;
      && w.cursor <= w'.cursor <= |env.steps|
      && TotalLen(ds) + w'.episode.len == w'.cursor - w.cursor
      && (forall a :: TotalAgentLen(ds, a) + AgentLen(w'.episode.agents, a) == Participations(env.steps, w.cursor, w'.cursor, a))
  {
    var (w', ds) := Loop(env, mapping, hasModule, explore, random, w, 0, n).value;
    LoopLen(env, mapping, hasModule, explore, random, w, 0, n, w', ds);
    forall a ensures TotalAgentLen(ds, a) + AgentLen(w'.episode.agents, a) == Participations(env.steps, w.cursor, w'.cursor, a) {
      LoopAgentSteps(env, mapping, hasModule, explore, random, w, 0, n, w', ds, a);
      WindowAddedFacts(env.steps, w.cursor, w'.cursor, mapping, a);
    }
  }

  /** The environment is reset once per completed episode, plus once at the
      gate; the env-to-module connector runs once per module-driven step
      (less the one a cached output saves), once per completed episode and
      once for the look-ahead when there is a module. */
  lemma SampleTimestepsEvents(cfg: Config, s: Runner, n: nat, explore: bool, random: bool, forceReset: bool)
    requires Valid(cfg, s)
    requires SampleTimesteps(cfg, s, n, explore, random, forceReset).Ok?
    ensures var s' := SampleTimesteps(cfg, s, n, explore, random, forceReset).value.0;
      && |s'.doneQueue| >= |s.doneQueue|
      && var completed := |s'.doneQueue| - |s.doneQueue|;
      && Resets(s'.trace) == Resets(s.trace) + (if ResetGate(s, forceReset) then 1 else 0) + completed
      && Passes(s'.trace) == Passes(s.trace)
           + (if random then 0 else n - (if n > 0 && !ResetGate(s, forceReset) && s.cache.Some? then 1 else 0))
           + (if s.hasModule then completed + 1 else 0)
  {
    Phases(cfg, s, n, explore, random, forceReset);
    var w := StartWalk(cfg, s, forceReset);
    var reg := StartRegistry(s, forceReset);
    StartWalkFacts(cfg, s, forceReset);
    var (w1, dones) := Loop(s.env, cfg.mapping, s.hasModule, explore, random, w, 0, n).value;
    LoopEvents(s.env, cfg.mapping, s.hasModule, explore, random, w, 0, n, w1, dones);
    ConcludeFacts(cfg, s, reg, w1, dones);
  }

  /** A forced reset drops the registered chunks of every episode still
      waiting in the done queue: after the call, none of their ids has a
      registry entry, so the next `get_metrics` sees only their final
      chunks. */
  lemma ResetForgetsQueuedChunks(cfg: Config, s: Runner, n: nat, explore: bool, random: bool)
    requires Valid(cfg, s)
    requires SampleTimesteps(cfg, s, n, explore, random, true).Ok?
    ensures var s' := SampleTimesteps(cfg, s, n, explore, random, true).value.0;
      forall d | d in s.doneQueue :: d.id !in s'.ongoing
  {
    SampleTimestepsQueue(cfg, s, n, explore, random, true);
    SampleTimestepsValid(cfg, s, n, explore, random, true);
    var s' := SampleTimesteps(cfg, s, n, explore, random, true).value.0;
    forall d | d in s.doneQueue ensures d.id !in s'.ongoing {
      assert d in s'.doneQueue by {
        assert s'.doneQueue[..|s.doneQueue|] == s.doneQueue;
        var i :| 0 <= i < |s.doneQueue| && s.doneQueue[i] == d;
        assert s'.doneQueue[i] == d;
      }
      assert DoneIn(s'.trace, d.id);
    }
  }

  /** The chunk guard is the episode's total env-step clock, not the
      chunk's own length: a zero-step call that continues an episode which
      already returned a chunk returns, and registers, one more chunk
      holding no step. */
  lemma ZeroStepsReturnEmptyChunk(cfg: Config, s: Runner, explore: bool, random: bool)
    requires Valid(cfg, s) && !s.needsInitialReset && s.episode.tStarted > 0
    ensures SampleTimesteps(cfg, s, 0, explore, random, false).Ok?
    ensures var (s', out) := SampleTimesteps(cfg, s, 0, explore, random, false).value;
      && |out| == 1 && out[0].id == s.episode.id && out[0].len == 0 && !out[0].done
      && s'.ongoing == s.ongoing[s.episode.id := Registered(s.ongoing, s.episode.id) + [out[0]]]
  {
    FinalizeFacts(s.episode, cfg.mapping);
  }
}
