/** The runner's own state between calls, its invariant, and the state a
    freshly constructed runner is in. */
module RunnerState {
  import opened Types
  import opened Episodes
  import opened Metrics
  import opened Trace
  import opened Stepping

  /** `MultiAgentEnvRunner`'s fields, as far as the sampling and metrics
      logic reads them:
      - `hasModule`: whether `self.module` was built (it is `None` when only
        random actions are possible);
      - `needsInitialReset`, `episode` and `cache`: `_needs_initial_reset`,
        `_episode` and `_cached_to_module`;
      - `cursor`: the next outcome the environment oracle yields;
      - `nextId`: the next fresh episode id;
      - `ongoing` and `doneQueue`: `_ongoing_episodes_for_metrics` and
        `_done_episodes_for_metrics`;
      - `log`: the metrics logger; `trace`: the observable history;
      - `weightsSeqNo`, `weights`, `envToModuleState`, `moduleToEnvState`:
        `_weights_seq_no` and the states of the module and the connectors. */
  datatype Runner = Runner(
    env: Env,
    hasModule: bool,
    needsInitialReset: bool,
    episode: Episode,
    cache: Option<Batch>,
    cursor: nat,
    nextId: nat,
    ongoing: map<EpisodeId, seq<Episode>>,
    doneQueue: seq<Episode>,
    log: Log,
    trace: Trace,
    weightsSeqNo: int,
    weights: Blob,
    envToModuleState: Blob,
    moduleToEnvState: Blob)

  /** `_ongoing_episodes_for_metrics[id]` of the default dict. */
  function Registered(reg: map<EpisodeId, seq<Episode>>, id: EpisodeId): seq<Episode> {
    if id in reg then reg[id] else []
  }

  function WalkOf(s: Runner): Walk {
    Walk(s.cursor, s.episode, s.cache, s.nextId, s.log, s.trace)
  }

  /** A live episode: well formed, under an id already handed out, not done
      and never finalized as done. */
  ghost predicate EpisodeLive(mapping: AgentId -> ModuleId, e: Episode, nextId: nat, trace: Trace) {
    WellFormed(e, mapping) && e.id < nextId && !e.done && !DoneIn(trace, e.id)
  }

  /** The done queue holds done, well-formed episodes, each finalized as
      done in the trace, each at most once. */
  ghost predicate QueueOk(mapping: AgentId -> ModuleId, q: seq<Episode>, trace: Trace) {
    && (forall d | d in q :: d.done && WellFormed(d, mapping) && DoneIn(trace, d.id))
    && (forall i, j | 0 <= i < j < |q| :: q[i].id != q[j].id)
  }

  /** Every registered chunk sits under its own episode's id and was not
      done when it was cut. */
  ghost predicate RegistryOk(mapping: AgentId -> ModuleId, reg: map<EpisodeId, seq<Episode>>) {
    forall id | id in reg :: forall c | c in reg[id] :: c.id == id && !c.done && WellFormed(c, mapping)
  }

  /** The runner invariant. Between calls the trace is well formed; a cached
      env-to-module output exists only with a module and is exactly what a
      pass over the current episode would give; once the first reset has
      happened, the current episode is a live, freshly cut chunk; and the
      done queue and the registry are as above. */
  ghost predicate Valid(cfg: Config, s: Runner) {
    && WellFormedEnv(s.env)
    && s.cursor <= |s.env.steps|
    && TraceOk(s.trace, s.hasModule, s.nextId)
    && (s.cache.Some? ==> s.hasModule && s.cache.value == Pass(s.episode))
    && (!s.needsInitialReset ==> EpisodeLive(cfg.mapping, s.episode, s.nextId, s.trace) && s.episode.len == 0)
    && QueueOk(cfg.mapping, s.doneQueue, s.trace)
    && RegistryOk(cfg.mapping, s.ongoing)
  }

  /** The constructor: no episode yet (the placeholder is never read before
      the first reset), a reset pending, nothing cached, empty registry,
      queue and logger, sequence number 0. */
  function Init(env: Env, hasModule: bool, weights: Blob, envToModuleState: Blob, moduleToEnvState: Blob): (r: Runner)
    ensures r.needsInitialReset && r.cache.None? && r.weightsSeqNo == 0
    ensures r.ongoing == map[] && r.doneQueue == [] && r.trace == Start
    ensures forall k :: Peek(r.log, k) == 0
  {
    Runner(env, hasModule, true, New(0), None, 0, 0, map[], [], Start, Start, 0, weights, envToModuleState, moduleToEnvState)
  }

  /** A constructed runner satisfies the invariant. */
  lemma InitValid(cfg: Config, env: Env, hasModule: bool, weights: Blob, e2m: Blob, m2e: Blob)
    requires WellFormedEnv(env)
    ensures Valid(cfg, Init(env, hasModule, weights, e2m, m2e))
  {
  }

  // ---------------------------------------------------------------------
  // Helpers for maintaining the invariant.

  /** Appending episodes finalized since `tr0` to a queue keeps it valid. */
  lemma QueueExtend(mapping: AgentId -> ModuleId, q: seq<Episode>, ds: seq<Episode>, tr0: Trace, tr1: Trace)
    requires QueueOk(mapping, q, tr0)
    requires forall x :: DoneIn(tr0, x) ==> DoneIn(tr1, x)
    requires forall d | d in ds :: d.done && WellFormed(d, mapping) && DoneIn(tr1, d.id) && !DoneIn(tr0, d.id)
    requires IncreasingIds(ds)
    ensures QueueOk(mapping, q + ds, tr1)
  {
    var all := q + ds;
    forall d | d in all ensures d.done && WellFormed(d, mapping) && DoneIn(tr1, d.id) {
      if d in q {
        assert DoneIn(tr0, d.id);
      } else {
        assert d in ds;
      }
    }
    forall i, j | 0 <= i < j < |all| ensures all[i].id != all[j].id {
      if j < |q| {
        assert all[i] == q[i] && all[j] == q[j];
      } else if i < |q| {
        assert all[i] == q[i] && q[i] in q;
        assert all[j] == ds[j - |q|] && ds[j - |q|] in ds;
        assert DoneIn(tr0, q[i].id);
      } else {
        assert all[i] == ds[i - |q|] && all[j] == ds[j - |q|];
      }
    }
  }

  lemma QueueGrow(mapping: AgentId -> ModuleId, q: seq<Episode>, tr0: Trace, tr1: Trace)
    requires QueueOk(mapping, q, tr0)
    requires forall x :: DoneIn(tr0, x) ==> DoneIn(tr1, x)
    ensures QueueOk(mapping, q, tr1)
  {
    forall d | d in q ensures DoneIn(tr1, d.id) {
      assert DoneIn(tr0, d.id);
    }
  }

  /** Registering a chunk under its own id keeps the registry valid. */
  lemma RegistryAppend(mapping: AgentId -> ModuleId, reg: map<EpisodeId, seq<Episode>>, c: Episode)
    requires RegistryOk(mapping, reg) && !c.done && WellFormed(c, mapping)
    ensures RegistryOk(mapping, reg[c.id := Registered(reg, c.id) + [c]])
  {
    var reg' := reg[c.id := Registered(reg, c.id) + [c]];
    forall id | id in reg' ensures forall x: Episode | x in reg'[id] :: x.id == id && !x.done && WellFormed(x, mapping) {
      if id == c.id {
        forall x: Episode | x in reg'[id] ensures x.id == id && !x.done && WellFormed(x, mapping) {
          if x != c { assert x in Registered(reg, c.id); }
        }
      }
    }
  }
}
