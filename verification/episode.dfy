/** The episode record as the runner sees it: an id, the env-step clock, the
    accumulated duration, one sub-record per agent (in the order the agents
    first appeared) and the done flag. The record's own implementation is not
    part of this model; only the operations the runner relies on are here:
    `add_env_reset`, `add_env_step`, `cut`, `finalize`, `len`, `get_return`
    and `module_for`. */
module Episodes {
  import opened Types

  /** One agent's part of an episode chunk: its module, the steps it
      observed in this chunk and the rewards it collected. */
  datatype AgentChunk = AgentChunk(agent: AgentId, moduleId: ModuleId, len: nat, ret: int)

  /** `tStarted` is the env step at which this chunk begins (0 for a fresh
      episode, the cut point for a continuation); `len` is `len(episode)`,
      the env steps recorded in this chunk. */
  datatype Episode = Episode(
    id: EpisodeId,
    tStarted: nat,
    len: nat,
    duration: nat,
    agents: seq<AgentChunk>,
    done: bool)
  {
    /** `env_t`: the episode's global env-step counter, across chunks. */
    function EnvT(): nat { tStarted + len }
  }

  /** Steps agent `a` observed in the chunks (`len(sa_episode)`). */
  function AgentLen(cs: seq<AgentChunk>, a: AgentId): int {
    if |cs| == 0 then 0 else (if cs[0].agent == a then cs[0].len else 0) + AgentLen(cs[1..], a)
  }

  /** Rewards agent `a` collected in the chunks (`sa_episode.get_return()`). */
  function AgentRet(cs: seq<AgentChunk>, a: AgentId): int {
    if |cs| == 0 then 0 else (if cs[0].agent == a then cs[0].ret else 0) + AgentRet(cs[1..], a)
  }

  /** Rewards collected by all agents that module `m` controls. */
  function ModuleRet(cs: seq<AgentChunk>, m: ModuleId): int {
    if |cs| == 0 then 0 else (if cs[0].moduleId == m then cs[0].ret else 0) + ModuleRet(cs[1..], m)
  }

  /** How many sub-records agent `a` has. */
  function Occurrences(cs: seq<AgentChunk>, a: AgentId): nat {
    if |cs| == 0 then 0 else (if cs[0].agent == a then 1 else 0) + Occurrences(cs[1..], a)
  }

  /** Rewards collected by all agents. */
  function RetSum(cs: seq<AgentChunk>): int {
    if |cs| == 0 then 0 else cs[0].ret + RetSum(cs[1..])
  }

  predicate HasAgent(cs: seq<AgentChunk>, a: AgentId) {
    Occurrences(cs, a) > 0
  }

  /** `get_return()`: the sum of all agents' returns. */
  function Return(e: Episode): int {
    RetSum(e.agents)
  }

  function Reward(rewards: map<AgentId, int>, a: AgentId): int {
    if a in rewards then rewards[a] else 0
  }

  /** One sub-record per agent (the records are a dict keyed by agent id). */
  ghost predicate DistinctAgents(cs: seq<AgentChunk>) {
    forall a :: Occurrences(cs, a) <= 1
  }

  /** Every sub-record is bound to the module the mapping function assigns,
      is never longer than `bound`, and an agent that never observed has
      collected nothing. */
  predicate ChunksOk(cs: seq<AgentChunk>, mapping: AgentId -> ModuleId, bound: nat) {
    forall c | c in cs :: c.moduleId == mapping(c.agent) && c.len <= bound && (c.len == 0 ==> c.ret == 0)
  }

  /** The record invariants the runner relies on; in particular no agent's
      sub-record is longer than the episode chunk itself. */
  ghost predicate WellFormed(e: Episode, mapping: AgentId -> ModuleId) {
    DistinctAgents(e.agents) && ChunksOk(e.agents, mapping, e.len)
  }

  /** `_new_episode()`: an empty record under a fresh id. */
  function New(id: EpisodeId): Episode {
    Episode(id, 0, 0, 0, [], false)
  }

  /** Sub-records for the agents of `obs` not yet in `known`, in `obs` order. */
  function Fresh(known: seq<AgentChunk>, obs: seq<AgentId>, mapping: AgentId -> ModuleId,
                 rewards: map<AgentId, int>, len: nat): seq<AgentChunk>
  {
    if |obs| == 0 then []
    else
      (if HasAgent(known, obs[0]) then []
       else [AgentChunk(obs[0], mapping(obs[0]), len, if len == 0 then 0 else Reward(rewards, obs[0]))])
      + Fresh(known, obs[1..], mapping, rewards, len)
  }

  /** One more observed step, and its reward, for every known agent in `obs`. */
  function Bumped(cs: seq<AgentChunk>, obs: seq<AgentId>, rewards: map<AgentId, int>): seq<AgentChunk> {
    if |cs| == 0 then []
    else
      [if cs[0].agent in obs
       then cs[0].(len := cs[0].len + 1, ret := cs[0].ret + Reward(rewards, cs[0].agent))
       else cs[0]]
      + Bumped(cs[1..], obs, rewards)
  }

  /** `add_env_reset`: agents that observe at reset get an empty sub-record. */
  function AddReset(e: Episode, obs: seq<AgentId>, mapping: AgentId -> ModuleId): Episode {
    e.(agents := e.agents + Fresh(e.agents, obs, mapping, map[], 0))
  }

  /** `add_env_step`: one env step; every observing agent gets one more step
      and its reward, newcomers get a sub-record of length one. */
  function AddStep(e: Episode, o: StepOutcome, mapping: AgentId -> ModuleId): Episode {
    e.(len := e.len + 1,
       duration := e.duration + o.elapsed,
       agents := Bumped(e.agents, o.obs, o.rewards) + Fresh(e.agents, o.obs, mapping, o.rewards, 1),
       done := o.done)
  }

  function Zeroed(cs: seq<AgentChunk>): seq<AgentChunk> {
    if |cs| == 0 then [] else [cs[0].(len := 0, ret := 0)] + Zeroed(cs[1..])
  }

  /** `cut()`: the continuation chunk of the same episode. It starts where
      this chunk ends and keeps every agent, with nothing recorded yet. */
  function Cut(e: Episode): Episode {
    Episode(e.id, e.EnvT(), 0, 0, Zeroed(e.agents), false)
  }

  function DropEmpty(cs: seq<AgentChunk>): seq<AgentChunk> {
    if |cs| == 0 then []
    else (if cs[0].len == 0 then [] else [cs[0]]) + DropEmpty(cs[1..])
  }

  /** `finalize(drop_zero_len_single_agent_episodes=True)`. */
  function Finalize(e: Episode): Episode {
    e.(agents := DropEmpty(e.agents))
  }

  /** `module_for(aid)`: the module recorded for a known agent, otherwise
      the one the mapping function assigns. */
  function ModuleFor(e: Episode, a: AgentId, mapping: AgentId -> ModuleId): ModuleId {
    RecordedModule(e.agents, a, mapping)
  }

  function RecordedModule(cs: seq<AgentChunk>, a: AgentId, mapping: AgentId -> ModuleId): ModuleId {
    if |cs| == 0 then mapping(a)
    else if cs[0].agent == a then cs[0].moduleId
    else RecordedModule(cs[1..], a, mapping)
  }

  // Totals over a list of episode chunks.

  function TotalLen(es: seq<Episode>): int {
    if |es| == 0 then 0 else es[0].len + TotalLen(es[1..])
  }

  function TotalDuration(es: seq<Episode>): int {
    if |es| == 0 then 0 else es[0].duration + TotalDuration(es[1..])
  }

  function TotalReturn(es: seq<Episode>): int {
    if |es| == 0 then 0 else Return(es[0]) + TotalReturn(es[1..])
  }

  function TotalAgentLen(es: seq<Episode>, a: AgentId): int {
    if |es| == 0 then 0 else AgentLen(es[0].agents, a) + TotalAgentLen(es[1..], a)
  }

  function TotalAgentRet(es: seq<Episode>, a: AgentId): int {
    if |es| == 0 then 0 else AgentRet(es[0].agents, a) + TotalAgentRet(es[1..], a)
  }

  function TotalModuleRet(es: seq<Episode>, m: ModuleId): int {
    if |es| == 0 then 0 else ModuleRet(es[0].agents, m) + TotalModuleRet(es[1..], m)
  }

  // ---------------------------------------------------------------------
  // Lemmas about the record operations.

  /** Every per-chunk sum distributes over concatenation. */
  lemma {:induction false} SumsConcat(cs: seq<AgentChunk>, ds: seq<AgentChunk>)
    ensures forall a :: Occurrences(cs + ds, a) == Occurrences(cs, a) + Occurrences(ds, a)
    ensures forall a :: AgentLen(cs + ds, a) == AgentLen(cs, a) + AgentLen(ds, a)
    ensures forall a :: AgentRet(cs + ds, a) == AgentRet(cs, a) + AgentRet(ds, a)
    ensures forall m :: ModuleRet(cs + ds, m) == ModuleRet(cs, m) + ModuleRet(ds, m)
    ensures RetSum(cs + ds) == RetSum(cs) + RetSum(ds)
  {
    if |cs| == 0 {
      assert cs + ds == ds;
    } else {
      assert (cs + ds)[1..] == cs[1..] + ds;
      SumsConcat(cs[1..], ds);
    }
  }

  lemma {:induction false} ChunksOkConcat(cs: seq<AgentChunk>, ds: seq<AgentChunk>, mapping: AgentId -> ModuleId, bound: nat)
    requires ChunksOk(cs, mapping, bound) && ChunksOk(ds, mapping, bound)
    ensures ChunksOk(cs + ds, mapping, bound)
  {
    forall c | c in cs + ds
      ensures c.moduleId == mapping(c.agent) && c.len <= bound && (c.len == 0 ==> c.ret == 0)
    {
      if c in cs {} else { assert c in ds; }
    }
  }

  lemma {:induction false} FreshCount(known: seq<AgentChunk>, obs: seq<AgentId>, mapping: AgentId -> ModuleId,
                                      rewards: map<AgentId, int>, len: nat, a: AgentId)
    requires Distinct(obs)
    ensures Occurrences(Fresh(known, obs, mapping, rewards, len), a) == if a in obs && !HasAgent(known, a) then 1 else 0
    ensures AgentLen(Fresh(known, obs, mapping, rewards, len), a) == if a in obs && !HasAgent(known, a) then len else 0
  {
    if |obs| > 0 {
      var head := if HasAgent(known, obs[0]) then []
        else [AgentChunk(obs[0], mapping(obs[0]), len, if len == 0 then 0 else Reward(rewards, obs[0]))];
      var rest := Fresh(known, obs[1..], mapping, rewards, len);
      DistinctTail(obs);
      assert obs == [obs[0]] + obs[1..];
      FreshCount(known, obs[1..], mapping, rewards, len, a);
      SumsConcat(head, rest);
    }
  }

  lemma {:induction false} FreshOk(known: seq<AgentChunk>, obs: seq<AgentId>, mapping: AgentId -> ModuleId,
                                   rewards: map<AgentId, int>, len: nat)
    ensures ChunksOk(Fresh(known, obs, mapping, rewards, len), mapping, len)
  {
    if |obs| > 0 {
      var head := if HasAgent(known, obs[0]) then []
        else [AgentChunk(obs[0], mapping(obs[0]), len, if len == 0 then 0 else Reward(rewards, obs[0]))];
      FreshOk(known, obs[1..], mapping, rewards, len);
      ChunksOkConcat(head, Fresh(known, obs[1..], mapping, rewards, len), mapping, len);
    }
  }

  lemma {:induction false} BumpedCount(cs: seq<AgentChunk>, obs: seq<AgentId>, rewards: map<AgentId, int>, a: AgentId)
    ensures Occurrences(Bumped(cs, obs, rewards), a) == Occurrences(cs, a)
    ensures AgentLen(Bumped(cs, obs, rewards), a) == AgentLen(cs, a) + if a in obs then Occurrences(cs, a) else 0
  {
    if |cs| > 0 {
      BumpedCount(cs[1..], obs, rewards, a);
    }
  }

  lemma {:induction false} BumpedOk(cs: seq<AgentChunk>, obs: seq<AgentId>, rewards: map<AgentId, int>,
                                    mapping: AgentId -> ModuleId, bound: nat)
    requires ChunksOk(cs, mapping, bound)
    ensures ChunksOk(Bumped(cs, obs, rewards), mapping, bound + 1)
  {
    if |cs| > 0 {
      assert cs[0] in cs;
      BumpedOk(cs[1..], obs, rewards, mapping, bound);
      var b := Bumped(cs, obs, rewards);
      ChunksOkConcat([b[0]], Bumped(cs[1..], obs, rewards), mapping, bound + 1);
    }
  }

  /** The step invariant of `add_env_step`: the env-step clock advances by
      exactly one, the id is kept, and an agent's sub-record grows by one
      step iff the agent is among the step's observations. */
  lemma AddStepFacts(e: Episode, o: StepOutcome, mapping: AgentId -> ModuleId)
    requires WellFormed(e, mapping) && Distinct(o.obs)
    ensures var e' := AddStep(e, o, mapping);
      && e'.id == e.id && e'.tStarted == e.tStarted && e'.EnvT() == e.EnvT() + 1
      && e'.done == o.done
      && WellFormed(e', mapping)
      && (forall a :: AgentLen(e'.agents, a) == AgentLen(e.agents, a) + if a in o.obs then 1 else 0)
  {
    var bs := Bumped(e.agents, o.obs, o.rewards);
    var fs := Fresh(e.agents, o.obs, mapping, o.rewards, 1);
    forall a ensures Occurrences(bs + fs, a) <= 1
      && AgentLen(bs + fs, a) == AgentLen(e.agents, a) + if a in o.obs then 1 else 0
    {
      BumpedCount(e.agents, o.obs, o.rewards, a);
      FreshCount(e.agents, o.obs, mapping, o.rewards, 1, a);
      SumsConcat(bs, fs);
      assert Occurrences(e.agents, a) <= 1;
      if HasAgent(e.agents, a) { assert Occurrences(e.agents, a) == 1; }
    }
    BumpedOk(e.agents, o.obs, o.rewards, mapping, e.len);
    FreshOk(e.agents, o.obs, mapping, o.rewards, 1);
    ChunksOkConcat(bs, fs, mapping, e.len + 1);
  }

  /** `add_env_reset` registers every observing agent and records no step. */
  lemma AddResetFacts(e: Episode, obs: seq<AgentId>, mapping: AgentId -> ModuleId)
    requires WellFormed(e, mapping) && Distinct(obs)
    ensures var e' := AddReset(e, obs, mapping);
      && e'.id == e.id && e'.tStarted == e.tStarted && e'.len == e.len && e'.done == e.done
      && WellFormed(e', mapping)
      && (forall a :: AgentLen(e'.agents, a) == AgentLen(e.agents, a))
      && (forall a :: a in obs ==> HasAgent(e'.agents, a))
  {
    var fs := Fresh(e.agents, obs, mapping, map[], 0);
    forall a ensures Occurrences(e.agents + fs, a) <= 1
      && AgentLen(e.agents + fs, a) == AgentLen(e.agents, a)
      && (a in obs ==> HasAgent(e.agents + fs, a))
    {
      FreshCount(e.agents, obs, mapping, map[], 0, a);
      SumsConcat(e.agents, fs);
      assert Occurrences(e.agents, a) <= 1;
    }
    FreshOk(e.agents, obs, mapping, map[], 0);
    ChunksOkConcat(e.agents, fs, mapping, e.len);
  }

  lemma {:induction false} ZeroedFacts(cs: seq<AgentChunk>, mapping: AgentId -> ModuleId, bound: nat, a: AgentId)
    requires ChunksOk(cs, mapping, bound)
    ensures Occurrences(Zeroed(cs), a) == Occurrences(cs, a)
    ensures AgentLen(Zeroed(cs), a) == 0
    ensures ChunksOk(Zeroed(cs), mapping, 0)
  {
    if |cs| > 0 {
      assert cs[0] in cs;
      ZeroedFacts(cs[1..], mapping, bound, a);
      var z := Zeroed(cs);
      ChunksOkConcat([z[0]], Zeroed(cs[1..]), mapping, 0);
    }
  }

  /** `cut()` keeps the id and the env-step clock, and the continuation has
      no recorded steps, for the episode nor for any agent. */
  lemma CutFacts(e: Episode, mapping: AgentId -> ModuleId)
    requires WellFormed(e, mapping)
    ensures var c := Cut(e);
      && c.id == e.id && c.EnvT() == e.EnvT() && c.tStarted == e.EnvT() && c.len == 0 && !c.done
      && WellFormed(c, mapping)
      && (forall a :: AgentLen(c.agents, a) == 0)
  {
    forall a ensures Occurrences(Zeroed(e.agents), a) <= 1 && AgentLen(Zeroed(e.agents), a) == 0 {
      ZeroedFacts(e.agents, mapping, e.len, a);
      assert Occurrences(e.agents, a) <= 1;
    }
    if |e.agents| > 0 {
      ZeroedFacts(e.agents, mapping, e.len, e.agents[0].agent);
    }
  }

  lemma {:induction false} DropEmptyOk(cs: seq<AgentChunk>, mapping: AgentId -> ModuleId, bound: nat)
    requires ChunksOk(cs, mapping, bound)
    ensures ChunksOk(DropEmpty(cs), mapping, bound)
    ensures forall c | c in DropEmpty(cs) :: c in cs && c.len > 0
    ensures forall c | c in cs && c.len > 0 :: c in DropEmpty(cs)
  {
    if |cs| > 0 {
      DropEmptyOk(cs[1..], mapping, bound);
      var head := if cs[0].len == 0 then [] else [cs[0]];
      assert cs[0] in cs;
      ChunksOkConcat(head, DropEmpty(cs[1..]), mapping, bound);
      forall c | c in cs && c.len > 0 ensures c in DropEmpty(cs) {
        if c != cs[0] { assert c in cs[1..]; }
      }
    }
  }

  /** Dropping chunks with no steps and no rewards keeps every sum, and
      never adds a sub-record. */
  lemma {:induction false} DropEmptySums(cs: seq<AgentChunk>, mapping: AgentId -> ModuleId, bound: nat)
    requires ChunksOk(cs, mapping, bound)
    ensures forall a :: Occurrences(DropEmpty(cs), a) <= Occurrences(cs, a)
    ensures forall a :: AgentLen(DropEmpty(cs), a) == AgentLen(cs, a)
    ensures forall a :: AgentRet(DropEmpty(cs), a) == AgentRet(cs, a)
    ensures forall m :: ModuleRet(DropEmpty(cs), m) == ModuleRet(cs, m)
    ensures RetSum(DropEmpty(cs)) == RetSum(cs)
  {
    if |cs| > 0 {
      assert cs[0] in cs;
      DropEmptySums(cs[1..], mapping, bound);
      var head := if cs[0].len == 0 then [] else [cs[0]];
      SumsConcat(head, DropEmpty(cs[1..]));
    }
  }

  /** `finalize` drops exactly the agents that observed nothing in this
      chunk and changes no count: id, clock, per-agent steps and returns,
      per-module returns and the episode return are all kept. */
  lemma FinalizeFacts(e: Episode, mapping: AgentId -> ModuleId)
    requires WellFormed(e, mapping)
    ensures var f := Finalize(e);
      && f.id == e.id && f.EnvT() == e.EnvT() && f.len == e.len && f.done == e.done && f.duration == e.duration
      && WellFormed(f, mapping)
      && (forall c | c in f.agents :: c.len > 0 && c in e.agents)
      && (forall c | c in e.agents && c.len > 0 :: c in f.agents)
      && (forall a :: AgentLen(f.agents, a) == AgentLen(e.agents, a))
      && (forall a :: AgentRet(f.agents, a) == AgentRet(e.agents, a))
      && (forall m :: ModuleRet(f.agents, m) == ModuleRet(e.agents, m))
      && Return(f) == Return(e)
  {
    DropEmptyOk(e.agents, mapping, e.len);
    DropEmptySums(e.agents, mapping, e.len);
    forall a ensures Occurrences(DropEmpty(e.agents), a) <= 1 {
      assert Occurrences(e.agents, a) <= 1;
    }
  }

  /** For a well-formed episode `module_for` is the mapping function. */
  lemma ModuleForMapped(e: Episode, a: AgentId, mapping: AgentId -> ModuleId)
    requires WellFormed(e, mapping)
    ensures ModuleFor(e, a, mapping) == mapping(a)
  {
    RecordedModuleMapped(e.agents, a, mapping, e.len);
  }

  lemma {:induction false} RecordedModuleMapped(cs: seq<AgentChunk>, a: AgentId, mapping: AgentId -> ModuleId, bound: nat)
    requires ChunksOk(cs, mapping, bound)
    ensures RecordedModule(cs, a, mapping) == mapping(a)
  {
    if |cs| > 0 {
      assert cs[0] in cs;
      if cs[0].agent != a {
        RecordedModuleMapped(cs[1..], a, mapping, bound);
      }
    }
  }

  lemma {:induction false} TotalLenConcat(xs: seq<Episode>, ys: seq<Episode>)
    ensures TotalLen(xs + ys) == TotalLen(xs) + TotalLen(ys)
  {
    if |xs| == 0 {
      assert xs + ys == ys;
    } else {
      assert (xs + ys)[1..] == xs[1..] + ys;
      TotalLenConcat(xs[1..], ys);
    }
  }

  lemma {:induction false} TotalAgentLenConcat(xs: seq<Episode>, ys: seq<Episode>, a: AgentId)
    ensures TotalAgentLen(xs + ys, a) == TotalAgentLen(xs, a) + TotalAgentLen(ys, a)
  {
    if |xs| == 0 {
      assert xs + ys == ys;
    } else {
      assert (xs + ys)[1..] == xs[1..] + ys;
      TotalAgentLenConcat(xs[1..], ys, a);
    }
  }

  /** Chunks bounded by length zero record no step for any agent. */
  lemma {:induction false} EmptyChunksLen(cs: seq<AgentChunk>, mapping: AgentId -> ModuleId, a: AgentId)
    requires ChunksOk(cs, mapping, 0)
    ensures AgentLen(cs, a) == 0
  {
    if |cs| > 0 {
      assert cs[0] in cs;
      EmptyChunksLen(cs[1..], mapping, a);
    }
  }

  function OptList(d: Option<Episode>): seq<Episode> {
    if d.Some? then [d.value] else []
  }

  /** Ids of the given episodes. */
  function Ids(ds: seq<Episode>): set<EpisodeId> {
    set d | d in ds :: d.id
  }

  lemma IdsPrepend(d: Option<Episode>, ds: seq<Episode>)
    ensures forall x :: x in Ids(OptList(d) + ds) <==> (d.Some? && x == d.value.id) || x in Ids(ds)
  {
    forall x ensures x in Ids(OptList(d) + ds) <==> (d.Some? && x == d.value.id) || x in Ids(ds) {
      if x in Ids(ds) {
        var e :| e in ds && e.id == x;
        assert e in OptList(d) + ds;
      }
      if d.Some? {
        assert d.value in OptList(d) + ds;
      }
    }
  }

  predicate IncreasingIds(ds: seq<Episode>) {
    forall i, j | 0 <= i < j < |ds| :: ds[i].id < ds[j].id
  }

  lemma PrependIncreasing(d: Episode, ds: seq<Episode>)
    requires IncreasingIds(ds) && forall e | e in ds :: d.id < e.id
    ensures IncreasingIds([d] + ds)
  {
    var all := [d] + ds;
    forall i, j | 0 <= i < j < |all| ensures all[i].id < all[j].id {
      assert all[j] == ds[j - 1];
      if i > 0 { assert all[i] == ds[i - 1]; } else { assert ds[j - 1] in ds; }
    }
  }
}
