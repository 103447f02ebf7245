/** `get_metrics`: per-episode statistics for every completed episode in the
    done queue, combined with the chunks of the same episode returned
    earlier; then the episode counter, the emptied queue, and the reduce. */
module EpisodeMetrics {
  import opened Types
  import opened Episodes
  import opened Metrics
  import opened Trace
  import opened RunnerState

  /** The agents with a sub-record in the chunks. */
  function AgentsOf(cs: seq<AgentChunk>): set<AgentId> {
    if |cs| == 0 then {} else {cs[0].agent} + AgentsOf(cs[1..])
  }

  /** The modules bound to a sub-record in the chunks. */
  function ModulesOf(cs: seq<AgentChunk>): set<ModuleId> {
    if |cs| == 0 then {} else {cs[0].moduleId} + ModulesOf(cs[1..])
  }

  function AllAgents(es: seq<Episode>): set<AgentId> {
    if |es| == 0 then {} else AgentsOf(es[0].agents) + AllAgents(es[1..])
  }

  function AllModules(es: seq<Episode>): set<ModuleId> {
    if |es| == 0 then {} else ModulesOf(es[0].agents) + AllModules(es[1..])
  }

  /** The statistics of done episode `e` together with its earlier chunks:
      every quantity is the sum over the episode and all the chunks, and a
      per-agent (per-module) entry exists for every agent (module) that has
      a sub-record in any of them. */
  function StatsOf(e: Episode, chunks: seq<Episode>): EpisodeStats {
    var all := [e] + chunks;
    EpisodeStats(
      TotalLen(all),
      TotalReturn(all),
      TotalDuration(all),
      map a | a in AllAgents(all) :: TotalAgentRet(all, a),
      map m | m in AllModules(all) :: TotalModuleRet(all, m),
      map a | a in AllAgents(all) :: TotalAgentLen(all, a))
  }

  /** The return of the last sub-record bound to module `m`, which is what
      a dict comprehension keyed by module id keeps. */
  function LastModuleRet(cs: seq<AgentChunk>, m: ModuleId): int {
    if |cs| == 0 then 0
    else if cs[|cs| - 1].moduleId == m then cs[|cs| - 1].ret
    else LastModuleRet(cs[..|cs| - 1], m)
  }

  /** The statistics as the per-module returns are computed in the source:
      the done episode contributes only the last of its agents' returns for
      each module, while the earlier chunks contribute all of theirs. */
  function StatsAsWritten(e: Episode, chunks: seq<Episode>): EpisodeStats {
    var s := StatsOf(e, chunks);
    s.(moduleReturns := map m | m in AllModules([e] + chunks) :: LastModuleRet(e.agents, m) + TotalModuleRet(chunks, m))
  }

  /** One episode's statistics, as the source computes them or corrected. */
  function Stats(e: Episode, chunks: seq<Episode>, asWritten: bool): EpisodeStats {
    if asWritten then StatsAsWritten(e, chunks) else StatsOf(e, chunks)
  }

  /** The loop over the done queue: each episode's statistics are logged,
      and its registry entry, if any, is deleted. */
  function LogQueue(log: Log, q: seq<Episode>, reg: map<EpisodeId, seq<Episode>>, asWritten: bool)
    : (Log, map<EpisodeId, seq<Episode>>)
    decreases |q|
  {
    if |q| == 0 then (log, reg)
    else
      var e := q[0];
      LogQueue(Then(log, LogEpisode(Stats(e, Registered(reg, e.id), asWritten))), q[1..], reg - {e.id}, asWritten)
  }

  function GetMetricsBy(s: Runner, asWritten: bool): Runner {
    var (log1, reg1) := LogQueue(s.log, s.doneQueue, s.ongoing, asWritten);
    var log2 := Then(log1, LogValue(NumEpisodes, |s.doneQueue|));
    s.(log := Then(log2, Reduce), ongoing := reg1, doneQueue := [])
  }

  /** `get_metrics` as the source does it. */
  function GetMetrics(s: Runner): Runner {
    GetMetricsBy(s, true)
  }

  /** `get_metrics` with every sub-record's return counted for its module. */
  function GetMetricsCorrected(s: Runner): Runner {
    GetMetricsBy(s, false)
  }

  // ---------------------------------------------------------------------
  // Reference definitions.

  /** The per-episode statistics logged so far, oldest first. */
  function EpisodesLogged(log: Log): seq<EpisodeStats> {
    match log
    case Start => []
    case Then(before, entry) => EpisodesLogged(before) + if entry.LogEpisode? then [entry.stats] else []
  }

  /** What the queue should yield: every episode's statistics, computed
      with the registry as it was before `get_metrics` began. */
  function StatsList(q: seq<Episode>, reg: map<EpisodeId, seq<Episode>>, asWritten: bool): seq<EpisodeStats> {
    if |q| == 0 then [] else [Stats(q[0], Registered(reg, q[0].id), asWritten)] + StatsList(q[1..], reg, asWritten)
  }

  predicate DistinctIds(q: seq<Episode>) {
    forall i, j | 0 <= i < j < |q| :: q[i].id != q[j].id
  }

  // ---------------------------------------------------------------------

  /** The loop logs, in queue order, exactly the statistics the reference
      gives when the queued ids are distinct. */
  lemma {:induction false} LogQueueStats(log: Log, q: seq<Episode>, reg: map<EpisodeId, seq<Episode>>, asWritten: bool)
    requires DistinctIds(q)
    decreases |q|
    ensures EpisodesLogged(LogQueue(log, q, reg, asWritten).0) == EpisodesLogged(log) + StatsList(q, reg, asWritten)
  {
    if |q| > 0 {
      var e := q[0];
      var log1 := Then(log, LogEpisode(Stats(e, Registered(reg, e.id), asWritten)));
      DistinctIdsTail(q);
      LogQueueStats(log1, q[1..], reg - {e.id}, asWritten);
      StatsListIgnoresOthers(q[1..], reg, e.id, asWritten);
    }
  }

  /** The rest of a queue with distinct ids has distinct ids, none of them
      the head's. */
  lemma DistinctIdsTail(q: seq<Episode>)
    requires |q| > 0 && DistinctIds(q)
    ensures DistinctIds(q[1..])
    ensures forall i | 0 <= i < |q[1..]| :: q[1..][i].id != q[0].id
  {
    forall i, j | 0 <= i < j < |q[1..]| ensures q[1..][i].id != q[1..][j].id {
      assert q[1..][i] == q[i + 1] && q[1..][j] == q[j + 1];
    }
    forall i | 0 <= i < |q[1..]| ensures q[1..][i].id != q[0].id {
      assert q[1..][i] == q[i + 1];
    }
  }

  /** The loop adds to no counter. */
  lemma {:induction false} LogQueuePeek(log: Log, q: seq<Episode>, reg: map<EpisodeId, seq<Episode>>, asWritten: bool, k: Key)
    decreases |q|
    ensures Peek(LogQueue(log, q, reg, asWritten).0, k) == Peek(log, k)
  {
    if |q| > 0 {
      LogQueuePeek(Then(log, LogEpisode(Stats(q[0], Registered(reg, q[0].id), asWritten))), q[1..], reg - {q[0].id}, asWritten, k);
    }
  }

  /** The loop deletes from the registry exactly the queued ids. */
  lemma {:induction false} LogQueueRegistry(log: Log, q: seq<Episode>, reg: map<EpisodeId, seq<Episode>>, asWritten: bool)
    decreases |q|
    ensures LogQueue(log, q, reg, asWritten).1 == reg - Ids(q)
  {
    if |q| > 0 {
      var e := q[0];
      LogQueueRegistry(Then(log, LogEpisode(Stats(e, Registered(reg, e.id), asWritten))), q[1..], reg - {e.id}, asWritten);
      IdsPrepend(Some(e), q[1..]);
      assert OptList(Some(e)) + q[1..] == q;
    }
  }

  /** Deleting an id no queued episode carries does not change what the
      reference yields. */
  lemma {:induction false} StatsListIgnoresOthers(q: seq<Episode>, reg: map<EpisodeId, seq<Episode>>, id: EpisodeId, asWritten: bool)
    requires forall i | 0 <= i < |q| :: q[i].id != id
    ensures StatsList(q, reg - {id}, asWritten) == StatsList(q, reg, asWritten)
  {
    if |q| > 0 {
      assert Registered(reg - {id}, q[0].id) == Registered(reg, q[0].id);
      StatsListIgnoresOthers(q[1..], reg, id, asWritten);
    }
  }

  /** `get_metrics` logs every queued episode's statistics in queue order
      (using the chunks registered before the call), empties the queue,
      drops the queued episodes' registry entries and keeps the others,
      adds the queue length to the episode counter just before the reduce,
      which zeroes every clear-on-reduce counter and keeps the lifetime
      ones. This holds of the source's statistics and of the corrected
      ones alike. */
  lemma GetMetricsFacts(cfg: Config, s: Runner, asWritten: bool)
    requires Valid(cfg, s)
    ensures var s' := GetMetricsBy(s, asWritten);
      && s'.doneQueue == [] && s'.ongoing == s.ongoing - Ids(s.doneQueue)
      && s'.log.Then? && s'.log.last == Reduce
      && EpisodesLogged(s'.log) == EpisodesLogged(s.log) + StatsList(s.doneQueue, s.ongoing, asWritten)
      && Peek(s'.log.before, NumEpisodes) == Peek(s.log, NumEpisodes) + |s.doneQueue|
      && (forall k | k != NumEpisodes :: Peek(s'.log.before, k) == Peek(s.log, k))
      && (forall k :: Peek(s'.log, k) == if ClearOnReduce(k) then 0 else Peek(s.log, k))
      && s'.trace == s.trace && s'.episode == s.episode && s'.cursor == s.cursor
  {
    LogQueueStats(s.log, s.doneQueue, s.ongoing, asWritten);
    LogQueueRegistry(s.log, s.doneQueue, s.ongoing, asWritten);
    forall k ensures Peek(LogQueue(s.log, s.doneQueue, s.ongoing, asWritten).0, k) == Peek(s.log, k) {
      LogQueuePeek(s.log, s.doneQueue, s.ongoing, asWritten, k);
    }
  }

  /** `get_metrics` keeps the runner invariant. */
  lemma GetMetricsValid(cfg: Config, s: Runner, asWritten: bool)
    requires Valid(cfg, s)
    ensures Valid(cfg, GetMetricsBy(s, asWritten))
  {
    LogQueueRegistry(s.log, s.doneQueue, s.ongoing, asWritten);
  }

  /** A second call right after the first logs no episode and counts none. */
  lemma GetMetricsDrains(cfg: Config, s: Runner, asWritten: bool)
    requires Valid(cfg, s)
    ensures var s1 := GetMetricsBy(s, asWritten);
      var s2 := GetMetricsBy(s1, asWritten);
      && EpisodesLogged(s2.log) == EpisodesLogged(s1.log)
      && Peek(s2.log.before, NumEpisodes) == 0
  {
    GetMetricsFacts(cfg, s, asWritten);
    GetMetricsValid(cfg, s, asWritten);
    GetMetricsFacts(cfg, GetMetricsBy(s, asWritten), asWritten);
  }

  /** The statistics of an episode with its chunks are the sums over
      the episode and each chunk: the length, return and duration add up,
      and so does every agent's step count and return. */
  lemma {:induction false} StatsSplit(e: Episode, chunks: seq<Episode>)
    ensures var st := StatsOf(e, chunks);
      && st.length == e.len + TotalLen(chunks)
      && st.ret == Return(e) + TotalReturn(chunks)
      && st.duration == e.duration + TotalDuration(chunks)
      && (forall a | a in st.agentSteps :: st.agentSteps[a] == AgentLen(e.agents, a) + TotalAgentLen(chunks, a))
      && (forall a | a in st.agentReturns :: st.agentReturns[a] == AgentRet(e.agents, a) + TotalAgentRet(chunks, a))
      && (forall m | m in st.moduleReturns :: st.moduleReturns[m] == ModuleRet(e.agents, m) + TotalModuleRet(chunks, m))
  {
    var all := [e] + chunks;
    assert all[0] == e && all[1..] == chunks;
  }

  /** An agent has an entry iff it has a sub-record in the episode or in
      one of its chunks. */
  lemma {:induction false} AgentKeys(e: Episode, chunks: seq<Episode>, a: AgentId)
    ensures a in StatsOf(e, chunks).agentSteps <==>
              (exists c | c in e.agents :: c.agent == a) || (exists i | 0 <= i < |chunks| :: a in AgentsOf(chunks[i].agents))
  {
    var all := [e] + chunks;
    assert all[0] == e && all[1..] == chunks;
    AgentsOfMembers(e.agents, a);
    AllAgentsMembers(chunks, a);
  }

  lemma {:induction false} AgentsOfMembers(cs: seq<AgentChunk>, a: AgentId)
    ensures a in AgentsOf(cs) <==> exists c | c in cs :: c.agent == a
  {
    if |cs| > 0 {
      AgentsOfMembers(cs[1..], a);
      if a in AgentsOf(cs[1..]) {
        var c :| c in cs[1..] && c.agent == a;
        assert c in cs;
      }
      forall c | c in cs && c.agent == a ensures a in AgentsOf(cs) {
        if c != cs[0] { assert c in cs[1..]; }
      }
    }
  }

  lemma {:induction false} AllAgentsMembers(es: seq<Episode>, a: AgentId)
    ensures a in AllAgents(es) <==> exists i | 0 <= i < |es| :: a in AgentsOf(es[i].agents)
  {
    if |es| > 0 {
      AllAgentsMembers(es[1..], a);
      if a in AllAgents(es[1..]) {
        var i :| 0 <= i < |es[1..]| && a in AgentsOf(es[1..][i].agents);
        assert es[i + 1] == es[1..][i];
      }
      forall i | 0 <= i < |es| && a in AgentsOf(es[i].agents) ensures a in AllAgents(es) {
        if i > 0 { assert es[1..][i - 1] == es[i]; }
      }
    }
  }

  // ---------------------------------------------------------------------
  // The per-module returns of the done episode itself.

  /** When no two of the episode's agents share a module, keeping the last
      return per module loses nothing. */
  lemma {:induction false} LastModuleRetUnshared(cs: seq<AgentChunk>, m: ModuleId)
    requires forall i, j | 0 <= i < j < |cs| :: cs[i].moduleId != cs[j].moduleId
    ensures LastModuleRet(cs, m) == ModuleRet(cs, m)
  {
    if |cs| > 0 {
      var init := cs[..|cs| - 1];
      var last := cs[|cs| - 1];
      LastModuleRetUnshared(init, m);
      ModuleRetSnoc(init, last, m);
      assert init + [last] == cs;
      if last.moduleId == m {
        ModuleRetAbsent(init, m);
      }
    }
  }

  lemma {:induction false} ModuleRetSnoc(cs: seq<AgentChunk>, c: AgentChunk, m: ModuleId)
    ensures ModuleRet(cs + [c], m) == ModuleRet(cs, m) + if c.moduleId == m then c.ret else 0
  {
    SumsConcat(cs, [c]);
    assert [c][1..] == [];
    assert ModuleRet([c], m) == (if c.moduleId == m then c.ret else 0) + ModuleRet([], m);
  }

  lemma {:induction false} ModuleRetAbsent(cs: seq<AgentChunk>, m: ModuleId)
    requires forall i | 0 <= i < |cs| :: cs[i].moduleId != m
    ensures ModuleRet(cs, m) == 0
  {
    if |cs| > 0 {
      ModuleRetAbsent(cs[1..], m);
    }
  }

  /** As written, two agents of a done episode that share a module yield
      that module only the second agent's return: with agents `a` and `b`
      both mapped to module `m`, returns 1 and 2 give 2, not 3, so the
      per-module returns no longer add up to the episode's return of 3. */
  lemma SharedModuleReturnLost(a: AgentId, b: AgentId, m: ModuleId)
    requires a != b
    ensures var e := Episode(0, 0, 1, 0, [AgentChunk(a, m, 1, 1), AgentChunk(b, m, 1, 2)], true);
      var w := StatsAsWritten(e, []);
      && w.moduleReturns[m] == 2
      && StatsOf(e, []).moduleReturns[m] == 3
      && ModuleOrder(Flatten([e])) == [m]
      && SumEntries([m], w.moduleReturns) == 2 != w.ret == 3
  {
    var e := Episode(0, 0, 1, 0, [AgentChunk(a, m, 1, 1), AgentChunk(b, m, 1, 2)], true);
    assert e.agents[..1] == [AgentChunk(a, m, 1, 1)];
    assert m in ModulesOf(e.agents);
    assert m in AllModules([e]);
    assert e.agents[1..] == [AgentChunk(b, m, 1, 2)];
    assert e.agents[1..][1..] == [];
    assert ModuleRet(e.agents[1..], m) == 2;
    assert ModuleRet(e.agents, m) == 3;
    assert [e] + [] == [e];
    assert TotalModuleRet([e], m) == 3;
    assert Flatten([e]) == e.agents by { assert [e][1..] == []; }
    assert e.agents[..1][..0] == [];
    assert ModuleOrder(e.agents[..1]) == [m];
    assert RetSum(e.agents[1..]) == 2;
    assert RetSum(e.agents) == 3;
    assert TotalReturn([e]) == 3 by { assert [e][1..] == []; }
  }

  /** The source's statistics and the summed ones differ only in the
      per-module returns, and agree whenever no two of the done episode's
      agents share a module. */
  lemma AsWrittenAgreesUnshared(e: Episode, chunks: seq<Episode>)
    requires forall i, j | 0 <= i < j < |e.agents| :: e.agents[i].moduleId != e.agents[j].moduleId
    ensures StatsAsWritten(e, chunks) == StatsOf(e, chunks)
  {
    StatsSplit(e, chunks);
    forall m | m in AllModules([e] + chunks)
      ensures LastModuleRet(e.agents, m) + TotalModuleRet(chunks, m) == TotalModuleRet([e] + chunks, m)
    {
      LastModuleRetUnshared(e.agents, m);
      var all := [e] + chunks;
      assert all[0] == e && all[1..] == chunks;
    }
    var s, w := StatsOf(e, chunks), StatsAsWritten(e, chunks);
    assert w.moduleReturns == s.moduleReturns;
  }

  /** No two agents of any queued episode share a module. */
  predicate Unshared(q: seq<Episode>) {
    forall k, i, j | 0 <= k < |q| && 0 <= i < j < |q[k].agents| :: q[k].agents[i].moduleId != q[k].agents[j].moduleId
  }

  /** When no two agents of a queued episode share a module, `get_metrics`
      logs the same statistics as written and corrected. */
  lemma {:induction false} StatsListAgreeUnshared(q: seq<Episode>, reg: map<EpisodeId, seq<Episode>>)
    requires Unshared(q)
    ensures StatsList(q, reg, true) == StatsList(q, reg, false)
  {
    if |q| > 0 {
      assert forall i, j | 0 <= i < j < |q[0].agents| :: q[0].agents[i].moduleId != q[0].agents[j].moduleId;
      AsWrittenAgreesUnshared(q[0], Registered(reg, q[0].id));
      assert Unshared(q[1..]) by {
        forall k, i, j | 0 <= k < |q[1..]| && 0 <= i < j < |q[1..][k].agents|
          ensures q[1..][k].agents[i].moduleId != q[1..][k].agents[j].moduleId
        {
          assert q[1..][k] == q[k + 1];
        }
      }
      StatsListAgreeUnshared(q[1..], reg);
    }
  }

  // ---------------------------------------------------------------------
  // The per-module returns add up to the episode's return.

  /** Every sub-record of the episodes, in order. */
  function Flatten(es: seq<Episode>): seq<AgentChunk> {
    if |es| == 0 then [] else es[0].agents + Flatten(es[1..])
  }

  /** The modules of the sub-records, each once, in order of first use. */
  function ModuleOrder(cs: seq<AgentChunk>): seq<ModuleId> {
    if |cs| == 0 then []
    else
      var ms := ModuleOrder(cs[..|cs| - 1]);
      if cs[|cs| - 1].moduleId in ms then ms else ms + [cs[|cs| - 1].moduleId]
  }

  predicate DistinctModules(ms: seq<ModuleId>) {
    forall i, j | 0 <= i < j < |ms| :: ms[i] != ms[j]
  }

  /** The sum of the entries of `f` for the modules in `ms`. */
  function SumEntries(ms: seq<ModuleId>, f: map<ModuleId, int>): int {
    if |ms| == 0 then 0 else (if ms[0] in f then f[ms[0]] else 0) + SumEntries(ms[1..], f)
  }

  /** The sum of the modules' returns over the sub-records `cs`. */
  function SumModuleRets(ms: seq<ModuleId>, cs: seq<AgentChunk>): int {
    if |ms| == 0 then 0 else ModuleRet(cs, ms[0]) + SumModuleRets(ms[1..], cs)
  }

  /** Every sub-record's return is counted for exactly one module: the
      per-module returns of an episode with its chunks, one entry per module
      in use, add up to the episode's return. */
  lemma ModuleReturnsConserve(e: Episode, chunks: seq<Episode>)
    ensures var st := StatsOf(e, chunks);
      var ms := ModuleOrder(Flatten([e] + chunks));
      && DistinctModules(ms)
      && (forall m :: m in st.moduleReturns <==> m in ms)
      && SumEntries(ms, st.moduleReturns) == st.ret
  {
    var all := [e] + chunks;
    var cs := Flatten(all);
    var st := StatsOf(e, chunks);
    FlattenSums(all);
    OrderFacts(cs);
    var ms := ModuleOrder(cs);
    SumEntriesModuleRets(ms, st.moduleReturns, cs);
  }

  lemma {:induction false} FlattenSums(es: seq<Episode>)
    ensures forall m :: TotalModuleRet(es, m) == ModuleRet(Flatten(es), m)
    ensures TotalReturn(es) == RetSum(Flatten(es))
    ensures AllModules(es) == ModulesOf(Flatten(es))
  {
    if |es| > 0 {
      FlattenSums(es[1..]);
      SumsConcat(es[0].agents, Flatten(es[1..]));
      ModulesOfConcat(es[0].agents, Flatten(es[1..]));
    }
  }

  lemma {:induction false} ModulesOfConcat(cs: seq<AgentChunk>, ds: seq<AgentChunk>)
    ensures ModulesOf(cs + ds) == ModulesOf(cs) + ModulesOf(ds)
  {
    if |cs| == 0 {
      assert cs + ds == ds;
    } else {
      assert (cs + ds)[1..] == cs[1..] + ds;
      ModulesOfConcat(cs[1..], ds);
    }
  }

  lemma {:induction false} ModuleRetOutside(cs: seq<AgentChunk>, m: ModuleId)
    requires m !in ModulesOf(cs)
    ensures ModuleRet(cs, m) == 0
  {
    if |cs| > 0 {
      ModuleRetOutside(cs[1..], m);
    }
  }

  /** The module order lists each module in use once, and the modules'
      returns add up to the total. */
  lemma {:induction false} OrderFacts(cs: seq<AgentChunk>)
    ensures DistinctModules(ModuleOrder(cs))
    ensures forall m :: m in ModuleOrder(cs) <==> m in ModulesOf(cs)
    ensures SumModuleRets(ModuleOrder(cs), cs) == RetSum(cs)
  {
    if |cs| > 0 {
      var init, c := cs[..|cs| - 1], cs[|cs| - 1];
      assert init + [c] == cs;
      OrderFacts(init);
      var ms := ModuleOrder(init);
      ModulesOfConcat(init, [c]);
      assert ModulesOf([c]) == {c.moduleId} by { assert [c][1..] == []; }
      SumsConcat(init, [c]);
      assert RetSum([c]) == c.ret by { assert [c][1..] == []; }
      SumModuleRetsSnoc(ms, init, c);
      if c.moduleId !in ms {
        SumModuleRetsAppend(ms, c.moduleId, cs);
        ModuleRetOutside(init, c.moduleId);
        ModuleRetSnoc(init, c, c.moduleId);
      }
    }
  }

  /** One more sub-record adds its return once, for its module, when that
      module is listed. */
  lemma {:induction false} SumModuleRetsSnoc(ms: seq<ModuleId>, cs: seq<AgentChunk>, c: AgentChunk)
    requires DistinctModules(ms)
    ensures SumModuleRets(ms, cs + [c]) == SumModuleRets(ms, cs) + if c.moduleId in ms then c.ret else 0
  {
    if |ms| > 0 {
      assert DistinctModules(ms[1..]) by {
        forall i, j | 0 <= i < j < |ms[1..]| ensures ms[1..][i] != ms[1..][j] {
          assert ms[1..][i] == ms[i + 1] && ms[1..][j] == ms[j + 1];
        }
      }
      SumModuleRetsSnoc(ms[1..], cs, c);
      ModuleRetSnoc(cs, c, ms[0]);
      assert c.moduleId in ms <==> c.moduleId == ms[0] || c.moduleId in ms[1..];
      if c.moduleId == ms[0] {
        assert c.moduleId !in ms[1..] by {
          forall i | 0 <= i < |ms[1..]| ensures ms[1..][i] != ms[0] {
            assert ms[1..][i] == ms[i + 1];
          }
        }
      }
    }
  }

  lemma {:induction false} SumModuleRetsAppend(ms: seq<ModuleId>, m: ModuleId, cs: seq<AgentChunk>)
    ensures SumModuleRets(ms + [m], cs) == SumModuleRets(ms, cs) + ModuleRet(cs, m)
  {
    if |ms| == 0 {
      assert (ms + [m])[1..] == [];
    } else {
      assert (ms + [m])[1..] == ms[1..] + [m];
      SumModuleRetsAppend(ms[1..], m, cs);
    }
  }

  lemma {:induction false} SumEntriesModuleRets(ms: seq<ModuleId>, f: map<ModuleId, int>, cs: seq<AgentChunk>)
    requires forall i | 0 <= i < |ms| :: ms[i] in f && f[ms[i]] == ModuleRet(cs, ms[i])
    ensures SumEntries(ms, f) == SumModuleRets(ms, cs)
  {
    if |ms| > 0 {
      assert forall i | 0 <= i < |ms[1..]| :: ms[1..][i] == ms[i + 1];
      SumEntriesModuleRets(ms[1..], f, cs);
    }
  }
}
