/** The `while ts < num_timesteps` loop of `_sample_timesteps`: every
    iteration computes actions, steps the environment once and records the
    step; when the step ends the episode, the episode is wrapped up,
    returned, and a fresh one is started. */
module TimestepLoop {
  import opened Types
  import opened Episodes
  import opened Metrics
  import opened Trace
  import opened Stepping

  /** One loop iteration; the last component is the episode the step
      completed, finalized, if it completed one. */
  function TimestepStep(env: Env, mapping: AgentId -> ModuleId, hasModule: bool, explore: bool, random: bool, w: Walk)
    : (r: Result<(Walk, nat, Option<Episode>)>)
    ensures r.Ok? <==> (random || hasModule) && w.cursor < |env.steps|
    ensures r.Ok? ==> r.value.0.cursor == w.cursor + 1 && r.value.1 == NumEnvs
  {
    match Advance(env, mapping, hasModule, explore, random, w)
    case Err(e) => Err(e)
    case Ok((w1, inc)) =>
      if !w1.episode.done then Ok((w1, inc, None))
      else Ok((Restart(env, mapping, WrapUp(hasModule, w1)), inc, Some(Finalize(w1.episode))))
  }

  /** The loop, from `ts` env steps taken so far up to `target`. */
  function Loop(env: Env, mapping: AgentId -> ModuleId, hasModule: bool, explore: bool, random: bool,
                w: Walk, ts: nat, target: nat): Result<(Walk, seq<Episode>)>
    decreases target - ts
  {
    if ts >= target then Ok((w, []))
    else
      match TimestepStep(env, mapping, hasModule, explore, random, w)
      case Err(e) => Err(e)
      case Ok((w1, inc, d)) =>
        match Loop(env, mapping, hasModule, explore, random, w1, ts + inc, target)
        case Err(e) => Err(e)
        case Ok((w2, ds)) => Ok((w2, OptList(d) + ds))
  }

  // ---------------------------------------------------------------------
  // One iteration. Each lemma takes the iteration's results as parameters
  // and states one aspect of it.

  /** One iteration keeps the walk invariant, drops a cached env-to-module
      output unless actions are random, and completes an episode iff the
      env step says done. */
  lemma StepWalk(env: Env, mapping: AgentId -> ModuleId, hasModule: bool, explore: bool, random: bool, w: Walk, w1: Walk, d: Option<Episode>)
    requires WalkOk(env, mapping, hasModule, w)
    requires TimestepStep(env, mapping, hasModule, explore, random, w) == Ok((w1, NumEnvs, d))
    ensures w.cursor < |env.steps| && w1.cursor == w.cursor + 1
    ensures WalkOk(env, mapping, hasModule, w1)
    ensures w1.nextId >= w.nextId && w.episode.id <= w1.episode.id
    ensures w1.cache == (if random then w.cache else None)
  {
    var w0 := Act(w, explore, random);
    ActFacts(env, mapping, hasModule, w, explore, random);
    RecordFacts(env, mapping, hasModule, w0);
    var wr := Record(env, mapping, w0).0;
    if wr.episode.done {
      WrapUpFacts(hasModule, wr);
      RestartFacts(env, mapping, hasModule, WrapUp(hasModule, wr));
    }
  }

  /** A completed episode is the one being collected, finalized as done
      and well formed, after its end callback, and a fresh episode under a
      new id takes its place; otherwise the episode goes on under its id. */
  lemma StepDone(env: Env, mapping: AgentId -> ModuleId, hasModule: bool, explore: bool, random: bool, w: Walk, w1: Walk, d: Option<Episode>)
    requires WalkOk(env, mapping, hasModule, w)
    requires TimestepStep(env, mapping, hasModule, explore, random, w) == Ok((w1, NumEnvs, d))
    ensures d.None? ==> w1.episode.id == w.episode.id
    ensures d.Some? ==> && d.value.done && WellFormed(d.value, mapping) && d.value.id == w.episode.id
                        && !DoneIn(w.trace, d.value.id) && d.value.id < w1.episode.id
    ensures forall x :: DoneIn(w1.trace, x) <==> DoneIn(w.trace, x) || (d.Some? && x == d.value.id)
  {
    var w0 := Act(w, explore, random);
    ActFacts(env, mapping, hasModule, w, explore, random);
    RecordFacts(env, mapping, hasModule, w0);
    var wr := Record(env, mapping, w0).0;
    if wr.episode.done {
      WrapUpFacts(hasModule, wr);
      RestartFacts(env, mapping, hasModule, WrapUp(hasModule, wr));
      FinalizeFacts(wr.episode, mapping);
    }
  }

  /** One env reset per completed episode; one env-to-module pass for the
      actions unless they are random or cached, and one terminal pass per
      completed episode when there is a module. */
  lemma StepEvents(env: Env, mapping: AgentId -> ModuleId, hasModule: bool, explore: bool, random: bool, w: Walk, w1: Walk, d: Option<Episode>)
    requires WalkOk(env, mapping, hasModule, w)
    requires TimestepStep(env, mapping, hasModule, explore, random, w) == Ok((w1, NumEnvs, d))
    ensures Resets(w1.trace) == Resets(w.trace) + |OptList(d)|
    ensures Passes(w1.trace) == Passes(w.trace)
              + (if random || w.cache.Some? then 0 else 1) + (if hasModule then |OptList(d)| else 0)
  {
    var w0 := Act(w, explore, random);
    ActFacts(env, mapping, hasModule, w, explore, random);
    RecordFacts(env, mapping, hasModule, w0);
    var wr := Record(env, mapping, w0).0;
    if wr.episode.done {
      WrapUpFacts(hasModule, wr);
      RestartFacts(env, mapping, hasModule, WrapUp(hasModule, wr));
    }
  }

  /** A step keeps what the counts rest on. */
  lemma StepCollecting(env: Env, mapping: AgentId -> ModuleId, hasModule: bool, explore: bool, random: bool, w: Walk, w1: Walk, d: Option<Episode>)
    requires Collecting(env, mapping, w)
    requires TimestepStep(env, mapping, hasModule, explore, random, w) == Ok((w1, NumEnvs, d))
    ensures Collecting(env, mapping, w1)
  {
    var o := env.steps[w.cursor];
    DistinctObsAt(env.steps, w.cursor);
    AddStepFacts(w.episode, o, mapping);
    if o.done {
      AddResetFacts(New(w.nextId), env.resetObs, mapping);
    }
  }

  /** Counter `k` grows by what the step is meant to add. */
  lemma StepLog(env: Env, mapping: AgentId -> ModuleId, hasModule: bool, explore: bool, random: bool, w: Walk, w1: Walk, d: Option<Episode>, k: Key)
    requires Collecting(env, mapping, w)
    requires TimestepStep(env, mapping, hasModule, explore, random, w) == Ok((w1, NumEnvs, d))
    ensures w.cursor < |env.steps|
    ensures Peek(w1.log, k) == Peek(w.log, k) + StepAdded(env.steps, w.cursor, mapping, k)
  {
    var o := env.steps[w.cursor];
    DistinctObsAt(env.steps, w.cursor);
    IncreaseSampledMetricsCounts(w.log, NumEnvs, o.obs, w.episode, mapping, k);
  }

  /** The step is recorded once, in the episode returned or in the one
      still being collected. */
  lemma StepLen(env: Env, mapping: AgentId -> ModuleId, hasModule: bool, explore: bool, random: bool, w: Walk, w1: Walk, d: Option<Episode>)
    requires Collecting(env, mapping, w)
    requires TimestepStep(env, mapping, hasModule, explore, random, w) == Ok((w1, NumEnvs, d))
    ensures TotalLen(OptList(d)) + w1.episode.len == w.episode.len + 1
  {
    var o := env.steps[w.cursor];
    DistinctObsAt(env.steps, w.cursor);
    AddStepFacts(w.episode, o, mapping);
    var e1 := AddStep(w.episode, o, mapping);
    if o.done {
      AddResetFacts(New(w.nextId), env.resetObs, mapping);
      FinalizeFacts(e1, mapping);
      assert [Finalize(e1)][1..] == [];
    }
  }

  /** The step is recorded for agent `a` iff `a` observed in it, in the
      episode returned or in the one still being collected. */
  lemma StepAgentLen(env: Env, mapping: AgentId -> ModuleId, hasModule: bool, explore: bool, random: bool, w: Walk, w1: Walk, d: Option<Episode>, a: AgentId)
    requires Collecting(env, mapping, w)
    requires TimestepStep(env, mapping, hasModule, explore, random, w) == Ok((w1, NumEnvs, d))
    ensures w.cursor < |env.steps|
    ensures TotalAgentLen(OptList(d), a) + AgentLen(w1.episode.agents, a)
            == AgentLen(w.episode.agents, a) + StepAdded(env.steps, w.cursor, mapping, AgentStepsSampled(a))
  {
    var o := env.steps[w.cursor];
    DistinctObsAt(env.steps, w.cursor);
    assert StepAdded(env.steps, w.cursor, mapping, AgentStepsSampled(a)) == if a in o.obs then 1 else 0;
    AddStepFacts(w.episode, o, mapping);
    var e1 := AddStep(w.episode, o, mapping);
    if o.done {
      AddResetFacts(New(w.nextId), env.resetObs, mapping);
      FinalizeFacts(e1, mapping);
      assert [Finalize(e1)][1..] == [];
    }
  }

  // ---------------------------------------------------------------------
  // The loop. Each recursive lemma takes the loop's result as parameters
  // and leans on a one-iteration lemma for the aspect it states.

  /** A loop that still has steps to take is one iteration followed by the
      rest of the loop. */
  lemma LoopNext(env: Env, mapping: AgentId -> ModuleId, hasModule: bool, explore: bool, random: bool,
                 w: Walk, ts: nat, target: nat, w': Walk, ds: seq<Episode>)
    returns (w1: Walk, d: Option<Episode>, ds1: seq<Episode>)
    requires ts < target
    requires Loop(env, mapping, hasModule, explore, random, w, ts, target) == Ok((w', ds))
    ensures TimestepStep(env, mapping, hasModule, explore, random, w) == Ok((w1, NumEnvs, d))
    ensures w.cursor < |env.steps| && w1.cursor == w.cursor + 1
    ensures ds == OptList(d) + ds1
    ensures Loop(env, mapping, hasModule, explore, random, w1, ts + NumEnvs, target) == Ok((w', ds1))
  {
    var r := TimestepStep(env, mapping, hasModule, explore, random, w).value;
    w1, d := r.0, r.2;
    ds1 := Loop(env, mapping, hasModule, explore, random, w1, ts + NumEnvs, target).value.1;
  }

  /** Whether one iteration can run, and where the loop goes on from if
      it does, in terms of the cursor only. */
  lemma LoopShape(env: Env, mapping: AgentId -> ModuleId, hasModule: bool, explore: bool, random: bool, w: Walk, ts: nat, target: nat)
    returns (ok: bool, w1: Walk)
    requires ts < target
    ensures ok <==> (random || hasModule) && w.cursor < |env.steps|
    ensures !ok ==> !Loop(env, mapping, hasModule, explore, random, w, ts, target).Ok?
    ensures ok ==> && w1.cursor == w.cursor + 1
                   && (Loop(env, mapping, hasModule, explore, random, w, ts, target).Ok? <==> Loop(env, mapping, hasModule, explore, random, w1, ts + NumEnvs, target).Ok?)
                   && (Loop(env, mapping, hasModule, explore, random, w, ts, target).Ok? ==> Loop(env, mapping, hasModule, explore, random, w, ts, target).value.0.cursor == Loop(env, mapping, hasModule, explore, random, w1, ts + NumEnvs, target).value.0.cursor)
  {
    var r := TimestepStep(env, mapping, hasModule, explore, random, w);
    ok := r.Ok?;
    w1 := if ok then r.value.0 else w;
  }

  /** The loop succeeds iff it has steps enough to take and something to
      compute actions with; it then consumes exactly the steps still
      wanted. */
  lemma {:induction false} LoopOk(env: Env, mapping: AgentId -> ModuleId, hasModule: bool, explore: bool, random: bool, w: Walk, ts: nat, target: nat)
    decreases target - ts
    ensures var r := Loop(env, mapping, hasModule, explore, random, w, ts, target);
      && (r.Ok? <==> ts >= target || ((random || hasModule) && w.cursor + (target - ts) <= |env.steps|))
      && (r.Ok? ==> r.value.0.cursor == w.cursor + (if ts >= target then 0 else target - ts))
  {
    if ts < target {
      var ok, w1 := LoopShape(env, mapping, hasModule, explore, random, w, ts, target);
      if ok {
        LoopOk(env, mapping, hasModule, explore, random, w1, ts + NumEnvs, target);
        assert Loop(env, mapping, hasModule, explore, random, w, ts, target).Ok? <==> (random || hasModule) && w.cursor + (target - ts) <= |env.steps|;
      } else {
        assert !Loop(env, mapping, hasModule, explore, random, w, ts, target).Ok?;
      }
    }
  }

  /** One iteration of a loop that runs, seen from the loop invariant,
      with the loop's result given. */
  lemma InvNext(env: Env, mapping: AgentId -> ModuleId, hasModule: bool, explore: bool, random: bool,
                w: Walk, ts: nat, target: nat, w': Walk, ds: seq<Episode>)
    returns (w1: Walk, d: Option<Episode>, ds1: seq<Episode>)
    requires WalkOk(env, mapping, hasModule, w) && ts < target
    requires Loop(env, mapping, hasModule, explore, random, w, ts, target) == Ok((w', ds))
    ensures w.cursor < |env.steps| && w1.cursor == w.cursor + 1
    ensures Loop(env, mapping, hasModule, explore, random, w1, ts + NumEnvs, target) == Ok((w', ds1))
    ensures ds == OptList(d) + ds1
    ensures WalkOk(env, mapping, hasModule, w1)
    ensures w1.nextId >= w.nextId && w.episode.id <= w1.episode.id
    ensures w1.cache == (if random then w.cache else None)
    ensures d.Some? ==> && d.value.done && WellFormed(d.value, mapping) && !DoneIn(w.trace, d.value.id)
                        && w.episode.id <= d.value.id < w1.episode.id
    ensures forall x :: DoneIn(w.trace, x) ==> DoneIn(w1.trace, x)
    ensures forall x :: (DoneIn(w1.trace, x) || x in Ids(ds1)) <==> (DoneIn(w.trace, x) || x in Ids(ds))
    ensures forall e | e in ds :: e in ds1 || (&& e.done && WellFormed(e, mapping) && !DoneIn(w.trace, e.id)
                                               && w.episode.id <= e.id < w1.episode.id)
  {
    w1, d, ds1 := LoopNext(env, mapping, hasModule, explore, random, w, ts, target, w', ds);
    StepWalk(env, mapping, hasModule, explore, random, w, w1, d);
    StepDone(env, mapping, hasModule, explore, random, w, w1, d);
    IdsPrepend(d, ds1);
  }

  /** A cached env-to-module output survives the loop only if no action
      was computed by the module. */
  lemma {:induction false} LoopCache(env: Env, mapping: AgentId -> ModuleId, hasModule: bool, explore: bool, random: bool,
                                     w: Walk, ts: nat, target: nat, w': Walk, ds: seq<Episode>)
    requires WalkOk(env, mapping, hasModule, w)
    requires Loop(env, mapping, hasModule, explore, random, w, ts, target) == Ok((w', ds))
    decreases target - ts
    ensures w'.cache == if ts < target && !random then None else w.cache
  {
    if ts < target {
      var w1, d, ds1 := InvNext(env, mapping, hasModule, explore, random, w, ts, target, w', ds);
      LoopCache(env, mapping, hasModule, explore, random, w1, ts + NumEnvs, target, w', ds1);
      assert w'.cache == if !random then None else w.cache;
    } else {
      assert w' == w;
    }
  }

  /** The loop keeps its invariant; the episodes it returns are done,
      well formed, finalized during the loop and nowhere before, and they
      are exactly the episodes the loop finalized as done. */
  lemma {:induction false} LoopInv(env: Env, mapping: AgentId -> ModuleId, hasModule: bool, explore: bool, random: bool,
                                   w: Walk, ts: nat, target: nat, w': Walk, ds: seq<Episode>)
    requires WalkOk(env, mapping, hasModule, w)
    requires Loop(env, mapping, hasModule, explore, random, w, ts, target) == Ok((w', ds))
    decreases target - ts
    ensures WalkOk(env, mapping, hasModule, w')
    ensures w'.nextId >= w.nextId && w.episode.id <= w'.episode.id
    ensures forall x :: DoneIn(w'.trace, x) <==> DoneIn(w.trace, x) || x in Ids(ds)
    ensures forall d | d in ds :: && d.done && WellFormed(d, mapping) && !DoneIn(w.trace, d.id)
                                  && w.episode.id <= d.id < w'.episode.id
  {
    if ts < target {
      var w1, d, ds1 := InvNext(env, mapping, hasModule, explore, random, w, ts, target, w', ds);
      LoopInv(env, mapping, hasModule, explore, random, w1, ts + NumEnvs, target, w', ds1);
      assert forall x :: DoneIn(w'.trace, x) <==> DoneIn(w.trace, x) || x in Ids(ds);
      assert forall d | d in ds :: && d.done && WellFormed(d, mapping) && !DoneIn(w.trace, d.id)
                                   && w.episode.id <= d.id < w'.episode.id;
    } else {
      assert w' == w && ds == [];
    }
  }

  /** The returned done episodes come in increasing id order. */
  lemma {:induction false} LoopIds(env: Env, mapping: AgentId -> ModuleId, hasModule: bool, explore: bool, random: bool,
                                   w: Walk, ts: nat, target: nat, w': Walk, ds: seq<Episode>)
    requires WalkOk(env, mapping, hasModule, w)
    requires Loop(env, mapping, hasModule, explore, random, w, ts, target) == Ok((w', ds))
    decreases target - ts
    ensures IncreasingIds(ds)
  {
    if ts < target {
      var w1, d, ds1 := InvNext(env, mapping, hasModule, explore, random, w, ts, target, w', ds);
      LoopInv(env, mapping, hasModule, explore, random, w1, ts + NumEnvs, target, w', ds1);
      LoopIds(env, mapping, hasModule, explore, random, w1, ts + NumEnvs, target, w', ds1);
      if d.Some? {
        PrependIncreasing(d.value, ds1);
      }
    }
  }

  /** One iteration of a loop that runs, seen from counter `k`, with the
      loop's result given. */
  lemma LogNext(env: Env, mapping: AgentId -> ModuleId, hasModule: bool, explore: bool, random: bool,
                w: Walk, ts: nat, target: nat, w': Walk, ds: seq<Episode>, k: Key)
    returns (w1: Walk, ds1: seq<Episode>)
    requires Collecting(env, mapping, w) && ts < target
    requires Loop(env, mapping, hasModule, explore, random, w, ts, target) == Ok((w', ds))
    ensures w.cursor < |env.steps| && w1.cursor == w.cursor + 1
    ensures Collecting(env, mapping, w1)
    ensures Loop(env, mapping, hasModule, explore, random, w1, ts + NumEnvs, target) == Ok((w', ds1))
    ensures Peek(w1.log, k) == Peek(w.log, k) + StepAdded(env.steps, w.cursor, mapping, k)
  {
    var d;
    w1, d, ds1 := LoopNext(env, mapping, hasModule, explore, random, w, ts, target, w', ds);
    StepCollecting(env, mapping, hasModule, explore, random, w, w1, d);
    StepLog(env, mapping, hasModule, explore, random, w, w1, d, k);
  }

  /** Counter `k` grows by what the consumed env steps are meant to add. */
  lemma {:induction false} LoopLog(env: Env, mapping: AgentId -> ModuleId, hasModule: bool, explore: bool, random: bool,
                                   w: Walk, ts: nat, target: nat, w': Walk, ds: seq<Episode>, k: Key)
    requires Collecting(env, mapping, w)
    requires Loop(env, mapping, hasModule, explore, random, w, ts, target) == Ok((w', ds))
    decreases target - ts
    ensures w.cursor <= w'.cursor <= |env.steps|
    ensures Peek(w'.log, k) == Peek(w.log, k) + WindowAdded(env.steps, w.cursor, w'.cursor, mapping, k)
  {
    if ts < target {
      var w1, ds1 := LogNext(env, mapping, hasModule, explore, random, w, ts, target, w', ds, k);
      LoopLog(env, mapping, hasModule, explore, random, w1, ts + NumEnvs, target, w', ds1, k);
      assert Peek(w'.log, k) == Peek(w1.log, k) + WindowAdded(env.steps, w1.cursor, w'.cursor, mapping, k);
      FirstAdded(env.steps, w.cursor, w'.cursor, mapping, k);
      assert Peek(w'.log, k) == Peek(w.log, k) + WindowAdded(env.steps, w.cursor, w'.cursor, mapping, k);
    } else {
      assert w' == w;
      assert Peek(w'.log, k) == Peek(w.log, k) + WindowAdded(env.steps, w.cursor, w'.cursor, mapping, k);
    }
  }

  /** Every counter at once. */
  lemma LoopLogAll(env: Env, mapping: AgentId -> ModuleId, hasModule: bool, explore: bool, random: bool,
                   w: Walk, ts: nat, target: nat, w': Walk, ds: seq<Episode>)
    requires Collecting(env, mapping, w)
    requires Loop(env, mapping, hasModule, explore, random, w, ts, target) == Ok((w', ds))
    ensures w.cursor <= w'.cursor <= |env.steps|
    ensures forall k :: Peek(w'.log, k) == Peek(w.log, k) + WindowAdded(env.steps, w.cursor, w'.cursor, mapping, k)
  {
    LoopLog(env, mapping, hasModule, explore, random, w, ts, target, w', ds, NumEpisodes);
    forall k ensures Peek(w'.log, k) == Peek(w.log, k) + WindowAdded(env.steps, w.cursor, w'.cursor, mapping, k) {
      LoopLog(env, mapping, hasModule, explore, random, w, ts, target, w', ds, k);
    }
  }

  /** One iteration of a loop that runs, seen from the number of recorded
      steps, with the loop's result given. */
  lemma LenNext(env: Env, mapping: AgentId -> ModuleId, hasModule: bool, explore: bool, random: bool,
                w: Walk, ts: nat, target: nat, w': Walk, ds: seq<Episode>)
    returns (w1: Walk, ds1: seq<Episode>)
    requires Collecting(env, mapping, w) && ts < target
    requires Loop(env, mapping, hasModule, explore, random, w, ts, target) == Ok((w', ds))
    ensures w.cursor < |env.steps| && w1.cursor == w.cursor + 1
    ensures Collecting(env, mapping, w1)
    ensures Loop(env, mapping, hasModule, explore, random, w1, ts + NumEnvs, target) == Ok((w', ds1))
    ensures TotalLen(ds) + w1.episode.len == w.episode.len + 1 + TotalLen(ds1)
  {
    var d;
    w1, d, ds1 := LoopNext(env, mapping, hasModule, explore, random, w, ts, target, w', ds);
    StepCollecting(env, mapping, hasModule, explore, random, w, w1, d);
    StepLen(env, mapping, hasModule, explore, random, w, w1, d);
    TotalLenConcat(OptList(d), ds1);
  }

  /** Every consumed step is recorded exactly once, in the returned
      episodes or the one still being collected. */
  lemma {:induction false} LoopLen(env: Env, mapping: AgentId -> ModuleId, hasModule: bool, explore: bool, random: bool,
                                   w: Walk, ts: nat, target: nat, w': Walk, ds: seq<Episode>)
    requires Collecting(env, mapping, w)
    requires Loop(env, mapping, hasModule, explore, random, w, ts, target) == Ok((w', ds))
    decreases target - ts
    ensures w.cursor <= w'.cursor <= |env.steps|
    ensures TotalLen(ds) + w'.episode.len == w.episode.len + (w'.cursor - w.cursor)
  {
    if ts < target {
      var w1, ds1 := LenNext(env, mapping, hasModule, explore, random, w, ts, target, w', ds);
      LoopLen(env, mapping, hasModule, explore, random, w1, ts + NumEnvs, target, w', ds1);
      assert TotalLen(ds) + w'.episode.len == w.episode.len + (w'.cursor - w.cursor);
    } else {
      assert w' == w && ds == [];
    }
  }

  /** One iteration of a loop that runs, seen from agent `a`'s recorded
      steps, with the loop's result given. */
  lemma AgentNext(env: Env, mapping: AgentId -> ModuleId, hasModule: bool, explore: bool, random: bool,
                  w: Walk, ts: nat, target: nat, w': Walk, ds: seq<Episode>, a: AgentId)
    returns (w1: Walk, ts1: nat, ds1: seq<Episode>)
    requires Collecting(env, mapping, w) && ts < target
    requires Loop(env, mapping, hasModule, explore, random, w, ts, target) == Ok((w', ds))
    ensures w.cursor < |env.steps| && w1.cursor == w.cursor + 1 && ts1 == ts + NumEnvs
    ensures Collecting(env, mapping, w1)
    ensures Loop(env, mapping, hasModule, explore, random, w1, ts1, target) == Ok((w', ds1))
    ensures TotalAgentLen(ds, a) + AgentLen(w1.episode.agents, a)
            == AgentLen(w.episode.agents, a) + StepAdded(env.steps, w.cursor, mapping, AgentStepsSampled(a)) + TotalAgentLen(ds1, a)
  {
    var d;
    w1, d, ds1 := LoopNext(env, mapping, hasModule, explore, random, w, ts, target, w', ds);
    ts1 := ts + NumEnvs;
    StepCollecting(env, mapping, hasModule, explore, random, w, w1, d);
    StepAgentLen(env, mapping, hasModule, explore, random, w, w1, d, a);
    TotalAgentLenConcat(OptList(d), ds1, a);
  }

  /** Every consumed step in which agent `a` observed is recorded exactly
      once for `a`, in the returned episodes `ds` or in the episode `w'`
      is still collecting. */
  lemma {:induction false} LoopAgentSteps(env: Env, mapping: AgentId -> ModuleId, hasModule: bool, explore: bool, random: bool,
                                          w: Walk, ts: nat, target: nat, w': Walk, ds: seq<Episode>, a: AgentId)
    requires Collecting(env, mapping, w)
    requires Loop(env, mapping, hasModule, explore, random, w, ts, target) == Ok((w', ds))
    decreases target - ts
    ensures w.cursor <= w'.cursor <= |env.steps|
    ensures TotalAgentLen(ds, a) + AgentLen(w'.episode.agents, a)
            == AgentLen(w.episode.agents, a) + WindowAdded(env.steps, w.cursor, w'.cursor, mapping, AgentStepsSampled(a))
  {
    if ts < target {
      var w1, ts1, ds1 := AgentNext(env, mapping, hasModule, explore, random, w, ts, target, w', ds, a);
      LoopAgentSteps(env, mapping, hasModule, explore, random, w1, ts1, target, w', ds1, a);
      FirstAdded(env.steps, w.cursor, w'.cursor, mapping, AgentStepsSampled(a));
      assert WindowAdded(env.steps, w.cursor, w'.cursor, mapping, AgentStepsSampled(a)) == StepAdded(env.steps, w.cursor, mapping, AgentStepsSampled(a)) + WindowAdded(env.steps, w1.cursor, w'.cursor, mapping, AgentStepsSampled(a));
      Telescope(TotalAgentLen(ds, a), TotalAgentLen(ds1, a),
                AgentLen(w.episode.agents, a), AgentLen(w1.episode.agents, a), AgentLen(w'.episode.agents, a),
                StepAdded(env.steps, w.cursor, mapping, AgentStepsSampled(a)),
                WindowAdded(env.steps, w.cursor, w'.cursor, mapping, AgentStepsSampled(a)),
                WindowAdded(env.steps, w1.cursor, w'.cursor, mapping, AgentStepsSampled(a)));
    } else {
      assert w' == w && ds == [];
      assert TotalAgentLen(ds, a) + AgentLen(w'.episode.agents, a)
             == AgentLen(w.episode.agents, a) + WindowAdded(env.steps, w.cursor, w'.cursor, mapping, AgentStepsSampled(a));
    }
  }

  /** One iteration of a loop that runs, seen from the episode ends it
      consumes, with the loop's result given. */
  lemma DoneNext(env: Env, mapping: AgentId -> ModuleId, hasModule: bool, explore: bool, random: bool,
                 w: Walk, ts: nat, target: nat, w': Walk, ds: seq<Episode>)
    returns (w1: Walk, ds1: seq<Episode>)
    requires ts < target
    requires Loop(env, mapping, hasModule, explore, random, w, ts, target) == Ok((w', ds))
    ensures w.cursor < |env.steps| && w1.cursor == w.cursor + 1
    ensures Loop(env, mapping, hasModule, explore, random, w1, ts + NumEnvs, target) == Ok((w', ds1))
    ensures |ds| == (if EndsEpisode(env.steps, w1.cursor) then 1 else 0) + |ds1|
  {
    var d;
    w1, d, ds1 := LoopNext(env, mapping, hasModule, explore, random, w, ts, target, w', ds);
  }

  /** One episode is returned per consumed step that ends an episode. */
  lemma {:induction false} LoopDoneCount(env: Env, mapping: AgentId -> ModuleId, hasModule: bool, explore: bool, random: bool,
                                         w: Walk, ts: nat, target: nat, w': Walk, ds: seq<Episode>)
    requires w.cursor <= |env.steps|
    requires Loop(env, mapping, hasModule, explore, random, w, ts, target) == Ok((w', ds))
    decreases target - ts
    ensures w.cursor <= w'.cursor <= |env.steps|
    ensures |ds| == DoneCount(env.steps, w.cursor, w'.cursor)
  {
    if ts < target {
      var w1, ds1 := DoneNext(env, mapping, hasModule, explore, random, w, ts, target, w', ds);
      LoopDoneCount(env, mapping, hasModule, explore, random, w1, ts + NumEnvs, target, w', ds1);
      FirstDone(env.steps, w.cursor, w'.cursor);
      assert |ds| == DoneCount(env.steps, w.cursor, w'.cursor);
    } else {
      assert w' == w && ds == [];
      assert |ds| == DoneCount(env.steps, w.cursor, w'.cursor);
    }
  }

  /** One iteration of a loop that runs, seen from the events it
      records, with the loop's result given. */
  lemma EventsNext(env: Env, mapping: AgentId -> ModuleId, hasModule: bool, explore: bool, random: bool,
                   w: Walk, ts: nat, target: nat, w': Walk, ds: seq<Episode>)
    returns (w1: Walk, ds1: seq<Episode>)
    requires WalkOk(env, mapping, hasModule, w) && ts < target
    requires Loop(env, mapping, hasModule, explore, random, w, ts, target) == Ok((w', ds))
    ensures w.cursor < |env.steps| && w1.cursor == w.cursor + 1
    ensures WalkOk(env, mapping, hasModule, w1)
    ensures Loop(env, mapping, hasModule, explore, random, w1, ts + NumEnvs, target) == Ok((w', ds1))
    ensures w1.cache == (if random then w.cache else None)
    ensures Resets(w1.trace) + |ds1| == Resets(w.trace) + |ds|
    ensures Passes(w1.trace) + (if hasModule then |ds1| else 0)
            == Passes(w.trace) + (if random || w.cache.Some? then 0 else 1) + (if hasModule then |ds| else 0)
  {
    var d;
    w1, d, ds1 := LoopNext(env, mapping, hasModule, explore, random, w, ts, target, w', ds);
    StepWalk(env, mapping, hasModule, explore, random, w, w1, d);
    StepEvents(env, mapping, hasModule, explore, random, w, w1, d);
  }

  /** One env reset per returned episode; one env-to-module pass per step
      (less the one the cache saves) plus one terminal pass per returned
      episode when there is a module. */
  lemma {:induction false} LoopEvents(env: Env, mapping: AgentId -> ModuleId, hasModule: bool, explore: bool, random: bool,
                                      w: Walk, ts: nat, target: nat, w': Walk, ds: seq<Episode>)
    requires WalkOk(env, mapping, hasModule, w)
    requires Loop(env, mapping, hasModule, explore, random, w, ts, target) == Ok((w', ds))
    decreases target - ts
    ensures w.cursor <= w'.cursor
    ensures Resets(w'.trace) == Resets(w.trace) + |ds|
    ensures Passes(w'.trace) == Passes(w.trace) + (if hasModule then |ds| else 0)
              + (if random then 0 else (w'.cursor - w.cursor) - (if w'.cursor > w.cursor && w.cache.Some? then 1 else 0))
  {
    if ts < target {
      var w1, ds1 := EventsNext(env, mapping, hasModule, explore, random, w, ts, target, w', ds);
      LoopEvents(env, mapping, hasModule, explore, random, w1, ts + NumEnvs, target, w', ds1);
      assert Passes(w'.trace) == Passes(w.trace) + (if hasModule then |ds| else 0)
               + (if random then 0 else (w'.cursor - w.cursor) - (if w.cache.Some? then 1 else 0));
    } else {
      assert w' == w && ds == [];
    }
  }
}
