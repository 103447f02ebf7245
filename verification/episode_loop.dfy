/** The `while eps < num_episodes` loop of `_sample_episodes`: every
    iteration computes actions (never from a cache), steps the environment
    once and records the step; a step that ends the episode wraps it up and
    returns it, and unless that was the last episode wanted a fresh one is
    started. */
module EpisodeLoop {
  import opened Types
  import opened Episodes
  import opened Metrics
  import opened Trace
  import opened Stepping

  /** One iteration up to the wrap-up; the second component is the episode
      the step completed, finalized, if it completed one. */
  function Stride(env: Env, mapping: AgentId -> ModuleId, hasModule: bool, explore: bool, random: bool, w: Walk)
    : (r: Result<(Walk, Option<Episode>)>)
    ensures r.Ok? <==> (random || hasModule) && w.cursor < |env.steps|
    ensures r.Ok? ==> r.value.0.cursor == w.cursor + 1 && (r.value.1.Some? <==> env.steps[w.cursor].done)
  {
    match Advance(env, mapping, hasModule, explore, random, w)
    case Err(e) => Err(e)
    case Ok((w1, _)) =>
      if !w1.episode.done then Ok((w1, None))
      else Ok((WrapUp(hasModule, w1), Some(Finalize(w1.episode))))
  }

  /** Where the loop continues after an iteration: a fresh, reset episode
      once the previous one is done. */
  function Resume(env: Env, mapping: AgentId -> ModuleId, w: Walk, d: Option<Episode>): Walk {
    if d.Some? then Restart(env, mapping, w) else w
  }

  /** One iteration, with `eps` of `target` episodes completed before it:
      a completed episode is followed by a fresh one unless it was the last
      one wanted (the `break` of the loop). */
  function Iterate(env: Env, mapping: AgentId -> ModuleId, hasModule: bool, explore: bool, random: bool,
                   w: Walk, eps: nat, target: nat): (r: Result<(Walk, Option<Episode>)>)
    ensures r.Ok? <==> (random || hasModule) && w.cursor < |env.steps|
    ensures r.Ok? ==> r.value.0.cursor == w.cursor + 1 && (r.value.1.Some? <==> env.steps[w.cursor].done)
  {
    match Stride(env, mapping, hasModule, explore, random, w)
    case Err(e) => Err(e)
    case Ok((w1, d)) =>
      Ok((if eps + (if d.Some? then 1 else 0) < target then Resume(env, mapping, w1, d) else w1, d))
  }

  /** The loop `while eps < target`, with `eps` episodes completed so far. */
  function Run(env: Env, mapping: AgentId -> ModuleId, hasModule: bool, explore: bool, random: bool,
               w: Walk, eps: nat, target: nat): Result<(Walk, seq<Episode>)>
    decreases |env.steps| - w.cursor
  {
    if eps >= target then Ok((w, []))
    else
      match Iterate(env, mapping, hasModule, explore, random, w, eps, target)
      case Err(e) => Err(e)
      case Ok((w1, d)) =>
        match Run(env, mapping, hasModule, explore, random, w1, eps + (if d.Some? then 1 else 0), target)
        case Err(e) => Err(e)
        case Ok((w2, ds)) => Ok((w2, OptList(d) + ds))
  }

  // ---------------------------------------------------------------------

  /** One iteration: it completes an episode iff the env step says done;
      then exactly that episode is finalized (after its end callback) and
      returned; otherwise the loop invariant holds again. */
  lemma StrideFacts(env: Env, mapping: AgentId -> ModuleId, hasModule: bool, explore: bool, random: bool, w: Walk)
    requires WalkOk(env, mapping, hasModule, w)
    requires Stride(env, mapping, hasModule, explore, random, w).Ok?
    ensures w.cursor < |env.steps|
    ensures var (w', d) := Stride(env, mapping, hasModule, explore, random, w).value;
      && w'.nextId == w.nextId && w'.cache == (if random then w.cache else None)
      && TraceOk(w'.trace, hasModule, w'.nextId)
      && (d.Some? <==> env.steps[w.cursor].done)
      && (d.None? ==> WalkOk(env, mapping, hasModule, w') && w'.episode.id == w.episode.id)
      && (d.Some? ==> && d.value.done && WellFormed(d.value, mapping) && d.value.id == w.episode.id
                      && !DoneIn(w.trace, d.value.id))
      && (forall x :: DoneIn(w'.trace, x) <==> DoneIn(w.trace, x) || (d.Some? && x == d.value.id))
  {
    var w0 := Act(w, explore, random);
    ActFacts(env, mapping, hasModule, w, explore, random);
    RecordFacts(env, mapping, hasModule, w0);
    var w1 := Record(env, mapping, w0).0;
    if w1.episode.done {
      WrapUpFacts(hasModule, w1);
      FinalizeFacts(w1.episode, mapping);
    }
  }

  /** One iteration's counts: the env-to-module passes it makes, the
      counters grow by what the step is meant to add, and the step is
      recorded for the chunk and every observing agent, in the episode
      returned or in the one still being collected. */
  lemma StrideCounts(env: Env, mapping: AgentId -> ModuleId, hasModule: bool, explore: bool, random: bool, w: Walk)
    requires WalkOk(env, mapping, hasModule, w)
    requires Stride(env, mapping, hasModule, explore, random, w).Ok?
    ensures w.cursor < |env.steps|
    ensures var (w', d) := Stride(env, mapping, hasModule, explore, random, w).value;
      var o := env.steps[w.cursor];
      var e := if d.Some? then d.value else w'.episode;
      && Resets(w'.trace) == Resets(w.trace)
      && Passes(w'.trace) == Passes(w.trace)
           + (if random || w.cache.Some? then 0 else 1) + (if hasModule && d.Some? then 1 else 0)
      && (forall k :: Peek(w'.log, k) == Peek(w.log, k) + SampledAdded(NumEnvs, o.obs, mapping, k))
      && e.len == w.episode.len + 1
      && (forall a :: AgentLen(e.agents, a) == AgentLen(w.episode.agents, a) + if a in o.obs then 1 else 0)
  {
    var w0 := Act(w, explore, random);
    ActFacts(env, mapping, hasModule, w, explore, random);
    RecordFacts(env, mapping, hasModule, w0);
    var w1 := Record(env, mapping, w0).0;
    if w1.episode.done {
      WrapUpFacts(hasModule, w1);
      FinalizeFacts(w1.episode, mapping);
    }
  }

  /** One iteration as the loop sees it. When the loop goes on (`more`),
      it goes on from a live episode again, one env step further, with the
      completed episode (if any) below the fresh one's id; when it stops,
      the iteration completed the last wanted episode. */
  lemma IterateFacts(env: Env, mapping: AgentId -> ModuleId, hasModule: bool, explore: bool, random: bool,
                     w: Walk, eps: nat, target: nat, w1: Walk, d: Option<Episode>)
    requires WalkOk(env, mapping, hasModule, w) && eps < target
    requires Iterate(env, mapping, hasModule, explore, random, w, eps, target) == Ok((w1, d))
    ensures var more := eps + (if d.Some? then 1 else 0) < target;
      && w1.nextId >= w.nextId && w1.cache == (if random then w.cache else None)
      && TraceOk(w1.trace, hasModule, w1.nextId)
      && (more ==> WalkOk(env, mapping, hasModule, w1) && w.episode.id <= w1.episode.id)
      && (!more ==> d.Some?)
      && (d.Some? ==> && d.value.done && WellFormed(d.value, mapping) && d.value.id == w.episode.id
                      && !DoneIn(w.trace, d.value.id) && d.value.id < w1.nextId
                      && (more ==> d.value.id < w1.episode.id))
      && (forall x :: DoneIn(w1.trace, x) <==> DoneIn(w.trace, x) || (d.Some? && x == d.value.id))
  {
    var w0 := Stride(env, mapping, hasModule, explore, random, w).value.0;
    StrideFacts(env, mapping, hasModule, explore, random, w);
    if d.Some? && eps + 1 < target {
      RestartFacts(env, mapping, hasModule, w0);
    }
  }

  /** Where the loop goes on from, when it does: a live episode again. */
  lemma IterateWalk(env: Env, mapping: AgentId -> ModuleId, hasModule: bool, explore: bool, random: bool,
                    w: Walk, eps: nat, target: nat, w1: Walk, d: Option<Episode>)
    requires WalkOk(env, mapping, hasModule, w) && eps < target
    requires Iterate(env, mapping, hasModule, explore, random, w, eps, target) == Ok((w1, d))
    ensures eps + (if d.Some? then 1 else 0) < target ==> WalkOk(env, mapping, hasModule, w1)
    ensures w1.cache == (if random then w.cache else None)
  {
    IterateFacts(env, mapping, hasModule, explore, random, w, eps, target, w1, d);
  }

  /** One iteration keeps the walk collecting into a well-formed episode. */
  lemma IterateCollecting(env: Env, mapping: AgentId -> ModuleId, hasModule: bool, explore: bool, random: bool,
                          w: Walk, eps: nat, target: nat, w1: Walk, d: Option<Episode>)
    requires Collecting(env, mapping, w) && eps < target
    requires Iterate(env, mapping, hasModule, explore, random, w, eps, target) == Ok((w1, d))
    ensures Collecting(env, mapping, w1)
  {
    var o := env.steps[w.cursor];
    DistinctObsAt(env.steps, w.cursor);
    AddStepFacts(w.episode, o, mapping);
    if o.done && eps + 1 < target {
      AddResetFacts(New(w.nextId), env.resetObs, mapping);
    }
  }

  /** One iteration adds to counter `k` what its env step is meant to add. */
  lemma IterateLog(env: Env, mapping: AgentId -> ModuleId, hasModule: bool, explore: bool, random: bool,
                   w: Walk, eps: nat, target: nat, w1: Walk, d: Option<Episode>, k: Key)
    requires Collecting(env, mapping, w) && eps < target
    requires Iterate(env, mapping, hasModule, explore, random, w, eps, target) == Ok((w1, d))
    ensures w.cursor < |env.steps|
    ensures Peek(w1.log, k) == Peek(w.log, k) + StepAdded(env.steps, w.cursor, mapping, k)
  {
    var o := env.steps[w.cursor];
    DistinctObsAt(env.steps, w.cursor);
    IncreaseSampledMetricsCounts(w.log, NumEnvs, o.obs, w.episode, mapping, k);
  }

  /** The step is recorded once, in the episode returned or in the one the
      loop goes on with. */
  lemma IterateLen(env: Env, mapping: AgentId -> ModuleId, hasModule: bool, explore: bool, random: bool,
                   w: Walk, eps: nat, target: nat, w1: Walk, d: Option<Episode>)
    requires Collecting(env, mapping, w) && eps < target
    requires Iterate(env, mapping, hasModule, explore, random, w, eps, target) == Ok((w1, d))
    ensures TotalLen(OptList(d)) + (if eps + (if d.Some? then 1 else 0) < target then w1.episode.len else 0)
            == w.episode.len + 1
  {
    var o := env.steps[w.cursor];
    DistinctObsAt(env.steps, w.cursor);
    AddStepFacts(w.episode, o, mapping);
    var e1 := AddStep(w.episode, o, mapping);
    if o.done {
      FinalizeFacts(e1, mapping);
      assert [Finalize(e1)][1..] == [];
      if eps + 1 < target {
        AddResetFacts(New(w.nextId), env.resetObs, mapping);
      }
    }
  }

  /** The step is recorded for agent `a` iff `a` observed in it, in the
      episode returned or in the one the loop goes on with. */
  lemma IterateAgentLen(env: Env, mapping: AgentId -> ModuleId, hasModule: bool, explore: bool, random: bool,
                        w: Walk, eps: nat, target: nat, w1: Walk, d: Option<Episode>, a: AgentId)
    requires Collecting(env, mapping, w) && eps < target
    requires Iterate(env, mapping, hasModule, explore, random, w, eps, target) == Ok((w1, d))
    ensures w.cursor < |env.steps|
    ensures TotalAgentLen(OptList(d), a) + (if eps + (if d.Some? then 1 else 0) < target then AgentLen(w1.episode.agents, a) else 0)
            == AgentLen(w.episode.agents, a) + StepAdded(env.steps, w.cursor, mapping, AgentStepsSampled(a))
  {
    var o := env.steps[w.cursor];
    DistinctObsAt(env.steps, w.cursor);
    assert StepAdded(env.steps, w.cursor, mapping, AgentStepsSampled(a)) == if a in o.obs then 1 else 0;
    AddStepFacts(w.episode, o, mapping);
    var e1 := AddStep(w.episode, o, mapping);
    if o.done {
      FinalizeFacts(e1, mapping);
      assert [Finalize(e1)][1..] == [];
      if eps + 1 < target {
        AddResetFacts(New(w.nextId), env.resetObs, mapping);
      }
    }
  }

  /** One iteration's events: an env reset when the loop goes on after a
      completed episode, and the env-to-module passes it makes. */
  lemma IterateEvents(env: Env, mapping: AgentId -> ModuleId, hasModule: bool, explore: bool, random: bool,
                      w: Walk, eps: nat, target: nat, w1: Walk, d: Option<Episode>)
    requires WalkOk(env, mapping, hasModule, w) && eps < target
    requires Iterate(env, mapping, hasModule, explore, random, w, eps, target) == Ok((w1, d))
    ensures Resets(w1.trace) == Resets(w.trace) + (if eps + (if d.Some? then 1 else 0) < target && d.Some? then 1 else 0)
    ensures Passes(w1.trace) == Passes(w.trace)
              + (if random || w.cache.Some? then 0 else 1) + (if hasModule && d.Some? then 1 else 0)
  {
    var w0 := Stride(env, mapping, hasModule, explore, random, w).value.0;
    StrideFacts(env, mapping, hasModule, explore, random, w);
    StrideCounts(env, mapping, hasModule, explore, random, w);
    if d.Some? && eps + 1 < target {
      RestartFacts(env, mapping, hasModule, w0);
    }
  }

  /** A loop that runs and still wants episodes is one iteration followed
      by the rest of the loop; when that iteration completed the last
      wanted episode, the rest is empty. */
  lemma RunNext(env: Env, mapping: AgentId -> ModuleId, hasModule: bool, explore: bool, random: bool,
                w: Walk, eps: nat, target: nat, w': Walk, ds: seq<Episode>)
    returns (w1: Walk, d: Option<Episode>, eps1: nat, ds1: seq<Episode>)
    requires eps < target
    requires Run(env, mapping, hasModule, explore, random, w, eps, target) == Ok((w', ds))
    ensures Iterate(env, mapping, hasModule, explore, random, w, eps, target) == Ok((w1, d))
    ensures w.cursor < |env.steps| && w1.cursor == w.cursor + 1
    ensures d.Some? <==> EndsEpisode(env.steps, w1.cursor)
    ensures ds == OptList(d) + ds1
    ensures eps1 == eps + (if d.Some? then 1 else 0)
    ensures Run(env, mapping, hasModule, explore, random, w1, eps1, target) == Ok((w', ds1))
    ensures eps1 >= target ==> d.Some? && w' == w1 && ds1 == []
  {
    var it := Iterate(env, mapping, hasModule, explore, random, w, eps, target).value;
    w1, d := it.0, it.1;
    eps1 := eps + (if d.Some? then 1 else 0);
    ds1 := Run(env, mapping, hasModule, explore, random, w1, eps1, target).value.1;
  }

  /** Whether one iteration can run, and where the loop goes on from if
      it does, in terms of the cursor only. */
  lemma RunShape(env: Env, mapping: AgentId -> ModuleId, hasModule: bool, explore: bool, random: bool,
                 w: Walk, eps: nat, target: nat) returns (ok: bool, w1: Walk, eps1: nat)
    requires w.cursor <= |env.steps| && eps < target
    ensures ok <==> (random || hasModule) && w.cursor < |env.steps|
    ensures !ok ==> !Run(env, mapping, hasModule, explore, random, w, eps, target).Ok? && ((random || hasModule) ==> DoneCount(env.steps, w.cursor, |env.steps|) == 0)
    ensures ok ==> && w1.cursor == w.cursor + 1 <= |env.steps| && eps <= eps1 <= eps + 1
                   && (Run(env, mapping, hasModule, explore, random, w, eps, target).Ok? <==> Run(env, mapping, hasModule, explore, random, w1, eps1, target).Ok?)
                   && DoneCount(env.steps, w.cursor, |env.steps|) == (eps1 - eps) + DoneCount(env.steps, w1.cursor, |env.steps|)
  {
    var it := Iterate(env, mapping, hasModule, explore, random, w, eps, target);
    ok := it.Ok?;
    if ok {
      w1 := it.value.0;
      eps1 := eps + (if it.value.1.Some? then 1 else 0);
      assert Run(env, mapping, hasModule, explore, random, w, eps, target).Ok? <==> Run(env, mapping, hasModule, explore, random, w1, eps1, target).Ok?;
      FirstDone(env.steps, w.cursor, |env.steps|);
    } else {
      w1, eps1 := w, eps;
      assert !Run(env, mapping, hasModule, explore, random, w, eps, target).Ok?;
    }
  }

  /** The loop succeeds iff no episode is wanted, or actions can be
      computed and the environment still has `target - eps` episode ends to
      give. */
  lemma {:induction false} RunOk(env: Env, mapping: AgentId -> ModuleId, hasModule: bool, explore: bool, random: bool,
                                 w: Walk, eps: nat, target: nat)
    requires w.cursor <= |env.steps|
    decreases |env.steps| - w.cursor
    ensures Run(env, mapping, hasModule, explore, random, w, eps, target).Ok?
            <==> eps >= target || ((random || hasModule) && DoneCount(env.steps, w.cursor, |env.steps|) >= target - eps)
  {
    if eps < target {
      var ok, w1, eps1 := RunShape(env, mapping, hasModule, explore, random, w, eps, target);
      if ok {
        RunOk(env, mapping, hasModule, explore, random, w1, eps1, target);
        assert Run(env, mapping, hasModule, explore, random, w, eps, target).Ok? <==> eps >= target || ((random || hasModule) && DoneCount(env.steps, w.cursor, |env.steps|) >= target - eps);
      } else {
        assert Run(env, mapping, hasModule, explore, random, w, eps, target).Ok? <==> eps >= target || ((random || hasModule) && DoneCount(env.steps, w.cursor, |env.steps|) >= target - eps);
      }
    }
  }

  /** One iteration of a loop that runs, seen from the episode ends it
      consumes, with the loop's result given. */
  lemma DoneNext(env: Env, mapping: AgentId -> ModuleId, hasModule: bool, explore: bool, random: bool,
                 w: Walk, eps: nat, target: nat, w': Walk, ds: seq<Episode>)
    returns (w1: Walk, eps1: nat, ds1: seq<Episode>)
    requires eps < target
    requires Run(env, mapping, hasModule, explore, random, w, eps, target) == Ok((w', ds))
    ensures w.cursor < |env.steps| && w1.cursor == w.cursor + 1 && eps <= eps1 <= eps + 1
    ensures Run(env, mapping, hasModule, explore, random, w1, eps1, target) == Ok((w', ds1))
    ensures eps1 >= target ==> w' == w1 && eps1 == target && EndsEpisode(env.steps, w'.cursor)
    ensures w1.cursor <= w'.cursor <= |env.steps| ==>
              DoneCount(env.steps, w.cursor, w'.cursor) == (eps1 - eps) + DoneCount(env.steps, w1.cursor, w'.cursor)
  {
    var d;
    w1, d, eps1, ds1 := RunNext(env, mapping, hasModule, explore, random, w, eps, target, w', ds);
    if w1.cursor <= w'.cursor <= |env.steps| {
      FirstDone(env.steps, w.cursor, w'.cursor);
    }
  }

  /** A loop that runs stops right after the step that ends the last
      wanted episode, having consumed exactly `target - eps` episode ends. */
  lemma {:induction false} RunStops(env: Env, mapping: AgentId -> ModuleId, hasModule: bool, explore: bool, random: bool,
                                    w: Walk, eps: nat, target: nat, w': Walk, ds: seq<Episode>)
    requires eps < target
    requires Run(env, mapping, hasModule, explore, random, w, eps, target) == Ok((w', ds))
    decreases |env.steps| - w.cursor
    ensures w.cursor < w'.cursor <= |env.steps| && EndsEpisode(env.steps, w'.cursor)
    ensures DoneCount(env.steps, w.cursor, w'.cursor) == target - eps
  {
    var w1, eps1, ds1 := DoneNext(env, mapping, hasModule, explore, random, w, eps, target, w', ds);
    if eps1 < target {
      RunStops(env, mapping, hasModule, explore, random, w1, eps1, target, w', ds1);
      assert DoneCount(env.steps, w.cursor, w'.cursor) == target - eps;
    } else {
      assert w' == w1;
      assert DoneCount(env.steps, w.cursor, w'.cursor) == target - eps;
    }
  }

  /** One iteration of a loop that runs, seen from the episodes it
      returns and the ids it finalizes, with the loop's result given. */
  lemma InvNext(env: Env, mapping: AgentId -> ModuleId, hasModule: bool, explore: bool, random: bool,
                w: Walk, eps: nat, target: nat, w': Walk, ds: seq<Episode>)
    returns (w1: Walk, eps1: nat, ds1: seq<Episode>)
    requires WalkOk(env, mapping, hasModule, w) && eps < target
    requires Run(env, mapping, hasModule, explore, random, w, eps, target) == Ok((w', ds))
    ensures w.cursor < |env.steps| && w1.cursor == w.cursor + 1 && eps <= eps1 <= eps + 1
    ensures Run(env, mapping, hasModule, explore, random, w1, eps1, target) == Ok((w', ds1))
    ensures eps1 < target ==> WalkOk(env, mapping, hasModule, w1) && w.episode.id <= w1.episode.id
    ensures eps1 >= target ==> w' == w1 && ds1 == []
    ensures |ds| == (eps1 - eps) + |ds1|
    ensures w1.nextId >= w.nextId && w1.cache == (if random then w.cache else None)
    ensures TraceOk(w1.trace, hasModule, w1.nextId)
    ensures forall x :: DoneIn(w.trace, x) ==> DoneIn(w1.trace, x)
    ensures forall x :: (DoneIn(w1.trace, x) || x in Ids(ds1)) <==> (DoneIn(w.trace, x) || x in Ids(ds))
    ensures forall e | e in ds :: e in ds1 || (&& e.done && WellFormed(e, mapping) && !DoneIn(w.trace, e.id)
                                               && w.episode.id <= e.id < w1.nextId)
  {
    var d;
    w1, d, eps1, ds1 := RunNext(env, mapping, hasModule, explore, random, w, eps, target, w', ds);
    IterateFacts(env, mapping, hasModule, explore, random, w, eps, target, w1, d);
    IdsPrepend(d, ds1);
  }

  /** The loop returns exactly the `target - eps` episodes it completed,
      each done, well formed and finalized during the loop and never
      before; they are exactly the episodes the loop finalized as done. */
  lemma {:induction false} RunInv(env: Env, mapping: AgentId -> ModuleId, hasModule: bool, explore: bool, random: bool,
                                  w: Walk, eps: nat, target: nat, w': Walk, ds: seq<Episode>)
    requires WalkOk(env, mapping, hasModule, w)
    requires Run(env, mapping, hasModule, explore, random, w, eps, target) == Ok((w', ds))
    decreases |env.steps| - w.cursor
    ensures |ds| == (if eps < target then target - eps else 0)
    ensures TraceOk(w'.trace, hasModule, w'.nextId) && w'.cursor <= |env.steps|
    ensures w'.nextId >= w.nextId && w'.cache == (if eps < target && !random then None else w.cache)
    ensures forall x :: DoneIn(w'.trace, x) <==> DoneIn(w.trace, x) || x in Ids(ds)
    ensures forall d | d in ds :: && d.done && WellFormed(d, mapping) && !DoneIn(w.trace, d.id)
                                  && w.episode.id <= d.id < w'.nextId
  {
    if eps < target {
      var w1, eps1, ds1 := InvNext(env, mapping, hasModule, explore, random, w, eps, target, w', ds);
      if eps1 < target {
        RunInv(env, mapping, hasModule, explore, random, w1, eps1, target, w', ds1);
      } else {
        assert w' == w1 && ds1 == [];
      }
      assert forall x :: DoneIn(w'.trace, x) <==> DoneIn(w.trace, x) || x in Ids(ds);
      assert forall d | d in ds :: && d.done && WellFormed(d, mapping) && !DoneIn(w.trace, d.id)
                                   && w.episode.id <= d.id < w'.nextId;
    } else {
      assert w' == w && ds == [];
    }
  }

  /** The returned episodes come in increasing id order. */
  lemma {:induction false} RunIds(env: Env, mapping: AgentId -> ModuleId, hasModule: bool, explore: bool, random: bool,
                                  w: Walk, eps: nat, target: nat, w': Walk, ds: seq<Episode>)
    requires WalkOk(env, mapping, hasModule, w)
    requires Run(env, mapping, hasModule, explore, random, w, eps, target) == Ok((w', ds))
    decreases |env.steps| - w.cursor
    ensures IncreasingIds(ds)
  {
    if eps < target {
      var w1, d, eps1, ds1 := RunNext(env, mapping, hasModule, explore, random, w, eps, target, w', ds);
      IterateFacts(env, mapping, hasModule, explore, random, w, eps, target, w1, d);
      if eps1 < target {
        RunInv(env, mapping, hasModule, explore, random, w1, eps1, target, w', ds1);
        RunIds(env, mapping, hasModule, explore, random, w1, eps1, target, w', ds1);
        if d.Some? {
          PrependIncreasing(d.value, ds1);
        }
      }
    }
  }

  /** One iteration of a loop that runs, seen from counter `k`, with the
      loop's result given. */
  lemma LogNext(env: Env, mapping: AgentId -> ModuleId, hasModule: bool, explore: bool, random: bool,
                w: Walk, eps: nat, target: nat, w': Walk, ds: seq<Episode>, k: Key)
    returns (w1: Walk, eps1: nat, ds1: seq<Episode>)
    requires Collecting(env, mapping, w) && eps < target
    requires Run(env, mapping, hasModule, explore, random, w, eps, target) == Ok((w', ds))
    ensures w.cursor < |env.steps| && w1.cursor == w.cursor + 1
    ensures Collecting(env, mapping, w1)
    ensures Run(env, mapping, hasModule, explore, random, w1, eps1, target) == Ok((w', ds1))
    ensures eps1 >= target ==> w' == w1
    ensures Peek(w1.log, k) == Peek(w.log, k) + StepAdded(env.steps, w.cursor, mapping, k)
  {
    var d;
    w1, d, eps1, ds1 := RunNext(env, mapping, hasModule, explore, random, w, eps, target, w', ds);
    IterateCollecting(env, mapping, hasModule, explore, random, w, eps, target, w1, d);
    IterateLog(env, mapping, hasModule, explore, random, w, eps, target, w1, d, k);
  }

  /** Counter `k` grows by what the consumed env steps are meant to add. */
  lemma {:induction false} RunLog(env: Env, mapping: AgentId -> ModuleId, hasModule: bool, explore: bool, random: bool,
                                  w: Walk, eps: nat, target: nat, w': Walk, ds: seq<Episode>, k: Key)
    requires Collecting(env, mapping, w)
    requires Run(env, mapping, hasModule, explore, random, w, eps, target) == Ok((w', ds))
    decreases |env.steps| - w.cursor
    ensures w.cursor <= w'.cursor <= |env.steps|
    ensures Peek(w'.log, k) == Peek(w.log, k) + WindowAdded(env.steps, w.cursor, w'.cursor, mapping, k)
  {
    if eps < target {
      var w1, eps1, ds1 := LogNext(env, mapping, hasModule, explore, random, w, eps, target, w', ds, k);
      if eps1 < target {
        RunLog(env, mapping, hasModule, explore, random, w1, eps1, target, w', ds1, k);
      } else {
        assert w' == w1;
        assert WindowAdded(env.steps, w1.cursor, w'.cursor, mapping, k) == 0;
      }
      assert Peek(w'.log, k) == Peek(w1.log, k) + WindowAdded(env.steps, w1.cursor, w'.cursor, mapping, k);
      FirstAdded(env.steps, w.cursor, w'.cursor, mapping, k);
      assert Peek(w'.log, k) == Peek(w.log, k) + WindowAdded(env.steps, w.cursor, w'.cursor, mapping, k);
    } else {
      assert w' == w;
      assert Peek(w'.log, k) == Peek(w.log, k) + WindowAdded(env.steps, w.cursor, w'.cursor, mapping, k);
    }
  }

  /** One iteration of a loop that runs, seen from the number of recorded
      steps, with the loop's result given. */
  lemma LenNext(env: Env, mapping: AgentId -> ModuleId, hasModule: bool, explore: bool, random: bool,
                w: Walk, eps: nat, target: nat, w': Walk, ds: seq<Episode>)
    returns (w1: Walk, eps1: nat, ds1: seq<Episode>)
    requires Collecting(env, mapping, w) && eps < target
    requires Run(env, mapping, hasModule, explore, random, w, eps, target) == Ok((w', ds))
    ensures w.cursor < |env.steps| && w1.cursor == w.cursor + 1
    ensures Collecting(env, mapping, w1)
    ensures Run(env, mapping, hasModule, explore, random, w1, eps1, target) == Ok((w', ds1))
    ensures eps1 >= target ==> w' == w1 && TotalLen(ds1) == 0
    ensures TotalLen(ds) + (if eps1 < target then w1.episode.len else 0) == w.episode.len + 1 + TotalLen(ds1)
  {
    var d;
    w1, d, eps1, ds1 := RunNext(env, mapping, hasModule, explore, random, w, eps, target, w', ds);
    IterateCollecting(env, mapping, hasModule, explore, random, w, eps, target, w1, d);
    IterateLen(env, mapping, hasModule, explore, random, w, eps, target, w1, d);
    TotalLenConcat(OptList(d), ds1);
  }

  /** Every consumed env step is recorded exactly once in the returned
      episodes. */
  lemma {:induction false} RunSteps(env: Env, mapping: AgentId -> ModuleId, hasModule: bool, explore: bool, random: bool,
                                    w: Walk, eps: nat, target: nat, w': Walk, ds: seq<Episode>)
    requires Collecting(env, mapping, w) && eps < target
    requires Run(env, mapping, hasModule, explore, random, w, eps, target) == Ok((w', ds))
    decreases |env.steps| - w.cursor
    ensures w.cursor < w'.cursor <= |env.steps|
    ensures TotalLen(ds) == w.episode.len + (w'.cursor - w.cursor)
  {
    var w1, eps1, ds1 := LenNext(env, mapping, hasModule, explore, random, w, eps, target, w', ds);
    if eps1 < target {
      RunSteps(env, mapping, hasModule, explore, random, w1, eps1, target, w', ds1);
      assert TotalLen(ds) == w.episode.len + (w'.cursor - w.cursor);
    } else {
      assert TotalLen(ds) == w.episode.len + (w'.cursor - w.cursor);
    }
  }

  /** One iteration of a loop that runs, seen from agent `a`'s recorded
      steps, with the loop's result given. */
  lemma AgentStep(env: Env, mapping: AgentId -> ModuleId, hasModule: bool, explore: bool, random: bool,
                  w: Walk, eps: nat, target: nat, w': Walk, ds: seq<Episode>, a: AgentId)
    returns (w1: Walk, eps1: nat, ds1: seq<Episode>)
    requires Collecting(env, mapping, w) && eps < target
    requires Run(env, mapping, hasModule, explore, random, w, eps, target) == Ok((w', ds))
    ensures w.cursor < |env.steps| && w1.cursor == w.cursor + 1
    ensures Collecting(env, mapping, w1)
    ensures Run(env, mapping, hasModule, explore, random, w1, eps1, target) == Ok((w', ds1))
    ensures TotalAgentLen(ds, a) + (if eps1 < target then AgentLen(w1.episode.agents, a) else 0)
            == AgentLen(w.episode.agents, a) + (StepAdded(env.steps, w.cursor, mapping, AgentStepsSampled(a))) + TotalAgentLen(ds1, a)
  {
    var d;
    w1, d, eps1, ds1 := RunNext(env, mapping, hasModule, explore, random, w, eps, target, w', ds);
    IterateCollecting(env, mapping, hasModule, explore, random, w, eps, target, w1, d);
    IterateAgentLen(env, mapping, hasModule, explore, random, w, eps, target, w1, d, a);
    TotalAgentLenConcat(OptList(d), ds1, a);
  }

  /** Every consumed env step in which agent `a` observed is recorded
      exactly once for `a` in the returned episodes, together with what the
      episode being collected already holds (when the loop runs at all). */
  lemma {:induction false} RunAgentSteps(env: Env, mapping: AgentId -> ModuleId, hasModule: bool, explore: bool, random: bool,
                                         w: Walk, eps: nat, target: nat, w': Walk, ds: seq<Episode>, a: AgentId)
    requires Collecting(env, mapping, w)
    requires Run(env, mapping, hasModule, explore, random, w, eps, target) == Ok((w', ds))
    decreases |env.steps| - w.cursor
    ensures w.cursor <= w'.cursor <= |env.steps|
    ensures TotalAgentLen(ds, a) + (if eps < target then 0 else AgentLen(w.episode.agents, a))
            == AgentLen(w.episode.agents, a) + WindowAdded(env.steps, w.cursor, w'.cursor, mapping, AgentStepsSampled(a))
  {
    if eps < target {
      var w1, eps1, ds1 := AgentStep(env, mapping, hasModule, explore, random, w, eps, target, w', ds, a);
      RunAgentSteps(env, mapping, hasModule, explore, random, w1, eps1, target, w', ds1, a);
      FirstAdded(env.steps, w.cursor, w'.cursor, mapping, AgentStepsSampled(a));
      assert TotalAgentLen(ds, a) == AgentLen(w.episode.agents, a) + WindowAdded(env.steps, w.cursor, w'.cursor, mapping, AgentStepsSampled(a));
    } else {
      assert w' == w && ds == [];
      assert TotalAgentLen(ds, a) + (if eps < target then 0 else AgentLen(w.episode.agents, a)) == AgentLen(w.episode.agents, a) + WindowAdded(env.steps, w.cursor, w'.cursor, mapping, AgentStepsSampled(a));
    }
  }

  /** One env reset per returned episode but the last; one env-to-module
      pass per module-driven step plus one terminal pass per returned
      episode when there is a module. */
  lemma {:induction false} RunEvents(env: Env, mapping: AgentId -> ModuleId, hasModule: bool, explore: bool, random: bool,
                                     w: Walk, eps: nat, target: nat, w': Walk, ds: seq<Episode>)
    requires WalkOk(env, mapping, hasModule, w) && w.cache.None? && eps < target
    requires Run(env, mapping, hasModule, explore, random, w, eps, target) == Ok((w', ds))
    decreases |env.steps| - w.cursor
    ensures w.cursor < w'.cursor
    ensures Resets(w'.trace) + 1 == Resets(w.trace) + |ds|
    ensures Passes(w'.trace) == Passes(w.trace) + (if hasModule then |ds| else 0)
                                + (if random then 0 else w'.cursor - w.cursor)
  {
    var w1, d, eps1, ds1 := RunNext(env, mapping, hasModule, explore, random, w, eps, target, w', ds);
    IterateWalk(env, mapping, hasModule, explore, random, w, eps, target, w1, d);
    IterateEvents(env, mapping, hasModule, explore, random, w, eps, target, w1, d);
    if eps1 < target {
      RunEvents(env, mapping, hasModule, explore, random, w1, eps1, target, w', ds1);
    }
  }
}
