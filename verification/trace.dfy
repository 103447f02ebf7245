/** The runner's observable history: environment calls, connector passes,
    module forward passes, episode finalization and the callbacks it fires
    (`on_episode_created`, `on_episode_start`, `on_episode_step`,
    `on_episode_end`, `on_sample_end`), each as one event of a trace. */
module Trace {
  import opened Types

  datatype Event =
    | EpisodeCreated(id: EpisodeId)   // on_episode_created
    | EpisodeStart(id: EpisodeId)     // on_episode_start
    | EpisodeStep(id: EpisodeId)      // on_episode_step, after the step is recorded
    | EpisodeEnd(id: EpisodeId)       // on_episode_end
    | EnvReset                        // env.reset()
    | EnvStep                         // env.step(...)
    | EnvToModule(id: EpisodeId)      // an env-to-module connector pass over episode `id`
    | RandomActions                   // actions sampled from the action space
    | Forward(explore: bool)          // forward_exploration / forward_inference
    | ModuleToEnv                     // the module-to-env connector pass
    | Finalized(id: EpisodeId, done: bool)  // episode.finalize(), of a done episode or of a cut chunk
    | SampleEnd                       // on_sample_end

  type Trace = History<Event>

  /** The ordering rule for `ev` recorded right after `tr`:
      - a done episode is finalized right after its `on_episode_end`;
      - `on_episode_end` comes right after the terminal env-to-module pass
        when there is a module, and right after the step callback otherwise;
      - the step callback comes right after the env step;
      - every env reset comes right after a new episode is created, and the
        episode's `on_episode_start` right after that reset. */
  predicate Follows(tr: Trace, ev: Event, hasModule: bool) {
    match ev
    case Finalized(id, done) => done ==> tr.Then? && tr.last == EpisodeEnd(id)
    case EpisodeEnd(id) => tr.Then? && tr.last == (if hasModule then EnvToModule(id) else EpisodeStep(id))
    case EpisodeStep(_) => tr.Then? && tr.last == EnvStep
    case EnvReset => tr.Then? && tr.last.EpisodeCreated?
    case EpisodeStart(id) => tr.Then? && tr.last == EnvReset && tr.before.Then? && tr.before.last == EpisodeCreated(id)
    case _ => true
  }

  /** Episode `id` has been finalized as a done episode. */
  predicate DoneIn(tr: Trace, id: EpisodeId) {
    match tr
    case Start => false
    case Then(before, ev) => ev == Finalized(id, true) || DoneIn(before, id)
  }

  /** A well-formed trace: every event obeys the ordering rule at its
      position, a finalized done episode never receives another step, and
      every id finalized as done was handed out below `next`. */
  predicate TraceOk(tr: Trace, hasModule: bool, next: nat) {
    match tr
    case Start => true
    case Then(before, ev) =>
      && TraceOk(before, hasModule, next)
      && Follows(before, ev, hasModule)
      && (ev.EpisodeStep? ==> !DoneIn(before, ev.id))
      && (ev.Finalized? && ev.done ==> ev.id < next)
  }

  /** Env resets recorded in the trace. */
  function Resets(tr: Trace): nat {
    match tr
    case Start => 0
    case Then(before, ev) => Resets(before) + if ev.EnvReset? then 1 else 0
  }

  /** Env-to-module connector passes recorded in the trace. */
  function Passes(tr: Trace): nat {
    match tr
    case Start => 0
    case Then(before, ev) => Passes(before) + if ev.EnvToModule? then 1 else 0
  }

  /** What recording one event changes in the counts and the done set. */
  lemma Recorded(tr: Trace, ev: Event)
    ensures Resets(Then(tr, ev)) == Resets(tr) + if ev.EnvReset? then 1 else 0
    ensures Passes(Then(tr, ev)) == Passes(tr) + if ev.EnvToModule? then 1 else 0
    ensures forall x :: DoneIn(Then(tr, ev), x) <==> DoneIn(tr, x) || ev == Finalized(x, true)
  {
  }

  /** A trace well formed up to `next` stays so for every larger bound. */
  lemma {:induction false} TraceOkMono(tr: Trace, hasModule: bool, n: nat, m: nat)
    requires TraceOk(tr, hasModule, n) && n <= m
    ensures TraceOk(tr, hasModule, m)
  {
    if tr.Then? {
      TraceOkMono(tr.before, hasModule, n, m);
    }
  }

  /** No id at or above `next` has been finalized as done. */
  lemma {:induction false} DoneInBelow(tr: Trace, hasModule: bool, next: nat, id: EpisodeId)
    requires TraceOk(tr, hasModule, next) && next <= id
    ensures !DoneIn(tr, id)
  {
    if tr.Then? {
      DoneInBelow(tr.before, hasModule, next, id);
    }
  }
}
