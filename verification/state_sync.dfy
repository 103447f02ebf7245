/** `get_state` / `set_state` and the `get_weights` / `set_weights`
    wrappers: exporting and importing the module weights, the two connector
    states, the weights sequence number and the lifetime env-step counter.
    Module weights are only taken over when they are newer than the ones
    held, as the sequence numbers tell. */
module StateSync {
  import opened Types
  import opened Metrics
  import opened RunnerState

  /** The components `get_state` can be asked for. */
  datatype Component = RlModule | EnvToModuleConnector | ModuleToEnvConnector

  /** A state dict: every entry may be missing. */
  datatype State = State(
    weightsSeqNo: Option<int>,
    lifetimeSteps: Option<int>,
    rlModule: Option<Blob>,
    envToModule: Option<Blob>,
    moduleToEnv: Option<Blob>)

  /** The components exported when none are named. */
  const AllComponents: set<Component> := {RlModule, EnvToModuleConnector, ModuleToEnvConnector}

  function Wanted(components: Option<set<Component>>): set<Component> {
    if components.Some? then components.value else AllComponents
  }

  /** The sequence number and the lifetime counter are always exported;
      each component only when asked for. Exporting the module's weights
      needs a module. */
  function GetState(s: Runner, components: Option<set<Component>>): Result<State> {
    var c := Wanted(components);
    if RlModule in c && !s.hasModule then Err(NoModule)
    else
      Ok(State(
        Some(s.weightsSeqNo),
        Some(Peek(s.log, EnvStepsSampledLifetime)),
        if RlModule in c then Some(s.weights) else None,
        if EnvToModuleConnector in c then Some(s.envToModuleState) else None,
        if ModuleToEnvConnector in c then Some(s.moduleToEnvState) else None))
  }

  /** The sequence number an imported state carries; a missing one counts
      as 0. */
  function SeqOf(st: State): int {
    if st.weightsSeqNo.Some? then st.weightsSeqNo.value else 0
  }

  /** Whether incoming weights are taken over: sequence number 0 forces the
      update, otherwise only strictly newer weights are taken. */
  predicate Applies(local: int, incoming: int) {
    incoming == 0 || local < incoming
  }

  /** The sequence number kept after importing weights numbered `incoming`. As
      written, any positive incoming number replaces the local one, even
      when the weights were rejected as stale; corrected, the number only
      moves with the weights it describes. */
  function SeqNoAfter(local: int, incoming: int, asWritten: bool): int {
    if incoming > 0 && (asWritten || local < incoming) then incoming else local
  }

  /** `set_state`: the connector states first, then the module weights
      behind the sequence-number gate, then the lifetime counter. */
  function SetStateBy(s: Runner, st: State, asWritten: bool): Result<Runner> {
    var s1 := s.(envToModuleState := if st.envToModule.Some? then st.envToModule.value else s.envToModuleState,
                 moduleToEnvState := if st.moduleToEnv.Some? then st.moduleToEnv.value else s.moduleToEnvState);
    var incoming := SeqOf(st);
    if st.rlModule.Some? && Applies(s.weightsSeqNo, incoming) && !s.hasModule then Err(NoModule)
    else
      var s2 :=
        if st.rlModule.None? then s1
        else s1.(weights := if Applies(s.weightsSeqNo, incoming) then st.rlModule.value else s.weights,
                 weightsSeqNo := SeqNoAfter(s.weightsSeqNo, incoming, asWritten));
      Ok(if st.lifetimeSteps.Some? then s2.(log := Then(s2.log, SetValue(EnvStepsSampledLifetime, st.lifetimeSteps.value)))
         else s2)
  }

  /** `set_state` as the source does it. */
  function SetState(s: Runner, st: State): Result<Runner> {
    SetStateBy(s, st, true)
  }

  /** `set_state` with the sequence number moving only with the weights. */
  function SetStateCorrected(s: Runner, st: State): Result<Runner> {
    SetStateBy(s, st, false)
  }

  /** `get_weights`: the module part of the exported state. */
  function GetWeights(s: Runner): Result<Blob> {
    match GetState(s, Some({RlModule}))
    case Err(e) => Err(e)
    case Ok(st) => if st.rlModule.Some? then Ok(st.rlModule.value) else Ok([])
  }

  /** `set_weights`: `set_state` with only the weights and their sequence
      number (0 when not given). */
  function SetWeights(s: Runner, weights: Blob, seqNo: int): Result<Runner> {
    SetState(s, State(Some(seqNo), None, Some(weights), None, None))
  }

  // ---------------------------------------------------------------------

  /** `get_state` fails only for the module's weights without a module;
      otherwise it exports exactly the components asked for (all three by
      default), always with the sequence number and the lifetime counter. */
  lemma GetStateFacts(s: Runner, components: Option<set<Component>>)
    ensures var r := GetState(s, components);
      && (r.Err? <==> !s.hasModule && (components.None? || RlModule in components.value))
      && (r.Ok? ==>
           && r.value.weightsSeqNo == Some(s.weightsSeqNo)
           && r.value.lifetimeSteps == Some(Peek(s.log, EnvStepsSampledLifetime))
           && (r.value.rlModule.Some? <==> components.None? || RlModule in components.value)
           && (r.value.envToModule.Some? <==> components.None? || EnvToModuleConnector in components.value)
           && (r.value.moduleToEnv.Some? <==> components.None? || ModuleToEnvConnector in components.value))
  {
  }

  /** The module's weights are taken over iff they come with sequence
      number 0 or a larger one than held, which needs a module. Whenever
      the state carries weights with a positive number, the runner reports
      that number afterwards, whether the weights were taken over or not;
      otherwise the number stays. */
  lemma SetStateGate(s: Runner, st: State)
    ensures var r := SetState(s, st);
      && (r.Err? <==> st.rlModule.Some? && (SeqOf(st) == 0 || s.weightsSeqNo < SeqOf(st)) && !s.hasModule)
      && (r.Ok? ==> var s' := r.value;
           && s'.weights == (if st.rlModule.Some? && (SeqOf(st) == 0 || s.weightsSeqNo < SeqOf(st)) then st.rlModule.value else s.weights)
           && s'.weightsSeqNo == (if st.rlModule.Some? && 0 < SeqOf(st) then SeqOf(st) else s.weightsSeqNo))
  {
  }

  /** The corrected gate: the weights are taken over as before, but the
      sequence number never goes down, and it changes exactly when weights
      with a positive number are taken over, to that number. */
  lemma SetStateCorrectedGate(s: Runner, st: State)
    ensures var r := SetStateCorrected(s, st);
      && (r.Err? <==> st.rlModule.Some? && (SeqOf(st) == 0 || s.weightsSeqNo < SeqOf(st)) && !s.hasModule)
      && (r.Ok? ==> var s' := r.value;
           && s'.weights == (if st.rlModule.Some? && (SeqOf(st) == 0 || s.weightsSeqNo < SeqOf(st)) then st.rlModule.value else s.weights)
           && s.weightsSeqNo <= s'.weightsSeqNo
           && (s'.weightsSeqNo != s.weightsSeqNo <==> st.rlModule.Some? && 0 < SeqOf(st) && s.weightsSeqNo < SeqOf(st))
           && (s'.weightsSeqNo != s.weightsSeqNo ==> s'.weightsSeqNo == SeqOf(st)))
  {
  }

  /** Apart from the sequence number, the source's import and the corrected
      one give the same runner. */
  lemma SetStateVersionsAgree(s: Runner, st: State)
    ensures SetState(s, st).Ok? <==> SetStateCorrected(s, st).Ok?
    ensures SetState(s, st).Ok? ==>
              SetState(s, st).value.(weightsSeqNo := 0) == SetStateCorrected(s, st).value.(weightsSeqNo := 0)
  {
  }

  /** Importing a state changes only the four synchronized parts and the
      logger; each connector state is replaced iff the state carries it. */
  lemma SetStateFrame(s: Runner, st: State)
    requires SetState(s, st).Ok?
    ensures var s' := SetState(s, st).value;
      && s'.(weights := s.weights, weightsSeqNo := s.weightsSeqNo, log := s.log,
             envToModuleState := s.envToModuleState, moduleToEnvState := s.moduleToEnvState) == s
      && s'.envToModuleState == (if st.envToModule.Some? then st.envToModule.value else s.envToModuleState)
      && s'.moduleToEnvState == (if st.moduleToEnv.Some? then st.moduleToEnv.value else s.moduleToEnvState)
  {
  }

  /** The lifetime env-step counter becomes the incoming value, when there
      is one; no other counter moves. */
  lemma SetStateLog(s: Runner, st: State, k: Key)
    requires SetState(s, st).Ok?
    ensures Peek(SetState(s, st).value.log, k) ==
              if k == EnvStepsSampledLifetime && st.lifetimeSteps.Some? then st.lifetimeSteps.value else Peek(s.log, k)
  {
  }

  /** Weights numbered no higher than the ones held are ignored, even
      without a module, but their number replaces the one held. */
  lemma StaleWeightsIgnored(s: Runner, st: State)
    requires st.rlModule.Some? && 0 < SeqOf(st) <= s.weightsSeqNo
    ensures SetState(s, st).Ok?
    ensures SetState(s, st).value.weights == s.weights
    ensures SetState(s, st).value.weightsSeqNo == SeqOf(st)
  {
  }

  /** Importing a state changes nothing the runner invariant speaks of. */
  lemma SetStateValid(cfg: Config, s: Runner, st: State)
    requires Valid(cfg, s)
    requires SetState(s, st).Ok?
    ensures Valid(cfg, SetState(s, st).value)
  {
    SetStateFrame(s, st);
  }

  /** Importing a runner's own full state gives back the same runner, up to
      one more logger entry that leaves every counter as it was. */
  lemma RestoreOwnState(s: Runner)
    requires s.hasModule
    ensures GetState(s, None).Ok?
    ensures var r := SetState(s, GetState(s, None).value);
      && r.Ok? && r.value.(log := s.log) == s
      && forall k :: Peek(r.value.log, k) == Peek(s.log, k)
  {
  }

  /** Moving the full state from one runner to another: the connectors and
      the lifetime counter always come along; the weights come along when
      the source's sequence number is 0 or larger than the target's. A
      positive number always comes along, even when the target keeps its
      own, newer weights. */
  lemma TransferState(src: Runner, dst: Runner)
    requires src.hasModule && dst.hasModule
    ensures GetState(src, None).Ok?
    ensures var r := SetState(dst, GetState(src, None).value);
      && r.Ok? && GetState(r.value, None).Ok?
      && var got := GetState(r.value, None).value;
      && got.envToModule == Some(src.envToModuleState) && got.moduleToEnv == Some(src.moduleToEnvState)
      && got.lifetimeSteps == Some(Peek(src.log, EnvStepsSampledLifetime))
      && (got.rlModule == Some(src.weights) <== src.weightsSeqNo == 0 || dst.weightsSeqNo < src.weightsSeqNo)
      && (0 < src.weightsSeqNo ==> got.weightsSeqNo == Some(src.weightsSeqNo))
      && (src.weightsSeqNo == 0 ==> got.weightsSeqNo == Some(dst.weightsSeqNo))
      && (0 < src.weightsSeqNo <= dst.weightsSeqNo ==> got.rlModule == Some(dst.weights))
  {
    SetStateGate(dst, GetState(src, None).value);
  }

  /** `get_weights` returns the held weights, and fails without a module. */
  lemma GetWeightsFacts(s: Runner)
    ensures GetWeights(s) == if s.hasModule then Ok(s.weights) else Err(NoModule)
  {
  }

  /** `set_weights` followed by `get_weights` returns the weights set,
      whenever the sequence number lets them through. */
  lemma WeightsRoundTrip(s: Runner, w: Blob, seqNo: int)
    requires s.hasModule && (seqNo == 0 || s.weightsSeqNo < seqNo)
    ensures SetWeights(s, w, seqNo).Ok?
    ensures GetWeights(SetWeights(s, w, seqNo).value) == Ok(w)
  {
  }

  /** `set_weights` touches neither the logger nor the connectors. */
  lemma SetWeightsOnlyWeights(s: Runner, w: Blob, seqNo: int)
    requires SetWeights(s, w, seqNo).Ok?
    ensures SetWeights(s, w, seqNo).value.(weights := s.weights, weightsSeqNo := s.weightsSeqNo) == s
  {
  }

  // ---------------------------------------------------------------------
  // A series of weight updates.

  /** `set_weights` with each (weights, sequence number) pair in turn. */
  function SetAll(s: Runner, updates: seq<(Blob, int)>, asWritten: bool): Result<Runner>
    decreases |updates|
  {
    if |updates| == 0 then Ok(s)
    else
      match SetStateBy(s, State(Some(updates[0].1), None, Some(updates[0].0), None, None), asWritten)
      case Err(e) => Err(e)
      case Ok(s1) => SetAll(s1, updates[1..], asWritten)
  }

  function MaxSeq(local: int, updates: seq<(Blob, int)>): int
    decreases |updates|
  {
    if |updates| == 0 then local
    else MaxSeq(if local < updates[0].1 then updates[0].1 else local, updates[1..])
  }

  /** As written, after any series of updates with positive sequence
      numbers the runner reports the number of the last update, whatever
      the numbers before it; it holds the weights of the last update it
      took over, or its own. */
  lemma {:induction false} LastNumberWins(s: Runner, updates: seq<(Blob, int)>)
    requires s.hasModule
    requires forall i | 0 <= i < |updates| :: updates[i].1 > 0
    decreases |updates|
    ensures var r := SetAll(s, updates, true);
      && r.Ok?
      && r.value.weightsSeqNo == (if |updates| == 0 then s.weightsSeqNo else updates[|updates| - 1].1)
      && (r.value.weights == s.weights || exists i | 0 <= i < |updates| :: updates[i].0 == r.value.weights)
  {
    if |updates| > 0 {
      var u := updates[0];
      var s1 := SetStateBy(s, State(Some(u.1), None, Some(u.0), None, None), true).value;
      LastNumberWins(s1, updates[1..]);
      var r := SetAll(s1, updates[1..], true).value;
      if |updates| > 1 {
        assert updates[1..][|updates[1..]| - 1] == updates[|updates| - 1];
      }
      if r.weights != s.weights {
        if r.weights == s1.weights {
          assert updates[0].0 == r.weights;
        } else {
          var i :| 0 <= i < |updates[1..]| && updates[1..][i].0 == r.weights;
          assert updates[i + 1] == updates[1..][i];
        }
      }
    }
  }

  /** The corrected half: with positive sequence numbers, after any series
      of updates the runner holds the highest number it has seen and the weights sent with it (or
      its own, when nothing newer came). */
  lemma {:induction false} LatestWeightsWin(s: Runner, updates: seq<(Blob, int)>)
    requires s.hasModule
    requires forall i | 0 <= i < |updates| :: updates[i].1 > 0
    decreases |updates|
    ensures var r := SetAll(s, updates, false);
      && r.Ok? && r.value.weightsSeqNo == MaxSeq(s.weightsSeqNo, updates)
      && (r.value.weightsSeqNo == s.weightsSeqNo ==> r.value.weights == s.weights)
      && (r.value.weightsSeqNo != s.weightsSeqNo ==> exists i | 0 <= i < |updates| :: updates[i] == (r.value.weights, r.value.weightsSeqNo))
  {
    if |updates| > 0 {
      var u := updates[0];
      var s1 := SetStateBy(s, State(Some(u.1), None, Some(u.0), None, None), false).value;
      LatestWeightsWin(s1, updates[1..]);
      var r := SetAll(s1, updates[1..], false).value;
      MaxSeqAtLeast(s1.weightsSeqNo, updates[1..]);
      if r.weightsSeqNo != s.weightsSeqNo {
        if r.weightsSeqNo == s1.weightsSeqNo {
          assert updates[0] == (r.weights, r.weightsSeqNo);
        } else {
          var i :| 0 <= i < |updates[1..]| && updates[1..][i] == (r.weights, r.weightsSeqNo);
          assert updates[i + 1] == updates[1..][i];
        }
      }
    }
  }

  lemma {:induction false} MaxSeqAtLeast(local: int, updates: seq<(Blob, int)>)
    decreases |updates|
    ensures local <= MaxSeq(local, updates)
    ensures forall i | 0 <= i < |updates| :: updates[i].1 <= MaxSeq(local, updates)
  {
    if |updates| > 0 {
      var next := if local < updates[0].1 then updates[0].1 else local;
      MaxSeqAtLeast(next, updates[1..]);
      forall i | 0 <= i < |updates| ensures updates[i].1 <= MaxSeq(local, updates) {
        if i > 0 { assert updates[i] == updates[1..][i - 1]; }
      }
    }
  }

  /** As written, a stale update still lowers the sequence number, so that
      an update older than the weights held is taken over afterwards: a
      runner at number 5 holding `[5]` that is sent `[3]` numbered 3 and
      then `[4]` numbered 4 ends up holding `[4]` under number 4. */
  lemma StaleSeqNoRegresses(env: Env)
    ensures var s := Init(env, true, [5], [], []).(weightsSeqNo := 5);
      var r := SetAll(s, [([3], 3), ([4], 4)], true);
      && r.Ok? && r.value.weights == [4] && r.value.weightsSeqNo == 4
      && SetAll(s, [([3], 3), ([4], 4)], false) == Ok(s)
  {
    var s := Init(env, true, [5], [], []).(weightsSeqNo := 5);
    var ups: seq<(Blob, int)> := [([3], 3), ([4], 4)];
    assert ups[1..][1..] == [];
    assert ups[1..][0] == ([4], 4);
  }
}
