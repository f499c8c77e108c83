/** The training smoke backend and its lifecycle: guards, counters and checkpoint order under failures anywhere. */
module Training {
  import opened Wrappers

  /** The backend's fields that its guards and counters use. applied counts the calls of optimizer.step since the
      last reset; the program does not keep it. */
  datatype Backend = Backend(
    torch: bool, loaded: bool, batch: bool, learningRate: bool, optimizer: bool, reloaded: bool,
    forward: nat, backward: nat, steps: nat, resumed: nat, applied: nat)

  const NEW: Backend := Backend(false, false, false, false, false, false, 0, 0, 0, 0, 0)

  /** good says that the call's own arguments are accepted: the pinned config, the samples, the prompt. */
  datatype Call =
    | Load(good: bool) | Tokenize(good: bool) | TrainStep | SaveCheckpoint | ReloadCheckpoint | ResumeTrainStep
    | Infer(good: bool)

  datatype Result = Result(after: Backend, done: bool)

  predicate Ready(b: Backend) {
    b.torch && b.loaded
  }

  /** load. Foreign calls raise or return; k is how many of the groups of foreign calls return before one raises. A
      failed second load leaves the earlier model in place with the counters reset. */
  function DoLoad(b: Backend, good: bool, k: nat): Result {
    var imported := b.(torch := true);
    var reset := imported.(learningRate := true, optimizer := false, reloaded := false, forward := 0, backward := 0,
                           steps := 0, resumed := 0, applied := 0);
    if !good || k == 0 then Result(b, false)
    else if k == 1 then Result(imported, false)
    else if k == 2 then Result(reset, false)
    else Result(reset.(loaded := true), true)
  }

  function DoTokenize(b: Backend, good: bool, k: nat): Result {
    if !Ready(b) || !good || k == 0 then Result(b, false) else Result(b.(batch := true), true)
  }

  /** _run_optimizer_step: forward, backward, the optimizer's step, then reading the loss. */
  function RunStep(b: Backend, resume: bool, k: nat): Result {
    var one := b.(forward := b.forward + 1);
    var two := one.(backward := b.backward + 1);
    var three := two.(applied := b.applied + 1);
    if !b.batch || !b.optimizer || k == 0 then Result(b, false)
    else if k == 1 then Result(one, false)
    else if k == 2 then Result(two, false)
    else if k == 3 then Result(three, false)
    else Result(three.(steps := b.steps + 1, resumed := b.resumed + if resume then 1 else 0), true)
  }

  function DoTrainStep(b: Backend, k: nat): Result {
    if !Ready(b) || b.steps != 0 || b.optimizer || !b.learningRate || k == 0 then Result(b, false)
    else RunStep(b.(optimizer := true), false, k - 1)
  }

  function DoSave(b: Backend, k: nat): Result {
    Result(b, Ready(b) && b.optimizer && b.steps == 1 && k > 0)
  }

  function DoReload(b: Backend, k: nat): Result {
    var dropped := b.(loaded := false, optimizer := false, reloaded := false);
    var restored := dropped.(loaded := true);
    if !Ready(b) then Result(b, false)
    else if k == 0 then Result(dropped, false)
    else if k == 1 || !b.learningRate then Result(restored, false)
    else Result(restored.(optimizer := true, reloaded := true), true)
  }

  function DoResume(b: Backend, k: nat): Result {
    if !Ready(b) || !b.optimizer || !b.reloaded || b.resumed != 0 || b.steps != 1 then Result(b, false)
    else RunStep(b, true, k)
  }

  function DoInfer(b: Backend, good: bool, k: nat): Result {
    Result(b, Ready(b) && good && k > 0)
  }

  /** The call's own arguments are not accepted. */
  predicate Refused(c: Call) {
    match c
    case Load(good) => !good
    case Tokenize(good) => !good
    case Infer(good) => !good
    case _ => false
  }

  function Do(b: Backend, c: Call, k: nat): Result {
    match c
    case Load(good) => DoLoad(b, good, k)
    case Tokenize(good) => DoTokenize(b, good, k)
    case TrainStep => DoTrainStep(b, k)
    case SaveCheckpoint => DoSave(b, k)
    case ReloadCheckpoint => DoReload(b, k)
    case ResumeTrainStep => DoResume(b, k)
    case Infer(good) => DoInfer(b, good, k)
  }

  /** Any sequence of calls, each failing where it may. */
  datatype History = Fresh | Called(before: History, call: Call, k: nat)

  function After(h: History): Backend {
    match h
    case Fresh => NEW
    case Called(before, call, k) => Do(After(before), call, k).after
  }

  /** What the counters always satisfy. A step that was counted was applied, and a step is applied only after its
      gradients were computed. */
  predicate Counted(b: Backend) {
    && b.steps <= 2 && b.resumed <= 1 && (b.resumed == 1 <==> b.steps == 2)
    && b.steps <= b.applied <= b.backward <= b.forward
  }

  /** In every history of calls, with failures at any point, the counters are consistent. */
  lemma {:induction false} AlwaysCounted(h: History)
    ensures Counted(After(h))
  {
    match h
    case Fresh =>
    case Called(before, call, k) =>
      AlwaysCounted(before);
      StepCounted(After(before), call, k);
  }

  // Steps that were applied but never counted.

  /** The call reaches the optimizer's step, and then reading the loss raises. */
  predicate LosesStep(b: Backend, c: Call, k: nat) {
    match c
    case TrainStep => Ready(b) && b.steps == 0 && !b.optimizer && b.learningRate && b.batch && k == 4
    case ResumeTrainStep => Ready(b) && b.optimizer && b.reloaded && b.resumed == 0 && b.steps == 1 && b.batch && k == 3
    case _ => false
  }

  /** load gets as far as setting the counters to zero. */
  predicate Resets(c: Call, k: nat) {
    c.Load? && c.good && k >= 2
  }

  /** How often a loss could not be read after its step, since the counters were last reset. */
  function Lost(h: History): nat {
    match h
    case Fresh => 0
    case Called(before, call, k) =>
      if Resets(call, k) then 0 else Lost(before) + if LosesStep(After(before), call, k) then 1 else 0
  }

  /** In every history the applied steps are the counted ones and the lost ones. */
  lemma {:induction false} AppliedIsCountedAndLost(h: History)
    ensures After(h).applied == After(h).steps + Lost(h)
  {
    match h
    case Fresh =>
    case Called(before, call, k) =>
      AppliedIsCountedAndLost(before);
      StepAccounted(After(before), call, k);
  }

  /** One call adds the same to both sides, or resets both. */
  lemma {:induction false} StepAccounted(b: Backend, c: Call, k: nat)
    ensures var after := Do(b, c, k).after;
            if Resets(c, k) then after.applied == after.steps == 0
            else after.applied - b.applied == after.steps - b.steps + if LosesStep(b, c, k) then 1 else 0
  {
  }

  /** So the counter says how many steps the optimizer took exactly when no loss was lost. */
  lemma {:induction false} CounterIsExact(h: History)
    ensures After(h).steps == After(h).applied <==> Lost(h) == 0
  {
    AppliedIsCountedAndLost(h);
  }

  /** The first step can be lost too: it is applied, and the counter still says that there was none. */
  lemma {:induction false} StepsMayLag()
    ensures exists h :: After(h).applied == 1 && After(h).steps == 0
  {
    var loaded := Called(Called(Fresh, Load(true), 3), Tokenize(true), 1);
    var h := Called(loaded, TrainStep, 4);
    assert After(loaded) == NEW.(torch := true, learningRate := true, loaded := true, batch := true);
    assert After(h).applied == 1 && After(h).steps == 0;
  }

  /** A backend reloaded from its checkpoint, followed by n resumed steps whose losses cannot be read. */
  function Retried(n: nat): History {
    if n == 0 then
      var ready := Called(Called(Fresh, Load(true), 3), Tokenize(true), 1);
      Called(Called(Called(ready, TrainStep, 5), SaveCheckpoint, 1), ReloadCheckpoint, 2)
    else Called(Retried(n - 1), ResumeTrainStep, 3)
  }

  /** The guard of the resumed step does not see lost steps: it can be applied again without bound. */
  lemma {:induction false} RetriesAreUnbounded(n: nat)
    ensures var b := After(Retried(n));
            b.steps == 1 && b.resumed == 0 && b.applied == n + 1 && Lost(Retried(n)) == n
  {
    RetryState(n);
    AppliedIsCountedAndLost(Retried(n));
  }

  lemma {:induction false} RetryState(n: nat)
    ensures After(Retried(n)) == Backend(true, true, true, true, true, true, n + 1, n + 1, 1, 0, n + 1)
  {
    if n == 0 {
      var loaded := Called(Called(Fresh, Load(true), 3), Tokenize(true), 1);
      assert After(loaded) == NEW.(torch := true, learningRate := true, loaded := true, batch := true);
      var stepped := Called(loaded, TrainStep, 5);
      assert After(stepped) == Backend(true, true, true, true, true, false, 1, 1, 1, 0, 1);
      assert After(Called(stepped, SaveCheckpoint, 1)) == After(stepped);
    } else {
      RetryState(n - 1);
    }
  }

  // The lifecycle.

  datatype Report = Report(pass: bool, completed: seq<Call>, failedStage: Option<Call>, resumedStepCompleted: bool)

  function Stages(samplesOk: bool, promptOk: bool, configOk: bool): seq<Call> {
    [Load(configOk), Tokenize(samplesOk), TrainStep, SaveCheckpoint, ReloadCheckpoint, ResumeTrainStep, Infer(promptOk)]
  }

  /** require_consistent_resume_evidence */
  predicate Consistent(r: Report) {
    r.resumedStepCompleted == (ResumeTrainStep in r.completed) && (r.pass ==> ResumeTrainStep in r.completed)
  }

  /** Where the backend stands after the first n stages have succeeded, whatever state it started in. */
  predicate Progressed(b: Backend, n: nat) {
    && (n >= 1 ==> Ready(b) && b.learningRate)
    && (1 <= n <= 2 ==>
          b.steps == b.resumed == b.applied == b.forward == b.backward == 0 && !b.optimizer && !b.reloaded)
    && (n >= 2 ==> b.batch)
    && (3 <= n <= 5 ==> b.optimizer && b.steps == b.applied == b.forward == b.backward == 1 && b.resumed == 0)
    && (n >= 5 ==> b.optimizer && b.reloaded)
    && (n >= 6 ==> b.steps == b.applied == b.forward == b.backward == 2 && b.resumed == 1)
  }

  lemma {:induction false} StageProgresses(b: Backend, stages: seq<Call>, samplesOk: bool, promptOk: bool,
                                           configOk: bool, n: nat, k: nat)
    requires stages == Stages(samplesOk, promptOk, configOk) && n < |stages| && Progressed(b, n)
             && Do(b, stages[n], k).done
    ensures Progressed(Do(b, stages[n], k).after, n + 1)
  {
  }

  /** The groups of foreign calls of each stage. */
  function Groups(n: nat): nat {
    if n == 0 then 3 else if n == 2 then 5 else if n == 4 then 2 else if n == 5 then 4 else 1
  }

  /** Nothing makes stage n fail: its arguments are accepted and all its foreign calls return. */
  predicate Works(samplesOk: bool, promptOk: bool, configOk: bool, ks: nat -> nat, n: nat) {
    && ks(n) >= Groups(n)
    && (n == 0 ==> configOk) && (n == 1 ==> samplesOk) && (n == 6 ==> promptOk)
  }

  lemma {:induction false} AllWork(samplesOk: bool, promptOk: bool, configOk: bool, ks: nat -> nat)
    requires forall n :: 0 <= n < 7 ==> Works(samplesOk, promptOk, configOk, ks, n)
    ensures samplesOk && promptOk && configOk && forall n :: 0 <= n < 7 ==> ks(n) > 0
  {
    assert Works(samplesOk, promptOk, configOk, ks, 0) && Works(samplesOk, promptOk, configOk, ks, 1);
    assert Works(samplesOk, promptOk, configOk, ks, 6);
    forall n | 0 <= n < 7 ensures ks(n) > 0 {
      assert Works(samplesOk, promptOk, configOk, ks, n);
    }
  }

  /** Behind the stages before it, a stage succeeds exactly if nothing makes it fail: no guard stops it. */
  lemma {:induction false} StageWorks(b: Backend, stages: seq<Call>, samplesOk: bool, promptOk: bool, configOk: bool,
                                      ks: nat -> nat, n: nat)
    requires stages == Stages(samplesOk, promptOk, configOk) && n < |stages| && Progressed(b, n)
    ensures Do(b, stages[n], ks(n)).done <==> Works(samplesOk, promptOk, configOk, ks, n)
  {
  }

  /** Where the backend stands after n stages have been run, and whether the next one succeeds. */
  function Run(b: Backend, stages: seq<Call>, ks: nat -> nat, n: nat): Backend
    requires n <= |stages|
  {
    if n == 0 then b else Do(Run(b, stages, ks, n - 1), stages[n - 1], ks(n - 1)).after
  }

  predicate Succeeds(b: Backend, stages: seq<Call>, ks: nat -> nat, n: nat)
    requires n < |stages|
  {
    Do(Run(b, stages, ks, n), stages[n], ks(n)).done
  }

  predicate KeepsCounters(a: Backend, b: Backend) {
    && b.forward == a.forward && b.backward == a.backward
    && b.steps == a.steps && b.resumed == a.resumed && b.applied == a.applied
  }

  predicate NoCounters(b: Backend) {
    b.forward == b.backward == b.steps == b.resumed == b.applied == 0
  }

  class TransformersBackend {
    var torch: bool
    var loaded: bool
    var batch: bool
    var learningRate: bool
    var optimizer: bool
    var reloaded: bool
    var forward: nat
    var backward: nat
    var steps: nat
    var resumed: nat
    ghost var applied: nat

    ghost function Contents(): Backend
      reads this
    {
      Backend(torch, loaded, batch, learningRate, optimizer, reloaded, forward, backward, steps, resumed, applied)
    }

    constructor ()
      ensures Contents() == NEW
    {
      torch, loaded, batch, learningRate, optimizer, reloaded := false, false, false, false, false, false;
      forward, backward, steps, resumed, applied := 0, 0, 0, 0, 0;
    }

    method LoadModel(good: bool, k: nat) returns (done: bool)
      modifies this
      ensures Result(Contents(), done) == DoLoad(old(Contents()), good, k)
      ensures loaded == (old(loaded) || done)
      ensures KeepsCounters(old(Contents()), Contents()) || (NoCounters(Contents()) && !optimizer && !reloaded)
      ensures done ==> Ready(Contents()) && NoCounters(Contents()) && !optimizer
    {
      if !good || k == 0 { return false; }
      torch := true;
      if k == 1 { return false; }
      learningRate, optimizer := true, false;
      forward, backward, steps, resumed, applied := 0, 0, 0, 0, 0;
      reloaded := false;
      if k == 2 { return false; }
      loaded := true;
      done := true;
    }

    method TokenizeSamples(good: bool, k: nat) returns (done: bool)
      modifies this
      ensures Result(Contents(), done) == DoTokenize(old(Contents()), good, k)
    {
      if !torch || !loaded || !good || k == 0 { return false; }
      batch := true;
      done := true;
    }

    /** _run_optimizer_step */
    method RunOptimizerStep(resume: bool, k: nat) returns (done: bool)
      modifies this
      ensures Result(Contents(), done) == RunStep(old(Contents()), resume, k)
      ensures steps == old(steps) + (if done then 1 else 0) && resumed == old(resumed) + if done && resume then 1 else 0
      ensures done ==> applied == old(applied) + 1
      ensures old(applied) <= applied <= old(applied) + 1
      ensures applied > old(applied) ==> backward == old(backward) + 1
      ensures backward > old(backward) ==> forward == old(forward) + 1
    {
      if !batch || !optimizer || k == 0 { return false; }
      forward := forward + 1;
      if k == 1 { return false; }
      backward := backward + 1;
      if k == 2 { return false; }
      applied := applied + 1;
      if k == 3 { return false; }
      steps := steps + 1;
      if resume { resumed := resumed + 1; }
      done := true;
    }

    method FirstStep(k: nat) returns (done: bool)
      modifies this
      ensures Result(Contents(), done) == DoTrainStep(old(Contents()), k)
    {
      if !torch || !loaded || steps != 0 || optimizer { return false; }
      if !learningRate || k == 0 { return false; }
      optimizer := true;
      done := RunOptimizerStep(false, k - 1);
    }

    method Save(k: nat) returns (done: bool)
      ensures Result(Contents(), done) == DoSave(Contents(), k)
    {
      done := torch && loaded && optimizer && steps == 1 && k > 0;
    }

    method Reload(k: nat) returns (done: bool)
      modifies this
      ensures Result(Contents(), done) == DoReload(old(Contents()), k)
      ensures KeepsCounters(old(Contents()), Contents())
      ensures !done && Ready(old(Contents())) ==> !optimizer && !reloaded
      ensures done ==> Ready(Contents()) && optimizer && reloaded
    {
      if !torch || !loaded { return false; }
      loaded, optimizer, reloaded := false, false, false;
      if k == 0 { return false; }
      loaded := true;
      if k == 1 || !learningRate { return false; }
      optimizer := true;
      reloaded := true;
      done := true;
    }

    method Resume(k: nat) returns (done: bool)
      modifies this
      ensures Result(Contents(), done) == DoResume(old(Contents()), k)
    {
      if !torch || !loaded || !optimizer || !reloaded || resumed != 0 || steps != 1 { return false; }
      done := RunOptimizerStep(true, k);
    }

    method Perform(c: Call, k: nat) returns (done: bool)
      modifies this
      ensures Result(Contents(), done) == Do(old(Contents()), c, k)
      ensures done ==> !Refused(c) && k > 0
      ensures Refused(c) || k == 0 ==> !done && KeepsCounters(old(Contents()), Contents())
      ensures done && !c.Load? ==> old(torch && loaded)
      ensures done && c.TrainStep? ==> old(learningRate && batch && !optimizer && steps == 0)
      ensures done && c.SaveCheckpoint? ==> old(optimizer && steps == 1)
      ensures done && c.ReloadCheckpoint? ==> old(learningRate)
      ensures done && c.ResumeTrainStep? ==> old(batch && optimizer && reloaded && steps == 1 && resumed == 0)
      ensures Refused(c) || c.SaveCheckpoint? || c.Infer? || (c.Tokenize? && !done) ==> Contents() == old(Contents())
    {
      match c
      case Load(good) => done := LoadModel(good, k);
      case Tokenize(good) => done := TokenizeSamples(good, k);
      case TrainStep => done := FirstStep(k);
      case SaveCheckpoint => done := Save(k);
      case ReloadCheckpoint => done := Reload(k);
      case ResumeTrainStep => done := Resume(k);
      case Infer(good) => done := torch && loaded && good && k > 0;
    }

    /** run_training_lifecycle, ks saying where each stage's foreign calls raise. The completed stages are those before
        the first that fails. A PASS report means two counted and applied steps, one of them resumed from reloaded
        optimizer state, whatever state the backend was in before; and every report satisfies its validator. */
    method RunLifecycle(samplesOk: bool, promptOk: bool, configOk: bool, ks: nat -> nat) returns (report: Report)
      requires Counted(Contents())
      modifies this
      ensures Counted(Contents()) && Consistent(report)
      ensures |report.completed| <= 7 && report.completed == Stages(samplesOk, promptOk, configOk)[..|report.completed|]
      ensures report.pass <==> |report.completed| == 7
      ensures report.pass ==> samplesOk && promptOk && configOk && forall n :: 0 <= n < 7 ==> ks(n) > 0
      ensures forall n :: 0 <= n < |report.completed| ==> Works(samplesOk, promptOk, configOk, ks, n)
      ensures !report.pass ==> !Works(samplesOk, promptOk, configOk, ks, |report.completed|)
      ensures forall n :: 0 <= n < |report.completed| ==>
                Succeeds(old(Contents()), Stages(samplesOk, promptOk, configOk), ks, n)
      ensures !report.pass ==>
                !Succeeds(old(Contents()), Stages(samplesOk, promptOk, configOk), ks, |report.completed|)
      ensures Contents() == Run(old(Contents()), Stages(samplesOk, promptOk, configOk), ks,
                                if report.pass then 7 else |report.completed| + 1)
      ensures report.failedStage == if report.pass then None
              else Some(Stages(samplesOk, promptOk, configOk)[|report.completed|])
      ensures report.pass ==> steps == 2 && resumed == 1 && reloaded && applied == forward == backward == 2
      ensures ResumeTrainStep in report.completed <==> |report.completed| >= 6
      ensures report.resumedStepCompleted <==> |report.completed| >= 6
    {
      var stages := Stages(samplesOk, promptOk, configOk);
      var completed := RunBeforeInference(stages, samplesOk, promptOk, configOk, ks);
      CompletedResume(stages, samplesOk, promptOk, configOk, |completed|);
      if |completed| < 6 {
        return Report(false, completed, Some(stages[|completed|]), ResumeTrainStep in completed);
      }
      var done := RunStage(stages, samplesOk, promptOk, configOk, 6, ks);
      if !done { return Report(false, completed, Some(stages[6]), true); }
      completed := completed + [stages[6]];
      assert completed == stages[..7];
      AllWork(samplesOk, promptOk, configOk, ks);
      CompletedResume(stages, samplesOk, promptOk, configOk, 7);
      report := Report(true, completed, None, true);
    }

    /** The loop over the stages before inference: it stops behind the first that fails. */
    method RunBeforeInference(stages: seq<Call>, samplesOk: bool, promptOk: bool, configOk: bool, ks: nat -> nat)
      returns (completed: seq<Call>)
      requires stages == Stages(samplesOk, promptOk, configOk) && Counted(Contents())
      modifies this
      ensures |completed| <= 6 && completed == stages[..|completed|] && Counted(Contents())
      ensures forall n :: 0 <= n < |completed| ==> Succeeds(old(Contents()), stages, ks, n)
      ensures |completed| < 6 ==> !Succeeds(old(Contents()), stages, ks, |completed|)
      ensures Contents() == Run(old(Contents()), stages, ks, if |completed| < 6 then |completed| + 1 else 6)
      ensures |completed| == 6 ==> Progressed(Contents(), 6)
      ensures forall n :: 0 <= n < |completed| ==> Works(samplesOk, promptOk, configOk, ks, n)
      ensures |completed| < 6 ==> !Works(samplesOk, promptOk, configOk, ks, |completed|)
    {
      completed := [];
      for n := 0 to 6
        invariant completed == stages[..n] && Counted(Contents()) && Progressed(Contents(), n)
        invariant Contents() == Run(old(Contents()), stages, ks, n)
        invariant forall i :: 0 <= i < n ==>
                    Succeeds(old(Contents()), stages, ks, i) && Works(samplesOk, promptOk, configOk, ks, i)
      {
        var done := RunStage(stages, samplesOk, promptOk, configOk, n, ks);
        if !done { return; }
        completed := completed + [stages[n]];
        assert completed == stages[..n + 1];
      }
    }

    /** One stage of the lifecycle. */
    method RunStage(stages: seq<Call>, samplesOk: bool, promptOk: bool, configOk: bool, n: nat, ks: nat -> nat)
      returns (done: bool)
      requires stages == Stages(samplesOk, promptOk, configOk) && n < |stages| && Counted(Contents())
               && Progressed(Contents(), n)
      modifies this
      ensures Counted(Contents()) && (done ==> Progressed(Contents(), n + 1))
      ensures Result(Contents(), done) == Do(old(Contents()), stages[n], ks(n))
      ensures done <==> Works(samplesOk, promptOk, configOk, ks, n)
    {
      StepCounted(Contents(), stages[n], ks(n));
      StageWorks(Contents(), stages, samplesOk, promptOk, configOk, ks, n);
      ghost var before := Contents();
      done := Perform(stages[n], ks(n));
      if done { StageProgresses(before, stages, samplesOk, promptOk, configOk, n, ks(n)); }
    }
  }

  lemma {:induction false} StepCounted(b: Backend, c: Call, k: nat)
    requires Counted(b)
    ensures Counted(Do(b, c, k).after)
  {
  }

  lemma {:induction false} CompletedResume(stages: seq<Call>, samplesOk: bool, promptOk: bool, configOk: bool, n: nat)
    requires stages == Stages(samplesOk, promptOk, configOk) && n <= |stages|
    ensures ResumeTrainStep in stages[..n] <==> n >= 6
  {
    if n >= 6 { assert stages[..n][5] == ResumeTrainStep; }
  }
}
