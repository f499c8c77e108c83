/** write_immutable_stream as a program over the shared file system, with other processes stepping in between. */
module Publishing {
  import opened Artifacts

  /** What the program does not control, by the number of its steps so far: the steps other processes take before
      the next one, and whether that one raises. */
  datatype Environment = Environment(others: nat -> seq<Action>, fails: nat -> bool)

  /** What every process on this file system keeps to. */
  type Rule = (State, Action) -> bool

  ghost predicate Follows(rule: Rule, r: Run) {
    r.Then? ==> Follows(rule, r.front) && (Enabled(After(r.front), r.last) ==> rule(After(r.front), r.last))
  }

  function Joined(chunks: seq<Bytes>, n: nat): Bytes
    requires n <= |chunks|
  {
    if n == 0 then [] else Joined(chunks, n - 1) + chunks[n - 1]
  }

  /** The chunks put together from the first on. */
  ghost function Flat(chunks: seq<Bytes>): Bytes {
    if chunks == [] then [] else chunks[0] + Flat(chunks[1..])
  }

  lemma {:induction false} JoinedIsFlat(chunks: seq<Bytes>, n: nat)
    requires n <= |chunks|
    ensures Joined(chunks, n) + Flat(chunks[n..]) == Flat(chunks)
  {
    if n > 0 {
      JoinedIsFlat(chunks, n - 1);
      var rest := chunks[n - 1..];
      assert rest[0] == chunks[n - 1] && rest[1..] == chunks[n..];
      assert Joined(chunks, n) + Flat(chunks[n..]) == Joined(chunks, n - 1) + Flat(rest);
    } else {
      assert chunks[0..] == chunks;
    }
  }

  lemma {:induction false} AllJoined(chunks: seq<Bytes>)
    ensures Joined(chunks, |chunks|) == Flat(chunks)
  {
    JoinedIsFlat(chunks, |chunks|);
    assert chunks[|chunks|..] == [];
  }

  /** Some operation between these two moments raises. */
  ghost predicate Faulty(env: Environment, from: nat, to: nat) {
    exists k :: from < k <= to && env.fails(k)
  }

  /** The process of w makes one call at a time: its other calls stay as they are. */
  ghost predicate OneAtATime(s: State, t: State, w: Writing) {
    forall v: Writing :: SameCall(s, t, w, v)
  }

  predicate SameCall(s: State, t: State, w: Writing, v: Writing) {
    v.process == w.process && v != w ==>
      (v in t.writers <==> v in s.writers) && (v in s.writers && v in t.writers ==> t.writers[v] == s.writers[v])
  }

  /** The steps in between are other processes': w is where it was. */
  ghost predicate Undisturbed(s: State, t: State, w: Writing) {
    && Stays(s, t) && OneAtATime(s, t, w)
    && w in s.writers && w in t.writers && t.writers[w] == s.writers[w] && Temporary(t, w) == Temporary(s, w)
  }

  /** Between these two points of the run the call w went past its pre-publish check, and the check held in the state
      it was made in. */
  ghost predicate Passed(from: Run, to: Run, w: Writing, check: State -> bool) {
    exists r :: Extends(from, r) && Extends(Then(r, Check(w)), to) && Enabled(After(r), Check(w)) && check(After(r))
  }

  /** Between these two points the call w gave up at its check, which did not hold in the state it was made in. */
  ghost predicate Refused(from: Run, to: Run, w: Writing, check: State -> bool) {
    exists r :: Extends(from, r) && Extends(Then(r, Abort(w)), to) && At(After(r), w, Hashed) && !check(After(r))
  }

  /** A step that the call w, started in s, takes in t: it finishes with this content and passes only a good check. */
  ghost predicate OwnAction(s: State, t: State, a: Action, w: Writing, content: Bytes, check: State -> bool) {
    && a.w == w && !a.Start? && Stays(s, t) && OneAtATime(s, t, w)
    && (a.Finish? ==> Temporary(t, w) == content) && (a.Check? ==> check(t))
  }

  /** Every step of the call keeps to the rule. */
  ghost predicate Permitted(rule: Rule, s: State, w: Writing, content: Bytes, check: State -> bool) {
    forall t, a :: OwnAction(s, t, a, w, content, check) ==> rule(t, a)
  }

  lemma {:induction false} ExtendsTrans(a: Run, b: Run, c: Run)
    requires Extends(a, b) && Extends(b, c)
    ensures Extends(a, c)
  {
    if b != c {
      ExtendsTrans(a, b, c.front);
    }
  }

  /** What was decided at the check stays decided. */
  lemma {:induction false} DecidedStays(from: Run, to: Run, more: Run, w: Writing, check: State -> bool)
    requires Extends(to, more)
    ensures Passed(from, to, w, check) ==> Passed(from, more, w, check)
    ensures Refused(from, to, w, check) ==> Refused(from, more, w, check)
  {
    if Passed(from, to, w, check) {
      var r :| Extends(from, r) && Extends(Then(r, Check(w)), to) && Enabled(After(r), Check(w)) && check(After(r));
      ExtendsTrans(Then(r, Check(w)), to, more);
    }
    if Refused(from, to, w, check) {
      var r :| Extends(from, r) && Extends(Then(r, Abort(w)), to) && At(After(r), w, Hashed) && !check(After(r));
      ExtendsTrans(Then(r, Abort(w)), to, more);
    }
  }

  /** The call w made its check at some point of the run, in a state in which the rule allows that. */
  ghost predicate CheckedUnder(rule: Rule, r: Run, w: Writing) {
    exists q :: Extends(Then(q, Check(w)), r) && Enabled(After(q), Check(w)) && rule(After(q), Check(w))
  }

  lemma {:induction false} CheckWasMade(rule: Rule, r: Run, w: Writing)
    requires Follows(rule, r) && w in After(r).writers && After(r).writers[w].checked
    ensures CheckedUnder(rule, r, w)
  {
    match r
    case Then(front, last) =>
      if last == Check(w) && Enabled(After(front), last) {
        assert Extends(Then(front, Check(w)), r);
      } else {
        CheckWasMade(rule, front, w);
        var q :| Extends(Then(q, Check(w)), front) && Enabled(After(q), Check(w)) && rule(After(q), Check(w));
        assert Extends(Then(q, Check(w)), r);
      }
  }

  /** When every process keeps to the rule, no file is published without a check that the rule allowed. */
  lemma {:induction false} PublishedUnderRule(rule: Rule, r: Run, p: Path)
    requires Follows(rule, r) && p in After(r).files
    ensures CheckedUnder(rule, r, After(r).files[p])
  {
    Reachable(r);
    assert FileOk(After(r), p);
    CheckWasMade(rule, r, After(r).files[p]);
  }

  lemma {:induction false} OneAtATimeTrans(s: State, t: State, u: State, w: Writing)
    requires OneAtATime(s, t, w) && OneAtATime(t, u, w)
    ensures OneAtATime(s, u, w)
  {
    forall v: Writing ensures SameCall(s, u, w, v) {
      assert SameCall(s, t, w, v) && SameCall(t, u, w, v);
    }
  }

  class FileSystem {
    const env: Environment
    const rule: Rule
    var state: State
    var clock: nat
    ghost var run: Run

    constructor (env: Environment, rule: Rule)
      ensures this.env == env && this.rule == rule && Valid() && run == Begin
    {
      this.env, this.rule := env, rule;
      state, clock, run := State(map[], {}, map[], map[]), 0, Begin;
    }

    ghost predicate Valid()
      reads this
    {
      state == After(run) && Follows(rule, run)
    }

    method Step(a: Action)
      requires Valid() && (Enabled(state, a) ==> rule(state, a))
      modifies this`state, this`run
      ensures Valid() && run == Then(old(run), a) && state == Next(old(state), a)
      ensures Extends(old(run), run) && Inv(state) && Stays(old(state), state)
    {
      Reachable(run);
      StepKeeps(state, a);
      if Enabled(state, a) { state := Apply(state, a); }
      run := Then(run, a);
    }

    /** The other processes take their steps. */
    method Interfere(w: Writing)
      requires Valid() && w in state.writers
      modifies this
      ensures Valid() && Extends(old(run), run) && Inv(state) && Undisturbed(old(state), state, w)
      ensures clock == old(clock) + 1
    {
      ghost var run0, state0 := run, state;
      Reachable(run);
      var steps := env.others(clock);
      clock := clock + 1;
      for n := 0 to |steps|
        invariant Valid() && Extends(run0, run) && Inv(state) && Undisturbed(state0, state, w)
        invariant clock == old(clock) + 1
      {
        if steps[n].w.process != w.process && (Enabled(state, steps[n]) ==> rule(state, steps[n])) {
          OtherProcess(steps[n], w, run0, state0);
        }
      }
    }

    /** One step of another process. */
    method OtherProcess(a: Action, w: Writing, ghost run0: Run, ghost state0: State)
      requires Valid() && (Enabled(state, a) ==> rule(state, a)) && a.w.process != w.process
      requires Extends(run0, run) && Undisturbed(state0, state, w)
      modifies this`state, this`run
      ensures Valid() && Extends(run0, run) && Inv(state) && Undisturbed(state0, state, w)
    {
      ghost var before, beforeRun := state, run;
      Step(a);
      StaysTrans(state0, before, state);
      OneAtATimeTrans(state0, before, state, w);
      ExtendsTrans(run0, beforeRun, run);
    }

    /** What the call w has done to the file system since run0, together with the steps in between. */
    ghost predicate Since(run0: Run, w: Writing)
      reads this
    {
      Valid() && Extends(run0, run) && Inv(state) && Stays(After(run0), state) && OneAtATime(After(run0), state, w)
    }

    /** A step of the call itself. */
    method OwnNext(a: Action, ghost run0: Run, ghost content: Bytes, ghost check: State -> bool)
      requires Since(run0, a.w) && Permitted(rule, After(run0), a.w, content, check)
      requires OwnAction(After(run0), state, a, a.w, content, check)
      modifies this`state, this`run
      ensures Since(run0, a.w) && state == Next(old(state), a) && run == Then(old(run), a)
    {
      ghost var before, beforeRun := state, run;
      Step(a);
      StaysTrans(After(run0), before, state);
      OneAtATimeTrans(After(run0), before, state, a.w);
      ExtendsTrans(run0, beforeRun, run);
    }

    /** Time passes; then the call's next foreign operation raises or not. */
    method Wait(w: Writing, ghost run0: Run) returns (raises: bool)
      requires Since(run0, w) && w in state.writers
      modifies this
      ensures Since(run0, w) && Undisturbed(old(state), state, w)
      ensures Extends(old(run), run)
      ensures old(clock) <= clock && (raises ==> Faulty(env, old(clock), clock))
    {
      ghost var state0, runOld := state, run;
      Interfere(w);
      StaysTrans(After(run0), state0, state);
      OneAtATimeTrans(After(run0), state0, state, w);
      ExtendsTrans(run0, runOld, run);
      raises := env.fails(clock);
    }

    /** The next step of a call, unless it raises. before is the state it is taken in. */
    method Attempt(a: Action, ghost run0: Run, ghost content: Bytes, ghost check: State -> bool)
      returns (done: bool, ghost before: State)
      requires Since(run0, a.w) && Permitted(rule, After(run0), a.w, content, check)
      requires Enabled(state, a) && Enabled(state, Abort(a.w)) && !a.Start? && !a.Crash? && !a.Check?
      requires a.Finish? ==> Temporary(state, a.w) == content
      modifies this
      ensures Since(run0, a.w) && Undisturbed(old(state), before, a.w)
      ensures Extends(old(run), run)
      ensures done ==> Enabled(before, a) && state == Apply(before, a) && run.Then? && before == After(run.front)
      ensures !done ==> a.w in state.writers && state.writers[a.w] == old(state).writers[a.w].(phase := Cleanup(Failed))
      ensures old(clock) <= clock && (!done ==> Faulty(env, old(clock), clock))
    {
      var raises := Wait(a.w, run0);
      before := state;
      done := !raises;
      OwnNext(if done then a else Abort(a.w), run0, content, check);
    }

    /** The writer callback: chunk after chunk into the temporary file. */
    method Stream(w: Writing, chunks: seq<Bytes>, ghost run0: Run, ghost check: State -> bool) returns (done: bool)
      requires Since(run0, w) && Permitted(rule, After(run0), w, Joined(chunks, |chunks|), check)
      requires At(state, w, Streaming) && Temporary(state, w) == []
      modifies this
      ensures Since(run0, w)
      ensures done ==> At(state, w, Streaming) && Temporary(state, w) == Joined(chunks, |chunks|)
      ensures !done ==> At(state, w, Cleanup(Failed))
      ensures old(clock) <= clock && (!done ==> Faulty(env, old(clock), clock))
      ensures w in state.writers && state.writers[w].target == old(state).writers[w].target
    {
      ghost var target := state.writers[w].target;
      ghost var before;
      for n := 0 to |chunks|
        invariant Since(run0, w) && At(state, w, Streaming) && Temporary(state, w) == Joined(chunks, n)
        invariant state.writers[w].target == target && old(clock) <= clock
      {
        done, before := Attempt(Write(w, chunks[n]), run0, Joined(chunks, |chunks|), check);
        if !done { return; }
      }
      done := true;
    }

    /** One round of the loop of _files_equal: the next chunk of both files. */
    method CompareChunk(w: Writing, ghost run0: Run, ghost content: Bytes, ghost check: State -> bool)
      returns (done: bool)
      requires Since(run0, w) && Permitted(rule, After(run0), w, content, check)
      requires w in state.writers && state.writers[w].phase.Comparing?
      modifies this
      ensures Since(run0, w) && w in state.writers && Extends(old(run), run)
      ensures state.writers[w] == old(state).writers[w].(phase := state.writers[w].phase)
      ensures !done ==> state.writers[w].phase == Cleanup(Failed)
      ensures old(clock) <= clock && (!done ==> Faulty(env, old(clock), clock))
      ensures done ==> state.writers[w].phase in {Cleanup(Reused), Cleanup(Collision)} ||
                       (state.writers[w].phase.Comparing? &&
                        old(state).writers[w].phase.offset < state.writers[w].phase.offset <= |state.writers[w].output|)
    {
      ghost var before;
      done, before := Attempt(Compare(w), run0, content, check);
      assert WriterOk(state, w);
      if done {
        Reachable(run.front);
        assert WriterOk(before, w);
        ghost var me := before.writers[w];
        CompareAtDecides(Temporary(before, w), Published(before, me.target), me.phase.offset);
      }
    }

    /** _files_equal on the temporary file and the one found at the target. */
    method FilesEqual(w: Writing, ghost run0: Run, ghost content: Bytes, ghost check: State -> bool)
      returns (result: Result)
      requires Since(run0, w) && Permitted(rule, After(run0), w, content, check) && At(state, w, Sizing)
      modifies this
      ensures Since(run0, w) && At(state, w, Cleanup(result)) && result != Created && Extends(old(run), run)
      ensures old(clock) <= clock && (result == Failed ==> Faulty(env, old(clock), clock))
      ensures state.writers[w] == old(state).writers[w].(phase := Cleanup(result))
      ensures result != Failed ==>
                var me := state.writers[w];
                me.target in state.files && (result == Reused <==> Published(state, me.target) == me.output)
    {
      ghost var me := state.writers[w];
      var done;
      ghost var before;
      done, before := Attempt(Size(w), run0, content, check);
      while done && state.writers[w].phase.Comparing?
        invariant Since(run0, w) && w in state.writers && Extends(old(run), run)
        invariant state.writers[w] == me.(phase := state.writers[w].phase)
        invariant !done ==> state.writers[w].phase == Cleanup(Failed)
        invariant old(clock) <= clock && (!done ==> Faulty(env, old(clock), clock))
        invariant done ==> state.writers[w].phase in {Cleanup(Reused), Cleanup(Collision)} ||
                           (state.writers[w].phase.Comparing? && state.writers[w].phase.offset <= |me.output|)
        decreases done, if state.writers[w].phase.Comparing? then |me.output| + 1 - state.writers[w].phase.offset else 0
      {
        ghost var runOld := run;
        done := CompareChunk(w, run0, content, check);
        ExtendsTrans(old(run), runOld, run);
      }
      result := state.writers[w].phase.result;
      assert WriterOk(state, w);
    }

    /** Hash the finished temporary file, then run the pre-publish check. */
    method Seal(w: Writing, check: State -> bool, ghost run0: Run, ghost content: Bytes) returns (done: bool)
      requires Since(run0, w) && Permitted(rule, After(run0), w, content, check)
      requires At(state, w, Streaming) && Temporary(state, w) == content
      modifies this
      ensures Since(run0, w) && At(state, w, if done then Linking else Cleanup(Failed))
      ensures state.writers[w].target == old(state).writers[w].target
      ensures done ==> state.writers[w].output == content && Passed(run0, run, w, check)
      ensures old(clock) <= clock && (!done ==> Faulty(env, old(clock), clock) || Refused(run0, run, w, check))
    {
      ghost var before;
      done, before := Attempt(Finish(w), run0, content, check);
      if !done { return; }
      var raises := Wait(w, run0);
      done := !raises && check(state);
      ghost var checked := run;
      OwnNext(if done then Check(w) else Abort(w), run0, content, check);
      assert Extends(run0, checked) && Extends(run, run);
    }

    /** The no-clobber link, and the comparison when another call was first. */
    method LinkOrCompare(w: Writing, ghost run0: Run, ghost content: Bytes, ghost check: State -> bool)
      returns (result: Result)
      requires Since(run0, w) && Permitted(rule, After(run0), w, content, check) && At(state, w, Linking)
      modifies this
      ensures Since(run0, w) && At(state, w, Cleanup(result)) && Extends(old(run), run)
      ensures state.writers[w].target == old(state).writers[w].target
      ensures result != Failed ==> state.writers[w].output == old(state).writers[w].output
      ensures old(clock) <= clock && (result == Failed ==> Faulty(env, old(clock), clock))
    {
      var done;
      ghost var before;
      done, before := Attempt(Link(w), run0, content, check);
      if !done { return Failed; }
      if state.writers[w].phase == Cleanup(Created) { return Created; }
      ghost var linked := run;
      result := FilesEqual(w, run0, content, check);
      ExtendsTrans(old(run), linked, run);
    }

    /** write_immutable_stream, with the finally block that removes the temporary name. Its steps keep to the rule of
        the file system whatever the other processes do. */
    method WriteImmutable(w: Writing, target: Path, chunks: seq<Bytes>, check: State -> bool) returns (result: Result)
      requires Valid() && w !in state.writers && rule(state, Start(w, target))
      requires Permitted(rule, state, w, Joined(chunks, |chunks|), check)
      modifies this
      ensures Valid() && Extends(old(run), run) && Stays(old(state), state) && OneAtATime(old(state), state, w)
      ensures At(state, w, Ended(result)) && w !in state.temps && state.writers[w].target == target
      ensures result in {Created, Reused} ==> target in state.files && Published(state, target) == Flat(chunks)
      ensures result == Collision ==> target in state.files && Published(state, target) != Flat(chunks)
      ensures result == Created <==> target in state.files && state.files[target] == w
      ensures result != Failed ==> state.writers[w].output == Flat(chunks)
      ensures result != Failed ==> Passed(old(run), run, w, check)
      ensures old(clock) <= clock
      ensures result == Failed ==> Faulty(env, old(clock), clock) || Refused(old(run), run, w, check)
    {
      ghost var run0, content := run, Joined(chunks, |chunks|);
      AllJoined(chunks);
      Step(Start(w, target));
      result := Failed;
      var done := Stream(w, chunks, run0, check);
      if done { done := Seal(w, check, run0, content); }
      ghost var sealed := run;
      if done { result := LinkOrCompare(w, run0, content, check); }
      ghost var linked := run;
      Tidy(w, result, run0, content, check);
      ExtendsTrans(sealed, linked, run);
      DecidedStays(run0, sealed, run, w, check);
      EndsTruthfully(run, run, w, result);
    }

    /** The finally block. */
    method Tidy(w: Writing, result: Result, ghost run0: Run, ghost content: Bytes, ghost check: State -> bool)
      requires Since(run0, w) && Permitted(rule, After(run0), w, content, check) && At(state, w, Cleanup(result))
      modifies this
      ensures Since(run0, w) && w in state.writers && state.writers[w] == old(state).writers[w].(phase := Ended(result))
      ensures old(clock) <= clock && Extends(old(run), run)
    {
      var raises := Wait(w, run0);
      OwnNext(Unlink(w), run0, content, check);
    }
  }
}
