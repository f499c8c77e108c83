/** Immutable publication: any number of writers, interleaved step by step, over one file system. */
module Artifacts {
  newtype Byte = x: int | 0 <= x < 256
  type Bytes = seq<Byte>
  type Path = nat

  /** One call of write_immutable_stream: which process makes it, and its number within that process. */
  datatype Writing = Call(process: nat, number: nat)

  const CHUNK: nat := 1024 * 1024

  /** How a call ends: it created the file, found equal bytes there, raised the collision error, or raised
      for another reason. */
  datatype Result = Created | Reused | Collision | Failed

  /** Where a call is: streaming into its temporary file, hashed, past the pre-publish check, past a failed
      link, comparing from an offset, in its finally block, over, or killed. */
  datatype Phase =
    | Streaming | Hashed | Linking | Sizing | Comparing(offset: nat)
    | Cleanup(result: Result) | Ended(result: Result) | Crashed

  /** output is the finished temporary file, set once Streaming is over; checked, whether the pre-publish
      check has passed. */
  datatype Writer = Writer(target: Path, phase: Phase, output: Bytes, checked: bool)

  /** Each call makes one inode, named after the call. Its temporary name is in temps while it exists; a
      published path is a second link to the same inode. */
  datatype State = State(
    inodes: map<Writing, Bytes>,
    temps: set<Writing>,
    files: map<Path, Writing>,
    writers: map<Writing, Writer>)

  datatype Action =
    | Start(w: Writing, target: Path)
    | Write(w: Writing, chunk: Bytes)
    | Finish(w: Writing)
    | Check(w: Writing)
    | Link(w: Writing)
    | Size(w: Writing)
    | Compare(w: Writing)
    | Abort(w: Writing)
    | Unlink(w: Writing)
    | Crash(w: Writing)

  function Chunk(content: Bytes, offset: nat): Bytes
    requires offset <= |content|
  {
    if |content| - offset <= CHUNK then content[offset..] else content[offset..offset + CHUNK]
  }

  predicate Running(phase: Phase) {
    !phase.Ended? && !phase.Crashed?
  }

  function Temporary(s: State, w: Writing): Bytes {
    if w in s.inodes then s.inodes[w] else []
  }

  function Published(s: State, p: Path): Bytes {
    if p in s.files then Temporary(s, s.files[p]) else []
  }

  predicate At(s: State, w: Writing, phase: Phase) {
    w in s.writers && s.writers[w].phase == phase
  }

  /** When a step may happen. Abort stands for an exception: from the writer callback, the check, or the
      operating system. Crash stops a call for good at any point. */
  predicate Enabled(s: State, a: Action) {
    match a
    case Start(w, _) => w !in s.writers
    case Write(w, _) => At(s, w, Streaming)
    case Finish(w) => At(s, w, Streaming)
    case Check(w) => At(s, w, Hashed)
    case Link(w) => At(s, w, Linking)
    case Size(w) => At(s, w, Sizing)
    case Compare(w) => w in s.writers && s.writers[w].phase.Comparing?
    case Abort(w) => w in s.writers && Running(s.writers[w].phase) && !s.writers[w].phase.Cleanup?
    case Unlink(w) => w in s.writers && s.writers[w].phase.Cleanup?
    case Crash(w) => w in s.writers && Running(s.writers[w].phase)
  }

  function Move(s: State, w: Writing, phase: Phase): State
    requires w in s.writers
  {
    s.(writers := s.writers[w := s.writers[w].(phase := phase)])
  }

  /** One round of the loop of _files_equal, reading one chunk of each file. */
  function CompareAt(left: Bytes, right: Bytes, offset: nat): Phase {
    if offset > |left| || offset > |right| || Chunk(left, offset) != Chunk(right, offset) then Cleanup(Collision)
    else if Chunk(left, offset) == [] then Cleanup(Reused)
    else Comparing(offset + |Chunk(left, offset)|)
  }

  function Apply(s: State, a: Action): State
    requires Enabled(s, a)
  {
    match a
    case Start(w, target) =>
      s.(inodes := s.inodes[w := []], temps := s.temps + {w},
         writers := s.writers[w := Writer(target, Streaming, [], false)])
    case Write(w, chunk) =>
      s.(inodes := s.inodes[w := Temporary(s, w) + chunk])
    case Finish(w) =>
      s.(writers := s.writers[w := s.writers[w].(phase := Hashed, output := Temporary(s, w))])
    case Check(w) =>
      s.(writers := s.writers[w := s.writers[w].(phase := Linking, checked := true)])
    case Link(w) =>
      var target := s.writers[w].target;
      if target in s.files then Move(s, w, Sizing)
      else Move(s.(files := s.files[target := w]), w, Cleanup(Created))
    case Size(w) =>
      var equal := |Temporary(s, w)| == |Published(s, s.writers[w].target)|;
      Move(s, w, if equal then Comparing(0) else Cleanup(Collision))
    case Compare(w) =>
      Move(s, w, CompareAt(Temporary(s, w), Published(s, s.writers[w].target), s.writers[w].phase.offset))
    case Abort(w) => Move(s, w, Cleanup(Failed))
    case Unlink(w) => Move(s.(temps := s.temps - {w}), w, Ended(s.writers[w].phase.result))
    case Crash(w) => Move(s, w, Crashed)
  }

  /** A step that is not possible changes nothing, so every list of actions is a run. */
  function Next(s: State, a: Action): State {
    if Enabled(s, a) then Apply(s, a) else s
  }

  /** A run from the empty file system: the steps taken, in order. */
  datatype Run = Begin | Then(front: Run, last: Action)

  function After(r: Run): State {
    match r
    case Begin => State(map[], {}, map[], map[])
    case Then(front, last) => Next(After(front), last)
  }

  ghost predicate Extends(r: Run, more: Run) {
    r == more || (more.Then? && Extends(r, more.front))
  }

  // What every step keeps.

  /** The published bytes at p stay. */
  predicate StaysAt(s: State, t: State, p: Path) {
    p in s.files ==> p in t.files && t.files[p] == s.files[p] && Published(t, p) == Published(s, p)
  }

  ghost predicate Stays(s: State, t: State) {
    forall p :: StaysAt(s, t, p)
  }

  predicate SamePrefix(left: Bytes, right: Bytes, k: nat) {
    |left| == |right| && k <= |left| && left[..k] == right[..k]
  }

  /** What a result claims about the file system. */
  predicate Truthful(s: State, w: Writing, me: Writer, r: Result) {
    match r
    case Created => me.target in s.files && s.files[me.target] == w && Published(s, me.target) == me.output
    case Reused => me.target in s.files && s.files[me.target] != w && Published(s, me.target) == me.output
    case Collision => me.target in s.files && s.files[me.target] != w && Published(s, me.target) != me.output
    case Failed => me.target in s.files ==> s.files[me.target] != w
  }

  /** Another call has already published the target. */
  predicate Beaten(s: State, w: Writing, me: Writer) {
    me.checked && me.target in s.files && s.files[me.target] != w
  }

  predicate NotLinked(s: State, w: Writing, me: Writer) {
    me.target in s.files ==> s.files[me.target] != w
  }

  predicate PhaseOk(s: State, w: Writing, me: Writer) {
    match me.phase
    case Streaming => !me.checked && NotLinked(s, w, me)
    case Hashed => !me.checked && NotLinked(s, w, me) && Temporary(s, w) == me.output
    case Linking => me.checked && NotLinked(s, w, me) && Temporary(s, w) == me.output
    case Sizing => Beaten(s, w, me) && Temporary(s, w) == me.output
    case Comparing(k) =>
      Beaten(s, w, me) && Temporary(s, w) == me.output && SamePrefix(me.output, Published(s, me.target), k)
    case Cleanup(r) => (r != Failed ==> me.checked) && Truthful(s, w, me, r)
    case Ended(r) => (r != Failed ==> me.checked) && Truthful(s, w, me, r)
    case Crashed => true
  }

  predicate WriterOk(s: State, w: Writing) {
    if w in s.writers then
      w in s.inodes && (w in s.temps <==> !s.writers[w].phase.Ended?) && PhaseOk(s, w, s.writers[w])
    else
      w !in s.inodes && w !in s.temps
  }

  /** A file is the finished, checked output of a call that targeted it. */
  predicate FileOk(s: State, p: Path) {
    p in s.files ==> Owns(s, s.files[p], p)
  }

  predicate Owns(s: State, w: Writing, p: Path) {
    && w in s.writers && s.writers[w].target == p && s.writers[w].checked
    && s.writers[w].output == Temporary(s, w)
    && s.writers[w].phase in {Cleanup(Created), Ended(Created), Crashed}
  }

  ghost predicate Inv(s: State) {
    (forall w :: WriterOk(s, w)) && forall p :: FileOk(s, p)
  }

  /** One chunk comparison decides rightly: equal so far, different, or the same to the end. */
  lemma {:induction false} CompareAtDecides(left: Bytes, right: Bytes, k: nat)
    requires SamePrefix(left, right, k)
    ensures CompareAt(left, right, k) == Cleanup(Reused) ==> left == right
    ensures CompareAt(left, right, k) == Cleanup(Collision) ==> left != right
    ensures CompareAt(left, right, k).Comparing? ==>
              SamePrefix(left, right, CompareAt(left, right, k).offset) && k < CompareAt(left, right, k).offset
  {
    var a, b := Chunk(left, k), Chunk(right, k);
    if a == b && a != [] {
      var m := k + |a|;
      assert left[..m] == left[..k] + a;
      assert right[..m] == right[..k] + b;
    }
    if a == b == [] {
      assert left[..k] == left && right[..k] == right;
    }
  }

  lemma {:induction false} FileStays(s: State, a: Action, p: Path)
    requires FileOk(s, p)
    ensures StaysAt(s, Next(s, a), p)
  {
  }

  /** What another call does leaves this call's facts alone. */
  lemma {:induction false} OtherStep(s: State, a: Action, w: Writing)
    requires WriterOk(s, w) && a.w != w
    requires w in s.writers ==> FileOk(s, s.writers[w].target)
    ensures WriterOk(Next(s, a), w)
    ensures w in s.writers ==> w in Next(s, a).writers && Next(s, a).writers[w] == s.writers[w]
  {
    if w in s.writers {
      FileStays(s, a, s.writers[w].target);
    }
  }

  lemma {:induction false} OwnStep(s: State, a: Action)
    requires WriterOk(s, a.w)
    requires forall p :: FileOk(s, p)
    ensures WriterOk(Next(s, a), a.w)
  {
    var w := a.w;
    if Enabled(s, a) {
      match a {
        case Start(_, target) => assert FileOk(s, target);
        case Compare(_) =>
          CompareAtDecides(Temporary(s, w), Published(s, s.writers[w].target), s.writers[w].phase.offset);
        case _ =>
          assert FileOk(s, s.writers[w].target);
      }
    }
  }

  /** Every step keeps the invariant and every published byte. */
  lemma {:induction false} StepKeeps(s: State, a: Action)
    requires Inv(s)
    ensures Inv(Next(s, a)) && Stays(s, Next(s, a))
  {
    assert WriterOk(s, a.w);
    forall p ensures FileOk(Next(s, a), p) && StaysAt(s, Next(s, a), p) {
      assert FileOk(s, p);
      FileStays(s, a, p);
    }
    forall w ensures WriterOk(Next(s, a), w) {
      assert WriterOk(s, w);
      if w == a.w {
        OwnStep(s, a);
      } else {
        assert w in s.writers ==> FileOk(s, s.writers[w].target);
        OtherStep(s, a, w);
      }
    }
  }

  lemma {:induction false} StaysTrans(s: State, t: State, u: State)
    requires Stays(s, t) && Stays(t, u)
    ensures Stays(s, u)
  {
    forall p ensures StaysAt(s, u, p) {
      assert StaysAt(s, t, p) && StaysAt(t, u, p);
    }
  }

  // The theorems, over every run of any number of calls.

  lemma {:induction false} Reachable(r: Run)
    ensures Inv(After(r))
  {
    match r
    case Begin =>
    case Then(front, last) =>
      Reachable(front);
      StepKeeps(After(front), last);
  }

  /** Once a path exists, its bytes never change, whatever the calls do afterwards. */
  lemma {:induction false} Immutable(r: Run, more: Run)
    requires Extends(r, more)
    ensures Stays(After(r), After(more))
  {
    if r != more {
      Immutable(r, more.front);
      Reachable(more.front);
      StepKeeps(After(more.front), more.last);
      StaysTrans(After(r), After(more.front), After(more));
    }
  }

  /** Published bytes are the complete output of one call to that path, whose pre-publish check had passed. */
  lemma {:induction false} WholeAndChecked(r: Run, p: Path)
    requires p in After(r).files
    ensures var s := After(r); var w := s.files[p];
            && w in s.writers && s.writers[w].target == p && s.writers[w].checked
            && Published(s, p) == s.writers[w].output && !s.writers[w].phase.Streaming?
  {
    Reachable(r);
    assert FileOk(After(r), p);
  }

  predicate Reports(s: State, w: Writing, r: Result) {
    w in s.writers && s.writers[w].phase in {Cleanup(r), Ended(r)}
  }

  /** At most one call per path reports that it created the file. */
  lemma {:induction false} OneCreator(r: Run, v: Writing, w: Writing)
    requires Reports(After(r), v, Created) && Reports(After(r), w, Created)
    requires After(r).writers[v].target == After(r).writers[w].target
    ensures v == w
  {
    Reachable(r);
    assert WriterOk(After(r), v) && WriterOk(After(r), w);
  }

  /** How a call ends: it holds exactly its bytes iff it returns normally, collides iff another call's
      different bytes are there, and has no temporary file left. Nothing that happens later changes this. */
  lemma {:induction false} EndsTruthfully(r: Run, more: Run, w: Writing, result: Result)
    requires Extends(r, more) && At(After(r), w, Ended(result))
    ensures var s := After(more); At(s, w, Ended(result)) && w !in s.temps
    ensures var s := After(more); s.writers[w] == After(r).writers[w]
    ensures var s := After(more); var me := s.writers[w];
            && (result != Failed ==> me.checked && me.target in s.files)
            && (result in {Created, Reused} ==> Published(s, me.target) == me.output)
            && (result == Collision ==> Published(s, me.target) != me.output)
            && (result == Created <==> me.target in s.files && s.files[me.target] == w)
  {
    Reachable(more);
    EndedStays(r, more, w);
    assert WriterOk(After(more), w);
  }

  lemma {:induction false} EndedStays(r: Run, more: Run, w: Writing)
    requires Extends(r, more) && w in After(r).writers && After(r).writers[w].phase.Ended?
    ensures w in After(more).writers && After(more).writers[w] == After(r).writers[w]
  {
    if r != more {
      EndedStays(r, more.front, w);
    }
  }

  /** A temporary file that remains belongs to a call that is still going or was killed. */
  lemma {:induction false} TemporariesHaveOwners(r: Run, w: Writing)
    ensures w in After(r).temps <==> w in After(r).writers && !After(r).writers[w].phase.Ended?
  {
    Reachable(r);
    assert WriterOk(After(r), w);
  }

  /** Nothing keeps a call from failing: while it runs it can be killed, which leaves its temporary file behind, and
      before its finally block it can raise, which leaves neither that file nor, unless another call made it, the
      published one. */
  lemma {:induction false} MayFailAnywhere(r: Run, w: Writing)
    requires w in After(r).writers && !After(r).writers[w].phase.Ended? && !After(r).writers[w].phase.Crashed?
    ensures var s := After(Then(r, Crash(w)));
            w in s.writers && s.writers[w].phase == Crashed && w in s.temps && s.files == After(r).files
    ensures !After(r).writers[w].phase.Cleanup? ==>
              var s := After(Then(Then(r, Abort(w)), Unlink(w)));
              && w in s.writers && s.writers[w].phase == Ended(Failed) && w !in s.temps && s.files == After(r).files
  {
    TemporariesHaveOwners(r, w);
  }

  /** A call that no one disturbs publishes the bytes it was given, from its start to its end in six steps. */
  lemma {:induction false} AloneItPublishes(r: Run, w: Writing, target: Path, chunk: Bytes)
    requires w !in After(r).writers && target !in After(r).files
    ensures var s := After(Then(Then(Then(Streamed(r, w, target, chunk), Check(w)), Link(w)), Unlink(w)));
            && w in s.writers && s.writers[w].phase == Ended(Created) && w !in s.temps
            && target in s.files && Published(s, target) == chunk
  {
    var q := Streamed(r, w, target, chunk);
    StreamedIsHashed(r, w, target, chunk);
    var q1 := Then(q, Check(w));
    assert At(After(q1), w, Linking) && After(q1).files == After(r).files;
    var q2 := Then(q1, Link(w));
    assert After(q2).files == After(r).files[target := w] && At(After(q2), w, Cleanup(Created));
  }

  function Streamed(r: Run, w: Writing, target: Path, chunk: Bytes): Run {
    Then(Then(Then(r, Start(w, target)), Write(w, chunk)), Finish(w))
  }

  lemma {:induction false} StreamedIsHashed(r: Run, w: Writing, target: Path, chunk: Bytes)
    requires w !in After(r).writers
    ensures var s := After(Streamed(r, w, target, chunk));
            At(s, w, Hashed) && s.writers[w].target == target && Temporary(s, w) == chunk && s.files == After(r).files
  {
    var r1 := Then(r, Start(w, target));
    assert At(After(r1), w, Streaming) && Temporary(After(r1), w) == [] && After(r1).files == After(r).files;
    assert After(r1).writers[w].target == target && [] + chunk == chunk;
    var r2 := Then(r1, Write(w, chunk));
    assert At(After(r2), w, Streaming) && Temporary(After(r2), w) == chunk && After(r2).files == After(r).files;
  }
}
