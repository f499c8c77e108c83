/** The three-artifact audit: rejection ledger, then report, then lineage, each published immutably. */
module SnapshotAudit {
  import opened Artifacts
  import opened Publishing

  type Digest = nat

  const LEDGER: Path := 0
  const REPORT: Path := 1
  const LINEAGE: Path := 2

  /** One audit of unchanged inputs: the encoded rejections it writes, and how report and lineage are encoded
      from the digests and the row count they record. */
  datatype Audit = Audit(
    rejections: seq<Bytes>,
    hash: Bytes -> Digest,
    report: (Digest, nat) -> Bytes,
    lineage: (Digest, Digest, nat) -> Bytes)

  /** The bytes each artifact has in an uninterrupted run. */
  function Content(job: Audit, p: Path): Bytes {
    var ledger := Joined(job.rejections, |job.rejections|);
    var report := job.report(job.hash(ledger), |job.rejections|);
    if p == LEDGER then ledger
    else if p == REPORT then report
    else job.lineage(job.hash(ledger), job.hash(report), |job.rejections|)
  }

  predicate Returned(s: State, w: Writing) {
    At(s, w, Ended(Created)) || At(s, w, Ended(Reused))
  }

  function Output(s: State, w: Writing): Bytes {
    if w in s.writers then s.writers[w].output else []
  }

  /** What a process writes at each of its three calls, from the outputs of the calls before. */
  function Intended(job: Audit, s: State, w: Writing): Bytes {
    var ledger, report := Output(s, Call(w.process, LEDGER)), Output(s, Call(w.process, REPORT));
    if w.number == LEDGER then Joined(job.rejections, |job.rejections|)
    else if w.number == REPORT then job.report(job.hash(ledger), |job.rejections|)
    else job.lineage(job.hash(ledger), job.hash(report), |job.rejections|)
  }

  /** _require_file_identity: the file at p has this digest and this size. */
  predicate Identified(s: State, p: Path, digest: Digest, size: nat, hash: Bytes -> Digest) {
    p in s.files && hash(Published(s, p)) == digest && |Published(s, p)| == size
  }

  predicate Unchanged(job: Audit, s: State, p: Path, data: Bytes) {
    p in s.files && job.hash(Published(s, p)) == job.hash(data) && |Published(s, p)| == |data|
  }

  /** How audit processes behave: call k writes artifact k, only after the calls before it returned, and
      publishes only past its boundary check. They may raise or be killed anywhere. */
  predicate Behaves(job: Audit, s: State, a: Action) {
    match a
    case Start(w, target) =>
      target == w.number <= LINEAGE && forall k :: 0 <= k < w.number ==> Returned(s, Call(w.process, k))
    case Finish(w) => Temporary(s, w) == Intended(job, s, w)
    case Check(w) => forall k :: 0 <= k < w.number ==> Unchanged(job, s, k, Output(s, Call(w.process, k)))
    case _ => true
  }

  function RuleOf(job: Audit): Rule {
    (s, a) => Behaves(job, s, a)
  }

  /** A run in which only audit processes act: any number of first runs and reruns, crashed or not. */
  ghost predicate Audited(job: Audit, r: Run) {
    Follows(RuleOf(job), r)
  }

  predicate StageOk(job: Audit, s: State, w: Writing) {
    w in s.writers ==>
      && s.writers[w].target == w.number <= LINEAGE
      && (s.writers[w].checked || s.writers[w].phase.Hashed? ==> s.writers[w].output == Content(job, w.number))
      && (w.number > 0 ==> Returned(s, Call(w.process, LEDGER)))
      && (w.number > 1 ==> Returned(s, Call(w.process, REPORT)))
  }

  ghost predicate Staged(job: Audit, s: State) {
    Inv(s) && forall w :: StageOk(job, s, w)
  }

  lemma {:induction false} ReturnedStays(s: State, a: Action, w: Writing)
    requires Returned(s, w)
    ensures Returned(Next(s, a), w)
  {
  }

  lemma {:induction false} StageStep(job: Audit, s: State, a: Action, w: Writing)
    requires Staged(job, s) && (Enabled(s, a) ==> Behaves(job, s, a))
    ensures StageOk(job, Next(s, a), w)
  {
    var ledger, report := Call(w.process, LEDGER), Call(w.process, REPORT);
    assert StageOk(job, s, w) && StageOk(job, s, ledger) && StageOk(job, s, report);
    assert WriterOk(s, w) && WriterOk(s, ledger) && WriterOk(s, report);
    if Returned(s, ledger) { ReturnedStays(s, a, ledger); }
    if Returned(s, report) { ReturnedStays(s, a, report); }
  }

  lemma {:induction false} StagedAlways(job: Audit, r: Run)
    requires Audited(job, r)
    ensures Staged(job, After(r))
  {
    Reachable(r);
    if r.Then? {
      StagedAlways(job, r.front);
      forall w ensures StageOk(job, After(r), w) {
        StageStep(job, After(r.front), r.last, w);
      }
    }
  }

  /** Whatever crashes and reruns happened, every artifact that exists has the bytes of an uninterrupted run. */
  lemma {:induction false} ArtifactsAgree(job: Audit, r: Run, p: Path)
    requires Audited(job, r) && p in After(r).files
    ensures p <= LINEAGE && Published(After(r), p) == Content(job, p)
  {
    var s := After(r);
    StagedAlways(job, r);
    assert FileOk(s, p) && StageOk(job, s, s.files[p]);
  }

  /** The lineage file is last: once it exists, ledger and report exist with the digests recorded in it, and
      the report records the ledger's. */
  lemma {:induction false} LineageIsComplete(job: Audit, r: Run)
    requires Audited(job, r) && LINEAGE in After(r).files
    ensures var s := After(r);
            && LEDGER in s.files && REPORT in s.files
            && Published(s, REPORT) == job.report(job.hash(Published(s, LEDGER)), |job.rejections|)
            && Published(s, LINEAGE)
               == job.lineage(job.hash(Published(s, LEDGER)), job.hash(Published(s, REPORT)), |job.rejections|)
  {
    var s := After(r);
    StagedAlways(job, r);
    var w := s.files[LINEAGE];
    assert FileOk(s, LINEAGE) && StageOk(job, s, w);
    var ledger, report := Call(w.process, LEDGER), Call(w.process, REPORT);
    assert StageOk(job, s, ledger) && StageOk(job, s, report) && WriterOk(s, ledger) && WriterOk(s, report);
    ArtifactsAgree(job, r, LEDGER);
    ArtifactsAgree(job, r, REPORT);
    ArtifactsAgree(job, r, LINEAGE);
  }

  /** No rerun ever collides. */
  lemma {:induction false} NoCollision(job: Audit, r: Run, w: Writing)
    requires Audited(job, r)
    ensures !Reports(After(r), w, Collision)
  {
    var s := After(r);
    StagedAlways(job, r);
    assert WriterOk(s, w) && StageOk(job, s, w);
    if Reports(s, w, Collision) {
      ArtifactsAgree(job, r, s.writers[w].target);
    }
  }

  /** A process whose last call returned leaves the same three files as any other such process, in any run. */
  lemma {:induction false} RerunsConverge(job: Audit, r: Run, p: nat)
    requires Audited(job, r) && Returned(After(r), Call(p, LINEAGE))
    ensures After(r).files.Keys == {LEDGER, REPORT, LINEAGE}
    ensures forall k :: 0 <= k <= LINEAGE ==> Published(After(r), k) == Content(job, k)
  {
    var s := After(r);
    StagedAlways(job, r);
    assert WriterOk(s, Call(p, LINEAGE)) && StageOk(job, s, Call(p, LINEAGE));
    LineageIsComplete(job, r);
    forall k | k in s.files ensures k <= LINEAGE && Published(s, k) == Content(job, k) {
      ArtifactsAgree(job, r, k);
    }
  }

  /** The counters the ledger callback updates as it writes. */
  method CountLedger(rejections: seq<Bytes>) returns (rows: nat, bytes: nat)
    ensures rows == |rejections| && bytes == |Joined(rejections, |rejections|)|
  {
    rows, bytes := 0, 0;
    for n := 0 to |rejections|
      invariant rows == n && bytes == |Joined(rejections, n)|
    {
      rows, bytes := rows + 1, bytes + |rejections[n]|;
    }
  }

  /** The call k of a process has returned with the bytes of an uninterrupted run, and they are published. */
  predicate Kept(job: Audit, s: State, w: Writing) {
    && Returned(s, w) && Output(s, w) == Content(job, w.number)
    && w.number in s.files && Published(s, w.number) == Content(job, w.number)
  }

  lemma {:induction false} KeptStays(job: Audit, s: State, t: State, v: Writing, w: Writing)
    requires Kept(job, s, v) && Stays(s, t) && OneAtATime(s, t, w) && v.process == w.process && v != w
    ensures Kept(job, t, v)
  {
    assert SameCall(s, t, w, v) && StaysAt(s, t, v.number);
  }

  /** All calls of the process before this one are kept. */
  ghost predicate KeptBefore(job: Audit, s: State, w: Writing) {
    forall k: nat :: k < w.number ==> Kept(job, s, Call(w.process, k))
  }

  /** A call that writes its artifact after the calls before it, and checks what they published, behaves. */
  lemma {:induction false} StepsBehave(job: Audit, s: State, w: Writing, check: State -> bool)
    requires KeptBefore(job, s, w) && w.number <= LINEAGE
    requires forall t :: check(t) ==> forall k: nat :: k < w.number ==> Unchanged(job, t, k, Content(job, k))
    ensures Permitted(RuleOf(job), s, w, Content(job, w.number), check)
  {
    forall t, a | OwnAction(s, t, a, w, Content(job, w.number), check) ensures RuleOf(job)(t, a) {
      forall k: nat | k < w.number ensures Kept(job, t, Call(w.process, k)) {
        KeptStays(job, s, t, Call(w.process, k), w);
      }
      if a.Finish? { ContentIntended(job, t, w); }
    }
  }

  lemma {:induction false} ContentIntended(job: Audit, s: State, w: Writing)
    requires KeptBefore(job, s, w) && w.number <= LINEAGE
    ensures Intended(job, s, w) == Content(job, w.number)
  {
    if w.number > 0 { assert Kept(job, s, Call(w.process, LEDGER)); }
    if w.number > 1 { assert Kept(job, s, Call(w.process, REPORT)); }
  }

  /** What was published before stays as it is, so the check of a call is not refused in any state of the run. */
  lemma {:induction false} ChecksKeepPassing(job: Audit, from: Run, to: Run, w: Writing, check: State -> bool)
    requires KeptBefore(job, After(from), w)
    requires forall t :: (forall k: nat :: k < w.number ==> Unchanged(job, t, k, Content(job, k))) ==> check(t)
    ensures !Refused(from, to, w, check)
  {
    forall r | Extends(from, r) ensures check(After(r)) {
      Immutable(from, r);
      forall k: nat | k < w.number ensures Unchanged(job, After(r), k, Content(job, k)) {
        assert Kept(job, After(from), Call(w.process, k)) && StaysAt(After(from), After(r), k);
      }
    }
  }

  /** check passes exactly when everything published before the call w is unchanged. */
  ghost predicate ChecksBefore(job: Audit, w: Writing, check: State -> bool) {
    forall t :: check(t) <==> forall k: nat :: k < w.number ==> Unchanged(job, t, k, Content(job, k))
  }

  /** One artifact of the audit, among other audit processes: published, unless something raises. */
  method PublishArtifact(fs: FileSystem, w: Writing, job: Audit, chunks: seq<Bytes>, check: State -> bool)
    returns (done: bool)
    requires fs.Valid() && fs.rule == RuleOf(job) && w !in fs.state.writers
    requires w.number <= LINEAGE && Joined(chunks, |chunks|) == Content(job, w.number)
    requires KeptBefore(job, fs.state, w) && ChecksBefore(job, w, check)
    modifies fs
    ensures fs.Valid() && Extends(old(fs.run), fs.run) && Stays(old(fs.state), fs.state)
    ensures OneAtATime(old(fs.state), fs.state, w)
    ensures done ==> Kept(job, fs.state, w)
    ensures old(fs.clock) <= fs.clock && (!done ==> Faulty(fs.env, old(fs.clock), fs.clock))
  {
    StepsBehave(job, fs.state, w, check);
    AllJoined(chunks);
    ghost var run0 := fs.run;
    forall k: nat | k < w.number ensures Returned(fs.state, Call(w.process, k)) {
      assert Kept(job, fs.state, Call(w.process, k));
    }
    var result := fs.WriteImmutable(w, w.number, chunks, check);
    ChecksKeepPassing(job, run0, fs.run, w, check);
    NoCollision(job, fs.run, w);
    done := result in {Created, Reused};
  }

  /** The report, from the digest and the counters of the ledger. */
  method PublishReport(fs: FileSystem, w: Writing, job: Audit, digest: Digest, rows: nat, bytes: nat)
    returns (done: bool, report: Bytes)
    requires fs.Valid() && fs.rule == RuleOf(job) && w !in fs.state.writers && w.number == REPORT
             && KeptBefore(job, fs.state, w)
    requires digest == job.hash(Content(job, LEDGER)) && bytes == |Content(job, LEDGER)| && rows == |job.rejections|
    modifies fs
    ensures fs.Valid() && Extends(old(fs.run), fs.run) && Stays(old(fs.state), fs.state)
            && OneAtATime(old(fs.state), fs.state, w)
    ensures report == Content(job, REPORT) && old(fs.clock) <= fs.clock
    ensures if done then Kept(job, fs.state, w) else Faulty(fs.env, old(fs.clock), fs.clock)
  {
    var hash := job.hash;
    report := job.report(digest, rows);
    done := PublishArtifact(fs, w, job, [report], s => Identified(s, LEDGER, digest, bytes, hash));
  }

  /** The lineage, from the digests of the ledger and the report. */
  method PublishLineage(fs: FileSystem, w: Writing, job: Audit, digest: Digest, rows: nat, bytes: nat, report: Bytes)
    returns (done: bool)
    requires fs.Valid() && fs.rule == RuleOf(job) && w !in fs.state.writers && w.number == LINEAGE
             && KeptBefore(job, fs.state, w)
    requires digest == job.hash(Content(job, LEDGER)) && bytes == |Content(job, LEDGER)| && rows == |job.rejections|
    requires report == Content(job, REPORT)
    modifies fs
    ensures fs.Valid() && Extends(old(fs.run), fs.run) && Stays(old(fs.state), fs.state)
            && OneAtATime(old(fs.state), fs.state, w)
    ensures old(fs.clock) <= fs.clock
    ensures if done then Kept(job, fs.state, w) else Faulty(fs.env, old(fs.clock), fs.clock)
  {
    var hash := job.hash;
    var reportDigest := hash(report);
    var lineage := job.lineage(digest, reportDigest, rows);
    done := PublishArtifact(fs, w, job, [lineage],
      s => Identified(s, LEDGER, digest, bytes, hash) && Identified(s, REPORT, reportDigest, |report|, hash));
  }

  /** _audit_staged_snapshot, among any number of other audit processes, running, crashed or rerun: unless something
      raises it returns, and then all three artifacts are there with the bytes of an uninterrupted run. */
  method AuditSnapshot(fs: FileSystem, process: nat, job: Audit) returns (done: bool)
    requires fs.Valid() && fs.rule == RuleOf(job) && forall k: nat :: Call(process, k) !in fs.state.writers
    modifies fs
    ensures fs.Valid() && Extends(old(fs.run), fs.run)
    ensures done ==> forall k: nat :: k <= LINEAGE ==> Kept(job, fs.state, Call(process, k))
    ensures !done ==> Faulty(fs.env, old(fs.clock), fs.clock)
  {
    var w0, w1, w2 := Call(process, LEDGER), Call(process, REPORT), Call(process, LINEAGE);
    ghost var run0, state0 := fs.run, fs.state;
    done := PublishArtifact(fs, w0, job, job.rejections, s => true);
    if !done { return; }
    var rows, bytes := CountLedger(job.rejections);
    var digest := job.hash(Joined(job.rejections, |job.rejections|));

    ghost var run1, state1 := fs.run, fs.state;
    assert SameCall(state0, state1, w0, w1) && SameCall(state0, state1, w0, w2);
    var report;
    done, report := PublishReport(fs, w1, job, digest, rows, bytes);
    ExtendsTrans(run0, run1, fs.run);
    if !done { return; }
    KeptStays(job, state1, fs.state, w0, w1);

    ghost var run2, state2 := fs.run, fs.state;
    assert SameCall(state1, state2, w1, w2);
    done := PublishLineage(fs, w2, job, digest, rows, bytes, report);
    ExtendsTrans(run0, run2, fs.run);
    KeptStays(job, state2, fs.state, w0, w2);
    KeptStays(job, state2, fs.state, w1, w2);
  }
}
