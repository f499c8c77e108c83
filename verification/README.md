# NodeLM data pipeline: models and proofs

NodeLM turns coding-agent traces into training data. The parts modelled here decide what may be trained on and what
may be evaluated on: which repositories belong together, which rows are admitted, which labels may be transferred,
and how the resulting files are published. Each part updates tables, collections or files step by step; here each is
a program over the same state, proved equal to a short declarative meaning, and the promises of the pipeline are
proved about that meaning.

| part | modules |
|---|---|
| Contamination-safe splitting: union-find over repositories, length-filtered near-duplicate search, benchmark exclusion | `Fingerprints`, `NormalizedText`, `Components`, `ContentTables`, `SampleRows`, `Contamination`, `SplitSafety`, `SplitFields`, `SplitEvidence`, `HiddenPatches` |
| Alias resolution | `Aliases` |
| The streamed split manifest, a JSON reader for it, and its event reader | `Json`, `JsonReader`, `CanonicalText`, `Integers`, `SplitWriter`, `YamlEvents`, `SplitReader`, `SplitRoundTrip`, `ManifestDocument`, `ManifestText`, `Assignments`, `SplitPublication` |
| Immutable publication, and the three-artifact audit on top of it | `Artifacts`, `Publishing`, `SnapshotAudit` |
| Task provenance projection | `TaskRows`, `TaskProvenance`, `TaskClassification` |
| Trace classification and its manifest | `TraceRows`, `TraceProjection`, `TraceManifest`, `TraceVerdicts` |
| Label recovery and its manifest | `ResolutionRows`, `ResolutionGroups`, `ResolutionRecovery`, `ResolutionAccounting`, `ResolutionFields` |
| Streaming bounded cover, bounded sampling, tree staging, training smoke test | `BoundedCover`, `Sampler`, `Staging`, `Training` |
| Shared helpers | `Cursors`, `Sizes`, `Tallies`, `Totals`, `Wrappers` |

Every file holds one module. `dafny verify dfyconfig.toml` checks the project.

## How the source is represented

- A SQLite table is a map or set with the declared primary key. `INSERT OR IGNORE`, `INSERT OR REPLACE`,
  `UPDATE ... WHERE` and `GROUP BY` are explicit updates and aggregates; a cursor with `ORDER BY` is the ascending
  sequence of the selected keys (`Cursors.OrderBy`).
- Repository names, digests, keys and ids that the code only compares are naturals (`Cursors.Name`), which keeps
  equality and a total order. Texts that the code takes apart (fingerprint texts, JSON, manifest scalars) are strings.
- SHA-256 and the ids made from it are functions passed in, and nothing is assumed of them: a collision the code
  notices is an error of the model, and one it does not notice is part of the theorem's condition (`SplitSafety.Visible`
  and `SplitSafety.Apart` for texts, `ResolutionAccounting.Faithful` for row references).
- `SequenceMatcher` is a match count no larger than either length (`Fingerprints.MatcherBounded`). Thresholds,
  fractions and buckets are reals.
- Python exceptions are outcomes. Calls into foreign code that may raise are an arbitrary schedule of failures: `Abort`
  and `Crash` steps in `Artifacts`, an `Environment` in `Publishing`, a failure position in `Training`.
- `Artifacts` is a state machine over the steps of any number of concurrent calls: its theorems are about every list
  of steps. `Publishing` is `write_immutable_stream` as a program whose own steps alternate with arbitrary steps of
  other processes; the rule those processes keep to is a parameter, and the program is proved to keep to it too. So
  `SnapshotAudit.AuditSnapshot` is itself one of the processes the protocol theorems speak about.
- A generator is the list of what it yields.
- A program is proved against specification functions, and these are tied to the input by theorems that do not use them:
  normalization to one pass over the text and to what it keeps (`NormalizedText`), printing to a reader of the grammar
  (`JsonReader`, `CanonicalText`, `ManifestText`), reading to looking keys up (`ManifestDocument`), and the split, the
  recovery and the trace verdicts to the fields of the rows (`SplitFields`, `ResolutionFields`, `TraceVerdicts`).

## What was found

- The contamination split does not leak, except through one door. A second text under one digest is refused, but the
  loop over one sample's patch texts skips a text whose digest an earlier one of the same sample has, and does not
  compare the two. Such a hidden patch is compared with nothing. The index keeps all texts of a sample iff there is
  none (`SplitSafety.KeptExactly`); then no duplicate is on two sides (`SplitSafety.NoLeak`); with one a passing build
  can leak (`HiddenPatches.HiddenPatchLeaks`; its digest tells texts apart by their length, and for SHA-256 no such pair
  of texts is known). With an injective digest nothing hides (`SplitSafety.NoLeakWithoutCollisions`). Exclusion compares
  digests across the sample and benchmark tables, so a collision there can only exclude too much
  (`SplitSafety.ExcludedExactly`, `SplitSafety.HitsAreMatches`).
- The manifest accounting of the trace projection depends on its callers. A caller that passes the projection's own
  code `duplicate_trace_row` for a rejected row can make the manifest validator refuse a correct run
  (`TraceManifest.ReservedCodeBreaks`); `TraceManifest.AccountingHolds` gives the exact condition. The command line
  passes two other codes, so it is not affected (`src/nodelm/cli.py:2322-2326`).
- The recovery manifest demands that its four counters add up to all target rows. The index silently drops a target
  row that repeats another row's key and reference, so two equal rows make a run that no manifest accepts
  (`ResolutionAccounting.RepeatedRowIsRefused`); `ResolutionAccounting.ContractExactly` gives the exact condition on
  the input rows.
- The final compression pass over the repository groups never changes anything, because every union leaves all
  parents at their roots (`Contamination.Index.CompressRepositoryGroups`).
- The backend's step counter is the number of optimizer steps applied iff no loss has failed to be read after a step
  since the last load (`Training.CounterIsExact`, `Training.AppliedIsCountedAndLost`). It can lag already at the first
  step (`Training.StepsMayLag`), and because the guard of the resumed step looks at the counter, that step can then be
  applied again without bound (`Training.RetriesAreUnbounded`). A PASS report is not affected.
- Two fields of a conflicting task row depend on the order of the rows: its cause, and its repository. A valid row has
  the cause `duplicate_task_provenance` iff it repeats all earlier rows of its id, and shows the canonical repository
  iff it is the first (`TaskClassification.WithdrawnExactly`); `TaskClassification.SameWithdrawal` says exactly which
  reorderings keep both, and `TaskClassification.CauseDependsOnOrder` and `TaskClassification.RepositoryDependsOnOrder`
  show one that does not. The admitted records, the counts by code and the rejections of failing rows do not depend on
  the order.

## Model

| member | source | states |
|---|---|---|
| `Fingerprints.NormalizeIsCanonical` | src/nodelm/decontamination/fingerprints.py:40-44 | Normalized text has no carriage return, no line with trailing white space and no white space at either end, for every input text |
| `Fingerprints.NormalizeIdempotent` | src/nodelm/decontamination/fingerprints.py:40-44 | Normalizing twice is normalizing once, which the stored lengths rest on |
| `NormalizedText.NormalizeExactly` | src/nodelm/decontamination/fingerprints.py:40-44 | Normalized text is, for every input, what one pass from the right gives: each line end becomes one line feed, a blank stays iff something other than a line end follows what stays, and then the blanks at both ends go |
| `NormalizedText.LineEndsAlike` | src/nodelm/decontamination/fingerprints.py:40-44 | Texts that differ only in whether a line end is written as CR LF, CR or LF normalize alike |
| `NormalizedText.MarksKept` | src/nodelm/decontamination/fingerprints.py:40-44 | The characters that are not blank stay, in order, with as many line ends between neighbours as in the input; only line ends before the first and after the last are lost |
| `Fingerprints.NearSymmetric` | src/nodelm/decontamination/fingerprints.py:51-63 | The near-duplicate test gives the same answer both ways round, although one matcher direction need not |
| `Fingerprints.NearExactly` | src/nodelm/decontamination/fingerprints.py:51-63 | Two texts are near iff both normalize to nothing, or twice the match count of one of the two directions is at least the threshold's share of both normalized lengths |
| `Fingerprints.RatioWithinBounds` | src/nodelm/decontamination/contamination.py:373-378 | For every threshold in (0, 1] and any match count bounded by both lengths, two texts whose match ratio reaches the threshold have lengths inside the candidate bounds |
| `Fingerprints.BoundsAreTight` | src/nodelm/decontamination/contamination.py:373-378 | The prefilter keeps nothing beyond rounding: strictly inside the bounds, matching as much as the lengths allow reaches the threshold |
| `Components.RootIsLeast` | src/nodelm/decontamination/contamination.py:309-329 | In a forest that represents a set of links, the stored parent of a repository is the least name connected to it |
| `Components.RepresentsUnique` | src/nodelm/decontamination/contamination.py:309-409 | Two flat forests over the same names that represent the same links are equal, so processing order cannot show in the result |
| `Components.MergeRepresents` | src/nodelm/decontamination/contamination.py:332-341 | Merging one set of repositories turns a forest representing the links so far into one representing them with the new set linked |
| `Components.CompressedKeepsRoots` | src/nodelm/decontamination/contamination.py:309-329 | Pointing a walked path at its root changes the root of no repository and keeps the forest free of cycles |
| `Components.AtMostOneRoot` | src/nodelm/decontamination/contamination.py:332-336 | A set of repositories with fewer than two roots is already merged, so the early return of the union loses nothing |
| `ContentTables.FilteredLoopIsComplete` | src/nodelm/decontamination/contamination.py:373-409 | The length-filtered double loop meets exactly the near pairs that the all-pairs loop meets, and counts each once |
| `ContentTables.FilteredBenchmarkLoopIsComplete` | src/nodelm/decontamination/contamination.py:437-460 | The same for sample values against benchmark values |
| `ContentTables.FourUnions` | src/nodelm/decontamination/contamination.py:361-409 | The exact and near passes over tasks and patches together link two repositories iff a shared value or a near pair of values joins them |
| `ContentTables.FourMarks` | src/nodelm/decontamination/contamination.py:424-460 | The four benchmark passes mark a sample iff one of its values has the fingerprint of a benchmark value or nearly duplicates one |
| `SampleRows.InsertText` | src/nodelm/decontamination/contamination.py:287-306 | Passes iff the normalized text is not empty and the table holds no other text under its digest; the two failures are told apart; a pass leaves exactly this text under its digest and every other row alone |
| `SampleRows.InsertContentValue` | src/nodelm/decontamination/contamination.py:255-284 | Passes under the same condition, and then adds the text, its sample and its repository under that digest and touches nothing else |
| `SampleRows.InsertPatchTexts` | src/nodelm/decontamination/contamination.py:569-581 | Of texts with one digest the first is entered and the others are skipped; passes iff no entered text is empty or meets a different stored one, and then exactly the entered ones are added |
| `SampleRows.EntersGood` | src/nodelm/decontamination/contamination.py:255-284 | Whether a sample's texts can be entered is decided by the input alone: none is empty or has the digest of a different text of an earlier sample |
| `SampleRows.GoodWithoutCollisions` | src/nodelm/decontamination/contamination.py:263-276 | Without digest collisions that is: no text is empty |
| `Contamination.Index.InsertSample` | src/nodelm/decontamination/contamination.py:544-581 | One sample extends every table exactly by its own rows; it is accepted iff its id is new and non-empty, its repository is readable, it has a patch, and none of its entered texts is empty or collides with an earlier one |
| `Contamination.Index.InsertSamples` | src/nodelm/decontamination/contamination.py:544-584 | After the sample loop the tables are those of all samples; it passes iff there is one and all are acceptable |
| `Contamination.Index.InsertBenchmarks` | src/nodelm/decontamination/contamination.py:586-600 | The same for benchmark entries, leaving the sample tables alone: it passes iff there is one, ids are distinct and non-empty, and no text is empty or collides |
| `Contamination.Index.FindRoot` | src/nodelm/decontamination/contamination.py:309-329 | Terminates; fails iff the repository is unknown; otherwise returns its root and leaves the forest with exactly the walked path repointed |
| `Contamination.Index.UnionRepositories` | src/nodelm/decontamination/contamination.py:332-341 | The stored forest represents the old links plus the given set of repositories |
| `Contamination.Index.UnionValueRepositories` | src/nodelm/decontamination/contamination.py:344-358 | The stored forest represents the old links plus all repositories that hold either value |
| `Contamination.Index.UnionExactGroups` | src/nodelm/decontamination/contamination.py:361-370 | Links exactly the repositories that share a value, and counts those values |
| `Contamination.Index.UnionNearGroups` | src/nodelm/decontamination/contamination.py:381-409 | Links exactly the repositories of every near pair of values, and reports the comparisons offered and the matches found |
| `Contamination.Index.MarkExactOverlap` | src/nodelm/decontamination/contamination.py:424-434 | Marks exactly the samples with a value that has the fingerprint of a benchmark value, and counts those values |
| `Contamination.Index.MarkNearOverlap` | src/nodelm/decontamination/contamination.py:437-460 | Marks exactly the samples with a value near a benchmark value, and counts the near pairs |
| `Contamination.Index.CompressRepositoryGroups` | src/nodelm/decontamination/contamination.py:463-472 | After the union passes every stored parent is already a root: this pass changes nothing |
| `Contamination.Index.AssignSplits` | src/nodelm/decontamination/contamination.py:475-499 | The excluded roots are those of groups with a marked sample, and the split of every repository is that of its root: excluded, or by the bucket of the root |
| `Contamination.Index.Build` | src/nodelm/decontamination/contamination.py:514-661 | From empty tables: passes iff the input is acceptable, collisions included; then the published tables are the groups, marks and splits of that input and the evidence holds their exact counts |
| `SplitSafety.GroupsAreComponents` | src/nodelm/decontamination/contamination.py:309-409 | Two repositories have one root iff a chain of samples with equal or nearly duplicate kept texts joins them; no assumption on the digest |
| `SplitSafety.RootIsLeastOfGroup` | src/nodelm/decontamination/contamination.py:332-341 | The root of a group is one of its members, its own parent, and no larger than any member |
| `SplitSafety.KeptExactly` | src/nodelm/decontamination/contamination.py:569-574 | The index keeps all texts of a sample iff no patch text of it has the digest of a different earlier one of the same sample |
| `SplitSafety.NoLeak` | src/nodelm/decontamination/contamination.py:412-499 | Whatever the digest, two samples with equal or nearly duplicate tasks or patches are in the same split unless one of them hides a patch text in that way |
| `SplitSafety.NoLeakWithoutCollisions` | src/nodelm/decontamination/contamination.py:412-499 | With an injective digest no two samples with equal or nearly duplicate tasks or patches are ever in different splits |
| `HiddenPatches.HiddenPatchLeaks` | src/nodelm/decontamination/contamination.py:569-574 | The exception is real: with a digest that collides, the program's own normalization, near test and length window, and options it accepts, a build passes that puts two samples with nearly duplicate patches on opposite sides |
| `SplitSafety.ExcludedExactly` | src/nodelm/decontamination/contamination.py:412-499 | Every repository gets exactly one of the three splits, is excluded iff a kept text of some sample of its group has the digest of a benchmark text or nearly duplicates one, and otherwise is evaluation iff its group's bucket is below the fraction; no assumption on the digest |
| `SplitSafety.HitsAreMatches` | src/nodelm/decontamination/contamination.py:424-460 | That hit is a match of the texts: every match is a hit when the sample hides no patch, and every hit is a match when moreover no benchmark text has the digest of a different text of it |
| `SplitSafety.ExcludedWithoutCollisions` | src/nodelm/decontamination/contamination.py:412-499 | With an injective digest a repository is excluded iff a sample of its group equals or nearly duplicates a benchmark |
| `SplitFields.FiledUnder` | src/nodelm/decontamination/contamination.py:544-556 | A sample is filed under the canonical name of its repository, or under what the alias table gives for that name |
| `SplitFields.ProgramFiles` | src/nodelm/decontamination/contamination.py:475-556 | The same for the options of a run, whose repositories are train or evaluation by the bucket of their root and the fraction given |
| `SplitFields.TasksTogether` | src/nodelm/decontamination/contamination.py:412-499 | Samples whose task texts normalize alike or are nearly duplicate share a split; no assumption on the digest |
| `SplitFields.PatchesTogether` | src/nodelm/decontamination/contamination.py:412-499 | So do samples with such patch texts, when neither hides a patch text |
| `SplitFields.TaskIsExcluded` | src/nodelm/decontamination/contamination.py:586-600 | A sample whose task equals or nearly duplicates the task of a benchmark entry is excluded; no assumption on the digest |
| `SplitFields.PatchIsExcluded` | src/nodelm/decontamination/contamination.py:586-600 | So is one with a patch that equals or nearly duplicates the patch of an entry, unless it hides a patch text |
| `SplitFields.ExcludedByFields` | src/nodelm/decontamination/contamination.py:412-499 | With an injective digest a repository is excluded iff some sample grouped with it has the task of a benchmark entry or one of its patches the patch of an entry, up to normalization or near duplication |
| `SplitEvidence.InputIsCounted` | src/nodelm/decontamination/contamination.py:616-635 | The evidence counts every sample and every benchmark entry |
| `SplitEvidence.UniqueEvidenceIsTrue` | src/nodelm/decontamination/contamination.py:616-635 | The unique counts are the numbers of fingerprints of kept texts and of benchmark texts |
| `SplitEvidence.TextEvidenceIsTrue` | src/nodelm/decontamination/contamination.py:605-661 | The exact and near counts are the numbers of texts two repositories hold, of nearly duplicate pairs of kept texts, of fingerprints samples share with benchmarks, and of nearly duplicate pairs of a kept and a benchmark text |
| `SplitEvidence.ComparisonsAreTrue` | src/nodelm/decontamination/contamination.py:381-460 | The comparison counts are the numbers of pairs of distinct texts, and of a text and a benchmark text, within the length window |
| `SplitEvidence.GroupEvidenceIsTrue` | src/nodelm/decontamination/contamination.py:644-661 | The group count is the number of components of the input, the shared ones those with two repositories; the overlap counts are the samples that hit a benchmark and their repositories; the excluded counts are the components and repositories such a sample is joined to |
| `SplitEvidence.EvidenceIsTrue` | src/nodelm/decontamination/contamination.py:644-661 | So there are as many groups as repositories iff no group has two, and something is excluded iff some sample hits a benchmark |
| `SplitSafety.ConfiguredIsSound` | src/nodelm/decontamination/fingerprints.py:40-63 | With the program's own normalization, near test and length bounds, for every threshold in (0, 1]: normalizing twice is normalizing once, the near test is symmetric, and no near pair of stored texts falls outside the length window although the test normalizes them again |
| `SplitSafety.BuildContaminationIndex` | src/nodelm/decontamination/contamination.py:514-661 | Option checks and build together: it passes iff the options and the input are acceptable, and then yields an index and evidence for which the split theorems hold |
| `Artifacts.CompareAtDecides` | src/nodelm/artifacts.py:57-67 | One chunk comparison of two files equal so far either extends the equal part or decides rightly |
| `Artifacts.StepKeeps` | src/nodelm/artifacts.py:70-112 | Every step of any call keeps the file-system invariant and every published byte |
| `Artifacts.Immutable` | src/nodelm/artifacts.py:70-112 | In every interleaving, once a path exists its bytes never change |
| `Artifacts.WholeAndChecked` | src/nodelm/artifacts.py:70-112 | In every interleaving, published bytes are the complete output of one call to that path whose pre-publish check had passed |
| `Artifacts.OneCreator` | src/nodelm/artifacts.py:96-106 | At most one call per path reports that it created the file |
| `Artifacts.EndsTruthfully` | src/nodelm/artifacts.py:93-112 | A call that returned normally finds its own bytes at the path ever after; it collided only if another call's different bytes are there; it created the file iff the file is its own; it leaves no temporary file |
| `Artifacts.TemporariesHaveOwners` | src/nodelm/artifacts.py:108-110 | A temporary file that remains belongs to a call still going or killed |
| `Artifacts.MayFailAnywhere` | src/nodelm/artifacts.py:70-112 | From every point at which a call runs it can be killed, which leaves its temporary file, and from every point before its finally block it can raise, which does not; neither publishes anything |
| `Artifacts.AloneItPublishes` | src/nodelm/artifacts.py:70-112 | A call that no other disturbs publishes exactly the bytes it is given and leaves no temporary file |
| `Publishing.FileSystem.FilesEqual` | src/nodelm/artifacts.py:57-67 | The chunked comparison, with other processes stepping in between, ends; unless an operation raises meanwhile it says whether the file at the path has the bytes written, and rightly |
| `Publishing.FileSystem.WriteImmutable` | src/nodelm/artifacts.py:70-112 | Among other processes: a normal return means the path holds exactly the bytes written and the call went past its check in a state of this run in which the check held; a collision means it holds other bytes; failure needs an operation that raises during this call, or a state of this run in which the check was made and did not hold; nothing published changes |
| `Publishing.PublishedUnderRule` | src/nodelm/artifacts.py:93-106 | When every process keeps to a rule, each published file belongs to a call that made its check in a state of the run in which the rule allowed it |
| `SnapshotAudit.ArtifactsAgree` | src/nodelm/datasets/snapshot_audit.py:220-337 | After any crashes and reruns, every artifact that exists has the bytes of an uninterrupted run |
| `SnapshotAudit.LineageIsComplete` | src/nodelm/datasets/snapshot_audit.py:244-325 | Whenever the lineage file exists, the ledger and the report exist with the digests it and the report record |
| `SnapshotAudit.NoCollision` | src/nodelm/datasets/snapshot_audit.py:246-330 | No rerun on unchanged inputs ever collides |
| `SnapshotAudit.RerunsConverge` | src/nodelm/datasets/snapshot_audit.py:207-337 | Any process whose last publication returned leaves the same three files |
| `SnapshotAudit.CountLedger` | src/nodelm/datasets/snapshot_audit.py:221-230 | The callback counters are the number of rejections and the size of the ledger |
| `SnapshotAudit.PublishArtifact` | src/nodelm/datasets/snapshot_audit.py:244-252 | One publication of an audit process keeps to the protocol among any other audit processes, and leaves its artifact with the right bytes unless an operation raises during this call |
| `SnapshotAudit.AuditSnapshot` | src/nodelm/datasets/snapshot_audit.py:207-337 | An audit run among any other audit processes, running, crashed or rerun, returns unless an operation raises during the run, and then all three artifacts are there with the bytes of an uninterrupted run |
| `TaskRows.StatusIsBatch` | src/nodelm/provenance/task_provenance.py:296-408 | The row-by-row status of an id is its batch class: admitted iff all rows project to one record, rejected iff all fail, conflicting iff they mix records or mix valid and failing rows |
| `TaskRows.ExpectedStep` | src/nodelm/provenance/task_provenance.py:198-259 | A new row changes the rejection of an earlier row only when it turns their id into a conflict, and then exactly as the reclassification does |
| `TaskProvenance.Projection.ReclassifyRejections` | src/nodelm/provenance/task_provenance.py:198-236 | Exactly the rejections of the id are relabelled; the earlier reason becomes the cause, and an existing conflict keeps its cause |
| `TaskProvenance.Projection.MarkConflict` | src/nodelm/provenance/task_provenance.py:239-259 | The admitted record is withdrawn, the id becomes a conflict, its rejections are relabelled and the withdrawn row gets its own rejection |
| `TaskProvenance.Projection.RejectFailing` | src/nodelm/provenance/task_provenance.py:297-346 | A failing row takes the tables of the first n rows to those of the first n + 1 |
| `TaskProvenance.Projection.AddValid` | src/nodelm/provenance/task_provenance.py:348-408 | So does a row that projects, in each of its five cases |
| `TaskProvenance.Projection.Project` | src/nodelm/provenance/task_provenance.py:263-409 | The online tables end as the batch classification of the whole input |
| `TaskClassification.AdmittedExactly` | src/nodelm/provenance/task_provenance.py:296-408 | An id is admitted, at its first row and with its record, iff all its rows project to that record |
| `TaskClassification.RejectedExactly` | src/nodelm/provenance/task_provenance.py:296-408 | How every other row ends: duplicate, own reason, or conflict with the own reason as cause |
| `TaskClassification.WithdrawnExactly` | src/nodelm/provenance/task_provenance.py:198-259 | A valid row of a conflicting id has the cause duplicate iff an earlier row of the id exists and all earlier ones project to its record, and none otherwise; its repository is the canonical one iff it is the first row of the id, and its own otherwise; a failing row keeps its own |
| `TaskClassification.ProjectRows` | src/nodelm/provenance/task_provenance.py:263-409 | The online projection ends in tables of which all this holds |
| `TaskClassification.NothingLost` | src/nodelm/provenance/task_provenance.py:154-180 | Admitted plus rejected is the number of rows, and a row is rejected iff it is not the admitted row of an id |
| `TaskClassification.SameRecords` | src/nodelm/provenance/task_provenance.py:154-170 | Reordering the input admits the same ids with the same records |
| `TaskClassification.GroupSize` | src/nodelm/provenance/task_provenance.py:175-180 | Each rejection count is a count over rows, less the admitted ones among the duplicates |
| `TaskClassification.SameCounts` | src/nodelm/provenance/task_provenance.py:175-180 | Reordering the input changes no rejection count by code |
| `TaskClassification.SameWithdrawal` | src/nodelm/provenance/task_provenance.py:198-259 | A valid row of a conflicting id keeps its rejection under a reordering iff it stays first of the id or stays not first, unless its own repository is canonical, and stays a repetition of all earlier rows or stays none |
| `TaskClassification.SameFailure` | src/nodelm/provenance/task_provenance.py:198-259 | A failing row of a conflicting id keeps its rejection under every reordering |
| `TaskClassification.CauseDependsOnOrder` | src/nodelm/provenance/task_provenance.py:198-236 | The cause can change: three rows in two orders |
| `TaskClassification.RepositoryDependsOnOrder` | src/nodelm/provenance/task_provenance.py:239-259 | So can the repository: two rows in two orders |
| `TraceRows.AggregatesDecide` | src/nodelm/provenance/trace_projection.py:97-117 | The GROUP BY counts tell a mixed key from a clean and from a failing one exactly |
| `TraceRows.SampleCount` | src/nodelm/provenance/trace_projection.py:107-114 | For a clean key the distinct sample count differs from one iff two of its rows have different sample ids |
| `TraceProjection.Projection.AddRow` | src/nodelm/provenance/trace_projection.py:37-72 | Accepts a row iff not finalized, well formed and of a new index, and then adds it unclassified; otherwise changes nothing |
| `TraceProjection.Projection.ClassifyKey` | src/nodelm/provenance/trace_projection.py:103-145 | One group is decided as its rows demand and no other row is touched; it raises iff a clean key has two sample ids |
| `TraceProjection.Projection.Finalize` | src/nodelm/provenance/trace_projection.py:74-163 | Raises iff a valid row lacks a key, a sample id spans two keys or a clean key has two sample ids; otherwise every row gets its expected verdict and the recorded conflicts are the mixed keys |
| `TraceManifest.AdmittedExactly` | src/nodelm/provenance/trace_projection.py:74-163 | The admitted rows are exactly the least row of each key whose rows are all valid with one raw digest |
| `TraceManifest.AdmittedDistinct` | src/nodelm/provenance/trace_projection.py:87-96 | Admitted rows have pairwise distinct keys and pairwise distinct sample ids |
| `TraceVerdicts.VerdictsByFields` | src/nodelm/provenance/trace_projection.py:97-145 | Field by field: a row that some row of its key contradicts is rejected as conflicting with its own code, if any, as the cause; of the others a failing row keeps its code, the first valid row of a key is admitted and later ones are duplicates |
| `TraceVerdicts.ConflictsByFields` | src/nodelm/provenance/trace_projection.py:103-121 | The recorded conflicts are exactly the keys of contradicted rows |
| `TraceVerdicts.RaisesByFields` | src/nodelm/provenance/trace_projection.py:78-114 | finalize raises iff a valid row has no key, one sample stands under two keys, or two rows of one key that nothing contradicts have different samples |
| `TraceVerdicts.CountsByFields` | src/nodelm/provenance/trace_projection.py:187-231 | Each count of the manifest is the number of input rows, or keys, it is named after |
| `TraceManifest.AccountingHolds` | src/nodelm/provenance/manifests.py:532-566 | For every input that does not raise, all accounting checks of the manifest hold iff some row is admitted or no caller passed the reserved duplicate code for a row that keeps its own reason |
| `TraceManifest.CallersAreAccounted` | src/nodelm/provenance/trace_projection.py:187-231 | With callers that never pass that code the accounting always holds |
| `TraceManifest.ReservedCodeBreaks` | src/nodelm/provenance/manifests.py:564-565 | One row passed with the reserved code and nothing admitted: finalize succeeds and the manifest is refused |
| `TraceManifest.SumOfGroups` | src/nodelm/provenance/trace_projection.py:224-231 | The counts by code add up to the rows counted |
| `ResolutionRows.Index.IndexLabeledRows` | src/nodelm/provenance/resolution.py:565-616 | Raises iff a row is unreadable; otherwise stores each eligible label once, as its first row has it, and counts for every partition its rows and its ineligible rows |
| `ResolutionRows.Index.IndexTargetRows` | src/nodelm/provenance/resolution.py:619-675 | The same for unknown targets, with the already known rows counted for every partition too; ineligible, already known, stored and repeated rows add up to all rows |
| `ResolutionGroups.TargetGroups` | src/nodelm/provenance/resolution.py:715-760 | Yields each key once, keys ascending, with exactly its references in strictly ascending order; raises iff one key has two target identities |
| `ResolutionRecovery.DiffersExactly` | src/nodelm/provenance/resolution.py:684-690 | Minimum and maximum of the resolved column differ iff the key was observed with both labels |
| `ResolutionRecovery.UnanimousLabelExactly` | src/nodelm/provenance/resolution.py:763-784 | The answer from minimum, maximum and the two counts is b iff all observations of the key are b and one has the language |
| `ResolutionRecovery.Recovery.MaterializeConflicts` | src/nodelm/provenance/resolution.py:678-712 | One conflict for each targeted key with both labels, with all evidence of each label in order, and no other |
| `ResolutionRecovery.Recovery.EmitGroup` | src/nodelm/provenance/resolution.py:796-856 | One group adds either its request or one candidate for each reference |
| `ResolutionRecovery.Recovery.MaterializeOutputs` | src/nodelm/provenance/resolution.py:787-856 | Raises iff one key has two identities; otherwise the three output tables are those of all groups |
| `ResolutionAccounting.EveryTargetOnce` | src/nodelm/provenance/resolution.py:787-856 | Every stored unknown target is a candidate or requested, never both, and nothing else is either |
| `ResolutionAccounting.CandidateExactly` | src/nodelm/provenance/resolution.py:763-856 | A target is a candidate with label b iff all observations of its key over all languages are b and one has its language; its evidence is exactly those references |
| `ResolutionAccounting.DisputedExactly` | src/nodelm/provenance/resolution.py:678-712 | A key with both labels yields no candidate, and a conflict iff it is targeted |
| `ResolutionAccounting.RowRecoveredExactly` | src/nodelm/provenance/resolution.py:565-856 | The same in terms of the input rows and their keys, through both indexes |
| `ResolutionFields.RecoveredByFields` | src/nodelm/provenance/resolution.py:565-856 | For a key that tells instances and patches apart, on the fields of the rows: the first target row of its instance, patch and reference is recovered with label b iff every labeled row for its instance and its patch says b and one of them has its language |
| `ResolutionFields.RequestedByFields` | src/nodelm/provenance/resolution.py:796-856 | Otherwise it is requested, under its own instance, language and patch, and never both |
| `ResolutionFields.CandidateEvidence` | src/nodelm/provenance/resolution.py:763-856 | The evidence of a candidate lists, in order, exactly the references of the labeled rows for its instance and patch that have its label and its language |
| `ResolutionFields.ConflictByFields` | src/nodelm/provenance/resolution.py:678-712 | A targeted instance and patch has a conflict iff labeled rows say both, and its two sides list in order the references of the rows that say false and of those that say true |
| `ResolutionFields.ClashByFields` | src/nodelm/provenance/resolution.py:715-760 | The recovery clashes iff first target rows put one instance and one patch in two languages |
| `ResolutionAccounting.ManifestSums` | src/nodelm/provenance/manifests.py:308-321 | The sums of the manifest in terms of the target rows: all, ineligible, already known, and what is missing from the accounting |
| `ResolutionAccounting.ManifestCounts` | src/nodelm/provenance/resolution.py:859-981 | The counts of the manifest are those of the candidates by label and by key, of the requests and of the conflicts |
| `ResolutionAccounting.ContractExactly` | src/nodelm/provenance/manifests.py:308-343 | Ineligible, known, recovered and queued rows are all target rows less the repeated ones; the sums, counts and byte checks of the manifest all hold iff every target row is of a listed partition, none repeats an earlier one's key and reference, and none has a key that labeled rows give both labels |
| `ResolutionAccounting.RepeatedRowIsRefused` | src/nodelm/provenance/manifests.py:312-319 | Two equal queued target rows that do not clash: their recovery is done without an error, its index is that of the rows, and no manifest of it verifies |
| `ResolutionAccounting.BuildResolutionRecovery` | src/nodelm/provenance/resolution.py:984-1038 | Index and outputs together raise iff a row is unreadable or two queued target rows, each the first of its key and reference, put different identities under one key |
| `Aliases.CollectLinks` | src/nodelm/decontamination/split.py:87-96 | The direct links are exactly what the pairs say, self-links dropped; it fails iff a name is unreadable or one alias has two targets |
| `Aliases.ResolveLinks` | src/nodelm/decontamination/split.py:98-116 | Terminates; raises iff the direct links have a cycle, and shows one; otherwise sends each alias to the end of its chain |
| `Aliases.ResolvedAliases` | src/nodelm/decontamination/split.py:86-116 | Both together, on the raw pairs |
| `Aliases.AppliedTwice` | src/nodelm/decontamination/split.py:110-116 | What an alias resolves to is no alias, resolving again changes nothing, and an alias resolves as its direct target does |
| `Aliases.SameAliases` | src/nodelm/decontamination/split.py:86-116 | The resolved table does not depend on the order of the pairs nor on memoised early exits |
| `SplitPublication.AliasesAreGone` | src/nodelm/decontamination/split.py:86-116 | After a split is written no alias of the arguments is left as a repository of its own |
| `SplitPublication.AliasIsTarget` | src/nodelm/decontamination/split.py:86-116 | Samples of the two sides of one alias pair are samples of one repository, hence in one split |
| `Json.CanonIgnoresOrder` | src/nodelm/artifacts.py:27-30 | Canonical text does not depend on the order in which an object was put together |
| `Json.LessExactly` | src/nodelm/artifacts.py:27-30 | Keys are ordered by the first character in which they differ, a proper prefix first |
| `CanonicalText.CanonReadsBack` | src/nodelm/artifacts.py:27-30 | A reader that follows the grammar of RFC 8259 finds in the canonical text of a value, whatever cannot continue a number behind it, exactly that value with the members of its objects in key order; for every value whose numbers are numbers |
| `CanonicalText.CanonIsJson` | src/nodelm/artifacts.py:27-30 | So canonical text with blanks behind it is one JSON text, of the same value but for the order of members, if moreover no object has a key twice |
| `SplitWriter.WriteRepositories` | src/nodelm/decontamination/split.py:453-466 | The nested loop with its bracket bookkeeping prints exactly the repositories object |
| `SplitWriter.WriteJson` | src/nodelm/decontamination/split.py:416-471 | The streamed text is exactly the one-shot canonical JSON of the manifest object, with a final newline, and a JSON reader finds that object in it |
| `SplitWriter.AnyOrderPrintsTheSame` | src/nodelm/decontamination/split.py:416-471 | So it is the canonical JSON of that object in whatever order its fields are given |
| `ManifestText.ScalarsByName` | src/nodelm/decontamination/split.py:416-471 | A JSON reader finds each single value of the manifest under its name in the written text |
| `ManifestText.RepositoriesByName` | src/nodelm/decontamination/split.py:453-466 | So it finds the three lists of repositories, name by name |
| `ManifestText.AssignmentsByName` | src/nodelm/decontamination/split.py:427-439 | And one object for each assignment, with group, repository, sample and split under their names |
| `YamlEvents.SkipsOneValue` | src/nodelm/decontamination/split.py:126-138 | A depth count that starts at a collection is zero for the first time exactly behind that value |
| `YamlEvents.DocumentExists` | src/nodelm/decontamination/split.py:206-262 | Every value has an event stream of the kind the reader theorems speak about |
| `SplitReader.Reader.SkipValue` | src/nodelm/decontamination/split.py:126-138 | On any stream it stops where the depth first returns to zero; on the events of a value exactly behind them |
| `SplitReader.Reader.ReadRepositoryMapping` | src/nodelm/decontamination/split.py:141-183 | On the events of a value it returns the lists that value holds and stops behind it, and fails iff the value is not a mapping with both required lists |
| `SplitReader.Reader.ReadEvidence` | src/nodelm/decontamination/split.py:196-291 | On every stream a parser gives, of any number of documents, complete or broken off by an error: it returns what the text says iff that is one whole document which is a split manifest, and raises otherwise |
| `ManifestDocument.EvidenceExactly` | src/nodelm/decontamination/split.py:196-291 | What is read of a document is e iff, looking keys up: all keys are scalars and differ, the schema version is right, both required lists are there, the names are the canonical forms in order, no two lists share one, and digest and counts are absent or well formed and those of e |
| `Integers.ParseDecimal` | src/nodelm/decontamination/split.py:243-249 | int() reads back the decimal text of every count |
| `Integers.SignIsRead` | src/nodelm/decontamination/split.py:243-249 | A sign in front of it is read as one |
| `Integers.OnlyDigits` | src/nodelm/decontamination/split.py:243-249 | Nothing but digits, and single underscores between them, is read as digits |
| `SplitRoundTrip.RoundTrip` | src/nodelm/decontamination/split.py:196-291 | Reading what the writer prints recovers the three lists, the input identity and the sample count when names are canonical fixed points |
| `SplitRoundTrip.ReadBack` | src/nodelm/decontamination/split.py:196-291 | The same for the program that reads the events |
| `ManifestText.TextRoundTrip` | src/nodelm/decontamination/split.py:196-291 | The same from the text: the manifest read as JSON, and that as a split manifest, gives back lists, input identity and sample count |
| `SplitPublication.ReaderLearnsSplit` | src/nodelm/decontamination/split.py:375-472 | A reader of the published manifest learns exactly which repositories the tables assign to each split, when names are canonical fixed points |
| `SplitPublication.ReaderNeverLeaks` | src/nodelm/decontamination/split.py:375-472 | So for no reader are two repositories with equal or nearly duplicate samples on different sides of the split, unless a sample hides a patch text |
| `Assignments.IterAssignments` | src/nodelm/decontamination/contamination.py:98-104 | One row for each sample and one sample for each row, in strictly ascending order of the ids, with the sample's repository, the root of its group and its split |
| `SplitPublication.WriteRepositorySplit` | src/nodelm/decontamination/split.py:375-472 | Aliases, index and printing together: written iff the arguments are well formed and there are links the alias arguments resolve to with which the build accepts the input, a condition on the input alone; then the text is the canonical JSON of a manifest that holds the arguments and lists exactly the tables, evidence and assignments of a safe split with those links |
| `SplitPublication.ArgumentsExactly` | src/nodelm/decontamination/split.py:375-414 | Well-formed arguments are a fraction strictly between 0 and 1, a size that is not negative and a digest of 64 lower-case hexadecimal digits |
| `SplitPublication.RowsAndListsAgree` | src/nodelm/decontamination/split.py:416-471 | The split named in an assignment is that of the list which holds its repository |
| `SplitPublication.WrittenNeverLeaks` | src/nodelm/decontamination/split.py:375-472 | Whoever reads what it wrote finds duplicate samples on one side, unless a sample hides a patch text |
| `BoundedCover.Scan` | src/nodelm/provenance/resolution_canary.py:41-55 | One pass finds the least ids up to the maximum and the least choice of every feature; it fails iff an id repeats |
| `BoundedCover.Cover` | src/nodelm/provenance/resolution_canary.py:29-65 | Succeeds iff the bounds are valid, ids are distinct, there are at least the minimum of items and the choices number at most the maximum; the result is sorted, holds the choices and is filled with the least other ids to the minimum size |
| `BoundedCover.EveryFeatureCovered` | src/nodelm/provenance/resolution_canary.py:48-58 | Every feature any item has is shown by a selected item |
| `BoundedCover.OrderDoesNotMatter` | src/nodelm/provenance/resolution_canary.py:29-65 | The result is the same for every order of the same items |
| `Sampler.LargestIsUnique` | src/nodelm/datasets/audit.py:51-60 | The cap largest entries of a stream are one multiset, so the order of arrival cannot matter |
| `Sampler.LargestByKey` | src/nodelm/datasets/audit.py:51-60 | No dropped entry has a larger key than a kept one, nor the same key and a larger value |
| `Sampler.Distribution.Add` | src/nodelm/datasets/audit.py:51-60 | Keeps the samples the cap largest of all entries added and count, minimum and maximum exact |
| `Sampler.Distribution.Approximate` | src/nodelm/datasets/audit.py:62-64 | True iff more values were added than the cap |
| `Sampler.NearestRank` | src/nodelm/datasets/audit.py:36-40 | The value returned has at least the share of values up to it and less than that share below it |
| `Sampler.Distribution.Summarize` | src/nodelm/datasets/audit.py:66-74 | While nothing was dropped both percentiles are the exact nearest-rank ones of every value added |
| `Staging.Capture.Visit` | src/nodelm/datasets/staging.py:104-147 | Visits the whole tree or raises; otherwise appends exactly its files and directories, in order |
| `Staging.ReadableExactly` | src/nodelm/datasets/staging.py:24-40 | It raises iff the tree holds a symbolic link, a special file or a regular file with a backslash in its path; a directory with one passes when no file is beneath it |
| `Staging.VisitedDistinct` | src/nodelm/datasets/staging.py:58-64 | The visitor meets no path twice when names in one directory differ |
| `Staging.ExpectedDirectories` | src/nodelm/datasets/staging.py:82-88 | The result is exactly the proper non-empty prefixes of the file paths |
| `Staging.DirectoriesAreClosure` | src/nodelm/datasets/staging.py:82-161 | The walked directories are that prefix closure iff every directory has a file beneath it |
| `Staging.VerifyTree` | src/nodelm/datasets/staging.py:156-161 | Accepts a tree iff it holds only regular files and directories, its files are exactly the listed ones with those digests and sizes, and every directory has a file beneath it |
| `Training.AlwaysCounted` | src/nodelm/training/transformers_backend.py:72-372 | Over every sequence of calls with failures at any modelled point: at most two steps, one resumed step iff two steps, and steps <= backward passes <= forward passes |
| `Training.AppliedIsCountedAndLost` | src/nodelm/training/transformers_backend.py:339-372 | Over every such sequence the optimizer steps applied are the counted ones plus the calls, since the last reset, whose loss could not be read after the step |
| `Training.CounterIsExact` | src/nodelm/training/transformers_backend.py:339-372 | So the counter equals the steps applied iff there was no such call |
| `Training.StepsMayLag` | src/nodelm/training/transformers_backend.py:364-367 | Even the first step can be applied and not counted |
| `Training.RetriesAreUnbounded` | src/nodelm/training/transformers_backend.py:276-282 | The guard of the resumed step does not see such calls: for every n there is a history with one counted step, no resumed one and n + 1 applied |
| `Training.StageWorks` | src/nodelm/training/transformers_backend.py:72-337 | Behind the stages before it a stage succeeds iff its arguments are accepted and all its foreign calls return: no guard stops it |
| `Training.TransformersBackend.LoadModel` | src/nodelm/training/transformers_backend.py:72-156 | A failed load changes no counter or has zeroed them all and dropped the optimizer, and never unloads an earlier model; a load that succeeds leaves all counters zero and no optimizer |
| `Training.TransformersBackend.RunOptimizerStep` | src/nodelm/training/transformers_backend.py:339-372 | The counter rises iff the call succeeds; a step is applied at most once, always by a call that succeeds, and never without a new backward pass, nor that without a new forward pass |
| `Training.TransformersBackend.Reload` | src/nodelm/training/transformers_backend.py:199-274 | No counter changes; a reload that fails past its guard leaves no optimizer to resume from, one that succeeds leaves one |
| `Training.TransformersBackend.Perform` | src/nodelm/training/transformers_backend.py:72-337 | A call with refused arguments, or whose first foreign call raises, fails and changes no counter; a call that succeeds met its guard: a loaded model, for the first step no step and no optimizer, for a checkpoint exactly one step, for the resumed step a reloaded optimizer and no resumed step |
| `Training.TransformersBackend.RunLifecycle` | src/nodelm/training/lifecycle.py:64-125 | The completed stages are exactly those before the first whose arguments are refused or one of whose foreign calls raises, which the report names, and the backend stands where these calls leave it; PASS iff all seven completed, and then all arguments were accepted and every foreign call returned, and there are exactly two steps, one resumed from reloaded optimizer state; every report satisfies its validator |

## Left out

- Names are compared, not parsed: `canonical_repository`, `canonical_language`, licence evaluation, instance and
  commit patterns and patch field lookup are inputs that are readable or not.
- Message texts beside reason codes, and the columns a projection only passes through (instance, repository and
  rollout of a trace row, instance and patch of a label conflict), except where a task rejection depends on them.
- `decontamination_task_metadata_index`, the digest format checks, and the digests and the threshold that the evidence
  repeats.
- SHA-256 itself, SQLite itself, `SequenceMatcher` itself, UTF-8 encoding and PyYAML parsing. The reader starts from
  the event stream; that a YAML parser gives, for JSON text, the events of the value a JSON reader finds in it is an
  assumption (`ManifestText.TreeOf`). The JSON reader has no case for `true` and `false`, which no modelled value has.
- How the evidence and the configuration digest are printed into a split manifest: both are functions passed in.
- Decimal digits outside ASCII and the digit limit of `int()`. Numbers other than counts keep their text.
- The checks of a recovery manifest that concern the choice of inputs: disjoint partitions, distinct file identities,
  distinct artifact names, digests and name formats.
- Floating-point rounding of thresholds, buckets and percentiles.
- Outside writers that change inputs between a boundary check and the link, a target that is a directory, and an
  `unlink` that fails in the `finally` block, which counts as a crash.
- The snapshot staging, receipt and registry checks before an audit, and their re-checks at each boundary: the inputs
  are unchanged, and a failed re-check is one of the points where a call may raise.
- A second `finalize` after one that raised: `TraceProjection.Projection.Finalize` is stated for a table that no
  earlier call has partly classified.
- Which of several errors is reported first, where an input has more than one: outcomes say that a call raises, and
  the kinds are told apart only where a later step depends on it.
- heapq's layout: `Sampler.Push` keeps the heap list in order, of which only the least entry and the multiset are
  used.
- Loss values, GPU memory, tokenizer and parameter checks of the training backend: each is a point where a call may
  raise.
- `recover_transfer_control_requests` and `materialize_resolution_canary_cases`, the in-memory
  `build_repository_split`, and the staging of single files: they add only members of the kinds already here.
- Command line, containers, sandboxes, downloads, reports and configuration models.
- Artifacts.EndsTruthfully: an aborted call's bytes are not spoken of, because nothing of it was published.
