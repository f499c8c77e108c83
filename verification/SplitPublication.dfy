/** From the tables of a built split to what a reader of the published manifest learns. */
module SplitPublication {
  import opened Cursors
  import opened Wrappers
  import opened Json
  import opened SplitWriter
  import opened SplitReader
  import opened SplitRoundTrip
  import A = Aliases
  import C = Contamination
  import F = Fingerprints
  import S = SampleRows
  import G = Components
  import J = Assignments
  import P = SplitSafety
  import L = SplitFields

  /** iter_repositories: the repositories of one split, in order. */
  function RepositoriesIn(split: map<Name, C.Split>, which: C.Split): seq<Name> {
    Cursors.Ascending(set r | r in split && split[r] == which)
  }

  function Printed(text: Name -> string, names: seq<Name>): (texts: seq<string>)
    ensures |texts| == |names| && forall i :: 0 <= i < |names| ==> texts[i] == text(names[i])
  {
    seq(|names|, i requires 0 <= i < |names| => text(names[i]))
  }

  /** The manifest prints the repository lists of the table. */
  predicate Lists(m: Manifest, text: Name -> string, split: map<Name, C.Split>) {
    && m.train == Printed(text, RepositoriesIn(split, C.Train))
    && m.evaluation == Printed(text, RepositoriesIn(split, C.Evaluation))
    && m.excluded == Printed(text, RepositoriesIn(split, C.Excluded))
  }

  /** Each name in the table is its own canonical form. */
  ghost predicate FixedPoints(cfg: SplitReader.Settings, text: Name -> string, split: map<Name, C.Split>) {
    forall r :: r in split ==> cfg.canonical(text(r)) == Some(r)
  }

  lemma {:induction false} ListPrints(cfg: SplitReader.Settings, text: Name -> string, split: map<Name, C.Split>,
                                      which: C.Split)
    requires FixedPoints(cfg, text, split)
    ensures Prints(cfg, Printed(text, RepositoriesIn(split, which)), RepositoriesIn(split, which))
    ensures forall r :: r in RepositoriesIn(split, which) <==> r in split && split[r] == which
  {
    var names := RepositoriesIn(split, which);
    forall i | 0 <= i < |names| ensures cfg.canonical(text(names[i])) == Some(names[i]) {
      assert names[i] in names;
    }
  }

  /** A reader of the published manifest learns exactly the split the tables hold. */
  lemma {:induction false} ReaderLearnsSplit(cfg: SplitReader.Settings, text: Name -> string,
                                             split: map<Name, C.Split>, m: Manifest)
    requires FixedPoints(cfg, text, split) && Lists(m, text, split)
    ensures EvidenceOf(cfg, NodeOf(Object(ManifestFields(m)))).Some?
    ensures var e := EvidenceOf(cfg, NodeOf(Object(ManifestFields(m)))).value;
            && (forall r :: r in e.train <==> r in split && split[r] == C.Train)
            && (forall r :: r in e.evaluation <==> r in split && split[r] == C.Evaluation)
            && (forall r :: r in e.excluded <==> r in split && split[r] == C.Excluded)
  {
    ListPrints(cfg, text, split, C.Train);
    ListPrints(cfg, text, split, C.Evaluation);
    ListPrints(cfg, text, split, C.Excluded);
    RoundTrip(cfg, m, RepositoriesIn(split, C.Train), RepositoriesIn(split, C.Evaluation),
              RepositoriesIn(split, C.Excluded));
  }

  /** So no reader can train on a repository while evaluating on one that holds a duplicate of its samples. */
  lemma {:induction false} ReaderNeverLeaks(cfg: SplitReader.Settings, text: Name -> string, m: Manifest,
                                            settings: S.Settings, samples: seq<S.Sample>,
                                            benchmarks: seq<S.Benchmark>, groups: G.Groups, t: C.Snapshot,
                                            i: nat, j: nat)
    requires P.Safe(settings, samples, benchmarks, groups, t) && i < |samples| && j < |samples|
    requires P.Visible(settings, samples[i]) && P.Visible(settings, samples[j])
             && P.Duplicates(settings, samples[i], samples[j])
    requires FixedPoints(cfg, text, t.split) && Lists(m, text, t.split)
    ensures S.RepositoryOf(settings, samples[i]).Some? && S.RepositoryOf(settings, samples[j]).Some?
    ensures EvidenceOf(cfg, NodeOf(Object(ManifestFields(m)))).Some?
    ensures var e := EvidenceOf(cfg, NodeOf(Object(ManifestFields(m)))).value;
            var a, b := S.RepositoryOf(settings, samples[i]).value, S.RepositoryOf(settings, samples[j]).value;
            && (a in e.train <==> b in e.train) && (a in e.evaluation <==> b in e.evaluation)
            && (a in e.excluded <==> b in e.excluded)
  {
    ReaderLearnsSplit(cfg, text, t.split, m);
    P.NoLeak(settings, samples, benchmarks, groups, t, i, j);
  }

  // The whole program.

  /** The arguments of write_repository_split_manifest, with what is printed of them. evidenceValue gives the evidence
      as a JSON value, config the digest of the configuration. */
  datatype Arguments = Arguments(
    options: P.Options, aliases: seq<A.Pair>, text: Name -> string,
    evidenceValue: C.Evidence -> Value, config: map<Name, Name> -> string,
    aliasesSha256: Value, evaluationFraction: string, inputBytes: int, inputSha256: string, seed: string)

  predicate Digest(s: string) {
    |s| == 64 && forall i :: 0 <= i < |s| ==> s[i] in "0123456789abcdef"
  }

  /** The options with the resolved aliases in place. */
  function Aliased(o: P.Options, links: map<Name, Name>): P.Options {
    o.(aliases := links)
  }

  /** The aliases can be resolved. */
  ghost predicate Resolvable(args: Arguments, d: map<Name, Name>) {
    && A.AllReadable(args.options.canonical, args.aliases) && !A.Contradictory(args.options.canonical, args.aliases)
    && A.Holds(args.options.canonical, args.aliases, |args.aliases|, d) && !A.Cyclic(d)
  }

  predicate ArgumentsOk(args: Arguments) {
    0.0 < args.options.evaluationFraction < 1.0 && Digest(args.inputSha256) && args.inputBytes >= 0
  }

  /** With these aliases the build accepts the input. */
  ghost predicate Buildable(args: Arguments, links: map<Name, Name>, samples: seq<S.Sample>,
                            benchmarks: seq<S.Benchmark>)
  {
    && 0.0 < args.options.threshold <= 1.0
    && S.Acceptable(P.Configured(Aliased(args.options, links)), samples, benchmarks)
  }

  /** The manifest prints these tables and this evidence. */
  ghost predicate Describes(m: Manifest, args: Arguments, cfg: S.Settings, samples: seq<S.Sample>, t: C.Snapshot,
                            e: C.Evidence)
  {
    && Lists(m, args.text, t.split) && J.Tells(cfg, args.text, t, samples, m.assignments)
    && m.sampleCount == |samples| && m.inputBytes == args.inputBytes && m.inputSha256 == args.inputSha256
    && m.decontamination == args.evidenceValue(e) && m.configDigest == args.config(cfg.aliases)
    && m.aliasesSha256 == args.aliasesSha256 && m.evaluationFraction == args.evaluationFraction && m.seed == args.seed
  }

  method Describe(args: Arguments, links: map<Name, Name>, t: C.Snapshot, e: C.Evidence, ghost cfg: S.Settings,
                  ghost samples: seq<S.Sample>, ghost benchmarks: seq<S.Benchmark>, ghost groups: G.Groups)
    returns (m: Manifest)
    requires ArgumentsOk(args) && P.Safe(cfg, samples, benchmarks, groups, t) && cfg.aliases == links
    ensures Describes(m, args, cfg, samples, t, e)
  {
    var assignments := J.IterAssignments(args.text, t, cfg, samples, benchmarks, groups);
    P.TableSize(cfg, samples, |samples|);
    m := Manifest(
      args.aliasesSha256, assignments, args.config(links), args.evidenceValue(e), args.evaluationFraction,
      args.inputBytes, args.inputSha256, Printed(args.text, RepositoriesIn(t.split, C.Evaluation)),
      Printed(args.text, RepositoriesIn(t.split, C.Excluded)), Printed(args.text, RepositoriesIn(t.split, C.Train)),
      |t.sampleRepo|, args.seed);
  }

  /** The text is the canonical JSON of a manifest that describes the tables and the evidence of a safe split. */
  ghost predicate Told(args: Arguments, links: map<Name, Name>, samples: seq<S.Sample>, benchmarks: seq<S.Benchmark>,
                       m: Manifest, out: string, groups: G.Groups, t: C.Snapshot, e: C.Evidence)
  {
    && 0.0 < args.options.threshold <= 1.0
    && out == Canon(Object(ManifestFields(m))) + "\n"
    && var cfg := P.Configured(Aliased(args.options, links));
       && P.Safe(cfg, samples, benchmarks, groups, t) && C.Reported(cfg, benchmarks, t, e)
       && Describes(m, args, cfg, samples, t, e)
  }

  /** The index, and what is streamed from it. */
  method BuildAndPrint(args: Arguments, links: map<Name, Name>, samples: seq<S.Sample>, benchmarks: seq<S.Benchmark>)
    returns (written: bool, m: Manifest, out: string, ghost groups: G.Groups, ghost t: C.Snapshot, ghost e: C.Evidence)
    requires F.MatcherBounded(args.options.matcher) && ArgumentsOk(args)
    ensures written <==> Buildable(args, links, samples, benchmarks)
    ensures written ==> Told(args, links, samples, benchmarks, m, out, groups, t, e)
    ensures out == if written then Canon(Object(ManifestFields(m))) + "\n" else ""
  {
    var outcome, index, evidence;
    outcome, index, evidence, groups := P.BuildContaminationIndex(Aliased(args.options, links), samples, benchmarks);
    if outcome.Fail? {
      written, m, out := false, NO_MANIFEST, "";
      t, e := *, *;
      return;
    }
    t, e := index.Contents(), evidence.value;
    ghost var cfg := P.Configured(Aliased(args.options, links));
    m := Describe(args, links, index.Contents(), evidence.value, cfg, samples, benchmarks, groups);
    out := WriteJson(m);
    written := true;
  }

  const NO_MANIFEST := Manifest(Null, [], "", Null, "", 0, "", [], [], [], 0, "")

  /** The direct links d of the alias arguments resolve to links, and with these the build accepts the input. */
  ghost predicate AcceptedWith(args: Arguments, samples: seq<S.Sample>, benchmarks: seq<S.Benchmark>,
                               d: map<Name, Name>, links: map<Name, Name>)
  {
    Resolvable(args, d) && A.Follows(d, links) && Buildable(args, links, samples, benchmarks)
  }

  /** The condition for a split to be written, on the arguments and the input alone. */
  ghost predicate Accepted(args: Arguments, samples: seq<S.Sample>, benchmarks: seq<S.Benchmark>) {
    ArgumentsOk(args) && exists d, links :: AcceptedWith(args, samples, benchmarks, d, links)
  }

  predicate HexDigit(c: char) {
    '0' <= c <= '9' || 'a' <= c <= 'f'
  }

  /** The arguments that are refused whatever the input: a fraction that is none, a negative size, and a digest that is
      not one of 64 lower-case hexadecimal digits. */
  lemma {:induction false} ArgumentsExactly(args: Arguments)
    ensures ArgumentsOk(args) <==>
              && 0.0 < args.options.evaluationFraction < 1.0 && args.inputBytes >= 0 && |args.inputSha256| == 64
              && forall i :: 0 <= i < |args.inputSha256| ==> HexDigit(args.inputSha256[i])
  {
    forall c: char ensures c in "0123456789abcdef" <==> HexDigit(c) {
      HexDigitsListed(c);
    }
  }

  lemma {:induction false} HexDigitsListed(c: char)
    ensures c in "0123456789abcdef" <==> HexDigit(c)
  {
    var digits := "0123456789abcdef";
    if '0' <= c <= '9' { assert digits[c as int - '0' as int] == c; }
    if 'a' <= c <= 'f' { assert digits[c as int - 'a' as int + 10] == c; }
  }

  lemma {:induction false} CyclicIsRefused(args: Arguments, d: map<Name, Name>, other: map<Name, Name>)
    requires A.Holds(args.options.canonical, args.aliases, |args.aliases|, d) && A.Cyclic(d)
    ensures !Resolvable(args, other)
  {
    if Resolvable(args, other) {
      A.OrderIsIrrelevant(args.options.canonical, args.aliases, args.aliases, d, other);
    }
  }

  lemma {:induction false} LinksAreUnique(args: Arguments, d: map<Name, Name>, links: map<Name, Name>,
                                          samples: seq<S.Sample>, benchmarks: seq<S.Benchmark>)
    requires Resolvable(args, d) && A.Follows(d, links) && ArgumentsOk(args)
    ensures Accepted(args, samples, benchmarks) <==> Buildable(args, links, samples, benchmarks)
  {
    if Buildable(args, links, samples, benchmarks) {
      assert AcceptedWith(args, samples, benchmarks, d, links);
    }
    if Accepted(args, samples, benchmarks) {
      var other, more :| AcceptedWith(args, samples, benchmarks, other, more);
      A.SameAliases(args.options.canonical, args.aliases, args.aliases, d, other, links, more);
    }
  }

  lemma {:induction false} UnresolvedIsRefused(args: Arguments, d: map<Name, Name>, samples: seq<S.Sample>,
                                               benchmarks: seq<S.Benchmark>)
    requires A.AllReadable(args.options.canonical, args.aliases) ==>
               A.Contradictory(args.options.canonical, args.aliases)
               || (A.Holds(args.options.canonical, args.aliases, |args.aliases|, d) && A.Cyclic(d))
    ensures !Accepted(args, samples, benchmarks)
  {
    if Accepted(args, samples, benchmarks) {
      var other, more :| AcceptedWith(args, samples, benchmarks, other, more);
      CyclicIsRefused(args, d, other);
    }
  }

  /** write_repository_split_manifest up to the text it publishes: resolve the aliases, build the index, print it. */
  method WriteRepositorySplit(args: Arguments, samples: seq<S.Sample>, benchmarks: seq<S.Benchmark>)
    returns (written: bool, m: Manifest, out: string, ghost d: map<Name, Name>, ghost links: map<Name, Name>,
             ghost groups: G.Groups, ghost t: C.Snapshot, ghost e: C.Evidence)
    requires F.MatcherBounded(args.options.matcher)
    ensures written <==> Accepted(args, samples, benchmarks)
    ensures written ==> AcceptedWith(args, samples, benchmarks, d, links)
    ensures written ==> Told(args, links, samples, benchmarks, m, out, groups, t, e)
    ensures out == if written then Canon(Object(ManifestFields(m))) + "\n" else ""
    ensures written ==> ArgumentsOk(args) && m.inputBytes == args.inputBytes && m.sampleCount == |samples|
  {
    written, m, out, d, links := false, NO_MANIFEST, "", map[], map[];
    groups, t, e := *, *, *;
    if !ArgumentsOk(args) { return; }
    var resolution;
    resolution, d := A.ResolvedAliases(args.options.canonical, args.aliases);
    if !resolution.Resolved? {
      UnresolvedIsRefused(args, d, samples, benchmarks);
      return;
    }
    links := resolution.links;
    LinksAreUnique(args, d, links, samples, benchmarks);
    written, m, out, groups, t, e := BuildAndPrint(args, resolution.links, samples, benchmarks);
  }

  /** A name is printed in the list of a split if and only if that is its split. */
  lemma {:induction false} PrintedIn(reader: SplitReader.Settings, text: Name -> string, split: map<Name, C.Split>,
                                     which: C.Split, r: Name)
    requires FixedPoints(reader, text, split) && r in split
    ensures text(r) in Printed(text, RepositoriesIn(split, which)) <==> split[r] == which
  {
    var names := RepositoriesIn(split, which);
    ListPrints(reader, text, split, which);
    if split[r] == which {
      var i :| 0 <= i < |names| && names[i] == r;
      assert Printed(text, names)[i] == text(r);
    }
    if text(r) in Printed(text, names) {
      var i :| 0 <= i < |names| && Printed(text, names)[i] == text(r);
      assert names[i] in names && reader.canonical(text(names[i])) == reader.canonical(text(r));
    }
  }

  /** The rows and the lists of a manifest agree: the split named in a row is that of the list which holds the row's
      repository, and the contamination group is filed with it. */
  lemma {:induction false} RowsAndListsAgree(reader: SplitReader.Settings, args: Arguments, cfg: S.Settings,
                                             samples: seq<S.Sample>, t: C.Snapshot, e: C.Evidence, m: Manifest, j: nat)
    requires Describes(m, args, cfg, samples, t, e) && FixedPoints(reader, args.text, t.split) && j < |m.assignments|
    requires forall r :: r in t.split ==> t.split[r] != C.Unassigned
    ensures m.assignments[j].split == "train" <==> m.assignments[j].repository in m.train
    ensures m.assignments[j].split == "evaluation" <==> m.assignments[j].repository in m.evaluation
    ensures m.assignments[j].split == "excluded" <==> m.assignments[j].repository in m.excluded
  {
    assert J.SampleExists(cfg, args.text, t, samples, m.assignments[j]);
    var i :| 0 <= i < |samples| && J.RowTells(cfg, args.text, t, samples[i], m.assignments[j]);
    var r := S.RepositoryOf(cfg, samples[i]).value;
    PrintedIn(reader, args.text, t.split, C.Train, r);
    PrintedIn(reader, args.text, t.split, C.Evaluation, r);
    PrintedIn(reader, args.text, t.split, C.Excluded, r);
    NamesDiffer();
  }

  lemma {:induction false} NamesDiffer()
    ensures J.SplitName(C.Train) == "train" && J.SplitName(C.Evaluation) == "evaluation"
    ensures J.SplitName(C.Excluded) == "excluded"
    ensures "train" != "evaluation" && "train" != "excluded" && "evaluation" != "excluded"
  {
    assert |"train"| == 5 && |"evaluation"| == 10 && |"excluded"| == 8;
  }

  // What the aliases come to.

  /** A pair of two different repositories is resolved as a link of d. */
  lemma {:induction false} PairIsLink(args: Arguments, d: map<Name, Name>, p: nat)
    requires Resolvable(args, d) && p < |args.aliases|
    ensures var alias, target := args.options.canonical(args.aliases[p].alias),
                                 args.options.canonical(args.aliases[p].target);
            alias.Some? && target.Some? && (alias != target ==> alias.value in d && d[alias.value] == target.value)
  {
    assert A.Readable(args.options.canonical, args.aliases[p]);
    var alias, target := args.options.canonical(args.aliases[p].alias), args.options.canonical(args.aliases[p].target);
    if alias != target {
      assert A.Says(args.options.canonical, args.aliases[p], alias.value, target.value);
      assert A.Told(args.options.canonical, args.aliases, |args.aliases|, alias.value, target.value);
    }
  }

  lemma {:induction false} LinkIsGone(cfg: S.Settings, d: map<Name, Name>, samples: seq<S.Sample>,
                                      benchmarks: seq<S.Benchmark>, groups: G.Groups, t: C.Snapshot, alias: Name)
    requires P.Safe(cfg, samples, benchmarks, groups, t) && A.Follows(d, cfg.aliases) && alias in d
    ensures alias !in t.parent && alias !in t.split
  {
    if alias in t.parent {
      var i := L.FromSample(cfg, samples, |samples|, alias);
      A.AppliedTwice(d, cfg.aliases, cfg.canonical(samples[i].repository).value);
    }
  }

  /** No alias is left as a repository of its own: each has gone into what it stands for. */
  lemma {:induction false} AliasesAreGone(args: Arguments, d: map<Name, Name>, links: map<Name, Name>,
                                          samples: seq<S.Sample>, benchmarks: seq<S.Benchmark>, m: Manifest,
                                          out: string, groups: G.Groups, t: C.Snapshot, e: C.Evidence, p: nat)
    requires AcceptedWith(args, samples, benchmarks, d, links)
    requires Told(args, links, samples, benchmarks, m, out, groups, t, e) && p < |args.aliases|
    ensures var alias, target := args.options.canonical(args.aliases[p].alias),
                                 args.options.canonical(args.aliases[p].target);
            alias.Some? && target.Some? && (alias != target ==> alias.value !in t.parent && alias.value !in t.split)
  {
    PairIsLink(args, d, p);
    var alias, cfg := args.options.canonical(args.aliases[p].alias), P.Configured(Aliased(args.options, links));
    if alias.value in d { LinkIsGone(cfg, d, samples, benchmarks, groups, t, alias.value); }
  }

  /** Samples of an alias and of its target are samples of one repository, hence on one side. */
  lemma {:induction false} AliasIsTarget(args: Arguments, d: map<Name, Name>, links: map<Name, Name>,
                                         samples: seq<S.Sample>, benchmarks: seq<S.Benchmark>, m: Manifest,
                                         out: string, groups: G.Groups, t: C.Snapshot, e: C.Evidence, p: nat,
                                         i: nat, j: nat)
    requires AcceptedWith(args, samples, benchmarks, d, links)
    requires Told(args, links, samples, benchmarks, m, out, groups, t, e)
    requires p < |args.aliases| && i < |samples| && j < |samples|
    requires args.options.canonical(samples[i].repository) == args.options.canonical(args.aliases[p].alias)
    requires args.options.canonical(samples[j].repository) == args.options.canonical(args.aliases[p].target)
    ensures samples[i].id in t.sampleRepo && samples[j].id in t.sampleRepo
    ensures t.sampleRepo[samples[i].id] == t.sampleRepo[samples[j].id]
    ensures t.sampleRepo[samples[i].id] in t.split
  {
    var cfg := P.Configured(Aliased(args.options, links));
    PairIsLink(args, d, p);
    L.FiledUnder(cfg, samples, benchmarks, groups, t, i);
    L.FiledUnder(cfg, samples, benchmarks, groups, t, j);
    A.AppliedTwice(d, links, args.options.canonical(samples[i].repository).value);
  }

  /** From the input to the reader: whoever reads what this program wrote finds duplicates on one side. */
  lemma {:induction false} WrittenNeverLeaks(args: Arguments, links: map<Name, Name>, samples: seq<S.Sample>,
                                             benchmarks: seq<S.Benchmark>, m: Manifest, out: string, groups: G.Groups,
                                             t: C.Snapshot, e: C.Evidence, reader: SplitReader.Settings, i: nat, j: nat)
    requires Told(args, links, samples, benchmarks, m, out, groups, t, e) && i < |samples| && j < |samples|
    requires var cfg := P.Configured(Aliased(args.options, links));
             P.Visible(cfg, samples[i]) && P.Visible(cfg, samples[j]) && P.Duplicates(cfg, samples[i], samples[j])
    requires FixedPoints(reader, args.text, t.split)
    ensures var cfg := P.Configured(Aliased(args.options, links));
            S.RepositoryOf(cfg, samples[i]).Some? && S.RepositoryOf(cfg, samples[j]).Some?
    ensures EvidenceOf(reader, NodeOf(Object(ManifestFields(m)))).Some?
    ensures var cfg, read := P.Configured(Aliased(args.options, links)),
                             EvidenceOf(reader, NodeOf(Object(ManifestFields(m)))).value;
            var a, b := S.RepositoryOf(cfg, samples[i]).value, S.RepositoryOf(cfg, samples[j]).value;
            && (a in read.train <==> b in read.train) && (a in read.evaluation <==> b in read.evaluation)
            && (a in read.excluded <==> b in read.excluded)
  {
    var cfg := P.Configured(Aliased(args.options, links));
    ReaderNeverLeaks(reader, args.text, m, cfg, samples, benchmarks, groups, t, i, j);
  }
}
