/** Which documents the split reader accepts and what it returns for them, said by looking keys up instead of by the
    order in which the program meets them. */
module ManifestDocument {
  import opened Cursors
  import opened Integers
  import opened Wrappers
  import opened YamlEvents
  import opened SplitReader

  /** The value of the first entry with this key. */
  function ValueAt(entries: Entries, key: string): Option<Node> {
    match entries
    case NoEntries => None
    case Entry(k, value, rest) => if k == Leaf(key) then Some(value) else ValueAt(rest, key)
  }

  /** All keys are scalars, and no two are the same. */
  predicate PlainKeys(entries: Entries) {
    match entries
    case NoEntries => true
    case Entry(k, _, rest) => k.Leaf? && ValueAt(rest, k.value).None? && PlainKeys(rest)
  }

  /** None of these keys occurs. */
  ghost predicate NoneOf(keys: set<string>, entries: Entries) {
    forall k :: k in keys ==> ValueAt(entries, k).None?
  }

  // Values: absent, or of the right kind and then taken.

  predicate TextGiven(n: Option<Node>, before: Option<string>, text: Option<string>) {
    match n
    case None => text == before
    case Some(node) => node.Leaf? && text == Some(node.value)
  }

  predicate CountGiven(n: Option<Node>, before: Option<nat>, count: Option<nat>) {
    match n
    case None => count == before
    case Some(node) =>
      && node.Leaf? && ParseInt(node.value).Some? && ParseInt(node.value).value >= 0
      && count == Some(ParseInt(node.value).value as nat)
  }

  predicate ListGiven(n: Option<Node>, before: seq<string>, texts: seq<string>) {
    match n
    case None => texts == before
    case Some(node) => node.Sequence? && Leaves(node.items) == Some(texts)
  }

  predicate ListsGiven(entries: Entries, before: Lists, lists: Lists) {
    && ListGiven(ValueAt(entries, "train"), before.train, lists.train)
    && ListGiven(ValueAt(entries, "evaluation"), before.evaluation, lists.evaluation)
    && ListGiven(ValueAt(entries, "excluded"), before.excluded, lists.excluded)
  }

  predicate RepositoriesGiven(n: Option<Node>, before: Option<Lists>, lists: Option<Lists>) {
    match n
    case None => lists == before
    case Some(node) => lists.Some? && AreRepositories(node, lists.value)
  }

  /** A mapping with at least the lists train and evaluation; excluded may be missing. */
  predicate AreRepositories(node: Node, lists: Lists) {
    && node.Mapping? && PlainKeys(node.entries) && ListsGiven(node.entries, Lists([], [], []), lists)
    && ValueAt(node.entries, "train").Some? && ValueAt(node.entries, "evaluation").Some?
  }

  predicate AllGiven(entries: Entries, before: Collected, c: Collected) {
    && TextGiven(ValueAt(entries, "schema_version"), before.schema, c.schema)
    && RepositoriesGiven(ValueAt(entries, "repositories"), before.repositories, c.repositories)
    && TextGiven(ValueAt(entries, "input_sha256"), before.inputSha256, c.inputSha256)
    && CountGiven(ValueAt(entries, "input_bytes"), before.inputBytes, c.inputBytes)
    && CountGiven(ValueAt(entries, "sample_count"), before.sampleCount, c.sampleCount)
  }

  // The loops take what looking up finds.

  lemma {:induction false} ListsLookUp(entries: Entries, seen: set<string>, before: Lists, lists: Lists)
    ensures ListsOf(entries, seen, before) == Some(lists) <==>
              && PlainKeys(entries) && NoneOf(seen, entries) && ListsGiven(entries, before, lists)
              && ("train" in seen || ValueAt(entries, "train").Some?)
              && ("evaluation" in seen || ValueAt(entries, "evaluation").Some?)
  {
    if entries.Entry? && entries.key.Leaf? {
      var k, value, rest := entries.key.value, entries.value, entries.rest;
      NoneOfMore(seen, entries);
      if !IsSplit(k) {
        ListsLookUp(rest, seen + {k}, before, lists);
      } else if value.Sequence? && Leaves(value.items).Some? {
        ListsLookUp(rest, seen + {k}, WithList(before, k, Leaves(value.items).value), lists);
      }
    }
  }

  /** The key of the first entry joins those met before. */
  lemma {:induction false} NoneOfMore(seen: set<string>, entries: Entries)
    requires entries.Entry? && entries.key.Leaf?
    ensures var k := entries.key.value;
            NoneOf(seen, entries) && ValueAt(entries.rest, k).None? <==>
              k !in seen && NoneOf(seen + {k}, entries.rest)
  {
    var k := entries.key.value;
    if k !in seen && NoneOf(seen + {k}, entries.rest) {
      assert k in seen + {k};
      forall j | j in seen ensures ValueAt(entries, j).None? { assert j in seen + {k}; }
    }
  }

  lemma {:induction false} RepositoriesLookUp(node: Node, lists: Lists)
    ensures RepositoriesOf(node) == Some(lists) <==> AreRepositories(node, lists)
  {
    if node.Mapping? { ListsLookUp(node.entries, {}, Lists([], [], []), lists); }
  }

  /** One entry, and then the rest. */
  lemma {:induction false} TakeThenRest(k: string, value: Node, rest: Entries, before: Collected, c: Collected)
    requires ValueAt(rest, k).None?
    ensures AllGiven(Entry(Leaf(k), value, rest), before, c) <==>
              Take(before, k, value).Some? && AllGiven(rest, Take(before, k, value).value, c)
  {
    if k == "repositories" {
      if c.repositories.Some? { RepositoriesLookUp(value, c.repositories.value); }
      if RepositoriesOf(value).Some? { RepositoriesLookUp(value, RepositoriesOf(value).value); }
    }
  }

  lemma {:induction false} RootLooksUp(entries: Entries, seen: set<string>, before: Collected, c: Collected)
    ensures CollectedFrom(entries, seen, before) == Some(c) <==>
              PlainKeys(entries) && NoneOf(seen, entries) && AllGiven(entries, before, c)
    decreases entries
  {
    if entries.Entry? && entries.key.Leaf? {
      var k, value, rest := entries.key.value, entries.value, entries.rest;
      NoneOfMore(seen, entries);
      if ValueAt(rest, k).None? { TakeThenRest(k, value, rest, before, c); }
      if Take(before, k, value).Some? { RootLooksUp(rest, seen + {k}, Take(before, k, value).value, c); }
    }
  }

  // The checks behind the document.

  /** The names are the canonical forms of the texts, each once and in order. */
  ghost predicate Named(cfg: Settings, texts: seq<string>, names: seq<Name>) {
    && StrictlyIncreasing(names)
    && (forall i :: 0 <= i < |texts| ==> cfg.canonical(texts[i]).Some? && cfg.canonical(texts[i]).value in names)
    && forall x :: x in names ==> exists i :: 0 <= i < |texts| && cfg.canonical(texts[i]) == Some(x)
  }

  predicate NoneShared(a: seq<Name>, b: seq<Name>) {
    forall x :: x in a ==> x !in b
  }

  lemma {:induction false} NamesExactly(cfg: Settings, texts: seq<string>, names: seq<Name>)
    ensures Named(cfg, texts, names) <==> AllNamed(cfg, texts) && Cursors.Ascending(Names(cfg, texts)) == names
  {
    if AllNamed(cfg, texts) {
      var listed := Cursors.Ascending(Names(cfg, texts));
      forall x ensures x in listed <==> exists i :: 0 <= i < |texts| && cfg.canonical(texts[i]) == Some(x) {
        if x in listed { assert x in Names(cfg, texts); }
        if i :| 0 <= i < |texts| && cfg.canonical(texts[i]) == Some(x) { assert x in Names(cfg, texts); }
      }
      if Named(cfg, texts, names) { AscendingUnique(listed, names); }
    }
  }

  lemma {:induction false} JudgedExactly(cfg: Settings, c: Collected, e: Evidence)
    ensures Judged(cfg, c) == Some(e) <==>
              && c.schema == Some("nodelm.repository-split/v1") && c.repositories.Some?
              && Named(cfg, c.repositories.value.train, e.train)
              && Named(cfg, c.repositories.value.evaluation, e.evaluation)
              && Named(cfg, c.repositories.value.excluded, e.excluded)
              && NoneShared(e.train, e.evaluation) && NoneShared(e.train, e.excluded)
              && NoneShared(e.evaluation, e.excluded)
              && e.inputSha256 == c.inputSha256 && e.inputBytes == c.inputBytes && e.sampleCount == c.sampleCount
  {
    if c.repositories.Some? {
      var lists := c.repositories.value;
      NamesExactly(cfg, lists.train, e.train);
      NamesExactly(cfg, lists.evaluation, e.evaluation);
      NamesExactly(cfg, lists.excluded, e.excluded);
      if AllNamed(cfg, lists.train) && AllNamed(cfg, lists.evaluation) && AllNamed(cfg, lists.excluded) {
        SharedExactly(Names(cfg, lists.train), Names(cfg, lists.evaluation));
        SharedExactly(Names(cfg, lists.train), Names(cfg, lists.excluded));
        SharedExactly(Names(cfg, lists.evaluation), Names(cfg, lists.excluded));
      }
    }
  }

  lemma {:induction false} SharedExactly(a: set<Name>, b: set<Name>)
    ensures a !! b <==> NoneShared(Cursors.Ascending(a), Cursors.Ascending(b))
  {
  }

  /** The document is a split manifest that says e. */
  ghost predicate SaysSplit(cfg: Settings, root: Node, e: Evidence) {
    && root.Mapping? && PlainKeys(root.entries)
    && ValueAt(root.entries, "schema_version") == Some(Leaf("nodelm.repository-split/v1"))
    && (exists lists :: ListsSay(cfg, ValueAt(root.entries, "repositories"), lists, e))
    && NoneShared(e.train, e.evaluation) && NoneShared(e.train, e.excluded) && NoneShared(e.evaluation, e.excluded)
    && TextGiven(ValueAt(root.entries, "input_sha256"), None, e.inputSha256)
    && CountGiven(ValueAt(root.entries, "input_bytes"), None, e.inputBytes)
    && CountGiven(ValueAt(root.entries, "sample_count"), None, e.sampleCount)
  }

  ghost predicate ListsSay(cfg: Settings, n: Option<Node>, lists: Lists, e: Evidence) {
    && n.Some? && AreRepositories(n.value, lists)
    && Named(cfg, lists.train, e.train) && Named(cfg, lists.evaluation, e.evaluation)
    && Named(cfg, lists.excluded, e.excluded)
  }

  /** Reading a document gives e if and only if the document is a split manifest that says e. */
  lemma {:induction false} EvidenceExactly(cfg: Settings, root: Node, e: Evidence)
    ensures EvidenceOf(cfg, root) == Some(e) <==> SaysSplit(cfg, root, e)
  {
    if root.Mapping? {
      if SaysSplit(cfg, root, e) { SaidIsRead(cfg, root, e); }
      if EvidenceOf(cfg, root) == Some(e) {
        var c := CollectedFrom(root.entries, {}, NOTHING).value;
        RootLooksUp(root.entries, {}, NOTHING, c);
        JudgedExactly(cfg, c, e);
        assert ListsSay(cfg, ValueAt(root.entries, "repositories"), c.repositories.value, e);
      }
    }
  }

  lemma {:induction false} SaidIsRead(cfg: Settings, root: Node, e: Evidence)
    requires SaysSplit(cfg, root, e)
    ensures EvidenceOf(cfg, root) == Some(e)
  {
    var lists :| ListsSay(cfg, ValueAt(root.entries, "repositories"), lists, e);
    var c := Collected(Some("nodelm.repository-split/v1"), Some(lists), e.inputSha256, e.inputBytes, e.sampleCount);
    RootLooksUp(root.entries, {}, NOTHING, c);
    JudgedExactly(cfg, c, e);
  }
}
