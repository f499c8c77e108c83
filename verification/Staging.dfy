/** Recursive capture of a file tree, and exact verification against a captured identity. */
module Staging {
  import opened Cursors
  import opened Wrappers

  /** A path is its parts; names order as the directory listing does. */
  type Path = seq<Name>

  datatype Tree = File(digest: Name, size: nat) | Directory(children: Children) | Symlink | Special
  datatype Children = NoChildren | Child(name: Name, tree: Tree, rest: Children)

  datatype FileIdentity = FileIdentity(path: Path, digest: Name, size: nat)

  /** regular_file_tree_identity: its sorted tuple of files, no path twice, is their set. */
  datatype Identity = Identity(files: set<FileIdentity>)

  // What a tree holds.

  predicate FileAt(children: Children, prefix: Path, f: FileIdentity)
    decreases children
  {
    match children
    case NoChildren => false
    case Child(name, tree, rest) =>
      || FileAt(rest, prefix, f)
      || match tree
         case File(digest, size) => f == FileIdentity(prefix + [name], digest, size)
         case Directory(sub) => FileAt(sub, prefix + [name], f)
         case _ => false
  }

  predicate DirectoryAt(children: Children, prefix: Path, p: Path)
    decreases children
  {
    match children
    case NoChildren => false
    case Child(name, tree, rest) =>
      || DirectoryAt(rest, prefix, p)
      || (tree.Directory? && (p == prefix + [name] || DirectoryAt(tree.children, prefix + [name], p)))
  }

  /** Only regular files and directories. */
  predicate Plain(children: Children) {
    match children
    case NoChildren => true
    case Child(_, tree, rest) => Plain(rest) && (tree.File? || (tree.Directory? && Plain(tree.children)))
  }

  /** The names that hold no backslash. A listed name is never empty, "." or "..", and holds no slash. */
  type Legal = Name -> bool

  /** RegularFileIdentity refuses every other path. */
  predicate LegalPath(legal: Legal, path: Path) {
    forall i :: 0 <= i < |path| ==> legal(path[i])
  }

  /** The visitor does not raise. */
  predicate Readable(legal: Legal, children: Children, prefix: Path)
    decreases children
  {
    match children
    case NoChildren => true
    case Child(name, tree, rest) => ReadableEntry(legal, tree, prefix + [name]) && Readable(legal, rest, prefix)
  }

  predicate ReadableEntry(legal: Legal, tree: Tree, path: Path)
    decreases tree
  {
    match tree
    case File(_, _) => LegalPath(legal, path)
    case Directory(sub) => Readable(legal, sub, path)
    case _ => false
  }

  /** It raises exactly on a symbolic link, on a special file, and on a regular file with a backslash in its path;
      a directory with one is met in silence when no file is beneath it. */
  lemma {:induction false} ReadableExactly(legal: Legal, children: Children, prefix: Path)
    ensures Readable(legal, children, prefix) <==>
              && Plain(children)
              && forall f :: FileAt(children, prefix, f) ==> forall i :: 0 <= i < |f.path| ==> legal(f.path[i])
    decreases children
  {
    match children
    case NoChildren =>
    case Child(name, tree, rest) =>
      var path := prefix + [name];
      ReadableExactly(legal, rest, prefix);
      match tree {
        case File(digest, size) =>
          assert FileAt(children, prefix, FileIdentity(path, digest, size));
        case Directory(sub) =>
          ReadableExactly(legal, sub, path);
        case _ =>
      }
  }

  predicate Named(children: Children, name: Name) {
    match children
    case NoChildren => false
    case Child(n, _, rest) => n == name || Named(rest, name)
  }

  /** Names in one directory differ. */
  predicate WellFormed(children: Children) {
    match children
    case NoChildren => true
    case Child(name, tree, rest) =>
      !Named(rest, name) && WellFormed(rest) && (tree.Directory? ==> WellFormed(tree.children))
  }

  // The visitor.

  /** The files in the order the visitor appends them. */
  function Visited(children: Children, prefix: Path): seq<FileIdentity>
    decreases children
  {
    match children
    case NoChildren => []
    case Child(name, tree, rest) => VisitedEntry(tree, prefix + [name]) + Visited(rest, prefix)
  }

  function VisitedEntry(tree: Tree, path: Path): seq<FileIdentity>
    decreases tree
  {
    match tree
    case File(digest, size) => [FileIdentity(path, digest, size)]
    case Directory(sub) => Visited(sub, path)
    case _ => []
  }

  function DirectoriesIn(children: Children, prefix: Path): (directories: set<Path>)
    ensures forall p :: p in directories <==> DirectoryAt(children, prefix, p)
    decreases children
  {
    match children
    case NoChildren => {}
    case Child(name, tree, rest) => DirectoriesEntry(tree, prefix + [name]) + DirectoriesIn(rest, prefix)
  }

  function DirectoriesEntry(tree: Tree, path: Path): (directories: set<Path>)
    ensures forall p :: p in directories <==> tree.Directory? && (p == path || DirectoryAt(tree.children, path, p))
    decreases tree
  {
    if tree.Directory? then {path} + DirectoriesIn(tree.children, path) else {}
  }

  lemma {:induction false} VisitedAreFiles(children: Children, prefix: Path, f: FileIdentity)
    ensures f in Visited(children, prefix) <==> FileAt(children, prefix, f)
    decreases children
  {
    match children
    case NoChildren =>
    case Child(name, tree, rest) =>
      VisitedAreFiles(rest, prefix, f);
      match tree {
        case Directory(sub) => VisitedAreFiles(sub, prefix + [name], f);
        case _ =>
      }
  }

  class Capture {
    const legal: Legal
    var files: seq<FileIdentity>
    var directories: set<Path>

    constructor (legal: Legal)
      ensures this.legal == legal && files == [] && directories == {}
    {
      this.legal := legal;
      files, directories := [], {};
    }

    /** visit */
    method Visit(children: Children, prefix: Path) returns (plain: bool)
      modifies this
      ensures plain <==> Readable(legal, children, prefix)
      ensures plain ==> files == old(files) + Visited(children, prefix)
      ensures plain ==> directories == old(directories) + DirectoriesIn(children, prefix)
      decreases children
    {
      var entries := children;
      ghost var files0, directories0 := files, directories;
      while entries.Child?
        invariant Readable(legal, children, prefix) <==> Readable(legal, entries, prefix)
        invariant files + Visited(entries, prefix) == files0 + Visited(children, prefix)
        invariant directories + DirectoriesIn(entries, prefix) == directories0 + DirectoriesIn(children, prefix)
        decreases entries
      {
        ghost var more := VisitedEntry(entries.tree, prefix + [entries.name]);
        assert files + (more + Visited(entries.rest, prefix)) == files + more + Visited(entries.rest, prefix);
        plain := VisitEntry(entries.tree, prefix + [entries.name]);
        if !plain { return; }
        entries := entries.rest;
      }
      plain := true;
    }

    /** One round of the loop of visit. */
    method VisitEntry(tree: Tree, path: Path) returns (plain: bool)
      modifies this
      ensures plain <==> ReadableEntry(legal, tree, path)
      ensures plain ==> files == old(files) + VisitedEntry(tree, path)
      ensures plain ==> directories == old(directories) + DirectoriesEntry(tree, path)
      decreases tree
    {
      match tree
      case Directory(sub) =>
        directories := directories + {path};
        plain := Visit(sub, path);
      case File(digest, size) =>
        plain := LegalPath(legal, path);
        if plain { files := files + [FileIdentity(path, digest, size)]; }
      case _ => plain := false;
    }
  }

  // Paths.

  predicate Under(p: Path, prefix: Path) {
    |prefix| < |p| && p[..|prefix|] == prefix
  }

  /** Everything below a directory has its path in front, and the next part is the name of a child. */
  lemma {:induction false} FilesUnder(children: Children, prefix: Path, f: FileIdentity)
    requires FileAt(children, prefix, f)
    ensures Under(f.path, prefix) && Named(children, f.path[|prefix|])
    decreases children
  {
    match children
    case Child(name, tree, rest) =>
      if FileAt(rest, prefix, f) {
        FilesUnder(rest, prefix, f);
      } else if tree.Directory? {
        FilesUnder(tree.children, prefix + [name], f);
      }
  }

  lemma {:induction false} DirectoriesUnder(children: Children, prefix: Path, p: Path)
    requires DirectoryAt(children, prefix, p)
    ensures Under(p, prefix)
    decreases children
  {
    match children
    case Child(name, tree, rest) =>
      if DirectoryAt(rest, prefix, p) {
        DirectoriesUnder(rest, prefix, p);
      } else if p != prefix + [name] {
        DirectoriesUnder(tree.children, prefix + [name], p);
      }
  }

  predicate DistinctPaths(files: seq<FileIdentity>) {
    forall i, j :: 0 <= i < j < |files| ==> files[i].path != files[j].path
  }

  /** The visitor never meets a path twice. */
  lemma {:induction false} VisitedDistinct(children: Children, prefix: Path)
    requires WellFormed(children)
    ensures DistinctPaths(Visited(children, prefix))
    decreases children
  {
    match children
    case NoChildren =>
    case Child(name, tree, rest) =>
      VisitedDistinct(rest, prefix);
      forall g | g in Visited(rest, prefix) ensures Under(g.path, prefix) && Named(rest, g.path[|prefix|]) {
        VisitedAreFiles(rest, prefix, g);
        FilesUnder(rest, prefix, g);
      }
      match tree {
        case Directory(sub) =>
          VisitedDistinct(sub, prefix + [name]);
          forall g | g in Visited(sub, prefix + [name]) ensures Under(g.path, prefix) && g.path[|prefix|] == name {
            VisitedAreFiles(sub, prefix + [name], g);
            FilesUnder(sub, prefix + [name], g);
          }
        case File(digest, size) =>
        case _ =>
      }
  }

  // Prefix closure.

  /** _expected_directories: every proper nonempty prefix of a file path. */
  ghost predicate IsExpected(files: set<FileIdentity>, p: Path) {
    p != [] && exists f :: f in files && Under(f.path, p)
  }

  /** The inner loop of _expected_directories has added the prefixes of one path up to a length. */
  ghost predicate PrefixesAdded(before: set<Path>, after: set<Path>, p: Path, n: nat) {
    forall q :: q in after <==> q in before || (q != [] && |q| <= n && Under(p, q))
  }

  /** _expected_directories */
  method ExpectedDirectories(identity: Identity) returns (directories: set<Path>)
    ensures forall p :: p in directories <==> IsExpected(identity.files, p)
  {
    directories := {};
    var rest := identity.files;
    ghost var done: set<FileIdentity> := {};
    while rest != {}
      invariant done + rest == identity.files && done !! rest
      invariant forall p :: p in directories <==> IsExpected(done, p)
      decreases |rest|
    {
      var f :| f in rest;
      rest := rest - {f};
      directories := AddPrefixes(directories, f, done);
      done := done + {f};
    }
    assert done == identity.files;
  }

  /** The prefixes of the directory part of one path. */
  method AddPrefixes(directories0: set<Path>, f: FileIdentity, ghost done: set<FileIdentity>)
    returns (directories: set<Path>)
    requires forall p :: p in directories0 <==> IsExpected(done, p)
    ensures forall p :: p in directories <==> IsExpected(done + {f}, p)
  {
    directories := directories0;
    if f.path != [] {
      var parts := f.path[..|f.path| - 1];
      for end := 1 to |parts| + 1
        invariant PrefixesAdded(directories0, directories, f.path, end - 1)
      {
        assert parts[..end] == f.path[..end];
        directories := directories + {parts[..end]};
      }
    }
    forall p ensures p in directories <==> IsExpected(done + {f}, p) {
      if p in directories && p !in directories0 { assert f in done + {f} && Under(f.path, p); }
      if IsExpected(done, p) {
        var g :| g in done && Under(g.path, p);
        assert g in done + {f};
      }
    }
  }

  /** A file's directories are there: the prefix closure of the files is part of the tree. */
  lemma {:induction false} DirectoriesAbove(children: Children, prefix: Path, f: FileIdentity, p: Path)
    requires FileAt(children, prefix, f) && Under(f.path, p) && |prefix| < |p|
    ensures DirectoryAt(children, prefix, p)
    decreases children
  {
    match children
    case Child(name, tree, rest) =>
      if FileAt(rest, prefix, f) {
        DirectoriesAbove(rest, prefix, f, p);
      } else if tree.Directory? {
        FilesUnder(tree.children, prefix + [name], f);
        if |p| == |prefix| + 1 {
          assert p == f.path[..|prefix| + 1] == prefix + [name];
        } else {
          DirectoriesAbove(tree.children, prefix + [name], f, p);
        }
      }
  }

  /** What the documentation of an identity promises of a tree: exactly its files, and no directory without one. */
  ghost predicate Matches(children: Children, expected: Identity) {
    && Plain(children)
    && (forall f :: f in expected.files <==> FileAt(children, [], f))
    && forall p :: DirectoryAt(children, [], p) ==> HasFileUnder(children, p)
  }

  ghost predicate HasFileUnder(children: Children, p: Path) {
    exists f :: FileAt(children, [], f) && Under(f.path, p)
  }

  /** The walk's directories are the prefix closure of its files iff every directory has a file beneath it. */
  lemma {:induction false} DirectoriesAreClosure(children: Children, files: set<FileIdentity>)
    requires forall f :: f in files <==> FileAt(children, [], f)
    ensures (forall p :: DirectoryAt(children, [], p) <==> IsExpected(files, p))
            <==> forall p :: DirectoryAt(children, [], p) ==> HasFileUnder(children, p)
  {
    forall p | IsExpected(files, p) ensures DirectoryAt(children, [], p) {
      var f :| f in files && Under(f.path, p);
      DirectoriesAbove(children, [], f, p);
    }
    forall p | DirectoryAt(children, [], p) ensures IsExpected(files, p) <==> HasFileUnder(children, p) {
      DirectoriesUnder(children, [], p);
      if f :| FileAt(children, [], f) && Under(f.path, p) { assert f in files; }
    }
  }

  /** regular_file_tree_identity: there must be files, and no path twice. */
  function IdentityOf(files: seq<FileIdentity>): (identity: Option<Identity>)
    ensures identity.Some? <==> files != [] && DistinctPaths(files)
    ensures identity.Some? ==> forall f :: f in identity.value.files <==> f in files
  {
    if files == [] || !DistinctPaths(files) then None else Some(Identity(set f | f in files))
  }

  /** verify_regular_file_tree accepts exactly the trees the identity promises. */
  method VerifyTree(legal: Legal, root: Tree, expected: Identity) returns (accepted: bool)
    requires expected.files != {} && forall f :: f in expected.files ==> LegalPath(legal, f.path)
    requires root.Directory? ==> WellFormed(root.children)
    ensures accepted <==> root.Directory? && Matches(root.children, expected)
  {
    if !root.Directory? { return false; }
    var capture := new Capture(legal);
    var plain := capture.Visit(root.children, []);
    ReadableExactly(legal, root.children, []);
    if !plain { return false; }
    assert capture.files == Visited(root.children, []) && capture.directories == DirectoriesIn(root.children, []);
    VisitedDistinct(root.children, []);
    forall f ensures f in capture.files <==> FileAt(root.children, [], f) {
      VisitedAreFiles(root.children, [], f);
    }
    var observed := IdentityOf(capture.files);
    if observed != Some(expected) {
      if observed.Some? { SameFiles(observed.value, expected); }
      return false;
    }
    DirectoriesAreClosure(root.children, expected.files);
    var directories := ExpectedDirectories(expected);
    accepted := capture.directories == directories;
  }

  lemma {:induction false} SameFiles(a: Identity, b: Identity)
    ensures (forall f :: f in a.files <==> f in b.files) ==> a == b
  {
    if forall f :: f in a.files <==> f in b.files {
      assert a.files == b.files;
    }
  }
}
