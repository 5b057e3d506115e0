/** The two work-list walks over a directory tree: the stack that rejects reparse points before an
    uninstall, and the queue that retains every entry of an installed release. */
module TreeWalk {
  import opened Basics
  import opened Checksums
  import opened Paths
  import opened ShellTransaction

  datatype Entry =
    | Folder(reparse: bool)
    | Document(reparse: bool, links: nat, size: nat, digest: string)

  type Tree = map<Path, Entry>

  /** Everything below `root` lies in a folder of the tree. */
  ghost predicate Rooted(tree: Tree, root: Path) {
    && root in tree
    && forall p :: p in tree && root < p ==> Parent(p) in tree && tree[Parent(p)].Folder?
  }

  function Children(tree: Tree, d: Path): set<Path> { set p | p in tree && d < p && |p| == |d| + 1 }

  /** What a listing of `paths` yields, in some order and without repetition. */
  method Listing(paths: set<Path>) returns (listed: seq<Path>)
    ensures Distinct(listed) && forall p :: p in listed <==> p in paths
  {
    listed := [];
    var rest := paths;
    while rest != {}
      invariant rest <= paths && Distinct(listed)
      invariant forall p :: p in listed <==> p in paths && p !in rest
    {
      var p :| p in rest;
      listed, rest := listed + [p], rest - {p};
    }
  }

  /** A set that holds the root and the children of each of its folders holds the whole tree. */
  lemma {:induction false} ClosedHoldsAll(tree: Tree, root: Path, closed: set<Path>, p: Path)
    requires Rooted(tree, root) && root in closed && p in tree && root <= p
    requires forall d :: d in closed && d in tree && tree[d].Folder? ==> Children(tree, d) <= closed
    ensures p in closed
    decreases |p|
  {
    if p != root {
      assert root < p && root <= Parent(p);
      ClosedHoldsAll(tree, root, closed, Parent(p));
      assert p in Children(tree, Parent(p));
    }
  }

  /** The state of a walk: what is done, what is pending, and that each entry is met only once. */
  ghost predicate Walking(tree: Tree, root: Path, done: set<Path>, pending: seq<Path>) {
    && done <= tree.Keys && Distinct(pending)
    && (root in done || root in pending)
    && (forall p :: p in pending ==> p in tree && root <= p && p !in done)
    && (forall p :: (p in pending || p in done) && p != root ==> root < p && Parent(p) in done)
  }

  /** Taking one pending folder and listing some of its children keeps the walk going. */
  lemma WalkOn(tree: Tree, root: Path, done: set<Path>, before: seq<Path>, current: Path, after: seq<Path>, listed: seq<Path>)
    requires Rooted(tree, root) && Walking(tree, root, done, before + [current] + after)
    requires Distinct(listed) && forall p :: p in listed ==> p in Children(tree, current)
    ensures Walking(tree, root, done + {current}, before + after + listed)
  {
    hide Distinct, Rooted;
    var pending, next := before + [current] + after, before + after + listed;
    assert forall p :: p in pending <==> p in before || p == current || p in after;
    ListedIsNew(tree, root, done, pending, current, listed);
    hide Children;
    assert forall p :: p in next <==> p in before || p in after || p in listed;
    SpliceMiss(before, current, after);
    DistinctSplice(before, current, after, listed);
  }

  /** A child of a pending folder is neither pending nor done: its only parent is not done yet. */
  lemma ListedIsNew(tree: Tree, root: Path, done: set<Path>, pending: seq<Path>, current: Path, listed: seq<Path>)
    requires Walking(tree, root, done, pending) && current in pending
    requires forall p :: p in listed ==> p in Children(tree, current)
    ensures forall p :: p in listed ==>
      p in tree && root < p && Parent(p) == current && p !in pending && p !in done && p != current
  {
    forall p | p in listed ensures p in tree && root < p && Parent(p) == current {
      assert p in Children(tree, current);
    }
  }

  lemma SpliceMiss<T>(before: seq<T>, current: T, after: seq<T>)
    requires Distinct(before + [current] + after)
    ensures current !in before && current !in after
  {
    var pending := before + [current] + after;
    var n := |before|;
    forall i | 0 <= i < n ensures before[i] != current {
      assert pending[i] != pending[n];
    }
    forall i | 0 <= i < |after| ensures after[i] != current {
      assert pending[n] != pending[n + 1 + i];
    }
  }

  lemma DistinctSplice<T>(before: seq<T>, current: T, after: seq<T>, listed: seq<T>)
    requires Distinct(before + [current] + after) && Distinct(listed)
    requires forall p :: p in listed ==> p !in before && p !in after
    ensures Distinct(before + after + listed)
  {
    var pending, next, half := before + [current] + after, before + after + listed, |before| + |after|;
    forall i, j | 0 <= i < j < |next| ensures next[i] != next[j] {
      if j < half {
        assert next[i] == pending[if i < |before| then i else i + 1];
        assert next[j] == pending[if j < |before| then j else j + 1];
      } else if i < half {
        assert next[j] == listed[j - half];
        assert next[i] in before || next[i] in after;
      } else {
        assert next[i] == listed[i - half] && next[j] == listed[j - half];
      }
    }
  }

  /** RejectReparseTree: accepts exactly the trees without a reparse point. */
  method RejectReparseTree(tree: Tree, root: Path) returns (accepted: bool)
    requires Rooted(tree, root)
    ensures accepted <==> forall p :: p in tree && root <= p ==> !tree[p].reparse
  {
    var pending := [root];
    ghost var done: set<Path> := {};
    while pending != []
      invariant Walking(tree, root, done, pending)
      invariant forall p :: p in done ==> !tree[p].reparse
      invariant forall d :: d in done && tree[d].Folder? ==> forall p :: p in Children(tree, d) ==> p in done || p in pending
      decreases tree.Keys - done
    {
      var path, rest := pending[|pending| - 1], pending[..|pending| - 1];
      assert pending == rest + [path] + [] && path in pending;
      if tree[path].reparse {
        return false;
      }
      var children := [];
      if tree[path].Folder? {
        children := Listing(Children(tree, path));
      }
      WalkOn(tree, root, done, rest, path, [], children);
      assert forall p :: p in pending ==> p == path || p in rest;
      done := done + {path};
      pending := rest + [] + children;
    }
    forall p | p in tree && root <= p ensures p in done {
      ClosedHoldsAll(tree, root, done, p);
    }
    accepted := true;
  }

  ghost predicate SubfoldersMet(tree: Tree, d: Path, done: set<Path>, pending: seq<Path>) {
    forall p :: p in Children(tree, d) && tree[p].Folder? ==> p in done || p in pending
  }

  lemma PendingFolder(tree: Tree, root: Path, done: set<Path>, pending: seq<Path>)
    requires Walking(tree, root, done, pending) && pending != []
    ensures pending[0] in pending && pending[0] in tree && root <= pending[0] && pending[0] !in done
    ensures forall p :: p in Children(tree, pending[0]) && tree[p].Folder? ==> p in Folders(tree, root)
  {
    assert pending[0] in pending;
  }

  /** Dequeuing a folder and enqueuing all its subfolders. */
  lemma DequeueOne(tree: Tree, root: Path, done: set<Path>, pending: seq<Path>, listed: seq<Path>)
    requires Rooted(tree, root) && Walking(tree, root, done, pending) && pending != [] && Distinct(listed)
    requires forall d :: d in done ==> SubfoldersMet(tree, d, done, pending)
    requires forall p :: p in listed <==> p in Children(tree, pending[0]) && tree[p].Folder?
    ensures Walking(tree, root, done + {pending[0]}, pending[1..] + listed)
    ensures forall d :: d in done + {pending[0]} ==>
      SubfoldersMet(tree, d, done + {pending[0]}, pending[1..] + listed)
  {
    var current, rest := pending[0], pending[1..];
    assert pending == [] + [current] + rest && rest + listed == [] + rest + listed;
    WalkOn(tree, root, done, [], current, rest, listed);
    hide Walking, Rooted, Distinct, Children;
    assert forall p :: p in pending ==> p == current || p in rest;
    assert forall p :: p in rest + listed <==> p in rest || p in listed;
  }

  // ---------------------------------------------------------------- the guard

  predicate Safe(e: Entry) { !e.reparse && (e.Document? ==> e.links == 1) }

  ghost predicate AllSafe(tree: Tree, root: Path) {
    forall p :: p in tree && root <= p ==> Safe(tree[p])
  }

  /** Nothing in the tree is redirected, and no file is known under a second name. */
  ghost predicate Unshared(tree: Tree, root: Path) {
    forall p :: p in tree && root <= p ==>
      match tree[p]
      case Folder(reparse) => reparse == false
      case Document(reparse, links, _, _) => reparse == false && links == 1
  }

  lemma SafeMeans(tree: Tree, root: Path)
    ensures AllSafe(tree, root) <==> Unshared(tree, root)
  {
    if Unshared(tree, root) {
      forall p | p in tree && root <= p ensures Safe(tree[p]) {
        assert match tree[p] case Folder(reparse) => true case Document(reparse, links, _, _) => links == 1;
      }
    }
  }

  function Folders(tree: Tree, root: Path): set<Path> { set p | p in tree && root <= p && tree[p].Folder? }

  function Documents(tree: Tree, root: Path): set<Path> { set p | p in tree && root <= p && tree[p].Document? }

  /** The open handles of Setup: while one is held its entry stays in the tree, so the tree does
      not change under the guard. */
  class DirectoryGuard {
    var directories: set<Path>
    var files: set<Path>

    constructor ()
      ensures directories == {} && files == {}
    {
      directories, files := {}, {};
    }

    /** Only safe entries of the tree are ever retained. */
    ghost predicate Holds(tree: Tree)
      reads this
    {
      && (forall d :: d in directories ==> d in tree && tree[d].Folder? && Safe(tree[d]))
      && (forall f :: f in files ==> f in tree && tree[f].Document? && Safe(tree[f]))
    }

    method RetainExistingDirectory(tree: Tree, path: Path) returns (ok: bool)
      requires Holds(tree) && path in tree && tree[path].Folder?
      modifies `directories
      ensures Holds(tree) && (ok <==> Safe(tree[path]))
      ensures directories == old(directories) + if ok then {path} else {}
    {
      if path in directories {
        return true;
      }
      if !Safe(tree[path]) {
        return false;
      }
      directories := directories + {path};
      ok := true;
    }

    method RetainExistingFile(tree: Tree, path: Path) returns (ok: bool)
      requires Holds(tree) && path in tree && tree[path].Document?
      modifies `files
      ensures Holds(tree) && (ok <==> Safe(tree[path]))
      ensures files == old(files) + if ok then {path} else {}
    {
      if path in files {
        return true;
      }
      if !Safe(tree[path]) {
        return false;
      }
      files := files + {path};
      ok := true;
    }

    /** Retains and returns the subfolders of one dequeued folder, stopping at an unsafe one. */
    method RetainSubfolders(tree: Tree, current: Path) returns (ok: bool, listed: seq<Path>)
      requires Holds(tree)
      modifies `directories
      ensures Holds(tree) && Distinct(listed)
      ensures forall p :: p in listed ==> p in Children(tree, current) && tree[p].Folder?
      ensures old(directories) <= directories
      ensures directories <= old(directories) + (set p | p in Children(tree, current) && tree[p].Folder?)
      ensures ok <==> forall p :: p in Children(tree, current) && tree[p].Folder? ==> Safe(tree[p])
      ensures ok ==> forall p :: p in Children(tree, current) && tree[p].Folder? ==> p in listed && p in directories
    {
      var folders := set p | p in Children(tree, current) && tree[p].Folder?;
      listed := Listing(folders);
      ghost var before := directories;
      for i := 0 to |listed|
        invariant Holds(tree)
        invariant before <= directories <= before + folders
        invariant forall k :: 0 <= k < i ==> listed[k] in directories
      {
        assert listed[i] in listed;
        var retained := RetainExistingDirectory(tree, listed[i]);
        if !retained {
          return false, listed;
        }
      }
      assert forall p :: p in folders ==> p in listed && p in directories;
      ok := true;
    }

    method RetainDocuments(tree: Tree, directory: Path) returns (ok: bool)
      requires Holds(tree)
      modifies `files
      ensures Holds(tree)
      ensures old(files) <= files
      ensures files <= old(files) + (set p | p in Children(tree, directory) && tree[p].Document?)
      ensures ok <==> forall p :: p in Children(tree, directory) && tree[p].Document? ==> Safe(tree[p])
      ensures ok ==> forall p :: p in Children(tree, directory) && tree[p].Document? ==> p in files
    {
      var documents := set p | p in Children(tree, directory) && tree[p].Document?;
      var listed := Listing(documents);
      ghost var before := files;
      for i := 0 to |listed|
        invariant Holds(tree)
        invariant before <= files <= before + documents
        invariant forall k :: 0 <= k < i ==> listed[k] in files
      {
        assert listed[i] in listed;
        var retained := RetainExistingFile(tree, listed[i]);
        if !retained {
          return false;
        }
      }
      ok := true;
    }

    /** The queue: breadth first over folders. A folder already held is walked again. */
    method RetainFolders(tree: Tree, root: Path) returns (ok: bool)
      requires Rooted(tree, root) && tree[root].Folder? && Holds(tree)
      modifies `directories
      ensures Holds(tree)
      ensures ok <==> forall d :: d in Folders(tree, root) ==> Safe(tree[d])
      ensures ok ==> Folders(tree, root) <= directories
      ensures old(directories) <= directories <= old(directories) + Folders(tree, root)
    {
      ghost var before := directories;
      ok := RetainExistingDirectory(tree, root);
      if !ok {
        return;
      }
      var pending := [root];
      ghost var done: set<Path> := {};
      while pending != []
        invariant Holds(tree) && Walking(tree, root, done, pending)
        invariant forall p :: p in pending ==> p in directories
        invariant done <= directories
        invariant forall d :: d in done ==> SubfoldersMet(tree, d, done, pending)
        invariant before <= directories <= before + Folders(tree, root)
        decreases tree.Keys - done
      {
        hide Rooted, Walking, SubfoldersMet, Safe;
        var current, rest := pending[0], pending[1..];
        PendingFolder(tree, root, done, pending);
        var retained, listed := RetainSubfolders(tree, current);
        if !retained {
          return false;
        }
        DequeueOne(tree, root, done, pending, listed);
        done := done + {current};
        pending := rest + listed;
      }
      forall d | d in Folders(tree, root) ensures d in done {
        FoldersClosed(tree, root, done, d);
      }
    }

    /** RetainExistingTree: all folders first, then the files of every folder held under the root. */
    method RetainExistingTree(tree: Tree, root: Path) returns (ok: bool)
      requires Rooted(tree, root) && tree[root].Folder? && Holds(tree)
      modifies this
      ensures Holds(tree) && (ok <==> AllSafe(tree, root))
      ensures ok <==> Unshared(tree, root)
      ensures ok ==> directories == old(directories) + Folders(tree, root)
      ensures ok ==> files == old(files) + Documents(tree, root)
      ensures ok ==> forall p ::
        p in directories <==> p in old(directories) || (p in tree && root <= p && tree[p].Folder?)
      ensures ok ==> forall p ::
        p in files <==> p in old(files) || (p in tree && root <= p && tree[p].Document?)
    {
      SafeMeans(tree, root);
      hide Unshared;
      ok := RetainFolders(tree, root);
      if !ok {
        return;
      }
      ok := RetainAllDocuments(tree, root);
    }

    method RetainAllDocuments(tree: Tree, root: Path) returns (ok: bool)
      requires Rooted(tree, root) && tree[root].Folder? && Holds(tree) && Folders(tree, root) <= directories
      modifies `files
      ensures Holds(tree) && (ok <==> forall p :: p in Documents(tree, root) ==> Safe(tree[p]))
      ensures ok ==> files == old(files) + Documents(tree, root)
    {
      var listed := Listing(set d | d in directories && root <= d);
      ghost var before := files;
      for i := 0 to |listed|
        invariant Holds(tree)
        invariant before <= files <= before + Documents(tree, root)
        invariant forall k :: 0 <= k < i ==> Gathered(tree, listed[k])
      {
        assert listed[i] in listed;
        DocumentsOf(tree, root, listed[i]);
        var retained := RetainDocuments(tree, listed[i]);
        if !retained {
          return false;
        }
      }
      forall p | p in Documents(tree, root) ensures Safe(tree[p]) && p in files {
        InParent(tree, root, p);
        assert Parent(p) in listed;
      }
      ok := true;
    }

    /** Every file of the folder is safe and held. */
    ghost predicate Gathered(tree: Tree, d: Path)
      reads `files
    {
      forall p :: p in Children(tree, d) && tree[p].Document? ==> Safe(tree[p]) && p in files
    }
  }

  lemma DocumentsOf(tree: Tree, root: Path, d: Path)
    requires root <= d
    ensures forall p :: p in Children(tree, d) && tree[p].Document? ==> p in Documents(tree, root)
  {
    assert forall p :: p in Children(tree, d) ==> d < p;
  }

  lemma InParent(tree: Tree, root: Path, p: Path)
    requires Rooted(tree, root) && p in tree && root <= p && p != root
    ensures Parent(p) in Folders(tree, root) && p in Children(tree, Parent(p))
  {
    assert root < p && root <= Parent(p);
  }

  lemma {:induction false} FoldersClosed(tree: Tree, root: Path, done: set<Path>, d: Path)
    requires Rooted(tree, root) && root in done && d in Folders(tree, root)
    requires forall e :: e in done ==> SubfoldersMet(tree, e, done, [])
    ensures d in done
    decreases |d|
  {
    if d != root {
      assert root < d && root <= Parent(d);
      FoldersClosed(tree, root, done, Parent(d));
      assert d in Children(tree, Parent(d));
    }
  }

  // ---------------------------------------------------------------- the exactness check

  /** Names as a Windows directory can hold them, and digests as the hash prints them. */
  ghost predicate Named(tree: Tree) {
    && (forall p, i :: p in tree && 0 <= i < |p| ==> '/' !in p[i])
    && (forall p :: p in tree && tree[p].Document? ==> IsSha256(tree[p].digest))
  }

  /** The path below the root, as the manifest writes it. */
  function RelativeName(root: Path, p: Path): string
    requires root < p
  {
    Join(p[|root|..], '/')
  }

  lemma NameFindsPath(tree: Tree, root: Path, p: Path)
    requires Named(tree) && p in tree && root < p
    ensures root + Split(RelativeName(root, p), '/') == p
  {
    assert forall i :: 0 <= i < |p| - |root| ==> p[|root|..][i] == p[|root| + i];
    SplitJoin(p[|root|..], '/');
  }

  function Names(root: Path, paths: set<Path>): set<string> {
    set p | p in paths && root < p :: RelativeName(root, p)
  }

  /** The composition on disk is the manifest's: the same names, sizes and digests. */
  ghost predicate Exact(tree: Tree, root: Path, manifest: map<string, InventoryItem>) {
    && Names(root, Documents(tree, root)) == manifest.Keys
    && forall p :: p in Documents(tree, root) && root < p ==> Agrees(tree, root, p, manifest)
  }

  /** Every file below the root is listed under its name with its size and digest, and every name
      listed is that of a file below the root. */
  ghost predicate Complete(tree: Tree, root: Path, manifest: map<string, InventoryItem>) {
    && (forall p :: p in tree && root < p && tree[p].Document? ==>
          var name := Join(p[|root|..], '/');
          name in manifest && manifest[name].sha256 == tree[p].digest && manifest[name].sizeBytes == tree[p].size)
    && (forall name :: name in manifest ==>
          exists p :: p in tree && root < p && tree[p].Document? && Join(p[|root|..], '/') == name)
  }

  lemma CompleteIff(tree: Tree, root: Path, manifest: map<string, InventoryItem>)
    ensures Exact(tree, root, manifest) <==> Complete(tree, root, manifest)
  {
    if Exact(tree, root, manifest) {
      forall p | p in tree && root < p && tree[p].Document?
        ensures Agrees(tree, root, p, manifest)
      {
        assert p in Documents(tree, root);
      }
      forall name | name in manifest
        ensures exists p :: p in tree && root < p && tree[p].Document? && Join(p[|root|..], '/') == name
      {
        assert name in Names(root, Documents(tree, root));
      }
    }
    if Complete(tree, root, manifest) {
      forall name ensures name in Names(root, Documents(tree, root)) <==> name in manifest {
        if p :| name in manifest && p in tree && root < p && tree[p].Document? && Join(p[|root|..], '/') == name {
          assert p in Documents(tree, root) && RelativeName(root, p) == name;
        }
      }
    }
  }

  predicate Agrees(tree: Tree, root: Path, p: Path, manifest: map<string, InventoryItem>)
    requires p in tree && tree[p].Document? && root < p
  {
    && RelativeName(root, p) in manifest
    && manifest[RelativeName(root, p)] == InventoryItem(tree[p].digest, tree[p].size)
  }

  /** Every name stands for one file of the tree. */
  lemma NamedDocument(tree: Tree, root: Path, name: string)
    requires Named(tree) && name in Names(root, Documents(tree, root))
    ensures var path := root + Split(name, '/');
            path in Documents(tree, root) && root < path && RelativeName(root, path) == name
  {
    var p :| p in Documents(tree, root) && root < p && RelativeName(root, p) == name;
    NameFindsPath(tree, root, p);
  }

  /** ValidateExact returns exactly for a safe tree whose composition is the manifest's. */
  method ValidateExact(guard: DirectoryGuard, tree: Tree, root: Path, manifest: map<string, InventoryItem>)
    returns (exact: bool)
    requires Rooted(tree, root) && tree[root].Folder? && Named(tree) && guard.Holds(tree)
    requires forall name :: name in manifest ==> IsSha256(manifest[name].sha256)
    modifies guard
    ensures guard.Holds(tree)
    ensures exact <==> AllSafe(tree, root) && Exact(tree, root, manifest)
    ensures exact <==> Unshared(tree, root) && Complete(tree, root, manifest)
  {
    hide Rooted, AllSafe, Named, RelativeName, Unshared, Complete;
    CompleteIff(tree, root, manifest);
    SafeMeans(tree, root);
    var retained := guard.RetainExistingTree(tree, root);
    if !retained {
      return false;
    }
    var actual := Names(root, guard.files);
    assert actual == Names(root, Documents(tree, root)) by {
      assert forall p :: root < p ==> (p in guard.files <==> p in Documents(tree, root));
    }
    if actual != manifest.Keys {
      return false;
    }
    exact := ValidateFiles(tree, root, manifest);
  }

  method ValidateFiles(tree: Tree, root: Path, manifest: map<string, InventoryItem>) returns (agree: bool)
    requires Named(tree) && Names(root, Documents(tree, root)) == manifest.Keys
    requires forall name :: name in manifest ==> IsSha256(manifest[name].sha256)
    ensures agree <==> Exact(tree, root, manifest)
  {
    hide Named, RelativeName, Names, Agrees, FixedEqualsHex;
    var rest := manifest.Keys;
    while rest != {}
      invariant rest <= manifest.Keys
      invariant forall name :: name in manifest && name !in rest ==> AgreesAt(tree, root, name, manifest)
    {
      var name :| name in rest;
      var path := root + Split(name, '/');
      NamedDocument(tree, root, name);
      assert IsSha256(tree[path].digest) by { DigestsAreHex(tree, path); }
      FixedEqualsExact(tree[path].digest, manifest[name].sha256);
      AgreesMeans(tree, root, path, name, manifest);
      if tree[path].size != manifest[name].sizeBytes || !FixedEqualsHex(tree[path].digest, manifest[name].sha256) {
        return false;
      }
      rest := rest - {name};
    }
    forall p | p in Documents(tree, root) && root < p ensures Agrees(tree, root, p, manifest) {
      DocumentNamed(tree, root, p);
      AgreesMeans(tree, root, p, RelativeName(root, p), manifest);
    }
    agree := true;
  }

  /** The check of one manifest entry, on the file its name stands for. */
  predicate AgreesAt(tree: Tree, root: Path, name: string, manifest: map<string, InventoryItem>)
    requires name in manifest
  {
    var path := root + Split(name, '/');
    path in tree && tree[path].Document? && manifest[name] == InventoryItem(tree[path].digest, tree[path].size)
  }

  lemma DigestsAreHex(tree: Tree, p: Path)
    requires Named(tree) && p in tree && tree[p].Document?
    ensures IsSha256(tree[p].digest)
  {
  }

  lemma DocumentNamed(tree: Tree, root: Path, p: Path)
    requires Named(tree) && p in Documents(tree, root) && root < p
    ensures RelativeName(root, p) in Names(root, Documents(tree, root))
    ensures root + Split(RelativeName(root, p), '/') == p
  {
    NameFindsPath(tree, root, p);
  }

  lemma AgreesMeans(tree: Tree, root: Path, p: Path, name: string, manifest: map<string, InventoryItem>)
    requires p in tree && tree[p].Document? && root < p && RelativeName(root, p) == name && name in manifest
    requires root + Split(name, '/') == p
    ensures Agrees(tree, root, p, manifest) <==> AgreesAt(tree, root, name, manifest)
  {
  }
}
