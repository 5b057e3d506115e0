/** Uninstall: the install tree is moved aside, the shell identity is removed, and only then is
    the tree deleted; every failure on the way is compensated in reverse order. */
module Uninstall {
  import opened Basics
  import opened ShellTransaction
  import opened ShellIdentity

  const MAXIMUM_ATTEMPTS: nat := 100

  // ---------------------------------------------------------------- moving a tree

  function Rebase(p: Path, from: Path, to: Path): Path {
    if from <= p then to + p[|from|..] else p
  }

  predicate Vacant(s: Store, to: Path) {
    && (forall f :: f in s.files ==> !(to <= f))
    && (forall e :: e in s.dirs ==> !(to <= e))
  }

  predicate Movable(s: Store, from: Path, to: Path) {
    from in s.dirs && to != [] && Vacant(s, to) && Parent(to) in s.dirs && !(from <= to)
  }

  function Moved(s: Store, from: Path, to: Path): Store
    requires Movable(s, from, to)
  {
    assert forall f :: f in s.files ==> Rebase(Rebase(f, from, to), to, from) == f by {
      forall f | f in s.files ensures Rebase(Rebase(f, from, to), to, from) == f {
        RebaseBack(f, from, to);
      }
    }
    var names := set f | f in s.files :: Rebase(f, from, to);
    Store(map p | p in names :: s.files[Rebase(p, to, from)],
          (set e | e in s.dirs :: Rebase(e, from, to)),
          s.key)
  }

  function MoveTree(s: Store, from: Path, to: Path): Result<Store> {
    if Movable(s, from, to) then Success(Moved(s, from, to)) else Failure("cannot move the directory")
  }

  lemma RebaseBack(p: Path, from: Path, to: Path)
    requires !(to <= p)
    ensures Rebase(Rebase(p, from, to), to, from) == p
  {
    if from <= p {
      var q := to + p[|from|..];
      assert to <= q && q[|to|..] == p[|from|..];
    }
  }

  lemma ParentRebase(p: Path, from: Path, to: Path)
    requires p != [] && p != from && to != []
    ensures Rebase(p, from, to) != [] && Parent(Rebase(p, from, to)) == Rebase(Parent(p), from, to)
  {
    if from <= p {
      assert from <= Parent(p) && Parent(p)[|from|..] == p[|from|..|p| - 1];
    }
    ParentPrefix(p, from);
  }

  lemma ParentPrefix(p: Path, from: Path)
    requires p != []
    ensures from <= Parent(p) ==> from <= p
  {
    assert from <= Parent(p) ==> p[..|from|] == Parent(p)[..|from|];
  }

  lemma MovedLookup(s: Store, from: Path, to: Path, p: Path)
    requires Movable(s, from, to)
    ensures !(to <= p) ==> Lookup(Moved(s, from, to).files, p) == (if from <= p then None else Lookup(s.files, p))
    ensures !(to <= p) ==> (p in Moved(s, from, to).dirs <==> p in s.dirs && !(from <= p))
  {
    if !(to <= p) {
      forall q | q in s.files || q in s.dirs ensures Rebase(q, from, to) == p <==> q == p && !(from <= p) {
        assert from <= q ==> to <= Rebase(q, from, to);
      }
      if p in s.files && !(from <= p) {
        assert Rebase(p, from, to) == p && Rebase(p, to, from) == p;
      }
    }
  }

  lemma MoveKeepsWellFormed(s: Store, from: Path, to: Path)
    requires WellFormed(s) && Movable(s, from, to)
    ensures WellFormed(Moved(s, from, to))
  {
    var after := Moved(s, from, to);
    assert Rebase(Parent(to), from, to) == Parent(to) by { ParentPrefix(to, from); }
    forall d | d in after.dirs && d != [] ensures Parent(d) in after.dirs {
      var e :| e in s.dirs && Rebase(e, from, to) == d;
      if e != from && e != [] {
        ParentRebase(e, from, to);
        assert Rebase(Parent(e), from, to) in after.dirs;
      } else {
        assert e == from ==> d == to && Rebase(Parent(to), from, to) in after.dirs;
      }
    }
    forall f | f in after.files
      ensures f != [] && Parent(f) in after.dirs
      ensures f !in after.dirs
    {
      var g :| g in s.files && Rebase(g, from, to) == f;
      ParentRebase(g, from, to);
      assert Parent(g) in s.dirs && Rebase(Parent(g), from, to) in after.dirs;
      forall e | e in s.dirs ensures Rebase(e, from, to) != f {
        RebaseBack(e, from, to);
        RebaseBack(g, from, to);
      }
    }
  }

  /** Moving a tree aside and back changes nothing. */
  lemma MoveBack(s: Store, from: Path, to: Path)
    requires WellFormed(s) && Movable(s, from, to) && from != []
    ensures MoveTree(Moved(s, from, to), to, from) == Success(s)
  {
    var aside := Moved(s, from, to);
    assert !(to <= from) && Parent(from) in s.dirs && !(from <= Parent(from));
    assert to in aside.dirs by { assert Rebase(from, from, to) == to; }
    assert Parent(from) in aside.dirs by { assert Rebase(Parent(from), from, to) == Parent(from); }
    VacatedByMove(s, from, to);
    var back := Moved(aside, to, from);
    forall p ensures Lookup(back.files, p) == Lookup(s.files, p) {
      BackLookup(s, from, to, p);
    }
    SameLookups(back.files, s.files);
    BackDirectories(s, from, to);
  }

  lemma VacatedByMove(s: Store, from: Path, to: Path)
    requires Movable(s, from, to) && !(to <= from)
    ensures Vacant(Moved(s, from, to), from) && !(to <= from)
  {
    var aside := Moved(s, from, to);
    forall q: Path ensures !(from <= Rebase(q, from, to)) {
      ApartPrefixes(from, to, Rebase(q, from, to));
    }
  }

  lemma ApartPrefixes(a: Path, b: Path, p: Path)
    requires !(a <= b) && !(b <= a)
    ensures !(a <= p && b <= p)
  {
    assert a <= p && |b| <= |a| ==> p[..|b|] == a[..|b|];
    assert b <= p && |a| <= |b| ==> p[..|a|] == b[..|a|];
  }

  lemma BackLookup(s: Store, from: Path, to: Path, p: Path)
    requires Movable(s, from, to) && Movable(Moved(s, from, to), to, from)
    ensures Lookup(Moved(Moved(s, from, to), to, from).files, p) == Lookup(s.files, p)
  {
    var aside := Moved(s, from, to);
    var back := Moved(aside, to, from);
    if p in s.files {
      RebaseBack(p, from, to);
      assert Rebase(p, from, to) in aside.files;
    }
    if p in back.files {
      var q :| q in aside.files && Rebase(q, to, from) == p;
      var f :| f in s.files && Rebase(f, from, to) == q;
      RebaseBack(f, from, to);
    }
  }

  lemma BackDirectories(s: Store, from: Path, to: Path)
    requires Movable(s, from, to) && Movable(Moved(s, from, to), to, from)
    ensures Moved(Moved(s, from, to), to, from).dirs == s.dirs
  {
    var aside := Moved(s, from, to);
    var back := Moved(aside, to, from);
    forall p ensures p in back.dirs <==> p in s.dirs {
      if p in s.dirs {
        RebaseBack(p, from, to);
        assert Rebase(p, from, to) in aside.dirs;
      }
      if p in back.dirs {
        var q :| q in aside.dirs && Rebase(q, to, from) == p;
        var e :| e in s.dirs && Rebase(e, from, to) == q;
        RebaseBack(e, from, to);
      }
    }
  }

  // ---------------------------------------------------------------- removing the shell identity

  const INSTALL_LOCATION := "InstallLocation"

  predicate OtherRoot(key: Option<Values>, location: string) {
    && key.Some? && INSTALL_LOCATION in key.value && key.value[INSTALL_LOCATION].Text?
    && key.value[INSTALL_LOCATION].text != location
  }

  /** The registration names an install location, and it is another one. */
  ghost predicate NamesElsewhere(key: Option<Values>, location: string) {
    key.Some? && exists text :: text != location && (INSTALL_LOCATION, Text(text)) in key.value.Items
  }

  /** There is no registration, or none with a location in text, or it is this one. */
  predicate NamesHere(key: Option<Values>, location: string) {
    key == None || INSTALL_LOCATION !in key.value || key.value[INSTALL_LOCATION].Number? ||
    key.value[INSTALL_LOCATION] == Text(location)
  }

  lemma OwnerMeans(key: Option<Values>, location: string)
    ensures OtherRoot(key, location) <==> NamesElsewhere(key, location)
    ensures OtherRoot(key, location) <==> !NamesHere(key, location)
  {
    if key.Some? && INSTALL_LOCATION in key.value {
      assert (INSTALL_LOCATION, key.value[INSTALL_LOCATION]) in key.value.Items;
    }
  }

  /** Which deletion throws, and what it leaves behind. */
  datatype RemoveFault = NoFault | DeletingShortcuts(torn: Store) | DeletingKey(tornKey: Option<Values>)

  /** A torn deletion stays inside the tree, and does nothing to a tree that is not there. */
  ghost predicate Torn(d: Path, before: Store, after: Store) {
    && WellFormed(after) && OnlyInside(d, before, after) && after.key == before.key
    && (d !in before.dirs ==> after == before)
  }

  function RemovalLog(s: Store, d: Path): seq<Undo> {
    (if d in s.dirs then [RestoreTree(d, FilesUnder(s, d))] else []) + [RestoreKey(s.key)]
  }

  /** What Remove captures are the captures of the log. */
  lemma RemovalCaptures(s: Store, d: Path)
    ensures RemovalLog(s, d) == Push(Push([], s, CaptureTree(d)), s, CaptureKey)
  {
  }

  function WithoutTree(s: Store, d: Path): Store { if d in s.dirs then DeleteTree(s, d) else s }

  /** The same files and registration, without the directories of the tree that hold no file. */
  ghost function DropBare(s: Store, d: Path): Store {
    s.(dirs := set e | e in s.dirs && (!(d <= e) || HoldsFile(s, e)))
  }

  lemma DropBareIff(s: Store, d: Path)
    ensures DropBare(s, d) == s <==> NoBareDirectory(s, d)
  {
    assert DropBare(s, d) == s <==> DropBare(s, d).dirs == s.dirs;
  }

  lemma RemovalUndone(s: Store, now: Store, d: Path)
    requires WellFormed(s) && WellFormed(now) && OnlyInside(d, s, now)
    requires d !in s.dirs ==> now.files == s.files && now.dirs == s.dirs
    ensures UndoAll(RemovalLog(s, d), now) == (DropBare(s, d), [], true)
  {
    if d in s.dirs {
      assert RemovalLog(s, d) == [RestoreTree(d, FilesUnder(s, d)), RestoreKey(s.key)];
      DisposeRestoresRemoval(s, now, d);
    } else {
      assert RemovalLog(s, d)[..0] == [];
      forall e | e in s.dirs ensures !(d <= e) {
        NothingUnderMissing(s, d, e);
      }
      assert DropBare(s, d).dirs == s.dirs;
    }
  }

  lemma NothingUnderMissing(s: Store, d: Path, e: Path)
    requires WellFormed(s) && d !in s.dirs && d !in s.files
    ensures e in s.dirs || e in s.files ==> !(d <= e)
  {
    if (e in s.dirs || e in s.files) && |d| < |e| {
      AncestorIsDirectory(s, e, |d|);
      assert e[..|d|] != d;
    }
    assert d <= e && |d| == |e| ==> e == d;
  }

  /** ShellIdentity.Remove: on success the shortcuts and the key are gone and the log can bring
      them back; on failure the log has brought them back already. */
  method RemoveShell(desktop: Desktop, d: Path, location: string, fault: RemoveFault)
    returns (result: Option<ShellIdentityTransaction>)
    requires WellFormed(desktop.store) && d !in desktop.store.files
    requires fault.DeletingShortcuts? ==> Torn(d, desktop.store, fault.torn)
    modifies desktop
    ensures result.None? <==> OtherRoot(old(desktop.store).key, location) || !fault.NoFault?
    ensures NamesElsewhere(old(desktop.store).key, location) ==> result.None? && desktop.store == old(desktop.store)
    ensures NamesHere(old(desktop.store).key, location) && fault.NoFault? ==> result.Some?
    ensures result.None? && OtherRoot(old(desktop.store).key, location) ==> desktop.store == old(desktop.store)
    ensures result.None? && !OtherRoot(old(desktop.store).key, location) ==>
      desktop.store == DropBare(old(desktop.store), d)
    ensures result.Some? ==> fresh(result.value) && !result.value.committed
    ensures result.Some? ==> result.value.rollback == RemovalLog(old(desktop.store), d)
    ensures result.Some? ==> desktop.store == WithoutTree(old(desktop.store), d).(key := None)
  {
    OwnerMeans(desktop.store.key, location);
    if OtherRoot(desktop.store.key, location) {
      return None;
    }
    ghost var start := desktop.store;
    var transaction := new ShellIdentityTransaction();
    if d in desktop.store.dirs {
      transaction.AddRollback(RestoreTree(d, FilesUnder(desktop.store, d)));
    }
    transaction.AddRollback(RestoreKey(desktop.store.key));
    DeletionStaysInside(start, d);
    match fault {
      case NoFault =>
        desktop.store := WithoutTree(desktop.store, d).(key := None);
        return Some(transaction);
      case DeletingShortcuts(torn) =>
        desktop.store := torn;
      case DeletingKey(tornKey) =>
        desktop.store := WithoutTree(desktop.store, d).(key := tornKey);
    }
    ghost var now := desktop.store;
    var completed := transaction.Dispose(desktop);
    RemovalUndone(start, now, d);
    result := None;
  }

  lemma DeletionStaysInside(s: Store, d: Path)
    requires WellFormed(s) && d !in s.files
    ensures WellFormed(WithoutTree(s, d)) && OnlyInside(d, s, WithoutTree(s, d))
  {
    DeleteKeepsWellFormed(s, d);
  }

  lemma RemovedUndone(s: Store, d: Path)
    requires WellFormed(s) && d !in s.files
    ensures UndoAll(RemovalLog(s, d), WithoutTree(s, d).(key := None)) == (DropBare(s, d), [], true)
  {
    DeletionStaysInside(s, d);
    RemovalUndone(s, WithoutTree(s, d).(key := None), d);
  }

  // ---------------------------------------------------------------- deleting the quarantine

  /** Up to a hundred attempts at a recursive delete; one that throws leaves a remnant. */
  method DeleteQuarantine(desktop: Desktop, quarantine: Path, attempts: seq<Option<Store>>) returns (deleted: bool)
    requires |attempts| == MAXIMUM_ATTEMPTS && WellFormed(desktop.store) && quarantine in desktop.store.dirs
    requires forall i :: 0 <= i < |attempts| && attempts[i].Some? ==> Torn(quarantine, desktop.store, attempts[i].value)
    modifies desktop
    ensures deleted <==> exists i :: 0 <= i < |attempts| && attempts[i].None?
    ensures deleted ==> desktop.store == DeleteTree(old(desktop.store), quarantine)
    ensures !deleted ==> Torn(quarantine, old(desktop.store), desktop.store)
  {
    ghost var start := desktop.store;
    assert quarantine !in start.files;
    for attempt := 0 to MAXIMUM_ATTEMPTS
      invariant forall i :: 0 <= i < attempt ==> attempts[i].Some?
      invariant Torn(quarantine, start, desktop.store)
    {
      if attempts[attempt].None? {
        TornDeletion(start, desktop.store, quarantine);
        desktop.store := DeleteTree(desktop.store, quarantine);
        return true;
      }
      desktop.store := attempts[attempt].value;
    }
    deleted := false;
  }

  /** Deleting what a torn deletion left is deleting the tree. */
  lemma TornDeletion(before: Store, after: Store, d: Path)
    requires OnlyInside(d, before, after) && after.key == before.key && d !in before.files
    ensures DeleteTree(after, d) == DeleteTree(before, d)
  {
    var a, b := DeleteTree(after, d), DeleteTree(before, d);
    forall p ensures Lookup(a.files, p) == Lookup(b.files, p) {
      assert !(d < p) ==> Lookup(before.files, p) == Lookup(after.files, p);
    }
    SameLookups(a.files, b.files);
  }

  // ---------------------------------------------------------------- the whole of Uninstall

  /** A recoverable exit says whether the recovery receipt was written. */
  datatype Outcome = Threw | Passed | Recoverable(receiptWritten: bool)

  const RECEIPT_SUFFIX := ".recovery.json"

  /** The install root, the quarantine and the recovery receipt beside it, and the shortcuts. */
  datatype Site = Site(root: Path, quarantine: Path, receipt: Path, shortcuts: Path, location: string)
  {
    function StateRoot(): Path { root + ["state"] }
    function Lock(): Path { StateRoot() + ["setup.lock"] }
    function StateFile(): Path { StateRoot() + ["current.json"] }
  }

  datatype LockFault = Locked | NotOpened | Unsafe

  /** What goes wrong on the way in: how many directories of the chain are open when the next one,
      or the last of them, cannot be opened, and whether the lock can be had. */
  datatype Entry = Entry(stop: Option<nat>, lock: LockFault)

  /** Writing the receipt goes well, or throws and leaves these bytes in its place, if any. */
  datatype ReceiptFault = Written | Unwritten(torn: Option<Bytes>)

  /** Everything that can go wrong: the way in, the recorded state is refused, the tree holds a
      reparse point, a move back throws, the removal throws, a failure is injected before the tree
      is deleted, deletion attempts throw, or the receipt is not written. */
  datatype Trouble = Trouble(
    entry: Entry, refused: bool, moveThrows: bool, reparse: bool, moveBackThrows: bool,
    remove: RemoveFault, injected: bool, attempts: seq<Option<Store>>,
    receiptBytes: Bytes, receiptFault: ReceiptFault)

  predicate Apart(a: Path, b: Path) { !(a <= b) && !(b <= a) }

  /** Quarantine and receipt are siblings of the install root, the receipt named after the
      quarantine. */
  predicate Beside(site: Site) {
    && site.root != [] && site.quarantine != [] && site.receipt != []
    && Parent(site.root) == Parent(site.quarantine) == Parent(site.receipt)
    && site.receipt[|site.receipt| - 1] == site.quarantine[|site.quarantine| - 1] + RECEIPT_SUFFIX
  }

  predicate Separate(site: Site) {
    && Beside(site) && site.shortcuts != []
    && Apart(site.root, site.quarantine) && Apart(site.root, site.shortcuts)
    && Apart(site.quarantine, site.shortcuts)
    && site.receipt != site.root && site.receipt != site.shortcuts
  }

  // ---------------------------------------------------------------- the way in

  /** How many directories of `path` are open when the chain ends, counting from `n`. */
  function Halt(s: Store, path: Path, stop: Option<nat>, n: nat): (k: nat)
    requires n <= |path|
    ensures n <= k <= |path|
    decreases |path| - n
  {
    if n == |path| || stop == Some(n) || path[..n + 1] in s.files then n else Halt(s, path, stop, n + 1)
  }

  /** The store with the first `n` directories of `path` there. */
  function Made(s: Store, path: Path, n: nat): Store
    requires n <= |path|
  {
    s.(dirs := s.dirs + Prefixes(path[..n]))
  }

  predicate ChainOpens(s: Store, path: Path, stop: Option<nat>) {
    [] in s.dirs && Halt(s, path, stop, 0) == |path| && stop != Some(|path|)
  }

  lemma MadeOne(s: Store, path: Path, n: nat)
    requires n < |path|
    ensures Made(s, path, n + 1).dirs == Made(s, path, n).dirs + {path[..n + 1]}
    ensures path[..n + 1] in Made(s, path, n).dirs ==> path[..n + 1] in s.dirs
  {
    var p, q := path[..n + 1], path[..n];
    assert p == p[..|p|];
    forall d ensures d in Prefixes(p) <==> d in Prefixes(q) || d == p {
      if d in Prefixes(p) {
        var i :| 0 <= i <= |p| && d == p[..i];
        assert i < |p| ==> d == q[..i];
      }
      if d in Prefixes(q) {
        var i :| 0 <= i <= |q| && d == q[..i];
        assert d == p[..i];
      }
    }
    assert forall d :: d in Prefixes(q) ==> |d| <= n;
  }

  lemma MadeNone(s: Store, path: Path)
    requires [] in s.dirs
    ensures Made(s, path, 0) == s
  {
    assert path[..0] == [];
    assert forall d :: d in Prefixes(path[..0]) ==> d == [];
  }

  /** Opens every directory on the way to the state directory, creating what is missing. */
  method OpenInstallChain(desktop: Desktop, path: Path, stop: Option<nat>) returns (reached: bool)
    requires WellFormed(desktop.store)
    modifies desktop
    ensures reached == ChainOpens(old(desktop.store), path, stop)
    ensures [] !in old(desktop.store).dirs ==> desktop.store == old(desktop.store)
    ensures [] in old(desktop.store).dirs ==>
      desktop.store == Made(old(desktop.store), path, Halt(old(desktop.store), path, stop, 0))
  {
    if [] !in desktop.store.dirs {
      return false;
    }
    ghost var start := desktop.store;
    MadeNone(start, path);
    for i := 0 to |path|
      invariant desktop.store == Made(start, path, i)
      invariant Halt(start, path, stop, 0) == Halt(start, path, stop, i)
    {
      if stop == Some(i) {
        return false;
      }
      var current := path[..i + 1];
      MadeOne(start, path, i);
      if current !in desktop.store.dirs {
        if current in desktop.store.files {
          return false;
        }
        desktop.store := desktop.store.(dirs := desktop.store.dirs + {current});
      }
    }
    reached := stop != Some(|path|);
  }

  predicate Enters(site: Site, entry: Entry, s: Store) {
    && ChainOpens(s, site.StateRoot(), entry.stop)
    && entry.lock.Locked? && site.Lock() !in s.dirs
  }

  /** Opening the lock creates it when it is missing, also when it is then refused. */
  function WithLock(site: Site, s: Store): Store {
    if site.Lock() in s.files then s else s.(files := s.files[site.Lock() := []])
  }

  /** What the way in leaves, whether it succeeds or throws. */
  function Entered(site: Site, entry: Entry, s: Store): Store {
    if [] !in s.dirs then s
    else
      var reached := Made(s, site.StateRoot(), Halt(s, site.StateRoot(), entry.stop, 0));
      if ChainOpens(s, site.StateRoot(), entry.stop) && !entry.lock.NotOpened? && site.Lock() !in s.dirs
      then WithLock(site, reached) else reached
  }

  method Enter(desktop: Desktop, site: Site, entry: Entry) returns (entered: bool)
    requires WellFormed(desktop.store)
    modifies desktop
    ensures entered == Enters(site, entry, old(desktop.store))
    ensures desktop.store == Entered(site, entry, old(desktop.store))
  {
    ghost var start := desktop.store;
    var reached := OpenInstallChain(desktop, site.StateRoot(), entry.stop);
    if !reached {
      return false;
    }
    assert site.Lock() in desktop.store.dirs <==> site.Lock() in start.dirs by {
      assert forall d :: d in Prefixes(site.StateRoot()) ==> |d| < |site.Lock()|;
      assert site.StateRoot()[..|site.StateRoot()|] == site.StateRoot();
    }
    if entry.lock.NotOpened? || site.Lock() in desktop.store.dirs {
      return false;
    }
    desktop.store := WithLock(site, desktop.store);
    entered := entry.lock.Locked?;
  }

  lemma {:induction false} HaltClear(s: Store, path: Path, stop: Option<nat>, n: nat)
    requires n <= |path|
    ensures forall i :: n < i <= Halt(s, path, stop, n) ==> path[..i] !in s.files
    decreases |path| - n
  {
    if !(n == |path| || stop == Some(n) || path[..n + 1] in s.files) {
      HaltClear(s, path, stop, n + 1);
    }
  }

  lemma MadeWellFormed(s: Store, path: Path, stop: Option<nat>)
    requires WellFormed(s)
    ensures WellFormed(Made(s, path, Halt(s, path, stop, 0)))
  {
    var k := Halt(s, path, stop, 0);
    HaltClear(s, path, stop, 0);
    var p := path[..k];
    forall a | a in Prefixes(p) ensures a !in s.files {
      var i :| 0 <= i <= |p| && a == p[..i];
      assert a == path[..i] && (i == 0 ==> a == []);
    }
    CreateKeepsWellFormed(s, p);
  }

  lemma EnteredWellFormed(site: Site, entry: Entry, s: Store)
    requires WellFormed(s)
    ensures WellFormed(Entered(site, entry, s))
  {
    var path := site.StateRoot();
    MadeWellFormed(s, path, entry.stop);
    if ChainOpens(s, path, entry.stop) && site.Lock() !in s.dirs {
      var reached := Made(s, path, |path|);
      assert path[..|path|] == path && path in Prefixes(path) && Parent(site.Lock()) == path;
      assert forall d :: d in Prefixes(path) ==> |d| < |site.Lock()|;
    }
  }

  /** The directory up to which the way in went, and the lock where it got that far. */
  predicate WasThere(site: Site, entry: Entry, s: Store) {
    var path := site.StateRoot();
    var k := Halt(s, path, entry.stop, 0);
    && ([] in s.dirs ==> path[..k] in s.dirs)
    && (ChainOpens(s, path, entry.stop) && !entry.lock.NotOpened? && site.Lock() !in s.dirs ==> site.Lock() in s.files)
  }

  /** The way in changes nothing exactly when what it opens was there. */
  lemma EnteredKeepsIff(site: Site, entry: Entry, s: Store)
    requires WellFormed(s)
    ensures Entered(site, entry, s) == s <==> WasThere(site, entry, s)
  {
    var path := site.StateRoot();
    var k := Halt(s, path, entry.stop, 0);
    var p, reached := path[..k], Made(s, path, k);
    assert p == p[..|p|] && p in Prefixes(p);
    if p in s.dirs {
      PrefixesAreDirectories(s, p);
      assert reached.dirs == s.dirs;
    }
    assert Entered(site, entry, s) == s ==> [] !in s.dirs || reached.dirs == s.dirs;
  }

  // ---------------------------------------------------------------- the tree aside

  /** What the environment's torn deletions may look like at the point where they happen. */
  ghost predicate Plausible(trouble: Trouble, site: Site, entered: Store) {
    && |trouble.attempts| == MAXIMUM_ATTEMPTS
    && (Movable(entered, site.root, site.quarantine) ==>
          var aside := Moved(entered, site.root, site.quarantine);
          && (trouble.remove.DeletingShortcuts? ==> Torn(site.shortcuts, aside, trouble.remove.torn))
          && forall i :: 0 <= i < |trouble.attempts| && trouble.attempts[i].Some? ==>
               Torn(site.quarantine, WithoutTree(aside, site.shortcuts).(key := None), trouble.attempts[i].value))
  }

  /** RestoreQuarantine: moves the tree back only into an empty place. */
  method RestoreQuarantine(desktop: Desktop, site: Site, moveBackThrows: bool) returns (restored: bool)
    modifies desktop
    ensures restored <==> !moveBackThrows && MoveTree(old(desktop.store), site.quarantine, site.root).Success?
    ensures restored ==> desktop.store == MoveTree(old(desktop.store), site.quarantine, site.root).value
    ensures !restored ==> desktop.store == old(desktop.store)
  {
    var back := MoveTree(desktop.store, site.quarantine, site.root);
    if moveBackThrows || back.Failure? {
      return false;
    }
    desktop.store := back.value;
    restored := true;
  }

  /** Moving aside is undone exactly, also after the shortcuts lost their bare directories. */
  lemma AsideAndBack(site: Site, s: Store)
    requires WellFormed(s) && Separate(site) && Movable(s, site.root, site.quarantine)
    requires site.shortcuts !in s.files
    ensures var aside := Moved(s, site.root, site.quarantine);
            && WellFormed(aside) && site.shortcuts !in aside.files
            && site.root in s.dirs && site.quarantine in aside.dirs && site.root !in aside.dirs
            && aside.key == s.key
            && MoveTree(aside, site.quarantine, site.root) == Success(s)
            && MoveTree(DropBare(aside, site.shortcuts), site.quarantine, site.root) == Success(DropBare(s, site.shortcuts))
            && DropBare(aside, site.shortcuts).dirs <= aside.dirs
  {
    hide WellFormed, HoldsFile, Rebase, Lookup, Vacant;
    var aside := Moved(s, site.root, site.quarantine);
    MoveKeepsWellFormed(s, site.root, site.quarantine);
    AsideDirectories(site, s);
    MoveBack(s, site.root, site.quarantine);
    BareAsideAndBack(site, s);
  }

  lemma AsideDirectories(site: Site, s: Store)
    requires Separate(site) && Movable(s, site.root, site.quarantine) && site.shortcuts !in s.files
    ensures var aside := Moved(s, site.root, site.quarantine);
            site.shortcuts !in aside.files && site.quarantine in aside.dirs && site.root !in aside.dirs
  {
    MovedLookup(s, site.root, site.quarantine, site.shortcuts);
    MovedLookup(s, site.root, site.quarantine, site.root);
    assert Rebase(site.root, site.root, site.quarantine) == site.quarantine;
  }

  lemma BareAsideAndBack(site: Site, s: Store)
    requires WellFormed(s) && Separate(site) && Movable(s, site.root, site.quarantine)
    ensures MoveTree(DropBare(Moved(s, site.root, site.quarantine), site.shortcuts), site.quarantine, site.root) ==
            Success(DropBare(s, site.shortcuts))
  {
    ParentPrefix(site.quarantine, site.shortcuts);
    var bare := DropBare(s, site.shortcuts);
    DropBareMovable(site, s);
    DropBareKeepsWellFormed(s, site.shortcuts);
    MoveBack(bare, site.root, site.quarantine);
    DropBareMoved(site, s);
  }

  lemma DropBareKeepsWellFormed(s: Store, d: Path)
    requires WellFormed(s) && d != []
    ensures WellFormed(DropBare(s, d))
  {
    var after := DropBare(s, d);
    forall e | e in after.dirs && e != [] ensures Parent(e) in after.dirs {
      ParentPrefix(e, d);
      if HoldsFile(s, e) {
        var f :| f in s.files && e < f;
        assert Parent(e) < f;
      }
    }
    forall f | f in after.files ensures Parent(f) in after.dirs {
      assert Parent(f) < f;
    }
  }

  lemma DropBareMovable(site: Site, s: Store)
    requires WellFormed(s) && Separate(site) && Movable(s, site.root, site.quarantine)
    requires !(site.shortcuts <= Parent(site.quarantine))
    ensures Movable(DropBare(s, site.shortcuts), site.root, site.quarantine)
  {
  }

  lemma DropBareMoved(site: Site, s: Store)
    requires Separate(site) && Movable(s, site.root, site.quarantine)
    requires Movable(DropBare(s, site.shortcuts), site.root, site.quarantine)
    ensures Moved(DropBare(s, site.shortcuts), site.root, site.quarantine) ==
            DropBare(Moved(s, site.root, site.quarantine), site.shortcuts)
  {
    var d, aside := site.shortcuts, Moved(s, site.root, site.quarantine);
    var bare := DropBare(s, d);
    forall e | d <= e ensures HoldsFile(s, e) <==> HoldsFile(aside, e) {
      SameFilesHeld(site, s, e);
    }
    var left, right := Moved(bare, site.root, site.quarantine), DropBare(aside, d);
    assert left.files == right.files;
    forall p ensures p in left.dirs <==> p in right.dirs {
      forall e | e in s.dirs ensures d <= Rebase(e, site.root, site.quarantine) <==> d <= e && !(site.root <= e) {
        ApartPrefixes(d, site.quarantine, Rebase(e, site.root, site.quarantine));
        ApartPrefixes(d, site.root, e);
      }
    }
  }

  lemma SameFilesHeld(site: Site, s: Store, e: Path)
    requires Separate(site) && Movable(s, site.root, site.quarantine) && site.shortcuts <= e
    ensures HoldsFile(s, e) <==> HoldsFile(Moved(s, site.root, site.quarantine), e)
  {
    var aside := Moved(s, site.root, site.quarantine);
    forall f | e < f ensures f in s.files <==> f in aside.files {
      ApartPrefixes(site.shortcuts, site.quarantine, f);
      ApartPrefixes(site.shortcuts, site.root, f);
      MovedLookup(s, site.root, site.quarantine, f);
      assert Lookup(s.files, f) == Lookup(aside.files, f);
    }
  }

  /** Removing the shortcuts and moving the install tree aside commute. */
  lemma RemovedAsideAndBack(site: Site, s: Store)
    requires WellFormed(s) && Separate(site) && Movable(s, site.root, site.quarantine) && site.shortcuts !in s.files
    ensures var aside := Moved(s, site.root, site.quarantine);
            && RemovalLog(aside, site.shortcuts) == RemovalLog(s, site.shortcuts)
            && WithoutTree(aside, site.shortcuts).dirs <= aside.dirs
            && MoveTree(WithoutTree(aside, site.shortcuts).(key := None), site.quarantine, site.root) ==
               Success(WithoutTree(s, site.shortcuts).(key := None))
  {
    var d := site.shortcuts;
    var rest := WithoutTree(s, d).(key := None);
    hide HoldsFile, Rebase, Lookup;
    DeletionStaysInside(s, d);
    ParentPrefix(site.quarantine, d);
    assert WellFormed(rest) && Movable(rest, site.root, site.quarantine);
    RemovedMoved(site, s);
    SameRemovalLog(site, s);
    MoveBack(rest, site.root, site.quarantine);
  }

  /** Moving the install tree aside moves nothing into or out of the shortcut directory. */
  lemma RebaseApart(site: Site, p: Path)
    requires Separate(site)
    ensures site.shortcuts <= Rebase(p, site.root, site.quarantine) <==> site.shortcuts <= p
    ensures site.shortcuts < Rebase(p, site.root, site.quarantine) <==> site.shortcuts < p
    ensures Rebase(p, site.root, site.quarantine) == site.shortcuts <==> p == site.shortcuts
  {
    ApartPrefixes(site.shortcuts, site.quarantine, Rebase(p, site.root, site.quarantine));
    ApartPrefixes(site.shortcuts, site.root, p);
    assert !(site.root <= site.shortcuts);
  }

  lemma RemovedMoved(site: Site, s: Store)
    requires Separate(site) && Movable(s, site.root, site.quarantine)
    requires Movable(WithoutTree(s, site.shortcuts).(key := None), site.root, site.quarantine)
    ensures Moved(WithoutTree(s, site.shortcuts).(key := None), site.root, site.quarantine) ==
            WithoutTree(Moved(s, site.root, site.quarantine), site.shortcuts).(key := None)
  {
    hide Separate, Movable, Moved, WithoutTree;
    RemovedMovedDirs(site, s);
    RemovedMovedFiles(site, s);
    KeyMoved(site, s);
  }

  lemma KeyMoved(site: Site, s: Store)
    requires Movable(s, site.root, site.quarantine)
    requires Movable(WithoutTree(s, site.shortcuts).(key := None), site.root, site.quarantine)
    ensures Moved(WithoutTree(s, site.shortcuts).(key := None), site.root, site.quarantine).key == None
  {
  }

  lemma ShortcutsMoved(site: Site, s: Store)
    requires Separate(site) && Movable(s, site.root, site.quarantine)
    ensures site.shortcuts in Moved(s, site.root, site.quarantine).dirs <==> site.shortcuts in s.dirs
  {
    MovedLookup(s, site.root, site.quarantine, site.shortcuts);
  }

  lemma RemovedMovedDirs(site: Site, s: Store)
    requires Separate(site) && Movable(s, site.root, site.quarantine)
    requires Movable(WithoutTree(s, site.shortcuts).(key := None), site.root, site.quarantine)
    ensures Moved(WithoutTree(s, site.shortcuts).(key := None), site.root, site.quarantine).dirs ==
            WithoutTree(Moved(s, site.root, site.quarantine), site.shortcuts).dirs
  {
    hide Separate, Movable, Rebase;
    ShortcutsMoved(site, s);
    forall p ensures site.shortcuts <= Rebase(p, site.root, site.quarantine) <==> site.shortcuts <= p {
      RebaseApart(site, p);
    }
  }

  lemma RemovedMovedFiles(site: Site, s: Store)
    requires Separate(site) && Movable(s, site.root, site.quarantine)
    requires Movable(WithoutTree(s, site.shortcuts).(key := None), site.root, site.quarantine)
    ensures Moved(WithoutTree(s, site.shortcuts).(key := None), site.root, site.quarantine).files ==
            WithoutTree(Moved(s, site.root, site.quarantine), site.shortcuts).files
  {
    hide Separate, Rebase, WellFormed;
    ShortcutsMoved(site, s);
    forall p ensures site.shortcuts < Rebase(p, site.root, site.quarantine) <==> site.shortcuts < p {
      RebaseApart(site, p);
    }
  }

  lemma SameRemovalLog(site: Site, s: Store)
    requires Separate(site) && Movable(s, site.root, site.quarantine)
    ensures RemovalLog(Moved(s, site.root, site.quarantine), site.shortcuts) == RemovalLog(s, site.shortcuts)
  {
    var d, aside := site.shortcuts, Moved(s, site.root, site.quarantine);
    forall p | d <= p
      ensures Lookup(aside.files, p) == Lookup(s.files, p) && (p in aside.dirs <==> p in s.dirs)
    {
      ApartPrefixes(d, site.quarantine, p);
      ApartPrefixes(d, site.root, p);
      MovedLookup(s, site.root, site.quarantine, p);
    }
    SameUnder(aside, s, d);
  }

  lemma SameUnder(a: Store, b: Store, d: Path)
    requires forall p :: d <= p ==> Lookup(a.files, p) == Lookup(b.files, p)
    ensures FilesUnder(a, d) == FilesUnder(b, d)
  {
    var left, right := FilesUnder(a, d), FilesUnder(b, d);
    forall p ensures Lookup(left, p) == Lookup(right, p) {
      assert d < p ==> Lookup(a.files, p) == Lookup(b.files, p);
    }
    SameLookups(left, right);
  }

  predicate Refuses(trouble: Trouble, site: Site, s: Store) {
    var entered := Entered(site, trouble.entry, s);
    || !Enters(site, trouble.entry, s) || !(site.StateFile() in s.files) || trouble.refused
    || trouble.moveThrows || !Movable(entered, site.root, site.quarantine)
  }

  predicate Throws(trouble: Trouble, site: Site, s: Store) {
    Refuses(trouble, site, s) || trouble.reparse || OtherRoot(s.key, site.location)
    || !trouble.remove.NoFault? || trouble.injected
  }

  /** The shortcuts or the key were touched and brought back, or would have been. */
  predicate TouchesShell(trouble: Trouble, site: Site, s: Store) {
    !Refuses(trouble, site, s) && !trouble.reparse && !OtherRoot(s.key, site.location)
  }

  /** What an exceptional exit leaves. Before the tree moves, it is what the way in leaves. After
      that, a move back that throws leaves the tree in quarantine: with the shell identity as it
      was (a reparse point, another root's registration), brought back (a failed removal) or gone
      (a failure injected after the removal, whose log is then not run). */
  ghost function Thrown(trouble: Trouble, site: Site, s: Store): Store {
    var entered := Entered(site, trouble.entry, s);
    if Refuses(trouble, site, s) then entered
    else
      var aside := Moved(entered, site.root, site.quarantine);
      if !TouchesShell(trouble, site, s) then
        (if trouble.moveBackThrows then aside else entered)
      else if !trouble.moveBackThrows then DropBare(entered, site.shortcuts)
      else if !trouble.remove.NoFault? then DropBare(aside, site.shortcuts)
      else WithoutTree(aside, site.shortcuts).(key := None)
  }

  predicate Stranded(trouble: Trouble, site: Site, s: Store) {
    !Refuses(trouble, site, s) && trouble.moveBackThrows
  }

  /** Neither the install root nor the shortcuts nor the registration; nothing else has changed,
      but for what may be left of the quarantine and for the receipt. */
  ghost predicate Uninstalled(site: Site, before: Store, after: Store) {
    && after.key == None
    && (forall p :: site.root <= p || site.shortcuts <= p ==> p !in after.files && p !in after.dirs)
    && (forall p :: !(site.root <= p) && !(site.shortcuts <= p) && !(site.quarantine <= p) && p != site.receipt ==>
          Lookup(after.files, p) == Lookup(before.files, p) && (p in after.dirs <==> p in before.dirs))
  }

  /** The same before the receipt is written. */
  ghost predicate Cleared(site: Site, before: Store, after: Store) {
    && after.key == None
    && (forall p :: site.root <= p || site.shortcuts <= p ==> p !in after.files && p !in after.dirs)
    && (forall p :: !(site.root <= p) && !(site.shortcuts <= p) && !(site.quarantine <= p) ==>
          Lookup(after.files, p) == Lookup(before.files, p) && (p in after.dirs <==> p in before.dirs))
  }

  /** What is at the receipt path: the receipt after a written one, and otherwise what was there,
      or what a throwing write left. */
  predicate ReceiptFound(trouble: Trouble, site: Site, outcome: Outcome, before: Store, after: Store) {
    var found := Lookup(after.files, site.receipt);
    && (site.receipt in after.dirs <==> site.receipt in before.dirs && !(site.shortcuts <= site.receipt))
    && match outcome
       case Recoverable(true) => found == Some(trouble.receiptBytes)
       case Recoverable(false) =>
         found == Lookup(before.files, site.receipt) ||
         (trouble.receiptFault.Unwritten? && found == trouble.receiptFault.torn)
       case _ => found == Lookup(before.files, site.receipt)
  }

  /** Writes the recovery receipt beside the quarantine, replacing whatever file is there. */
  method WriteRecoveryReceipt(desktop: Desktop, site: Site, bytes: Bytes, fault: ReceiptFault) returns (written: bool)
    modifies desktop
    ensures written <==> fault.Written? && Reaches(old(desktop.store), site.receipt)
    ensures desktop.store == AfterReceipt(old(desktop.store), site, bytes, fault)
  {
    if !Reaches(desktop.store, site.receipt) {
      return false;
    }
    match fault {
      case Written =>
        desktop.store := desktop.store.(files := desktop.store.files[site.receipt := bytes]);
        return true;
      case Unwritten(Some(torn)) =>
        desktop.store := desktop.store.(files := desktop.store.files[site.receipt := torn]);
        return false;
      case Unwritten(None) =>
        return false;
    }
  }

  function AfterReceipt(s: Store, site: Site, bytes: Bytes, fault: ReceiptFault): Store {
    if !Reaches(s, site.receipt) then s
    else
      match fault
      case Written => s.(files := s.files[site.receipt := bytes])
      case Unwritten(Some(torn)) => s.(files := s.files[site.receipt := torn])
      case Unwritten(None) => s
  }

  /** Both or neither. An exceptional exit leaves exactly `Thrown`; a normal exit leaves neither
      the install root nor the shell identity and touches nothing else but the receipt. */
  method Uninstall(desktop: Desktop, site: Site, trouble: Trouble) returns (outcome: Outcome)
    requires WellFormed(desktop.store) && Separate(site) && site.shortcuts !in desktop.store.files
    requires Plausible(trouble, site, Entered(site, trouble.entry, desktop.store))
    modifies desktop
    ensures outcome.Threw? <==> Throws(trouble, site, old(desktop.store))
    ensures outcome.Threw? ==> desktop.store == Thrown(trouble, site, old(desktop.store))
    ensures NamesElsewhere(old(desktop.store).key, site.location) ==>
      outcome.Threw? && desktop.store.key == old(desktop.store).key
    ensures NamesHere(old(desktop.store).key, site.location) && !Hindered(trouble, site, old(desktop.store)) ==>
      !outcome.Threw?
    ensures outcome.Passed? ==>
      desktop.store == WithoutTree(DeleteTree(old(desktop.store), site.root), site.shortcuts).(key := None)
    ensures !outcome.Threw? ==> Uninstalled(site, old(desktop.store), desktop.store)
    ensures !outcome.Threw? ==> ReceiptFound(trouble, site, outcome, old(desktop.store), desktop.store)
    ensures !outcome.Threw? ==> (outcome.Passed? <==> exists i :: 0 <= i < |trouble.attempts| && trouble.attempts[i].None?)
    ensures outcome.Recoverable? ==>
      (outcome.receiptWritten <==> trouble.receiptFault.Written? && site.receipt !in desktop.store.dirs)
  {
    hide WellFormed, Moved, Movable, MoveTree, WithoutTree, DeleteTree, DropBare, Torn, OtherRoot;
    hide NamesElsewhere, NamesHere, Hindered, RemovalLog, UndoAll, Separate, OnlyInside, Cleared, Uninstalled, ReceiptFound, Entered, Enters, AfterReceipt;
    ghost var start := desktop.store;
    EnteredReady(site, trouble.entry, start);
    OwnerMeans(start.key, site.location);
    ThrowsIff(trouble, site, start);
    ElsewhereKeepsKey(trouble, site, start);
    var entered := Enter(desktop, site, trouble.entry);
    ghost var ready := desktop.store;
    if !entered || site.StateFile() !in desktop.store.files || trouble.refused || trouble.moveThrows
       || !Movable(desktop.store, site.root, site.quarantine)
    {
      return Threw;
    }
    desktop.store := Moved(desktop.store, site.root, site.quarantine);
    AsideAndBack(site, ready);
    if trouble.reparse {
      var restored := RestoreQuarantine(desktop, site, trouble.moveBackThrows);
      return Threw;
    }
    var transaction := RemoveShell(desktop, site.shortcuts, site.location, trouble.remove);
    if transaction.None? {
      var restored := RestoreQuarantine(desktop, site, trouble.moveBackThrows);
      return Threw;
    }
    RemovedAsideAndBack(site, ready);
    if trouble.injected {
      var restored := RestoreQuarantine(desktop, site, trouble.moveBackThrows);
      if restored {
        var completed := transaction.value.Dispose(desktop);
        RemovedUndone(ready, site.shortcuts);
      }
      return Threw;
    }
    ghost var removed := desktop.store;
    RemovedKeepsQuarantine(site, ready);
    var deleted := DeleteQuarantine(desktop, site.quarantine, trouble.attempts);
    transaction.value.Commit();
    ghost var final := desktop.store;
    var completed := transaction.value.Dispose(desktop);
    assert desktop.store == final;
    ClearedMeans(site, ready, removed, final);
    LockCleared(site, start, ready, final);
    if deleted {
      DeletedExactly(site, ready);
      LockDeleted(site, start);
      NoReceipt(trouble, site, start, final);
      return Passed;
    }
    var written := WriteRecoveryReceipt(desktop, site, trouble.receiptBytes, trouble.receiptFault);
    ReceiptBeside(trouble, site, start, final, written);
    outcome := Recoverable(written);
  }

  /** An installed release means that the way in only ever adds the lock. */
  lemma EnteredReady(site: Site, entry: Entry, s: Store)
    requires WellFormed(s) && Separate(site) && site.shortcuts !in s.files
    ensures var entered := Entered(site, entry, s);
            && WellFormed(entered) && site.shortcuts !in entered.files && entered.key == s.key
            && (site.StateFile() in entered.files <==> site.StateFile() in s.files)
            && (Enters(site, entry, s) && site.StateFile() in s.files ==> entered == WithLock(site, s))
  {
    EnteredWellFormed(site, entry, s);
    assert site.StateFile()[|site.root| + 1] == "current.json" && site.Lock()[|site.root| + 1] == "setup.lock";
    assert site.root <= site.Lock();
    if site.StateFile() in s.files {
      var path := site.StateRoot();
      assert Parent(site.StateFile()) == path;
      PrefixesAreDirectories(s, path);
      assert path[..|path|] == path;
      assert Made(s, path, |path|).dirs == s.dirs;
    }
  }

  lemma LockCleared(site: Site, s: Store, ready: Store, after: Store)
    requires ready == WithLock(site, s) && Cleared(site, ready, after)
    ensures Cleared(site, s, after)
  {
    assert site.root <= site.Lock();
    forall p | !(site.root <= p) ensures Lookup(ready.files, p) == Lookup(s.files, p) {
    }
  }

  lemma LockDeleted(site: Site, s: Store)
    ensures DeleteTree(WithLock(site, s), site.root) == DeleteTree(s, site.root)
  {
    assert site.root < site.Lock();
    assert DeleteTree(WithLock(site, s), site.root).files == DeleteTree(s, site.root).files;
  }

  lemma ReceiptPlace(site: Site)
    requires Separate(site)
    ensures !(site.root <= site.receipt) && !(site.quarantine <= site.receipt)
    ensures var parent := Parent(site.root);
            !(site.root <= parent) && !(site.shortcuts <= parent) && !(site.quarantine <= parent)
  {
    assert |site.root| == |Parent(site.root)| + 1 && |site.quarantine| == |Parent(site.quarantine)| + 1;
    assert |site.receipt| == |Parent(site.receipt)| + 1;
    assert site.root <= site.receipt ==> site.root == site.receipt;
    assert site.quarantine <= site.receipt ==> site.quarantine == site.receipt;
    var own := site.quarantine[|site.quarantine| - 1];
    assert |own + RECEIPT_SUFFIX| > |own|;
    ParentPrefix(site.root, site.shortcuts);
  }

  lemma NoReceipt(trouble: Trouble, site: Site, before: Store, after: Store)
    requires Separate(site) && Cleared(site, before, after)
    ensures Uninstalled(site, before, after) && ReceiptFound(trouble, site, Passed, before, after)
  {
    ReceiptPlace(site);
  }

  lemma ReceiptBeside(trouble: Trouble, site: Site, before: Store, cleared: Store, written: bool)
    requires WellFormed(before) && Separate(site) && Cleared(site, before, cleared)
    requires site.root in before.dirs
    requires written <==> trouble.receiptFault.Written? && Reaches(cleared, site.receipt)
    ensures var after := AfterReceipt(cleared, site, trouble.receiptBytes, trouble.receiptFault);
            && Uninstalled(site, before, after) && ReceiptFound(trouble, site, Recoverable(written), before, after)
            && (written <==> trouble.receiptFault.Written? && site.receipt !in after.dirs)
  {
    ReceiptPlace(site);
    assert Parent(site.root) in cleared.dirs;
  }

  /** Something other than the ownership of the registration stops the uninstall: it is not installed,
      a directory or the lock cannot be had, the state is refused, the quarantine's place is taken, or
      a later operation throws. */
  predicate Hindered(trouble: Trouble, site: Site, s: Store) {
    || site.StateFile() !in s.files
    || (trouble.entry.stop.Some? && trouble.entry.stop.value <= |site.StateRoot()|)
    || trouble.entry.lock.NotOpened? || trouble.entry.lock.Unsafe? || site.Lock() in s.dirs
    || trouble.refused || trouble.moveThrows || site.quarantine in s.dirs || site.quarantine in s.files
    || trouble.reparse || trouble.remove.DeletingShortcuts? || trouble.remove.DeletingKey? || trouble.injected
  }

  /** Exactly when an uninstall throws, read off its input. */
  lemma ThrowsIff(trouble: Trouble, site: Site, s: Store)
    requires WellFormed(s) && Separate(site) && site.shortcuts !in s.files
    ensures Throws(trouble, site, s) <==> Hindered(trouble, site, s) || NamesElsewhere(s.key, site.location)
  {
    hide NamesElsewhere, NamesHere, OtherRoot, WellFormed, Movable, ChainOpens, Entered;
    OwnerMeans(s.key, site.location);
    EnteredReady(site, trouble.entry, s);
    if site.StateFile() in s.files {
      InstalledOpens(site, trouble.entry.stop, s);
      InstalledMoves(site, s);
    }
  }

  lemma InstalledOpens(site: Site, stop: Option<nat>, s: Store)
    requires WellFormed(s) && site.StateFile() in s.files
    ensures ChainOpens(s, site.StateRoot(), stop) <==> !(stop.Some? && stop.value <= |site.StateRoot()|)
  {
    var path := site.StateRoot();
    assert Parent(site.StateFile()) == path;
    AncestorIsDirectory(s, site.StateFile(), 0);
    assert site.StateFile()[..0] == [];
    PrefixesAreDirectories(s, path);
    forall i | 0 <= i <= |path| ensures path[..i] !in s.files {
      assert path[..i] in Prefixes(path);
    }
    HaltsAtStop(s, path, stop, 0);
  }

  lemma {:induction false} HaltsAtStop(s: Store, path: Path, stop: Option<nat>, n: nat)
    requires n <= |path| && forall i :: 0 <= i <= |path| ==> path[..i] !in s.files
    ensures Halt(s, path, stop, n) == if stop.Some? && n <= stop.value <= |path| then stop.value else |path|
    decreases |path| - n
  {
    if n < |path| && stop != Some(n) {
      HaltsAtStop(s, path, stop, n + 1);
    }
  }

  lemma InstalledMoves(site: Site, s: Store)
    requires WellFormed(s) && Separate(site) && site.StateFile() in s.files
    ensures Movable(WithLock(site, s), site.root, site.quarantine) <==>
            site.quarantine !in s.dirs && site.quarantine !in s.files
  {
    var file, q, held := site.StateFile(), site.quarantine, WithLock(site, s);
    AncestorIsDirectory(s, file, |site.root|);
    assert file[..|site.root|] == site.root;
    assert Parent(site.root) in s.dirs;
    assert site.root <= site.Lock();
    if q !in s.dirs && q !in s.files {
      forall p ensures p in held.files || p in held.dirs ==> !(q <= p) {
        NothingUnderMissing(s, q, p);
        ApartPrefixes(site.root, q, site.Lock());
      }
    } else {
      assert q in held.files || q in held.dirs;
      assert !Vacant(held, q) by { assert q <= q; }
    }
  }

  lemma ElsewhereKeepsKey(trouble: Trouble, site: Site, s: Store)
    requires WellFormed(s) && Separate(site) && site.shortcuts !in s.files
    ensures OtherRoot(s.key, site.location) ==> Thrown(trouble, site, s).key == s.key
  {
    EnteredReady(site, trouble.entry, s);
    hide WellFormed, Entered, Movable, OtherRoot;
  }

  lemma RemovedKeepsQuarantine(site: Site, s: Store)
    requires WellFormed(s) && Separate(site) && Movable(s, site.root, site.quarantine) && site.shortcuts !in s.files
    ensures var removed := WithoutTree(Moved(s, site.root, site.quarantine), site.shortcuts).(key := None);
            WellFormed(removed) && site.quarantine in removed.dirs
  {
    MoveKeepsWellFormed(s, site.root, site.quarantine);
    AsideDirectories(site, s);
    DeletionStaysInside(Moved(s, site.root, site.quarantine), site.shortcuts);
  }

  lemma ClearedMeans(site: Site, s: Store, removed: Store, after: Store)
    requires WellFormed(s) && Separate(site) && Movable(s, site.root, site.quarantine) && site.shortcuts !in s.files
    requires removed == WithoutTree(Moved(s, site.root, site.quarantine), site.shortcuts).(key := None)
    requires Torn(site.quarantine, removed, after) || after == DeleteTree(removed, site.quarantine)
    ensures Cleared(site, s, after)
  {
    var aside := Moved(s, site.root, site.quarantine);
    MoveKeepsWellFormed(s, site.root, site.quarantine);
    forall p | site.root <= p || site.shortcuts <= p ensures p !in after.files && p !in after.dirs {
      ApartPrefixes(site.root, site.quarantine, p);
      ApartPrefixes(site.shortcuts, site.quarantine, p);
      RemovedLookup(site, s, p);
      assert Lookup(after.files, p) == Lookup(removed.files, p);
    }
    forall p | !(site.root <= p) && !(site.shortcuts <= p) && !(site.quarantine <= p)
      ensures Lookup(after.files, p) == Lookup(s.files, p) && (p in after.dirs <==> p in s.dirs)
    {
      RemovedLookup(site, s, p);
      assert Lookup(after.files, p) == Lookup(removed.files, p);
    }
  }

  lemma RemovedLookup(site: Site, s: Store, p: Path)
    requires WellFormed(s) && Separate(site) && Movable(s, site.root, site.quarantine) && site.shortcuts !in s.files
    requires !(site.quarantine <= p)
    ensures var removed := WithoutTree(Moved(s, site.root, site.quarantine), site.shortcuts).(key := None);
            && Lookup(removed.files, p) ==
               (if site.root <= p || site.shortcuts <= p then None else Lookup(s.files, p))
            && (p in removed.dirs <==> p in s.dirs && !(site.root <= p) && !(site.shortcuts <= p))
  {
    var aside, d := Moved(s, site.root, site.quarantine), site.shortcuts;
    MoveKeepsWellFormed(s, site.root, site.quarantine);
    MovedLookup(s, site.root, site.quarantine, p);
    MovedLookup(s, site.root, site.quarantine, d);
    assert d <= p && |d| == |p| ==> p == d;
    if d !in aside.dirs {
      NothingUnderMissing(aside, d, p);
    }
  }

  /** A finished uninstall is exactly the store without the tree, the shortcuts and the key. */
  lemma DeletedExactly(site: Site, s: Store)
    requires WellFormed(s) && Separate(site) && Movable(s, site.root, site.quarantine) && site.shortcuts !in s.files
    ensures DeleteTree(WithoutTree(Moved(s, site.root, site.quarantine), site.shortcuts).(key := None), site.quarantine) ==
            WithoutTree(DeleteTree(s, site.root), site.shortcuts).(key := None)
  {
    var removed := WithoutTree(Moved(s, site.root, site.quarantine), site.shortcuts).(key := None);
    var left := DeleteTree(removed, site.quarantine);
    var right := WithoutTree(DeleteTree(s, site.root), site.shortcuts).(key := None);
    RemovedKeepsQuarantine(site, s);
    forall p ensures Lookup(left.files, p) == Lookup(right.files, p) && (p in left.dirs <==> p in right.dirs) {
      LookupDeleted(site, s, p);
    }
    SameLookups(left.files, right.files);
    assert left.dirs == right.dirs;
  }

  lemma LookupDeleted(site: Site, s: Store, p: Path)
    requires WellFormed(s) && Separate(site) && Movable(s, site.root, site.quarantine) && site.shortcuts !in s.files
    ensures var removed := WithoutTree(Moved(s, site.root, site.quarantine), site.shortcuts).(key := None);
            var left := DeleteTree(removed, site.quarantine);
            var right := WithoutTree(DeleteTree(s, site.root), site.shortcuts);
            Lookup(left.files, p) == Lookup(right.files, p) && (p in left.dirs <==> p in right.dirs)
  {
    var d, kept := site.shortcuts, DeleteTree(s, site.root);
    RemovedKeepsQuarantine(site, s);
    DeleteKeepsWellFormed(s, site.root);
    if !(site.quarantine <= p) {
      RemovedLookup(site, s, p);
      assert site.root <= p && |site.root| == |p| ==> p == site.root;
      assert d <= p && |d| == |p| ==> p == d;
      if d !in kept.dirs {
        NothingUnderMissing(kept, d, p);
      }
    } else {
      assert |site.quarantine| == |p| ==> p == site.quarantine;
    }
  }

  // ---------------------------------------------------------------- what an exceptional exit keeps

  lemma ThrownFiles(trouble: Trouble, site: Site, s: Store)
    requires WellFormed(s) && Separate(site) && site.shortcuts !in s.files && !Refuses(trouble, site, s)
    ensures site.StateFile() in s.files && site.root in s.dirs
    ensures site.StateFile() !in Moved(Entered(site, trouble.entry, s), site.root, site.quarantine).files
    ensures Entered(site, trouble.entry, s) == WithLock(site, s)
  {
    var file := site.StateFile();
    EnteredReady(site, trouble.entry, s);
    AncestorIsDirectory(s, file, |site.root|);
    assert file[..|site.root|] == site.root;
    ApartPrefixes(site.root, site.quarantine, file);
    MovedLookup(Entered(site, trouble.entry, s), site.root, site.quarantine, file);
  }

  /** Exactly when an exceptional exit leaves the store it found: what the way in opens was there
      already, the tree is not stranded in quarantine, and if the shell identity was touched, no
      shortcut directory was bare. */
  lemma ThrownKeepsIff(trouble: Trouble, site: Site, s: Store)
    requires WellFormed(s) && Separate(site) && site.shortcuts !in s.files && Throws(trouble, site, s)
    ensures Thrown(trouble, site, s) == s <==>
      && WasThere(site, trouble.entry, s) && !Stranded(trouble, site, s)
      && (TouchesShell(trouble, site, s) ==> NoBareDirectory(s, site.shortcuts))
  {
    hide Refuses, Separate, Moved, Movable, WellFormed, WasThere, NoBareDirectory;
    var entered := Entered(site, trouble.entry, s);
    EnteredKeepsIff(site, trouble.entry, s);
    if !Refuses(trouble, site, s) {
      ThrownFiles(trouble, site, s);
      DropBareIff(s, site.shortcuts);
      assert Thrown(trouble, site, s).files == entered.files || Stranded(trouble, site, s);
      if trouble.moveBackThrows {
        StateFileGone(trouble, site, s);
      } else if TouchesShell(trouble, site, s) {
        assert DropBare(entered, site.shortcuts).files == entered.files;
        assert entered == s <==> entered.files == s.files;
      }
    }
  }

  /** The removal had gone through and nothing brought it back: the failure came after it, and the
      tree could not be moved back. */
  ghost predicate ShellGone(trouble: Trouble, site: Site, s: Store) {
    !trouble.reparse && NamesHere(s.key, site.location) && trouble.remove.NoFault? && trouble.moveBackThrows
  }

  /** What an exceptional exit after the move leaves: the tree in one of its two places, and the
      registration and the shortcuts as they were, but for bare directories if they were touched. */
  ghost predicate ThrownLeaves(trouble: Trouble, site: Site, s: Store, left: Store) {
    && (site.root in left.dirs <==> !trouble.moveBackThrows)
    && (site.quarantine in left.dirs <==> trouble.moveBackThrows)
    && left.key == (if ShellGone(trouble, site, s) then None else s.key)
    && (forall p :: site.shortcuts <= p ==>
          Lookup(left.files, p) == if ShellGone(trouble, site, s) then None else Lookup(s.files, p))
    && (forall e :: site.shortcuts <= e ==>
          (e in left.dirs <==>
             && e in s.dirs && !ShellGone(trouble, site, s)
             && (trouble.reparse || NamesElsewhere(s.key, site.location) || HoldsFile(s, e))))
  }

  lemma ThrownMeans(trouble: Trouble, site: Site, s: Store)
    requires WellFormed(s) && Separate(site) && site.shortcuts !in s.files
    requires Throws(trouble, site, s) && !Refuses(trouble, site, s)
    ensures ThrownLeaves(trouble, site, s, Thrown(trouble, site, s))
  {
    hide Refuses, Separate, WellFormed, NamesElsewhere, NamesHere, OtherRoot, HoldsFile, Lookup, DropBare, WithoutTree, Moved, Movable;
    var entered := Entered(site, trouble.entry, s);
    OwnerMeans(s.key, site.location);
    EnteredReady(site, trouble.entry, s);
    assert Movable(entered, site.root, site.quarantine) by { NotRefused(trouble, site, s); }
    ThrownFiles(trouble, site, s);
    LockElsewhere(site, s);
    AsideAndBack(site, entered);
    var aside := Moved(entered, site.root, site.quarantine);
    TreePlaces(site, entered);
    ShortcutsAside(site, entered);
    ShortcutsDropped(site, entered);
    ShortcutsDropped(site, aside);
    ShortcutsDeleted(site, aside);
  }

  lemma NotRefused(trouble: Trouble, site: Site, s: Store)
    requires !Refuses(trouble, site, s)
    ensures Movable(Entered(site, trouble.entry, s), site.root, site.quarantine)
  {
  }

  lemma LockElsewhere(site: Site, s: Store)
    requires Separate(site)
    ensures forall p :: site.shortcuts <= p ==> Lookup(WithLock(site, s).files, p) == Lookup(s.files, p)
    ensures forall e :: site.shortcuts <= e ==> (HoldsFile(WithLock(site, s), e) <==> HoldsFile(s, e))
    ensures WithLock(site, s).dirs == s.dirs
  {
    var held := WithLock(site, s);
    assert site.root <= site.Lock();
    ApartPrefixes(site.root, site.shortcuts, site.Lock());
    forall e | site.shortcuts <= e ensures HoldsFile(held, e) <==> HoldsFile(s, e) {
      forall f: Path ensures e < f ==> (f in held.files <==> f in s.files) {
        assert e < f ==> site.shortcuts <= f;
      }
    }
  }

  lemma TreePlaces(site: Site, s: Store)
    requires Separate(site) && Movable(s, site.root, site.quarantine) && WellFormed(s)
    ensures var aside := Moved(s, site.root, site.quarantine);
            && site.root in s.dirs && site.quarantine !in s.dirs && aside.key == s.key
            && site.root !in aside.dirs && site.quarantine in aside.dirs
    ensures forall t: Store :: (site.root in DropBare(t, site.shortcuts).dirs <==> site.root in t.dirs)
    ensures forall t: Store :: (site.quarantine in DropBare(t, site.shortcuts).dirs <==> site.quarantine in t.dirs)
    ensures forall t: Store :: (site.root in WithoutTree(t, site.shortcuts).dirs <==> site.root in t.dirs)
    ensures forall t: Store :: (site.quarantine in WithoutTree(t, site.shortcuts).dirs <==> site.quarantine in t.dirs)
  {
    MovedLookup(s, site.root, site.quarantine, site.root);
    assert site.quarantine <= site.quarantine && Rebase(site.root, site.root, site.quarantine) == site.quarantine;
  }

  /** The shortcuts are nowhere near the tree that moves. */
  lemma ShortcutsAside(site: Site, s: Store)
    requires Separate(site) && Movable(s, site.root, site.quarantine)
    ensures var aside := Moved(s, site.root, site.quarantine);
            forall p :: site.shortcuts <= p ==>
              && Lookup(aside.files, p) == Lookup(s.files, p) && (p in aside.dirs <==> p in s.dirs)
              && (HoldsFile(aside, p) <==> HoldsFile(s, p))
  {
    hide HoldsFile, Lookup;
    forall p | site.shortcuts <= p
      ensures var aside := Moved(s, site.root, site.quarantine);
              && Lookup(aside.files, p) == Lookup(s.files, p) && (p in aside.dirs <==> p in s.dirs)
              && (HoldsFile(aside, p) <==> HoldsFile(s, p))
    {
      ApartPrefixes(site.shortcuts, site.quarantine, p);
      ApartPrefixes(site.shortcuts, site.root, p);
      MovedLookup(s, site.root, site.quarantine, p);
      SameFilesHeld(site, s, p);
    }
  }

  lemma ShortcutsDropped(site: Site, s: Store)
    ensures var bare := DropBare(s, site.shortcuts);
            && bare.files == s.files && bare.key == s.key
            && forall e :: site.shortcuts <= e ==> (e in bare.dirs <==> e in s.dirs && HoldsFile(s, e))
  {
  }

  lemma ShortcutsDeleted(site: Site, s: Store)
    requires WellFormed(s) && site.shortcuts !in s.files
    ensures var gone := WithoutTree(s, site.shortcuts);
            forall p :: site.shortcuts <= p ==> Lookup(gone.files, p) == None && p !in gone.dirs
  {
    var d := site.shortcuts;
    forall p | d <= p ensures Lookup(WithoutTree(s, d).files, p) == None && p !in WithoutTree(s, d).dirs {
      assert |d| == |p| ==> p == d;
      if d !in s.dirs {
        NothingUnderMissing(s, d, p);
      }
    }
  }

  lemma StateFileGone(trouble: Trouble, site: Site, s: Store)
    requires WellFormed(s) && Separate(site) && site.shortcuts !in s.files && Stranded(trouble, site, s)
    ensures site.StateFile() !in Thrown(trouble, site, s).files
  {
    ThrownFiles(trouble, site, s);
  }

  /** Where nothing is installed, uninstall throws and leaves the install root, the state directory
      and the lock behind. */
  lemma NotInstalledLeavesLock(trouble: Trouble)
    requires trouble.entry == Entry(None, Locked)
    ensures var site := Site(["Fleet"], [".rusty-fleet-uninstall-0"], [".rusty-fleet-uninstall-0.recovery.json"],
                             ["Programs", "Rusty Fleet"], "");
            var before := Store(map[], {[]}, None);
            var after := Store(map[site.Lock() := []], {[], site.root, site.StateRoot()}, None);
            && WellFormed(before) && Separate(site) && Throws(trouble, site, before)
            && Thrown(trouble, site, before) == after != before
  {
    var site := Site(["Fleet"], [".rusty-fleet-uninstall-0"], [".rusty-fleet-uninstall-0.recovery.json"],
                     ["Programs", "Rusty Fleet"], "");
    var before := Store(map[], {[]}, None);
    var path := site.StateRoot();
    assert Halt(before, path, None, 2) == 2;
    assert Halt(before, path, None, 0) == 2;
    assert path[..2] == path && path[..0] == [] && path[..1] == site.root;
    assert Prefixes(path) == {[], site.root, path};
  }
}
