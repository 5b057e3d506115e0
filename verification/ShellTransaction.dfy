/** The undo log behind the Windows shell identity: what each captured action restores, and when
    running the log backwards gives back the store that was there before the first capture. */
module ShellTransaction {
  import opened Basics

  /** A path is its list of components; the volume root is the empty list. */
  type Path = seq<string>
  type Bytes = seq<bv8>
  datatype RegistryValue = Text(text: string) | Number(number: int)
  type Values = map<string, RegistryValue>

  /** Files and directories as Setup sees them, and its own uninstall registration key. */
  datatype Store = Store(files: map<Path, Bytes>, dirs: set<Path>, key: Option<Values>)

  function Parent(p: Path): Path requires p != [] { p[..|p| - 1] }

  /** What every file system keeps: entries lie in directories, and no path is both kinds. */
  ghost predicate WellFormed(s: Store) {
    && (forall d :: d in s.dirs && d != [] ==> Parent(d) in s.dirs)
    && (forall f :: f in s.files ==> f != [] && f !in s.dirs && Parent(f) in s.dirs)
  }

  // ---------------------------------------------------------------- file operations

  function Lookup<K, V>(m: map<K, V>, k: K): Option<V> { if k in m then Some(m[k]) else None }

  function Prefixes(p: Path): set<Path> { set i | 0 <= i <= |p| :: p[..i] }

  /** Creates every missing directory on the way. */
  function CreateDirectory(s: Store, p: Path): Result<Store> {
    if exists a :: a in Prefixes(p) && a in s.files then Failure("a file is in the way")
    else Success(s.(dirs := s.dirs + Prefixes(p)))
  }

  /** Whether a file may be written or deleted at `p`. */
  predicate Reaches(s: Store, p: Path) { p != [] && p !in s.dirs && Parent(p) in s.dirs }

  function WriteFile(s: Store, p: Path, bytes: Bytes): Result<Store> {
    if Reaches(s, p) then Success(s.(files := s.files[p := bytes])) else Failure("cannot write the file")
  }

  /** Deleting a missing file is no error; a missing directory or a directory in its place is. */
  function DeleteFile(s: Store, p: Path): Result<Store> {
    if Reaches(s, p) then Success(s.(files := s.files - {p})) else Failure("cannot delete the file")
  }

  function DeleteTree(s: Store, d: Path): Store {
    Store((map f | f in s.files && !(d < f) :: s.files[f]), (set e | e in s.dirs && !(d <= e)), s.key)
  }

  predicate IsEmptyDirectory(s: Store, d: Path) {
    && (forall f :: f in s.files ==> !(d < f && |f| == |d| + 1))
    && (forall e :: e in s.dirs ==> !(d < e && |e| == |d| + 1))
  }

  function FilesUnder(s: Store, d: Path): map<Path, Bytes> { map f | f in s.files && d < f :: s.files[f] }

  // ---------------------------------------------------------------- the undo log

  datatype Undo =
    | RestoreFile(path: Path, before: Option<Bytes>)
    | RemoveNewDirectory(path: Path, existed: bool)
    | RestoreTree(path: Path, files: map<Path, Bytes>)
    | RestoreKey(values: Option<Values>)

  function Apply(u: Undo, s: Store): Result<Store> {
    match u
    case RestoreFile(p, None) => DeleteFile(s, p)
    case RestoreFile(p, Some(bytes)) =>
      if p == [] then Failure("no directory name")
      else
        var made := CreateDirectory(s, Parent(p));
        if made.Failure? then made else WriteFile(made.value, p, bytes)
    case RemoveNewDirectory(d, existed) =>
      Success(if !existed && d in s.dirs && IsEmptyDirectory(s, d) then s.(dirs := s.dirs - {d}) else s)
    case RestoreTree(d, files) => WriteBack(if d in s.dirs then DeleteTree(s, d) else s, files)
    case RestoreKey(values) => Success(s.(key := values))
  }

  function ParentsOf(files: map<Path, Bytes>): set<Path> {
    set f, i | f in files && 0 <= i < |f| :: f[..i]
  }

  /** Creates the directory of every captured file, then writes the file. */
  function WriteBack(s: Store, files: map<Path, Bytes>): Result<Store> {
    var dirs := s.dirs + ParentsOf(files);
    if [] in files || (exists a :: a in dirs && (a in s.files || a in files)) then Failure("a file is in the way")
    else Success(Store(s.files + files, dirs, s.key))
  }

  /** Disposing an uncommitted transaction: last captured, first undone; an action that throws
      leaves the rest of the log in place. */
  function UndoAll(stack: seq<Undo>, s: Store): (r: (Store, seq<Undo>, bool))
    ensures r.2 ==> r.1 == []
  {
    if stack == [] then (s, [], true)
    else
      var rest, undone := stack[..|stack| - 1], Apply(stack[|stack| - 1], s);
      if undone.Failure? then (s, rest, false) else UndoAll(rest, undone.value)
  }

  /** Undoing a log is undoing its end and then its beginning. */
  lemma {:induction false} UndoConcat(a: seq<Undo>, b: seq<Undo>, s: Store)
    ensures UndoAll(b, s).2 ==> UndoAll(a + b, s) == UndoAll(a, UndoAll(b, s).0)
    decreases |b|
  {
    if b == [] {
      assert a + b == a;
    } else {
      var n := |b| - 1;
      assert (a + b)[|a + b| - 1] == b[n] && (a + b)[..|a + b| - 1] == a + b[..n];
      if Apply(b[n], s).Success? {
        UndoConcat(a, b[..n], Apply(b[n], s).value);
      }
    }
  }

  /** A disposal that stops has the entries below the failing one left, and nothing else. */
  lemma {:induction false} StoppedBelow(stack: seq<Undo>, s: Store)
    ensures var (after, rest, completed) := UndoAll(stack, s);
            !completed ==> |rest| < |stack| && rest == stack[..|rest|] && Apply(stack[|rest|], after).Failure?
    decreases |stack|
  {
    if stack != [] && Apply(stack[|stack| - 1], s).Success? {
      StoppedBelow(stack[..|stack| - 1], Apply(stack[|stack| - 1], s).value);
    }
  }

  lemma {:induction false} AncestorIsDirectory(s: Store, p: Path, i: nat)
    requires WellFormed(s) && (p in s.files || p in s.dirs) && i < |p|
    ensures p[..i] in s.dirs
    decreases |p|
  {
    if i < |p| - 1 {
      AncestorIsDirectory(s, Parent(p), i);
      assert Parent(p)[..i] == p[..i];
    } else {
      assert p[..i] == Parent(p);
    }
  }

  lemma PrefixesAreDirectories(s: Store, p: Path)
    requires WellFormed(s) && p in s.dirs
    ensures Prefixes(p) <= s.dirs
  {
    forall d | d in Prefixes(p) ensures d in s.dirs {
      var i :| 0 <= i <= |p| && d == p[..i];
      if i < |p| {
        AncestorIsDirectory(s, p, i);
      } else {
        assert d == p;
      }
    }
  }

  lemma ApplyKeepsWellFormed(u: Undo, s: Store)
    requires WellFormed(s) && Apply(u, s).Success?
    ensures WellFormed(Apply(u, s).value)
  {
    match u
    case RestoreFile(p, Some(bytes)) => CreateKeepsWellFormed(s, Parent(p));
    case RemoveNewDirectory(d, existed) =>
      if d in s.dirs && IsEmptyDirectory(s, d) {
        RemoveKeepsWellFormed(s, d);
      }
    case RestoreTree(d, files) =>
      DeleteKeepsWellFormed(s, d);
      WriteBackKeepsWellFormed(if d in s.dirs then DeleteTree(s, d) else s, files);
    case _ =>
  }

  lemma CreateKeepsWellFormed(s: Store, p: Path)
    requires WellFormed(s) && CreateDirectory(s, p).Success?
    ensures WellFormed(CreateDirectory(s, p).value) && p in CreateDirectory(s, p).value.dirs
  {
    var after := CreateDirectory(s, p).value;
    forall d | d in Prefixes(p) && d != [] ensures Parent(d) in after.dirs {
      var i :| 0 <= i <= |p| && d == p[..i];
      assert Parent(d) == p[..i - 1];
    }
    assert p == p[..|p|];
  }

  lemma RemoveKeepsWellFormed(s: Store, d: Path)
    requires WellFormed(s) && d in s.dirs && IsEmptyDirectory(s, d)
    ensures WellFormed(s.(dirs := s.dirs - {d}))
  {
    forall e | e != [] && (e in s.dirs || e in s.files) ensures Parent(e) != d {
      assert Parent(e) == d ==> d < e && |e| == |d| + 1;
    }
  }

  lemma DeleteKeepsWellFormed(s: Store, d: Path)
    requires WellFormed(s)
    ensures WellFormed(DeleteTree(s, d))
  {
    forall e: Path | e != [] && d <= Parent(e) ensures d < e {
      assert e[..|d|] == Parent(e)[..|d|];
    }
  }

  lemma WriteBackKeepsWellFormed(s: Store, files: map<Path, Bytes>)
    requires WellFormed(s) && WriteBack(s, files).Success?
    ensures WellFormed(WriteBack(s, files).value)
  {
    var after := WriteBack(s, files).value;
    forall e | e in ParentsOf(files) && e != [] ensures Parent(e) in after.dirs {
      var f, i :| f in files && 0 <= i < |f| && e == f[..i];
      assert Parent(e) == f[..i - 1];
    }
    assert forall f :: f in files ==> Parent(f) == f[..|f| - 1];
  }

  // ---------------------------------------------------------------- captures and changes

  datatype Event =
    | CaptureFile(path: Path)
    | CaptureDirectory(path: Path)
    | CaptureTree(path: Path)
    | CaptureKey
    | Change(after: Store)

  /** The log after an event. A tree that does not exist is not captured at all. */
  function Push(stack: seq<Undo>, s: Store, e: Event): seq<Undo> {
    match e
    case CaptureFile(p) => stack + [RestoreFile(p, Lookup(s.files, p))]
    case CaptureDirectory(d) => stack + [RemoveNewDirectory(d, d in s.dirs)]
    case CaptureTree(d) => if d in s.dirs then stack + [RestoreTree(d, FilesUnder(s, d))] else stack
    case CaptureKey => stack + [RestoreKey(s.key)]
    case Change(_) => stack
  }

  function Play(stack: seq<Undo>, s: Store, events: seq<Event>): (Store, seq<Undo>)
    decreases |events|
  {
    if events == [] then (s, stack)
    else
      Play(Push(stack, s, events[0]), if events[0].Change? then events[0].after else s, events[1..])
  }

  predicate CoversFile(u: Undo, p: Path) {
    (u.RestoreFile? && u.path == p) || (u.RestoreTree? && u.path < p)
  }

  ghost predicate Covered(stack: seq<Undo>, p: Path) {
    exists i :: 0 <= i < |stack| && CoversFile(stack[i], p)
  }

  ghost predicate KeyCovered(stack: seq<Undo>) {
    exists i :: 0 <= i < |stack| && stack[i].RestoreKey?
  }

  /** `b` differs from `a` in nothing but what the log covers. */
  ghost predicate Within(stack: seq<Undo>, a: Store, b: Store) {
    && (forall p :: !Covered(stack, p) ==> Lookup(a.files, p) == Lookup(b.files, p))
    && (!KeyCovered(stack) ==> a.key == b.key)
  }

  /** Every change, however it tears, stays inside what was captured before it. */
  ghost predicate Confined(stack: seq<Undo>, s: Store, events: seq<Event>)
    decreases |events|
  {
    if events == [] then true
    else if events[0].Change? then
      WellFormed(events[0].after) && Within(stack, s, events[0].after) && Confined(stack, events[0].after, events[1..])
    else Confined(Push(stack, s, events[0]), s, events[1..])
  }

  /** What an entry of the log recorded of the store it was captured from. */
  ghost predicate Recorded(u: Undo, s: Store) {
    match u
    case RestoreFile(p, before) => before == Lookup(s.files, p)
    case RemoveNewDirectory(d, existed) => existed == (d in s.dirs)
    case RestoreTree(d, files) => files == FilesUnder(s, d)
    case RestoreKey(values) => values == s.key
  }

  /** `seen[i]` is the store at the i-th capture. */
  ghost predicate Timeline(orig: Store, stack: seq<Undo>, seen: seq<Store>, now: Store) {
    && WellFormed(now) && |seen| == |stack|
    && (forall i :: 0 <= i < |stack| ==> Recorded(stack[i], seen[i]) && Within(stack[..i], orig, seen[i]))
    && Within(stack, orig, now)
  }

  lemma CoveredGrows(stack: seq<Undo>, u: Undo, p: Path)
    ensures Covered(stack + [u], p) <==> Covered(stack, p) || CoversFile(u, p)
    ensures KeyCovered(stack + [u]) <==> KeyCovered(stack) || u.RestoreKey?
  {
    var more := stack + [u];
    if Covered(stack, p) {
      var i :| 0 <= i < |stack| && CoversFile(stack[i], p);
      assert CoversFile(more[i], p);
    }
    if KeyCovered(stack) {
      var i :| 0 <= i < |stack| && stack[i].RestoreKey?;
      assert more[i].RestoreKey?;
    }
    assert more[|stack|] == u;
  }

  /** Undoing the last capture leaves a store confined to the captures before it. */
  lemma UndoLast(orig: Store, stack: seq<Undo>, seen: seq<Store>, now: Store)
    requires Timeline(orig, stack, seen, now) && stack != []
    requires Apply(stack[|stack| - 1], now).Success?
    ensures var n := |stack| - 1;
            Timeline(orig, stack[..n], seen[..n], Apply(stack[n], now).value)
  {
    hide WellFormed, Apply, Covered, KeyCovered, CoversFile;
    var n := |stack| - 1;
    var rest, u := stack[..n], stack[n];
    var after := Apply(u, now).value;
    assert stack == rest + [u];
    forall p | !Covered(rest, p) ensures Lookup(orig.files, p) == Lookup(after.files, p) {
      CoveredGrows(rest, u, p);
      UndoRestores(u, seen[n], now, p);
    }
    CoveredGrows(rest, u, []);
    UndoKey(u, now);
    ApplyKeepsWellFormed(u, now);
    forall i | 0 <= i < n ensures Within(rest[..i], orig, seen[i]) {
      assert rest[..i] == stack[..i];
    }
  }

  lemma UndoRestores(u: Undo, seen: Store, now: Store, p: Path)
    requires Recorded(u, seen) && WellFormed(now) && Apply(u, now).Success?
    ensures Lookup(Apply(u, now).value.files, p) == Lookup(if CoversFile(u, p) then seen.files else now.files, p)
  {
    if u.RestoreTree? && u.path < p && p in now.files {
      AncestorIsDirectory(now, p, |u.path|);
      assert p[..|u.path|] == u.path;
    }
  }

  lemma UndoKey(u: Undo, now: Store)
    requires Apply(u, now).Success?
    ensures Apply(u, now).value.key == if u.RestoreKey? then u.values else now.key
  {
  }

  /** If no undo action throws, the files and the registration are the original ones. */
  lemma {:induction false} UndoneFiles(orig: Store, stack: seq<Undo>, seen: seq<Store>, now: Store)
    requires Timeline(orig, stack, seen, now) && UndoAll(stack, now).2
    ensures UndoAll(stack, now).0.files == orig.files && UndoAll(stack, now).0.key == orig.key
  {
    if stack == [] {
      SameLookups(orig.files, now.files);
    } else {
      var n := |stack| - 1;
      UndoLast(orig, stack, seen, now);
      UndoneFiles(orig, stack[..n], seen[..n], Apply(stack[n], now).value);
    }
  }

  lemma SameLookups<K, V>(a: map<K, V>, b: map<K, V>)
    requires forall k :: Lookup(a, k) == Lookup(b, k)
    ensures a == b
  {
    assert forall k :: k in a ==> Lookup(a, k) == Some(a[k]);
    assert forall k :: k in b ==> Lookup(a, k) == Some(b[k]);
  }

  /** A run keeps a timeline of what it captured. */
  lemma {:induction false} PlayTimeline(orig: Store, stack: seq<Undo>, seen: seq<Store>, s: Store, events: seq<Event>)
    returns (history: seq<Store>)
    requires Timeline(orig, stack, seen, s) && Confined(stack, s, events)
    ensures Timeline(orig, Play(stack, s, events).1, history, Play(stack, s, events).0)
    decreases |events|
  {
    if events == [] {
      history := seen;
    } else if events[0].Change? {
      assert Within(stack, orig, events[0].after);
      history := PlayTimeline(orig, stack, seen, events[0].after, events[1..]);
    } else {
      var more := Push(stack, s, events[0]);
      if more == stack {
        history := PlayTimeline(orig, stack, seen, s, events[1..]);
      } else {
        Captured(orig, stack, seen, s, more[|stack|]);
        history := PlayTimeline(orig, more, seen + [s], s, events[1..]);
      }
    }
  }

  lemma Captured(orig: Store, stack: seq<Undo>, seen: seq<Store>, s: Store, u: Undo)
    requires Timeline(orig, stack, seen, s) && Recorded(u, s)
    ensures Timeline(orig, stack + [u], seen + [s], s)
  {
    forall p ensures Covered(stack, p) ==> Covered(stack + [u], p) {
      CoveredGrows(stack, u, p);
    }
    CoveredGrows(stack, u, []);
    forall i | 0 <= i <= |stack| ensures Within((stack + [u])[..i], orig, (seen + [s])[i]) {
      assert (stack + [u])[..i] == stack[..i];
      assert stack[..|stack|] == stack;
    }
  }

  /** For every sequence of captures and changes confined to them, and wherever it stops: a
      disposal that does not throw restores the original file contents and registration. */
  lemma DisposeRestores(orig: Store, events: seq<Event>)
    requires WellFormed(orig) && Confined([], orig, events)
    ensures var (now, stack) := Play([], orig, events);
            var (after, _, completed) := UndoAll(stack, now);
            completed ==> after.files == orig.files && after.key == orig.key
  {
    var history := PlayTimeline(orig, [], [], orig, events);
    var (now, stack) := Play([], orig, events);
    if UndoAll(stack, now).2 {
      UndoneFiles(orig, stack, history, now);
    }
  }

  // ---------------------------------------------------------------- placing files: directories too

  ghost predicate Created(stack: seq<Undo>, d: Path) { RemoveNewDirectory(d, false) in stack }

  /** Directories only appear, only where captured, and never in place of a captured file. */
  ghost predicate Grows(stack: seq<Undo>, a: Store, b: Store) {
    && a.dirs <= b.dirs
    && (forall d :: d in b.dirs && d !in a.dirs ==> Created(stack, d))
    && (forall u :: u in stack && u.RestoreFile? ==> u.path !in b.dirs)
  }

  /** A file is captured where it can be written, a directory where its parent exists. */
  predicate Placeable(u: Undo, s: Store) {
    match u
    case RestoreFile(p, _) => Reaches(s, p)
    case RemoveNewDirectory(d, _) => d != [] && Parent(d) in s.dirs
    case RestoreTree(_, _) => false
    case RestoreKey(_) => true
  }

  ghost predicate Placing(stack: seq<Undo>, s: Store, events: seq<Event>)
    decreases |events|
  {
    if events == [] then true
    else if events[0].Change? then
      && WellFormed(events[0].after) && Within(stack, s, events[0].after) && Grows(stack, s, events[0].after)
      && Placing(stack, events[0].after, events[1..])
    else
      var more := Push(stack, s, events[0]);
      |more| > |stack| && Placeable(more[|stack|], s) && Placing(more, s, events[1..])
  }

  ghost predicate Placed(orig: Store, stack: seq<Undo>, seen: seq<Store>, now: Store) {
    && Timeline(orig, stack, seen, now)
    && Grows(stack, orig, now)
    && (forall i :: 0 <= i < |stack| ==>
          Placeable(stack[i], seen[i]) && orig.dirs <= seen[i].dirs <= now.dirs)
    && (forall i, j :: 0 <= i < j < |stack| ==> seen[i].dirs <= seen[j].dirs)
  }

  /** Everything there now lies in a directory that existed at the last capture. */
  lemma ParentsSeen(orig: Store, stack: seq<Undo>, seen: seq<Store>, now: Store, p: Path)
    requires WellFormed(orig) && Placed(orig, stack, seen, now) && stack != []
    requires p != [] && (p in now.files || p in now.dirs)
    ensures Parent(p) in seen[|stack| - 1].dirs
  {
    hide Timeline, Grows, WellFormed, Covered, Placeable;
    TimelineFacts(orig, stack, seen, now);
    var n := |stack| - 1;
    assert orig.dirs <= seen[n].dirs && forall i :: 0 <= i < n ==> seen[i].dirs <= seen[n].dirs;
    if (p in now.dirs && p in orig.dirs) || (p in now.files && !Covered(stack, p)) {
      OriginalParent(orig, stack, seen, now, p);
    } else {
      CapturedParent(orig, stack, seen, now, p);
    }
  }

  lemma OriginalParent(orig: Store, stack: seq<Undo>, seen: seq<Store>, now: Store, p: Path)
    requires WellFormed(orig) && Timeline(orig, stack, seen, now) && p != []
    requires p in orig.dirs || (p in now.files && !Covered(stack, p))
    ensures Parent(p) in orig.dirs
  {
    assert Lookup(orig.files, p) == Lookup(now.files, p) || p in orig.dirs;
  }

  lemma CapturedParent(orig: Store, stack: seq<Undo>, seen: seq<Store>, now: Store, p: Path)
    requires Placed(orig, stack, seen, now) && p != []
    requires (p in now.dirs && p !in orig.dirs) || Covered(stack, p)
    ensures exists i :: 0 <= i < |stack| && Parent(p) in seen[i].dirs
  {
    hide Timeline, Within, WellFormed;
    TimelineFacts(orig, stack, seen, now);
    if Covered(stack, p) {
      var i :| 0 <= i < |stack| && CoversFile(stack[i], p);
      assert Placeable(stack[i], seen[i]);
    } else {
      var i :| 0 <= i < |stack| && stack[i] == RemoveNewDirectory(p, false);
      assert Placeable(stack[i], seen[i]);
    }
  }

  /** A directory that is new since its capture holds nothing once all later captures are undone. */
  lemma NewDirectoryIsEmpty(orig: Store, stack: seq<Undo>, seen: seq<Store>, now: Store)
    requires WellFormed(orig) && Placed(orig, stack, seen, now)
    requires stack != [] && stack[|stack| - 1].RemoveNewDirectory? && !stack[|stack| - 1].existed
    ensures IsEmptyDirectory(now, stack[|stack| - 1].path)
  {
    var n := |stack| - 1;
    var d := stack[n].path;
    assert d !in seen[n].dirs;
    forall p | p != [] && (p in now.files || p in now.dirs) ensures Parent(p) != d {
      ParentsSeen(orig, stack, seen, now, p);
    }
    assert forall p: Path :: d < p && |p| == |d| + 1 ==> Parent(p) == d;
  }

  /** Undoing a placed capture touches no directory but the new one it stands for. */
  lemma PlacedApplies(u: Undo, seen: Store, stack: seq<Undo>, now: Store)
    requires Placeable(u, seen) && seen.dirs <= now.dirs && WellFormed(now)
    requires u in stack && forall v :: v in stack && v.RestoreFile? ==> v.path !in now.dirs
    ensures Apply(u, now).Success?
    ensures Apply(u, now).value.dirs ==
            if u.RemoveNewDirectory? && !u.existed && IsEmptyDirectory(now, u.path) then now.dirs - {u.path}
            else now.dirs
  {
    if u.RestoreFile? {
      PrefixesAreDirectories(now, Parent(u.path));
      assert now.dirs + Prefixes(Parent(u.path)) == now.dirs;
    }
  }

  lemma UndoPlaced(orig: Store, stack: seq<Undo>, seen: seq<Store>, now: Store)
    requires WellFormed(orig) && Placed(orig, stack, seen, now) && stack != []
    ensures Apply(stack[|stack| - 1], now).Success?
    ensures var n := |stack| - 1;
            Placed(orig, stack[..n], seen[..n], Apply(stack[n], now).value)
  {
    hide Timeline, Within, WellFormed, IsEmptyDirectory, Apply, Covered, Recorded;
    var n := |stack| - 1;
    var u := stack[n];
    TimelineFacts(orig, stack, seen, now);
    assert u in stack;
    PlacedApplies(u, seen[n], stack, now);
    UndoLast(orig, stack, seen, now);
    var after := Apply(u, now).value;
    if u.RemoveNewDirectory? && !u.existed {
      NewDirectoryIsEmpty(orig, stack, seen, now);
      assert u.path !in seen[n].dirs;
    }
    assert seen[n].dirs <= after.dirs;
    forall i | 0 <= i < n ensures seen[i].dirs <= after.dirs {
      assert seen[i].dirs <= seen[n].dirs;
    }
    assert forall v :: v in stack <==> v in stack[..n] || v == u by {
      assert stack == stack[..n] + [u];
    }
    assert Grows(stack[..n], orig, after);
  }

  lemma TimelineFacts(orig: Store, stack: seq<Undo>, seen: seq<Store>, now: Store)
    requires Timeline(orig, stack, seen, now)
    ensures WellFormed(now) && |seen| == |stack|
    ensures forall i :: 0 <= i < |stack| && stack[i].RemoveNewDirectory? ==>
      (stack[i].existed <==> stack[i].path in seen[i].dirs)
  {
    forall i | 0 <= i < |stack| && stack[i].RemoveNewDirectory?
      ensures stack[i].existed <==> stack[i].path in seen[i].dirs
    {
      assert Recorded(stack[i], seen[i]);
    }
  }

  lemma {:induction false} UndoneExactly(orig: Store, stack: seq<Undo>, seen: seq<Store>, now: Store)
    requires WellFormed(orig) && Placed(orig, stack, seen, now)
    ensures UndoAll(stack, now) == (orig, [], true)
  {
    if stack == [] {
      SameLookups(orig.files, now.files);
      assert forall d :: !Created([], d);
      assert now.dirs == orig.dirs;
    } else {
      var n := |stack| - 1;
      UndoPlaced(orig, stack, seen, now);
      UndoneExactly(orig, stack[..n], seen[..n], Apply(stack[n], now).value);
    }
  }

  lemma {:induction false} PlayPlaced(orig: Store, stack: seq<Undo>, seen: seq<Store>, s: Store, events: seq<Event>)
    returns (history: seq<Store>)
    requires Placed(orig, stack, seen, s) && Placing(stack, s, events)
    ensures Placed(orig, Play(stack, s, events).1, history, Play(stack, s, events).0)
    decreases |events|
  {
    if events == [] {
      history := seen;
    } else if events[0].Change? {
      history := PlayPlaced(orig, stack, seen, events[0].after, events[1..]);
    } else {
      var more := Push(stack, s, events[0]);
      PlaceOne(orig, stack, seen, s, more[|stack|]);
      history := PlayPlaced(orig, more, seen + [s], s, events[1..]);
    }
  }

  lemma PlaceOne(orig: Store, stack: seq<Undo>, seen: seq<Store>, s: Store, u: Undo)
    requires Placed(orig, stack, seen, s) && Recorded(u, s) && Placeable(u, s)
    ensures Placed(orig, stack + [u], seen + [s], s)
  {
    Captured(orig, stack, seen, s, u);
    hide Timeline, Covered, WellFormed;
    assert forall d :: Created(stack, d) ==> Created(stack + [u], d);
  }

  /** Placing files and directories whose parents exist: wherever it stops, and however the last
      change tears, disposal throws nowhere and gives back the whole original store. */
  lemma DisposeRestoresPlacement(orig: Store, events: seq<Event>)
    requires WellFormed(orig) && Placing([], orig, events)
    ensures var (now, stack) := Play([], orig, events);
            UndoAll(stack, now) == (orig, [], true)
  {
    var history := PlayPlaced(orig, [], [], orig, events);
    var (now, stack) := Play([], orig, events);
    UndoneExactly(orig, stack, history, now);
  }

  /** No undo action removes a directory it was not captured for: one that a change created beside
      the captured ones stays behind. */
  lemma {:induction false} UncapturedDirectoryStays(stack: seq<Undo>, s: Store, d: Path)
    requires d in s.dirs && !Created(stack, d)
    requires forall u :: u in stack ==> !u.RestoreTree?
    ensures d in UndoAll(stack, s).0.dirs
  {
    if stack != [] {
      var rest, u := stack[..|stack| - 1], stack[|stack| - 1];
      assert u in stack && u != RemoveNewDirectory(d, false);
      if Apply(u, s).Success? {
        UncapturedDirectoryStays(rest, Apply(u, s).value, d);
      }
    }
  }

  // ---------------------------------------------------------------- removing a tree

  /** Nothing outside the tree at `d` differs, and the tree has not become a file. */
  ghost predicate OnlyInside(d: Path, a: Store, b: Store) {
    && d !in b.files
    && (forall p :: !(d < p) ==> Lookup(a.files, p) == Lookup(b.files, p))
    && (forall e :: !(d <= e) ==> (e in a.dirs <==> e in b.dirs))
  }

  ghost predicate HoldsFile(s: Store, e: Path) { exists f :: f in s.files && e < f }

  /** Every directory of the tree has a file somewhere beneath it. */
  ghost predicate NoBareDirectory(s: Store, d: Path) {
    forall e :: e in s.dirs && d <= e ==> HoldsFile(s, e)
  }

  /** However far the removal of a captured tree and key got, disposal restores files and key, and
      of the tree's directories those holding a file: only files are captured. So it restores the
      whole store exactly when no directory of the tree was bare. */
  lemma DisposeRestoresRemoval(orig: Store, now: Store, d: Path)
    requires WellFormed(orig) && WellFormed(now) && d in orig.dirs && OnlyInside(d, orig, now)
    ensures var (after, rest, completed) :=
              UndoAll([RestoreTree(d, FilesUnder(orig, d)), RestoreKey(orig.key)], now);
            && completed && rest == [] && after.files == orig.files && after.key == orig.key
            && after.dirs == (set e | e in orig.dirs && (!(d <= e) || HoldsFile(orig, e)))
            && (after == orig <==> NoBareDirectory(orig, d))
  {
    var tree := RestoreTree(d, FilesUnder(orig, d));
    var keyed := now.(key := orig.key);
    var base := if d in now.dirs then DeleteTree(keyed, d) else keyed;
    assert [tree, RestoreKey(orig.key)][..1] == [tree];
    assert UndoAll([tree, RestoreKey(orig.key)], now) == UndoAll([tree], keyed);
    OutsideRemains(orig, keyed, d);
    TreeComesBack(orig, base, d);
    assert UndoAll([tree], keyed) == (WriteBack(base, FilesUnder(orig, d)).value, [], true) by {
      assert [tree][..0] == [];
    }
  }

  lemma OutsideRemains(orig: Store, now: Store, d: Path)
    requires WellFormed(orig) && WellFormed(now) && OnlyInside(d, orig, now)
    ensures var base := if d in now.dirs then DeleteTree(now, d) else now;
            base == Store(DeleteTree(orig, d).files, DeleteTree(orig, d).dirs, now.key)
  {
    var base := if d in now.dirs then DeleteTree(now, d) else now;
    forall p | (p in now.files || p in now.dirs) && (d < p || d == p) ensures d in now.dirs {
      if d < p {
        AncestorIsDirectory(now, p, |d|);
        assert p[..|d|] == d;
      }
    }
    forall p ensures Lookup(base.files, p) == Lookup(DeleteTree(orig, d).files, p) {
      assert Lookup(orig.files, p) == Lookup(now.files, p) || d < p;
    }
    SameLookups(base.files, DeleteTree(orig, d).files);
    assert base.dirs == DeleteTree(orig, d).dirs;
  }

  lemma TreeComesBack(orig: Store, base: Store, d: Path)
    requires WellFormed(orig) && d in orig.dirs
    requires base.files == DeleteTree(orig, d).files && base.dirs == DeleteTree(orig, d).dirs
    ensures var back := WriteBack(base, FilesUnder(orig, d));
            && back.Success? && back.value.files == orig.files
            && back.value.dirs == (set e | e in orig.dirs && (!(d <= e) || HoldsFile(orig, e)))
  {
    hide ParentsOf, HoldsFile, WriteBack, FilesUnder, WellFormed;
    var files := FilesUnder(orig, d);
    ParentsExactly(orig, d);
    SplitFiles(orig, d);
    TreeApart(orig, d);
    var dirs := base.dirs + ParentsOf(files);
    assert dirs == set e | e in orig.dirs && (!(d <= e) || HoldsFile(orig, e));
    WriteBackGives(base, files, dirs);
  }

  lemma TreeApart(s: Store, d: Path)
    requires WellFormed(s)
    ensures [] !in FilesUnder(s, d) && DeleteTree(s, d).files.Keys <= s.files.Keys && FilesUnder(s, d).Keys <= s.files.Keys
    ensures forall a :: a in s.dirs ==> a !in s.files
  {
  }

  lemma WriteBackGives(s: Store, files: map<Path, Bytes>, dirs: set<Path>)
    requires dirs == s.dirs + ParentsOf(files) && [] !in files
    requires forall a :: a in dirs ==> a !in s.files && a !in files
    ensures WriteBack(s, files) == Success(Store(s.files + files, dirs, s.key))
  {
  }

  lemma SplitFiles(s: Store, d: Path)
    ensures DeleteTree(s, d).files + FilesUnder(s, d) == s.files
  {
  }

  /** The directories on the way to the captured files are those of the tree that hold one. */
  lemma ParentsExactly(s: Store, d: Path)
    requires WellFormed(s)
    ensures forall e :: e in ParentsOf(FilesUnder(s, d)) ==> e in s.dirs && HoldsFile(s, e)
    ensures forall e :: e in s.dirs && d <= e && HoldsFile(s, e) ==> e in ParentsOf(FilesUnder(s, d))
  {
    forall e | e in ParentsOf(FilesUnder(s, d)) ensures e in s.dirs && HoldsFile(s, e) {
      ParentsAreKept(s, d, e);
    }
    forall e | e in s.dirs && d <= e && HoldsFile(s, e) ensures e in ParentsOf(FilesUnder(s, d)) {
      var f :| f in s.files && e < f;
      assert f in FilesUnder(s, d) && e == f[..|e|];
    }
  }

  lemma ParentsAreKept(s: Store, d: Path, e: Path)
    requires WellFormed(s) && e in ParentsOf(FilesUnder(s, d))
    ensures e in s.dirs && HoldsFile(s, e)
  {
    var f, i :| f in FilesUnder(s, d) && 0 <= i < |f| && e == f[..i];
    AncestorIsDirectory(s, f, i);
    assert f in s.files && e < f;
  }

  /** An empty start-menu directory does not come back when its removal is undone. */
  lemma BareDirectoryIsLost()
    ensures var d, orig := ["Fleet"], Store(map[], {[], ["Fleet"]}, None);
            && WellFormed(orig) && WellFormed(DeleteTree(orig, d))
            && UndoAll([RestoreTree(d, FilesUnder(orig, d)), RestoreKey(None)], DeleteTree(orig, d)).0.dirs == {[]}
  {
    var d, orig := ["Fleet"], Store(map[], {[], ["Fleet"]}, None);
    assert Parent(d) == [] && d <= d && !(d <= []);
    DisposeRestoresRemoval(orig, DeleteTree(orig, d), d);
    assert !HoldsFile(orig, d);
  }
}
