/** Applying and removing the Windows shell identity: the setup copy, the start-menu shortcuts and
    the uninstall registration, each captured into the undo log before it is touched. */
module ShellIdentity {
  import opened Basics
  import opened ShellTransaction

  /** Where and what a release installs outside its own tree. */
  datatype Layout = Layout(
    installRoot: Path, programs: Path, displayName: string, setupFileName: string,
    runningSetup: Option<Bytes>, consoleShortcut: Bytes, setupShortcut: Bytes, values: Values)
  {
    function SetupRoot(): Path { installRoot + ["setup"] }
    function SetupFile(): Path { SetupRoot() + [setupFileName] }
    function Shortcuts(): Path { programs + [displayName] }
    function ConsoleLink(): Path { Shortcuts() + [displayName + ".lnk"] }
    function SetupLink(): Path { Shortcuts() + [displayName + " Setup.lnk"] }
  }

  datatype Step =
    | PlaceDirectory(path: Path)
    | PlaceFile(path: Path, bytes: Option<Bytes>)
    | PlaceKey(values: Values)

  /** The operation that throws, and what a write leaves behind when it does. */
  datatype Fault = Fault(at: int, tornBytes: Option<Bytes>, tornValues: Option<Values>)

  function Steps(layout: Layout): seq<Step> {
    [ PlaceDirectory(layout.SetupRoot()),
      PlaceFile(layout.SetupFile(), layout.runningSetup),
      PlaceDirectory(layout.Shortcuts()),
      PlaceFile(layout.ConsoleLink(), Some(layout.consoleShortcut)),
      PlaceFile(layout.SetupLink(), Some(layout.setupShortcut)),
      PlaceKey(layout.values) ]
  }

  function Merge(key: Option<Values>, values: Values): Values {
    (if key.Some? then key.value else map[]) + values
  }

  function CaptureOf(step: Step, s: Store): Undo {
    match step
    case PlaceDirectory(d) => RemoveNewDirectory(d, d in s.dirs)
    case PlaceFile(p, _) => RestoreFile(p, Lookup(s.files, p))
    case PlaceKey(_) => RestoreKey(s.key)
  }

  function EventOf(step: Step): Event {
    match step
    case PlaceDirectory(d) => CaptureDirectory(d)
    case PlaceFile(p, _) => CaptureFile(p)
    case PlaceKey(_) => CaptureKey
  }

  /** What Apply captures are the captures of the log. */
  lemma CapturesAgree(stack: seq<Undo>, step: Step, s: Store)
    ensures Push(stack, s, EventOf(step)) == stack + [CaptureOf(step, s)]
  {
  }

  /** The store after a captured step, and whether the step went through. */
  function Perform(step: Step, s: Store, fails: bool, fault: Fault): (Store, bool) {
    match step
    case PlaceDirectory(d) =>
      var made := CreateDirectory(s, d);
      if fails || made.Failure? then (s, false) else (made.value, true)
    case PlaceFile(p, bytes) =>
      if bytes.None? || !Reaches(s, p) then (s, false)
      else if fails then
        (if fault.tornBytes.Some? then s.(files := s.files[p := fault.tornBytes.value]) else s, false)
      else (s.(files := s.files[p := bytes.value]), true)
    case PlaceKey(values) =>
      if fails then
        (if fault.tornValues.Some? then s.(key := Some(Merge(s.key, fault.tornValues.value))) else s, false)
      else (s.(key := Some(Merge(s.key, values))), true)
  }

  /** Capture, perform, and go on while nothing throws; `fault.at` counts from the first step. */
  function PlaceAll(stack: seq<Undo>, s: Store, steps: seq<Step>, fault: Fault): (seq<Undo>, Store, bool)
    decreases |steps|
  {
    if steps == [] then (stack, s, true)
    else
      var (after, ok) := Perform(steps[0], s, fault.at == 0, fault);
      var more := stack + [CaptureOf(steps[0], s)];
      if ok then PlaceAll(more, after, steps[1..], fault.(at := fault.at - 1)) else (more, after, false)
  }

  // ---------------------------------------------------------------- one step keeps the log exact

  /** Where a step can be both taken and taken back. */
  ghost predicate Fits(step: Step, stack: seq<Undo>, s: Store) {
    match step
    case PlaceDirectory(d) =>
      d != [] && Parent(d) in s.dirs && forall u :: u in stack && u.RestoreFile? ==> u.path != d
    case PlaceFile(p, _) => Reaches(s, p)
    case PlaceKey(_) => true
  }

  lemma StepPlaced(orig: Store, stack: seq<Undo>, seen: seq<Store>, s: Store, step: Step, fails: bool, fault: Fault)
    requires Placed(orig, stack, seen, s) && Fits(step, stack, s)
    ensures Placed(orig, stack + [CaptureOf(step, s)], seen + [s], Perform(step, s, fails, fault).0)
  {
    hide Timeline, Perform;
    var u, after := CaptureOf(step, s), Perform(step, s, fails, fault).0;
    TimelineFacts(orig, stack, seen, s);
    PlaceOne(orig, stack, seen, s, u);
    var more := stack + [u];
    assert more[|stack|] == u && u in more;
    assert WellFormed(after) && Within(more, s, after) && Grows(more, s, after) by {
      PerformConfined(stack, s, step, fails, fault);
    }
    assert Timeline(orig, more, seen + [s], after) by {
      WithinTwice(more, orig, seen + [s], s, after);
    }
  }

  lemma WithinTwice(stack: seq<Undo>, orig: Store, seen: seq<Store>, s: Store, after: Store)
    requires Timeline(orig, stack, seen, s) && WellFormed(after) && Within(stack, s, after)
    ensures Timeline(orig, stack, seen, after)
  {
  }

  lemma PerformConfined(stack: seq<Undo>, s: Store, step: Step, fails: bool, fault: Fault)
    requires WellFormed(s) && Fits(step, stack, s)
    requires forall u :: u in stack && u.RestoreFile? ==> u.path !in s.dirs
    ensures var (after, more) := (Perform(step, s, fails, fault).0, stack + [CaptureOf(step, s)]);
            WellFormed(after) && Within(more, s, after) && Grows(more, s, after)
  {
    var u := CaptureOf(step, s);
    var more := stack + [u];
    assert more[|stack|] == u;
    assert forall p :: CoversFile(u, p) ==> Covered(more, p);
    if step.PlaceDirectory? {
      var d := step.path;
      forall e | e in Prefixes(d) ensures e == d || e in s.dirs {
        var i :| 0 <= i <= |d| && e == d[..i];
        if i < |d| - 1 {
          AncestorIsDirectory(s, Parent(d), i);
          assert Parent(d)[..i] == e;
        }
      }
      if CreateDirectory(s, d).Success? {
        CreateKeepsWellFormed(s, d);
      }
      assert u == RemoveNewDirectory(d, d in s.dirs);
    }
  }

  // ---------------------------------------------------------------- the whole of Apply

  /** A list of steps that can be carried out in order: every entry goes into a directory that is
      there or is placed earlier, and no path is used both as a file and as a directory. */
  ghost predicate Ready(stack: seq<Undo>, steps: seq<Step>, s: Store) {
    && (forall i :: 0 <= i < |steps| && !steps[i].PlaceKey? ==>
          steps[i].path != [] &&
          (Parent(steps[i].path) in s.dirs || PlacesParent(steps[..i], steps[i].path)))
    && (forall f :: f in steps && f.PlaceFile? ==> f.path !in s.dirs && !PlacesDirectory(steps, f.path))
    && (forall u :: u in stack && u.RestoreFile? ==> !PlacesDirectory(steps, u.path))
  }

  predicate PlacesDirectory(steps: seq<Step>, d: Path) { PlaceDirectory(d) in steps }

  predicate PlacesParent(steps: seq<Step>, p: Path) requires p != [] { PlacesDirectory(steps, Parent(p)) }

  lemma ReadyStep(stack: seq<Undo>, steps: seq<Step>, s: Store)
    requires WellFormed(s) && Ready(stack, steps, s) && steps != []
    ensures Fits(steps[0], stack, s)
    ensures forall fault, fails :: Perform(steps[0], s, fails, fault).1 ==>
      Ready(stack + [CaptureOf(steps[0], s)], steps[1..], Perform(steps[0], s, fails, fault).0)
  {
    var step, rest := steps[0], steps[1..];
    assert steps[..0] == [];
    assert step in steps;
    forall fault, fails | Perform(step, s, fails, fault).1
      ensures Ready(stack + [CaptureOf(step, s)], rest, Perform(step, s, fails, fault).0)
    {
      var after := Perform(step, s, fails, fault).0;
      PerformDirectories(step, s, fails, fault);
      forall i | 0 <= i < |rest| && !rest[i].PlaceKey?
        ensures rest[i].path != []
        ensures Parent(rest[i].path) in after.dirs || PlacesParent(rest[..i], rest[i].path)
      {
        assert rest[i] == steps[i + 1] && steps[..i + 1] == [step] + rest[..i];
      }
      assert forall f :: f in rest ==> f in steps;
    }
  }

  lemma PerformDirectories(step: Step, s: Store, fails: bool, fault: Fault)
    requires WellFormed(s) && Perform(step, s, fails, fault).1
    requires step.PlaceDirectory? ==> step.path != [] && Parent(step.path) in s.dirs
    ensures Perform(step, s, fails, fault).0.dirs == if step.PlaceDirectory? then s.dirs + {step.path} else s.dirs
  {
    if step.PlaceDirectory? {
      var d := step.path;
      assert d == d[..|d|];
      forall e | e in Prefixes(d) ensures e == d || e in s.dirs {
        var i :| 0 <= i <= |d| && e == d[..i];
        if i < |d| - 1 {
          AncestorIsDirectory(s, Parent(d), i);
          assert Parent(d)[..i] == e;
        }
      }
    }
  }

  lemma {:induction false} PlaceAllPlaced(
    orig: Store, stack: seq<Undo>, seen: seq<Store>, s: Store, steps: seq<Step>, fault: Fault)
    returns (history: seq<Store>)
    requires Placed(orig, stack, seen, s) && Ready(stack, steps, s)
    ensures var (log, now, _) := PlaceAll(stack, s, steps, fault);
            Placed(orig, log, history, now)
    decreases |steps|
  {
    hide Placed, Ready, Fits, Perform, WellFormed;
    if steps == [] {
      history := seen;
    } else {
      assert WellFormed(s) by { PlacedWellFormed(orig, stack, seen, s); }
      ReadyStep(stack, steps, s);
      var fails := fault.at == 0;
      StepPlaced(orig, stack, seen, s, steps[0], fails, fault);
      var (after, ok) := Perform(steps[0], s, fails, fault);
      var more := stack + [CaptureOf(steps[0], s)];
      if ok {
        history := PlaceAllPlaced(orig, more, seen + [s], after, steps[1..], fault.(at := fault.at - 1));
      } else {
        history := seen + [s];
      }
    }
  }

  lemma PlacedWellFormed(orig: Store, stack: seq<Undo>, seen: seq<Store>, s: Store)
    requires Placed(orig, stack, seen, s)
    ensures WellFormed(s)
  {
  }

  /** Wherever a run of ready steps stops, or if it ends and something after it fails, disposing
      the log gives back the store it started from. */
  lemma PlaceAllUndone(s: Store, steps: seq<Step>, fault: Fault)
    requires WellFormed(s) && Ready([], steps, s)
    ensures var (log, now, _) := PlaceAll([], s, steps, fault);
            UndoAll(log, now) == (s, [], true)
  {
    assert Placed(s, [], [], s);
    var history := PlaceAllPlaced(s, [], [], s, steps, fault);
    var (log, now, _) := PlaceAll([], s, steps, fault);
    UndoneExactly(s, log, history, now);
  }

  /** The install root exists, and no file that Apply writes is a directory or is used as one. */
  predicate Plain(layout: Layout, s: Store) {
    && layout.installRoot in s.dirs
    && layout.SetupFile() !in s.dirs && layout.ConsoleLink() !in s.dirs && layout.SetupLink() !in s.dirs
    && layout.Shortcuts() != layout.SetupFile()
    && layout.ConsoleLink() != layout.SetupRoot() && layout.SetupLink() != layout.SetupRoot()
    && layout.programs != layout.SetupRoot()
  }

  lemma StepsReady(layout: Layout, s: Store)
    requires Plain(layout, s) && layout.programs in s.dirs
    ensures Ready([], Steps(layout), s)
  {
    hide Plain;
    var steps := Steps(layout);
    assert Parent(layout.SetupRoot()) == layout.installRoot && Parent(layout.SetupFile()) == layout.SetupRoot();
    assert Parent(layout.Shortcuts()) == layout.programs;
    assert Parent(layout.ConsoleLink()) == layout.Shortcuts() == Parent(layout.SetupLink());
    assert steps[0] == PlaceDirectory(layout.SetupRoot()) && steps[2] == PlaceDirectory(layout.Shortcuts());
    assert forall i :: 0 < i < |steps| ==> steps[0] in steps[..i];
    assert forall i :: 2 < i < |steps| ==> steps[2] in steps[..i];
    NoFileIsDirectory(layout, s);
  }

  lemma NoFileIsDirectory(layout: Layout, s: Store)
    requires Plain(layout, s)
    ensures layout.installRoot in s.dirs
    ensures forall f :: f in Steps(layout) && f.PlaceFile? ==> f.path !in s.dirs && !PlacesDirectory(Steps(layout), f.path)
  {
    assert |layout.SetupFile()| == |layout.SetupRoot()| + 1;
    assert |layout.ConsoleLink()| == |layout.SetupLink()| == |layout.Shortcuts()| + 1;
  }

  /** Apply, stopped anywhere or failing afterwards, is undone exactly. */
  lemma ApplyUndone(layout: Layout, s: Store, fault: Fault)
    requires WellFormed(s) && Plain(layout, s) && layout.programs in s.dirs
    ensures var (log, now, _) := PlaceAll([], s, Steps(layout), fault);
            UndoAll(log, now) == (s, [], true)
  {
    StepsReady(layout, s);
    PlaceAllUndone(s, Steps(layout), fault);
  }

  lemma {:induction false} PlaceAllConcat(stack: seq<Undo>, s: Store, a: seq<Step>, b: seq<Step>, fault: Fault)
    ensures var (log, now, ok) := PlaceAll(stack, s, a, fault);
            PlaceAll(stack, s, a + b, fault) ==
            if ok then PlaceAll(log, now, b, fault.(at := fault.at - |a|)) else (log, now, false)
    decreases |a|
  {
    hide Perform, CaptureOf;
    if a == [] {
      assert a + b == b;
    } else {
      assert (a + b)[0] == a[0] && (a + b)[1..] == a[1..] + b;
      var (after, ok) := Perform(a[0], s, fault.at == 0, fault);
      if ok {
        PlaceAllConcat(stack + [CaptureOf(a[0], s)], after, a[1..], b, fault.(at := fault.at - 1));
      }
    }
  }

  /** A run only adds to its log, and never reads it. */
  lemma {:induction false} PlaceAllAppends(stack: seq<Undo>, s: Store, steps: seq<Step>, fault: Fault)
    ensures var (log, now, ok) := PlaceAll([], s, steps, fault);
            PlaceAll(stack, s, steps, fault) == (stack + log, now, ok)
    decreases |steps|
  {
    hide Perform, CaptureOf;
    if steps != [] {
      var (after, ok) := Perform(steps[0], s, fault.at == 0, fault);
      var one := [CaptureOf(steps[0], s)];
      assert [] + one == one;
      if ok {
        var later := fault.(at := fault.at - 1);
        PlaceAllAppends(stack + one, after, steps[1..], later);
        PlaceAllAppends(one, after, steps[1..], later);
        assert stack + one + PlaceAll([], after, steps[1..], later).0 == stack + (one + PlaceAll([], after, steps[1..], later).0);
      }
    } else {
      assert stack + [] == stack;
    }
  }

  /** Something stops the application before it creates the shortcut directory. */
  predicate StopsEarly(layout: Layout, s: Store, fault: Fault) {
    || fault.at in {0, 1, 2} || layout.runningSetup.None? || layout.SetupRoot() in s.files
    || FileInTheWay(layout, s)
  }

  /** A file, or the setup copy itself, stands where the shortcut directory has to go. */
  predicate FileInTheWay(layout: Layout, s: Store) {
    exists a :: a in Prefixes(layout.Shortcuts()) && (a in s.files || a == layout.SetupFile())
  }

  /** The start menu with the directories above it. */
  function WithMenu(layout: Layout, s: Store): Store { s.(dirs := s.dirs + Prefixes(layout.programs)) }

  /** With the start menu itself missing, creating the shortcut directory also creates the start
      menu, which no capture covers: the undo is exact if and only if the application stopped before
      that, and otherwise leaves the start menu and nothing else. */
  lemma ApplyWithoutPrograms(layout: Layout, s: Store, fault: Fault)
    requires WellFormed(s) && Plain(layout, s) && layout.programs !in s.dirs
    ensures var (log, now, _) := PlaceAll([], s, Steps(layout), fault);
            && UndoAll(log, now) == (if StopsEarly(layout, s, fault) then s else WithMenu(layout, s), [], true)
            && (UndoAll(log, now).0 == s <==> StopsEarly(layout, s, fault))
  {
    hide WellFormed, Plain, Perform, CaptureOf, UndoAll, FileInTheWay;
    var first, rest := Steps(layout)[..2], Steps(layout)[2..];
    assert first + rest == Steps(layout);
    MenuIsNew(layout, s);
    SetupPlaced(layout, s, fault);
    PlaceAllConcat([], s, first, rest, fault);
    var (log, now, ok) := PlaceAll([], s, first, fault);
    var later := fault.(at := fault.at - 2);
    if !ok {
      SetupReady(layout, s);
      PlaceAllUndone(s, first, fault);
    } else {
      PlaceAllAppends(log, now, rest, later);
      var (more, after, _) := PlaceAll([], now, rest, later);
      if StopsEarly(layout, s, fault) {
        ShortcutsBlocked(layout, s, now, later);
        SetupReady(layout, s);
        PlaceAllUndone(s, first, fault);
        UndoConcat(log, more, after);
      } else {
        ShortcutsUndone(layout, s, now, later);
        UndoConcat(log, more, after);
        SetupTakenBack(layout, s);
      }
    }
  }

  lemma MenuIsNew(layout: Layout, s: Store)
    requires layout.programs !in s.dirs
    ensures WithMenu(layout, s) != s
  {
    assert layout.programs == layout.programs[..|layout.programs|];
    assert layout.programs in WithMenu(layout, s).dirs;
  }

  lemma SetupReady(layout: Layout, s: Store)
    requires Plain(layout, s)
    ensures Ready([], Steps(layout)[..2], s)
  {
    hide Plain;
    var first := Steps(layout)[..2];
    assert first == [PlaceDirectory(layout.SetupRoot()), PlaceFile(layout.SetupFile(), layout.runningSetup)];
    assert Parent(layout.SetupRoot()) == layout.installRoot && Parent(layout.SetupFile()) == layout.SetupRoot();
    assert first[0] in first[..1];
    NoFileIsDirectory(layout, s);
  }

  /** The store once the setup copy is placed, and what was logged for it. */
  function SetupStore(layout: Layout, s: Store): Store
    requires layout.runningSetup.Some?
  {
    Store(s.files[layout.SetupFile() := layout.runningSetup.value], s.dirs + {layout.SetupRoot()}, s.key)
  }

  function SetupLog(layout: Layout, s: Store): seq<Undo> {
    [RemoveNewDirectory(layout.SetupRoot(), layout.SetupRoot() in s.dirs),
     RestoreFile(layout.SetupFile(), Lookup(s.files, layout.SetupFile()))]
  }

  lemma SetupPlaced(layout: Layout, s: Store, fault: Fault)
    requires WellFormed(s) && Plain(layout, s)
    ensures var (log, now, ok) := PlaceAll([], s, Steps(layout)[..2], fault);
            && (ok <==> fault.at !in {0, 1} && layout.runningSetup.Some? && layout.SetupRoot() !in s.files)
            && (ok ==> log == SetupLog(layout, s) && now == SetupStore(layout, s))
  {
    var first, root, file := Steps(layout)[..2], layout.SetupRoot(), layout.SetupFile();
    assert first == [PlaceDirectory(root), PlaceFile(file, layout.runningSetup)];
    SetupRootMade(layout, s);
    assert Parent(file) == root;
    var (after, ok) := Perform(first[0], s, fault.at == 0, fault);
    var later := fault.(at := fault.at - 1);
    assert first[1..] == [first[1]] && first[1..][1..] == [];
    assert [] + [CaptureOf(first[0], s)] == [CaptureOf(first[0], s)];
    assert PlaceAll([], s, first, fault) ==
           if ok then PlaceAll([CaptureOf(first[0], s)], after, first[1..], later)
           else ([CaptureOf(first[0], s)], after, false);
    if ok {
      assert after == s.(dirs := s.dirs + {root});
      assert |file| == |root| + 1 && Reaches(after, file);
      var log := [CaptureOf(first[0], s)];
      assert log + [CaptureOf(first[1], after)] == SetupLog(layout, s);
      var (last, went) := Perform(first[1], after, later.at == 0, later);
      assert PlaceAll(log, after, first[1..], later) == (log + [CaptureOf(first[1], after)], last, went);
    }
  }

  lemma SetupRootMade(layout: Layout, s: Store)
    requires WellFormed(s) && Plain(layout, s)
    ensures CreateDirectory(s, layout.SetupRoot()) ==
            if layout.SetupRoot() in s.files then Failure("a file is in the way")
            else Success(s.(dirs := s.dirs + {layout.SetupRoot()}))
  {
    var root := layout.SetupRoot();
    assert root[..|root|] == root && layout.installRoot == Parent(root);
    forall a | a in Prefixes(root) ensures a == root || (a in s.dirs && a !in s.files) {
      var i :| 0 <= i <= |root| && a == root[..i];
      if i < |root| - 1 {
        AncestorIsDirectory(s, layout.installRoot, i);
        assert a == layout.installRoot[..i];
      }
    }
    assert root in Prefixes(root);
    assert s.dirs + Prefixes(root) == s.dirs + {root};
  }

  lemma ShortcutPaths(layout: Layout, s: Store)
    requires WellFormed(s) && Plain(layout, s) && layout.programs !in s.dirs
    ensures layout.Shortcuts() !in s.dirs && layout.Shortcuts() != layout.SetupRoot()
    ensures Prefixes(layout.Shortcuts()) == Prefixes(layout.programs) + {layout.Shortcuts()}
    ensures layout.programs in Prefixes(layout.programs)
    ensures forall e :: e in Prefixes(layout.programs) ==> |e| < |layout.Shortcuts()|
  {
    var d, menu := layout.Shortcuts(), layout.programs;
    assert Parent(d) == menu && Parent(layout.SetupRoot()) == layout.installRoot;
    assert d == d[..|d|] && menu == menu[..|menu|];
    forall e ensures e in Prefixes(d) <==> e in Prefixes(menu) || e == d {
      if e in Prefixes(d) {
        var i :| 0 <= i <= |d| && e == d[..i];
        assert i < |d| ==> e == menu[..i];
      }
      if e in Prefixes(menu) {
        var i :| 0 <= i <= |menu| && e == menu[..i];
        assert e == d[..i];
      }
    }
  }

  /** The shortcut directory cannot be created: the store is as the setup copy left it. */
  lemma ShortcutsBlocked(layout: Layout, s: Store, now: Store, fault: Fault)
    requires WellFormed(s) && Plain(layout, s) && layout.programs !in s.dirs && layout.runningSetup.Some?
    requires now == SetupStore(layout, s) && (fault.at == 0 || FileInTheWay(layout, s))
    ensures var (more, after, _) := PlaceAll([], now, Steps(layout)[2..], fault);
            UndoAll(more, after) == (now, [], true)
  {
    hide WellFormed, Plain, PlaceAll;
    var d, rest := layout.Shortcuts(), Steps(layout)[2..];
    ShortcutPaths(layout, s);
    assert rest[0] == PlaceDirectory(d);
    PlaceOnward([], now, rest, fault);
    assert CreateDirectory(now, d).Failure? || fault.at == 0;
    assert [] + [RemoveNewDirectory(d, false)] == [RemoveNewDirectory(d, false)];
    NothingNew(now, d);
  }

  lemma NothingNew(s: Store, d: Path)
    requires d !in s.dirs
    ensures UndoAll([RemoveNewDirectory(d, false)], s) == (s, [], true)
  {
    assert [RemoveNewDirectory(d, false)][..0] == [];
  }

  /** The shortcuts and the registration are undone, down to the start menu they lie in. */
  lemma ShortcutsUndone(layout: Layout, s: Store, now: Store, fault: Fault)
    requires WellFormed(s) && Plain(layout, s) && layout.programs !in s.dirs && layout.runningSetup.Some?
    requires now == SetupStore(layout, s) && layout.SetupRoot() !in s.files
    requires fault.at != 0 && !FileInTheWay(layout, s)
    ensures var (more, after, _) := PlaceAll([], now, Steps(layout)[2..], fault);
            UndoAll(more, after) == (WithMenu(layout, now), [], true)
  {
    var d, rest, menu := layout.Shortcuts(), Steps(layout)[2..], WithMenu(layout, now);
    ShortcutPaths(layout, s);
    assert rest[0] == PlaceDirectory(d);
    assert CreateDirectory(now, d) == CreateDirectory(menu, d) by {
      assert now.dirs + Prefixes(d) == menu.dirs + Prefixes(d);
    }
    assert Perform(rest[0], now, false, fault) == Perform(rest[0], menu, false, fault);
    assert CaptureOf(rest[0], now) == CaptureOf(rest[0], menu);
    assert PlaceAll([], now, rest, fault) == PlaceAll([], menu, rest, fault);
    MenuReady(layout, s);
    PlaceAllUndone(menu, rest, fault);
  }

  lemma MenuReady(layout: Layout, s: Store)
    requires WellFormed(s) && Plain(layout, s) && layout.programs !in s.dirs && layout.runningSetup.Some?
    requires layout.SetupRoot() !in s.files && !FileInTheWay(layout, s)
    ensures var menu := WithMenu(layout, SetupStore(layout, s));
            WellFormed(menu) && Ready([], Steps(layout)[2..], menu)
  {
    hide WellFormed, Plain, SetupStore, FileInTheWay;
    MenuWellFormed(layout, s);
    ShortcutPaths(layout, s);
    MenuLinks(layout, s);
    LinksFollow(layout, WithMenu(layout, SetupStore(layout, s)));
  }

  lemma LinksFollow(layout: Layout, menu: Store)
    requires layout.programs in menu.dirs
    ensures var rest := Steps(layout)[2..];
            forall i :: 0 <= i < |rest| && !rest[i].PlaceKey? ==>
              rest[i].path != [] && (Parent(rest[i].path) in menu.dirs || PlacesParent(rest[..i], rest[i].path))
  {
    var rest := Steps(layout)[2..];
    assert Parent(layout.Shortcuts()) == layout.programs;
    assert Parent(layout.ConsoleLink()) == layout.Shortcuts() == Parent(layout.SetupLink());
    assert forall i :: 0 < i < |rest| ==> rest[0] in rest[..i];
  }

  lemma MenuWellFormed(layout: Layout, s: Store)
    requires WellFormed(s) && Plain(layout, s) && layout.programs !in s.dirs && layout.runningSetup.Some?
    requires layout.SetupRoot() !in s.files && !FileInTheWay(layout, s)
    ensures WellFormed(WithMenu(layout, SetupStore(layout, s)))
  {
    hide WellFormed, Plain;
    ShortcutPaths(layout, s);
    SetupWellFormed(layout, s);
    CreateKeepsWellFormed(SetupStore(layout, s), layout.programs);
  }

  lemma MenuLinks(layout: Layout, s: Store)
    requires Plain(layout, s) && layout.runningSetup.Some?
    ensures var menu, rest := WithMenu(layout, SetupStore(layout, s)), Steps(layout)[2..];
            forall f :: f in rest && f.PlaceFile? ==> f.path !in menu.dirs && !PlacesDirectory(rest, f.path)
  {
    assert |layout.ConsoleLink()| == |layout.SetupLink()| == |layout.Shortcuts()| + 1;
    assert forall e :: e in Prefixes(layout.programs) ==> |e| <= |layout.programs|;
  }

  lemma SetupWellFormed(layout: Layout, s: Store)
    requires WellFormed(s) && Plain(layout, s) && layout.runningSetup.Some? && layout.SetupRoot() !in s.files
    ensures WellFormed(SetupStore(layout, s))
  {
    assert Parent(layout.SetupRoot()) == layout.installRoot && Parent(layout.SetupFile()) == layout.SetupRoot();
    assert |layout.SetupFile()| == |layout.SetupRoot()| + 1;
  }

  /** Taking back the setup copy, with the start menu there or not. */
  lemma SetupTakenBack(layout: Layout, s: Store)
    requires WellFormed(s) && Plain(layout, s) && layout.programs !in s.dirs && layout.runningSetup.Some?
    requires layout.SetupRoot() !in s.files && !FileInTheWay(layout, s)
    ensures UndoAll(SetupLog(layout, s), WithMenu(layout, SetupStore(layout, s))) == (WithMenu(layout, s), [], true)
  {
    var log, root := SetupLog(layout, s), layout.SetupRoot();
    var now := WithMenu(layout, SetupStore(layout, s));
    var kept := now.(files := s.files);
    assert log[..1] == [log[0]] && log[..1][..0] == [];
    SetupFileBack(layout, s);
    assert UndoAll(log, now) == UndoAll([log[0]], kept);
    SetupRootBack(layout, s);
  }

  lemma SetupFileBack(layout: Layout, s: Store)
    requires WellFormed(s) && Plain(layout, s) && layout.programs !in s.dirs && layout.runningSetup.Some?
    requires layout.SetupRoot() !in s.files && !FileInTheWay(layout, s)
    ensures var now := WithMenu(layout, SetupStore(layout, s));
            Apply(SetupLog(layout, s)[1], now) == Success(now.(files := s.files))
  {
    var root, file := layout.SetupRoot(), layout.SetupFile();
    var now := WithMenu(layout, SetupStore(layout, s));
    assert Parent(file) == root;
    SetupFileReached(layout, s);
    PlacedFileBack(now, s.files, file, layout.runningSetup.value);
  }

  lemma SetupFileReached(layout: Layout, s: Store)
    requires WellFormed(s) && Plain(layout, s) && layout.programs !in s.dirs && layout.runningSetup.Some?
    requires layout.SetupRoot() !in s.files && !FileInTheWay(layout, s)
    ensures var now := WithMenu(layout, SetupStore(layout, s));
            WellFormed(now) && Reaches(now, layout.SetupFile())
  {
    hide WellFormed;
    MenuWellFormed(layout, s);
    ShortcutPaths(layout, s);
    assert Parent(layout.SetupFile()) == layout.SetupRoot();
    assert |layout.SetupFile()| == |layout.SetupRoot()| + 1;
  }

  /** Undoing a placed file gives back the files from before. */
  lemma PlacedFileBack(now: Store, files: map<Path, Bytes>, p: Path, bytes: Bytes)
    requires WellFormed(now) && now.files == files[p := bytes] && Reaches(now, p)
    ensures Apply(RestoreFile(p, Lookup(files, p)), now) == Success(now.(files := files))
  {
    PrefixesAreDirectories(now, Parent(p));
    assert now.dirs + Prefixes(Parent(p)) == now.dirs;
    if p in files {
      assert now.files[p := files[p]] == files;
    } else {
      assert now.files - {p} == files;
    }
  }

  lemma SetupRootBack(layout: Layout, s: Store)
    requires WellFormed(s) && Plain(layout, s)
    ensures var kept := Store(s.files, s.dirs + {layout.SetupRoot()} + Prefixes(layout.programs), s.key);
            Apply(SetupLog(layout, s)[0], kept) == Success(WithMenu(layout, s))
  {
    var root, menu := layout.SetupRoot(), layout.programs;
    var kept := Store(s.files, s.dirs + {root} + Prefixes(menu), s.key);
    if root in s.dirs {
      assert kept.dirs == WithMenu(layout, s).dirs;
    } else if root < menu {
      var below := menu[..|root| + 1];
      assert menu[..|root|] == root && root in Prefixes(menu) && below in Prefixes(menu);
      assert root < below && below in kept.dirs;
      assert kept.dirs == WithMenu(layout, s).dirs;
    } else {
      NotAbove(root, menu);
      NothingBelow(s, root);
      assert kept.dirs - {root} == WithMenu(layout, s).dirs;
    }
  }

  lemma NotAbove(p: Path, q: Path)
    requires !(p <= q)
    ensures forall e :: e in Prefixes(q) ==> !(p <= e)
  {
    forall e | e in Prefixes(q) ensures !(p <= e) {
      var i :| 0 <= i <= |q| && e == q[..i];
      assert e <= q;
    }
  }

  lemma NothingBelow(s: Store, d: Path)
    requires WellFormed(s) && d !in s.dirs
    ensures IsEmptyDirectory(s, d)
  {
    assert forall p: Path :: d < p && |p| == |d| + 1 ==> Parent(p) == d;
  }

  /** A registration that fails leaves the start menu it had to create. */
  lemma StartMenuStays(setup: Bytes, shortcut: Bytes)
    ensures var layout := Layout(["Fleet"], ["Programs"], "Rusty Fleet", "Setup.exe", Some(setup), shortcut, shortcut, map[]);
            var before := Store(map[], {[], ["Fleet"]}, None);
            var (log, now, ok) := PlaceAll([], before, Steps(layout), Fault(5, None, None));
            && WellFormed(before) && Plain(layout, before) && !ok
            && UndoAll(log, now).0 == before.(dirs := {[], ["Fleet"], ["Programs"]})
  {
    hide PlaceAll, UndoAll;
    var layout := Layout(["Fleet"], ["Programs"], "Rusty Fleet", "Setup.exe", Some(setup), shortcut, shortcut, map[]);
    var before := Store(map[], {[], ["Fleet"]}, None);
    ApplyWithoutPrograms(layout, before, Fault(5, None, None));
    LastStepFails([], before, Steps(layout), Fault(5, None, None));
    OneComponent("Programs");
    assert !StopsEarly(layout, before, Fault(5, None, None)) by {
      ShortcutPaths(layout, before);
    }
    assert WithMenu(layout, before).dirs == {[], ["Fleet"], ["Programs"]};
  }

  lemma OneComponent(name: string)
    ensures Prefixes([name]) == {[], [name]}
  {
    assert [name][..0] == [] && [name][..1] == [name];
  }

  lemma {:induction false} LastStepFails(stack: seq<Undo>, s: Store, steps: seq<Step>, fault: Fault)
    requires 0 <= fault.at < |steps|
    ensures !PlaceAll(stack, s, steps, fault).2
    decreases |steps|
  {
    var (after, ok) := Perform(steps[0], s, fault.at == 0, fault);
    if fault.at != 0 && ok {
      LastStepFails(stack + [CaptureOf(steps[0], s)], after, steps[1..], fault.(at := fault.at - 1));
    }
  }

  // ---------------------------------------------------------------- the transaction object

  /** The machine that Setup changes in place. */
  class Desktop {
    var store: Store

    constructor (initial: Store)
      ensures store == initial
    {
      store := initial;
    }
  }

  class ShellIdentityTransaction {
    var rollback: seq<Undo>
    var committed: bool

    constructor ()
      ensures rollback == [] && !committed
    {
      rollback, committed := [], false;
    }

    method AddRollback(action: Undo)
      modifies `rollback
      ensures rollback == old(rollback) + [action]
    {
      rollback := rollback + [action];
    }

    method Commit()
      modifies `committed
      ensures committed
    {
      committed := true;
    }

    /** Pops and runs the log, unless committed; an action that throws ends the disposal with the
        rest of the log still in place. */
    method Dispose(desktop: Desktop) returns (completed: bool)
      modifies `rollback, desktop
      ensures old(committed) ==> completed && rollback == old(rollback) && desktop.store == old(desktop.store)
      ensures !old(committed) ==> (desktop.store, rollback, completed) == UndoAll(old(rollback), old(desktop.store))
    {
      if committed {
        return true;
      }
      while rollback != []
        invariant UndoAll(rollback, desktop.store) == UndoAll(old(rollback), old(desktop.store))
        decreases |rollback|
      {
        var action := rollback[|rollback| - 1];
        rollback := rollback[..|rollback| - 1];
        var undone := Apply(action, desktop.store);
        if undone.Failure? {
          return false;
        }
        desktop.store := undone.value;
      }
      completed := true;
    }

    /** Captures what `step` is about to change, then changes it. */
    method Place(desktop: Desktop, step: Step, fails: bool, fault: Fault) returns (ok: bool)
      modifies `rollback, desktop
      ensures rollback == old(rollback) + [CaptureOf(step, old(desktop.store))]
      ensures (desktop.store, ok) == Perform(step, old(desktop.store), fails, fault)
    {
      AddRollback(CaptureOf(step, desktop.store));
      var (after, went) := Perform(step, desktop.store, fails, fault);
      desktop.store := after;
      ok := went;
    }
  }

  /** Disposing a second time changes nothing after a commit or a completed disposal; after one that
      stopped it goes on below the action that failed. */
  method DisposeTwice(transaction: ShellIdentityTransaction, desktop: Desktop) returns (first: bool, second: bool)
    modifies transaction`rollback, desktop
    ensures old(transaction.committed) ==> first && second && desktop.store == old(desktop.store)
    ensures !old(transaction.committed) ==>
      var (after, rest, completed) := UndoAll(old(transaction.rollback), old(desktop.store));
      && first == completed
      && (completed ==> second && desktop.store == after)
      && (!completed ==>
            && |rest| < |old(transaction.rollback)| && rest == old(transaction.rollback)[..|rest|]
            && (desktop.store, transaction.rollback, second) == UndoAll(rest, after))
  {
    StoppedBelow(transaction.rollback, desktop.store);
    first := transaction.Dispose(desktop);
    second := transaction.Dispose(desktop);
  }

  /** ShellIdentity.Apply: a transaction on success, and on failure the log has been undone. */
  method ApplyShell(desktop: Desktop, layout: Layout, fault: Fault) returns (result: Option<ShellIdentityTransaction>)
    modifies desktop
    ensures result.Some? ==> fresh(result.value) && !result.value.committed
    ensures result.Some? ==>
      (result.value.rollback, desktop.store, true) == PlaceAll([], old(desktop.store), Steps(layout), fault)
    ensures result.None? ==>
      var (log, now, ok) := PlaceAll([], old(desktop.store), Steps(layout), fault);
      !ok && desktop.store == UndoAll(log, now).0
    ensures result.None? && WellFormed(old(desktop.store)) && Plain(layout, old(desktop.store)) ==>
      desktop.store ==
      if layout.programs in old(desktop.store).dirs || StopsEarly(layout, old(desktop.store), fault)
      then old(desktop.store) else WithMenu(layout, old(desktop.store))
  {
    ghost var start := desktop.store;
    var transaction := new ShellIdentityTransaction();
    var ok := PlaceSteps(desktop, transaction, layout, fault);
    if ok {
      return Some(transaction);
    }
    ghost var now := desktop.store;
    var completed := transaction.Dispose(desktop);
    if WellFormed(start) && Plain(layout, start) {
      if layout.programs in start.dirs {
        ApplyUndone(layout, start, fault);
      } else {
        ApplyWithoutPrograms(layout, start, fault);
      }
    }
    result := None;
  }

  /** One unfolding of a run of steps. */
  lemma PlaceOnward(stack: seq<Undo>, s: Store, steps: seq<Step>, fault: Fault)
    requires steps != []
    ensures var (after, ok) := Perform(steps[0], s, fault.at == 0, fault);
            var more := stack + [CaptureOf(steps[0], s)];
            PlaceAll(stack, s, steps, fault) ==
            if !ok then (more, after, false)
            else if |steps| == 1 then (more, after, true)
            else PlaceAll(more, after, steps[1..], fault.(at := fault.at - 1))
  {
  }

  method PlaceSteps(desktop: Desktop, transaction: ShellIdentityTransaction, layout: Layout, fault: Fault) returns (ok: bool)
    requires transaction.rollback == []
    modifies desktop, transaction`rollback
    ensures (transaction.rollback, desktop.store, ok) == PlaceAll([], old(desktop.store), Steps(layout), fault)
  {
    hide Perform, CaptureOf, PlaceAll;
    var faults := Countdown(fault);
    ghost var steps := Steps(layout);
    PlaceOnward(transaction.rollback, desktop.store, steps[0..], faults(0));
    ok := transaction.Place(desktop, PlaceDirectory(layout.SetupRoot()), fault.at == 0, faults(0));
    if !ok { return; }
    PlaceOnward(transaction.rollback, desktop.store, steps[1..], faults(1));
    ok := transaction.Place(desktop, PlaceFile(layout.SetupFile(), layout.runningSetup), fault.at == 1, faults(1));
    if ok {
      ok := PlaceShortcuts(desktop, transaction, layout, faults(2));
    }
  }

  method PlaceShortcuts(desktop: Desktop, transaction: ShellIdentityTransaction, layout: Layout, fault: Fault)
    returns (ok: bool)
    modifies desktop, transaction`rollback
    ensures (transaction.rollback, desktop.store, ok) ==
            PlaceAll(old(transaction.rollback), old(desktop.store), Steps(layout)[2..], fault)
  {
    hide Perform, CaptureOf, PlaceAll;
    var faults := Countdown(fault);
    ghost var steps := Steps(layout)[2..];
    PlaceOnward(transaction.rollback, desktop.store, steps[0..], faults(0));
    ok := transaction.Place(desktop, PlaceDirectory(layout.Shortcuts()), fault.at == 0, faults(0));
    if !ok { return; }
    PlaceOnward(transaction.rollback, desktop.store, steps[1..], faults(1));
    ok := transaction.Place(desktop, PlaceFile(layout.ConsoleLink(), Some(layout.consoleShortcut)), fault.at == 1, faults(1));
    if !ok { return; }
    PlaceOnward(transaction.rollback, desktop.store, steps[2..], faults(2));
    ok := transaction.Place(desktop, PlaceFile(layout.SetupLink(), Some(layout.setupShortcut)), fault.at == 2, faults(2));
    if !ok { return; }
    PlaceOnward(transaction.rollback, desktop.store, steps[3..], faults(3));
    ok := transaction.Place(desktop, PlaceKey(layout.values), fault.at == 3, faults(3));
  }

  function Countdown(fault: Fault): int -> Fault { passed => fault.(at := fault.at - passed) }
}
