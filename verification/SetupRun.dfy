/** One run of Setup from end to end, with everything that can throw on the way: the candidate tree
    is extracted, the shell identity is applied, the recorded state is renamed into place, and a
    failure undoes the shell identity. */
module SetupRun {
  import opened Basics
  import opened ShellTransaction
  import opened ShellIdentity
  import opened ReleaseHistory
  import opened Paths

  /** The new state is renamed into place and read back; either may throw. */
  datatype CommitFault = Clean | BeforeRename | AfterRename

  /** Extraction throws and leaves this tree; the checks of the new state throw; the shell identity
      fails at one operation; the commit throws; the checks after the commit throw. */
  datatype Faults = Faults(
    extraction: Option<Definition>, checks: bool, shell: Fault, commit: CommitFault, late: bool)

  /** The recorded state, the installed trees and what Setup keeps outside of them. */
  datatype World = World(recorded: Option<InstallState>, disk: Disk, store: Store)

  const DISPLAY_VERSION := "DisplayVersion"

  /** The layout without a release, and the bytes of a shortcut into a release's tree. */
  datatype Product = Product(base: Layout, link: string -> Bytes)
  {
    function LayoutOf(r: Release): Layout {
      base.(consoleShortcut := link(r.relativePath), values := base.values[DISPLAY_VERSION := Text(r.version)])
    }
  }

  function RunSetup(product: Product, w: World, action: Action, faults: Faults): (World, bool) {
    var (plan, installed) := ReleaseHistory.Execute(w.recorded, w.disk, action);
    if plan.Failure? then (w.(disk := installed), false)
    else if Extracts(w, plan.value) && faults.extraction.Some? then
      (w.(disk := w.disk[plan.value.current.relativePath := faults.extraction.value]), false)
    else if faults.checks then (w.(disk := installed), false)
    else
      var (log, placed, applied) := PlaceAll([], w.store, Steps(product.LayoutOf(plan.value.current)), faults.shell);
      var undone := UndoAll(log, placed).0;
      if !applied then (World(w.recorded, installed, undone), false)
      else
        match faults.commit
        case Clean => (World(Some(plan.value), installed, placed), !faults.late)
        case BeforeRename => (World(w.recorded, installed, undone), false)
        case AfterRename => (World(Some(plan.value), installed, undone), false)
  }

  predicate Extracts(w: World, plan: InstallState) { plan.current.relativePath !in w.disk }

  /** The state that a run gets as far as renaming into place, if any. */
  function Renamed(product: Product, w: World, action: Action, faults: Faults): Option<InstallState> {
    var plan := ReleaseHistory.Execute(w.recorded, w.disk, action).0;
    if plan.Failure? || (Extracts(w, plan.value) && faults.extraction.Some?) || faults.checks then None
    else if !PlaceAll([], w.store, Steps(product.LayoutOf(plan.value.current)), faults.shell).2 then None
    else if faults.commit.BeforeRename? then None
    else Some(plan.value)
  }

  // ---------------------------------------------------------------- the installer object

  class Installer {
    var recorded: Option<InstallState>
    var disk: Disk
    const desktop: Desktop

    constructor (recorded: Option<InstallState>, disk: Disk, desktop: Desktop)
      ensures this.desktop == desktop && View() == World(recorded, disk, desktop.store)
    {
      this.recorded, this.disk, this.desktop := recorded, disk, desktop;
    }

    ghost function View(): World
      reads this, desktop
    {
      World(recorded, disk, desktop.store)
    }

    /** The rename, and the check of the renamed file; says whether nothing threw. */
    method CommitState(state: InstallState, fault: CommitFault) returns (ok: bool)
      modifies `recorded
      ensures ok == fault.Clean?
      ensures recorded == if fault.BeforeRename? then old(recorded) else Some(state)
    {
      ok := false;
      if !fault.BeforeRename? {
        recorded := Some(state);
        ok := fault.Clean?;
      }
    }

    method Execute(product: Product, action: Action, faults: Faults) returns (ok: bool)
      modifies this, desktop
      ensures (View(), ok) == RunSetup(product, old(View()), action, faults)
    {
      hide PlaceAll, UndoAll, ReleaseHistory.Execute;
      var (plan, installed) := ReleaseHistory.Execute(recorded, disk, action);
      if plan.Failure? {
        disk := installed;
        return false;
      }
      var state := plan.value;
      if state.current.relativePath !in disk && faults.extraction.Some? {
        disk := disk[state.current.relativePath := faults.extraction.value];
        return false;
      }
      disk := installed;
      if faults.checks {
        return false;
      }
      var transaction := ApplyShell(desktop, product.LayoutOf(state.current), faults.shell);
      if transaction.None? {
        return false;
      }
      var committed := CommitState(state, faults.commit);
      if committed {
        transaction.value.Commit();
      }
      var completed := transaction.value.Dispose(desktop);
      ok := committed && !faults.late;
    }
  }

  // ---------------------------------------------------------------- the recorded history

  /** The recorded state moves on exactly when the rename is reached. */
  lemma RecordedMoves(product: Product, w: World, action: Action, faults: Faults)
    ensures var renamed := Renamed(product, w, action, faults);
            RunSetup(product, w, action, faults).0.recorded == if renamed.Some? then renamed else w.recorded
  {
    hide PlaceAll, UndoAll, ReleaseHistory.Execute;
  }

  ghost function FaultyOrder(product: Product, w: World, order: seq<string>, action: Action, faults: Faults): seq<string>
    requires Tracks(w.recorded, w.disk, order) && UsableSuffix(action)
  {
    ReleaseHistory.Step(w.recorded, w.disk, order, action);
    if Renamed(product, w, action, faults).Some? then StepOrder(order, action) else order
  }

  /** Whatever throws, the recorded releases stay valid and are the first ids of the unbounded order,
      touched exactly when the rename was reached. */
  lemma FaultyTracks(product: Product, w: World, order: seq<string>, action: Action, faults: Faults)
    requires Tracks(w.recorded, w.disk, order) && UsableSuffix(action)
    ensures var after := RunSetup(product, w, action, faults).0;
            Tracks(after.recorded, after.disk, FaultyOrder(product, w, order, action, faults))
  {
    hide PlaceAll, UndoAll, Tracks, ReleaseHistory.Execute, StepOrder, Commits;
    ReleaseHistory.Step(w.recorded, w.disk, order, action);
    var (plan, installed) := ReleaseHistory.Execute(w.recorded, w.disk, action);
    if plan.Success? {
      DiskGrows(w, order, action);
      if Extracts(w, plan.value) && faults.extraction.Some? {
        TracksSurvives(w.recorded, w.disk, order, plan.value.current.relativePath, faults.extraction.value);
      }
    }
  }

  /** The trees recorded before are still there, whatever the run added. */
  lemma DiskGrows(w: World, order: seq<string>, action: Action)
    requires Tracks(w.recorded, w.disk, order)
    ensures Tracks(w.recorded, ReleaseHistory.Execute(w.recorded, w.disk, action).1, order)
  {
    hide Tracks, Checked, ValidState;
    if action.Install? && ValidBundle(action.bundle) {
      var bundle := action.bundle;
      var path := CandidatePath(bundle, action.guid);
      if path !in w.disk {
        TracksSurvives(w.recorded, w.disk, order, path, Definition(bundle.version, bundle.manifestSha256));
      }
    }
  }

  // ---------------------------------------------------------------- whole runs

  datatype Attempt = Attempt(action: Action, faults: Faults)

  function RunAll(product: Product, w: World, attempts: seq<Attempt>): World
    decreases |attempts|
  {
    if attempts == [] then w
    else RunAll(product, RunSetup(product, w, attempts[0].action, attempts[0].faults).0, attempts[1..])
  }

  ghost function AllOrder(product: Product, w: World, order: seq<string>, attempts: seq<Attempt>): seq<string>
    requires Tracks(w.recorded, w.disk, order) && forall a :: a in attempts ==> UsableSuffix(a.action)
    decreases |attempts|
  {
    if attempts == [] then order
    else
      var a := attempts[0];
      FaultyTracks(product, w, order, a.action, a.faults);
      AllOrder(product, RunSetup(product, w, a.action, a.faults).0,
               FaultyOrder(product, w, order, a.action, a.faults), attempts[1..])
  }

  /** Over every sequence of attempts, each failing anywhere, the recorded state stands for the
      order of the renames that were reached. */
  lemma {:induction false} AllTracks(product: Product, w: World, order: seq<string>, attempts: seq<Attempt>)
    requires Tracks(w.recorded, w.disk, order) && forall a :: a in attempts ==> UsableSuffix(a.action)
    ensures var after := RunAll(product, w, attempts);
            Tracks(after.recorded, after.disk, AllOrder(product, w, order, attempts))
    decreases |attempts|
  {
    hide Tracks, RunSetup, FaultyOrder;
    if attempts != [] {
      var a := attempts[0];
      FaultyTracks(product, w, order, a.action, a.faults);
      AllTracks(product, RunSetup(product, w, a.action, a.faults).0,
                FaultyOrder(product, w, order, a.action, a.faults), attempts[1..]);
    }
  }

  // ---------------------------------------------------------------- what the shell identity names

  /** The console shortcut and the registration are those of this layout. */
  ghost predicate Names(s: Store, layout: Layout) {
    && layout.ConsoleLink() in s.files && s.files[layout.ConsoleLink()] == layout.consoleShortcut
    && s.key.Some? && forall name :: name in layout.values ==> name in s.key.value && s.key.value[name] == layout.values[name]
  }

  /** The shell identity is that of the recorded current release. */
  ghost predicate Identified(product: Product, w: World) {
    w.recorded.Some? ==> Names(w.store, product.LayoutOf(w.recorded.value.current))
  }

  ghost predicate Grounded(product: Product, s: Store) { WellFormed(s) && Plain(product.base, s) }

  /** The store once every step went through. */
  function PlacedStore(layout: Layout, s: Store): Store
    requires layout.runningSetup.Some?
  {
    Store(s.files[layout.SetupFile() := layout.runningSetup.value]
                 [layout.ConsoleLink() := layout.consoleShortcut][layout.SetupLink() := layout.setupShortcut],
          s.dirs + {layout.SetupRoot()} + Prefixes(layout.Shortcuts()),
          Some(Merge(s.key, layout.values)))
  }

  /** The application goes through exactly when no operation fails, the running Setup is known and no
      file stands where a directory has to go; then it leaves exactly this store. */
  lemma PlacedExactly(layout: Layout, s: Store, fault: Fault)
    requires WellFormed(s) && Plain(layout, s)
    ensures var (_, now, ok) := PlaceAll([], s, Steps(layout), fault);
            && (ok <==> !StopsEarly(layout, s, fault) && fault.at !in {3, 4, 5})
            && (ok ==> now == PlacedStore(layout, s))
  {
    hide PlaceAll, Perform, CaptureOf, WellFormed, Plain, FileInTheWay;
    var first, rest := Steps(layout)[..2], Steps(layout)[2..];
    assert first + rest == Steps(layout);
    SetupPlaced(layout, s, fault);
    PlaceAllConcat([], s, first, rest, fault);
    if layout.runningSetup.Some? {
      ShortcutsPlaced(layout, s, SetupLog(layout, s), fault.(at := fault.at - 2));
    }
  }

  lemma ShortcutsPlaced(layout: Layout, s: Store, log: seq<Undo>, fault: Fault)
    requires Plain(layout, s) && layout.runningSetup.Some?
    ensures var (_, now, ok) := PlaceAll(log, SetupStore(layout, s), Steps(layout)[2..], fault);
            && (ok <==> !FileInTheWay(layout, s) && fault.at !in {0, 1, 2, 3})
            && (ok ==> now == PlacedStore(layout, s))
  {
    var rest, setup := Steps(layout)[2..], SetupStore(layout, s);
    var (made, ok) := Perform(rest[0], setup, fault.at == 0, fault);
    var later, more := fault.(at := fault.at - 1), log + [CaptureOf(rest[0], setup)];
    assert rest[0] == PlaceDirectory(layout.Shortcuts()) && rest[1..] == Steps(layout)[3..];
    assert PlaceAll(log, setup, rest, fault) == if ok then PlaceAll(more, made, rest[1..], later) else (more, made, false);
    if ok {
      forall a | a in Prefixes(layout.Shortcuts()) ensures a !in s.files && a != layout.SetupFile() {
        assert a !in setup.files;
      }
      assert made == setup.(dirs := s.dirs + {layout.SetupRoot()} + Prefixes(layout.Shortcuts()));
      LinksReached(layout, s, made);
      LinksPlaced(layout, made, more, later);
      assert !FileInTheWay(layout, s);
      assert made.files == setup.files && made.key == s.key;
    } else {
      assert FileInTheWay(layout, s) || fault.at == 0;
    }
  }

  lemma LinksReached(layout: Layout, s: Store, made: Store)
    requires Plain(layout, s)
    requires made.dirs == s.dirs + {layout.SetupRoot()} + Prefixes(layout.Shortcuts())
    ensures Reaches(made, layout.ConsoleLink()) && Reaches(made, layout.SetupLink())
  {
    var d := layout.Shortcuts();
    assert d == d[..|d|] && d in Prefixes(d);
    assert Parent(layout.ConsoleLink()) == d == Parent(layout.SetupLink());
    assert |layout.ConsoleLink()| == |layout.SetupLink()| == |d| + 1;
    assert forall e :: e in Prefixes(d) ==> |e| <= |d|;
  }

  lemma LinksPlaced(layout: Layout, s: Store, log: seq<Undo>, fault: Fault)
    requires Reaches(s, layout.ConsoleLink()) && Reaches(s, layout.SetupLink())
    ensures var (_, now, ok) := PlaceAll(log, s, Steps(layout)[3..], fault);
            && (ok <==> fault.at !in {0, 1, 2})
            && (ok ==> now == Store(
                  s.files[layout.ConsoleLink() := layout.consoleShortcut][layout.SetupLink() := layout.setupShortcut],
                  s.dirs, Some(Merge(s.key, layout.values))))
  {
    hide PlaceAll, CaptureOf;
    var links := Steps(layout)[3..];
    assert links == [PlaceFile(layout.ConsoleLink(), Some(layout.consoleShortcut)),
                     PlaceFile(layout.SetupLink(), Some(layout.setupShortcut)), PlaceKey(layout.values)];
    assert links[1..] == [links[1], links[2]] && links[1..][1..] == [links[2]];
    var next, last := fault.(at := fault.at - 1), fault.(at := fault.at - 2);
    var (console, _) := Perform(links[0], s, fault.at == 0, fault);
    var (both, _) := Perform(links[1], console, next.at == 0, next);
    var one := log + [CaptureOf(links[0], s)];
    PlaceOnward(log, s, links, fault);
    PlaceOnward(one, console, links[1..], next);
    PlaceOnward(one + [CaptureOf(links[1], console)], both, [links[2]], last);
  }

  lemma PlacedNames(layout: Layout, s: Store)
    requires layout.runningSetup.Some?
    ensures Names(PlacedStore(layout, s), layout)
  {
    var console, setup := layout.displayName + ".lnk", layout.displayName + " Setup.lnk";
    assert |console| != |setup|;
    assert layout.ConsoleLink()[|layout.Shortcuts()|] == console && layout.SetupLink()[|layout.Shortcuts()|] == setup;
  }

  lemma PlacedGrounded(product: Product, layout: Layout, s: Store)
    requires Grounded(product, s) && layout.runningSetup.Some?
    requires layout == product.base.(consoleShortcut := layout.consoleShortcut, values := layout.values)
    requires layout.SetupRoot() !in s.files && !FileInTheWay(layout, s)
    ensures Grounded(product, PlacedStore(layout, s))
  {
    var setup, d := SetupStore(layout, s), layout.Shortcuts();
    assert WellFormed(setup) by { SetupWellFormed(layout, s); }
    CreateKeepsWellFormed(setup, d);
    var made := CreateDirectory(setup, d).value;
    assert Parent(layout.ConsoleLink()) == d == Parent(layout.SetupLink());
    assert |layout.ConsoleLink()| == |layout.SetupLink()| == |d| + 1;
    LinksWellFormed(made, layout);
    assert forall e :: e in Prefixes(d) ==> |e| <= |d|;
  }

  lemma LinksWellFormed(s: Store, layout: Layout)
    requires WellFormed(s) && layout.Shortcuts() in s.dirs
    requires layout.ConsoleLink() !in s.dirs && layout.SetupLink() !in s.dirs
    ensures WellFormed(Store(
              s.files[layout.ConsoleLink() := layout.consoleShortcut][layout.SetupLink() := layout.setupShortcut],
              s.dirs, Some(Merge(s.key, layout.values))))
  {
    assert Parent(layout.ConsoleLink()) == layout.Shortcuts() == Parent(layout.SetupLink());
  }

  /** Undoing an application gives the files and the registration back, on a store that the next
      application can use. */
  lemma Undone(product: Product, layout: Layout, s: Store, fault: Fault)
    requires Grounded(product, s)
    requires layout == product.base.(consoleShortcut := layout.consoleShortcut, values := layout.values)
    ensures var (log, now, _) := PlaceAll([], s, Steps(layout), fault);
            var undone := UndoAll(log, now).0;
            undone.files == s.files && undone.key == s.key && Grounded(product, undone)
  {
    hide PlaceAll, UndoAll, WellFormed, FileInTheWay;
    if layout.programs in s.dirs {
      ApplyUndone(layout, s, fault);
    } else {
      ApplyWithoutPrograms(layout, s, fault);
      if !StopsEarly(layout, s, fault) {
        MenuGrounded(product, layout, s);
      }
    }
  }

  lemma MenuGrounded(product: Product, layout: Layout, s: Store)
    requires Grounded(product, s) && layout.programs !in s.dirs && !FileInTheWay(layout, s)
    requires layout == product.base.(consoleShortcut := layout.consoleShortcut, values := layout.values)
    ensures Grounded(product, WithMenu(layout, s))
  {
    ShortcutPaths(layout, s);
    CreateKeepsWellFormed(s, layout.programs);
    assert |layout.ConsoleLink()| == |layout.SetupLink()| == |layout.Shortcuts()| + 1;
  }

  /** What one run does to the agreement of shell identity and recorded state: nothing when the
      rename is not reached; it establishes it when nothing in the commit throws; and after a throw
      behind the rename they agree exactly when the shell identity happened to name the new release
      already, since that is what the undo restores. */
  lemma IdentifiedStep(product: Product, w: World, action: Action, faults: Faults)
    requires Grounded(product, w.store)
    ensures var after, renamed := RunSetup(product, w, action, faults).0, Renamed(product, w, action, faults);
            && Grounded(product, after.store)
            && (renamed.None? ==> (Identified(product, after) <==> Identified(product, w)))
            && (renamed.Some? && !faults.commit.AfterRename? ==> Identified(product, after))
            && (renamed.Some? && faults.commit.AfterRename? ==>
                  (Identified(product, after) <==> Names(w.store, product.LayoutOf(renamed.value.current))))
  {
    hide PlaceAll, UndoAll, ReleaseHistory.Execute, Grounded, WellFormed;
    var plan := ReleaseHistory.Execute(w.recorded, w.disk, action).0;
    if plan.Success? {
      var layout := product.LayoutOf(plan.value.current);
      Undone(product, layout, w.store, faults.shell);
      if PlaceAll([], w.store, Steps(layout), faults.shell).2 {
        Applied(product, layout, w.store, faults.shell);
      }
    }
  }

  lemma Applied(product: Product, layout: Layout, s: Store, fault: Fault)
    requires Grounded(product, s) && PlaceAll([], s, Steps(layout), fault).2
    requires layout == product.base.(consoleShortcut := layout.consoleShortcut, values := layout.values)
    ensures var now := PlaceAll([], s, Steps(layout), fault).1;
            Grounded(product, now) && Names(now, layout)
  {
    hide PlaceAll, WellFormed, FileInTheWay, Names;
    PlacedExactly(layout, s, fault);
    PlacedNames(layout, s);
    PlacedGrounded(product, layout, s);
  }

  /** A throw behind the rename leaves the shell identity of the release before it: it is wrong
      exactly when the two releases differ in version or in their console shortcut. */
  lemma LateThrowIff(product: Product, w: World, action: Action, faults: Faults)
    requires Grounded(product, w.store) && w.recorded.Some? && Identified(product, w)
    requires Renamed(product, w, action, faults).Some? && faults.commit.AfterRename?
    ensures var before, next := w.recorded.value.current, Renamed(product, w, action, faults).value.current;
            Identified(product, RunSetup(product, w, action, faults).0) <==>
            before.version == next.version && product.link(before.relativePath) == product.link(next.relativePath)
  {
    hide PlaceAll, UndoAll, ReleaseHistory.Execute, Grounded, RunSetup, Renamed;
    IdentifiedStep(product, w, action, faults);
    var before := product.LayoutOf(w.recorded.value.current);
    var next := product.LayoutOf(Renamed(product, w, action, faults).value.current);
    assert DISPLAY_VERSION in before.values && DISPLAY_VERSION in next.values;
    assert before.ConsoleLink() == next.ConsoleLink();
  }

  /** When a run reaches its rename, read off the input alone. */
  lemma RenamedIff(product: Product, w: World, action: Action, faults: Faults)
    requires Grounded(product, w.store)
    ensures var plan := ReleaseHistory.Execute(w.recorded, w.disk, action).0;
            Renamed(product, w, action, faults).Some? <==>
            && plan.Success? && !(Extracts(w, plan.value) && faults.extraction.Some?) && !faults.checks
            && !StopsEarly(product.LayoutOf(plan.value.current), w.store, faults.shell)
            && faults.shell.at !in {3, 4, 5} && !faults.commit.BeforeRename?
  {
    hide PlaceAll, WellFormed, ReleaseHistory.Execute;
    var plan := ReleaseHistory.Execute(w.recorded, w.disk, action).0;
    if plan.Success? {
      PlacedExactly(product.LayoutOf(plan.value.current), w.store, faults.shell);
    }
  }

  /** Setup reports success exactly when nothing at all goes wrong; then the new state is recorded,
      its shell identity is in place, and its tree is on disk. */
  lemma SucceedsIff(product: Product, w: World, action: Action, faults: Faults)
    requires Grounded(product, w.store)
    ensures var (plan, installed) := ReleaseHistory.Execute(w.recorded, w.disk, action);
            var (after, ok) := RunSetup(product, w, action, faults);
            && (ok <==>
                  && plan.Success? && !faults.checks && !faults.late && faults.commit == Clean
                  && (plan.value.current.relativePath !in w.disk ==> faults.extraction == None)
                  && !StopsEarly(product.LayoutOf(plan.value.current), w.store, faults.shell)
                  && faults.shell.at !in {3, 4, 5})
            && (ok ==>
                  && product.base.runningSetup != None
                  && after == World(Some(plan.value), installed, PlacedStore(product.LayoutOf(plan.value.current), w.store)))
  {
    hide PlaceAll, UndoAll, WellFormed, ReleaseHistory.Execute, PlacedStore;
    var plan := ReleaseHistory.Execute(w.recorded, w.disk, action).0;
    if plan.Success? {
      PlacedExactly(product.LayoutOf(plan.value.current), w.store, faults.shell);
    }
  }

  /** However a run ends, every tree on disk stays as it was; at most the candidate's is added, whole
      unless its extraction threw. */
  lemma TreesStay(product: Product, w: World, action: Action, faults: Faults, path: string)
    ensures var after := RunSetup(product, w, action, faults).0;
            && (path in w.disk ==> path in after.disk && after.disk[path] == w.disk[path])
            && (path in after.disk && path !in w.disk ==>
                  && action.Install? && ValidBundle(action.bundle) && path == CandidatePath(action.bundle, action.guid)
                  && (after.disk[path] == Definition(action.bundle.version, action.bundle.manifestSha256) ||
                      Some(after.disk[path]) == faults.extraction))
  {
    hide PlaceAll, UndoAll, Checked, ValidState, NewHistory, IsSha256, IsBlank;
    ReusedIsThere(w, action);
    ReusedState(w, action);
  }

  /** A plan that is not for a new tree is for one that is on disk. */
  lemma ReusedIsThere(w: World, action: Action)
    ensures var (plan, installed) := ReleaseHistory.Execute(w.recorded, w.disk, action);
            plan.Success? && plan.value.current.relativePath !in w.disk ==>
              && action.Install? && ValidBundle(action.bundle)
              && plan.value.current.relativePath == CandidatePath(action.bundle, action.guid)
              && installed == w.disk[plan.value.current.relativePath :=
                                       Definition(action.bundle.version, action.bundle.manifestSha256)]
  {
    hide NewHistory, IsBlank, SafePath, Distinct;
    if w.recorded.Some? && action.Install? && ValidBundle(action.bundle) {
      FindReusableMeans(w.recorded.value.All(), action.bundle);
    }
    if w.recorded.Some? && w.recorded.value.history != [] {
      assert w.recorded.value.history[0] in w.recorded.value.All();
    }
  }

  /** What the plan leaves on disk: nothing new, or the candidate. */
  lemma ReusedState(w: World, action: Action)
    ensures var installed := ReleaseHistory.Execute(w.recorded, w.disk, action).1;
            || installed == w.disk
            || (&& action.Install? && ValidBundle(action.bundle) && CandidatePath(action.bundle, action.guid) !in w.disk
                && installed == w.disk[CandidatePath(action.bundle, action.guid) :=
                                         Definition(action.bundle.version, action.bundle.manifestSha256)])
  {
    hide NewHistory, IsSha256, IsBlank, ValidState, Checked;
  }

  predicate ThrowsLate(product: Product, w: World, attempt: Attempt) {
    Renamed(product, w, attempt.action, attempt.faults).Some? && attempt.faults.commit.AfterRename?
  }

  predicate NeverLate(product: Product, w: World, attempts: seq<Attempt>)
    decreases |attempts|
  {
    attempts == [] ||
    (&& !ThrowsLate(product, w, attempts[0])
     && NeverLate(product, RunSetup(product, w, attempts[0].action, attempts[0].faults).0, attempts[1..]))
  }

  /** Over every sequence of attempts in which no throw comes behind a rename, the shell identity is
      that of the recorded release at the end if it was at the start; and whatever happened before,
      an attempt whose commit is clean makes it so. */
  lemma {:induction false} AllIdentified(product: Product, w: World, attempts: seq<Attempt>)
    requires Grounded(product, w.store)
    ensures Grounded(product, RunAll(product, w, attempts).store)
    ensures Identified(product, w) && NeverLate(product, w, attempts) ==> Identified(product, RunAll(product, w, attempts))
    decreases |attempts|
  {
    hide RunSetup, Renamed, Grounded, Identified;
    if attempts != [] {
      var a := attempts[0];
      IdentifiedStep(product, w, a.action, a.faults);
      AllIdentified(product, RunSetup(product, w, a.action, a.faults).0, attempts[1..]);
    }
  }

  /** Repeating Setup repairs a late throw: after any attempts, one that commits cleanly leaves the
      shell identity of the recorded release. */
  lemma RepairedBy(product: Product, w: World, attempts: seq<Attempt>, last: Attempt)
    requires Grounded(product, w.store)
    requires var before := RunAll(product, w, attempts);
             Renamed(product, before, last.action, last.faults).Some? && last.faults.commit.Clean?
    ensures Identified(product, RunSetup(product, RunAll(product, w, attempts), last.action, last.faults).0)
  {
    hide RunSetup, Renamed, Grounded, Identified;
    AllIdentified(product, w, attempts);
    IdentifiedStep(product, RunAll(product, w, attempts), last.action, last.faults);
  }
}
