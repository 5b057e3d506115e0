/** The console's package workflow: preview, confirm, refresh, archive and dismiss against a Hub that
    may answer anything. Each command is one atomic step. */
module PackageWorkflow {
  import opened Basics
  import opened Ledger
  import opened PackageLedger

  /** A Hub call: an answer, a failure the console reports, or one it does not catch. */
  datatype Response<+T> = Answer(value: T) | Refused | Uncaught

  /** The package form. `usable` stands for the checks of the URL, package name and ring. */
  datatype Form = Form(release: string, packageName: string, rolloutRing: string, usable: bool)

  datatype Archive = Archive(
    operationId: string, operationSha256: string, archivedAtMs: int, operation: Operation, progress: Progress, sound: bool)

  // ---------------------------------------------------------------- what a preview binds

  /** Device to exact revision, as the preview lists them. */
  function Identities(targets: seq<Preflight>): map<string, int> {
    if targets == [] then map[]
    else
      var last := targets[|targets| - 1];
      Identities(targets[..|targets| - 1])[last.deviceId := last.identityRevision]
  }

  predicate Lists(targets: seq<Preflight>, device: string, revision: int) {
    exists i :: 0 <= i < |targets| && targets[i].deviceId == device && targets[i].identityRevision == revision
  }

  lemma {:induction false} IdentitiesMean(targets: seq<Preflight>)
    requires Distinct(DeviceIds(targets))
    ensures |Identities(targets)| == |targets|
    ensures forall d, r :: Lists(targets, d, r) <==> d in Identities(targets) && Identities(targets)[d] == r
  {
    hide Lists;
    if targets == [] {
      assert forall d, r :: !Lists([], d, r) by { ListsNothing(); }
    } else {
      var n := |targets| - 1;
      var rest, last := targets[..n], targets[n];
      assert DeviceIds(rest) == DeviceIds(targets)[..n];
      IdentitiesMean(rest);
      forall d, r ensures Lists(targets, d, r) <==> Lists(rest, d, r) || (d == last.deviceId && r == last.identityRevision) {
        ListsLast(targets, d, r);
      }
      forall r ensures !Lists(rest, last.deviceId, r) {
        LastIsNew(targets, r);
      }
      assert forall d :: d in Identities(rest) ==> Lists(rest, d, Identities(rest)[d]);
    }
  }

  lemma ListsNothing()
    ensures forall d, r :: !Lists([], d, r)
  {
  }

  lemma ListsLast(targets: seq<Preflight>, d: string, r: int)
    requires targets != []
    ensures var n := |targets| - 1;
            Lists(targets, d, r) <==>
            Lists(targets[..n], d, r) || (d == targets[n].deviceId && r == targets[n].identityRevision)
  {
    var n := |targets| - 1;
    if Lists(targets[..n], d, r) {
      var i :| 0 <= i < n && targets[..n][i].deviceId == d && targets[..n][i].identityRevision == r;
      assert targets[i].deviceId == d;
    }
    if Lists(targets, d, r) {
      var i :| 0 <= i < |targets| && targets[i].deviceId == d && targets[i].identityRevision == r;
      assert i < n ==> targets[..n][i] == targets[i];
    }
  }

  lemma LastIsNew(targets: seq<Preflight>, r: int)
    requires targets != [] && Distinct(DeviceIds(targets))
    ensures !Lists(targets[..|targets| - 1], targets[|targets| - 1].deviceId, r)
  {
    var n, ids := |targets| - 1, DeviceIds(targets);
    forall i | 0 <= i < n ensures targets[..n][i].deviceId != targets[n].deviceId {
      assert ids[i] != ids[n];
    }
  }

  /** Equal counts and one inclusion make the map exact, since no device is listed twice. */
  lemma BindingIsExact(targets: seq<Preflight>, expected: map<string, int>)
    requires Distinct(DeviceIds(targets))
    ensures Identities(targets) == expected <==>
            |targets| == |expected| && forall d :: d in expected ==> Lists(targets, d, expected[d])
  {
    hide Lists, Identities, Distinct;
    IdentitiesMean(targets);
    var listed := Identities(targets);
    if listed == expected {
      assert forall d :: d in expected ==> Lists(targets, d, expected[d]);
    } else if |targets| == |expected| && forall d :: d in expected ==> Lists(targets, d, expected[d]) {
      IncludedIsEqual(expected, listed);
    }
  }

  lemma IncludedIsEqual(a: map<string, int>, b: map<string, int>)
    requires |a| == |b| && forall d :: d in a ==> d in b && b[d] == a[d]
    ensures a == b
  {
    assert |a.Keys| == |a| && |b.Keys| == |b|;
    SubsetCardinality(a.Keys, b.Keys);
  }

  ghost predicate Binds(op: Operation, form: Form, targets: map<string, int>) {
    && Valid(op)
    && op.preview.release == form.release && op.preview.packageName == form.packageName
    && op.preview.rolloutRing == form.rolloutRing
    && Identities(op.preview.targets) == targets
  }

  method ValidateBinding(op: Operation, form: Form, targets: map<string, int>) returns (ok: bool)
    ensures ok <==> Binds(op, form, targets)
  {
    hide Valid, Lists, Identities;
    ok := ValidateOperation(op);
    if !ok {
      return;
    }
    DevicesDistinct(op);
    BindingIsExact(op.preview.targets, targets);
    if op.preview.release != form.release || op.preview.packageName != form.packageName ||
       op.preview.rolloutRing != form.rolloutRing || |op.preview.targets| != |targets| {
      return false;
    }
    var rest := targets.Keys;
    while rest != {}
      invariant rest <= targets.Keys
      invariant forall d :: d in targets && d !in rest ==> Lists(op.preview.targets, d, targets[d])
    {
      var d :| d in rest;
      if !Lists(op.preview.targets, d, targets[d]) {
        return false;
      }
      rest := rest - {d};
    }
    ok := true;
  }

  // ---------------------------------------------------------------- the workflow, on values

  /** What the console holds, and the selection its operation was previewed for. */
  datatype View = View(current: Option<Operation>, progress: Option<Progress>, requested: map<string, int>)

  datatype Command =
    | PreviewExact(form: Form, selection: map<string, int>, answer: Response<Operation>)
    | Confirm(answer: Response<Operation>)
    | Refresh(answer: Response<Operation>, projection: Response<Progress>)
    | ArchiveTerminal(archive: Response<Archive>)
    | Dismiss

  function FormOf(op: Operation): Form {
    Form(op.preview.release, op.preview.packageName, op.preview.rolloutRing, true)
  }

  predicate SameOperation(prior: Operation, next: Operation) {
    prior.operationId == next.operationId && prior.preview == next.preview
  }

  predicate ReadyToConfirm(op: Operation) {
    && op.lifecycle == Proposed && |Eligible(op.targets)| > 0
    && forall t :: t in Eligible(op.targets) ==> t.lifecycle == Proposed && t.stage == PreviewReady
  }

  predicate CanArchive(v: View) {
    && v.current.Some? && v.progress.Some?
    && !v.progress.value.archived && v.progress.value.terminal && v.progress.value.archiveEligible
  }

  ghost predicate ValidArchive(a: Archive) {
    && Valid(a.operation) && Projects(a.operation, a.progress) && a.sound
    && a.operationId == a.operation.operationId && a.operationSha256 == a.progress.operationSha256
    && a.progress.archived && a.progress.archivedAtMs == Some(a.archivedAtMs)
    && a.progress.terminal && !a.progress.archiveEligible
  }

  /** What one command leaves; anything but a fully matching answer leaves the view as it was. */
  ghost function Step(v: View, connected: bool, c: Command): View {
    match c
    case PreviewExact(form, selection, answer) =>
      if connected && |selection| > 0 && form.usable && answer.Answer? && Binds(answer.value, form, selection)
      then View(Some(answer.value), None, selection)
      else v
    case Confirm(answer) =>
      if connected && v.current.Some? && ReadyToConfirm(v.current.value) &&
         answer.Answer? && Continues(v.current.value, answer.value)
      then v.(current := Some(answer.value), progress := None)
      else v
    case Refresh(answer, projection) =>
      if connected && v.current.Some? && answer.Answer? && Continues(v.current.value, answer.value) &&
         projection.Answer? && Projects(answer.value, projection.value)
      then v.(current := Some(answer.value), progress := Some(projection.value))
      else v
    case ArchiveTerminal(archive) =>
      if connected && CanArchive(v) && archive.Answer? && ValidArchive(archive.value) &&
         SameOperation(v.current.value, archive.value.operation) &&
         archive.value.operationSha256 == v.progress.value.operationSha256
      then v.(current := Some(archive.value.operation), progress := Some(archive.value.progress))
      else v
    case Dismiss => v.(current := None, progress := None)
  }

  /** A valid answer about the held operation: same id, same preview. */
  ghost predicate Continues(prior: Operation, next: Operation) {
    Binds(next, FormOf(prior), Identities(prior.preview.targets)) && SameOperation(prior, next)
  }

  /** The operation held is valid and previews exactly the requested devices and revisions, and any
      progress held is its own. */
  ghost predicate Consistent(v: View) {
    && (v.current.Some? ==> Valid(v.current.value) && Identities(v.current.value.preview.targets) == v.requested)
    && (v.progress.Some? ==> v.current.Some? && Projects(v.current.value, v.progress.value))
  }

  const NOTHING := View(None, None, map[])

  ghost function Run(v: View, connected: bool, commands: seq<Command>): View
    decreases |commands|
  {
    if commands == [] then v else Run(Step(v, connected, commands[0]), connected, commands[1..])
  }

  /** Whatever the Hub answers, every command keeps the view consistent. */
  lemma StepConsistent(v: View, connected: bool, c: Command)
    requires Consistent(v)
    ensures Consistent(Step(v, connected, c))
  {
    hide Valid, Projects, Identities;
  }

  lemma {:induction false} RunConsistent(v: View, connected: bool, commands: seq<Command>)
    requires Consistent(v)
    ensures Consistent(Run(v, connected, commands))
    decreases |commands|
  {
    hide Step, Consistent;
    if commands != [] {
      StepConsistent(v, connected, commands[0]);
      RunConsistent(Step(v, connected, commands[0]), connected, commands[1..]);
    }
  }

  /** Archiving is offered only when every target of the held operation has ended. */
  lemma ArchiveOnlyEnded(connected: bool, commands: seq<Command>)
    ensures var v := Run(NOTHING, connected, commands);
            CanArchive(v) ==> forall t :: t in v.current.value.targets ==> Terminal(t)
  {
    hide Valid, Projects, Run, Terminal;
    RunConsistent(NOTHING, connected, commands);
    var v := Run(NOTHING, connected, commands);
    if CanArchive(v) {
      ProgressConserves(v.current.value, v.progress.value);
    }
  }

  /** The buttons: a preview is offered only while nothing is held. */
  predicate Offered(v: View, connected: bool, c: Command) {
    match c
    case PreviewExact(_, selection, _) => connected && |selection| > 0 && v.current.None?
    case Confirm(_) => connected && v.current.Some? && ReadyToConfirm(v.current.value)
    case Refresh(_, _) => connected && v.current.Some?
    case ArchiveTerminal(_) => connected && CanArchive(v)
    case Dismiss => v.current.Some?
  }

  ghost predicate AllOffered(v: View, connected: bool, commands: seq<Command>)
    decreases |commands|
  {
    if commands == [] then true
    else
      Offered(v, connected, commands[0]) &&
      AllOffered(Step(v, connected, commands[0]), connected, commands[1..])
  }

  /** Once previewed, an operation keeps its id, its preview and what it was requested for through
      every run of offered commands that does not dismiss it. */
  lemma {:induction false} PreviewIsFixed(v: View, connected: bool, commands: seq<Command>)
    requires v.current.Some? && AllOffered(v, connected, commands) && forall c :: c in commands ==> !c.Dismiss?
    ensures var after := Run(v, connected, commands);
            after.current.Some? && SameOperation(v.current.value, after.current.value) && after.requested == v.requested
    decreases |commands|
  {
    hide Valid, Projects, Identities, ReadyToConfirm;
    if commands != [] {
      assert commands[0] in commands && forall c :: c in commands[1..] ==> c in commands;
      PreviewIsFixed(Step(v, connected, commands[0]), connected, commands[1..]);
    }
  }

  /** Which answers end a refresh in an exception the command does not catch. */
  ghost predicate RefreshEscapes(prior: Operation, answer: Response<Operation>, projection: Response<Progress>) {
    answer.Uncaught? || (answer.Answer? && Continues(prior, answer.value) && projection.Uncaught?)
  }

  /** The archive of the right operation under another digest also escapes. */
  ghost predicate ArchiveEscapes(v: View, archive: Response<Archive>)
    requires CanArchive(v)
  {
    || archive.Uncaught?
    || (&& archive.Answer? && ValidArchive(archive.value)
        && SameOperation(v.current.value, archive.value.operation)
        && archive.value.operationSha256 != v.progress.value.operationSha256)
  }

  // ---------------------------------------------------------------- what each command takes

  /** The preview lists the selected devices at the selected revisions, and no others. */
  ghost predicate AsSelected(targets: seq<Preflight>, selection: map<string, int>) {
    && |targets| == |selection|
    && (forall p :: p in targets ==> (p.deviceId, p.identityRevision) in selection.Items)
    && (forall d :: d in selection ==> exists p :: p in targets && p.deviceId == d && p.identityRevision == selection[d])
  }

  lemma BindsIff(op: Operation, form: Form, selection: map<string, int>)
    ensures Binds(op, form, selection) <==>
            && Valid(op) && op.preview.release == form.release && op.preview.packageName == form.packageName
            && op.preview.rolloutRing == form.rolloutRing && AsSelected(op.preview.targets, selection)
  {
    hide Valid, Identities;
    if Valid(op) {
      DevicesDistinct(op);
      var targets := op.preview.targets;
      BindingIsExact(targets, selection);
      IdentitiesMean(targets);
      if Identities(targets) == selection {
        forall p | p in targets ensures (p.deviceId, p.identityRevision) in selection.Items {
          var i :| 0 <= i < |targets| && targets[i] == p;
          assert Lists(targets, p.deviceId, p.identityRevision);
        }
        forall d | d in selection
          ensures exists p :: p in targets && p.deviceId == d && p.identityRevision == selection[d]
        {
          assert Lists(targets, d, selection[d]);
        }
      }
      if AsSelected(targets, selection) {
        forall d | d in selection ensures Lists(targets, d, selection[d]) {
          var p :| p in targets && p.deviceId == d && p.identityRevision == selection[d];
          var i :| 0 <= i < |targets| && targets[i] == p;
        }
      }
    }
  }

  /** A later answer is about the held operation exactly when it is valid, has its id and its preview. */
  lemma ContinuesIff(prior: Operation, next: Operation)
    ensures Continues(prior, next) <==>
            Valid(next) && next.operationId == prior.operationId && next.preview == prior.preview
  {
    hide Valid, Identities;
  }

  /** Some target is eligible, and all that are still wait for their confirmation. */
  predicate Confirmable(op: Operation) {
    && op.lifecycle == Proposed && (exists t :: t in op.targets && t.preflight.eligible)
    && (forall t :: t in op.targets && t.preflight.eligible ==> t.lifecycle == Proposed && t.stage == PreviewReady)
  }

  lemma ConfirmableIff(op: Operation)
    ensures ReadyToConfirm(op) <==> Confirmable(op)
  {
    hide Where;
    var eligible := Eligible(op.targets);
    assert forall t :: t in eligible <==> t in op.targets && t.preflight.eligible;
    assert eligible != [] ==> eligible[0] in eligible;
  }

  /** The progress held is of the active operation, all of whose targets have ended. */
  predicate Archivable(v: View) {
    && v.current != None && v.progress != None
    && v.progress.value.terminal == true && v.progress.value.archived == false && v.progress.value.archiveEligible == true
  }

  /** An archive names the operation it holds, with a progress of that operation, archived when it says. */
  ghost predicate Archives(a: Archive) {
    && a.sound && Valid(a.operation) && Projects(a.operation, a.progress)
    && a.operationId == a.operation.operationId && a.progress.operationSha256 == a.operationSha256
    && a.progress.archivedAtMs == Some(a.archivedAtMs) && a.progress.terminal
  }

  lemma ArchivesIff(a: Archive)
    ensures ValidArchive(a) <==> Archives(a)
  {
    hide Valid;
  }

  lemma PreviewTakes(v: View, connected: bool, form: Form, selection: map<string, int>, answer: Response<Operation>)
    ensures Step(v, connected, PreviewExact(form, selection, answer)) ==
            if && connected && selection != map[] && form.usable && answer.Answer?
               && Valid(answer.value) && answer.value.preview.release == form.release
               && answer.value.preview.packageName == form.packageName
               && answer.value.preview.rolloutRing == form.rolloutRing
               && AsSelected(answer.value.preview.targets, selection)
            then View(Some(answer.value), None, selection) else v
  {
    hide Valid, AsSelected, Binds;
    assert selection != map[] <==> |selection| > 0;
    if answer.Answer? {
      BindsIff(answer.value, form, selection);
    }
  }

  lemma ConfirmTakes(v: View, connected: bool, answer: Response<Operation>)
    ensures Step(v, connected, Confirm(answer)) ==
            if && connected && v.current != None && Confirmable(v.current.value) && answer.Answer?
               && Valid(answer.value) && answer.value.operationId == v.current.value.operationId
               && answer.value.preview == v.current.value.preview
            then View(Some(answer.value), None, v.requested) else v
  {
    hide Valid, Confirmable, ReadyToConfirm, Continues;
    if v.current.Some? {
      ConfirmableIff(v.current.value);
      if answer.Answer? {
        ContinuesIff(v.current.value, answer.value);
      }
    }
  }

  lemma RefreshTakes(v: View, connected: bool, answer: Response<Operation>, projection: Response<Progress>)
    ensures Step(v, connected, Refresh(answer, projection)) ==
            if && connected && v.current != None && answer.Answer? && projection.Answer?
               && Valid(answer.value) && answer.value.operationId == v.current.value.operationId
               && answer.value.preview == v.current.value.preview && Projects(answer.value, projection.value)
            then View(Some(answer.value), Some(projection.value), v.requested) else v
    ensures v.current != None ==>
      (RefreshEscapes(v.current.value, answer, projection) <==>
         || answer.Uncaught?
         || (&& answer.Answer? && Valid(answer.value) && answer.value.operationId == v.current.value.operationId
             && answer.value.preview == v.current.value.preview && projection.Uncaught?))
  {
    hide Valid, Projects, Continues;
    if v.current.Some? && answer.Answer? {
      ContinuesIff(v.current.value, answer.value);
    }
  }

  lemma ArchiveTakes(v: View, connected: bool, archive: Response<Archive>)
    ensures Step(v, connected, ArchiveTerminal(archive)) ==
            if && connected && Archivable(v) && archive.Answer? && Archives(archive.value)
               && archive.value.operation.operationId == v.current.value.operationId
               && archive.value.operation.preview == v.current.value.preview
               && archive.value.operationSha256 == v.progress.value.operationSha256
            then View(Some(archive.value.operation), Some(archive.value.progress), v.requested) else v
    ensures Archivable(v) ==>
      (ArchiveEscapes(v, archive) <==>
         || archive.Uncaught?
         || (&& archive.Answer? && Archives(archive.value)
             && archive.value.operation.operationId == v.current.value.operationId
             && archive.value.operation.preview == v.current.value.preview
             && archive.value.operationSha256 != v.progress.value.operationSha256))
  {
    hide Valid, Projects, ValidArchive, Archives;
    if archive.Answer? {
      ArchivesIff(archive.value);
    }
  }

  /** Which commands the buttons offer. */
  lemma OfferedIff(v: View, connected: bool, c: Command)
    ensures c.PreviewExact? ==> (Offered(v, connected, c) <==> connected && c.selection != map[] && v.current == None)
    ensures c.Confirm? ==> (Offered(v, connected, c) <==> connected && v.current != None && Confirmable(v.current.value))
    ensures c.Refresh? ==> (Offered(v, connected, c) <==> connected && v.current != None)
    ensures c.ArchiveTerminal? ==> (Offered(v, connected, c) <==> connected && Archivable(v))
    ensures c.Dismiss? ==> (Offered(v, connected, c) <==> v.current != None)
    // Nothing but a preview over a held operation changes the view without being offered.
    ensures Consistent(v) && Step(v, connected, c) != v ==> Offered(v, connected, c) || (c.PreviewExact? && v.current != None)
  {
    hide Valid, Projects, Confirmable, ReadyToConfirm, Continues, ValidArchive;
    assert c.PreviewExact? ==> (c.selection != map[] <==> |c.selection| > 0);
    if v.current.Some? {
      ConfirmableIff(v.current.value);
    }
  }

  /** Dismissing, connected or not, leaves nothing held. */
  lemma DismissTakes(v: View, connected: bool)
    ensures Step(v, connected, Dismiss) == View(None, None, v.requested)
  {
  }

  /** An operation whose one target has been applied. */
  const ENDED_PREFLIGHT := Preflight("device-1", 1, Facts(Yes, Yes, Yes, Yes, Yes, 1, 9, 2), Ready, true, true)

  const ENDED_TARGET := Target("device-1", 1, ENDED_PREFLIGHT, Applied, StageApplied, Some(Evidence(true)), None, 0, 0,
                               None, None, Some(Evidence(true)), true, 3, true)

  const ENDED_OPERATION := Operation("operation", 1, Applied, 1,
                                     Preview("preview", 1, 9, "release", "package", "ring", [ENDED_PREFLIGHT], true),
                                     [ENDED_TARGET], true)

  function EndedProgress(digest: string, archivedAtMs: Option<int>): Progress {
    Progress("operation", digest, Applied, archivedAtMs.Some?, archivedAtMs, 1, 1, 0,
             0, 0, 0, 0, 0, 0, 0, 0, 0, 1, 0, 0, 0, 0, 1, 1, true, archivedAtMs.None?, true)
  }

  lemma EndedValid()
    ensures Valid(ENDED_OPERATION) && Identities(ENDED_OPERATION.preview.targets) == map["device-1" := 1]
  {
    var op := ENDED_OPERATION;
    assert IsEligible()(ENDED_TARGET) && Where([ENDED_TARGET][1..], IsEligible()) == [];
    assert Eligible(op.targets) == [ENDED_TARGET];
    assert BindsTarget(op, 0);
    assert ENDED_TARGET in [ENDED_TARGET];
    assert Count(op.targets, HoldsClaim) == 0;
    assert op.preview.targets[..0] == [];
    assert Identities(op.preview.targets[..0]) == map[];
  }

  lemma CountOne(t: Target)
    ensures forall keep :: Count([t], keep) == Tally(keep(t))
  {
    assert [t][1..] == [];
  }

  lemma EndedProjects(digest: string, archivedAtMs: Option<int>)
    ensures Projects(ENDED_OPERATION, EndedProgress(digest, archivedAtMs))
  {
    hide Count;
    CountOne(ENDED_TARGET);
  }

  const ENDED_PREVIEWED := PreviewExact(FormOf(ENDED_OPERATION), map["device-1" := 1], Answer(ENDED_OPERATION))

  function EndedRefreshed(digest: string): Command {
    Refresh(Answer(ENDED_OPERATION), Answer(EndedProgress(digest, None)))
  }

  lemma RunTwo(v: View, connected: bool, first: Command, second: Command)
    ensures Run(v, connected, [first, second]) == Step(Step(v, connected, first), connected, second)
  {
    hide Step;
    assert [first, second][1..] == [second] && [second][1..] == [];
    assert Run(Step(v, connected, first), connected, [second]) ==
           Run(Step(Step(v, connected, first), connected, second), connected, []);
  }

  lemma EndedHeld(digest: string)
    ensures Run(NOTHING, true, [ENDED_PREVIEWED, EndedRefreshed(digest)]) ==
            View(Some(ENDED_OPERATION), Some(EndedProgress(digest, None)), map["device-1" := 1])
  {
    hide Valid, Projects, Identities, Run;
    EndedValid();
    EndedProjects(digest, None);
    RunTwo(NOTHING, true, ENDED_PREVIEWED, EndedRefreshed(digest));
  }

  /** The command is offered, its exception escapes, and the view stays as it was. */
  ghost predicate EscapesFrom(held: View, archive: Archive) {
    && Consistent(held) && Offered(held, true, ArchiveTerminal(Answer(archive)))
    && ArchiveEscapes(held, Answer(archive))
    && Step(held, true, ArchiveTerminal(Answer(archive))) == held
  }

  /** After a preview and a refresh, a Hub that archives the operation under a digest other than the
      refreshed one raises an exception that the command does not catch, although the answer is a
      valid archive of the operation held. */
  lemma OtherDigestEscapes(digest: string, other: string)
    requires digest != other
    ensures var held := Run(NOTHING, true, [ENDED_PREVIEWED, EndedRefreshed(digest)]);
            var archive := Archive("operation", other, 5, ENDED_OPERATION, EndedProgress(other, Some(5)), true);
            ValidArchive(archive) && EscapesFrom(held, archive)
  {
    hide *;
    EndedHeld(digest);
    OtherDigestRejected(digest, other);
  }

  lemma OtherDigestRejected(digest: string, other: string)
    requires digest != other
    ensures var held := View(Some(ENDED_OPERATION), Some(EndedProgress(digest, None)), map["device-1" := 1]);
            var archive := Archive("operation", other, 5, ENDED_OPERATION, EndedProgress(other, Some(5)), true);
            ValidArchive(archive) && EscapesFrom(held, archive)
  {
    hide Valid, Projects, Identities;
    EndedValid();
    EndedProjects(digest, None);
    EndedProjects(other, Some(5));
  }

  // ---------------------------------------------------------------- the view model

  class PackageWorkspace {
    var connected: bool
    var isBusy: bool
    var batchSelection: map<string, int>
    var current: Option<Operation>
    var progress: Option<Progress>
    ghost var requested: map<string, int>

    constructor (source: bool, selection: map<string, int>)
      ensures connected == source && !isBusy && batchSelection == selection && Held() == NOTHING
    {
      connected, isBusy, batchSelection, current, progress := source, false, selection, None, None;
      requested := map[];
    }

    ghost function Held(): View
      reads `current, `progress, `requested
    {
      View(current, progress, requested)
    }

    method PreviewInstallRelease(form: Form, response: Response<Operation>) returns (threw: bool)
      modifies `isBusy, `current, `progress, `requested
      ensures Held() == Step(old(Held()), connected, PreviewExact(form, batchSelection, response))
      ensures threw <==> connected && |batchSelection| > 0 && form.usable && response.Uncaught?
      ensures !old(isBusy) ==> !isBusy
    {
      threw := false;
      if !connected || |batchSelection| == 0 || !form.usable {
        return;
      }
      isBusy := true;
      if response.Answer? {
        var binds := ValidateBinding(response.value, form, batchSelection);
        if binds {
          current, progress := Some(response.value), None;
          requested := batchSelection;
        }
      }
      isBusy := false;
      threw := response.Uncaught?;
    }

    method ConfirmInstallRelease(response: Response<Operation>) returns (threw: bool)
      modifies `isBusy, `current, `progress
      ensures Held() == Step(old(Held()), connected, Confirm(response))
      ensures threw <==> connected && old(current).Some? && ReadyToConfirm(old(current).value) && response.Uncaught?
      ensures !old(isBusy) ==> !isBusy
    {
      threw := false;
      if !connected || current.None? || !ReadyToConfirm(current.value) {
        return;
      }
      var prior := current.value;
      isBusy := true;
      if response.Answer? {
        var binds := ValidateBinding(response.value, FormOf(prior), Identities(prior.preview.targets));
        if binds && SameOperation(prior, response.value) {
          current, progress := Some(response.value), None;
        }
      }
      isBusy := false;
      threw := response.Uncaught?;
    }

    method RefreshInstallRelease(response: Response<Operation>, projection: Response<Progress>) returns (threw: bool)
      modifies `isBusy, `current, `progress
      ensures Held() == Step(old(Held()), connected, Refresh(response, projection))
      ensures threw <==> connected && old(current).Some? && RefreshEscapes(old(current).value, response, projection)
      ensures !old(isBusy) ==> !isBusy
    {
      threw := false;
      if !connected || current.None? {
        return;
      }
      var prior := current.value;
      isBusy := true;
      threw := response.Uncaught?;
      if response.Answer? {
        var binds := ValidateBinding(response.value, FormOf(prior), Identities(prior.preview.targets));
        if binds && SameOperation(prior, response.value) {
          threw := projection.Uncaught?;
          if projection.Answer? {
            var valid := ValidateProgress(response.value, projection.value);
            if valid {
              current, progress := Some(response.value), Some(projection.value);
            }
          }
        }
      }
      isBusy := false;
    }

    /** A digest that is not the refreshed one is reported by an exception that no handler of this
        command catches: it escapes, with the held projection unchanged. */
    method ArchiveInstallRelease(response: Response<Archive>) returns (threw: bool)
      modifies `isBusy, `current, `progress
      ensures Held() == Step(old(Held()), connected, ArchiveTerminal(response))
      ensures threw <==> connected && CanArchive(old(Held())) && ArchiveEscapes(old(Held()), response)
      ensures !old(isBusy) ==> !isBusy
    {
      hide Valid, Projects, Binds, Identities;
      threw := false;
      if !connected || current.None? || progress.None? {
        return;
      }
      if progress.value.archived || !progress.value.terminal || !progress.value.archiveEligible {
        return;
      }
      var prior, priorProgress := current.value, progress.value;
      isBusy := true;
      threw := response.Uncaught?;
      if response.Answer? {
        var archive := response.value;
        var valid := ValidateArchive(archive);
        if valid && SameOperation(prior, archive.operation) {
          threw := archive.operationSha256 != priorProgress.operationSha256;
          if !threw {
            current, progress := Some(archive.operation), Some(archive.progress);
          }
        }
      }
      isBusy := false;
    }

    method DismissInstallRelease()
      modifies `current, `progress
      ensures Held() == Step(old(Held()), connected, Dismiss)
    {
      current, progress := None, None;
    }
  }

  method ValidateArchive(a: Archive) returns (valid: bool)
    ensures valid <==> ValidArchive(a)
  {
    hide Valid, Projects;
    valid := ValidateProgress(a.operation, a.progress);
    valid := valid && a.sound && a.operationId == a.operation.operationId &&
      a.operationSha256 == a.progress.operationSha256 && a.progress.archived &&
      a.progress.archivedAtMs == Some(a.archivedAtMs) && a.progress.terminal && !a.progress.archiveEligible;
  }
}
