/** The package-install ledger: the per-target state machine the console accepts, the aggregate
    lifecycle derived from it, and the progress projection counted from it. */
module PackageLedger {
  import opened Basics
  import opened Ledger

  datatype Stage =
    | PreviewReady | Approved | DispatchReady | OwnerAcknowledged | Staged | AwaitingWearer
    | StageCancellationRequested | RecoveryRequired
    | StageApplied | StageFailed | StageExpired | StageCancelled
    | PreflightRejected
    | OtherStage(text: string)

  /** A nested record, with the outcome of its own field-by-field validation. */
  datatype Evidence = Evidence(valid: bool)

  datatype Acknowledgement = Acknowledgement(accepted: bool, valid: bool)

  datatype OwnerProgress = OwnerProgress(stage: Stage, valid: bool)

  datatype Target = Target(
    deviceId: string, identityRevision: int, preflight: Preflight, lifecycle: Lifecycle, stage: Stage,
    invocation: Option<Evidence>, ownerClaim: Option<Evidence>, priorClaims: nat, consumedClaims: nat,
    acknowledgement: Option<Acknowledgement>, progress: Option<OwnerProgress>, receipt: Option<Evidence>,
    historySound: bool, lastTransitionMs: int, sound: bool)

  datatype Preview = Preview(
    previewId: string, createdAtMs: int, expiresAtMs: int, release: string, packageName: string,
    rolloutRing: string, targets: seq<Preflight>, sound: bool)

  datatype Operation = Operation(
    operationId: string, createdAtMs: int, lifecycle: Lifecycle, maxParallelism: int, preview: Preview,
    targets: seq<Target>, sound: bool)

  // ---------------------------------------------------------------- one target

  predicate Has(e: Option<Evidence>) { e.Some? && e.value.valid }

  predicate ValidProgress(p: Option<OwnerProgress>) {
    && p.Some? && p.value.valid
    && (p.value.stage.Staged? || p.value.stage.AwaitingWearer? || p.value.stage.StageCancellationRequested? ||
        p.value.stage.StageCancelled? || p.value.stage.RecoveryRequired? || p.value.stage.StageFailed? ||
        p.value.stage.StageExpired?)
  }

  predicate Excluded(t: Target) {
    && t.lifecycle == Rejected && t.stage == PreflightRejected
    && t.invocation.None? && t.ownerClaim.None? && t.priorClaims == 0 && t.consumedClaims == 0
    && t.acknowledgement.None? && t.progress.None? && t.receipt.None?
  }

  predicate ValidAccepted(t: Target) {
    && (t.stage == Approved || t.stage == DispatchReady)
    && t.acknowledgement.None? && t.progress.None? && t.receipt.None?
    && (if t.stage == Approved then t.invocation.None? && t.ownerClaim.None?
        else Has(t.invocation) && (t.ownerClaim.Some? ==> Has(t.ownerClaim)))
  }

  predicate ValidInFlight(t: Target) {
    && Has(t.invocation)
    && t.acknowledgement.Some? && t.acknowledgement.value.accepted && t.acknowledgement.value.valid && t.receipt.None?
    && (if t.lifecycle == Dispatched then t.stage == OwnerAcknowledged && t.progress.None?
        else
          && t.stage in {Staged, AwaitingWearer, StageCancellationRequested, RecoveryRequired}
          && ValidProgress(t.progress) && t.progress.value.stage == t.stage)
  }

  predicate ValidEnded(t: Target) {
    && Has(t.invocation)
    && (match t.lifecycle
        case Applied => t.stage == StageApplied && Has(t.receipt) && (t.progress.Some? ==> ValidProgress(t.progress))
        case Failed => t.stage == StageFailed && t.receipt.None? && EndEvidence(t)
        case Expired => t.stage == StageExpired && t.receipt.None? && EndEvidence(t)
        case CancellationRequested => t.stage == StageCancellationRequested && CancelEvidence(t)
        case Cancelled => t.stage == StageCancelled && CancelEvidence(t)
        case _ => false)
  }

  predicate EndEvidence(t: Target) {
    && (t.acknowledgement.Some? ==> t.acknowledgement.value.valid)
    && (t.progress.Some? ==> ValidProgress(t.progress) && t.progress.value.stage == t.stage)
  }

  predicate CancelEvidence(t: Target) {
    ValidProgress(t.progress) && t.progress.value.stage == t.stage && t.receipt.None?
  }

  predicate ValidState(t: Target) {
    if !t.preflight.eligible then Excluded(t)
    else
      && t.historySound
      && (match t.lifecycle
          case Proposed =>
            && t.stage == PreviewReady && t.invocation.None? && t.ownerClaim.None?
            && t.acknowledgement.None? && t.progress.None? && t.receipt.None?
          case Accepted => ValidAccepted(t)
          case Dispatched => ValidInFlight(t)
          case Running => ValidInFlight(t)
          case _ => ValidEnded(t))
  }

  predicate BindsTarget(op: Operation, i: nat)
    requires i < |op.preview.targets| && |op.targets| == |op.preview.targets|
  {
    var preflight, t := op.preview.targets[i], op.targets[i];
    && ValidPreflight(preflight, op.preview.createdAtMs, op.preview.expiresAtMs)
    && (i > 0 ==> OrdinalLess(op.preview.targets[i - 1].deviceId, preflight.deviceId))
    && t.deviceId == preflight.deviceId && t.identityRevision == preflight.identityRevision
    && t.preflight == preflight && t.lastTransitionMs >= op.createdAtMs && t.sound
    && ValidState(t)
  }

  // ---------------------------------------------------------------- the whole operation

  function IsEligible(): Target -> bool { (t: Target) => t.preflight.eligible }

  function Eligible(targets: seq<Target>): seq<Target> { Where(targets, IsEligible()) }

  function DeriveLifecycle(eligible: seq<Target>): Lifecycle {
    if |eligible| == 0 then Rejected
    else if exists t :: t in eligible && t.lifecycle == Running then Running
    else if exists t :: t in eligible && t.lifecycle == Dispatched then Dispatched
    else if exists t :: t in eligible && t.lifecycle == Proposed then Proposed
    else if exists t :: t in eligible && t.lifecycle == Accepted then Accepted
    else if forall t :: t in eligible ==> t.lifecycle == Applied then Applied
    else if forall t :: t in eligible ==> t.lifecycle == Expired then Expired
    else Failed
  }

  predicate HoldsClaim(t: Target) {
    t.lifecycle == Dispatched || t.lifecycle == Running || (t.lifecycle == Accepted && t.ownerClaim.Some?)
  }

  predicate ValidHeader(op: Operation) {
    && op.sound && op.createdAtMs >= 0 && 1 <= op.maxParallelism <= 64 && !op.lifecycle.OtherLifecycle?
    && op.preview.sound && op.preview.createdAtMs == op.createdAtMs < op.preview.expiresAtMs
    && 1 <= |op.preview.targets| <= 10000 && |op.targets| == |op.preview.targets|
  }

  ghost predicate Valid(op: Operation) {
    && ValidHeader(op)
    && (forall i :: 0 <= i < |op.targets| ==> BindsTarget(op, i))
    && op.lifecycle == DeriveLifecycle(Eligible(op.targets))
    && Count(op.targets, HoldsClaim) <= op.maxParallelism
  }

  method ValidateOperation(op: Operation) returns (valid: bool)
    ensures valid <==> Valid(op)
    ensures valid <==> AcceptedOperation(op)
  {
    AcceptedIff(op);
    hide AcceptedOperation;
    hide ValidPreflight, ValidState, OrdinalLess;
    if !ValidHeader(op) {
      return false;
    }
    var priorDeviceId: Option<string> := None;
    for index := 0 to |op.targets|
      invariant priorDeviceId == if index == 0 then None else Some(op.preview.targets[index - 1].deviceId)
      invariant forall i :: 0 <= i < index ==> BindsTarget(op, i)
    {
      var preflight, target := op.preview.targets[index], op.targets[index];
      ghost var binds := BindsTarget(op, index);
      if !ValidPreflight(preflight, op.preview.createdAtMs, op.preview.expiresAtMs) {
        return false;
      }
      if priorDeviceId.Some? && !OrdinalLess(priorDeviceId.value, preflight.deviceId) {
        return false;
      }
      priorDeviceId := Some(preflight.deviceId);
      if target.deviceId != preflight.deviceId || target.identityRevision != preflight.identityRevision ||
         target.preflight != preflight || target.lastTransitionMs < op.createdAtMs || !target.sound {
        return false;
      }
      if !ValidState(target) {
        return false;
      }
    }
    valid := op.lifecycle == DeriveLifecycle(Eligible(op.targets)) && Count(op.targets, HoldsClaim) <= op.maxParallelism;
  }

  /** No device appears twice in a valid operation. */
  lemma DevicesDistinct(op: Operation)
    requires Valid(op)
    ensures Distinct(DeviceIds(op.preview.targets))
  {
    hide ValidPreflight, ValidState, OrdinalLess;
    var ids := DeviceIds(op.preview.targets);
    forall i | 0 < i < |ids| ensures OrdinalLess(ids[i - 1], ids[i]) {
      assert BindsTarget(op, i);
    }
    AscendingDistinct(ids);
  }

  function DeviceIds(targets: seq<Preflight>): (ids: seq<string>)
    ensures |ids| == |targets| && forall i :: 0 <= i < |ids| ==> ids[i] == targets[i].deviceId
  {
    seq(|targets|, i requires 0 <= i < |targets| => targets[i].deviceId)
  }

  // ---------------------------------------------------------------- progress

  datatype Progress = Progress(
    operationId: string, operationSha256: string, lifecycle: Lifecycle, archived: bool, archivedAtMs: Option<int>,
    total: nat, eligible: nat, excluded: nat,
    previewReady: nat, approved: nat, dispatchReady: nat, claimed: nat, ownerAcknowledged: nat, staged: nat,
    awaitingWearer: nat, cancellationRequested: nat, recoveryRequired: nat,
    applied: nat, failed: nat, expired: nat, cancelled: nat,
    retainedClaims: nat, maxParallelism: int, terminalTargets: nat, terminal: bool, archiveEligible: bool,
    sound: bool)

  predicate Terminal(t: Target) {
    t.lifecycle in {Rejected, Applied, Failed, Expired, Cancelled}
  }

  predicate Claimed(t: Target) { t.lifecycle == Accepted && t.ownerClaim.Some? }

  predicate Unclaimed(t: Target) { t.stage == DispatchReady && t.ownerClaim.None? }

  function AtStage(stage: Stage): Target -> bool { (t: Target) => t.stage == stage }

  predicate Projects(op: Operation, p: Progress) {
    var ts := op.targets;
    && p.sound && p.operationId == op.operationId && p.lifecycle == op.lifecycle
    && p.total == |ts| && p.eligible == Count(ts, IsEligible()) && p.excluded == |ts| - p.eligible
    && p.previewReady == Count(ts, AtStage(PreviewReady)) && p.approved == Count(ts, AtStage(Approved))
    && p.dispatchReady == Count(ts, Unclaimed) && p.claimed == Count(ts, Claimed)
    && p.ownerAcknowledged == Count(ts, AtStage(OwnerAcknowledged)) && p.staged == Count(ts, AtStage(Staged))
    && p.awaitingWearer == Count(ts, AtStage(AwaitingWearer))
    && p.cancellationRequested == Count(ts, AtStage(StageCancellationRequested))
    && p.recoveryRequired == Count(ts, AtStage(RecoveryRequired))
    && p.applied == Count(ts, AtStage(StageApplied)) && p.failed == Count(ts, AtStage(StageFailed))
    && p.expired == Count(ts, AtStage(StageExpired)) && p.cancelled == Count(ts, AtStage(StageCancelled))
    && p.retainedClaims == Count(ts, HoldsClaim) && p.maxParallelism == op.maxParallelism
    && p.terminalTargets == Count(ts, Terminal) && p.terminal == (p.terminalTargets == p.total)
    && p.archiveEligible == (p.terminal && !p.archived)
    && (p.archived <==> p.archivedAtMs.Some?)
  }

  /** Accepts exactly the projections of a valid operation. */
  method ValidateProgress(op: Operation, p: Progress) returns (valid: bool)
    ensures valid <==> Valid(op) && Projects(op, p)
  {
    var validOperation := ValidateOperation(op);
    valid := validOperation && Projects(op, p);
  }

  // ---------------------------------------------------------------- conservation

  function Tally(b: bool): nat { if b then 1 else 0 }

  /** The stages before the owner has the package, and those after. */
  function EarlyTally(t: Target): nat {
    Tally(t.stage == PreviewReady) + Tally(t.stage == Approved) + Tally(Unclaimed(t)) + Tally(Claimed(t)) +
    Tally(t.stage == OwnerAcknowledged)
  }

  function LateTally(t: Target): nat {
    Tally(t.stage == Staged) + Tally(t.stage == AwaitingWearer) + Tally(t.stage == StageCancellationRequested) +
    Tally(t.stage == RecoveryRequired) + Tally(t.stage == StageApplied) + Tally(t.stage == StageFailed) +
    Tally(t.stage == StageExpired) + Tally(t.stage == StageCancelled)
  }

  /** A valid target is excluded or falls in exactly one counted stage, and is terminal exactly when
      it is excluded or at a final stage. */
  lemma OneStage(t: Target)
    requires ValidState(t)
    ensures EarlyTally(t) + LateTally(t) == Tally(t.preflight.eligible)
    ensures Tally(Terminal(t)) + Tally(t.preflight.eligible) ==
            1 + Tally(t.stage == StageApplied) + Tally(t.stage == StageFailed) +
            Tally(t.stage == StageExpired) + Tally(t.stage == StageCancelled)
  {
  }

  function EarlyCounts(ts: seq<Target>): nat {
    Count(ts, AtStage(PreviewReady)) + Count(ts, AtStage(Approved)) + Count(ts, Unclaimed) + Count(ts, Claimed) +
    Count(ts, AtStage(OwnerAcknowledged))
  }

  function LateCounts(ts: seq<Target>): nat {
    Count(ts, AtStage(Staged)) + Count(ts, AtStage(AwaitingWearer)) + Count(ts, AtStage(StageCancellationRequested)) +
    Count(ts, AtStage(RecoveryRequired)) + Count(ts, AtStage(StageApplied)) + Count(ts, AtStage(StageFailed)) +
    Count(ts, AtStage(StageExpired)) + Count(ts, AtStage(StageCancelled))
  }

  lemma {:induction false} StagesAddUp(ts: seq<Target>)
    requires forall t :: t in ts ==> ValidState(t)
    ensures EarlyCounts(ts) + LateCounts(ts) == Count(ts, IsEligible())
  {
    hide ValidState, EarlyTally, LateTally, EarlyCounts, LateCounts;
    if ts == [] {
      NoCounts();
    } else {
      assert ts[0] in ts && forall t :: t in ts[1..] ==> t in ts;
      StagesAddUp(ts[1..]);
      OneStage(ts[0]);
      EarlyStep(ts);
      LateStep(ts);
    }
  }

  lemma NoCounts()
    ensures EarlyCounts([]) == LateCounts([]) == 0
  {
  }

  lemma EarlyStep(ts: seq<Target>)
    requires ts != []
    ensures EarlyCounts(ts) == EarlyTally(ts[0]) + EarlyCounts(ts[1..])
  {
  }

  lemma LateStep(ts: seq<Target>)
    requires ts != []
    ensures LateCounts(ts) == LateTally(ts[0]) + LateCounts(ts[1..])
  {
  }

  lemma {:induction false} TerminalsAddUp(ts: seq<Target>)
    requires forall t :: t in ts ==> ValidState(t)
    ensures Count(ts, Terminal) + Count(ts, IsEligible()) ==
            |ts| + Count(ts, AtStage(StageApplied)) + Count(ts, AtStage(StageFailed)) +
            Count(ts, AtStage(StageExpired)) + Count(ts, AtStage(StageCancelled))
  {
    hide ValidState, Terminal, EarlyTally, LateTally;
    if ts != [] {
      assert ts[0] in ts && forall t :: t in ts[1..] ==> t in ts;
      TerminalsAddUp(ts[1..]);
      OneStage(ts[0]);
    }
  }

  lemma TargetsValid(op: Operation)
    requires Valid(op)
    ensures forall t :: t in op.targets ==> ValidState(t)
  {
    hide ValidState, ValidPreflight, OrdinalLess;
    forall t | t in op.targets ensures ValidState(t) {
      var i :| 0 <= i < |op.targets| && op.targets[i] == t;
      assert BindsTarget(op, i);
    }
  }

  /** Excluded targets and the thirteen stage counts make up the total, the terminal targets are the
      excluded and finished ones, and the claims held stay within the parallelism. */
  predicate Conserved(op: Operation, p: Progress) {
    && p.excluded + p.previewReady + p.approved + p.dispatchReady + p.claimed + p.ownerAcknowledged + p.staged +
       p.awaitingWearer + p.cancellationRequested + p.recoveryRequired +
       p.applied + p.failed + p.expired + p.cancelled == p.total
    && p.terminalTargets == p.excluded + p.applied + p.failed + p.expired + p.cancelled
    && p.retainedClaims <= p.maxParallelism
    && (p.terminal <==> forall t :: t in op.targets ==> Terminal(t))
  }

  /** Every accepted projection, of any size, conserves its targets. */
  lemma ProgressConserves(op: Operation, p: Progress)
    ensures Valid(op) && Projects(op, p) ==> Conserved(op, p)
  {
    hide ValidState, Terminal, Claimed, Unclaimed, HoldsClaim, BindsTarget, Count, Where, DeriveLifecycle, ValidHeader;
    if Valid(op) && Projects(op, p) {
      TargetsValid(op);
      StagesAddUp(op.targets);
      TerminalsAddUp(op.targets);
      CountAll(op.targets, Terminal);
    }
  }

  // ---------------------------------------------------------------- the aggregate

  predicate EndedAggregate(l: Lifecycle) { l in {Rejected, Applied, Expired, Failed} }

  predicate Cancelling(t: Target) { t.preflight.eligible && t.lifecycle == CancellationRequested }

  /** The aggregate is never cancelled nor cancelling, whatever the targets do. */
  lemma AggregateNeverCancelled(eligible: seq<Target>)
    ensures DeriveLifecycle(eligible) !in {Cancelled, CancellationRequested}
  {
  }

  /** All targets are terminal exactly when the aggregate has ended and no target is still waiting
      for its cancellation. */
  lemma TerminalIff(op: Operation)
    requires Valid(op)
    ensures (forall t :: t in op.targets ==> Terminal(t)) <==>
            EndedAggregate(op.lifecycle) && !exists t :: t in op.targets && Cancelling(t)
  {
    hide Valid, ValidHeader, ValidState;
    var eligible := Eligible(op.targets);
    assert op.lifecycle == DeriveLifecycle(eligible) by { AggregateOf(op); }
    TargetsValid(op);
    forall t | t in op.targets ensures Standing(t) {
      StandingOf(t);
    }
    assert EndedAggregate(op.lifecycle) <==> forall t :: t in eligible ==> !Open(t) by { EndedMeans(eligible); }
  }

  lemma AggregateOf(op: Operation)
    requires Valid(op)
    ensures op.lifecycle == DeriveLifecycle(Eligible(op.targets))
  {
  }

  predicate SomeEligible(targets: seq<Target>, lifecycle: Lifecycle) {
    exists t :: t in targets && t.preflight.eligible && t.lifecycle == lifecycle
  }

  predicate AllEligible(targets: seq<Target>, lifecycle: Lifecycle) {
    && (exists t :: t in targets && t.preflight.eligible)
    && (forall t :: t in targets && t.preflight.eligible ==> t.lifecycle == lifecycle)
  }

  /** What each aggregate of an accepted operation says of its targets, the excluded ones aside. */
  lemma AggregateMeans(op: Operation)
    requires Valid(op)
    ensures op.lifecycle == Rejected <==> forall t :: t in op.targets ==> !t.preflight.eligible
    ensures op.lifecycle == Running <==> SomeEligible(op.targets, Running)
    ensures op.lifecycle == Dispatched <==>
            SomeEligible(op.targets, Dispatched) && !SomeEligible(op.targets, Running)
    ensures op.lifecycle == Proposed <==>
            && SomeEligible(op.targets, Proposed)
            && !SomeEligible(op.targets, Running) && !SomeEligible(op.targets, Dispatched)
    ensures op.lifecycle == Accepted <==>
            && SomeEligible(op.targets, Accepted) && !SomeEligible(op.targets, Running)
            && !SomeEligible(op.targets, Dispatched) && !SomeEligible(op.targets, Proposed)
    ensures op.lifecycle == Applied <==> AllEligible(op.targets, Applied)
    ensures op.lifecycle == Expired <==> AllEligible(op.targets, Expired)
    ensures op.lifecycle == Failed <==>
            && (exists t :: t in op.targets && t.preflight.eligible)
            && !SomeEligible(op.targets, Running) && !SomeEligible(op.targets, Dispatched)
            && !SomeEligible(op.targets, Proposed) && !SomeEligible(op.targets, Accepted)
            && !AllEligible(op.targets, Applied) && !AllEligible(op.targets, Expired)
  {
    hide Valid, Where;
    AggregateOf(op);
    var eligible := Eligible(op.targets);
    assert forall t :: t in eligible <==> t in op.targets && t.preflight.eligible;
    assert eligible != [] ==> eligible[0] in eligible;
  }

  /** One target has failed, so the operation has, however many others were applied. */
  lemma HalfFailed(op: Operation, t: Target)
    requires Valid(op) && t in op.targets && t.preflight.eligible && t.lifecycle == Failed
    ensures op.lifecycle != Applied && op.lifecycle != Expired && op.lifecycle != Rejected
  {
    AggregateMeans(op);
  }

  // ---------------------------------------------------------------- exactly what is accepted

  /** Where a target at each stage stands. */
  predicate StageSuits(t: Target) {
    match t.stage
    case PreviewReady => t.lifecycle == Proposed
    case Approved => t.lifecycle == Accepted
    case DispatchReady => t.lifecycle == Accepted
    case OwnerAcknowledged => t.lifecycle == Dispatched
    case Staged => t.lifecycle == Running
    case AwaitingWearer => t.lifecycle == Running
    case RecoveryRequired => t.lifecycle == Running
    case StageCancellationRequested => t.lifecycle == Running || t.lifecycle == CancellationRequested
    case StageApplied => t.lifecycle == Applied
    case StageFailed => t.lifecycle == Failed
    case StageExpired => t.lifecycle == Expired
    case StageCancelled => t.lifecycle == Cancelled
    case _ => false
  }

  /** The owner is invoked, and may claim, from the moment the target is ready for dispatch. */
  predicate InvocationSuits(t: Target) {
    if t.stage in {PreviewReady, Approved} then t.invocation == None && t.ownerClaim == None
    else t.invocation == Some(Evidence(true)) && (t.stage == DispatchReady ==> t.ownerClaim != Some(Evidence(false)))
  }

  predicate AcknowledgementSuits(t: Target) {
    && (t.lifecycle in {Proposed, Accepted} ==> t.acknowledgement == None)
    && (t.lifecycle in {Dispatched, Running} ==> t.acknowledgement == Some(Acknowledgement(true, true)))
    && (t.lifecycle in {Failed, Expired} && t.acknowledgement.Some? ==> t.acknowledgement.value.valid)
  }

  /** Progress starts with running, and names the stage the target is at; after an application any
      later stage may still be the last one reported. */
  predicate ProgressSuits(t: Target) {
    && (t.lifecycle in {Proposed, Accepted, Dispatched} ==> t.progress == None)
    && (t.lifecycle in {Running, CancellationRequested, Cancelled} ==> t.progress == Some(OwnerProgress(t.stage, true)))
    && (t.lifecycle in {Failed, Expired} ==> t.progress in {None, Some(OwnerProgress(t.stage, true))})
    && (t.lifecycle == Applied && t.progress.Some? ==>
          t.progress.value.valid &&
          t.progress.value.stage in {Staged, AwaitingWearer, StageCancellationRequested, StageCancelled,
                                     RecoveryRequired, StageFailed, StageExpired})
  }

  predicate ReceiptSuits(t: Target) {
    t.receipt == if t.lifecycle == Applied then Some(Evidence(true)) else None
  }

  /** Exactly which states a target may be in, evidence by evidence. */
  lemma StateIff(t: Target)
    ensures t.preflight.eligible ==>
      (ValidState(t) <==>
         && t.historySound && StageSuits(t) && InvocationSuits(t) && AcknowledgementSuits(t) && ProgressSuits(t)
         && ReceiptSuits(t))
    ensures !t.preflight.eligible ==>
      (ValidState(t) <==>
         t == Target(t.deviceId, t.identityRevision, t.preflight, Rejected, PreflightRejected, None, None, 0, 0,
                     None, None, None, t.historySound, t.lastTransitionMs, t.sound))
  {
  }

  predicate AggregateSuits(targets: seq<Target>, lifecycle: Lifecycle) {
    match lifecycle
    case Rejected => forall t :: t in targets ==> !t.preflight.eligible
    case Running => SomeEligible(targets, Running)
    case Dispatched => SomeEligible(targets, Dispatched) && !SomeEligible(targets, Running)
    case Proposed =>
      SomeEligible(targets, Proposed) && !SomeEligible(targets, Running) && !SomeEligible(targets, Dispatched)
    case Accepted =>
      && SomeEligible(targets, Accepted) && !SomeEligible(targets, Running) && !SomeEligible(targets, Dispatched)
      && !SomeEligible(targets, Proposed)
    case Applied => AllEligible(targets, Applied)
    case Expired => AllEligible(targets, Expired)
    case Failed =>
      && (exists t :: t in targets && t.preflight.eligible)
      && !SomeEligible(targets, Running) && !SomeEligible(targets, Dispatched) && !SomeEligible(targets, Proposed)
      && !SomeEligible(targets, Accepted) && !AllEligible(targets, Applied) && !AllEligible(targets, Expired)
    case _ => false
  }

  lemma AggregateIff(targets: seq<Target>, lifecycle: Lifecycle)
    ensures AggregateSuits(targets, lifecycle) <==> lifecycle == DeriveLifecycle(Eligible(targets))
  {
    hide Where;
    var eligible := Eligible(targets);
    assert forall t :: t in eligible <==> t in targets && t.preflight.eligible;
    assert eligible != [] ==> eligible[0] in eligible;
  }

  predicate Claims(t: Target) {
    t.lifecycle in {Dispatched, Running} || (t.lifecycle == Accepted && t.ownerClaim != None)
  }

  predicate SizesSuit(op: Operation) {
    && op.sound && op.preview.sound && 0 <= op.createdAtMs && op.createdAtMs == op.preview.createdAtMs
    && op.createdAtMs < op.preview.expiresAtMs && 0 < op.maxParallelism && op.maxParallelism < 65
    && 0 < |op.targets| && |op.targets| < 10001 && |op.targets| == |op.preview.targets|
  }

  /** A target is the previewed one, in an accepted state, changed no earlier than the operation began. */
  predicate Previewed(op: Operation, t: Target, preflight: Preflight) {
    && ValidPreflight(preflight, op.createdAtMs, op.preview.expiresAtMs) && t.preflight == preflight && t.sound
    && t.deviceId == preflight.deviceId && t.identityRevision == preflight.identityRevision
    && op.createdAtMs <= t.lastTransitionMs && ValidState(t)
  }

  /** Exactly which operations are accepted. */
  ghost predicate AcceptedOperation(op: Operation) {
    && SizesSuit(op)
    && (forall i :: 0 <= i < |op.targets| ==> Previewed(op, op.targets[i], op.preview.targets[i]))
    && (forall i, j :: 0 <= i < j < |op.targets| ==>
          OrdinalLess(op.preview.targets[i].deviceId, op.preview.targets[j].deviceId))
    && AggregateSuits(op.targets, op.lifecycle)
    && |set i | 0 <= i < |op.targets| && Claims(op.targets[i])| <= op.maxParallelism
  }

  lemma AcceptedIff(op: Operation)
    ensures Valid(op) <==> AcceptedOperation(op)
  {
    hide ValidPreflight, ValidState, OrdinalLess, DeriveLifecycle, AggregateSuits;
    AggregateIff(op.targets, op.lifecycle);
    KnownAggregate(op);
    ClaimsCount(op.targets);
    if SizesSuit(op) {
      AscendingIff(DeviceIds(op.preview.targets));
      PreviewAscends(op.preview.targets);
      PositionsBind(op);
      hide BindsTarget, Previewed, Ascending, Claims;
      assert AggregateSuits(op.targets, op.lifecycle) ==> ValidHeader(op);
    } else {
      assert !ValidHeader(op);
    }
  }

  lemma ClaimsCount(targets: seq<Target>)
    ensures Count(targets, HoldsClaim) == |set i | 0 <= i < |targets| && Claims(targets[i])|
  {
    hide Claims, Count;
    CountPlaces(targets, HoldsClaim);
    forall i | 0 <= i < |targets| ensures Claims(targets[i]) <==> HoldsClaim(targets[i]) {
      ClaimsMean(targets[i]);
    }
    var claims := set i | 0 <= i < |targets| && Claims(targets[i]);
    assert claims == Places(targets, HoldsClaim);
  }

  lemma ClaimsMean(t: Target)
    ensures Claims(t) <==> HoldsClaim(t)
  {
  }

  lemma PreviewAscends(targets: seq<Preflight>)
    ensures (forall i, j :: 0 <= i < j < |DeviceIds(targets)| ==> OrdinalLess(DeviceIds(targets)[i], DeviceIds(targets)[j])) <==>
            (forall i, j :: 0 <= i < j < |targets| ==> OrdinalLess(targets[i].deviceId, targets[j].deviceId))
  {
    var ids := DeviceIds(targets);
    if forall i, j :: 0 <= i < j < |ids| ==> OrdinalLess(ids[i], ids[j]) {
      forall i, j | 0 <= i < j < |targets| ensures OrdinalLess(targets[i].deviceId, targets[j].deviceId) {
        assert OrdinalLess(ids[i], ids[j]);
      }
    }
  }

  lemma KnownAggregate(op: Operation)
    ensures AggregateSuits(op.targets, op.lifecycle) ==> !op.lifecycle.OtherLifecycle?
  {
  }

  lemma PositionsBind(op: Operation)
    requires SizesSuit(op)
    ensures (forall i :: 0 <= i < |op.targets| ==> BindsTarget(op, i)) <==>
            && (forall i :: 0 <= i < |op.targets| ==> Previewed(op, op.targets[i], op.preview.targets[i]))
            && Ascending(DeviceIds(op.preview.targets))
  {
    hide ValidPreflight, ValidState, OrdinalLess;
    var n, ids := |op.targets|, DeviceIds(op.preview.targets);
    if forall i :: 0 <= i < n ==> BindsTarget(op, i) {
      forall i | 0 < i < n ensures OrdinalLess(ids[i - 1], ids[i]) {
        assert BindsTarget(op, i);
      }
      forall i | 0 <= i < n ensures Previewed(op, op.targets[i], op.preview.targets[i]) {
        assert BindsTarget(op, i);
      }
    }
    if (forall i :: 0 <= i < n ==> Previewed(op, op.targets[i], op.preview.targets[i])) && Ascending(ids) {
      forall i | 0 <= i < n ensures BindsTarget(op, i) {
        assert Previewed(op, op.targets[i], op.preview.targets[i]);
        assert i > 0 ==> OrdinalLess(ids[i - 1], ids[i]);
      }
    }
  }

  predicate Open(t: Target) { t.lifecycle in {Proposed, Accepted, Dispatched, Running} }

  predicate Standing(t: Target) {
    && (!t.preflight.eligible ==> Terminal(t))
    && (t.preflight.eligible ==> (Terminal(t) <==> !Open(t) && !Cancelling(t)))
  }

  lemma StandingOf(t: Target)
    requires ValidState(t)
    ensures Standing(t)
  {
  }

  lemma EndedMeans(eligible: seq<Target>)
    ensures EndedAggregate(DeriveLifecycle(eligible)) <==> forall t :: t in eligible ==> !Open(t)
  {
  }

  /** The aggregate alone is not enough: an operation whose one target asked for cancellation is
      already reported as failed. */
  lemma FailedBeforeCancelled()
    returns (op: Operation)
    ensures Valid(op) && op.lifecycle == Failed && |op.targets| == 1 && !Terminal(op.targets[0])
  {
    var facts := Facts(Yes, Yes, Yes, Yes, Yes, 1, 9, 2);
    var preflight := Preflight("device-1", 1, facts, Ready, true, true);
    var target := Target("device-1", 1, preflight, CancellationRequested, StageCancellationRequested,
                         Some(Evidence(true)), None, 0, 0, None, Some(OwnerProgress(StageCancellationRequested, true)), None,
                         true, 3, true);
    var preview := Preview("preview", 1, 9, "release", "package", "ring", [preflight], true);
    op := Operation("operation", 1, Failed, 1, preview, [target], true);
    assert IsEligible()(target) && Where([target][1..], IsEligible()) == [];
    assert Eligible([target]) == [target];
    assert BindsTarget(op, 0);
    assert target in [target];
    assert Count([target], HoldsClaim) == 0;
  }

  /** What an accepted projection says about ending: terminal implies an ended aggregate, and only
      a pending cancellation separates the two. */
  lemma ProgressEnds(op: Operation, p: Progress)
    ensures Valid(op) && Projects(op, p) ==>
      && (p.terminal ==> EndedAggregate(p.lifecycle))
      && (EndedAggregate(p.lifecycle) && p.cancellationRequested == 0 ==> p.terminal)
  {
    hide Valid, ValidState, Terminal, Count;
    if Valid(op) && Projects(op, p) {
      ProgressConserves(op, p);
      TerminalIff(op);
      if p.cancellationRequested == 0 {
        NoneCancelling(op);
      }
    }
  }

  lemma NoneCancelling(op: Operation)
    requires Valid(op) && Count(op.targets, AtStage(StageCancellationRequested)) == 0
    ensures !exists t :: t in op.targets && Cancelling(t)
  {
    hide Valid;
    TargetsValid(op);
    CountOpposite(op.targets, StageCancellationRequested);
    CountAll(op.targets, (t: Target) => t.stage != StageCancellationRequested);
    forall t | t in op.targets ensures !Cancelling(t) {
      CancellingStage(t);
    }
  }

  lemma CancellingStage(t: Target)
    requires ValidState(t)
    ensures Cancelling(t) ==> t.stage == StageCancellationRequested
  {
  }

  lemma {:induction false} CountOpposite(ts: seq<Target>, stage: Stage)
    ensures Count(ts, (t: Target) => t.stage != stage) + Count(ts, AtStage(stage)) == |ts|
  {
    if ts != [] {
      CountOpposite(ts[1..], stage);
    }
  }

  ghost function StagePlaces(ts: seq<Target>, stage: Stage): set<int> { set i | 0 <= i < |ts| && ts[i].stage == stage }

  lemma StageCount(ts: seq<Target>, stage: Stage)
    ensures Count(ts, AtStage(stage)) == |StagePlaces(ts, stage)|
  {
    CountPlaces(ts, AtStage(stage));
    assert StagePlaces(ts, stage) == Places(ts, AtStage(stage));
  }

  /** Each number of an accepted projection is the number of targets it is named after. */
  lemma ProgressMeans(op: Operation, p: Progress)
    requires Projects(op, p)
    ensures p.previewReady == |StagePlaces(op.targets, PreviewReady)| && p.approved == |StagePlaces(op.targets, Approved)|
    ensures p.ownerAcknowledged == |StagePlaces(op.targets, OwnerAcknowledged)|
    ensures p.staged == |StagePlaces(op.targets, Staged)| && p.awaitingWearer == |StagePlaces(op.targets, AwaitingWearer)|
    ensures p.cancellationRequested == |StagePlaces(op.targets, StageCancellationRequested)|
    ensures p.recoveryRequired == |StagePlaces(op.targets, RecoveryRequired)|
    ensures p.applied == |StagePlaces(op.targets, StageApplied)| && p.failed == |StagePlaces(op.targets, StageFailed)|
    ensures p.expired == |StagePlaces(op.targets, StageExpired)| && p.cancelled == |StagePlaces(op.targets, StageCancelled)|
  {
    var ts := op.targets;
    hide Count, StagePlaces;
    StageCount(ts, PreviewReady);
    StageCount(ts, Approved);
    StageCount(ts, OwnerAcknowledged);
    StageCount(ts, Staged);
    StageCount(ts, AwaitingWearer);
    StageCount(ts, StageCancellationRequested);
    StageCount(ts, RecoveryRequired);
    StageCount(ts, StageApplied);
    StageCount(ts, StageFailed);
    StageCount(ts, StageExpired);
    StageCount(ts, StageCancelled);
  }

  /** The same for the numbers that are not about one stage. */
  lemma ProgressTotals(op: Operation, p: Progress)
    requires Projects(op, p)
    ensures var ts := op.targets;
            && p.sound && p.operationId == op.operationId && p.lifecycle == op.lifecycle
            && p.maxParallelism == op.maxParallelism
            && p.total == |ts| && p.excluded + p.eligible == |ts|
            && p.eligible == |set i | 0 <= i < |ts| && ts[i].preflight.eligible|
            && p.dispatchReady == |set i | 0 <= i < |ts| && ts[i].stage == DispatchReady && ts[i].ownerClaim == None|
            && p.claimed == |set i | 0 <= i < |ts| && ts[i].lifecycle == Accepted && ts[i].ownerClaim != None|
            && p.retainedClaims == |set i | 0 <= i < |ts| && Claims(ts[i])|
            && (p.terminal <==> forall t :: t in ts ==> t.lifecycle in {Rejected, Applied, Failed, Expired, Cancelled})
            && (p.archiveEligible <==> p.terminal && !p.archived) && (p.archived <==> p.archivedAtMs != None)
  {
    var ts := op.targets;
    EligibleCount(ts);
    ClaimStages(ts);
    ClaimsCount(ts);
    CountAll(ts, Terminal);
    hide Count;
  }

  lemma EligibleCount(ts: seq<Target>)
    ensures Count(ts, IsEligible()) == |set i | 0 <= i < |ts| && ts[i].preflight.eligible|
  {
    CountPlaces(ts, IsEligible());
    var places := set i | 0 <= i < |ts| && ts[i].preflight.eligible;
    assert places == Places(ts, IsEligible());
  }

  lemma ClaimStages(ts: seq<Target>)
    ensures Count(ts, Unclaimed) == |set i | 0 <= i < |ts| && ts[i].stage == DispatchReady && ts[i].ownerClaim == None|
    ensures Count(ts, Claimed) == |set i | 0 <= i < |ts| && ts[i].lifecycle == Accepted && ts[i].ownerClaim != None|
  {
    CountPlaces(ts, Unclaimed);
    CountPlaces(ts, Claimed);
    var free := set i | 0 <= i < |ts| && ts[i].stage == DispatchReady && ts[i].ownerClaim == None;
    var held := set i | 0 <= i < |ts| && ts[i].lifecycle == Accepted && ts[i].ownerClaim != None;
    assert free == Places(ts, Unclaimed) && held == Places(ts, Claimed);
  }
}
