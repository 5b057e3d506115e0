/** The Kiosk show-controls ledger: target states, attempts and dispositions, and the aggregate. */
module KioskLedger {
  import opened Basics
  import opened Ledger

  datatype Retry = NotEligible | NewOwnerRequestRequired | OtherRetry(text: string)

  datatype CancelOption =
    | CancelableBeforeDispatch | CancellationRequestedBeforeDispatch | CancelledBeforeDispatch
    | NotCancelableAfterDispatch | NothingToCancel
    | OtherCancel(text: string)

  datatype Receipt = Receipt(ownerActionRequestId: string, valid: bool)

  datatype Target = Target(
    deviceId: string, identityRevision: int, preflight: Preflight, lifecycle: Lifecycle,
    attemptCount: nat, dispatchedAtMs: Option<int>, ownerDeadlineAtMs: Option<int>,
    ownerRequestIds: seq<string>, ownerRequestId: Option<string>, receipt: Option<Receipt>,
    retry: Retry, cancel: CancelOption, effectiveReceiptReason: bool, lastTransitionMs: int, sound: bool)

  datatype Operation = Operation(
    createdAtMs: int, expiresAtMs: int, lifecycle: Lifecycle, maxParallelism: int, maxAttempts: int,
    preview: seq<Preflight>, targets: seq<Target>, sound: bool)

  // ---------------------------------------------------------------- one target

  predicate Untouched(t: Target) {
    && t.attemptCount == 0 && t.dispatchedAtMs.None? && t.ownerRequestId.None? && t.receipt.None?
    && t.retry == NotEligible
  }

  predicate Reached(t: Target) { t.attemptCount > 0 && t.dispatchedAtMs.Some? && t.ownerRequestId.Some? }

  predicate ValidState(t: Target, maxAttempts: int) {
    if !t.preflight.eligible then t.lifecycle == Rejected && Untouched(t) && t.cancel == NothingToCancel
    else match t.lifecycle
      case Proposed => Untouched(t) && t.cancel == CancelableBeforeDispatch
      case Accepted => Untouched(t) && t.cancel == CancelableBeforeDispatch
      case CancellationRequested => Untouched(t) && t.cancel == CancellationRequestedBeforeDispatch
      case Cancelled => Untouched(t) && t.cancel == CancelledBeforeDispatch
      case Dispatched => InFlight(t)
      case Running => InFlight(t)
      case Applied =>
        Reached(t) && t.receipt.Some? && t.retry == NotEligible && t.cancel == NothingToCancel && t.effectiveReceiptReason
      case Failed => Spent(t, maxAttempts)
      case Expired => Spent(t, maxAttempts)
      case _ => false
  }

  predicate InFlight(t: Target) {
    Reached(t) && t.receipt.None? && t.retry == NotEligible && t.cancel == NotCancelableAfterDispatch
  }

  predicate Spent(t: Target, maxAttempts: int) {
    && Reached(t) && t.receipt.None?
    && t.retry == (if t.attemptCount < maxAttempts then NewOwnerRequestRequired else NotEligible)
    && t.cancel == NothingToCancel
  }

  /** Every attempt left one owner request id, and the current one is the last. */
  predicate ValidRequests(t: Target, maxAttempts: int) {
    && t.attemptCount <= maxAttempts && |t.ownerRequestIds| == t.attemptCount && Distinct(t.ownerRequestIds)
    && (if t.ownerRequestId.None? then |t.ownerRequestIds| == 0
        else |t.ownerRequestIds| > 0 && t.ownerRequestIds[|t.ownerRequestIds| - 1] == t.ownerRequestId.value)
  }

  predicate ValidTimes(t: Target, op: Operation) {
    && (t.dispatchedAtMs.Some? ==>
          op.createdAtMs <= t.dispatchedAtMs.value <= op.expiresAtMs && t.dispatchedAtMs.value <= t.lastTransitionMs)
    && (if t.dispatchedAtMs.None? then t.ownerDeadlineAtMs.None?
        else t.ownerDeadlineAtMs.Some? && t.dispatchedAtMs.value < t.ownerDeadlineAtMs.value <= op.expiresAtMs)
  }

  predicate BindsTarget(op: Operation, i: nat)
    requires i < |op.preview| && |op.targets| == |op.preview|
  {
    var t := op.targets[i];
    && (i > 0 ==> OrdinalLess(op.targets[i - 1].deviceId, t.deviceId))
    && t.deviceId == t.preflight.deviceId && t.identityRevision == t.preflight.identityRevision
    && t.preflight == op.preview[i] && t.sound && !t.lifecycle.OtherLifecycle?
    && ValidPreflight(t.preflight, op.createdAtMs, op.expiresAtMs)
    && ValidTimes(t, op) && ValidRequests(t, op.maxAttempts) && ValidState(t, op.maxAttempts)
    && (t.receipt.Some? ==> t.receipt.value.valid && t.ownerRequestId == Some(t.receipt.value.ownerActionRequestId))
  }

  // ---------------------------------------------------------------- the whole operation

  predicate ValidPreview(op: Operation, i: nat)
    requires i < |op.preview|
  {
    && ValidPreflight(op.preview[i], op.createdAtMs, op.expiresAtMs)
    && (i > 0 ==> OrdinalLess(op.preview[i - 1].deviceId, op.preview[i].deviceId))
  }

  function IsEligible(): Target -> bool { (t: Target) => t.preflight.eligible }

  function Eligible(targets: seq<Target>): seq<Target> { Where(targets, IsEligible()) }

  predicate Outstanding(t: Target) { t.lifecycle == Dispatched || t.lifecycle == Running }

  predicate AnyAt(targets: seq<Target>, lifecycle: Lifecycle) {
    exists t :: t in targets && t.lifecycle == lifecycle
  }

  predicate AllAt(targets: seq<Target>, lifecycle: Lifecycle) {
    forall t :: t in targets ==> t.lifecycle == lifecycle
  }

  function DeriveLifecycle(eligible: seq<Target>): Lifecycle {
    if |eligible| == 0 then Rejected
    else if AnyAt(eligible, Dispatched) || AnyAt(eligible, Running) then Running
    else if AnyAt(eligible, CancellationRequested) then CancellationRequested
    else if AnyAt(eligible, Proposed) then Proposed
    else if AnyAt(eligible, Accepted) then Accepted
    else if AllAt(eligible, Applied) then Applied
    else if AllAt(eligible, Cancelled) then Cancelled
    else if AllAt(eligible, Expired) then Expired
    else Failed
  }

  predicate ValidHeader(op: Operation) {
    && op.sound && !op.lifecycle.OtherLifecycle? && 1 <= op.maxParallelism <= 64 && 1 <= op.maxAttempts <= 8
    && op.expiresAtMs > op.createdAtMs && 1 <= |op.preview| <= 10000 && |op.targets| == |op.preview|
  }

  ghost predicate Valid(op: Operation) {
    && ValidHeader(op)
    && (forall i :: 0 <= i < |op.preview| ==> ValidPreview(op, i))
    && (forall i :: 0 <= i < |op.targets| ==> BindsTarget(op, i))
    && op.lifecycle == DeriveLifecycle(Eligible(op.targets))
    && Count(op.targets, Outstanding) <= op.maxParallelism
  }

  method ValidateOperation(op: Operation) returns (valid: bool)
    ensures valid <==> Valid(op)
    ensures valid <==> AcceptedOperation(op)
  {
    AcceptedIff(op);
    hide AcceptedOperation;
    hide ValidPreflight, ValidState, OrdinalLess, ValidTimes, ValidRequests;
    if !ValidHeader(op) {
      return false;
    }
    var previews := ValidatePreviews(op);
    if !previews {
      return false;
    }
    var priorDeviceId: Option<string> := None;
    for index := 0 to |op.targets|
      invariant priorDeviceId == if index == 0 then None else Some(op.targets[index - 1].deviceId)
      invariant forall i :: 0 <= i < index ==> BindsTarget(op, i)
    {
      var target := op.targets[index];
      ghost var binds := BindsTarget(op, index);
      if priorDeviceId.Some? && !OrdinalLess(priorDeviceId.value, target.deviceId) {
        return false;
      }
      priorDeviceId := Some(target.deviceId);
      if target.deviceId != target.preflight.deviceId || target.identityRevision != target.preflight.identityRevision ||
         target.preflight != op.preview[index] || !target.sound || target.lifecycle.OtherLifecycle? {
        return false;
      }
      if !ValidPreflight(target.preflight, op.createdAtMs, op.expiresAtMs) || !ValidTimes(target, op) ||
         !ValidRequests(target, op.maxAttempts) || !ValidState(target, op.maxAttempts) {
        return false;
      }
      if target.receipt.Some? &&
         (!target.receipt.value.valid || target.ownerRequestId != Some(target.receipt.value.ownerActionRequestId)) {
        return false;
      }
    }
    valid := op.lifecycle == DeriveLifecycle(Eligible(op.targets)) && Count(op.targets, Outstanding) <= op.maxParallelism;
  }

  method ValidatePreviews(op: Operation) returns (valid: bool)
    requires ValidHeader(op)
    ensures valid <==> forall i :: 0 <= i < |op.preview| ==> ValidPreview(op, i)
  {
    hide ValidPreflight, OrdinalLess;
    var priorDeviceId: Option<string> := None;
    for index := 0 to |op.preview|
      invariant priorDeviceId == if index == 0 then None else Some(op.preview[index - 1].deviceId)
      invariant forall i :: 0 <= i < index ==> ValidPreview(op, i)
    {
      var preflight := op.preview[index];
      ghost var binds := ValidPreview(op, index);
      if !ValidPreflight(preflight, op.createdAtMs, op.expiresAtMs) {
        return false;
      }
      if priorDeviceId.Some? && !OrdinalLess(priorDeviceId.value, preflight.deviceId) {
        return false;
      }
      priorDeviceId := Some(preflight.deviceId);
    }
    valid := true;
  }

  // ---------------------------------------------------------------- what acceptance means

  predicate Ended(l: Lifecycle) { l in {Rejected, Applied, Cancelled, Expired, Failed} }

  lemma TargetsValid(op: Operation)
    requires Valid(op)
    ensures forall t :: t in op.targets ==>
      ValidState(t, op.maxAttempts) && ValidRequests(t, op.maxAttempts) && ValidTimes(t, op)
  {
    hide ValidPreflight, ValidState, OrdinalLess, ValidTimes, ValidRequests;
    forall t | t in op.targets
      ensures ValidState(t, op.maxAttempts) && ValidRequests(t, op.maxAttempts) && ValidTimes(t, op)
    {
      var i :| 0 <= i < |op.targets| && op.targets[i] == t;
      assert BindsTarget(op, i);
    }
  }

  /** A Kiosk aggregate has ended exactly when every target has. */
  lemma TerminalIff(op: Operation)
    requires Valid(op)
    ensures Ended(op.lifecycle) <==> forall t :: t in op.targets ==> Ended(t.lifecycle)
  {
    hide ValidHeader, ValidRequests, ValidTimes, ValidState, BindsTarget;
    TargetsValid(op);
    forall t | t in op.targets ensures Standing(t) {
      StandingOf(t, op.maxAttempts);
    }
    EndedMeans(Eligible(op.targets));
  }

  predicate SomeEligible(targets: seq<Target>, lifecycle: Lifecycle) {
    exists t :: t in targets && t.preflight.eligible && t.lifecycle == lifecycle
  }

  predicate AllEligible(targets: seq<Target>, lifecycle: Lifecycle) {
    && (exists t :: t in targets && t.preflight.eligible)
    && (forall t :: t in targets && t.preflight.eligible ==> t.lifecycle == lifecycle)
  }

  /** An owner still works on some eligible target. */
  predicate SomeOutstanding(targets: seq<Target>) {
    SomeEligible(targets, Dispatched) || SomeEligible(targets, Running)
  }

  predicate SomeOpen(targets: seq<Target>) {
    || SomeOutstanding(targets) || SomeEligible(targets, CancellationRequested)
    || SomeEligible(targets, Proposed) || SomeEligible(targets, Accepted)
  }

  /** What each aggregate of an accepted operation says of its targets, the excluded ones aside. */
  lemma AggregateMeans(op: Operation)
    requires Valid(op)
    ensures op.lifecycle == Rejected <==> forall t :: t in op.targets ==> !t.preflight.eligible
    ensures op.lifecycle == Running <==> SomeOutstanding(op.targets)
    ensures op.lifecycle == CancellationRequested <==>
            SomeEligible(op.targets, CancellationRequested) && !SomeOutstanding(op.targets)
    ensures op.lifecycle == Proposed <==>
            && SomeEligible(op.targets, Proposed)
            && !SomeOutstanding(op.targets) && !SomeEligible(op.targets, CancellationRequested)
    ensures op.lifecycle == Accepted <==>
            && SomeEligible(op.targets, Accepted) && !SomeOutstanding(op.targets)
            && !SomeEligible(op.targets, CancellationRequested) && !SomeEligible(op.targets, Proposed)
    ensures op.lifecycle == Applied <==> AllEligible(op.targets, Applied)
    ensures op.lifecycle == Cancelled <==> AllEligible(op.targets, Cancelled)
    ensures op.lifecycle == Expired <==> AllEligible(op.targets, Expired)
    ensures op.lifecycle == Failed <==>
            && (exists t :: t in op.targets && t.preflight.eligible) && !SomeOpen(op.targets)
            && !AllEligible(op.targets, Applied) && !AllEligible(op.targets, Cancelled)
            && !AllEligible(op.targets, Expired)
  {
    hide ValidHeader, BindsTarget, ValidPreview, DeriveLifecycle, SomeEligible, AllEligible, SomeOutstanding, SomeOpen;
    assert op.lifecycle == DeriveLifecycle(Eligible(op.targets));
    AggregateIff(op.targets, op.lifecycle);
    AggregateIff(op.targets, Rejected);
    AggregateIff(op.targets, Running);
    AggregateIff(op.targets, CancellationRequested);
    AggregateIff(op.targets, Proposed);
    AggregateIff(op.targets, Accepted);
    AggregateIff(op.targets, Applied);
    AggregateIff(op.targets, Cancelled);
    AggregateIff(op.targets, Expired);
    AggregateIff(op.targets, Failed);
  }

  // ---------------------------------------------------------------- exactly what is accepted

  /** An owner is asked exactly from dispatch on; attempts, time and current request say so. */
  predicate Asked(t: Target) { t.lifecycle in {Dispatched, Running, Applied, Failed, Expired} }

  predicate CancelSuits(t: Target) {
    match t.cancel
    case CancelableBeforeDispatch => t.lifecycle == Proposed || t.lifecycle == Accepted
    case CancellationRequestedBeforeDispatch => t.lifecycle == CancellationRequested
    case CancelledBeforeDispatch => t.lifecycle == Cancelled
    case NotCancelableAfterDispatch => t.lifecycle == Dispatched || t.lifecycle == Running
    case NothingToCancel => t.lifecycle in {Applied, Failed, Expired}
    case _ => false
  }

  predicate RetrySuits(t: Target, maxAttempts: int) {
    t.retry == if t.lifecycle in {Failed, Expired} && t.attemptCount < maxAttempts then NewOwnerRequestRequired else NotEligible
  }

  /** Exactly which states a target may be in, evidence by evidence. */
  lemma StateIff(t: Target, maxAttempts: int)
    ensures t.preflight.eligible ==>
      (ValidState(t, maxAttempts) <==>
         && CancelSuits(t) && RetrySuits(t, maxAttempts)
         && (t.attemptCount == 0 <==> !Asked(t)) && (t.dispatchedAtMs == None <==> !Asked(t))
         && (t.ownerRequestId == None <==> !Asked(t)) && (t.receipt == None <==> t.lifecycle != Applied)
         && (t.lifecycle == Applied ==> t.effectiveReceiptReason))
    ensures !t.preflight.eligible ==>
      (ValidState(t, maxAttempts) <==>
         && t.lifecycle == Rejected && t.attemptCount == 0 && t.dispatchedAtMs == None && t.ownerRequestId == None
         && t.receipt == None && t.retry == NotEligible && t.cancel == NothingToCancel)
  {
  }

  /** One owner request per attempt, none repeated, the last of them current. */
  predicate RequestsSuit(t: Target, maxAttempts: int) {
    && t.attemptCount < maxAttempts + 1 && |t.ownerRequestIds| == t.attemptCount
    && (forall i, j :: 0 <= i < |t.ownerRequestIds| && 0 <= j < |t.ownerRequestIds| && t.ownerRequestIds[i] == t.ownerRequestIds[j] ==> i == j)
    && t.ownerRequestId == if t.attemptCount == 0 then None else Some(t.ownerRequestIds[t.attemptCount - 1])
  }

  /** Created, dispatched, due, expired, in that order; and nothing changes before it is dispatched. */
  predicate TimesSuit(t: Target, op: Operation) {
    if t.dispatchedAtMs == None then t.ownerDeadlineAtMs == None
    else
      && t.ownerDeadlineAtMs != None
      && op.createdAtMs <= t.dispatchedAtMs.value && t.dispatchedAtMs.value < t.ownerDeadlineAtMs.value
      && t.ownerDeadlineAtMs.value <= op.expiresAtMs && t.dispatchedAtMs.value <= t.lastTransitionMs
  }

  /** A target is the previewed one, in an accepted state, and any receipt is for its current request. */
  predicate Previewed(op: Operation, t: Target, preflight: Preflight) {
    && ValidPreflight(preflight, op.createdAtMs, op.expiresAtMs) && t.preflight == preflight && t.sound
    && t.deviceId == preflight.deviceId && t.identityRevision == preflight.identityRevision
    && ValidState(t, op.maxAttempts) && RequestsSuit(t, op.maxAttempts) && TimesSuit(t, op)
    && (t.receipt != None ==> t.receipt == Some(Receipt(t.receipt.value.ownerActionRequestId, true)))
    && (t.receipt != None ==> Some(t.receipt.value.ownerActionRequestId) == t.ownerRequestId)
  }

  predicate AggregateSuits(targets: seq<Target>, lifecycle: Lifecycle) {
    match lifecycle
    case Rejected => forall t :: t in targets ==> !t.preflight.eligible
    case Running => SomeOutstanding(targets)
    case CancellationRequested => SomeEligible(targets, CancellationRequested) && !SomeOutstanding(targets)
    case Proposed =>
      && SomeEligible(targets, Proposed) && !SomeOutstanding(targets)
      && !SomeEligible(targets, CancellationRequested)
    case Accepted =>
      && SomeEligible(targets, Accepted) && !SomeOutstanding(targets)
      && !SomeEligible(targets, CancellationRequested) && !SomeEligible(targets, Proposed)
    case Applied => AllEligible(targets, Applied)
    case Cancelled => AllEligible(targets, Cancelled)
    case Expired => AllEligible(targets, Expired)
    case Failed =>
      && (exists t :: t in targets && t.preflight.eligible) && !SomeOpen(targets)
      && !AllEligible(targets, Applied) && !AllEligible(targets, Cancelled) && !AllEligible(targets, Expired)
    case _ => false
  }

  predicate AnyEligible(targets: seq<Target>) { exists t :: t in targets && t.preflight.eligible }

  /** The first thing found decides. */
  function FirstFound(targets: seq<Target>): Lifecycle {
    if !AnyEligible(targets) then Rejected
    else if SomeOutstanding(targets) then Running
    else if SomeEligible(targets, CancellationRequested) then CancellationRequested
    else if SomeEligible(targets, Proposed) then Proposed
    else if SomeEligible(targets, Accepted) then Accepted
    else if AllEligible(targets, Applied) then Applied
    else if AllEligible(targets, Cancelled) then Cancelled
    else if AllEligible(targets, Expired) then Expired
    else Failed
  }

  lemma AggregateIff(targets: seq<Target>, lifecycle: Lifecycle)
    ensures AggregateSuits(targets, lifecycle) <==> lifecycle == DeriveLifecycle(Eligible(targets))
  {
    hide *;
    FoundIsDerived(targets);
    FoundSuits(targets, lifecycle);
  }

  lemma FoundIsDerived(targets: seq<Target>)
    ensures FirstFound(targets) == DeriveLifecycle(Eligible(targets))
  {
    hide *;
    var eligible := Eligible(targets);
    FoundAmong(targets, Dispatched);
    FoundAmong(targets, Running);
    FoundAmong(targets, CancellationRequested);
    FoundAmong(targets, Proposed);
    FoundAmong(targets, Accepted);
    FoundAmong(targets, Applied);
    FoundAmong(targets, Cancelled);
    FoundAmong(targets, Expired);
    SameFirst(targets, eligible);
  }

  lemma SameFirst(targets: seq<Target>, eligible: seq<Target>)
    requires AnyEligible(targets) <==> |eligible| != 0
    requires forall l :: l in {Dispatched, Running, CancellationRequested, Proposed, Accepted} ==>
      (SomeEligible(targets, l) <==> AnyAt(eligible, l))
    requires |eligible| != 0 ==> forall l :: l in {Applied, Cancelled, Expired} ==> (AllEligible(targets, l) <==> AllAt(eligible, l))
    ensures FirstFound(targets) == DeriveLifecycle(eligible)
  {
    hide SomeEligible, AllEligible, AnyEligible, AnyAt, AllAt;
  }

  lemma FoundSuits(targets: seq<Target>, lifecycle: Lifecycle)
    ensures AggregateSuits(targets, lifecycle) <==> lifecycle == FirstFound(targets)
  {
    Contradicts(targets);
    hide SomeEligible, AllEligible, SomeOutstanding;
    assert AnyEligible(targets) <==> !forall t :: t in targets ==> !t.preflight.eligible;
  }

  /** All of one kind leaves none of another. */
  lemma Contradicts(targets: seq<Target>)
    ensures forall a, b :: AllEligible(targets, a) && SomeEligible(targets, b) ==> a == b
    ensures forall a, b :: AllEligible(targets, a) && AllEligible(targets, b) ==> a == b
    ensures forall a :: AllEligible(targets, a) && a !in {Dispatched, Running} ==> !SomeOutstanding(targets)
    ensures forall l :: AllEligible(targets, l) || SomeEligible(targets, l) ==> AnyEligible(targets)
    ensures SomeOutstanding(targets) ==> AnyEligible(targets)
  {
  }

  /** The same quantifiers, over the eligible targets alone. */
  lemma FoundAmong(targets: seq<Target>, lifecycle: Lifecycle)
    ensures var eligible := Eligible(targets);
            && (AnyEligible(targets) <==> |eligible| != 0)
            && (SomeEligible(targets, lifecycle) <==> AnyAt(eligible, lifecycle))
            && (|eligible| != 0 ==> (AllEligible(targets, lifecycle) <==> AllAt(eligible, lifecycle)))
  {
    hide Where;
    var eligible := Eligible(targets);
    assert forall t :: t in eligible <==> t in targets && t.preflight.eligible;
    assert eligible != [] ==> eligible[0] in eligible;
  }

  predicate SizesSuit(op: Operation) {
    && op.sound && op.createdAtMs < op.expiresAtMs && 0 < op.maxParallelism && op.maxParallelism < 65
    && 0 < op.maxAttempts && op.maxAttempts < 9 && 0 < |op.targets| && |op.targets| < 10001
    && |op.targets| == |op.preview|
  }

  /** Exactly which operations are accepted. */
  ghost predicate AcceptedOperation(op: Operation) {
    && SizesSuit(op)
    && (forall i :: 0 <= i < |op.targets| ==> Previewed(op, op.targets[i], op.preview[i]))
    && (forall i, j :: 0 <= i < j < |op.targets| ==> OrdinalLess(op.preview[i].deviceId, op.preview[j].deviceId))
    && AggregateSuits(op.targets, op.lifecycle)
    && |set i | 0 <= i < |op.targets| && op.targets[i].lifecycle in {Dispatched, Running}| <= op.maxParallelism
  }

  lemma AcceptedIff(op: Operation)
    ensures Valid(op) <==> AcceptedOperation(op)
  {
    hide ValidPreflight, ValidState, OrdinalLess, DeriveLifecycle, AggregateSuits;
    AggregateIff(op.targets, op.lifecycle);
    KnownAggregate(op);
    OutstandingCount(op.targets);
    if SizesSuit(op) {
      PreviewAscends(op.preview);
      PositionsBind(op);
      hide BindsTarget, Previewed, ValidPreview, Outstanding;
      assert AggregateSuits(op.targets, op.lifecycle) ==> ValidHeader(op);
    } else {
      assert !ValidHeader(op);
    }
  }

  lemma KnownAggregate(op: Operation)
    ensures AggregateSuits(op.targets, op.lifecycle) ==> !op.lifecycle.OtherLifecycle?
  {
  }

  lemma OutstandingCount(targets: seq<Target>)
    ensures Count(targets, Outstanding) == |set i | 0 <= i < |targets| && targets[i].lifecycle in {Dispatched, Running}|
  {
    CountPlaces(targets, Outstanding);
    var busy := set i | 0 <= i < |targets| && targets[i].lifecycle in {Dispatched, Running};
    assert busy == Places(targets, Outstanding);
  }

  predicate Neighbours(targets: seq<Preflight>) {
    forall i :: 0 < i < |targets| ==> OrdinalLess(targets[i - 1].deviceId, targets[i].deviceId)
  }

  lemma PreviewAscends(targets: seq<Preflight>)
    ensures Neighbours(targets) <==>
            forall i, j :: 0 <= i < j < |targets| ==> OrdinalLess(targets[i].deviceId, targets[j].deviceId)
  {
    hide OrdinalLess;
    var ids := seq(|targets|, i requires 0 <= i < |targets| => targets[i].deviceId);
    assert forall i :: 0 <= i < |targets| ==> ids[i] == targets[i].deviceId;
    AscendingIff(ids);
    if Neighbours(targets) {
      assert Ascending(ids);
      forall i, j | 0 <= i < j < |targets| ensures OrdinalLess(targets[i].deviceId, targets[j].deviceId) {
        assert OrdinalLess(ids[i], ids[j]);
      }
    }
  }

  lemma TargetBinds(op: Operation, i: nat)
    requires SizesSuit(op) && i < |op.targets|
    ensures BindsTarget(op, i) <==>
            && Previewed(op, op.targets[i], op.preview[i])
            && (i > 0 ==> OrdinalLess(op.targets[i - 1].deviceId, op.targets[i].deviceId))
  {
    hide ValidPreflight, OrdinalLess;
    StateIff(op.targets[i], op.maxAttempts);
    RequestsIff(op.targets[i], op.maxAttempts);
    hide Distinct;
  }

  lemma RequestsIff(t: Target, maxAttempts: int)
    ensures ValidRequests(t, maxAttempts) <==> RequestsSuit(t, maxAttempts)
  {
    if Distinct(t.ownerRequestIds) {
      forall i, j | 0 <= i < |t.ownerRequestIds| && 0 <= j < |t.ownerRequestIds| && t.ownerRequestIds[i] == t.ownerRequestIds[j]
        ensures i == j
      {
        assert !(i < j) && !(j < i);
      }
    }
  }

  lemma PositionsBind(op: Operation)
    requires SizesSuit(op)
    ensures (forall i :: 0 <= i < |op.targets| ==> BindsTarget(op, i)) && (forall i :: 0 <= i < |op.preview| ==> ValidPreview(op, i)) <==>
            (forall i :: 0 <= i < |op.targets| ==> Previewed(op, op.targets[i], op.preview[i])) && Neighbours(op.preview)
  {
    hide OrdinalLess, ValidPreflight, ValidState;
    forall i | 0 <= i < |op.targets|
      ensures BindsTarget(op, i) <==>
              && Previewed(op, op.targets[i], op.preview[i])
              && (i > 0 ==> OrdinalLess(op.targets[i - 1].deviceId, op.targets[i].deviceId))
    {
      TargetBinds(op, i);
    }
    hide BindsTarget, RequestsSuit, TimesSuit;
    if (forall i :: 0 <= i < |op.targets| ==> BindsTarget(op, i)) && forall i :: 0 <= i < |op.preview| ==> ValidPreview(op, i) {
      forall i | 0 < i < |op.preview| ensures OrdinalLess(op.preview[i - 1].deviceId, op.preview[i].deviceId) {
        assert ValidPreview(op, i);
      }
      forall i | 0 <= i < |op.targets| ensures Previewed(op, op.targets[i], op.preview[i]) {
        assert BindsTarget(op, i);
      }
    }
    if (forall i :: 0 <= i < |op.targets| ==> Previewed(op, op.targets[i], op.preview[i])) && Neighbours(op.preview) {
      forall i | 0 <= i < |op.preview| ensures BindsTarget(op, i) && ValidPreview(op, i) {
        PreviewedBinds(op, i);
      }
    }
  }

  lemma PreviewedBinds(op: Operation, i: nat)
    requires SizesSuit(op) && i < |op.targets| && Neighbours(op.preview)
    requires forall k :: 0 <= k < |op.targets| ==> Previewed(op, op.targets[k], op.preview[k])
    ensures BindsTarget(op, i) && ValidPreview(op, i)
  {
    hide OrdinalLess, ValidPreflight, ValidState, RequestsSuit, TimesSuit, BindsTarget;
    TargetBinds(op, i);
    assert Previewed(op, op.targets[i], op.preview[i]);
    if i > 0 {
      assert Previewed(op, op.targets[i - 1], op.preview[i - 1]);
      assert OrdinalLess(op.preview[i - 1].deviceId, op.preview[i].deviceId);
    }
  }

  predicate Standing(t: Target) {
    && (!t.preflight.eligible ==> Ended(t.lifecycle))
    && (t.preflight.eligible ==> (Ended(t.lifecycle) <==> !Pending(t)))
  }

  predicate Pending(t: Target) { t.lifecycle in {Proposed, Accepted, Dispatched, Running, CancellationRequested} }

  lemma StandingOf(t: Target, maxAttempts: int)
    requires ValidState(t, maxAttempts)
    ensures Standing(t)
  {
  }

  lemma EndedMeans(eligible: seq<Target>)
    ensures Ended(DeriveLifecycle(eligible)) <==> forall t :: t in eligible ==> !Pending(t)
  {
  }

  /** The attempts, the dispatch time, the deadline and the current request come and go together,
      and cancelling is over once they are there. */
  predicate EvidenceFits(t: Target, maxAttempts: int) {
    && (t.attemptCount > 0 <==> t.lifecycle in {Dispatched, Running, Applied, Failed, Expired})
    && (t.attemptCount > 0 <==> t.dispatchedAtMs.Some?)
    && (t.attemptCount > 0 <==> t.ownerDeadlineAtMs.Some?)
    && (t.attemptCount > 0 <==> t.ownerRequestId.Some?)
    && (t.receipt.Some? <==> t.lifecycle == Applied)
    && (t.retry == NewOwnerRequestRequired <==> t.lifecycle in {Failed, Expired} && t.attemptCount < maxAttempts)
    && (t.lifecycle in {CancellationRequested, Cancelled} ==> t.attemptCount == 0)
  }

  /** An owner was asked exactly for the targets that left the console. */
  lemma EvidenceFollowsLifecycle(op: Operation)
    ensures Valid(op) ==> forall t :: t in op.targets ==> EvidenceFits(t, op.maxAttempts)
  {
    hide EvidenceFits, ValidState, ValidRequests, ValidTimes, BindsTarget;
    if Valid(op) {
      TargetsValid(op);
      forall t | t in op.targets ensures EvidenceFits(t, op.maxAttempts) {
        StateFits(op, t);
      }
    }
  }

  lemma StateFits(op: Operation, t: Target)
    requires ValidState(t, op.maxAttempts) && ValidRequests(t, op.maxAttempts) && ValidTimes(t, op)
    ensures EvidenceFits(t, op.maxAttempts)
  {
    hide Distinct;
  }
}
