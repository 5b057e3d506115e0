/** Every interleaving of catalogue refresh tasks with each other and with the other writers
    of the Hub. One step is one locked section, one finished read, one released permit or one
    foreign write; a run is any list of steps. */
module KioskProtocol {
  import opened Basics
  import opened KioskRefresh

  datatype Phase =
    | Reading(job: Job)
    | Returned(job: Job, read: Read)
    | Releasing(outcome: Result<Hub>)
    | Finished(outcome: Result<Hub>)

  datatype State = State(rt: Runtime, tasks: map<nat, Phase>)

  /** `HubWrite` is any other writer (check-in, rotation of a key, an operation): it may replace
      Hub and adapter as it likes, except that it keeps the stored catalogue associations and the
      consumed replay identities, which only an admission adds to. */
  datatype Step =
    | CaptureStep(id: nat, request: Request, now: int, randomAvailable: bool)
    | ReadStep(id: nat, read: Read)
    | AdmitStep(id: nat, clock: Option<int>, persist: Persist)
    | ReleaseStep(id: nat)
    | HubWrite(candidate: Hub, adapter: Adapter, persist: Persist)
    | ProviderConfigured(profiles: map<(string, nat), string>)

  /** The read goes through the provider lock and the ingest checks. */
  function Ingested(rt: Runtime, job: Job, read: Read): Read {
    if rt.provider.None? || rt.provider.value.poisoned then Refused("provider lock failed")
    else if read.Answered? && !Bound(job, read.admission, read.completedAt) then Refused("exchange mismatch")
    else read
  }

  function AfterRead(rt: Runtime, ingested: Read): Runtime {
    if ingested.Panicked? && rt.provider.Some?
    then rt.(provider := Some(rt.provider.value.(poisoned := true)))
    else rt
  }

  predicate KeepsEvidence(hub: Hub, candidate: Hub) {
    candidate.associations == hub.associations && candidate.replays == hub.replays
  }

  function Next(s: State, step: Step): State {
    match step
    case CaptureStep(id, request, now, randomAvailable) =>
      if id in s.tasks then s
      else
        var (rt, captured) := Capture(s.rt, request, now, randomAvailable);
        if captured.Failure? then State(rt, s.tasks)
        else State(rt, s.tasks[id := Reading(captured.value)])
    case ReadStep(id, read) =>
      if id !in s.tasks || !s.tasks[id].Reading? then s
      else
        var ingested := Ingested(s.rt, s.tasks[id].job, read);
        State(AfterRead(s.rt, ingested), s.tasks[id := Returned(s.tasks[id].job, ingested)])
    case AdmitStep(id, clock, persist) =>
      if id !in s.tasks || !s.tasks[id].Returned? then s
      else
        var (rt, outcome) := Admit(s.rt, s.tasks[id].job, s.tasks[id].read, clock, persist);
        State(rt, s.tasks[id := Releasing(outcome)])
    case ReleaseStep(id) =>
      if id !in s.tasks || !s.tasks[id].Releasing? then s
      else State(Release(s.rt), s.tasks[id := Finished(s.tasks[id].outcome)])
    case HubWrite(candidate, adapter, persist) =>
      if !KeepsEvidence(s.rt.hub, candidate) then s
      else
        var rt := Commit(s.rt, candidate, persist);
        State(if persist.Saved? then rt.(adapter := adapter) else rt, s.tasks)
    case ProviderConfigured(profiles) =>
      if s.rt.provider.None? then s
      else State(s.rt.(provider := Some(s.rt.provider.value.(profiles := profiles))), s.tasks)
  }

  function Run(s: State, steps: seq<Step>): State {
    if steps == [] then s else Next(Run(s, steps[..|steps| - 1]), steps[|steps| - 1])
  }

  // ---------------------------------------------------------------- the invariant

  predicate Marked(phase: Phase) { phase.Reading? || phase.Returned? }

  /** Tasks between marker insert and marker removal. */
  function InFlight(s: State): set<nat> { set id | id in s.tasks && Marked(s.tasks[id]) }

  /** Tasks holding a permit. */
  function Holding(s: State): set<nat> { set id | id in s.tasks && !s.tasks[id].Finished? }

  function DeviceOf(phase: Phase): string
    requires Marked(phase)
  {
    phase.job.request.deviceId
  }

  ghost predicate JobSound(job: Job) {
    && (job.association.None? ==> job.expectedOwner.None?)
    && (job.association.Some? ==>
          && job.association.value.identityRevision == job.request.identityRevision
          && job.association.value.profile == job.profile
          && job.expectedOwner == Some(job.association.value.ownerEpoch))
  }

  ghost predicate PhaseSound(rt: Runtime, phase: Phase) {
    Marked(phase) ==>
      && JobSound(phase.job)
      && DeviceOf(phase) in rt.inflight
      && AssociationOf(rt.hub, DeviceOf(phase)) == phase.job.association
      && (phase.Returned? && phase.read.Answered? ==> Bound(phase.job, phase.read.admission, phase.read.completedAt))
  }

  ghost predicate PermitsConserved(s: State, capacity: nat) {
    s.rt.freeSlots + |Holding(s)| == capacity
  }

  ghost predicate MarkersWitnessed(s: State) {
    forall d :: d in s.rt.inflight ==> exists id :: id in InFlight(s) && DeviceOf(s.tasks[id]) == d
  }

  ghost predicate PhasesSound(s: State) {
    forall id :: id in s.tasks ==> PhaseSound(s.rt, s.tasks[id])
  }

  ghost predicate DevicesExclusive(s: State) {
    forall a, b :: a in InFlight(s) && b in InFlight(s) && DeviceOf(s.tasks[a]) == DeviceOf(s.tasks[b]) ==> a == b
  }

  ghost predicate Inv(s: State, capacity: nat) {
    PermitsConserved(s, capacity) && MarkersWitnessed(s) && PhasesSound(s) && DevicesExclusive(s)
  }

  /** A refused capture changes nothing; a successful one takes one permit and one new marker. */
  lemma CaptureEffect(rt: Runtime, request: Request, now: int, randomAvailable: bool)
    ensures var (after, captured) := Capture(rt, request, now, randomAvailable);
            && (captured.Failure? ==> after == rt)
            && (captured.Success? ==>
                  && rt.freeSlots > 0 && request.deviceId !in rt.inflight
                  && after == rt.(inflight := rt.inflight + {request.deviceId}, freeSlots := rt.freeSlots - 1)
                  && captured.value.request == request && captured.value.startedAt == now
                  && captured.value.association == AssociationOf(rt.hub, request.deviceId)
                  && ContinuityOf(rt.hub, rt.adapter, request, now) ==
                     Success((captured.value.captured, captured.value.evidenceRevision))
                  && JobSound(captured.value))
  {
    hide ContinuityOf;
  }

  /** The admission section clears exactly its own marker and leaves every device record,
      and every other device's association, as it found them. */
  lemma AdmitEffect(rt: Runtime, job: Job, read: Read, clock: Option<int>, persist: Persist)
    requires read.Answered? ==> Bound(job, read.admission, read.completedAt)
    ensures var after := Admit(rt, job, read, clock, persist).0;
            && after.inflight == rt.inflight - {job.request.deviceId}
            && after.freeSlots == rt.freeSlots && after.provider == rt.provider && after.adapter == rt.adapter
            && after.hub.records == rt.hub.records
            && forall d :: d != job.request.deviceId ==> AssociationOf(after.hub, d) == AssociationOf(rt.hub, d)
  {
    hide ContinuityOf, AcceptProfiledCatalog, AssociationOf;
    if read.Answered? && clock.Some? {
      AcceptEffect(rt.hub, read.admission, job.profile, clock.value);
    }
  }

  lemma AcceptEffect(hub: Hub, admission: Admission, profile: string, at: int)
    ensures var accepted := AcceptProfiledCatalog(hub, admission, profile, at);
            accepted.Success? ==>
              && accepted.value.records == hub.records
              && forall d :: d != admission.deviceId ==> AssociationOf(accepted.value, d) == AssociationOf(hub, d)
  {
    if AcceptProfiledCatalog(hub, admission, profile, at).Success? {
      AcceptTouchesOneDevice(hub, admission, profile, at);
    }
  }

  /** How the two task sets move when one task changes phase. */
  lemma TaskSets(s: State, t: State, id: nat)
    requires id in t.tasks && t.tasks == s.tasks[id := t.tasks[id]]
    ensures InFlight(t) == if Marked(t.tasks[id]) then InFlight(s) + {id} else InFlight(s) - {id}
    ensures Holding(t) == if t.tasks[id].Finished? then Holding(s) - {id} else Holding(s) + {id}
    ensures id in InFlight(s) <==> id in s.tasks && Marked(s.tasks[id])
    ensures id in Holding(s) <==> id in s.tasks && !s.tasks[id].Finished?
  {
  }

  lemma InvCapture(s: State, capacity: nat, step: Step)
    requires Inv(s, capacity) && step.CaptureStep?
    ensures Inv(Next(s, step), capacity)
  {
    CaptureEffect(s.rt, step.request, step.now, step.randomAvailable);
    hide Capture, JobSound, Inv, AssociationOf;
    var t := Next(s, step);
    if t != s {
      TaskCaptured(s, t, capacity, step.id, t.tasks[step.id].job);
    }
  }

  /** A new task with a new marker and one permit fewer. */
  lemma TaskCaptured(s: State, t: State, capacity: nat, id: nat, job: Job)
    requires Inv(s, capacity) && id !in s.tasks && t.tasks == s.tasks[id := Reading(job)]
    requires job.request.deviceId !in s.rt.inflight && s.rt.freeSlots > 0
    requires t.rt == s.rt.(inflight := s.rt.inflight + {job.request.deviceId}, freeSlots := s.rt.freeSlots - 1)
    requires JobSound(job) && job.association == AssociationOf(s.rt.hub, job.request.deviceId)
    ensures Inv(t, capacity)
  {
    hide JobSound, Bound, AssociationOf, InFlight, Holding, PhaseSound, PhasesSound, MarkersWitnessed, DevicesExclusive;
    TaskSets(s, t, id);
    MarkedTasks(s);
    assert PermitsConserved(t, capacity);
    CapturedMarkers(s, t, id, job);
    CapturedPhases(s, t, id, job);
  }

  lemma CapturedMarkers(s: State, t: State, id: nat, job: Job)
    requires MarkersWitnessed(s) && DevicesExclusive(s)
    requires id !in s.tasks && t.tasks == s.tasks[id := Reading(job)] && InFlight(t) == InFlight(s) + {id}
    requires job.request.deviceId !in s.rt.inflight && t.rt.inflight == s.rt.inflight + {job.request.deviceId}
    requires forall i :: i in InFlight(s) ==> i in s.tasks && Marked(s.tasks[i]) && DeviceOf(s.tasks[i]) in s.rt.inflight
    ensures MarkersWitnessed(t) && DevicesExclusive(t)
  {
    hide InFlight;
    assert id in InFlight(t) && DeviceOf(t.tasks[id]) == job.request.deviceId;
    forall d | d in s.rt.inflight ensures exists i :: i in InFlight(t) && DeviceOf(t.tasks[i]) == d {
      var i :| i in InFlight(s) && DeviceOf(s.tasks[i]) == d;
      assert i in InFlight(t) && t.tasks[i] == s.tasks[i];
    }
  }

  lemma CapturedPhases(s: State, t: State, id: nat, job: Job)
    requires PhasesSound(s) && t.tasks == s.tasks[id := Reading(job)]
    requires t.rt.hub == s.rt.hub && t.rt.inflight == s.rt.inflight + {job.request.deviceId}
    requires JobSound(job) && job.association == AssociationOf(s.rt.hub, job.request.deviceId)
    ensures PhasesSound(t)
  {
    hide JobSound, AssociationOf, PhaseSound;
    forall i | i in t.tasks ensures PhaseSound(t.rt, t.tasks[i]) {
      if i != id {
        PhaseWidened(s.rt, t.rt, s.tasks[i]);
      } else {
        ReadingSound(t.rt, job);
      }
    }
  }

  lemma PhaseWidened(before: Runtime, after: Runtime, phase: Phase)
    requires PhaseSound(before, phase) && before.inflight <= after.inflight && after.hub == before.hub
    ensures PhaseSound(after, phase)
  {
  }

  lemma ReadingSound(rt: Runtime, job: Job)
    requires JobSound(job) && job.request.deviceId in rt.inflight
    requires job.association == AssociationOf(rt.hub, job.request.deviceId)
    ensures PhaseSound(rt, Reading(job))
  {
  }

  /** A marked task's device carries a marker. */
  lemma MarkedTasks(s: State)
    requires PhasesSound(s)
    ensures forall id :: id in InFlight(s) ==> id in s.tasks && Marked(s.tasks[id]) && DeviceOf(s.tasks[id]) in s.rt.inflight
  {
    assert forall id :: id in InFlight(s) ==> PhaseSound(s.rt, s.tasks[id]);
  }

  lemma InvRead(s: State, capacity: nat, step: Step)
    requires Inv(s, capacity) && step.ReadStep?
    ensures Inv(Next(s, step), capacity)
  {
    hide Inv, Bound;
    var t := Next(s, step);
    if t != s {
      TaskReturned(s, t, capacity, step.id, t.tasks[step.id].read);
    }
  }

  lemma TaskReturned(s: State, t: State, capacity: nat, id: nat, read: Read)
    requires Inv(s, capacity) && id in s.tasks && s.tasks[id].Reading?
    requires t.tasks == s.tasks[id := Returned(s.tasks[id].job, read)]
    requires t.rt == s.rt.(provider := t.rt.provider)
    requires read.Answered? ==> Bound(s.tasks[id].job, read.admission, read.completedAt)
    ensures Inv(t, capacity)
  {
    hide JobSound, AssociationOf, Bound, InFlight, Holding;
    TaskSets(s, t, id);
    MarkedTasks(s);
    assert InFlight(t) == InFlight(s) && Holding(t) == Holding(s);
    forall i | i in t.tasks ensures PhaseSound(t.rt, t.tasks[i]) {
      assert PhaseSound(s.rt, s.tasks[i]);
    }
  }

  lemma InvAdmit(s: State, capacity: nat, step: Step)
    requires Inv(s, capacity) && step.AdmitStep?
    ensures Inv(Next(s, step), capacity)
  {
    hide Admit, Inv;
    if step.id in s.tasks && s.tasks[step.id].Returned? {
      var t := Next(s, step);
      var job, read := s.tasks[step.id].job, s.tasks[step.id].read;
      assert read.Answered? ==> Bound(job, read.admission, read.completedAt) by { PhaseOf(s, capacity, step.id); }
      AdmitEffect(s.rt, job, read, step.clock, step.persist);
      TaskAdmitted(s, t, capacity, step.id);
    }
  }

  lemma PhaseOf(s: State, capacity: nat, id: nat)
    requires Inv(s, capacity) && id in s.tasks
    ensures PhaseSound(s.rt, s.tasks[id])
  {
  }

  /** The finished task's marker is gone, and no other task stands on it. */
  lemma TaskAdmitted(s: State, t: State, capacity: nat, id: nat)
    requires Inv(s, capacity) && id in s.tasks && s.tasks[id].Returned?
    requires id in t.tasks && t.tasks[id].Releasing? && t.tasks == s.tasks[id := t.tasks[id]]
    requires t.rt.inflight == s.rt.inflight - {DeviceOf(s.tasks[id])} && t.rt.freeSlots == s.rt.freeSlots
    requires forall d :: d != DeviceOf(s.tasks[id]) ==> AssociationOf(t.rt.hub, d) == AssociationOf(s.rt.hub, d)
    ensures Inv(t, capacity)
  {
    hide JobSound, AssociationOf, Bound, InFlight, Holding, PhaseSound;
    var device := DeviceOf(s.tasks[id]);
    TaskSets(s, t, id);
    assert Holding(t) == Holding(s);
    MarkedTasks(s);
    forall d | d in t.rt.inflight ensures exists i :: i in InFlight(t) && DeviceOf(t.tasks[i]) == d {
      var i :| i in InFlight(s) && DeviceOf(s.tasks[i]) == d;
      assert i != id && i in InFlight(t);
    }
    forall i | i in t.tasks ensures PhaseSound(t.rt, t.tasks[i]) {
      PhaseOf(s, capacity, i);
      if i != id {
        TaskSets(s, s, i);
        PhaseKept(s.rt, t.rt, s.tasks[i], DeviceOf(s.tasks[id]));
      } else {
        assert PhaseSound(t.rt, t.tasks[id]) by { UnmarkedSound(t.rt, t.tasks[id]); }
      }
    }
  }

  lemma UnmarkedSound(rt: Runtime, phase: Phase)
    requires !Marked(phase)
    ensures PhaseSound(rt, phase)
  {
  }

  lemma PhaseKept(before: Runtime, after: Runtime, phase: Phase, device: string)
    requires PhaseSound(before, phase) && (Marked(phase) ==> DeviceOf(phase) != device)
    requires after.inflight == before.inflight - {device}
    requires forall d :: d != device ==> AssociationOf(after.hub, d) == AssociationOf(before.hub, d)
    ensures PhaseSound(after, phase)
  {
  }

  lemma InvRelease(s: State, capacity: nat, step: Step)
    requires Inv(s, capacity) && step.ReleaseStep?
    ensures Inv(Next(s, step), capacity)
  {
    hide JobSound, AssociationOf, Bound, InFlight, Holding;
    var t := Next(s, step);
    if t != s {
      TaskSets(s, t, step.id);
      MarkedTasks(s);
      assert InFlight(t) == InFlight(s);
      assert PhasesSound(t) by {
        assert forall id :: id in s.tasks ==> PhaseSound(s.rt, s.tasks[id]);
      }
    }
  }

  lemma InvForeign(s: State, capacity: nat, step: Step)
    requires Inv(s, capacity) && (step.HubWrite? || step.ProviderConfigured?)
    ensures Inv(Next(s, step), capacity)
  {
    hide JobSound, Bound;
    var t := Next(s, step);
    assert Holding(t) == Holding(s) && InFlight(t) == InFlight(s);
  }

  lemma InvNext(s: State, capacity: nat, step: Step)
    requires Inv(s, capacity)
    ensures Inv(Next(s, step), capacity)
  {
    match step
    case CaptureStep(_, _, _, _) => InvCapture(s, capacity, step);
    case ReadStep(_, _) => InvRead(s, capacity, step);
    case AdmitStep(_, _, _) => InvAdmit(s, capacity, step);
    case ReleaseStep(_) => InvRelease(s, capacity, step);
    case HubWrite(_, _, _) => InvForeign(s, capacity, step);
    case ProviderConfigured(_) => InvForeign(s, capacity, step);
  }

  /** Whatever the interleaving: one task per device between its markers, permits conserved,
      and every captured association still current. */
  lemma {:induction false} InvHolds(s: State, capacity: nat, steps: seq<Step>)
    requires Inv(s, capacity)
    ensures Inv(Run(s, steps), capacity)
  {
    hide Next, Inv;
    if steps != [] {
      var n := |steps| - 1;
      InvHolds(s, capacity, steps[..n]);
      InvNext(Run(s, steps[..n]), capacity, steps[n]);
    }
  }

  /** No marker and no task: the state a Hub starts in. */
  lemma StartInv(rt: Runtime)
    requires rt.inflight == {}
    ensures Inv(State(rt, map[]), rt.freeSlots)
  {
    assert Holding(State(rt, map[])) == {};
  }

  // ---------------------------------------------------------------- what the invariant buys

  lemma {:induction false} WitnessCount(s: State, devices: set<string>, ids: set<nat>)
    requires forall d :: d in devices ==> exists id :: id in ids && id in InFlight(s) && DeviceOf(s.tasks[id]) == d
    ensures |devices| <= |ids|
  {
    if devices != {} {
      var d :| d in devices;
      var id :| id in ids && id in InFlight(s) && DeviceOf(s.tasks[id]) == d;
      forall e | e in devices - {d}
        ensures exists i :: i in ids - {id} && i in InFlight(s) && DeviceOf(s.tasks[i]) == e
      {
        var i :| i in ids && i in InFlight(s) && DeviceOf(s.tasks[i]) == e;
        assert i in ids - {id};
      }
      WitnessCount(s, devices - {d}, ids - {id});
    }
  }

  /** In every reachable state markers are covered by held permits, and permits by the slots. */
  lemma MarkersWithinPermits(s: State, capacity: nat, steps: seq<Step>)
    requires Inv(s, capacity)
    ensures var t := Run(s, steps); |t.rt.inflight| <= |Holding(t)| <= capacity
  {
    InvHolds(s, capacity, steps);
    var t := Run(s, steps);
    WitnessCount(t, t.rt.inflight, InFlight(t));
    assert InFlight(t) <= Holding(t);
    SubsetCardinality(InFlight(t), Holding(t));
  }

  /** In every reachable state at most one task per device lies between its markers. */
  lemma OneTaskPerDevice(s: State, capacity: nat, steps: seq<Step>, a: nat, b: nat)
    requires Inv(s, capacity)
    requires a in InFlight(Run(s, steps)) && b in InFlight(Run(s, steps))
    requires DeviceOf(Run(s, steps).tasks[a]) == DeviceOf(Run(s, steps).tasks[b])
    ensures a == b
  {
    InvHolds(s, capacity, steps);
  }

  /** Whatever ran in between, the association captured at the start is the stored one at
      admission, and an exchange that passed the ingest never contradicts it. */
  lemma CapturedAssociationIsCurrent(s: State, capacity: nat, steps: seq<Step>, id: nat)
    requires Inv(s, capacity)
    requires id in Run(s, steps).tasks && Run(s, steps).tasks[id].Returned?
    ensures var t := Run(s, steps);
            var job, read := t.tasks[id].job, t.tasks[id].read;
            var stored := AssociationOf(t.rt.hub, job.request.deviceId);
            && stored == job.association
            && (read.Answered? && stored.Some? ==>
                  stored.value == Association(read.admission.identityRevision, job.profile, read.admission.ownerEpoch))
  {
    InvHolds(s, capacity, steps);
    assert PhaseSound(Run(s, steps).rt, Run(s, steps).tasks[id]);
  }

  /** From any reachable state, whatever the read returned, however the clock and the disk
      behave: after read, admission and release the marker is gone and the permit is back. */
  lemma EveryOutcomeCleansUp(s: State, capacity: nat, id: nat, read: Read, clock: Option<int>, persist: Persist)
    requires Inv(s, capacity) && id in s.tasks && s.tasks[id].Reading?
    ensures var t := Next(Next(Next(s, ReadStep(id, read)), AdmitStep(id, clock, persist)), ReleaseStep(id));
            && t.tasks[id].Finished?
            && t.rt.freeSlots == s.rt.freeSlots + 1
            && t.rt.inflight == s.rt.inflight - {DeviceOf(s.tasks[id])}
            && id !in InFlight(t) && id !in Holding(t)
  {
    var returned := Next(s, ReadStep(id, read));
    InvRead(s, capacity, ReadStep(id, read));
    assert PhaseSound(returned.rt, returned.tasks[id]);
    AdmitEffect(returned.rt, returned.tasks[id].job, returned.tasks[id].read, clock, persist);
    hide Admit, Ingested, Inv;
  }

  /** How far a task has come. */
  function Rank(phase: Phase): nat {
    match phase
    case Reading(_) => 0
    case Returned(_, _) => 1
    case Releasing(_) => 2
    case Finished(_) => 3
  }

  /** No step takes a task back, and its own steps take it on. */
  lemma RankStep(s: State, step: Step, id: nat)
    requires id in s.tasks
    ensures id in Next(s, step).tasks && Rank(Next(s, step).tasks[id]) >= Rank(s.tasks[id])
    ensures step.ReadStep? && step.id == id ==> Rank(Next(s, step).tasks[id]) >= 1
    ensures step.AdmitStep? && step.id == id && Rank(s.tasks[id]) >= 1 ==> Rank(Next(s, step).tasks[id]) >= 2
    ensures step.ReleaseStep? && step.id == id && Rank(s.tasks[id]) >= 2 ==> Next(s, step).tasks[id].Finished?
  {
    hide Capture, Admit, Ingested;
  }

  lemma {:induction false} RankGrows(s: State, steps: seq<Step>, id: nat)
    requires id in s.tasks
    ensures id in Run(s, steps).tasks && Rank(Run(s, steps).tasks[id]) >= Rank(s.tasks[id])
  {
    hide Next, Rank;
    if steps != [] {
      RankGrows(s, steps[..|steps| - 1], id);
      RankStep(Run(s, steps[..|steps| - 1]), steps[|steps| - 1], id);
    }
  }

  /** A task whose read, admission and release happen ends in every interleaving, whatever the read
      returned and however clock and disk behave: it holds no permit, and a marker on its device is
      that of another task in flight. */
  lemma EveryTaskEnds(
    s: State, capacity: nat, id: nat, a: seq<Step>, read: Read, b: seq<Step>, clock: Option<int>, persist: Persist,
    c: seq<Step>, d: seq<Step>)
    requires Inv(s, capacity) && id in s.tasks && s.tasks[id].Reading?
    ensures var returned := Next(Run(s, a), ReadStep(id, read));
            var admitted := Next(Run(returned, b), AdmitStep(id, clock, persist));
            var t := Run(Next(Run(admitted, c), ReleaseStep(id)), d);
            && id in t.tasks && t.tasks[id].Finished? && Inv(t, capacity) && id !in Holding(t)
            && (DeviceOf(s.tasks[id]) in t.rt.inflight ==>
                  exists other :: other in InFlight(t) && other != id && DeviceOf(t.tasks[other]) == DeviceOf(s.tasks[id]))
  {
    hide Next, Run, Inv;
    var returned := Next(Run(s, a), ReadStep(id, read));
    RankGrows(s, a, id);
    RankStep(Run(s, a), ReadStep(id, read), id);
    InvHolds(s, capacity, a);
    InvNext(Run(s, a), capacity, ReadStep(id, read));
    RankGrows(returned, b, id);
    RankStep(Run(returned, b), AdmitStep(id, clock, persist), id);
    InvHolds(returned, capacity, b);
    InvNext(Run(returned, b), capacity, AdmitStep(id, clock, persist));
    var admitted := Next(Run(returned, b), AdmitStep(id, clock, persist));
    RankGrows(admitted, c, id);
    RankStep(Run(admitted, c), ReleaseStep(id), id);
    InvHolds(admitted, capacity, c);
    InvNext(Run(admitted, c), capacity, ReleaseStep(id));
    var released := Next(Run(admitted, c), ReleaseStep(id));
    RankGrows(released, d, id);
    InvHolds(released, capacity, d);
    EndedUnmarked(Run(released, d), capacity, id);
  }

  lemma EndedUnmarked(t: State, capacity: nat, id: nat)
    requires Inv(t, capacity) && id in t.tasks && t.tasks[id].Finished?
    ensures id !in Holding(t)
    ensures forall d :: d in t.rt.inflight ==> exists other :: other in InFlight(t) && other != id && DeviceOf(t.tasks[other]) == d
  {
    hide PhasesSound, DevicesExclusive, PermitsConserved;
    assert id !in InFlight(t);
  }

  // ---------------------------------------------------------------- what a commit means

  /** A reported success: the target facts held at admission exactly as captured, the times are
      ordered inside the window, memory and disk both hold the one candidate, and that candidate
      is the Hub of the admission section with this device's catalogue stored as it was read, under
      the captured profile and source epoch, its replay identity consumed, and nothing else. */
  lemma CommitMeans(rt: Runtime, job: Job, read: Read, clock: Option<int>, persist: Persist)
    requires read.Answered? ==> Bound(job, read.admission, read.completedAt)
    requires Admit(rt, job, read, clock, persist).1.Success?
    ensures var (after, outcome) := Admit(rt, job, read, clock, persist);
            var device := job.request.deviceId;
            && read.Answered? && clock.Some? && persist.Saved?
            && ContinuityOf(rt.hub, rt.adapter, job.request, clock.value) ==
               Success((job.captured, job.evidenceRevision))
            && job.startedAt <= read.completedAt <= clock.value <= job.startedAt + REFRESH_WINDOW_MS
            && rt.provider.Some? && !rt.provider.value.poisoned
            && (device, job.request.identityRevision) in rt.provider.value.profiles
            && rt.provider.value.profiles[(device, job.request.identityRevision)] == job.profile
            && after.hub == after.store == outcome.value
            && after.hub.records == rt.hub.records
            && SameElsewhere(rt.hub.catalogs, after.hub.catalogs, device)
            && SameElsewhere(rt.hub.associations, after.hub.associations, device)
            && after.hub.catalogs[device] == Catalog(read.admission, clock.value, job.captured.sourceEpoch)
            && after.hub.associations[device] ==
               Association(job.request.identityRevision, job.profile, read.admission.ownerEpoch)
            && read.admission.replayIdentity !in rt.hub.replays
            && after.hub.replays == rt.hub.replays + {read.admission.replayIdentity}
  {
    AcceptTouchesOneDevice(rt.hub, read.admission, job.profile, clock.value);
    ContinuityMeans(rt.hub, rt.adapter, job.request, clock.value);
    hide ContinuityOf, AcceptProfiledCatalog;
  }

  /** The guards of the admission section up to the durable write. */
  ghost predicate ReachesWrite(rt: Runtime, job: Job, read: Read, clock: Option<int>) {
    var target := (job.request.deviceId, job.request.identityRevision);
    && read.Answered? && clock.Some? && job.startedAt <= read.completedAt <= clock.value <= job.ExpiresAt()
    && ContinuityOf(rt.hub, rt.adapter, job.request, clock.value) == Success((job.captured, job.evidenceRevision))
    && rt.provider.Some? && !rt.provider.value.poisoned
    && target in rt.provider.value.profiles && rt.provider.value.profiles[target] == job.profile
    && AcceptProfiledCatalog(rt.hub, read.admission, job.profile, clock.value).Success?
  }

  /** Starting with memory and both slots equal, a refresh leaves memory and disk equal exactly when
      a guard stopped it or the write did not fail after publishing its slot. */
  lemma BothOrNeitherIff(rt: Runtime, job: Job, read: Read, clock: Option<int>, persist: Persist)
    requires rt.hub == rt.store == rt.recorded
    ensures var after := Admit(rt, job, read, clock, persist).0;
            && (after.hub == after.store <==> !(ReachesWrite(rt, job, read, clock) && persist.PublishedUnsynced?))
            && after.hub == after.recorded
            && (after.hub != after.store ==> after.hub == rt.hub)
            && (!ReachesWrite(rt, job, read, clock) ==>
                  after == rt.(inflight := rt.inflight - {job.request.deviceId}))
  {
    hide ContinuityOf, AcceptProfiledCatalog;
    if read.Answered? && clock.Some? {
      AcceptTouchesOneDevice(rt.hub, read.admission, job.profile, clock.value);
    }
  }

  /** What a write that fails leaves behind for a restart: before the slot is touched, what was there;
      between removal and publication, what memory holds; after publication, the candidate. Memory is
      never touched, so only the last one lets the two part. */
  lemma FailedWrites(rt: Runtime, candidate: Hub, persist: Persist)
    requires rt.hub == rt.recorded && !persist.Saved?
    ensures var after := Commit(rt, candidate, persist);
            && after.hub == rt.hub && after.recorded == rt.recorded
            && (persist.NotWritten? ==> after.store == rt.store)
            && (persist.SlotRemoved? ==> after.store == rt.hub)
            && (persist.PublishedUnsynced? ==> after.store == candidate)
            && after == rt.(store := after.store)
  {
  }

  predicate PersistOf(step: Step, persist: Persist) {
    (step.AdmitStep? || step.HubWrite?) && step.persist == persist
  }

  /** Memory is what the last successful write recorded, whatever the disk shows. */
  lemma {:induction false} MemoryIsRecorded(s: State, steps: seq<Step>)
    requires s.rt.hub == s.rt.recorded
    ensures Run(s, steps).rt.hub == Run(s, steps).rt.recorded
  {
    if steps != [] {
      var n := |steps| - 1;
      MemoryIsRecorded(s, steps[..n]);
      StepRecords(Run(s, steps[..n]), steps[n]);
      hide Next;
    }
  }

  lemma StepRecords(s: State, step: Step)
    requires s.rt.hub == s.rt.recorded
    ensures Next(s, step).rt.hub == Next(s, step).rt.recorded
    ensures !PersistOf(step, PublishedUnsynced) && s.rt.store == s.rt.hub ==> Next(s, step).rt.store == Next(s, step).rt.hub
  {
    if step.CaptureStep? {
      CaptureEffect(s.rt, step.request, step.now, step.randomAvailable);
      hide Capture;
    } else {
      hide Capture, ContinuityOf, AcceptProfiledCatalog, Ingested;
    }
  }

  /** Over whole runs: unless some write fails after publishing, disk and memory never part. */
  lemma {:induction false} CoherentRun(s: State, steps: seq<Step>)
    requires s.rt.hub == s.rt.store == s.rt.recorded
    requires forall i :: 0 <= i < |steps| ==> !PersistOf(steps[i], PublishedUnsynced)
    ensures Run(s, steps).rt.hub == Run(s, steps).rt.store
  {
    if steps != [] {
      var n := |steps| - 1;
      CoherentRun(s, steps[..n]);
      MemoryIsRecorded(s, steps[..n]);
      StepRecords(Run(s, steps[..n]), steps[n]);
      hide Next;
    }
  }

  /** One capture, one read and one admission whose write fails after publishing. */
  function UnsyncedRefresh(admission: Admission): seq<Step> {
    [ CaptureStep(0, Request("quest", 1, true), 10, true),
      ReadStep(0, Answered(admission, 15)),
      AdmitStep(0, Some(20), PublishedUnsynced) ]
  }

  /** From a Hub that has just started, that run leaves disk ahead of memory. */
  lemma PublishedWriteDiverges() returns (rt: Runtime, admission: Admission)
    ensures rt.hub == rt.store == rt.recorded && rt.inflight == {}
    ensures var t := Run(State(rt, map[]), UnsyncedRefresh(admission));
            t.rt.hub == rt.hub && t.rt.store != rt.hub
  {
    var record := DeviceRecord(1, "epoch", 0, Some(Capability("rusty-kiosk", true, 0, 100, 1)));
    var hub := Hub(map["quest" := record], map[], map[], {}, 1, 100, 100);
    var peer := Peer("quest", 0, 100, FINGERPRINT_PREFIX + "ab");
    var credential := Credential("quest", true, "sha256:" + "ab", "key", 1, 0, 100);
    rt := Runtime(hub, hub, hub, Adapter([peer], [credential]), Some(Provider(map[("quest", 1) := "profile-1"], false)), {}, 1);
    var job := Job(Request("quest", 1, true), 10, Continuity("epoch", "key", 1, "ab"), 1, "profile-1", None, None);
    admission := Admission("quest", 1, "owner", 1, "replay", 10, job.ExpiresAt(), 15, 100, true);
    forall now | 10 <= now <= 20
      ensures ContinuityOf(hub, rt.adapter, job.request, now) == Success((job.captured, 1))
    {
      assert peer.keyFingerprint[|FINGERPRINT_PREFIX|..] == "ab";
      assert CurrentCredentials([credential][1..], "quest", "ab", now) == [];
      assert CurrentCredentials([credential], "quest", "ab", now) == [credential];
    }
    assert AcceptProfiledCatalog(hub, admission, "profile-1", 20).Success? by { assert ValidProfile("profile-1"); }
    hide ContinuityOf, AcceptProfiledCatalog;
    UnsyncedRun(rt, job, admission);
  }

  lemma UnsyncedRun(rt: Runtime, job: Job, admission: Admission)
    requires rt.hub == rt.store == rt.recorded && rt.inflight == {} && rt.freeSlots == 1
    requires job.request == Request("quest", 1, true) && job.startedAt == 10 && job.association.None? && job.expectedOwner.None?
    requires rt.provider.Some? && !rt.provider.value.poisoned
    requires ("quest", 1) in rt.provider.value.profiles && rt.provider.value.profiles[("quest", 1)] == job.profile
    requires AssociationOf(rt.hub, "quest").None? && Bound(job, admission, 15)
    requires ContinuityOf(rt.hub, rt.adapter, job.request, 10) == Success((job.captured, job.evidenceRevision))
    requires ContinuityOf(rt.hub, rt.adapter, job.request, 20) == Success((job.captured, job.evidenceRevision))
    requires AcceptProfiledCatalog(rt.hub, admission, job.profile, 20).Success?
    ensures var t := Run(State(rt, map[]), UnsyncedRefresh(admission));
            t.rt.hub == rt.hub && t.rt.store != rt.hub
  {
    hide ContinuityOf, AcceptProfiledCatalog, AssociationOf;
    var steps, start := UnsyncedRefresh(admission), State(rt, map[]);
    var held := rt.(inflight := {"quest"}, freeSlots := 0);
    assert rt.inflight + {"quest"} == {"quest"} && 10 + REFRESH_WINDOW_MS <= I64_MAX;
    assert steps[..1][..0] == [] && steps[..2][..1] == steps[..1];
    assert Capture(rt, job.request, 10, true) == (held, Success(job));
    assert Run(start, steps[..1]) == State(held, map[0 := Reading(job)]);
    assert Run(start, steps[..2]) == State(held, map[0 := Returned(job, Answered(admission, 15))]);
    BothOrNeitherIff(held, job, Answered(admission, 15), Some(20), PublishedUnsynced);
  }

  // ---------------------------------------------------------------- other writers' records

  /** The records after a run, if refreshes did not exist: those of the last writer that committed. */
  function RecordsAfter(s: State, steps: seq<Step>): map<string, DeviceRecord> {
    if steps == [] then s.rt.hub.records
    else
      var before, step := Run(s, steps[..|steps| - 1]), steps[|steps| - 1];
      if step.HubWrite? && step.persist.Saved? && KeepsEvidence(before.rt.hub, step.candidate)
      then step.candidate.records
      else RecordsAfter(s, steps[..|steps| - 1])
  }

  /** No refresh, and no interleaving of refreshes with check-ins, loses or alters a device record:
      what the last committed writer stored is what stays stored. */
  lemma {:induction false} RefreshesKeepRecords(s: State, capacity: nat, steps: seq<Step>)
    requires Inv(s, capacity)
    ensures Run(s, steps).rt.hub.records == RecordsAfter(s, steps)
  {
    if steps != [] {
      var n := |steps| - 1;
      RefreshesKeepRecords(s, capacity, steps[..n]);
      InvHolds(s, capacity, steps[..n]);
      if !steps[n].HubWrite? {
        StepKeepsRecords(Run(s, steps[..n]), capacity, steps[n]);
        hide Next;
      }
      hide Inv;
    }
  }

  lemma StepKeepsRecords(s: State, capacity: nat, step: Step)
    requires Inv(s, capacity) && !step.HubWrite?
    ensures Next(s, step).rt.hub.records == s.rt.hub.records
  {
    if step.CaptureStep? {
      CaptureEffect(s.rt, step.request, step.now, step.randomAvailable);
    } else if step.AdmitStep? && step.id in s.tasks && s.tasks[step.id].Returned? {
      PhaseOf(s, capacity, step.id);
      AdmitEffect(s.rt, s.tasks[step.id].job, s.tasks[step.id].read, step.clock, step.persist);
    }
    hide Capture, Admit, Inv;
  }

  /** The job was captured just now, on these target facts and association. */
  ghost predicate CapturedNow(s: State, step: Step, id: nat, job: Job) {
    && step.CaptureStep? && step.id == id && step.request == job.request && step.now == job.startedAt
    && ContinuityOf(s.rt.hub, s.rt.adapter, job.request, job.startedAt) == Success((job.captured, job.evidenceRevision))
    && AssociationOf(s.rt.hub, job.request.deviceId) == job.association
  }

  /** A task is in flight after a step because it was before, with the same job, or because the step
      captured it. */
  lemma MarkedByStep(s: State, step: Step, id: nat)
    ensures var t := Next(s, step);
            id in t.tasks && Marked(t.tasks[id]) ==>
              || (id in s.tasks && Marked(s.tasks[id]) && s.tasks[id].job == t.tasks[id].job)
              || CapturedNow(s, step, id, t.tasks[id].job)
  {
    if step.CaptureStep? {
      CaptureEffect(s.rt, step.request, step.now, step.randomAvailable);
    }
    hide Capture, Admit, ContinuityOf, AssociationOf, JobSound, Ingested;
  }

  /** Every task in flight was captured by an earlier step of its own, on facts that held then. */
  lemma {:induction false} CaptureWitness(rt: Runtime, steps: seq<Step>, id: nat) returns (k: nat)
    requires id in Run(State(rt, map[]), steps).tasks && Marked(Run(State(rt, map[]), steps).tasks[id])
    ensures k < |steps| && CapturedBy(rt, steps, k, id, Run(State(rt, map[]), steps).tasks[id].job)
  {
    hide Next, CapturedNow;
    var n := |steps| - 1;
    var before := Run(State(rt, map[]), steps[..n]);
    MarkedByStep(before, steps[n], id);
    if id in before.tasks && Marked(before.tasks[id]) && before.tasks[id].job == Run(State(rt, map[]), steps).tasks[id].job {
      k := CaptureWitness(rt, steps[..n], id);
      assert steps[..n][..k] == steps[..k];
    } else {
      k := n;
    }
  }

  /** Step `k` of the run captured this job, on the target facts and association of that moment. */
  ghost predicate CapturedBy(rt: Runtime, steps: seq<Step>, k: nat, id: nat, job: Job)
    requires k < |steps|
  {
    CapturedNow(Run(State(rt, map[]), steps[..k]), steps[k], id, job)
  }

  /** A commit at the end of any run from a Hub that has just started: an earlier step of the run
      captured its job, and what that step and the admission section saw of the target is the same;
      the times are ordered inside the window, and the candidate is the Hub of the admission section
      with only this device's catalogue and association changed. */
  lemma CommitOverRun(rt: Runtime, steps: seq<Step>, id: nat, clock: Option<int>, persist: Persist) returns (k: nat)
    requires rt.inflight == {}
    requires id in Run(State(rt, map[]), steps).tasks && Run(State(rt, map[]), steps).tasks[id].Returned?
    requires var t := Run(State(rt, map[]), steps);
             Admit(t.rt, t.tasks[id].job, t.tasks[id].read, clock, persist).1.Success?
    ensures k < |steps| && CapturedBy(rt, steps, k, id, Run(State(rt, map[]), steps).tasks[id].job)
    ensures var t := Run(State(rt, map[]), steps);
            var job, read := t.tasks[id].job, t.tasks[id].read;
            var start, after := Run(State(rt, map[]), steps[..k]).rt, Next(t, AdmitStep(id, clock, persist)).rt;
            && read.Answered? && clock.Some? && persist.Saved?
            && job.startedAt <= read.completedAt <= clock.value <= job.startedAt + REFRESH_WINDOW_MS
            && ContinuityOf(t.rt.hub, t.rt.adapter, job.request, clock.value) ==
               ContinuityOf(start.hub, start.adapter, job.request, job.startedAt)
            && AssociationOf(t.rt.hub, job.request.deviceId) == AssociationOf(start.hub, job.request.deviceId)
            && TouchesOneDevice(t.rt.hub, after.hub, read.admission, job.profile, clock.value)
            && after.hub == after.store == after.recorded
  {
    k := CaptureWitness(rt, steps, id);
    StartInv(rt);
    var t := Run(State(rt, map[]), steps);
    CapturedAssociationIsCurrent(State(rt, map[]), rt.freeSlots, steps, id);
    AcceptTouchesOneDevice(t.rt.hub, t.tasks[id].read.admission, t.tasks[id].job.profile, clock.value);
    InvHolds(State(rt, map[]), rt.freeSlots, steps);
    PhaseOf(t, rt.freeSlots, id);
    hide ContinuityOf, AcceptProfiledCatalog, Run, Inv, TouchesOneDevice, AssociationOf;
  }

  // ---------------------------------------------------------------- replay identities

  /** The step is an admission that commits. */
  predicate CommitsAt(s: State, step: Step) {
    && step.AdmitStep? && step.id in s.tasks && s.tasks[step.id].Returned?
    && Admit(s.rt, s.tasks[step.id].job, s.tasks[step.id].read, step.clock, step.persist).1.Success?
  }

  /** The replay identities of the commits of a run, in order. */
  function Consumed(s: State, steps: seq<Step>): seq<string> {
    if steps == [] then []
    else
      var before, step := Run(s, steps[..|steps| - 1]), steps[|steps| - 1];
      Consumed(s, steps[..|steps| - 1]) +
      if CommitsAt(before, step) && before.tasks[step.id].read.Answered?
      then [before.tasks[step.id].read.admission.replayIdentity] else []
  }

  lemma StepConsumes(s: State, step: Step)
    ensures CommitsAt(s, step) ==>
      && s.tasks[step.id].read.Answered?
      && s.tasks[step.id].read.admission.replayIdentity !in s.rt.hub.replays
      && Next(s, step).rt.hub.replays == s.rt.hub.replays + {s.tasks[step.id].read.admission.replayIdentity}
    ensures !CommitsAt(s, step) ==> Next(s, step).rt.hub.replays == s.rt.hub.replays
  {
    hide ContinuityOf, AcceptProfiledCatalog, Ingested;
    if step.CaptureStep? {
      CaptureEffect(s.rt, step.request, step.now, step.randomAvailable);
      hide Capture;
    } else if step.AdmitStep? && step.id in s.tasks && s.tasks[step.id].Returned? {
      var task := s.tasks[step.id];
      if task.read.Answered? && step.clock.Some? {
        AcceptTouchesOneDevice(s.rt.hub, task.read.admission, task.job.profile, step.clock.value);
      }
    }
  }

  /** Over every run, whatever the provider answers: no replay identity commits twice, none that was
      consumed before the run commits at all, and exactly those that commit are consumed. */
  lemma {:induction false} ReplaysCommitOnce(s: State, steps: seq<Step>)
    ensures Distinct(Consumed(s, steps))
    ensures forall r :: r in Consumed(s, steps) ==> r !in s.rt.hub.replays
    ensures Run(s, steps).rt.hub.replays == s.rt.hub.replays + set r | r in Consumed(s, steps)
  {
    hide Next, CommitsAt;
    if steps != [] {
      var n := |steps| - 1;
      ReplaysCommitOnce(s, steps[..n]);
      StepConsumes(Run(s, steps[..n]), steps[n]);
    }
  }

  /** In every run from a Hub that has just started: markers within permits within slots, one task
      per device, and no marker left by a task that has ended. */
  lemma ReachableFromStart(rt: Runtime, steps: seq<Step>)
    requires rt.inflight == {}
    ensures var t := Run(State(rt, map[]), steps);
            && Inv(t, rt.freeSlots) && |t.rt.inflight| <= |Holding(t)| <= rt.freeSlots
            && t.rt.freeSlots + |Holding(t)| == rt.freeSlots
            && (forall d :: d in t.rt.inflight ==> exists id :: id in InFlight(t) && DeviceOf(t.tasks[id]) == d)
  {
    StartInv(rt);
    InvHolds(State(rt, map[]), rt.freeSlots, steps);
    MarkersWithinPermits(State(rt, map[]), rt.freeSlots, steps);
  }

  predicate Succeeded(s: State, id: nat) {
    id in s.tasks && (s.tasks[id].Releasing? || s.tasks[id].Finished?) && s.tasks[id].outcome.Success?
  }

  /** A panic inside the provider ends catalogue refreshes for good: the lock stays poisoned and
      no task that had not already succeeded ever does. */
  lemma {:induction false} PoisonIsFinal(s: State, steps: seq<Step>)
    requires s.rt.provider.Some? && s.rt.provider.value.poisoned
    ensures var t := Run(s, steps);
            && t.rt.provider.Some? && t.rt.provider.value.poisoned
            && forall id :: Succeeded(t, id) ==> Succeeded(s, id)
  {
    if steps != [] {
      PoisonIsFinal(s, steps[..|steps| - 1]);
      PoisonStep(Run(s, steps[..|steps| - 1]), steps[|steps| - 1]);
    }
  }

  /** What the read that comes back through the provider lock is: the answer only if the lock holds
      and the exchange is the one asked for; a panic poisons the lock. */
  lemma ReadEffect(s: State, id: nat, read: Read)
    requires id in s.tasks && s.tasks[id].Reading? && s.rt.provider.Some?
    ensures var t := Next(s, ReadStep(id, read));
            && t.tasks[id].Returned? && t.tasks[id].job == s.tasks[id].job
            && t.rt == s.rt.(provider := t.rt.provider) && t.rt.provider.Some?
            && t.rt.provider.value.profiles == s.rt.provider.value.profiles
            && (t.rt.provider.value.poisoned <==> s.rt.provider.value.poisoned || read.Panicked?)
            && (t.tasks[id].read.Answered? <==>
                  !s.rt.provider.value.poisoned && read.Answered? && IsExchange(s.tasks[id].job, read))
            && (t.tasks[id].read.Answered? ==> t.tasks[id].read == read)
  {
  }

  /** The answer to this very job: its target and evidence, the owner it expects if any, issued when
      the job began, expiring with it, and completed in between. */
  predicate IsExchange(job: Job, read: Read)
    requires read.Answered?
  {
    && read.admission.deviceId == job.request.deviceId
    && read.admission.identityRevision == job.request.identityRevision
    && read.admission.evidenceRevision == job.evidenceRevision
    && (job.expectedOwner.None? || job.expectedOwner == Some(read.admission.ownerEpoch))
    && read.admission.issuedAt == job.startedAt && read.admission.expiresAt == job.startedAt + 30_000
    && job.startedAt <= read.completedAt && read.completedAt <= job.startedAt + 30_000
  }

  /** A provider that panics during one read ends every refresh that has not succeeded by then. */
  lemma PanicEndsRefreshes(s: State, id: nat, steps: seq<Step>)
    requires id in s.tasks && s.tasks[id].Reading? && s.rt.provider.Some?
    ensures var t := Run(Next(s, ReadStep(id, Panicked)), steps);
            forall other :: Succeeded(t, other) ==> Succeeded(s, other)
  {
    ReadEffect(s, id, Panicked);
    PoisonIsFinal(Next(s, ReadStep(id, Panicked)), steps);
    hide Run;
  }

  lemma PoisonStep(s: State, step: Step)
    requires s.rt.provider.Some? && s.rt.provider.value.poisoned
    ensures var t := Next(s, step);
            && t.rt.provider.Some? && t.rt.provider.value.poisoned
            && forall id :: Succeeded(t, id) ==> Succeeded(s, id)
  {
    hide ContinuityOf, AcceptProfiledCatalog, Bound;
  }
}
