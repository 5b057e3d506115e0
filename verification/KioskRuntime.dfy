/** The Hub's runtime state as it is changed under its lock, field by field. Each locked
    section is proved to be the corresponding section of KioskRefresh, so every statement
    about interleavings in KioskProtocol is a statement about these sections. */
module KioskRuntime {
  import opened Basics
  import opened KioskRefresh

  class RuntimeState {
    var hub: Hub
    var store: Hub
    var recorded: Hub
    var adapter: Adapter
    var provider: Option<Provider>
    var inflight: set<string>
    var freeSlots: nat

    constructor (hub: Hub, adapter: Adapter, provider: Option<Provider>, slots: nat)
      ensures View() == Runtime(hub, hub, hub, adapter, provider, {}, slots)
    {
      this.hub, this.store, this.recorded, this.adapter, this.provider := hub, hub, hub, adapter, provider;
      inflight, freeSlots := {}, slots;
    }

    ghost function View(): Runtime
      reads this
    {
      Runtime(hub, store, recorded, adapter, provider, inflight, freeSlots)
    }

    /** Credentials are counted by drawing from the filtered iterator at most twice. */
    method UniqueCredential(device: string, fingerprint: string, now: int) returns (found: Result<Credential>)
      ensures var current := CurrentCredentials(adapter.credentials, device, fingerprint, now);
              found == if |current| == 0 then Failure("current signed peer credential absent or expired")
                       else if |current| > 1 then Failure("current signed peer credential ambiguous")
                       else Success(current[0])
    {
      ghost var all := CurrentCredentials(adapter.credentials, device, fingerprint, now);
      var first: Option<Credential> := None;
      var index := 0;
      assert adapter.credentials[0..] == adapter.credentials;
      while index < |adapter.credentials|
        invariant index <= |adapter.credentials|
        invariant all == (if first.Some? then [first.value] else []) +
          CurrentCredentials(adapter.credentials[index..], device, fingerprint, now)
      {
        var c := adapter.credentials[index];
        assert adapter.credentials[index..][1..] == adapter.credentials[index + 1..];
        if Current(c, device, fingerprint, now) {
          if first.Some? {
            assert all[0] == first.value && all[1] == c;
            return Failure("current signed peer credential ambiguous");
          }
          first := Some(c);
        }
        index := index + 1;
      }
      assert adapter.credentials[index..] == [];
      if first.None? {
        return Failure("current signed peer credential absent or expired");
      }
      return Success(first.value);
    }

    method CaptureSection(request: Request, now: int, randomAvailable: bool) returns (captured: Result<Job>)
      modifies this
      ensures (View(), captured) == Capture(old(View()), request, now, randomAvailable)
    {
      hide ContinuityOf;
      if !request.valid {
        return Failure("invalid closed catalogue refresh request");
      }
      if provider.None? {
        return Failure("kiosk_catalog_provider_absent");
      }
      if freeSlots == 0 {
        return Failure("kiosk_catalog_provider_busy");
      }
      freeSlots := freeSlots - 1;
      captured := CaptureWithPermit(request, now, randomAvailable);
      if captured.Failure? {
        freeSlots := freeSlots + 1;
      }
    }

    /** The rest of the capture section, run while the permit is held. */
    method CaptureWithPermit(request: Request, now: int, randomAvailable: bool) returns (captured: Result<Job>)
      requires request.valid && provider.Some?
      modifies this`inflight
      ensures Capture(old(View()).(freeSlots := freeSlots + 1), request, now, randomAvailable) ==
              (if captured.Success? then View() else old(View()).(freeSlots := freeSlots + 1), captured)
      ensures captured.Failure? ==> inflight == old(inflight)
    {
      hide ContinuityOf;
      var facts := ContinuityOf(hub, adapter, request, now);
      if facts.Failure? {
        return Failure(facts.error);
      }
      if provider.value.poisoned {
        return Failure("provider lock failed");
      }
      var target := (request.deviceId, request.identityRevision);
      if target !in provider.value.profiles {
        return Failure("kiosk profile unavailable");
      }
      var profile := provider.value.profiles[target];
      var association := AssociationOf(hub, request.deviceId);
      if association.Some? &&
         (association.value.identityRevision != request.identityRevision || association.value.profile != profile) {
        return Failure("kiosk_catalog_setup_required");
      }
      if !randomAvailable {
        return Failure("request identity unavailable");
      }
      if now + REFRESH_WINDOW_MS > I64_MAX {
        return Failure("expiry overflow");
      }
      if request.deviceId in inflight {
        return Failure("catalogue refresh already running");
      }
      inflight := inflight + {request.deviceId};
      return Success(Job(request, now, facts.value.0, facts.value.1, profile,
                         if association.Some? then Some(association.value.ownerEpoch) else None, association));
    }

    method AdmissionSection(job: Job, read: Read, clock: Option<int>, persist: Persist) returns (outcome: Result<Hub>)
      modifies this
      ensures (View(), outcome) == Admit(old(View()), job, read, clock, persist)
    {
      hide CandidateOf;
      inflight := inflight - {job.request.deviceId};
      CandidateIgnoresMarkers(old(View()), View(), job, read, clock);
      var candidate := CheckAdmission(job, read, clock);
      if candidate.Failure? {
        return candidate;
      }
      var saved := PersistCandidate(candidate.value, persist);
      if !saved {
        return Failure("durable state not saved");
      }
      hub := candidate.value;
      return candidate;
    }

    /** Every check between the cleared marker and the write. */
    method CheckAdmission(job: Job, read: Read, clock: Option<int>) returns (candidate: Result<Hub>)
      ensures candidate == CandidateOf(View(), job, read, clock)
    {
      hide ContinuityOf, AcceptProfiledCatalog;
      if read.Panicked? {
        return Failure("provider task failed");
      }
      if read.Refused? {
        return Failure(read.error);
      }
      if clock.None? {
        return Failure("clock unavailable");
      }
      var at := clock.value;
      if at < read.completedAt {
        return Failure("clock regressed after provider read");
      }
      var facts := ContinuityOf(hub, adapter, job.request, at);
      if facts.Failure? {
        return Failure(facts.error);
      }
      if facts.value.0 != job.captured || facts.value.1 != job.evidenceRevision ||
         read.completedAt < job.startedAt || at > job.ExpiresAt() {
        return Failure("target changed or read expired during catalogue refresh");
      }
      if provider.None? || provider.value.poisoned {
        return Failure("provider lock failed");
      }
      var target := (job.request.deviceId, job.request.identityRevision);
      if target !in provider.value.profiles {
        return Failure("kiosk profile unavailable");
      }
      if provider.value.profiles[target] != job.profile {
        return Failure("kiosk_catalog_setup_required: provider profile changed");
      }
      candidate := AcceptProfiledCatalog(hub, read.admission, job.profile, at);
    }

    /** Writing the candidate to its slot; the failure may come before or after publication. */
    method PersistCandidate(candidate: Hub, persist: Persist) returns (saved: bool)
      modifies this`store, this`recorded
      ensures saved == persist.Saved?
      ensures (if saved then View().(hub := candidate) else View()) == Commit(old(View()), candidate, persist)
    {
      saved := false;
      match persist {
        case NotWritten =>
        case SlotRemoved =>
          store := recorded;
        case PublishedUnsynced =>
          store := candidate;
        case Saved =>
          store, recorded, saved := candidate, candidate, true;
      }
    }

    method ReleasePermit()
      modifies this`freeSlots
      ensures View() == Release(old(View()))
    {
      freeSlots := freeSlots + 1;
    }
  }

  /** What the admission checks read leaves out the markers. */
  lemma CandidateIgnoresMarkers(a: Runtime, b: Runtime, job: Job, read: Read, clock: Option<int>)
    requires b == a.(inflight := b.inflight)
    ensures CandidateOf(a, job, read, clock) == CandidateOf(b, job, read, clock)
  {
    hide ContinuityOf, AcceptProfiledCatalog;
  }
}
