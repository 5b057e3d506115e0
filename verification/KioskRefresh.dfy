/** The two-phase catalogue refresh of the local Hub: a locked capture section, an unlocked
    provider read, a locked admission section, and the release of the permit, interleaved
    freely with other refreshes and with every other writer of the Hub. */
module KioskRefresh {
  import opened Basics

  const REFRESH_WINDOW_MS: int := 30_000
  const I64_MAX: int := 0x7fff_ffff_ffff_ffff
  const MAX_KIOSK_CATALOGS: nat := 1_000
  const MAX_REPLAY_IDENTITIES: nat := 10_000

  // ---------------------------------------------------------------- the Hub

  datatype Capability = Capability(
    owner: string, ready: bool, observedAt: int, freshUntil: int, evidenceRevision: nat)

  datatype DeviceRecord = DeviceRecord(
    identityRevision: nat, sourceEpoch: string, acceptedAt: int, capability: Option<Capability>)

  datatype Association = Association(identityRevision: nat, profile: string, ownerEpoch: string)

  /** What the provider read returned once it was bound to its expectation. */
  datatype Admission = Admission(
    deviceId: string, identityRevision: nat, ownerEpoch: string, evidenceRevision: nat,
    replayIdentity: string, issuedAt: int, expiresAt: int, observedAt: int, freshUntil: int,
    wellFormed: bool)

  datatype Catalog = Catalog(admission: Admission, receivedAt: int, sourceEpoch: string)

  datatype Hub = Hub(
    records: map<string, DeviceRecord>, catalogs: map<string, Catalog>,
    associations: map<string, Association>, replays: set<string>, revision: nat,
    staleAfter: int, offlineAfter: int)

  datatype Peer = Peer(peerId: string, observedAt: int, expiresAt: int, keyFingerprint: string)

  datatype Credential = Credential(
    peerId: string, active: bool, publicKeySha256: string, keyId: string, keyGeneration: nat,
    validFrom: int, expiresAt: int)

  datatype Adapter = Adapter(peers: seq<Peer>, credentials: seq<Credential>)

  /** `profiles` is what the provider answers for a device at a revision; a panic while the
      provider is locked leaves its lock poisoned. */
  datatype Provider = Provider(profiles: map<(string, nat), string>, poisoned: bool)

  function AssociationOf(hub: Hub, device: string): Option<Association> {
    if device in hub.associations then Some(hub.associations[device]) else None
  }

  predicate ValidProfile(profile: string) {
    && 8 <= |profile| <= 128
    && forall c :: c in profile ==>
         'a' <= c <= 'z' || 'A' <= c <= 'Z' || '0' <= c <= '9' || c in {'.', '_', '-', ':'}
  }

  predicate Fresh(hub: Hub, record: DeviceRecord, now: int) {
    var age := if now - record.acceptedAt > 0 then now - record.acceptedAt else 0;
    age <= hub.offlineAfter && age <= hub.staleAfter
  }

  predicate ReadyAt(capability: Capability, now: int) {
    capability.owner == "rusty-kiosk" && capability.ready && now <= capability.freshUntil
  }

  /** Admits one catalogue under one profile, or refuses and leaves the Hub as it was. */
  function AcceptProfiledCatalog(hub: Hub, admission: Admission, profile: string, at: int): (r: Result<Hub>)
  {
    var device := admission.deviceId;
    var association := Association(admission.identityRevision, profile, admission.ownerEpoch);
    if device in hub.associations && hub.associations[device] != association then
      Failure("kiosk_catalog_setup_required")
    else if !ValidProfile(profile) ||
            (device !in hub.associations && |hub.associations| >= MAX_KIOSK_CATALOGS) then
      Failure("kiosk_catalog_setup_invalid")
    else if !admission.wellFormed then Failure("kiosk_production_catalog_invalid")
    else if at < admission.issuedAt || at > admission.expiresAt ||
            at < admission.observedAt || at > admission.freshUntil then
      Failure("kiosk_production_catalog_expired")
    else if admission.replayIdentity in hub.replays then Failure("kiosk_production_catalog_replay")
    else if |hub.replays| >= MAX_REPLAY_IDENTITIES then Failure("kiosk_production_catalog_replay_evidence_full")
    else if device !in hub.records then Failure("kiosk_catalog_device_unknown")
    else
      var record := hub.records[device];
      if record.capability.None? || !ReadyAt(record.capability.value, at) ||
         record.capability.value.evidenceRevision != admission.evidenceRevision then
        Failure("kiosk_production_capability_mismatch")
      else if record.identityRevision != admission.identityRevision then
        Failure("kiosk_catalog_identity_mismatch")
      else if device in hub.catalogs &&
              (at < hub.catalogs[device].receivedAt ||
               admission.observedAt <= hub.catalogs[device].admission.observedAt) then
        Failure("kiosk_catalog_regression")
      else if device !in hub.catalogs && |hub.catalogs| >= MAX_KIOSK_CATALOGS then
        Failure("kiosk_catalog_full")
      else
        Success(hub.(
          catalogs := hub.catalogs[device := Catalog(admission, at, record.sourceEpoch)],
          associations := hub.associations[device := association],
          replays := hub.replays + {admission.replayIdentity},
          revision := hub.revision + 1))
  }

  ghost predicate SameElsewhere<V>(before: map<string, V>, after: map<string, V>, device: string) {
    forall d :: d != device ==> (d in before <==> d in after) && (d in before && d in after ==> before[d] == after[d])
  }

  /** What an accepted catalogue leaves: its own record, exactly as admitted, its own association and
      its replay identity; nothing else. */
  ghost predicate TouchesOneDevice(hub: Hub, after: Hub, admission: Admission, profile: string, at: int) {
    var device := admission.deviceId;
    && after.records == hub.records && after.revision == hub.revision + 1
    && after.staleAfter == hub.staleAfter && after.offlineAfter == hub.offlineAfter
    && SameElsewhere(hub.catalogs, after.catalogs, device)
    && SameElsewhere(hub.associations, after.associations, device)
    && device in hub.records && device in after.catalogs && device in after.associations
    && after.catalogs[device].admission == admission && after.catalogs[device].receivedAt == at
    && after.catalogs[device].sourceEpoch == hub.records[device].sourceEpoch
    && after.associations[device].identityRevision == admission.identityRevision
    && after.associations[device].profile == profile
    && after.associations[device].ownerEpoch == admission.ownerEpoch
    && admission.replayIdentity !in hub.replays && after.replays == hub.replays + {admission.replayIdentity}
  }

  /** An accepted catalogue is stored, and touches only its own device's catalogue and association. */
  lemma AcceptTouchesOneDevice(hub: Hub, admission: Admission, profile: string, at: int)
    ensures AcceptProfiledCatalog(hub, admission, profile, at).Success? ==>
      TouchesOneDevice(hub, AcceptProfiledCatalog(hub, admission, profile, at).value, admission, profile, at)
  {
    AcceptedHub(hub, admission, profile, at);
    hide AcceptProfiledCatalog;
  }

  lemma AcceptedHub(hub: Hub, admission: Admission, profile: string, at: int)
    ensures AcceptProfiledCatalog(hub, admission, profile, at).Success? ==>
      var device := admission.deviceId;
      && device in hub.records && admission.replayIdentity !in hub.replays
      && AcceptProfiledCatalog(hub, admission, profile, at).value ==
         Hub(hub.records, hub.catalogs[device := Catalog(admission, at, hub.records[device].sourceEpoch)],
             hub.associations[device := Association(admission.identityRevision, profile, admission.ownerEpoch)],
             hub.replays + {admission.replayIdentity}, hub.revision + 1, hub.staleAfter, hub.offlineAfter)
  {
    hide ReadyAt, ValidProfile;
  }

  /** The stored association, if any, and the room for a new one. */
  predicate AssociationAllows(hub: Hub, admission: Admission, profile: string) {
    var device := admission.deviceId;
    && 8 <= |profile| <= 128
    && (forall c :: c in profile ==>
          'a' <= c <= 'z' || 'A' <= c <= 'Z' || '0' <= c <= '9' || c == '.' || c == '_' || c == '-' || c == ':')
    && (device in hub.associations ==>
          && hub.associations[device].identityRevision == admission.identityRevision
          && hub.associations[device].profile == profile && hub.associations[device].ownerEpoch == admission.ownerEpoch)
    && (device !in hub.associations ==> |hub.associations| < 1000)
  }

  /** The device's current record and capability carry the admission at this time. */
  predicate RecordAllows(hub: Hub, admission: Admission, at: int) {
    admission.deviceId in hub.records &&
    var record := hub.records[admission.deviceId];
    && record.identityRevision == admission.identityRevision && record.capability.Some?
    && record.capability.value.owner == "rusty-kiosk" && record.capability.value.ready
    && at <= record.capability.value.freshUntil
    && record.capability.value.evidenceRevision == admission.evidenceRevision
  }

  /** A catalogue is replaced only by one received no earlier and observed later. */
  predicate CatalogAllows(hub: Hub, admission: Admission, at: int) {
    var device := admission.deviceId;
    && (device in hub.catalogs ==>
          hub.catalogs[device].receivedAt <= at && hub.catalogs[device].admission.observedAt < admission.observedAt)
    && (device !in hub.catalogs ==> |hub.catalogs| < 1000)
  }

  /** Exactly when a catalogue is accepted. */
  lemma AcceptedIff(hub: Hub, admission: Admission, profile: string, at: int)
    ensures AcceptProfiledCatalog(hub, admission, profile, at).Success? <==>
            && AssociationAllows(hub, admission, profile) && RecordAllows(hub, admission, at)
            && CatalogAllows(hub, admission, at) && admission.wellFormed
            && admission.issuedAt <= at <= admission.expiresAt && admission.observedAt <= at <= admission.freshUntil
            && admission.replayIdentity !in hub.replays && |hub.replays| < 10000
  {
  }

  // ---------------------------------------------------------------- continuity

  datatype Request = Request(deviceId: string, identityRevision: nat, valid: bool)

  datatype Continuity = Continuity(sourceEpoch: string, keyId: string, keyGeneration: nat, fingerprint: string)

  function FindPeer(peers: seq<Peer>, device: string): Option<Peer> {
    if peers == [] then None
    else if peers[0].peerId == device then Some(peers[0])
    else FindPeer(peers[1..], device)
  }

  predicate Current(c: Credential, device: string, fingerprint: string, now: int) {
    && c.peerId == device && c.active && c.publicKeySha256 == "sha256:" + fingerprint
    && c.validFrom <= now < c.expiresAt
  }

  function CurrentCredentials(credentials: seq<Credential>, device: string, fingerprint: string, now: int)
    : seq<Credential>
  {
    if credentials == [] then []
    else
      var c := credentials[0];
      (if Current(c, device, fingerprint, now) then [c] else []) +
      CurrentCredentials(credentials[1..], device, fingerprint, now)
  }

  const FINGERPRINT_PREFIX := "fingerprint."

  /** The target facts a refresh must find unchanged at both ends, with the evidence revision. */
  function ContinuityOf(hub: Hub, adapter: Adapter, request: Request, now: int): (r: Result<(Continuity, nat)>)
  {
    var device := request.deviceId;
    if device !in hub.records then Failure("device_not_found")
    else
      var record := hub.records[device];
      if record.identityRevision != request.identityRevision || !Fresh(hub, record, now) then
        Failure("current Fleet identity or freshness changed")
      else if record.capability.None? then Failure("current Kiosk capability absent")
      else
        var capability := record.capability.value;
        if !ReadyAt(capability, now) || now < capability.observedAt then
          Failure("current Kiosk capability is not ready")
        else if now < 0 then Failure("clock invalid")
        else
          var peer := FindPeer(adapter.peers, device);
          if peer.None? || !(peer.value.observedAt <= now < peer.value.expiresAt) then
            Failure("current signed peer evidence absent")
          else if !(FINGERPRINT_PREFIX <= peer.value.keyFingerprint) then
            Failure("peer key fingerprint invalid")
          else
            var fingerprint := peer.value.keyFingerprint[|FINGERPRINT_PREFIX|..];
            var current := CurrentCredentials(adapter.credentials, device, fingerprint, now);
            if |current| == 0 then Failure("current signed peer credential absent or expired")
            else if |current| > 1 then Failure("current signed peer credential ambiguous")
            else
              Success((Continuity(record.sourceEpoch, current[0].keyId, current[0].keyGeneration, fingerprint),
                       capability.evidenceRevision))
  }

  /** Position `i` of the enrolment is the one active credential of this device and key that is valid
      now. */
  ghost predicate SoleCurrent(credentials: seq<Credential>, device: string, fingerprint: string, now: int, i: int) {
    && 0 <= i < |credentials|
    && forall j :: 0 <= j < |credentials| ==>
         (j == i <==>
            && credentials[j].active && credentials[j].peerId == device
            && credentials[j].publicKeySha256 == "sha256:" + fingerprint
            && credentials[j].validFrom <= now && now < credentials[j].expiresAt)
  }

  /** One current credential is left exactly when one position of the enrolment holds one. */
  lemma {:induction false} OnlyCurrentCredential(credentials: seq<Credential>, device: string, fingerprint: string, now: int)
    ensures var current := CurrentCredentials(credentials, device, fingerprint, now);
            && (|current| == 0 <==> forall i :: 0 <= i < |credentials| ==> !Current(credentials[i], device, fingerprint, now))
            && (forall i :: SoleCurrent(credentials, device, fingerprint, now, i) ==> current == [credentials[i]])
            && (|current| == 1 ==>
                  exists i :: SoleCurrent(credentials, device, fingerprint, now, i) && current[0] == credentials[i])
  {
    if credentials != [] {
      OnlyCurrentCredential(credentials[1..], device, fingerprint, now);
      if Current(credentials[0], device, fingerprint, now) {
        HeadCounts(credentials, device, fingerprint, now);
      } else {
        HeadSkipped(credentials, device, fingerprint, now);
        assert forall i :: 1 <= i < |credentials| ==> credentials[i] == credentials[1..][i - 1];
      }
    }
    hide SoleCurrent, Current;
  }

  lemma HeadCounts(credentials: seq<Credential>, device: string, fingerprint: string, now: int)
    requires credentials != [] && Current(credentials[0], device, fingerprint, now)
    ensures forall i :: SoleCurrent(credentials, device, fingerprint, now, i) ==>
      i == 0 && forall j :: 0 <= j < |credentials[1..]| ==> !Current(credentials[1..][j], device, fingerprint, now)
    ensures (forall j :: 0 <= j < |credentials[1..]| ==> !Current(credentials[1..][j], device, fingerprint, now)) ==>
      SoleCurrent(credentials, device, fingerprint, now, 0)
  {
    assert forall j :: 1 <= j < |credentials| ==> credentials[j] == credentials[1..][j - 1];
  }

  lemma HeadSkipped(credentials: seq<Credential>, device: string, fingerprint: string, now: int)
    requires credentials != [] && !Current(credentials[0], device, fingerprint, now)
    ensures forall i :: SoleCurrent(credentials, device, fingerprint, now, i) ==>
      0 < i < |credentials| && SoleCurrent(credentials[1..], device, fingerprint, now, i - 1)
    ensures forall i :: SoleCurrent(credentials[1..], device, fingerprint, now, i) ==>
      0 <= i < |credentials| - 1 && SoleCurrent(credentials, device, fingerprint, now, i + 1)
  {
    assert forall j :: 1 <= j < |credentials| ==> credentials[j] == credentials[1..][j - 1];
  }

  /** What equal continuity at both ends amounts to: current identity, fresh accepted evidence,
      a ready capability, an unexpired peer and one unambiguous credential for its key. */
  lemma ContinuityMeans(hub: Hub, adapter: Adapter, request: Request, now: int)
    requires ContinuityOf(hub, adapter, request, now).Success?
    ensures var (facts, evidence) := ContinuityOf(hub, adapter, request, now).value;
            && request.deviceId in hub.records
            && var record := hub.records[request.deviceId];
            && record.identityRevision == request.identityRevision && Fresh(hub, record, now)
            && record.sourceEpoch == facts.sourceEpoch
            && record.capability.Some? && ReadyAt(record.capability.value, now)
            && record.capability.value.observedAt <= now
            && record.capability.value.evidenceRevision == evidence
            && (var peer := FindPeer(adapter.peers, request.deviceId);
                && peer.Some? && peer.value.observedAt <= now < peer.value.expiresAt
                && peer.value.keyFingerprint == FINGERPRINT_PREFIX + facts.fingerprint)
            && exists i :: SoleCurrent(adapter.credentials, request.deviceId, facts.fingerprint, now, i) &&
                           adapter.credentials[i].keyId == facts.keyId &&
                           adapter.credentials[i].keyGeneration == facts.keyGeneration
  {
    var fingerprint := ContinuityOf(hub, adapter, request, now).value.0.fingerprint;
    OnlyCurrentCredential(adapter.credentials, request.deviceId, fingerprint, now);
  }

  lemma {:induction false} FindPeerMeans(peers: seq<Peer>, device: string)
    ensures var found := FindPeer(peers, device);
            && (found.None? <==> forall i :: 0 <= i < |peers| ==> peers[i].peerId != device)
            && (found.Some? ==> exists i :: 0 <= i < |peers| && peers[i] == found.value && peers[i].peerId == device &&
                                            forall j :: 0 <= j < i ==> peers[j].peerId != device)
  {
    if peers != [] && peers[0].peerId != device {
      FindPeerMeans(peers[1..], device);
      assert forall i :: 1 <= i < |peers| ==> peers[i] == peers[1..][i - 1];
      var found := FindPeer(peers[1..], device);
      if found.Some? {
        var i :| 0 <= i < |peers[1..]| && peers[1..][i] == found.value && peers[1..][i].peerId == device &&
                 forall j :: 0 <= j < i ==> peers[1..][j].peerId != device;
        assert peers[i + 1] == found.value;
      }
    }
  }

  /** The record a refresh asks for is current, was accepted recently enough, and its Kiosk
      capability is ready. */
  predicate TargetAllows(hub: Hub, request: Request, now: int) {
    request.deviceId in hub.records &&
    var record := hub.records[request.deviceId];
    && record.identityRevision == request.identityRevision && record.capability.Some?
    && 0 <= hub.staleAfter && 0 <= hub.offlineAfter
    && now - record.acceptedAt <= hub.staleAfter && now - record.acceptedAt <= hub.offlineAfter
    && record.capability.value.owner == "rusty-kiosk" && record.capability.value.ready
    && record.capability.value.observedAt <= now <= record.capability.value.freshUntil
  }

  /** The device's first peer entry is inside its window, and one enrolled credential is current for
      the key it names. */
  ghost predicate PeerAllows(adapter: Adapter, device: string, now: int) {
    var peer := FindPeer(adapter.peers, device);
    && peer.Some? && peer.value.observedAt <= now < peer.value.expiresAt
    && FINGERPRINT_PREFIX <= peer.value.keyFingerprint
    && exists i :: SoleCurrent(adapter.credentials, device, peer.value.keyFingerprint[|FINGERPRINT_PREFIX|..], now, i)
  }

  /** Exactly when there is continuity. */
  lemma ContinuityIff(hub: Hub, adapter: Adapter, request: Request, now: int)
    ensures ContinuityOf(hub, adapter, request, now).Success? <==>
            TargetAllows(hub, request, now) && PeerAllows(adapter, request.deviceId, now) && 0 <= now
  {
    var peer := FindPeer(adapter.peers, request.deviceId);
    if peer.Some? && FINGERPRINT_PREFIX <= peer.value.keyFingerprint {
      OnlyCurrentCredential(
        adapter.credentials, request.deviceId, peer.value.keyFingerprint[|FINGERPRINT_PREFIX|..], now);
    }
    hide CurrentCredentials, SoleCurrent, FindPeer;
  }

  // ---------------------------------------------------------------- the runtime under its lock

  datatype Runtime = Runtime(
    hub: Hub, store: Hub, recorded: Hub, adapter: Adapter, provider: Option<Provider>,
    inflight: set<string>, freeSlots: nat)

  /** Everything the capture section hands to the detached task. */
  datatype Job = Job(
    request: Request, startedAt: int, captured: Continuity, evidenceRevision: nat,
    profile: string, expectedOwner: Option<string>, association: Option<Association>)
  {
    function ExpiresAt(): int { startedAt + REFRESH_WINDOW_MS }
  }

  /** Permit, continuity, profile, stored association and marker; any refusal gives the permit back. */
  function Capture(rt: Runtime, request: Request, now: int, randomAvailable: bool): (Runtime, Result<Job>) {
    if !request.valid then (rt, Failure("invalid closed catalogue refresh request"))
    else if rt.provider.None? then (rt, Failure("kiosk_catalog_provider_absent"))
    else if rt.freeSlots == 0 then (rt, Failure("kiosk_catalog_provider_busy"))
    else
      var facts := ContinuityOf(rt.hub, rt.adapter, request, now);
      if facts.Failure? then (rt, Failure(facts.error))
      else if rt.provider.value.poisoned then (rt, Failure("provider lock failed"))
      else if (request.deviceId, request.identityRevision) !in rt.provider.value.profiles then
        (rt, Failure("kiosk profile unavailable"))
      else
        var profile := rt.provider.value.profiles[(request.deviceId, request.identityRevision)];
        var association := AssociationOf(rt.hub, request.deviceId);
        if association.Some? &&
           (association.value.identityRevision != request.identityRevision || association.value.profile != profile) then
          (rt, Failure("kiosk_catalog_setup_required"))
        else if !randomAvailable then (rt, Failure("request identity unavailable"))
        else if now + REFRESH_WINDOW_MS > I64_MAX then (rt, Failure("expiry overflow"))
        else if request.deviceId in rt.inflight then (rt, Failure("catalogue refresh already running"))
        else
          (rt.(inflight := rt.inflight + {request.deviceId}, freeSlots := rt.freeSlots - 1),
           Success(Job(request, now, facts.value.0, facts.value.1, profile,
                       if association.Some? then Some(association.value.ownerEpoch) else None, association)))
  }

  /** Exactly when a refresh is captured. */
  lemma CapturedIff(rt: Runtime, request: Request, now: int, randomAvailable: bool)
    ensures var target := (request.deviceId, request.identityRevision);
            var captured := Capture(rt, request, now, randomAvailable).1;
            && (captured.Success? <==>
                  && request.valid && rt.freeSlots > 0 && request.deviceId !in rt.inflight && randomAvailable
                  && now + 30_000 <= 0x7fff_ffff_ffff_ffff
                  && rt.provider.Some? && !rt.provider.value.poisoned && target in rt.provider.value.profiles
                  && ContinuityOf(rt.hub, rt.adapter, request, now).Success?
                  && (request.deviceId in rt.hub.associations ==>
                        && rt.hub.associations[request.deviceId].identityRevision == request.identityRevision
                        && rt.hub.associations[request.deviceId].profile == rt.provider.value.profiles[target]))
            && (captured.Success? ==> captured.value.profile == rt.provider.value.profiles[target])
  {
    hide ContinuityOf;
  }

  /** How the blocking read ended. */
  datatype Read = Panicked | Refused(error: string) | Answered(admission: Admission, completedAt: int)

  /** What the ingest step insists on before it lets an exchange out of the read. */
  predicate Bound(job: Job, admission: Admission, completedAt: int) {
    && admission.deviceId == job.request.deviceId
    && admission.identityRevision == job.request.identityRevision
    && admission.evidenceRevision == job.evidenceRevision
    && (job.expectedOwner.Some? ==> admission.ownerEpoch == job.expectedOwner.value)
    && admission.issuedAt == job.startedAt && admission.expiresAt == job.ExpiresAt()
    && job.startedAt <= completedAt <= job.ExpiresAt()
  }

  /** How writing the durable state ended. It can fail before the slot is touched, after the slot's
      old file is removed, or after the new one is published. */
  datatype Persist = Saved | NotWritten | SlotRemoved | PublishedUnsynced

  /** The write of `candidate`, then the assignment of the in-memory Hub only if it succeeded. `store`
      is what a restart would load, `recorded` the slot of the last write that succeeded, which is
      never the one being written. */
  function Commit(rt: Runtime, candidate: Hub, persist: Persist): Runtime {
    match persist
    case Saved => rt.(hub := candidate, store := candidate, recorded := candidate)
    case NotWritten => rt
    case SlotRemoved => rt.(store := rt.recorded)
    case PublishedUnsynced => rt.(store := candidate)
  }

  /** The Hub that the second locked section would write, or why it refuses. `clock` is None when
      the wall clock cannot be read. */
  function CandidateOf(rt: Runtime, job: Job, read: Read, clock: Option<int>): Result<Hub> {
    if read.Panicked? then Failure("provider task failed")
    else if read.Refused? then Failure(read.error)
    else if clock.None? then Failure("clock unavailable")
    else if clock.value < read.completedAt then Failure("clock regressed after provider read")
    else
      var at := clock.value;
      var facts := ContinuityOf(rt.hub, rt.adapter, job.request, at);
      if facts.Failure? then Failure(facts.error)
      else if facts.value.0 != job.captured || facts.value.1 != job.evidenceRevision ||
              read.completedAt < job.startedAt || at > job.ExpiresAt() then
        Failure("target changed or read expired during catalogue refresh")
      else if rt.provider.None? || rt.provider.value.poisoned then Failure("provider lock failed")
      else if (job.request.deviceId, job.request.identityRevision) !in rt.provider.value.profiles then
        Failure("kiosk profile unavailable")
      else if rt.provider.value.profiles[(job.request.deviceId, job.request.identityRevision)] != job.profile then
        Failure("kiosk_catalog_setup_required: provider profile changed")
      else AcceptProfiledCatalog(rt.hub, read.admission, job.profile, at)
  }

  /** The second locked section: it clears its marker whatever happens. */
  function Admit(rt: Runtime, job: Job, read: Read, clock: Option<int>, persist: Persist): (Runtime, Result<Hub>) {
    var cleared := rt.(inflight := rt.inflight - {job.request.deviceId});
    var candidate := CandidateOf(rt, job, read, clock);
    if candidate.Failure? then (cleared, candidate)
    else (Commit(cleared, candidate.value, persist),
          if persist.Saved? then candidate else Failure("durable state not saved"))
  }

  /** The permit goes back when the task ends. */
  function Release(rt: Runtime): Runtime { rt.(freeSlots := rt.freeSlots + 1) }
}
