/** Install and rollback as they rewrite the recorded current release and its bounded history,
    against an unbounded move-to-front order of release ids. */
module ReleaseHistory {
  import opened Basics
  import opened Paths

  const MAXIMUM_HISTORY: nat := 16

  datatype Release = Release(
    version: string, releaseId: string, manifestSha256: string, bundleSha256: string, relativePath: string)

  datatype InstallState = InstallState(current: Release, history: seq<Release>)
  {
    function All(): seq<Release> { [current] + history }
  }

  /** The bundle embedded in a Setup: its version, manifest digest and archive digest. */
  datatype Bundle = Bundle(version: string, manifestSha256: string, archiveSha256: string)

  /** What validation reads back from an installed tree. */
  datatype Definition = Definition(version: string, manifestSha256: string)

  /** Installed trees by relative path; nothing in Setup ever deletes one. */
  type Disk = map<string, Definition>

  /** `guid` is the fresh suffix of the candidate directory. */
  datatype Action = Install(bundle: Bundle, guid: string) | Rollback

  function ReleaseId(version: string, manifestSha256: string): string
    requires |manifestSha256| >= 16
  {
    version + "-" + manifestSha256[..16]
  }

  const RELEASES := "releases"
  const CANDIDATE := ".candidate-"

  function CandidatePath(bundle: Bundle, guid: string): string
    requires |bundle.manifestSha256| >= 16
  {
    RELEASES + "/" + CandidateName(bundle, guid)
  }

  function CandidateName(bundle: Bundle, guid: string): string
    requires |bundle.manifestSha256| >= 16
  {
    CANDIDATE + bundle.manifestSha256[..16] + "-" + guid
  }

  predicate ValidRelease(r: Release, disk: Disk) {
    && IsSha256(r.manifestSha256) && IsSha256(r.bundleSha256)
    && !IsBlank(r.releaseId) && !IsBlank(r.version)
    && SafePath(r.relativePath)
    && (var segments := Split(r.relativePath, '/');
        |segments| == 2 && segments[0] == RELEASES && CANDIDATE <= segments[1])
    && r.relativePath in disk
    && disk[r.relativePath] == Definition(r.version, r.manifestSha256)
    && r.releaseId == ReleaseId(r.version, r.manifestSha256)
  }

  function Ids(releases: seq<Release>): (ids: seq<string>)
    ensures |ids| == |releases|
    ensures forall i :: 0 <= i < |ids| ==> ids[i] == releases[i].releaseId
  {
    seq(|releases|, i requires 0 <= i < |releases| => releases[i].releaseId)
  }

  predicate ValidState(st: InstallState, disk: Disk) {
    && |st.history| <= MAXIMUM_HISTORY
    && Distinct(Ids(st.All()))
    && forall r :: r in st.All() ==> ValidRelease(r, disk)
  }

  // ---------------------------------------------------------------- list expressions of Execute

  function WithoutId(releases: seq<Release>, id: string): (kept: seq<Release>)
    ensures forall r :: r in kept <==> r in releases && r.releaseId != id
    ensures |kept| <= |releases|
  {
    if releases == [] then []
    else (if releases[0].releaseId != id then [releases[0]] else []) + WithoutId(releases[1..], id)
  }

  /** DistinctBy keeps the first release of every id. */
  function DistinctById(releases: seq<Release>): seq<Release>
    decreases |releases|
  {
    if releases == [] then []
    else [releases[0]] + DistinctById(WithoutId(releases[1..], releases[0].releaseId))
  }

  predicate SameRelease(r: Release, bundle: Bundle)
    requires |bundle.manifestSha256| >= 16
  {
    && r.releaseId == ReleaseId(bundle.version, bundle.manifestSha256)
    && r.manifestSha256 == bundle.manifestSha256 && r.bundleSha256 == bundle.archiveSha256
  }

  function FindReusable(releases: seq<Release>, bundle: Bundle): Option<Release>
    requires |bundle.manifestSha256| >= 16
  {
    if releases == [] then None
    else if SameRelease(releases[0], bundle) then Some(releases[0])
    else FindReusable(releases[1..], bundle)
  }

  predicate ValidBundle(bundle: Bundle) {
    !IsBlank(bundle.version) && IsSha256(bundle.manifestSha256) && IsSha256(bundle.archiveSha256)
  }

  /** One run of Setup: the recorded state is read and checked, the new state is computed, every
      release it names is checked again, and only then is it committed. */
  function Execute(previous: Option<InstallState>, disk: Disk, action: Action): (Result<InstallState>, Disk) {
    if previous.Some? && !ValidState(previous.value, disk) then
      (Failure("existing Fleet install state is unsupported"), disk)
    else match action
    case Rollback =>
      if previous.None? || previous.value.history == [] then
        (Failure("there is no verified previous release to roll back to"), disk)
      else
        var st := previous.value;
        (Checked(InstallState(st.history[0], Take(DistinctById([st.current] + st.history[1..]), MAXIMUM_HISTORY)), disk),
         disk)
    case Install(bundle, guid) =>
      if !ValidBundle(bundle) then (Failure("invalid bundle"), disk)
      else
        var reusable := if previous.None? then None else FindReusable(previous.value.All(), bundle);
        var path := CandidatePath(bundle, guid);
        if reusable.None? && path in disk then (Failure("could not create exact install directory"), disk)
        else
          var installed := if reusable.None? then disk[path := Definition(bundle.version, bundle.manifestSha256)] else disk;
          var current :=
            if reusable.Some? then reusable.value
            else Release(bundle.version, ReleaseId(bundle.version, bundle.manifestSha256),
                         bundle.manifestSha256, bundle.archiveSha256, path);
          (Checked(InstallState(current, NewHistory(previous, current.releaseId)), installed), installed)
  }

  function NewHistory(previous: Option<InstallState>, currentId: string): seq<Release> {
    if previous.None? then []
    else Take(DistinctById(WithoutId(previous.value.All(), currentId)), MAXIMUM_HISTORY)
  }

  function Checked(st: InstallState, disk: Disk): Result<InstallState> {
    if forall r :: r in st.All() ==> ValidRelease(r, disk) then Success(st)
    else Failure("installed release is not exact")
  }

  // ---------------------------------------------------------------- the independent order

  function RemoveId(order: seq<string>, id: string): (kept: seq<string>)
    ensures forall x :: x in kept <==> x in order && x != id
  {
    if order == [] then [] else (if order[0] != id then [order[0]] else []) + RemoveId(order[1..], id)
  }

  /** Move-to-front, without any bound. */
  function Touch(order: seq<string>, id: string): seq<string> { [id] + RemoveId(order, id) }

  lemma {:induction false} RemoveDistinct(order: seq<string>, id: string)
    requires Distinct(order)
    ensures Distinct(RemoveId(order, id))
  {
    if order != [] {
      RemoveDistinct(order[1..], id);
      assert order[0] !in RemoveId(order[1..], id);
    }
  }

  lemma {:induction false} RemoveConcat(a: seq<string>, b: seq<string>, id: string)
    ensures RemoveId(a + b, id) == RemoveId(a, id) + RemoveId(b, id)
  {
    if a == [] {
      assert a + b == b;
    } else {
      assert (a + b)[1..] == a[1..] + b;
      RemoveConcat(a[1..], b, id);
    }
  }

  lemma {:induction false} RemoveLength(order: seq<string>, id: string)
    requires Distinct(order)
    ensures |RemoveId(order, id)| == |order| - (if id in order then 1 else 0)
  {
    if order != [] {
      RemoveLength(order[1..], id);
      if order[0] == id {
        assert id !in order[1..];
      } else {
        assert id in order <==> id in order[1..];
      }
    }
  }

  /** Keeping `n` entries after a touch loses nothing against keeping `n + 1` before it. */
  lemma TouchBounded(order: seq<string>, id: string, n: nat)
    requires Distinct(order)
    ensures Take(RemoveId(Take(order, n + 1), id), n) == Take(RemoveId(order, id), n)
  {
    if |order| > n + 1 {
      var head, tail := order[..n + 1], order[n + 1..];
      assert head + tail == order;
      RemoveConcat(head, tail, id);
      RemoveLength(head, id);
      assert |RemoveId(head, id)| >= n;
    }
  }

  // ---------------------------------------------------------------- the lists are the order

  lemma {:induction false} IdsWithout(releases: seq<Release>, id: string)
    ensures Ids(WithoutId(releases, id)) == RemoveId(Ids(releases), id)
  {
    if releases != [] {
      IdsWithout(releases[1..], id);
      assert Ids(releases)[1..] == Ids(releases[1..]);
    }
  }

  lemma {:induction false} DistinctAlready(releases: seq<Release>)
    requires Distinct(Ids(releases))
    ensures DistinctById(releases) == releases
  {
    if releases != [] {
      var rest := releases[1..];
      assert Ids(rest) == Ids(releases)[1..];
      assert forall i :: 0 <= i < |rest| ==> Ids(releases)[i + 1] == rest[i].releaseId != releases[0].releaseId;
      WithoutAbsent(rest, releases[0].releaseId);
      DistinctAlready(rest);
    }
  }

  lemma {:induction false} WithoutAbsent(releases: seq<Release>, id: string)
    requires forall i :: 0 <= i < |releases| ==> releases[i].releaseId != id
    ensures WithoutId(releases, id) == releases
  {
    if releases != [] {
      WithoutAbsent(releases[1..], id);
      assert [releases[0]] + releases[1..] == releases;
    }
  }

  lemma TakeIds(releases: seq<Release>, n: nat)
    ensures Ids(Take(releases, n)) == Take(Ids(releases), n)
  {
  }

  /** The committed history lists the touched order, whatever was current. */
  lemma NewHistoryIds(st: InstallState, id: string)
    requires Distinct(Ids(st.All()))
    ensures Ids(NewHistory(Some(st), id)) == Take(RemoveId(Ids(st.All()), id), MAXIMUM_HISTORY)
  {
    var kept := WithoutId(st.All(), id);
    IdsWithout(st.All(), id);
    RemoveDistinct(Ids(st.All()), id);
    DistinctAlready(kept);
    TakeIds(kept, MAXIMUM_HISTORY);
  }

  lemma CandidateNameSafe(bundle: Bundle, guid: string)
    requires ValidBundle(bundle) && IsHex(guid) && guid != ""
    ensures SafePart(CandidateName(bundle, guid)) && '/' !in CandidateName(bundle, guid)
    ensures '\\' !in CandidateName(bundle, guid) && CANDIDATE <= CandidateName(bundle, guid)
    ensures IsHexDigit(CandidateName(bundle, guid)[|CandidateName(bundle, guid)| - 1])
  {
    var name, mid := CandidateName(bundle, guid), bundle.manifestSha256[..16];
    assert IsHex(mid);
    forall i | 0 <= i < |name|
      ensures name[i] == '-' || IsHexDigit(name[i]) || (i < |CANDIDATE| && name[i] == CANDIDATE[i])
    {
      if |CANDIDATE| <= i < |CANDIDATE| + 16 {
        assert name[i] == mid[i - |CANDIDATE|];
      } else if i > |CANDIDATE| + 16 {
        assert name[i] == guid[i - |CANDIDATE| - 17];
      }
    }
    assert name[|name| - 1] == guid[|guid| - 1];
    assert name[0] == '.' && Split(name, '.')[0] == "";
    assert |Upper("")| == 0;
  }

  lemma PlainPartSafe(part: string)
    requires |part| > 4 && forall i :: 0 <= i < |part| ==> 'a' <= part[i] <= 'z'
    ensures SafePart(part) && '/' !in part && '\\' !in part
  {
    SplitWhole(part, '.');
    assert |Upper(part)| == |part|;
  }

  lemma CandidatePathSafe(bundle: Bundle, guid: string)
    requires ValidBundle(bundle) && IsHex(guid) && guid != ""
    ensures var path := CandidatePath(bundle, guid);
            SafePath(path) && Split(path, '/') == [RELEASES, CandidateName(bundle, guid)]
    ensures CANDIDATE <= CandidateName(bundle, guid)
  {
    CandidateNameSafe(bundle, guid);
    PlainPartSafe(RELEASES);
    TwoPartPathSafe(RELEASES, CandidateName(bundle, guid));
  }

  lemma TwoPartPathSafe(head: string, tail: string)
    requires SafePart(head) && SafePart(tail)
    requires '/' !in head && '/' !in tail && '\\' !in head && '\\' !in tail
    ensures SafePath(head + "/" + tail) && Split(head + "/" + tail, '/') == [head, tail]
  {
    hide Upper, IsReservedName;
    var path := head + ['/'] + tail;
    assert path == head + "/" + tail;
    SplitHead(head, tail, '/');
    SplitWhole(tail, '/');
    assert path[0] == head[0] && path[|path| - 1] == tail[|tail| - 1];
    assert path[|head|] == '/';
  }

  // ---------------------------------------------------------------- what recorded state must be

  predicate IsDigest(text: string) { |text| == 64 && forall c :: c in text ==> c in HEX_DIGITS }

  lemma DigestMeans(text: string)
    ensures IsSha256(text) <==> IsDigest(text)
  {
    forall c ensures IsHexDigit(c) <==> c in HEX_DIGITS {
      HexDigitMeans(c);
    }
    assert forall i :: 0 <= i < |text| ==> text[i] in text;
  }

  /** The path is that of a candidate directory. */
  ghost predicate InReleases(path: string) {
    exists name :: path == "releases/" + name && ".candidate-" <= name && PlainName(name)
  }

  /** Exactly which recorded releases pass: the tree stands in a candidate directory of its own, and
      is of the version and manifest that the release and its id name. */
  lemma ReleaseIff(r: Release, disk: Disk)
    ensures ValidRelease(r, disk) <==>
            && IsDigest(r.manifestSha256) && IsDigest(r.bundleSha256) && !IsBlank(r.version) && InReleases(r.relativePath)
            && r.relativePath in disk && disk[r.relativePath].version == r.version
            && disk[r.relativePath].manifestSha256 == r.manifestSha256
            && r.releaseId == r.version + "-" + r.manifestSha256[..16]
  {
    DigestMeans(r.manifestSha256);
    DigestMeans(r.bundleSha256);
    PathInReleases(r.relativePath);
    if IsDigest(r.manifestSha256) {
      NotBlankId(r.version, r.manifestSha256[..16]);
    }
    hide SafePath, Split, InReleases, IsBlank, IsSha256;
  }

  lemma NotBlankId(version: string, digits: string)
    ensures !IsBlank(version + "-" + digits)
  {
    assert (version + "-" + digits)[|version|] == '-';
  }

  lemma PathInReleases(path: string)
    ensures (SafePath(path) && |Split(path, '/')| == 2 && Split(path, '/')[0] == RELEASES && CANDIDATE <= Split(path, '/')[1]) <==>
            InReleases(path)
  {
    if SafePath(path) && |Split(path, '/')| == 2 && Split(path, '/')[0] == RELEASES && CANDIDATE <= Split(path, '/')[1] {
      SafeInReleases(path);
    }
    if name :| path == "releases/" + name && ".candidate-" <= name && PlainName(name) {
      PlainInReleases(name);
    }
    hide SafePath, Split, PlainName;
  }

  lemma SafeInReleases(path: string)
    requires SafePath(path) && |Split(path, '/')| == 2 && Split(path, '/')[0] == RELEASES
    requires CANDIDATE <= Split(path, '/')[1]
    ensures var name := Split(path, '/')[1];
            path == "releases/" + name && ".candidate-" <= name && PlainName(name)
  {
    hide PlainName, Split, SafePart;
    var parts := Split(path, '/');
    JoinSplit(path, '/');
    assert parts[1..] == [parts[1]] && Join(parts[1..], '/') == parts[1];
    assert path == RELEASES + ['/'] + parts[1] == "releases/" + parts[1];
    PartIff(parts[1]);
    assert '\\' !in parts[1];
  }

  lemma PlainInReleases(name: string)
    requires ".candidate-" <= name && PlainName(name)
    ensures var path := "releases/" + name;
            SafePath(path) && Split(path, '/') == [RELEASES, name]
  {
    hide PlainName, SafePath, Split;
    PartIff(name);
    PlainPartSafe(RELEASES);
    assert "releases/" + name == RELEASES + "/" + name;
    TwoPartPathSafe(RELEASES, name);
  }

  /** What an installation records as current is the bundle, taken over or new. */
  lemma InstalledIsTheBundle(previous: Option<InstallState>, disk: Disk, bundle: Bundle, guid: string)
    ensures var outcome := Execute(previous, disk, Install(bundle, guid)).0;
            outcome.Success? ==>
              var current := outcome.value.current;
              && current.version == bundle.version && current.manifestSha256 == bundle.manifestSha256
              && current.bundleSha256 == bundle.archiveSha256 && IsDigest(bundle.manifestSha256)
              && current.releaseId == bundle.version + "-" + bundle.manifestSha256[..16]
  {
    hide SafePath, Split, IsBlank, NewHistory, Distinct;
    DigestMeans(bundle.manifestSha256);
    if previous.Some? && ValidState(previous.value, disk) && ValidBundle(bundle) {
      FindReusableMeans(previous.value.All(), bundle);
      var reused := FindReusable(previous.value.All(), bundle);
      if reused.Some? {
        assert ValidRelease(reused.value, disk);
        SameSuffix(reused.value.version, bundle.version, "-" + bundle.manifestSha256[..16]);
        assert reused.value.version + "-" + bundle.manifestSha256[..16] == reused.value.version + ("-" + bundle.manifestSha256[..16]);
        assert bundle.version + "-" + bundle.manifestSha256[..16] == bundle.version + ("-" + bundle.manifestSha256[..16]);
      }
    }
  }

  lemma SameSuffix(a: string, b: string, suffix: string)
    ensures a + suffix == b + suffix ==> a == b
  {
    if a + suffix == b + suffix {
      assert |a| == |b| && (a + suffix)[..|a|] == (b + suffix)[..|b|];
    }
  }

  // ---------------------------------------------------------------- one step

  /** `order` is the unbounded move-to-front order the recorded state stands for. */
  ghost predicate Tracks(previous: Option<InstallState>, disk: Disk, order: seq<string>) {
    && Distinct(order)
    && (previous.None? <==> order == [])
    && (previous.Some? ==>
          ValidState(previous.value, disk) && Ids(previous.value.All()) == Take(order, MAXIMUM_HISTORY + 1))
  }

  ghost function StepOrder(order: seq<string>, action: Action): seq<string>
    requires action.Install? ==> |action.bundle.manifestSha256| >= 16
    requires action.Rollback? ==> |order| >= 2
  {
    match action
    case Install(bundle, _) => Touch(order, ReleaseId(bundle.version, bundle.manifestSha256))
    case Rollback => Touch(order, order[1])
  }

  /** A recorded release stays valid: Setup only ever adds trees. */
  lemma TracksSurvives(previous: Option<InstallState>, disk: Disk, order: seq<string>, path: string, tree: Definition)
    requires Tracks(previous, disk, order) && path !in disk
    ensures Tracks(previous, disk[path := tree], order)
  {
    hide Distinct, SafePath, Split, IsSha256, IsBlank;
  }

  lemma NewHistorySubset(st: InstallState, id: string)
    requires Distinct(Ids(st.All()))
    ensures forall r :: r in NewHistory(Some(st), id) ==> r in st.All()
    ensures |NewHistory(Some(st), id)| <= MAXIMUM_HISTORY
  {
    var kept := WithoutId(st.All(), id);
    IdsWithout(st.All(), id);
    RemoveDistinct(Ids(st.All()), id);
    DistinctAlready(kept);
  }

  /** Whatever valid release is made current, the next state touches the order. */
  lemma Adopt(previous: Option<InstallState>, disk: Disk, order: seq<string>, current: Release)
    requires Tracks(previous, disk, order) && ValidRelease(current, disk)
    ensures var next := InstallState(current, NewHistory(previous, current.releaseId));
            Checked(next, disk) == Success(next) && Tracks(Some(next), disk, Touch(order, current.releaseId))
  {
    hide ValidRelease, NewHistory, RemoveId, Distinct, Ids, Take;
    var id := current.releaseId;
    var history := NewHistory(previous, id);
    var next := InstallState(current, history);
    TouchDistinct(order, id);
    if previous.Some? {
      NewHistorySubset(previous.value, id);
      AdoptIds(previous.value, order, id);
    } else {
      AdoptFirst(id);
    }
    ConsIds(current, history);
    TakeDistinct(Touch(order, id), MAXIMUM_HISTORY + 1);
  }

  lemma TouchDistinct(order: seq<string>, id: string)
    requires Distinct(order)
    ensures Distinct(Touch(order, id))
  {
    RemoveDistinct(order, id);
    var kept := RemoveId(order, id);
    assert forall j :: 0 <= j < |kept| ==> kept[j] in kept;
  }

  lemma AdoptFirst(id: string)
    ensures NewHistory(None, id) == []
    ensures [id] + Ids([]) == Take(Touch([], id), MAXIMUM_HISTORY + 1)
  {
  }

  lemma ConsIds(current: Release, history: seq<Release>)
    ensures Ids([current] + history) == [current.releaseId] + Ids(history)
  {
  }

  lemma AdoptIds(st: InstallState, order: seq<string>, id: string)
    requires Distinct(order) && Distinct(Ids(st.All())) && Ids(st.All()) == Take(order, MAXIMUM_HISTORY + 1)
    ensures [id] + Ids(NewHistory(Some(st), id)) == Take(Touch(order, id), MAXIMUM_HISTORY + 1)
  {
    hide Ids, NewHistory, RemoveId;
    NewHistoryIds(st, id);
    TouchBounded(order, id, MAXIMUM_HISTORY);
  }

  lemma TakeDistinct(order: seq<string>, n: nat)
    requires Distinct(order)
    ensures Distinct(Take(order, n))
  {
  }

  /** Rolling back keeps exactly what touching the previous release would keep. */
  lemma RollbackHistory(st: InstallState)
    requires Distinct(Ids(st.All())) && st.history != []
    ensures Take(DistinctById([st.current] + st.history[1..]), MAXIMUM_HISTORY) ==
            NewHistory(Some(st), st.history[0].releaseId)
  {
    var id := st.history[0].releaseId;
    assert [st.current] + st.history[1..] == WithoutId(st.All(), id) by { RollbackKeeps(st); }
  }

  lemma RollbackKeeps(st: InstallState)
    requires Distinct(Ids(st.All())) && st.history != []
    ensures [st.current] + st.history[1..] == WithoutId(st.All(), st.history[0].releaseId)
  {
    var all, id, rest := st.All(), st.history[0].releaseId, st.history[1..];
    assert all[0] == st.current && all[1..] == st.history && all[1] == st.history[0];
    forall i | 0 <= i < |rest| ensures rest[i].releaseId != id {
      assert rest[i] == all[i + 2];
      assert Ids(all)[i + 2] != Ids(all)[1];
    }
    WithoutAbsent(rest, id);
    assert Ids(all)[0] != Ids(all)[1];
    assert WithoutId(st.history, id) == WithoutId(rest, id);
  }

  lemma {:induction false} FindReusableMeans(releases: seq<Release>, bundle: Bundle)
    requires |bundle.manifestSha256| >= 16
    ensures var found := FindReusable(releases, bundle);
            && (found.Some? ==> found.value in releases && SameRelease(found.value, bundle))
            && (found.None? ==> forall r :: r in releases ==> !SameRelease(r, bundle))
  {
    if releases != [] {
      FindReusableMeans(releases[1..], bundle);
    }
  }

  /** Exactly when one run of Setup commits. */
  ghost predicate Commits(previous: Option<InstallState>, disk: Disk, order: seq<string>, action: Action) {
    match action
    case Rollback => |order| >= 2
    case Install(bundle, guid) =>
      && ValidBundle(bundle)
      && (Reuses(previous, bundle) || CandidatePath(bundle, guid) !in disk)
  }

  predicate Reuses(previous: Option<InstallState>, bundle: Bundle)
    requires |bundle.manifestSha256| >= 16
  {
    previous.Some? && exists r :: r in previous.value.All() && SameRelease(r, bundle)
  }

  /** One run commits exactly when it can, and the committed state stands for the touched order;
      a refused run changes neither the state nor the installed trees. */
  ghost predicate Stepped(previous: Option<InstallState>, disk: Disk, order: seq<string>, action: Action) {
    var (outcome, after) := Execute(previous, disk, action);
    && (outcome.Success? <==> Commits(previous, disk, order, action))
    && (outcome.Success? ==> Tracks(Some(outcome.value), after, StepOrder(order, action)))
    && (outcome.Failure? ==> after == disk)
  }

  lemma StepRollback(previous: Option<InstallState>, disk: Disk, order: seq<string>)
    requires Tracks(previous, disk, order)
    ensures Stepped(previous, disk, order, Rollback)
  {
    if previous.Some? {
      assert |Ids(previous.value.All())| == 1 + |previous.value.history|;
      if previous.value.history != [] {
        RollbackAdopts(previous.value, disk, order);
      }
    }
  }

  lemma RollbackAdopts(st: InstallState, disk: Disk, order: seq<string>)
    requires Tracks(Some(st), disk, order) && st.history != []
    ensures |order| >= 2 && st.history[0].releaseId == order[1]
    ensures var next := InstallState(st.history[0], NewHistory(Some(st), order[1]));
            Execute(Some(st), disk, Rollback) == (Success(next), disk) && Tracks(Some(next), disk, Touch(order, order[1]))
  {
    hide Touch, NewHistory, ValidRelease;
    assert st.All()[1] == st.history[0] && Ids(st.All())[1] == st.history[0].releaseId;
    RollbackHistory(st);
    Adopt(Some(st), disk, order, st.history[0]);
  }

  lemma StepInstall(previous: Option<InstallState>, disk: Disk, order: seq<string>, bundle: Bundle, guid: string)
    requires Tracks(previous, disk, order) && IsHex(guid) && guid != ""
    ensures Stepped(previous, disk, order, Install(bundle, guid))
  {
    hide Touch, NewHistory, ValidRelease, Checked, Tracks, CandidatePath, ReleaseId, FindReusable;
    assert previous.Some? ==> ValidState(previous.value, disk) by { TracksValid(previous, disk, order); }
    if ValidBundle(bundle) {
      var id, path := ReleaseId(bundle.version, bundle.manifestSha256), CandidatePath(bundle, guid);
      if previous.Some? {
        FindReusableMeans(previous.value.All(), bundle);
      }
      if Reuses(previous, bundle) {
        var reused := FindReusable(previous.value.All(), bundle).value;
        Adopt(previous, disk, order, reused);
      } else if path !in disk {
        var tree := Definition(bundle.version, bundle.manifestSha256);
        CandidateValid(bundle, guid, disk);
        TracksSurvives(previous, disk, order, path, tree);
        Adopt(previous, disk[path := tree], order,
              Release(bundle.version, id, bundle.manifestSha256, bundle.archiveSha256, path));
      }
    }
  }

  lemma TracksValid(previous: Option<InstallState>, disk: Disk, order: seq<string>)
    requires Tracks(previous, disk, order)
    ensures previous.Some? ==> ValidState(previous.value, disk)
  {
  }

  lemma CandidateValid(bundle: Bundle, guid: string, disk: Disk)
    requires ValidBundle(bundle) && IsHex(guid) && guid != ""
    ensures var path := CandidatePath(bundle, guid);
            ValidRelease(
              Release(bundle.version, ReleaseId(bundle.version, bundle.manifestSha256),
                      bundle.manifestSha256, bundle.archiveSha256, path),
              disk[path := Definition(bundle.version, bundle.manifestSha256)])
  {
    hide SafePath, Split, IsHex;
    CandidatePathSafe(bundle, guid);
    assert ReleaseId(bundle.version, bundle.manifestSha256)[|bundle.version|] == '-';
  }

  lemma Step(previous: Option<InstallState>, disk: Disk, order: seq<string>, action: Action)
    requires Tracks(previous, disk, order) && UsableSuffix(action)
    ensures Stepped(previous, disk, order, action)
  {
    match action
    case Rollback => StepRollback(previous, disk, order);
    case Install(bundle, guid) => StepInstall(previous, disk, order, bundle, guid);
  }

  /** The fresh suffix is a printed identifier: hexadecimal and not empty. */
  predicate UsableSuffix(action: Action) { action.Install? ==> IsHex(action.guid) && action.guid != "" }

  // ---------------------------------------------------------------- whole runs

  /** The recorded state and the trees after running Setup once for every action. */
  ghost function Run(previous: Option<InstallState>, disk: Disk, actions: seq<Action>): (Option<InstallState>, Disk)
    decreases |actions|
  {
    if actions == [] then (previous, disk)
    else
      var (outcome, after) := Execute(previous, disk, actions[0]);
      Run(if outcome.Success? then Some(outcome.value) else previous, after, actions[1..])
  }

  /** The unbounded order: every committed run touches one id, no entry is ever dropped. */
  ghost function RunOrder(previous: Option<InstallState>, disk: Disk, order: seq<string>, actions: seq<Action>): seq<string>
    decreases |actions|
  {
    if actions == [] then order
    else
      var (outcome, after) := Execute(previous, disk, actions[0]);
      var touched :=
        if !Commits(previous, disk, order, actions[0]) then order else StepOrder(order, actions[0]);
      RunOrder(if outcome.Success? then Some(outcome.value) else previous, after, touched, actions[1..])
  }

  /** Over every run the recorded current release and history are the first seventeen ids of the
      unbounded order, and always pass what the next run demands of them. */
  lemma {:induction false} RunTracks(previous: Option<InstallState>, disk: Disk, order: seq<string>, actions: seq<Action>)
    requires Tracks(previous, disk, order) && forall a :: a in actions ==> UsableSuffix(a)
    ensures var (final, after) := Run(previous, disk, actions);
            Tracks(final, after, RunOrder(previous, disk, order, actions))
    decreases |actions|
  {
    hide Tracks, Execute, Reuses, IsHex, ReleaseId, Touch, CandidatePath;
    if actions != [] {
      Step(previous, disk, order, actions[0]);
      var (outcome, after) := Execute(previous, disk, actions[0]);
      if outcome.Success? {
        RunTracks(Some(outcome.value), after, StepOrder(order, actions[0]), actions[1..]);
      } else {
        RunTracks(previous, after, order, actions[1..]);
      }
    }
  }

  function BundleOf(r: Release): Bundle { Bundle(r.version, r.manifestSha256, r.bundleSha256) }

  /** Rolling back is installing the bundle recorded for the previous release. */
  lemma RollbackIsInstall(st: InstallState, disk: Disk, order: seq<string>, guid: string)
    requires Tracks(Some(st), disk, order) && st.history != []
    ensures Execute(Some(st), disk, Rollback) == Execute(Some(st), disk, Install(BundleOf(st.history[0]), guid))
  {
    hide NewHistory, Checked, SafePath, Split, IsHex, IsBlank, FindReusable, Take;
    RollbackHistory(st);
    assert st.history[0] == st.All()[1] && st.history[0] in st.All();
    FindReusableMeans(st.All(), BundleOf(st.history[0]));
    SameIdSameRelease(st.All(), st.history[0]);
  }

  lemma SameIdSameRelease(releases: seq<Release>, r: Release)
    requires Distinct(Ids(releases)) && r in releases
    ensures forall other :: other in releases && other.releaseId == r.releaseId ==> other == r
  {
    var i :| 0 <= i < |releases| && releases[i] == r;
    forall other | other in releases && other.releaseId == r.releaseId ensures other == r {
      var j :| 0 <= j < |releases| && releases[j] == other;
      assert Ids(releases)[i] == Ids(releases)[j];
    }
  }

  /** A second rollback restores exactly the state before the first. */
  lemma RollbackTwice(st: InstallState, disk: Disk, order: seq<string>)
    requires Tracks(Some(st), disk, order) && st.history != []
    ensures var (once, after) := Execute(Some(st), disk, Rollback);
            once.Success? && Execute(Some(once.value), after, Rollback) == (Success(st), disk)
  {
    hide ValidRelease, NewHistory, Touch, Execute, Take, Distinct, Ids;
    RollbackAdopts(st, disk, order);
    var next := InstallState(st.history[0], NewHistory(Some(st), order[1]));
    RollbackSwaps(st);
    RollbackSwaps(next);
    RollbackAdopts(next, disk, Touch(order, order[1]));
    assert next.history[0] == st.current && next.history[1..] == st.history[1..];
    assert [st.history[0]] + st.history[1..] == st.history;
  }

  /** With no repetition among at most seventeen releases the bound and the filter drop nothing. */
  lemma RollbackSwaps(st: InstallState)
    requires Distinct(Ids(st.All())) && 0 < |st.history| <= MAXIMUM_HISTORY
    ensures NewHistory(Some(st), st.history[0].releaseId) == [st.current] + st.history[1..]
  {
    var kept := [st.current] + st.history[1..];
    RollbackKeeps(st);
    IdsWithout(st.All(), st.history[0].releaseId);
    RemoveDistinct(Ids(st.All()), st.history[0].releaseId);
    DistinctAlready(kept);
  }
}
