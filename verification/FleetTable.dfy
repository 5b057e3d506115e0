/** The live fleet table as a value: what one refresh, one scope change and one
    application of queued ordering do to the displayed rows, the recorded groups,
    the batch selection and the queue. The class in FleetWorkspace.dfy does the same
    in place and is proved against these functions. */
module FleetTable {
  import opened Basics
  import Paths

  datatype DeviceKey = DeviceKey(deviceId: string, identityRevision: nat)

  /** One row of a query result; `facts` stands for every column no rule here reads. */
  datatype Projection = Projection(
    deviceId: string,
    identityRevision: nat,
    model: string,
    freshness: string,
    cohort: Option<string>,
    foregroundApp: Option<string>,
    facts: string)
  {
    function Key(): DeviceKey { DeviceKey(deviceId, identityRevision) }
  }

  /** `wellFormed` carries the field-by-field checks on the header, the summary and each row. */
  datatype QueryResult = QueryResult(rows: seq<Projection>, wellFormed: bool)

  datatype Grouping = Ungrouped | ByCohort | ByModel | ByFreshness | ByApplication

  datatype Table = Table(
    rows: seq<Projection>,
    selection: map<string, nat>,
    groups: map<DeviceKey, string>,
    grouping: Grouping,
    queued: Option<QueryResult>)

  // ---------------------------------------------------------------- row identity

  function Decimal(n: nat): (text: string)
    ensures text != [] && forall c :: c in text ==> '0' <= c <= '9'
  {
    var digit := ['0' + (n % 10) as char];
    if n < 10 then digit else Decimal(n / 10) + digit
  }

  /** The text the console keys its dictionaries by. */
  function StableKey(key: DeviceKey): string {
    key.deviceId + "@" + Decimal(key.identityRevision)
  }

  lemma {:induction false} DecimalInjective(m: nat, n: nat)
    requires Decimal(m) == Decimal(n)
    ensures m == n
  {
    var a, b := Decimal(m), Decimal(n);
    assert a[|a| - 1] == '0' + (m % 10) as char && b[|b| - 1] == '0' + (n % 10) as char;
    assert m % 10 == n % 10;
    assert m < 10 <==> n < 10 by {
      assert m < 10 <==> |a| == 1;
      assert n < 10 <==> |b| == 1;
    }
    if m >= 10 {
      assert Decimal(m / 10) == a[..|a| - 1] == Decimal(n / 10);
      DecimalInjective(m / 10, n / 10);
    }
  }

  lemma LastAtSign(key: DeviceKey)
    ensures forall i :: |key.deviceId| < i < |StableKey(key)| ==> StableKey(key)[i] != '@'
  {
    var text, digits := StableKey(key), Decimal(key.identityRevision);
    forall i | |key.deviceId| < i < |text| ensures text[i] != '@' {
      assert text[i] == digits[i - |key.deviceId| - 1];
      assert text[i] in digits;
    }
  }

  /** A device id may itself contain '@' and digits; the key text still identifies the
      exact (device, revision) pair, so keying by the pair loses nothing. */
  lemma StableKeyInjective(a: DeviceKey, b: DeviceKey)
    requires StableKey(a) == StableKey(b)
    ensures a == b
  {
    var s, t := StableKey(a), StableKey(b);
    var m, n := |a.deviceId|, |b.deviceId|;
    LastAtSign(a);
    LastAtSign(b);
    assert s[m] == '@' && t[n] == '@';
    assert m == n;
    assert s[m + 1..] == Decimal(a.identityRevision) && t[n + 1..] == Decimal(b.identityRevision);
    assert a.deviceId == s[..m] == t[..n] == b.deviceId;
    DecimalInjective(a.identityRevision, b.identityRevision);
  }

  function Keys(rows: seq<Projection>): (keys: seq<DeviceKey>)
    ensures |keys| == |rows|
    ensures forall i :: 0 <= i < |rows| ==> keys[i] == rows[i].Key()
  {
    seq(|rows|, i requires 0 <= i < |rows| => rows[i].Key())
  }

  predicate DistinctKeys(rows: seq<Projection>) {
    forall i, j :: 0 <= i < j < |rows| ==> rows[i].Key() != rows[j].Key()
  }

  ghost predicate DistinctDevices(rows: seq<Projection>) {
    forall i, j :: 0 <= i < j < |rows| ==> rows[i].deviceId != rows[j].deviceId
  }

  predicate Validated(result: QueryResult) {
    result.wellFormed && DistinctKeys(result.rows)
  }

  // ---------------------------------------------------------------- groups

  function GroupValue(row: Projection, grouping: Grouping): string {
    match grouping
    case ByCohort => if row.cohort.Some? then row.cohort.value else "Unassigned"
    case ByModel => row.model
    case ByFreshness => row.freshness
    case ByApplication =>
      if row.foregroundApp.None? || Paths.IsBlank(row.foregroundApp.value)
      then "No participating app" else row.foregroundApp.value
    case Ungrouped => ""
  }

  predicate Blank(text: string) { forall c :: c in text ==> c == ' ' || c == '\t' || c == '\r' || c == '\n' }

  /** The text a row is grouped under, column by column. */
  predicate InColumn(row: Projection, grouping: Grouping, text: string) {
    && (grouping.ByModel? ==> text == row.model)
    && (grouping.ByFreshness? ==> text == row.freshness)
    && (grouping.ByCohort? ==> row.cohort == Some(text) || (row.cohort.None? && text == "Unassigned"))
    && (grouping.ByApplication? ==>
          if row.foregroundApp.Some? && !Blank(row.foregroundApp.value)
          then text == row.foregroundApp.value else text == "No participating app")
    && (grouping.Ungrouped? ==> text == "")
  }

  lemma GroupValueMeans(row: Projection, grouping: Grouping, text: string)
    ensures InColumn(row, grouping, text) <==> text == GroupValue(row, grouping)
  {
    if row.foregroundApp.Some? {
      BlankMeans(row.foregroundApp.value);
    }
  }

  lemma BlankMeans(text: string)
    ensures Blank(text) <==> Paths.IsBlank(text)
  {
    if Blank(text) {
      forall i | 0 <= i < |text| ensures text[i] in {' ', '\t', '\r', '\n'} {
        assert text[i] in text;
      }
    }
  }

  /** The rows whose value differs in the column of the grouping. */
  ghost function Regrouped(shown: seq<Projection>, incoming: seq<Projection>, grouping: Grouping): set<nat>
    requires |shown| == |incoming|
  {
    match grouping
    case ByModel => set i | 0 <= i < |shown| && shown[i].model != incoming[i].model
    case ByFreshness => set i | 0 <= i < |shown| && shown[i].freshness != incoming[i].freshness
    case ByCohort => set i | 0 <= i < |shown| && OrElse(shown[i].cohort, "Unassigned") != OrElse(incoming[i].cohort, "Unassigned")
    case ByApplication =>
      set i | 0 <= i < |shown| && AppText(shown[i].foregroundApp) != AppText(incoming[i].foregroundApp)
    case Ungrouped => {}
  }

  function OrElse(o: Option<string>, other: string): string { if o.Some? then o.value else other }

  function AppText(app: Option<string>): string {
    if Blank(OrElse(app, "")) then "No participating app" else OrElse(app, "")
  }

  lemma RegroupedMeans(shown: seq<Projection>, incoming: seq<Projection>, grouping: Grouping)
    requires |shown| == |incoming|
    ensures Regrouped(shown, incoming, grouping) ==
            set i | 0 <= i < |shown| && GroupValue(shown[i], grouping) != GroupValue(incoming[i], grouping)
  {
    forall row: Projection ensures AppText(row.foregroundApp) == GroupValue(row, ByApplication) {
      GroupValueMeans(row, ByApplication, AppText(row.foregroundApp));
    }
  }

  ghost function GroupsOf(rows: seq<Projection>, grouping: Grouping): (groups: map<DeviceKey, string>)
    requires DistinctKeys(rows)
    ensures forall k :: k in groups <==> k in Keys(rows)
    ensures forall i :: 0 <= i < |rows| ==> groups[rows[i].Key()] == GroupValue(rows[i], grouping)
  {
    if rows == [] then map[]
    else
      var n := |rows| - 1;
      assert Keys(rows) == Keys(rows[..n]) + [rows[n].Key()];
      assert forall i :: 0 <= i < n ==> rows[..n][i] == rows[i];
      GroupsOf(rows[..n], grouping)[rows[n].Key() := GroupValue(rows[n], grouping)]
  }

  lemma GroupsOfStep(rows: seq<Projection>, grouping: Grouping, n: nat)
    requires n < |rows| && DistinctKeys(rows)
    ensures DistinctKeys(rows[..n]) && DistinctKeys(rows[..n + 1])
    ensures GroupsOf(rows[..n + 1], grouping) ==
            GroupsOf(rows[..n], grouping)[rows[n].Key() := GroupValue(rows[n], grouping)]
  {
    assert rows[..n + 1][..n] == rows[..n];
  }

  // ---------------------------------------------------------------- batch selection

  /** Some incoming row names the selected device under another revision. */
  ghost predicate Invalidated(device: string, revision: nat, incoming: seq<Projection>) {
    exists i :: 0 <= i < |incoming| && incoming[i].deviceId == device && incoming[i].identityRevision != revision
  }

  ghost function Surviving(selection: map<string, nat>, incoming: seq<Projection>): map<string, nat> {
    map d | d in selection && !Invalidated(d, selection[d], incoming) :: selection[d]
  }

  /** What one incoming row leaves of the selection. */
  function DropOtherRevision(selection: map<string, nat>, p: Projection): (kept: map<string, nat>)
  {
    if p.deviceId in selection && selection[p.deviceId] != p.identityRevision
    then selection - {p.deviceId} else selection
  }

  lemma SurvivingNone(selection: map<string, nat>)
    ensures Surviving(selection, []) == selection
  {
  }

  lemma SurvivingStep(selection: map<string, nat>, incoming: seq<Projection>, n: nat)
    requires n < |incoming|
    ensures Surviving(selection, incoming[..n + 1]) ==
            DropOtherRevision(Surviving(selection, incoming[..n]), incoming[n])
  {
    var p := incoming[n];
    forall d | d in selection
      ensures Invalidated(d, selection[d], incoming[..n + 1]) <==>
              Invalidated(d, selection[d], incoming[..n]) ||
              (p.deviceId == d && p.identityRevision != selection[d])
    {
      assert incoming[..n + 1] == incoming[..n] + [p];
      if p.deviceId == d && p.identityRevision != selection[d] {
        assert incoming[..n + 1][n] == p;
      }
      if Invalidated(d, selection[d], incoming[..n]) {
        var i :| 0 <= i < n && incoming[..n][i].deviceId == d && incoming[..n][i].identityRevision != selection[d];
        assert incoming[..n + 1][i] == incoming[..n][i];
      }
    }
  }

  // ---------------------------------------------------------------- ordering changes

  /** The displayed row at `i` is where and under what group the incoming result puts it. */
  ghost predicate InPlace(
    rows: seq<Projection>, groups: map<DeviceKey, string>, grouping: Grouping,
    incoming: seq<Projection>, i: nat)
    requires i < |rows|
  {
    var key := rows[i].Key();
    && i < |incoming| && incoming[i].Key() == key
    && key in groups && groups[key] == GroupValue(incoming[i], grouping)
  }

  /** Keys among the first `n` displayed rows that leave, move or change group. */
  ghost function Misplaced(
    rows: seq<Projection>, groups: map<DeviceKey, string>, grouping: Grouping, incoming: seq<Projection>, n: nat)
    : set<DeviceKey>
    requires n <= |rows|
  {
    set i | 0 <= i < n && !InPlace(rows, groups, grouping, incoming, i) :: rows[i].Key()
  }

  lemma MisplacedStep(
    rows: seq<Projection>, groups: map<DeviceKey, string>, grouping: Grouping, incoming: seq<Projection>, n: nat)
    requires n < |rows|
    ensures Misplaced(rows, groups, grouping, incoming, n + 1) ==
            Misplaced(rows, groups, grouping, incoming, n) +
            if InPlace(rows, groups, grouping, incoming, n) then {} else {rows[n].Key()}
  {
  }

  ghost function Affected(
    rows: seq<Projection>, groups: map<DeviceKey, string>, grouping: Grouping, incoming: seq<Projection>)
    : set<DeviceKey>
  {
    Misplaced(rows, groups, grouping, incoming, |rows|) +
    (set i | 0 <= i < |incoming| && incoming[i].Key() !in Keys(rows) :: incoming[i].Key())
  }

  lemma AffectedParts(
    rows: seq<Projection>, groups: map<DeviceKey, string>, grouping: Grouping, incoming: seq<Projection>)
    ensures Affected(rows, groups, grouping, incoming) ==
            Misplaced(rows, groups, grouping, incoming, |rows|) +
            (set i | 0 <= i < |incoming| && incoming[i].Key() !in Keys(rows) :: incoming[i].Key())
  {
  }

  /** The displayed order and the recorded groups are exactly those of the result. */
  ghost predicate OrderCurrent(
    rows: seq<Projection>, groups: map<DeviceKey, string>, grouping: Grouping, incoming: seq<Projection>)
  {
    && Keys(rows) == Keys(incoming)
    && forall i :: 0 <= i < |incoming| ==>
         var key := incoming[i].Key();
         key in groups && groups[key] == GroupValue(incoming[i], grouping)
  }

  lemma NoSurplus(
    rows: seq<Projection>, groups: map<DeviceKey, string>, grouping: Grouping, incoming: seq<Projection>)
    requires DistinctKeys(incoming)
    requires forall i :: 0 <= i < |rows| ==> InPlace(rows, groups, grouping, incoming, i)
    requires forall i :: 0 <= i < |incoming| ==> incoming[i].Key() in Keys(rows)
    ensures |incoming| <= |rows|
  {
    var n := |rows|;
    forall i | 0 <= i < n ensures n < |incoming| ==> Keys(rows)[i] != incoming[n].Key() {
      assert InPlace(rows, groups, grouping, incoming, i);
    }
    assert n < |incoming| ==> incoming[n].Key() in Keys(rows);
  }

  lemma AffectedRow(
    rows: seq<Projection>, groups: map<DeviceKey, string>, grouping: Grouping, incoming: seq<Projection>, i: int)
    requires 0 <= i < |rows| && !InPlace(rows, groups, grouping, incoming, i)
    ensures rows[i].Key() in Affected(rows, groups, grouping, incoming)
  {
  }

  lemma AffectedArrival(
    rows: seq<Projection>, groups: map<DeviceKey, string>, grouping: Grouping, incoming: seq<Projection>, i: int)
    requires 0 <= i < |incoming| && incoming[i].Key() !in Keys(rows)
    ensures incoming[i].Key() in Affected(rows, groups, grouping, incoming)
  {
  }

  /** Nothing is queued exactly when the key sequence and every recorded group coincide. */
  lemma NoOrderingChangeIff(
    rows: seq<Projection>, groups: map<DeviceKey, string>, grouping: Grouping, incoming: seq<Projection>)
    requires DistinctKeys(incoming)
    ensures |Affected(rows, groups, grouping, incoming)| == 0 <==>
            OrderCurrent(rows, groups, grouping, incoming)
  {
    var affected := Affected(rows, groups, grouping, incoming);
    if affected == {} {
      forall i | 0 <= i < |rows| ensures InPlace(rows, groups, grouping, incoming, i) {
        if !InPlace(rows, groups, grouping, incoming, i) {
          AffectedRow(rows, groups, grouping, incoming, i);
        }
      }
      forall i | 0 <= i < |incoming| ensures incoming[i].Key() in Keys(rows) {
        if incoming[i].Key() !in Keys(rows) {
          AffectedArrival(rows, groups, grouping, incoming, i);
        }
      }
      assert |incoming| <= |rows| by { NoSurplus(rows, groups, grouping, incoming); }
      assert |rows| <= |incoming| by { assert |rows| > 0 ==> InPlace(rows, groups, grouping, incoming, |rows| - 1); }
      forall i | 0 <= i < |incoming|
        ensures Keys(rows)[i] == incoming[i].Key()
        ensures incoming[i].Key() in groups && groups[incoming[i].Key()] == GroupValue(incoming[i], grouping)
      {
        assert InPlace(rows, groups, grouping, incoming, i);
      }
      assert Keys(rows) == Keys(incoming);
    }
    if OrderCurrent(rows, groups, grouping, incoming) {
      forall i | 0 <= i < |rows| ensures InPlace(rows, groups, grouping, incoming, i) {
        assert Keys(rows)[i] == Keys(incoming)[i];
      }
      forall i | 0 <= i < |incoming| ensures incoming[i].Key() in Keys(rows) {
        assert Keys(rows)[i] == Keys(incoming)[i];
      }
      assert affected == {};
    }
  }

  /** A key counts as unaffected exactly when it is displayed where the result names it, under the
      group text that was recorded for it. */
  lemma AffectedMeans(
    rows: seq<Projection>, groups: map<DeviceKey, string>, grouping: Grouping, incoming: seq<Projection>, key: DeviceKey)
    requires DistinctKeys(rows) && DistinctKeys(incoming)
    ensures key in Affected(rows, groups, grouping, incoming) <==>
            && (key in Keys(rows) || key in Keys(incoming))
            && !exists i :: 0 <= i < |rows| && i < |incoming| && rows[i].Key() == key == incoming[i].Key() &&
                            key in groups && InColumn(incoming[i], grouping, groups[key])
  {
    hide GroupValue, InColumn;
    forall i | 0 <= i < |incoming| && key in groups
      ensures InColumn(incoming[i], grouping, groups[key]) <==> groups[key] == GroupValue(incoming[i], grouping)
    {
      GroupValueMeans(incoming[i], grouping, groups[key]);
    }
    if i :| 0 <= i < |rows| && rows[i].Key() == key {
      assert Keys(rows)[i] == key;
      assert key in Affected(rows, groups, grouping, incoming) <==> !InPlace(rows, groups, grouping, incoming, i);
    } else {
      assert key in Affected(rows, groups, grouping, incoming) <==> key in Keys(incoming);
    }
  }

  /** In an unchanged order, with groups just recorded, what counts is the rows whose value in the
      grouped column changes. */
  lemma RegroupedCount(shown: seq<Projection>, incoming: seq<Projection>, grouping: Grouping)
    requires DistinctKeys(shown) && Keys(shown) == Keys(incoming)
    ensures |shown| == |incoming|
    ensures |Affected(shown, GroupsOf(shown, grouping), grouping, incoming)| == |Regrouped(shown, incoming, grouping)|
  {
    assert |shown| == |Keys(shown)| == |incoming|;
    var groups, moved := GroupsOf(shown, grouping), Regrouped(shown, incoming, grouping);
    RegroupedMeans(shown, incoming, grouping);
    hide GroupValue, Regrouped, GroupsOf;
    forall i | 0 <= i < |shown| ensures InPlace(shown, groups, grouping, incoming, i) <==> i !in moved {
      assert Keys(shown)[i] == Keys(incoming)[i] == shown[i].Key() == incoming[i].Key();
    }
    forall i | 0 <= i < |incoming| ensures incoming[i].Key() in Keys(shown) {
      assert Keys(incoming)[i] == incoming[i].Key();
    }
    assert Affected(shown, groups, grouping, incoming) == KeysAt(shown, moved);
    KeysCount(shown, moved);
  }

  /** What a count says that is taken right after recording groups, in an unchanged order. */
  ghost predicate CountsColumn(
    shown: seq<Projection>, groups: map<DeviceKey, string>, grouping: Grouping, incoming: seq<Projection>, count: nat)
    requires DistinctKeys(shown)
  {
    groups == GroupsOf(shown, grouping) && Keys(shown) == Keys(incoming) ==>
      |shown| == |incoming| && count == |Regrouped(shown, incoming, grouping)|
  }

  ghost function KeysAt(rows: seq<Projection>, places: set<nat>): set<DeviceKey>
    requires forall i :: i in places ==> i < |rows|
  {
    set i | i in places :: rows[i].Key()
  }

  lemma KeysAtMore(rows: seq<Projection>, rest: set<nat>, i: nat)
    requires DistinctKeys(rows) && i < |rows| && i !in rest && forall j :: j in rest ==> j < |rows|
    ensures KeysAt(rows, rest + {i}) == KeysAt(rows, rest) + {rows[i].Key()} && rows[i].Key() !in KeysAt(rows, rest)
  {
  }

  lemma {:induction false} KeysCount(rows: seq<Projection>, places: set<nat>)
    requires DistinctKeys(rows) && forall i :: i in places ==> i < |rows|
    ensures |KeysAt(rows, places)| == |places|
    decreases |places|
  {
    if places != {} {
      var i :| i in places;
      var rest := places - {i};
      KeysCount(rows, rest);
      KeysAtMore(rows, rest, i);
      assert rest + {i} == places;
      hide KeysAt;
    }
  }

  // ---------------------------------------------------------------- the steps

  ghost predicate HasKey(rows: seq<Projection>, key: DeviceKey) {
    exists i :: 0 <= i < |rows| && rows[i].Key() == key
  }

  ghost function Lookup(rows: seq<Projection>, key: DeviceKey): (p: Projection)
    requires HasKey(rows, key)
    ensures p in rows && p.Key() == key
  {
    var i :| 0 <= i < |rows| && rows[i].Key() == key;
    rows[i]
  }

  /** Shared rows take their new values where they stand; nothing moves, appears or leaves. */
  ghost function RefreshShared(rows: seq<Projection>, incoming: seq<Projection>): (out: seq<Projection>)
    ensures |out| == |rows|
    ensures Keys(out) == Keys(rows)
  {
    seq(|rows|, i requires 0 <= i < |rows| =>
      if HasKey(incoming, rows[i].Key()) then Lookup(incoming, rows[i].Key()) else rows[i])
  }

  lemma LookupUnique(rows: seq<Projection>, i: nat)
    requires i < |rows| && DistinctKeys(rows)
    ensures HasKey(rows, rows[i].Key()) && Lookup(rows, rows[i].Key()) == rows[i]
  {
    assert HasKey(rows, rows[i].Key());
  }

  lemma RefreshSharedNone(rows: seq<Projection>)
    ensures RefreshShared(rows, []) == rows
  {
    assert forall key :: !HasKey([], key);
  }

  /** One more incoming row refreshes exactly the displayed rows that carry its key. */
  lemma RefreshSharedStep(rows: seq<Projection>, incoming: seq<Projection>, n: nat)
    requires n < |incoming| && DistinctKeys(incoming)
    ensures forall i :: 0 <= i < |rows| ==>
      RefreshShared(rows, incoming[..n + 1])[i] ==
      if rows[i].Key() == incoming[n].Key() then incoming[n] else RefreshShared(rows, incoming[..n])[i]
  {
    var a, b := incoming[..n], incoming[..n + 1];
    forall i | 0 <= i < |rows|
      ensures RefreshShared(rows, b)[i] ==
        if rows[i].Key() == incoming[n].Key() then incoming[n] else RefreshShared(rows, a)[i]
    {
      var key := rows[i].Key();
      if key == incoming[n].Key() {
        LookupUnique(b, n);
      } else if HasKey(a, key) {
        var j :| 0 <= j < |a| && a[j].Key() == key;
        assert b[j] == a[j];
        LookupUnique(a, j);
        LookupUnique(b, j);
      } else {
        assert forall j :: 0 <= j < n ==> b[j] == a[j];
        assert !HasKey(b, key);
      }
    }
  }

  ghost function ApplyDirect(t: Table, result: QueryResult): Table {
    t.(rows := result.rows, selection := Surviving(t.selection, result.rows), queued := None)
  }

  ghost function ApplyPreserving(t: Table, result: QueryResult): Table {
    t.(rows := RefreshShared(t.rows, result.rows),
       selection := Surviving(t.selection, result.rows),
       queued := if |Affected(t.rows, t.groups, t.grouping, result.rows)| > 0 then Some(result) else None)
  }

  ghost function ApplyResult(t: Table, result: QueryResult, preserve: bool): (u: Table)
    ensures u.grouping == t.grouping && u.groups == t.groups
  {
    if preserve then ApplyPreserving(t, result) else ApplyDirect(t, result)
  }

  /** Applied directly or in place, a result keeps exactly the selections it does not contradict: no
      row names the device under another revision. */
  lemma AppliedSelection(t: Table, result: QueryResult, preserve: bool, device: string)
    ensures var u := ApplyResult(t, result, preserve);
            && (device in u.selection <==>
                  && device in t.selection
                  && forall row :: row in result.rows && row.deviceId == device ==>
                       row.identityRevision == t.selection[device])
            && (device in u.selection ==> u.selection[device] == t.selection[device])
  {
  }

  ghost function Regroup(t: Table, grouping: Grouping): Table
    requires DistinctKeys(t.rows)
  {
    t.(grouping := grouping, groups := GroupsOf(t.rows, grouping))
  }

  /** A background refresh: ordering is preserved unless nothing is displayed yet. */
  ghost function Refresh(t: Table, result: QueryResult): (u: Table)
    requires Validated(result) && DistinctKeys(t.rows)
    ensures DistinctKeys(u.rows)
  {
    if t.rows != [] then
      KeysDecideDistinct(t.rows, RefreshShared(t.rows, result.rows));
      ApplyPreserving(t, result)
    else Regroup(ApplyDirect(t, result), t.grouping)
  }

  ghost function ApplyScope(t: Table, result: QueryResult, grouping: Grouping): Table
    requires Validated(result)
  {
    Regroup(ApplyDirect(t, result), grouping)
  }

  ghost function ApplyQueued(t: Table): Table
    requires t.queued.Some? ==> Validated(t.queued.value)
  {
    if t.queued.None? then t
    else Regroup(ApplyDirect(t, t.queued.value), t.grouping)
  }

  /** What loading one validated result does: an accepted editor scope brings its own grouping,
      a preserving refresh keeps the recorded groups, anything else records them afresh. */
  ghost function Load(t: Table, result: QueryResult, editorGrouping: Option<Grouping>, preserve: bool): (u: Table)
    requires Validated(result) && DistinctKeys(t.rows)
  {
    var kept := preserve && t.rows != [];
    var applied := ApplyResult(t, result, kept);
    KeysDecideDistinct(t.rows, RefreshShared(t.rows, result.rows));
    if editorGrouping.Some? then Regroup(applied, editorGrouping.value)
    else if kept then applied
    else Regroup(applied, t.grouping)
  }

  lemma KeysDecideDistinct(a: seq<Projection>, b: seq<Projection>)
    requires Keys(a) == Keys(b) && DistinctKeys(a)
    ensures DistinctKeys(b)
  {
    forall i, j | 0 <= i < j < |b| ensures b[i].Key() != b[j].Key() {
      assert Keys(a)[i] == Keys(b)[i] && Keys(a)[j] == Keys(b)[j];
    }
  }

  // ---------------------------------------------------------------- agreement over runs

  /** `last` holds the rows of the result accepted most recently. Either the table shows it
      exactly, with its groups, or the queue holds exactly it. */
  ghost predicate Agrees(t: Table, last: seq<Projection>) {
    && DistinctKeys(t.rows)
    && DistinctKeys(last)
    && (forall k :: k in t.groups <==> k in Keys(t.rows))
    && (t.queued.None? ==> t.rows == last && t.groups == GroupsOf(last, t.grouping))
    && (t.queued.Some? ==> t.queued.value.rows == last && Validated(t.queued.value))
  }

  lemma RefreshSharedCurrent(rows: seq<Projection>, incoming: seq<Projection>)
    requires DistinctKeys(incoming) && Keys(rows) == Keys(incoming)
    ensures RefreshShared(rows, incoming) == incoming
  {
    var out := RefreshShared(rows, incoming);
    assert |rows| == |Keys(rows)| == |incoming|;
    forall i | 0 <= i < |rows| ensures out[i] == incoming[i] {
      assert Keys(rows)[i] == Keys(incoming)[i];
      assert incoming[i].Key() == rows[i].Key();
      assert HasKey(incoming, rows[i].Key());
    }
  }

  lemma RefreshAgrees(t: Table, last: seq<Projection>, result: QueryResult)
    requires Agrees(t, last) && Validated(result)
    ensures Agrees(Refresh(t, result), result.rows)
    ensures t.rows != [] ==> Keys(Refresh(t, result).rows) == Keys(t.rows)
  {
    var u := Refresh(t, result);
    if t.rows != [] && u.queued.None? {
      NoOrderingChangeIff(t.rows, t.groups, t.grouping, result.rows);
      RefreshSharedCurrent(t.rows, result.rows);
      if t.queued.None? {
        assert Keys(last) == Keys(result.rows);
      }
      GroupsCurrent(t, last, result.rows);
    }
  }

  /** With nothing out of order, the recorded groups are already those of the incoming rows. */
  lemma GroupsCurrent(t: Table, last: seq<Projection>, incoming: seq<Projection>)
    requires Agrees(t, last) && DistinctKeys(incoming)
    requires OrderCurrent(t.rows, t.groups, t.grouping, incoming)
    ensures t.groups == GroupsOf(incoming, t.grouping)
  {
    var groups := GroupsOf(incoming, t.grouping);
    forall k | k in groups ensures k in t.groups && t.groups[k] == groups[k] {
      var i :| 0 <= i < |incoming| && Keys(incoming)[i] == k;
      assert incoming[i].Key() == k;
    }
  }

  ghost function RefreshAll(t: Table, results: seq<QueryResult>): (u: Table)
    requires DistinctKeys(t.rows) && forall r :: r in results ==> Validated(r)
    ensures DistinctKeys(u.rows)
  {
    if results == [] then t
    else Refresh(RefreshAll(t, results[..|results| - 1]), results[|results| - 1])
  }

  lemma {:induction false} RefreshAllAgrees(t: Table, last: seq<Projection>, results: seq<QueryResult>)
    requires Agrees(t, last) && forall r :: r in results ==> Validated(r)
    ensures Agrees(RefreshAll(t, results), if results == [] then last else results[|results| - 1].rows)
    ensures RefreshAll(t, results).grouping == t.grouping
  {
    if results != [] {
      var n := |results| - 1;
      RefreshAllAgrees(t, last, results[..n]);
      RefreshAgrees(
        RefreshAll(t, results[..n]), if n == 0 then last else results[n - 1].rows, results[n]);
    }
  }

  /** Any run of background refreshes, however it was queued along the way, followed by one
      application of the queue, shows what applying the last result directly would show. */
  lemma {:induction false} QueuedOrderingIsDirectOrdering(t: Table, last: seq<Projection>, results: seq<QueryResult>)
    requires Agrees(t, last) && results != [] && forall r :: r in results ==> Validated(r)
    ensures Agrees(RefreshAll(t, results), results[|results| - 1].rows)
    ensures var applied := ApplyQueued(RefreshAll(t, results));
            var direct := Regroup(ApplyDirect(t, results[|results| - 1]), t.grouping);
            applied.rows == direct.rows && applied.groups == direct.groups && applied.queued == direct.queued
  {
    RefreshAllAgrees(t, last, results);
  }

  // ---------------------------------------------------------------- every command

  /** `response` is what the Hub answered; None stands for a request that failed. */
  datatype Command =
    | BackgroundRefresh(response: Option<QueryResult>)
    | ScopeChange(response: Option<QueryResult>, scopeGrouping: Grouping)
    | SavedView(response: Option<QueryResult>, viewGrouping: Grouping)
    | ApplyOrdering
    | SetFlag(index: nat, selected: bool)
    | SelectAll
    | ClearSelection

  lemma SelectRowsStep(selection: map<string, nat>, rows: seq<Projection>)
    ensures SelectRows(selection, rows[..0]) == selection
    ensures forall n :: 0 <= n < |rows| ==>
      SelectRows(selection, rows[..n + 1]) == SelectRow(SelectRows(selection, rows[..n]), rows[n], true)
  {
    forall n | 0 <= n < |rows|
      ensures SelectRows(selection, rows[..n + 1]) == SelectRow(SelectRows(selection, rows[..n]), rows[n], true)
    {
      assert rows[..n + 1][..n] == rows[..n];
    }
  }

  ghost predicate Sound(t: Table) {
    DistinctKeys(t.rows) && (t.queued.Some? ==> Validated(t.queued.value))
  }

  ghost predicate Accepted(response: Option<QueryResult>) {
    response.Some? && Validated(response.value)
  }

  function SelectRow(selection: map<string, nat>, row: Projection, selected: bool): map<string, nat> {
    if selected then selection[row.deviceId := row.identityRevision]
    else if row.deviceId in selection && selection[row.deviceId] == row.identityRevision
    then selection - {row.deviceId}
    else selection
  }

  function SelectRows(selection: map<string, nat>, rows: seq<Projection>): map<string, nat> {
    if rows == [] then selection
    else SelectRow(SelectRows(selection, rows[..|rows| - 1]), rows[|rows| - 1], true)
  }

  /** Raising every flag runs the handler for the rows that carried none. */
  function SelectNew(selection: map<string, nat>, rows: seq<Projection>, flags: seq<bool>): map<string, nat>
    requires |flags| == |rows|
  {
    if rows == [] then selection
    else
      var n := |rows| - 1;
      var before := SelectNew(selection, rows[..n], flags[..n]);
      if flags[n] then before else SelectRow(before, rows[n], true)
  }

  lemma {:induction false} SelectNewUnflagged(selection: map<string, nat>, rows: seq<Projection>, flags: seq<bool>)
    requires |flags| == |rows| && forall i :: 0 <= i < |flags| ==> !flags[i]
    ensures SelectNew(selection, rows, flags) == SelectRows(selection, rows)
  {
    if rows != [] {
      SelectNewUnflagged(selection, rows[..|rows| - 1], flags[..|rows| - 1]);
    }
  }

  /** With distinct devices, a row that was already flagged and selected needs no handler. */
  lemma {:induction false} SelectNewAgreed(selection: map<string, nat>, rows: seq<Projection>, flags: seq<bool>)
    requires |flags| == |rows| && DistinctDevices(rows)
    requires forall i :: 0 <= i < |rows| ==> (flags[i] <==> Flagged(selection, rows[i]))
    ensures SelectNew(selection, rows, flags) == SelectRows(selection, rows)
    ensures forall d :: d !in DevicesOf(rows) ==>
      (d in SelectRows(selection, rows) <==> d in selection) &&
      (d in selection ==> SelectRows(selection, rows)[d] == selection[d])
  {
    if rows != [] {
      var n := |rows| - 1;
      SelectNewAgreed(selection, rows[..n], flags[..n]);
      assert forall i :: 0 <= i < n ==> rows[..n][i] == rows[i];
      assert rows[n].deviceId !in DevicesOf(rows[..n]);
      assert DevicesOf(rows) == DevicesOf(rows[..n]) + {rows[n].deviceId};
    }
  }

  ghost function DevicesOf(rows: seq<Projection>): set<string> { set i | 0 <= i < |rows| :: rows[i].deviceId }

  lemma SelectNewStep(selection: map<string, nat>, rows: seq<Projection>, flags: seq<bool>, n: nat)
    requires |flags| == |rows| && n < |rows|
    ensures SelectNew(selection, rows[..n + 1], flags[..n + 1]) ==
            var before := SelectNew(selection, rows[..n], flags[..n]);
            if flags[n] then before else SelectRow(before, rows[n], true)
  {
    assert rows[..n + 1][..n] == rows[..n] && flags[..n + 1][..n] == flags[..n];
  }

  ghost function Step(t: Table, command: Command): (u: Table)
    requires Sound(t)
  {
    match command
    case BackgroundRefresh(response) => if Accepted(response) then Refresh(t, response.value) else t
    case ScopeChange(response, grouping) =>
      if Accepted(response) then ApplyScope(t, response.value, grouping) else t
    case SavedView(response, grouping) =>
      if Accepted(response) then ApplyScope(t, response.value, grouping) else Regroup(t, grouping)
    case ApplyOrdering => ApplyQueued(t)
    case SetFlag(i, selected) =>
      if i < |t.rows| then t.(selection := SelectRow(t.selection, t.rows[i], selected)) else t
    case SelectAll => t.(selection := SelectRows(t.selection, t.rows))
    case ClearSelection => t.(selection := map[])
  }

  /** What the selection commands leave of any one device: a raised flag selects the row's revision, a
      lowered one drops the device only from that revision, everything else stays. */
  lemma FlagSelects(t: Table, i: nat, selected: bool, device: string)
    requires Sound(t) && i < |t.rows|
    ensures var u, row := Step(t, SetFlag(i, selected)), t.rows[i];
            && u == t.(selection := u.selection)
            && (device != row.deviceId ==> Entry(u.selection, device) == Entry(t.selection, device))
            && Entry(u.selection, row.deviceId) ==
               (if selected then Some(row.identityRevision)
                else if Entry(t.selection, row.deviceId) == Some(row.identityRevision) then None
                else Entry(t.selection, row.deviceId))
  {
  }

  function Entry(selection: map<string, nat>, device: string): Option<nat> {
    if device in selection then Some(selection[device]) else None
  }

  /** Selecting all adds every displayed device and drops nothing; clearing drops everything. */
  lemma AllSelects(t: Table, device: string)
    requires Sound(t)
    ensures Step(t, ClearSelection).selection == map[]
    ensures var u := Step(t, SelectAll);
            && (device in u.selection <==> device in t.selection || exists row :: row in t.rows && row.deviceId == device)
            && ((forall row :: row in t.rows ==> row.deviceId != device) ==>
                  Entry(u.selection, device) == Entry(t.selection, device))
            && (Entry(u.selection, device) != Entry(t.selection, device) ==>
                  exists row :: row in t.rows && row.deviceId == device &&
                                Entry(u.selection, device) == Some(row.identityRevision))
  {
    SelectRowsMeans(t.selection, t.rows, device);
  }

  lemma {:induction false} SelectRowsMeans(selection: map<string, nat>, rows: seq<Projection>, device: string)
    ensures var after := SelectRows(selection, rows);
            && ((forall row :: row in rows ==> row.deviceId != device) ==> Entry(after, device) == Entry(selection, device))
            && ((exists row :: row in rows && row.deviceId == device) ==>
                  exists row :: row in rows && row.deviceId == device && Entry(after, device) == Some(row.identityRevision))
  {
    if rows != [] {
      var n := |rows| - 1;
      SelectRowsMeans(selection, rows[..n], device);
      assert rows == rows[..n] + [rows[n]];
      assert rows[n] in rows && forall row :: row in rows[..n] ==> row in rows;
    }
  }

  /** What is displayed and queued, whatever is selected. */
  function Shown(t: Table): Table { t.(selection := map[]) }

  /** The selection decides nothing of what is displayed, grouped and queued. */
  lemma StepShown(t: Table, u: Table, command: Command)
    requires Sound(t) && Sound(u) && Shown(t) == Shown(u)
    ensures Shown(Step(t, command)) == Shown(Step(u, command))
  {
  }

  /** Applying a saved view records its grouping before and after the load. */
  lemma SavedViewLoads(t: Table, response: Option<QueryResult>, grouping: Grouping)
    requires Sound(t)
    ensures var named := t.(grouping := grouping);
            var loaded := if Accepted(response) then Load(named, response.value, None, false) else named;
            DistinctKeys(loaded.rows) && Regroup(loaded, grouping) == Step(t, SavedView(response, grouping))
  {
  }

  lemma PreservingApplies(t: Table, result: QueryResult, count: nat)
    requires count == |Affected(t.rows, t.groups, t.grouping, result.rows)|
    ensures ApplyResult(t, result, true) ==
            t.(rows := RefreshShared(t.rows, result.rows),
               selection := Surviving(t.selection, result.rows),
               queued := if count > 0 then Some(result) else None)
  {
    hide Affected, RefreshShared, Surviving;
  }

  lemma QueuedApplies(t: Table)
    requires t.queued.Some? && Validated(t.queued.value)
    ensures ApplyQueued(t) == Regroup(ApplyResult(t, t.queued.value, false), t.grouping)
  {
  }

  /** A background refresh keeps the displayed order, if there is one to keep. */
  lemma BackgroundLoads(t: Table, response: Option<QueryResult>)
    requires Sound(t)
    ensures Step(t, BackgroundRefresh(response)) ==
            if Accepted(response) then Load(t, response.value, None, true) else t
  {
  }

  lemma ScopeLoads(t: Table, response: Option<QueryResult>, grouping: Grouping)
    requires Sound(t)
    ensures Step(t, ScopeChange(response, grouping)) ==
            if Accepted(response) then Load(t, response.value, Some(grouping), false) else t
  {
  }

  ghost function LastRows(last: seq<Projection>, command: Command): seq<Projection> {
    if (command.BackgroundRefresh? || command.ScopeChange? || command.SavedView?) && Accepted(command.response)
    then command.response.value.rows else last
  }

  lemma StepAgrees(t: Table, last: seq<Projection>, command: Command)
    requires Agrees(t, last)
    ensures Agrees(Step(t, command), LastRows(last, command))
  {
    if command.BackgroundRefresh? && Accepted(command.response) {
      RefreshAgrees(t, last, command.response.value);
    }
  }

  lemma StepSound(t: Table, command: Command)
    requires Sound(t)
    ensures Sound(Step(t, command))
  {
    if command.BackgroundRefresh? && Accepted(command.response) && t.rows != [] {
      KeysDecideDistinct(t.rows, RefreshShared(t.rows, command.response.value.rows));
    }
  }

  ghost function Run(t: Table, commands: seq<Command>): (u: Table)
    requires Sound(t)
    ensures Sound(u)
  {
    if commands == [] then t
    else
      var n := |commands| - 1;
      StepSound(Run(t, commands[..n]), commands[n]);
      Step(Run(t, commands[..n]), commands[n])
  }

  ghost function LastRowsOf(last: seq<Projection>, commands: seq<Command>): seq<Projection> {
    if commands == [] then last
    else LastRows(LastRowsOf(last, commands[..|commands| - 1]), commands[|commands| - 1])
  }

  /** In every reachable state the table shows the last accepted result exactly, in order,
      in values and in groups, or the queue holds exactly that result. */
  lemma {:induction false} RunAgrees(t: Table, last: seq<Projection>, commands: seq<Command>)
    requires Agrees(t, last)
    ensures Agrees(Run(t, commands), LastRowsOf(last, commands))
  {
    if commands != [] {
      var n := |commands| - 1;
      RunAgrees(t, last, commands[..n]);
      StepAgrees(Run(t, commands[..n]), LastRowsOf(last, commands[..n]), commands[n]);
    }
  }

  const EMPTY := Table([], map[], map[], Ungrouped, None)

  /** The same for every run of the console, which starts with an empty table. */
  lemma ReachableAgrees(commands: seq<Command>)
    ensures Agrees(Run(EMPTY, commands), LastRowsOf([], commands))
  {
    RunAgrees(EMPTY, [], commands);
  }

  /** The console never shows, and never queues, two revisions of one device. */
  ghost predicate SingleRevision(t: Table) {
    DistinctDevices(t.rows) && (t.queued.Some? ==> DistinctDevices(t.queued.value.rows))
  }

  /** The Hub's answer, if any, names each device under one revision. */
  ghost predicate OneRevisionEach(command: Command) {
    (command.BackgroundRefresh? || command.ScopeChange? || command.SavedView?) && Accepted(command.response) ==>
      DistinctDevices(command.response.value.rows)
  }

  lemma StepSingleRevision(t: Table, command: Command)
    requires Sound(t) && SingleRevision(t) && OneRevisionEach(command)
    ensures SingleRevision(Step(t, command))
  {
    var u := Step(t, command);
    if command.BackgroundRefresh? && Accepted(command.response) && t.rows != [] {
      assert forall i :: 0 <= i < |t.rows| ==> Keys(u.rows)[i] == Keys(t.rows)[i];
      assert forall i :: 0 <= i < |t.rows| ==> u.rows[i].Key() == t.rows[i].Key();
    }
  }

  // ---------------------------------------------------------------- selection

  /** The flag a displayed row must carry. */
  predicate Flagged(selection: map<string, nat>, row: Projection) {
    row.deviceId in selection && selection[row.deviceId] == row.identityRevision
  }

  ghost predicate Displayed(rows: seq<Projection>, device: string, revision: nat) {
    DeviceKey(device, revision) in Keys(rows)
  }

  /** Selected identities that no displayed row shows. */
  ghost function HiddenSelection(selection: map<string, nat>, rows: seq<Projection>): set<string> {
    set d | d in selection && !Displayed(rows, d, selection[d])
  }

  function FlaggedCount(selection: map<string, nat>, rows: seq<Projection>): nat {
    if rows == [] then 0
    else FlaggedCount(selection, rows[..|rows| - 1]) + if Flagged(selection, rows[|rows| - 1]) then 1 else 0
  }

  /** The "hidden by scope" number is exactly the selected identities not displayed;
      in particular it is never negative. */
  lemma {:induction false} HiddenCountExact(selection: map<string, nat>, rows: seq<Projection>)
    requires DistinctKeys(rows)
    ensures |selection| - FlaggedCount(selection, rows) == |HiddenSelection(selection, rows)|
  {
    if rows == [] {
      assert HiddenSelection(selection, rows) == selection.Keys;
    } else {
      var n := |rows| - 1;
      var row := rows[n];
      HiddenCountExact(selection, rows[..n]);
      var before, after := HiddenSelection(selection, rows[..n]), HiddenSelection(selection, rows);
      assert Keys(rows) == Keys(rows[..n]) + [row.Key()];
      if Flagged(selection, row) {
        assert row.Key() !in Keys(rows[..n]);
        assert row.deviceId in before && after == before - {row.deviceId};
      } else {
        assert after == before;
      }
    }
  }

  /** After selecting every displayed row, all of them can carry a flag that the selection
      confirms exactly when no device is displayed under two revisions. */
  lemma {:induction false} SelectAllExact(selection: map<string, nat>, rows: seq<Projection>)
    requires DistinctKeys(rows)
    ensures (forall i :: 0 <= i < |rows| ==> Flagged(SelectRows(selection, rows), rows[i])) <==> DistinctDevices(rows)
  {
    if DistinctDevices(rows) {
      SelectAllFlags(selection, rows);
    } else {
      var i, j :| 0 <= i < j < |rows| && rows[i].deviceId == rows[j].deviceId;
      assert rows[i].Key() != rows[j].Key();
    }
  }

  lemma {:induction false} SelectAllFlags(selection: map<string, nat>, rows: seq<Projection>)
    requires DistinctDevices(rows)
    ensures forall i :: 0 <= i < |rows| ==> Flagged(SelectRows(selection, rows), rows[i])
  {
    if rows != [] {
      var n := |rows| - 1;
      SelectAllFlags(selection, rows[..n]);
      assert forall i :: 0 <= i < n ==> rows[..n][i] == rows[i];
    }
  }

  /** One device under two revisions, as the result check admits it. */
  const TWO_REVISIONS := QueryResult([
    Projection("quest", 1, "m", "fresh", None, None, ""), Projection("quest", 2, "m", "fresh", None, None, "")], true)

  /** Selecting both rows leaves one selected identity. */
  lemma TwoRevisionsSelectOne()
    ensures Validated(TWO_REVISIONS) && SelectRows(map[], TWO_REVISIONS.rows) == map["quest" := 2]
  {
    var rows := TWO_REVISIONS.rows;
    assert rows[..1] == [rows[0]] && [rows[0]][..0] == [];
    assert SelectRows(map[], [rows[0]]) == map["quest" := 1];
  }
}
