/** The console's observable table, edited in place: row objects are moved, inserted and
    removed, their flags are mirrored into the batch selection by a change handler, and
    every method is proved against the table functions of FleetTable. */
module FleetWorkspace {
  import opened Basics
  import opened FleetTable

  class DeviceRow {
    var projection: Projection
    var isBatchSelected: bool
    var observed: bool  // the workspace listens to this row's property changes

    constructor (projection: Projection)
      ensures this.projection == projection && !isBatchSelected && !observed
    {
      this.projection := projection;
      isBatchSelected, observed := false, false;
    }
  }

  ghost function ProjectionsOf(rows: seq<DeviceRow>): (p: seq<Projection>)
    reads rows`projection
    ensures |p| == |rows|
    ensures forall i :: 0 <= i < |rows| ==> p[i] == rows[i].projection
  {
    if rows == [] then []
    else ProjectionsOf(rows[..|rows| - 1]) + [rows[|rows| - 1].projection]
  }

  ghost function FlagsOf(rows: seq<DeviceRow>): (f: seq<bool>)
    reads rows`isBatchSelected
    ensures |f| == |rows|
    ensures forall i :: 0 <= i < |rows| ==> f[i] == rows[i].isBatchSelected
  {
    if rows == [] then []
    else FlagsOf(rows[..|rows| - 1]) + [rows[|rows| - 1].isBatchSelected]
  }

  /** `existing` finds exactly the rows of `before`, each under its key. */
  ghost predicate Indexes(existing: map<DeviceKey, DeviceRow>, before: seq<DeviceRow>)
    reads before`projection
  {
    && (forall r :: r in before ==> r.projection.Key() in existing && existing[r.projection.Key()] == r)
    && (forall k :: k in existing ==> existing[k] in before && existing[k].projection.Key() == k)
  }

  method IndexKeys(keys: seq<DeviceKey>) returns (positions: map<DeviceKey, nat>)
    requires Distinct(keys)
    ensures PositionsIn(positions, keys)
  {
    positions := map[];
    for n := 0 to |keys|
      invariant forall i :: 0 <= i < n ==> keys[i] in positions && positions[keys[i]] == i
      invariant forall k :: k in positions ==> positions[k] < n && keys[positions[k]] == k
    {
      positions := positions[keys[n] := n];
    }
  }

  /** The identity loop of the result check: it refuses exactly a repeated (device, revision). */
  method ValidateQueryResult(result: QueryResult) returns (valid: bool)
    ensures valid == Validated(result)
  {
    if !result.wellFormed {
      return false;
    }
    var identities: set<DeviceKey> := {};
    for n := 0 to |result.rows|
      invariant identities == set i | 0 <= i < n :: result.rows[i].Key()
      invariant forall i, j :: 0 <= i < j < n ==> result.rows[i].Key() != result.rows[j].Key()
    {
      if result.rows[n].Key() in identities {
        return false;
      }
      identities := identities + {result.rows[n].Key()};
    }
    return true;
  }

  ghost predicate PositionsIn(positions: map<DeviceKey, nat>, keys: seq<DeviceKey>) {
    && (forall i :: 0 <= i < |keys| ==> keys[i] in positions && positions[keys[i]] == i)
    && (forall k :: k in positions ==> positions[k] < |keys| && keys[positions[k]] == k)
  }

  lemma InPlaceByPosition(
    shown: seq<Projection>, groups: map<DeviceKey, string>, grouping: Grouping, incoming: seq<Projection>,
    positions: map<DeviceKey, nat>, n: nat)
    requires PositionsIn(positions, Keys(incoming)) && n < |shown|
    ensures var key := shown[n].Key();
            InPlace(shown, groups, grouping, incoming, n) <==>
            key in positions && n == positions[key] && key in groups &&
            groups[key] == GroupValue(incoming[positions[key]], grouping)
  {
    assert n < |incoming| ==> Keys(incoming)[n] == incoming[n].Key();
  }

  /** First pass: displayed keys that leave, move or change group. */
  method MisplacedKeys(
    shown: seq<Projection>, groups: map<DeviceKey, string>, grouping: Grouping, incoming: seq<Projection>)
    returns (affected: set<DeviceKey>)
    requires DistinctKeys(incoming)
    ensures affected == Misplaced(shown, groups, grouping, incoming, |shown|)
  {
    var incomingPositions := IndexKeys(Keys(incoming));
    affected := {};
    for n := 0 to |shown|
      invariant affected == Misplaced(shown, groups, grouping, incoming, n)
    {
      hide InPlace, Misplaced;
      var key := shown[n].Key();
      MisplacedStep(shown, groups, grouping, incoming, n);
      InPlaceByPosition(shown, groups, grouping, incoming, incomingPositions, n);
      var stays := key in incomingPositions && n == incomingPositions[key] && key in groups &&
                   groups[key] == GroupValue(incoming[incomingPositions[key]], grouping);
      if !stays {
        affected := affected + {key};
      }
    }
  }

  /** Second pass: incoming keys that are not displayed. */
  method ArrivedKeys(shown: seq<Projection>, incoming: seq<Projection>) returns (affected: set<DeviceKey>)
    requires DistinctKeys(shown)
    ensures affected == set i | 0 <= i < |incoming| && incoming[i].Key() !in Keys(shown) :: incoming[i].Key()
  {
    var currentPositions := IndexKeys(Keys(shown));
    affected := {};
    for n := 0 to |incoming|
      invariant affected == set i | 0 <= i < n && incoming[i].Key() !in Keys(shown) :: incoming[i].Key()
    {
      if incoming[n].Key() !in currentPositions {
        affected := affected + {incoming[n].Key()};
      }
    }
  }

  method RecordGroups(shown: seq<Projection>, grouping: Grouping) returns (groups: map<DeviceKey, string>)
    requires DistinctKeys(shown)
    ensures groups == GroupsOf(shown, grouping)
  {
    groups := map[];
    for n := 0 to |shown|
      invariant DistinctKeys(shown[..n]) && groups == GroupsOf(shown[..n], grouping)
    {
      hide GroupsOf, DistinctKeys, GroupValue;
      GroupsOfStep(shown, grouping, n);
      groups := groups[shown[n].Key() := GroupValue(shown[n], grouping)];
    }
    assert shown[..|shown|] == shown;
  }

  class Workspace {
    var rows: seq<DeviceRow>
    var batchSelection: map<string, nat>
    var displayedGroupValues: map<DeviceKey, string>
    var appliedGrouping: Grouping
    var queuedResult: Option<QueryResult>
    var queuedOrderingChangeCount: nat

    constructor ()
      ensures Valid() && FlagsAgree() && rows == []
      ensures View() == Table([], map[], map[], Ungrouped, None)
    {
      rows, batchSelection, displayedGroupValues := [], map[], map[];
      appliedGrouping, queuedResult, queuedOrderingChangeCount := Ungrouped, None, 0;
    }

    ghost predicate Valid()
      reads this`rows, this`queuedResult, this`queuedOrderingChangeCount, rows`projection, rows`observed
    {
      && RowsValid()
      && (queuedResult.Some? ==> Validated(queuedResult.value))
      && (queuedResult.Some? <==> queuedOrderingChangeCount > 0)
    }

    /** What `Valid` asks of the displayed rows. */
    ghost predicate RowsValid()
      reads this`rows, rows`projection, rows`observed
    {
      DistinctKeys(ProjectionsOf(rows)) && forall r :: r in rows ==> r.observed
    }

    /** A displayed row is flagged exactly when its device is selected at its own revision. */
    ghost predicate FlagsAgree()
      reads this`rows, this`batchSelection, rows`projection, rows`isBatchSelected
    {
      forall r :: r in rows ==> (r.isBatchSelected <==> Flagged(batchSelection, r.projection))
    }

    ghost function RowSet(): set<DeviceRow>
      reads this`rows
    {
      set r | r in rows
    }

    ghost function View(): Table
      reads this, rows`projection
    {
      Table(ProjectionsOf(rows), batchSelection, displayedGroupValues, appliedGrouping, queuedResult)
    }

    // ------------------------------------------------------------ batch flags

    method OnRowPropertyChanged(row: DeviceRow)
      modifies this`batchSelection
      ensures batchSelection == SelectRow(old(batchSelection), row.projection, row.isBatchSelected)
    {
      if row.isBatchSelected {
        batchSelection := batchSelection[row.projection.deviceId := row.projection.identityRevision];
      } else if row.projection.deviceId in batchSelection &&
                batchSelection[row.projection.deviceId] == row.projection.identityRevision {
        batchSelection := batchSelection - {row.projection.deviceId};
      }
    }

    /** The property setter: the handler runs only when the value changes. */
    method SetBatchSelected(row: DeviceRow, value: bool)
      modifies this`batchSelection, row`isBatchSelected
      ensures row.isBatchSelected == value
      ensures batchSelection ==
              if old(row.isBatchSelected) != value && row.observed
              then SelectRow(old(batchSelection), row.projection, value) else old(batchSelection)
    {
      if row.isBatchSelected != value {
        row.isBatchSelected := value;
        if row.observed {
          OnRowPropertyChanged(row);
        }
      }
    }

    /** A selection held under another revision of this device is dropped, with its flags. */
    method InvalidateSelection(projection: Projection) returns (removed: bool)
      requires forall r :: r in rows ==> r.observed
      modifies this`batchSelection, rows`isBatchSelected
      ensures removed == (projection.deviceId in old(batchSelection) &&
                          old(batchSelection)[projection.deviceId] != projection.identityRevision)
      ensures batchSelection == DropOtherRevision(old(batchSelection), projection)
      ensures old(FlagsAgree()) ==> FlagsAgree()
    {
      var device := projection.deviceId;
      removed := device in batchSelection && batchSelection[device] != projection.identityRevision;
      if removed {
        batchSelection := batchSelection - {device};
        for n := 0 to |rows|
          invariant batchSelection == old(batchSelection) - {device}
          invariant forall i :: 0 <= i < n && rows[i].projection.deviceId == device ==> !rows[i].isBatchSelected
          invariant forall r :: r in rows && r.projection.deviceId != device ==>
            r.isBatchSelected == old(r.isBatchSelected)
        {
          if rows[n].projection.deviceId == device && rows[n].isBatchSelected {
            SetBatchSelected(rows[n], false);
          }
        }
      }
    }

    // ------------------------------------------------------------ reconciliation

    /** ObservableCollection.Move, needed only from a position at or after the target. */
    method MoveRow(from: nat, to: nat)
      requires to <= from < |rows|
      modifies this`rows
      ensures rows == Moved(old(rows), from, to)
    {
      rows := rows[..to] + [rows[from]] + rows[to..from] + rows[from + 1..];
    }

    method IndexOfRow(row: DeviceRow) returns (index: nat)
      requires row in rows
      ensures index < |rows| && rows[index] == row && row !in rows[..index]
    {
      index := 0;
      while rows[index] != row
        invariant index < |rows|
        invariant row !in rows[..index]
        invariant row in rows[index..]
        decreases |rows| - index
      {
        index := index + 1;
      }
    }

    /** An existing row takes its new values, and its place at `n`. */
    method PlaceExisting(
      ghost before: seq<DeviceRow>, existing: map<DeviceKey, DeviceRow>, incoming: seq<Projection>, n: nat)
      requires n < |incoming| && DistinctKeys(incoming)
      requires Placed(rows, before, existing, incoming, n)
      requires incoming[n].Key() in existing
      modifies this`rows, before`projection
      ensures Placed(rows, before, existing, incoming, n + 1)
      ensures forall r :: r in rows <==> r in old(rows)
      ensures old(FlagsAgree()) ==> FlagsAgree()
    {
      var row := existing[incoming[n].Key()];
      UpdateRow(row, before, existing, incoming, n);
      PullForward(row, before, existing, incoming, n);
    }

    method PullForward(
      row: DeviceRow, ghost before: seq<DeviceRow>, ghost existing: map<DeviceKey, DeviceRow>,
      ghost incoming: seq<Projection>, n: nat)
      requires n < |incoming| && DistinctKeys(incoming)
      requires Placed(rows, before, existing, incoming, n)
      requires incoming[n].Key() in existing && row == existing[incoming[n].Key()]
      requires row.projection == incoming[n] && row in rows
      modifies this`rows
      ensures Placed(rows, before, existing, incoming, n + 1)
      ensures forall r :: r in rows <==> r in old(rows)
    {
      var current := IndexOfRow(row);
      PlacedMove(rows, before, existing, incoming, n, current);
      ghost var target := Moved(rows, current, n);
      assert Placed(target, before, existing, incoming, n + 1);
      if current != n {
        MoveRow(current, n);
      }
      assert rows == target;
    }

    method UpdateRow(
      row: DeviceRow, ghost before: seq<DeviceRow>, ghost existing: map<DeviceKey, DeviceRow>,
      incoming: seq<Projection>, n: nat)
      requires n < |incoming| && DistinctKeys(incoming)
      requires Placed(rows, before, existing, incoming, n)
      requires incoming[n].Key() in existing && row == existing[incoming[n].Key()]
      modifies row`projection
      ensures row.projection == incoming[n] && row in rows
      ensures Placed(rows, before, existing, incoming, n)
      ensures old(FlagsAgree()) ==> FlagsAgree()
    {
      assert row in rows[n..];
      row.projection := incoming[n];
    }

    /** A new key gets a fresh row at `n`, flagged from the selection before it is observed. */
    method PlaceArrival(
      ghost before: seq<DeviceRow>, ghost existing: map<DeviceKey, DeviceRow>, incoming: seq<Projection>, n: nat)
      requires n < |incoming| && DistinctKeys(incoming)
      requires Placed(rows, before, existing, incoming, n)
      requires incoming[n].Key() !in existing
      modifies this`rows
      ensures Placed(rows, before, existing, incoming, n + 1)
      ensures fresh(rows[n]) && rows == old(rows)[..n] + [rows[n]] + old(rows)[n..]
      ensures old(FlagsAgree()) ==> FlagsAgree()
    {
      hide ProjectionsOf, Surviving, Placed, DistinctKeys;
      var row := NewRow(incoming[n]);
      assert forall i :: 0 <= i < |before| ==> before[i] != row;
      PlacedInsert(rows, before, existing, incoming, n, row);
      PlacedFacts(rows, before, existing, incoming, n);
      rows := rows[..n] + [row] + rows[n..];
    }

    method NewRow(projection: Projection) returns (row: DeviceRow)
      ensures fresh(row) && row.projection == projection && row.observed
      ensures row.isBatchSelected == Flagged(batchSelection, projection)
    {
      row := new DeviceRow(projection);
      row.isBatchSelected := Flagged(batchSelection, projection);
      row.observed := true;
    }

    /** One incoming row: the selection check first, then the row's own place. */
    method PlaceRow(
      ghost before: seq<DeviceRow>, existing: map<DeviceKey, DeviceRow>, incoming: seq<Projection>, n: nat)
      returns (invalidated: nat)
      requires n < |incoming| && DistinctKeys(incoming)
      requires Placed(rows, before, existing, incoming, n)
      modifies this`rows, this`batchSelection, rows`isBatchSelected, before`projection
      ensures Placed(rows, before, existing, incoming, n + 1)
      ensures forall r :: r in rows ==> r in old(rows) || fresh(r)
      ensures old(FlagsAgree()) ==> FlagsAgree()
      ensures batchSelection == DropOtherRevision(old(batchSelection), incoming[n])
      ensures invalidated + |batchSelection| == |old(batchSelection)|
    {
      hide ProjectionsOf, Surviving;
      var removed := InvalidateSelection(incoming[n]);
      invalidated := if removed then 1 else 0;
      if incoming[n].Key() in existing {
        PlaceExisting(before, existing, incoming, n);
      } else {
        PlaceArrival(before, existing, incoming, n);
      }
    }

    /** The final pass from the back: rows the result no longer names leave the table. */
    method DropAbsent(incomingKeys: set<DeviceKey>, ghost n: nat)
      requires n <= |rows|
      requires forall i :: 0 <= i < n ==> rows[i].projection.Key() in incomingKeys
      requires forall i :: n <= i < |rows| ==> rows[i].projection.Key() !in incomingKeys
      requires Distinct(rows[n..]) && forall r :: r in rows[..n] ==> r !in rows[n..]
      modifies this`rows, rows`observed
      ensures rows == old(rows)[..n]
      ensures forall r :: r in rows ==> r.observed == old(r.observed)
      ensures forall r :: r in old(rows)[n..] ==> !r.observed
    {
      var index := |rows|;
      while index > 0
        invariant index <= |old(rows)|
        invariant rows == old(rows)[..if index < n then n else index]
        invariant forall r :: r in old(rows)[..n] ==> r.observed == old(r.observed)
        invariant forall i :: n <= i < |old(rows)| && index <= i ==> !old(rows)[i].observed
      {
        index := index - 1;
        if rows[index].projection.Key() !in incomingKeys {
          rows[index].observed := false;
          rows := rows[..index] + rows[index + 1..];
        }
      }
    }

    method IndexRows() returns (existing: map<DeviceKey, DeviceRow>)
      requires DistinctKeys(ProjectionsOf(rows))
      ensures Indexes(existing, rows)
    {
      existing := map[];
      for n := 0 to |rows|
        invariant forall i :: 0 <= i < n ==>
          rows[i].projection.Key() in existing && existing[rows[i].projection.Key()] == rows[i]
        invariant forall k :: k in existing ==> existing[k] in rows[..n] && existing[k].projection.Key() == k
      {
        assert forall i :: 0 <= i < n ==> ProjectionsOf(rows)[i].Key() != ProjectionsOf(rows)[n].Key();
        existing := existing[rows[n].projection.Key() := rows[n]];
      }
    }

    method ReconcileDirect(incoming: seq<Projection>) returns (invalidated: nat)
      requires Valid() && DistinctKeys(incoming)
      modifies this`rows, this`batchSelection, rows
      ensures ProjectionsOf(rows) == incoming
      ensures forall r :: r in rows ==> r.observed
      ensures batchSelection == Surviving(old(batchSelection), incoming)
      ensures invalidated + |batchSelection| == |old(batchSelection)|
      ensures old(FlagsAgree()) ==> FlagsAgree()
      // Every key displayed before keeps its row object; every other row object is new.
      ensures RowsRetained(old(rows), old(ProjectionsOf(rows)), rows, incoming)
      ensures forall i :: 0 <= i < |rows| ==> rows[i] in old(rows) || fresh(rows[i])
      // A row that left no longer drives the selection.
      ensures forall r :: r in old(rows) && r !in rows ==> !r.observed
    {
      hide ProjectionsOf, Surviving, DistinctKeys, Placed, FlagsAgree, Validated;
      var existing := IndexRows();
      StartPlaced(rows, existing, incoming);
      ghost var before, shown := rows, ProjectionsOf(rows);
      assert forall i :: 0 <= i < |before| ==>
        shown[i].Key() in existing && existing[shown[i].Key()] == before[i];
      invalidated := PlaceAndKeep(rows, existing, incoming);
      assert forall j :: 0 <= j < |incoming| ==> Holds(rows[j], before, existing, incoming[j]);
    }

    method PlaceAndKeep(ghost before: seq<DeviceRow>, existing: map<DeviceKey, DeviceRow>, incoming: seq<Projection>)
      returns (invalidated: nat)
      requires before == rows && DistinctKeys(incoming) && Placed(rows, before, existing, incoming, 0)
      modifies this`rows, this`batchSelection, before
      ensures ProjectionsOf(rows) == incoming
      ensures forall r :: r in rows ==> r.observed
      ensures batchSelection == Surviving(old(batchSelection), incoming)
      ensures invalidated + |batchSelection| == |old(batchSelection)|
      ensures old(FlagsAgree()) ==> FlagsAgree()
      ensures forall i :: 0 <= i < |incoming| ==> Holds(rows[i], before, existing, incoming[i])
      ensures forall i :: 0 <= i < |rows| ==> rows[i] in before || fresh(rows[i])
      ensures forall r :: r in before && r !in rows ==> !r.observed
    {
      hide ProjectionsOf, Surviving, Placed;
      var incomingKeys;
      invalidated, incomingKeys := PlaceAll(before, existing, incoming);
      ghost var placed := rows;
      assert forall i :: 0 <= i < |placed| ==> placed[i] in before || fresh(placed[i]);
      KeepIncoming(before, existing, incoming, incomingKeys);
      assert forall i :: 0 <= i < |rows| ==> rows[i] == placed[i];
    }

    method KeepIncoming(
      ghost before: seq<DeviceRow>, ghost existing: map<DeviceKey, DeviceRow>, ghost incoming: seq<Projection>,
      incomingKeys: set<DeviceKey>)
      requires Placed(rows, before, existing, incoming, |incoming|) && DistinctKeys(incoming)
      requires incomingKeys == set k | k in Keys(incoming)
      modifies this`rows, rows`observed
      ensures |rows| == |incoming| <= |old(rows)|
      ensures forall i :: 0 <= i < |rows| ==> rows[i] == old(rows)[i]
      ensures forall i :: 0 <= i < |incoming| ==> Holds(rows[i], before, existing, incoming[i])
      ensures ProjectionsOf(rows) == incoming
      ensures forall r :: r in rows ==> r.observed
      ensures forall r :: r in before && r !in rows ==> !r.observed
      ensures old(FlagsAgree()) ==> FlagsAgree()
    {
      hide ProjectionsOf, DistinctKeys, Placed;
      FinishPlaced(rows, before, existing, incoming);
      PlacedFacts(rows, before, existing, incoming, |incoming|);
      DropAbsent(incomingKeys, |incoming|);
      assert forall i :: 0 <= i < |incoming| ==> rows[i] == old(rows)[i];
    }

    method PlaceAll(ghost before: seq<DeviceRow>, existing: map<DeviceKey, DeviceRow>, incoming: seq<Projection>)
      returns (invalidated: nat, incomingKeys: set<DeviceKey>)
      requires before == rows && DistinctKeys(incoming) && Placed(rows, before, existing, incoming, 0)
      modifies this`rows, this`batchSelection, before
      ensures Placed(rows, before, existing, incoming, |incoming|)
      ensures forall r :: r in rows ==> r in before || fresh(r)
      ensures batchSelection == Surviving(old(batchSelection), incoming)
      ensures invalidated + |batchSelection| == |old(batchSelection)|
      ensures incomingKeys == set k | k in Keys(incoming)
      ensures old(FlagsAgree()) ==> FlagsAgree()
    {
      hide ProjectionsOf, Surviving, Placed, FlagsAgree, DistinctKeys, DropOtherRevision;
      SurvivingNone(batchSelection);
      invalidated, incomingKeys := 0, {};
      for n := 0 to |incoming|
        invariant Placed(rows, before, existing, incoming, n)
        invariant forall r :: r in rows ==> r in before || fresh(r)
        invariant batchSelection == Surviving(old(batchSelection), incoming[..n])
        invariant invalidated + |batchSelection| == |old(batchSelection)|
        invariant incomingKeys == set k | k in Keys(incoming[..n])
        invariant old(FlagsAgree()) ==> FlagsAgree()
      {
        assert forall i :: 0 <= i < |rows| ==> rows[i] in before || fresh(rows[i]);
        var one := PlaceRow(before, existing, incoming, n);
        invalidated := invalidated + one;
        incomingKeys := incomingKeys + {incoming[n].Key()};
        SurvivingStep(old(batchSelection), incoming, n);
        NewKey(incoming, n);
      }
      assert incoming[..|incoming|] == incoming;
    }

    method ReconcilePreserving(incoming: seq<Projection>) returns (invalidated: nat)
      requires Valid() && DistinctKeys(incoming)
      modifies this`batchSelection, rows`projection, rows`isBatchSelected
      ensures ProjectionsOf(rows) == RefreshShared(old(ProjectionsOf(rows)), incoming)
      ensures RowsValid()
      ensures batchSelection == Surviving(old(batchSelection), incoming)
      ensures invalidated + |batchSelection| == |old(batchSelection)|
      ensures old(FlagsAgree()) ==> FlagsAgree()
    {
      hide ProjectionsOf, Surviving, RefreshShared, DistinctKeys, Indexes, FlagsAgree;
      var existing := IndexRows();
      RefreshSharedNone(ProjectionsOf(rows));
      ghost var shown := ProjectionsOf(rows);
      invalidated := RefreshAllInPlace(existing, ProjectionsOf(rows), incoming);
      KeysDecideDistinct(shown, ProjectionsOf(rows));
    }

    method RefreshAllInPlace(existing: map<DeviceKey, DeviceRow>, ghost start: seq<Projection>, incoming: seq<Projection>)
      returns (invalidated: nat)
      requires DistinctKeys(incoming) && Indexes(existing, rows) && forall r :: r in rows ==> r.observed
      requires ProjectionsOf(rows) == RefreshShared(start, incoming[..0])
      modifies this`batchSelection, rows`projection, rows`isBatchSelected
      ensures ProjectionsOf(rows) == RefreshShared(start, incoming)
      ensures batchSelection == Surviving(old(batchSelection), incoming)
      ensures invalidated + |batchSelection| == |old(batchSelection)|
      ensures old(FlagsAgree()) ==> FlagsAgree()
    {
      hide ProjectionsOf, Surviving, RefreshShared, Indexes, FlagsAgree, DistinctKeys, DropOtherRevision;
      SurvivingNone(batchSelection);
      invalidated := 0;
      for n := 0 to |incoming|
        invariant Indexes(existing, rows)
        invariant forall r :: r in rows ==> r.observed
        invariant ProjectionsOf(rows) == RefreshShared(start, incoming[..n])
        invariant batchSelection == Surviving(old(batchSelection), incoming[..n])
        invariant invalidated + |batchSelection| == |old(batchSelection)|
        invariant old(FlagsAgree()) ==> FlagsAgree()
      {
        var one := RefreshInPlace(existing, start, incoming, n);
        invalidated := invalidated + one;
        SurvivingStep(old(batchSelection), incoming, n);
      }
      assert incoming[..|incoming|] == incoming;
    }

    method RefreshInPlace(
      existing: map<DeviceKey, DeviceRow>, ghost start: seq<Projection>, incoming: seq<Projection>, n: nat)
      returns (invalidated: nat)
      requires n < |incoming| && DistinctKeys(incoming) && Indexes(existing, rows)
      requires ProjectionsOf(rows) == RefreshShared(start, incoming[..n])
      requires forall r :: r in rows ==> r.observed
      modifies this`batchSelection, rows`projection, rows`isBatchSelected
      ensures Indexes(existing, rows)
      ensures ProjectionsOf(rows) == RefreshShared(start, incoming[..n + 1])
      ensures batchSelection == DropOtherRevision(old(batchSelection), incoming[n])
      ensures invalidated + |batchSelection| == |old(batchSelection)|
      ensures old(FlagsAgree()) ==> FlagsAgree()
    {
      hide ProjectionsOf, Surviving, RefreshShared, Indexes;
      var removed := InvalidateSelection(incoming[n]);
      invalidated := if removed then 1 else 0;
      RefreshRow(existing, start, incoming, n);
    }

    method RefreshRow(
      existing: map<DeviceKey, DeviceRow>, ghost start: seq<Projection>, incoming: seq<Projection>, n: nat)
      requires n < |incoming| && DistinctKeys(incoming) && Indexes(existing, rows)
      requires ProjectionsOf(rows) == RefreshShared(start, incoming[..n])
      modifies rows`projection
      ensures Indexes(existing, rows)
      ensures ProjectionsOf(rows) == RefreshShared(start, incoming[..n + 1])
      ensures old(FlagsAgree()) ==> FlagsAgree()
    {
      hide ProjectionsOf, RefreshShared;
      RefreshSharedStep(start, incoming, n);
      var key := incoming[n].Key();
      assert forall i :: 0 <= i < |rows| ==>
        Keys(RefreshShared(start, incoming[..n]))[i] == rows[i].projection.Key() == Keys(start)[i];
      if key in existing {
        existing[key].projection := incoming[n];
      }
    }

    // ------------------------------------------------------------ results, queue and groups

    /** The number of keys whose place or group the incoming result would change. */
    method CountOrderingChanges(incoming: seq<Projection>) returns (count: nat)
      requires Valid() && DistinctKeys(incoming)
      ensures count == |Affected(ProjectionsOf(rows), displayedGroupValues, appliedGrouping, incoming)|
      ensures CountsColumn(ProjectionsOf(rows), displayedGroupValues, appliedGrouping, incoming, count)
    {
      hide ProjectionsOf, Regrouped, GroupsOf, Affected, Misplaced;
      var shown := Snapshot();
      if displayedGroupValues == GroupsOf(shown, appliedGrouping) && Keys(shown) == Keys(incoming) {
        RegroupedCount(shown, incoming, appliedGrouping);
      }
      AffectedParts(shown, displayedGroupValues, appliedGrouping, incoming);
      var misplaced := MisplacedKeys(shown, displayedGroupValues, appliedGrouping, incoming);
      var arrived := ArrivedKeys(shown, incoming);
      count := |misplaced + arrived|;
    }

    /** One validated result: either reconciled into place, or refreshed where rows stand
        with the new order queued. A refused result changes nothing. */
    method ApplyResult(result: QueryResult, preserveOrdering: bool) returns (outcome: Result<nat>)
      requires Valid()
      modifies this, rows
      ensures Valid()
      ensures outcome.Success? <==> Validated(result)
      ensures View() == if outcome.Success? then FleetTable.ApplyResult(old(View()), result, preserveOrdering) else old(View())
      ensures outcome.Success? ==> outcome.value + |batchSelection| == |old(batchSelection)|
      ensures outcome.Failure? || preserveOrdering ==> rows == old(rows)
      ensures outcome.Success? && !preserveOrdering ==> RowsRetained(old(rows), old(ProjectionsOf(rows)), rows, result.rows)
      ensures fresh(RowSet() - old(RowSet()))
      ensures forall r :: r in old(rows) && r !in rows ==> !r.observed
      ensures old(FlagsAgree()) ==> FlagsAgree()
    {
      hide ProjectionsOf, FleetTable.ApplyResult, DistinctKeys, RowsRetained, FlagsAgree;
      var valid := ValidateQueryResult(result);
      if !valid {
        outcome := Failure("Fleet Hub returned invalid projection evidence");
      } else {
        var invalidated;
        if preserveOrdering {
          invalidated := ApplyInPlace(result);
        } else {
          invalidated := ApplyReordered(result);
        }
        outcome := Success(invalidated);
      }
    }

    method ApplyInPlace(result: QueryResult) returns (invalidated: nat)
      requires Valid() && Validated(result)
      modifies this, rows
      ensures Valid() && rows == old(rows)
      ensures View() == FleetTable.ApplyResult(old(View()), result, true)
      ensures invalidated + |batchSelection| == |old(batchSelection)|
      ensures old(FlagsAgree()) ==> FlagsAgree()
    {
      ViewIs();
      hide *;
      ValidatedKeys(result);
      var orderingChanges := CountOrderingChanges(result.rows);
      PreservingApplies(View(), result, orderingChanges);
      invalidated := ReconcilePreserving(result.rows);
      SetQueued(if orderingChanges > 0 then Some(result) else None, orderingChanges);
      ViewIs();
    }

    lemma ViewIs()
      ensures View() == Table(ProjectionsOf(rows), batchSelection, displayedGroupValues, appliedGrouping, queuedResult)
    {
    }

    lemma ValidatedKeys(result: QueryResult)
      requires Validated(result)
      ensures DistinctKeys(result.rows)
    {
    }

    method ApplyReordered(result: QueryResult) returns (invalidated: nat)
      requires Valid() && Validated(result)
      modifies this, rows
      ensures Valid()
      ensures View() == FleetTable.ApplyResult(old(View()), result, false)
      ensures invalidated + |batchSelection| == |old(batchSelection)|
      ensures RowsRetained(old(rows), old(ProjectionsOf(rows)), rows, result.rows)
      ensures fresh(RowSet() - old(RowSet()))
      ensures forall r :: r in old(rows) && r !in rows ==> !r.observed
      ensures old(FlagsAgree()) ==> FlagsAgree()
    {
      hide ProjectionsOf, Surviving, FlagsAgree, RowsRetained;
      invalidated := ReconcileDirect(result.rows);
      SetQueued(None, 0);
    }

    method SetQueued(result: Option<QueryResult>, count: nat)
      requires RowsValid() && (result.Some? <==> count > 0) && (result.Some? ==> Validated(result.value))
      modifies this`queuedResult, this`queuedOrderingChangeCount
      ensures Valid() && queuedResult == result && queuedOrderingChangeCount == count
    {
      queuedResult, queuedOrderingChangeCount := result, count;
    }

    method Snapshot() returns (shown: seq<Projection>)
      ensures shown == ProjectionsOf(rows)
    {
      shown := [];
      for n := 0 to |rows|
        invariant shown == ProjectionsOf(rows)[..n]
      {
        shown := shown + [rows[n].projection];
      }
    }

    method ApplyGrouping(grouping: Grouping)
      requires Valid()
      modifies this`displayedGroupValues
      ensures displayedGroupValues == GroupsOf(ProjectionsOf(rows), grouping)
      ensures forall i :: 0 <= i < |rows| ==>
        rows[i].projection.Key() in displayedGroupValues &&
        InColumn(rows[i].projection, grouping, displayedGroupValues[rows[i].projection.Key()])
      ensures forall k :: k in displayedGroupValues ==> k in Keys(ProjectionsOf(rows))
    {
      hide ProjectionsOf, GroupsOf, DistinctKeys, InColumn, GroupValue;
      var shown := Snapshot();
      displayedGroupValues := RecordGroups(shown, grouping);
      forall i | 0 <= i < |rows|
        ensures rows[i].projection.Key() in displayedGroupValues
        ensures InColumn(shown[i], grouping, displayedGroupValues[rows[i].projection.Key()])
      {
        assert Keys(shown)[i] == shown[i].Key();
        GroupValueMeans(shown[i], grouping, displayedGroupValues[shown[i].Key()]);
      }
    }

    // ------------------------------------------------------------ commands

    /** `editorGrouping` is present when the scope editor is being accepted. */
    method LoadScope(response: Option<QueryResult>, editorGrouping: Option<Grouping>, preserveCurrentOrdering: bool)
      returns (succeeded: bool)
      requires Valid()
      modifies this, rows
      ensures Valid()
      ensures succeeded <==> Accepted(response)
      ensures View() ==
        if succeeded then Load(old(View()), response.value, editorGrouping, preserveCurrentOrdering) else old(View())
      ensures old(FlagsAgree()) ==> FlagsAgree()
      ensures fresh(RowSet() - old(RowSet()))
    {
      hide ProjectionsOf, FlagsAgree, RowsRetained, FleetTable.ApplyResult, Regroup, Validated, Valid;
      succeeded := false;
      if response.Some? {
        var preserveOrdering := preserveCurrentOrdering && |rows| > 0;
        var outcome := ApplyResult(response.value, preserveOrdering);
        succeeded := outcome.Success?;
        if succeeded && (editorGrouping.Some? || !preserveOrdering) {
          SetGrouping(if editorGrouping.Some? then editorGrouping.value else appliedGrouping);
        }
      }
    }

    method SetGrouping(grouping: Grouping)
      requires Valid()
      modifies this`appliedGrouping, this`displayedGroupValues
      ensures Valid() && View() == Regroup(old(View()), grouping)
    {
      hide ProjectionsOf, GroupsOf, Valid, DistinctKeys;
      appliedGrouping := grouping;
      ApplyGrouping(grouping);
    }

    method ApplySavedView(response: Option<QueryResult>, grouping: Grouping)
      requires Valid()
      modifies this, rows
      ensures Valid()
      ensures View() == Step(old(View()), SavedView(response, grouping))
      ensures old(FlagsAgree()) ==> FlagsAgree()
      ensures fresh(RowSet() - old(RowSet()))
    {
      hide Valid, View, FlagsAgree, ProjectionsOf, Sound, Step, Load, Regroup, Validated;
      ValidSound();
      SavedViewLoads(View(), response, grouping);
      NameGrouping(grouping);
      var succeeded := LoadScope(response, None, false);
      SetGrouping(grouping);
    }

    lemma ValidSound()
      requires Valid()
      ensures Sound(View())
    {
    }

    method NameGrouping(grouping: Grouping)
      requires Valid()
      modifies this`appliedGrouping
      ensures Valid() && View() == old(View()).(grouping := grouping)
      ensures old(FlagsAgree()) ==> FlagsAgree()
    {
      appliedGrouping := grouping;
    }

    method ApplyQueuedOrderingChanges()
      requires Valid()
      modifies this, rows
      ensures Valid() && queuedResult.None?
      ensures View() == ApplyQueued(old(View()))
      ensures old(FlagsAgree()) ==> FlagsAgree()
      ensures fresh(RowSet() - old(RowSet()))
    {
      if queuedResult.Some? {
        var result := queuedResult.value;
        ghost var before := View();
        QueuedApplies(before);
        assert before.grouping == appliedGrouping;
        ApplyKnownResult(result, appliedGrouping);
      }
    }

    method ApplyKnownResult(result: QueryResult, grouping: Grouping)
      requires Valid() && Validated(result) && appliedGrouping == grouping
      modifies this, rows
      ensures Valid()
      ensures View() == Regroup(FleetTable.ApplyResult(old(View()), result, false), grouping)
      ensures old(FlagsAgree()) ==> FlagsAgree()
      ensures fresh(RowSet() - old(RowSet()))
    {
      hide *;
      var outcome := ApplyResult(result, false);
      SetGrouping(grouping);
    }

    /** From flags that agree, selecting a row keeps flags and selection in step exactly when no
        other displayed revision of its device is already flagged; deselecting always does. */
    method SetFlagAt(index: nat, selected: bool)
      requires Valid() && index < |rows|
      modifies this`batchSelection, rows`isBatchSelected
      ensures Valid() && Shown(View()) == Shown(old(View()))
      ensures old(FlagsAgree()) ==>
        && View() == Step(old(View()), SetFlag(index, selected))
        && (FlagsAgree() <==> !(selected && old(SiblingFlagged(index))))
    {
      OtherKeys(index);
      hide ProjectionsOf, DistinctKeys, Validated;
      SetBatchSelected(rows[index], selected);
    }

    lemma OtherKeys(index: nat)
      requires RowsValid() && index < |rows|
      ensures forall i :: 0 <= i < |rows| && i != index ==> rows[i].projection.Key() != rows[index].projection.Key()
    {
      ghost var shown := ProjectionsOf(rows);
      assert forall i :: 0 <= i < |rows| && i != index ==> shown[i].Key() != shown[index].Key();
    }

    /** Another displayed revision of the device at `index` carries a flag. */
    ghost predicate SiblingFlagged(index: nat)
      requires index < |rows|
      reads this`rows, rows`projection, rows`isBatchSelected
    {
      exists i :: 0 <= i < |rows| && i != index && rows[i].isBatchSelected &&
        rows[i].projection.deviceId == rows[index].projection.deviceId
    }

    ghost function Flags(): (flags: seq<bool>)
      reads this`rows, rows`isBatchSelected
      ensures |flags| == |rows| && forall i :: 0 <= i < |rows| ==> flags[i] == rows[i].isBatchSelected
    {
      FlagsOf(rows)
    }

    /** All rows end flagged, from any state; the selection has taken the rows that were not. */
    method SelectAllVisible()
      requires Valid()
      modifies this`batchSelection, rows`isBatchSelected
      ensures Valid() && Shown(View()) == Shown(old(View()))
      ensures forall r :: r in rows ==> r.isBatchSelected
      ensures batchSelection == SelectNew(old(batchSelection), old(ProjectionsOf(rows)), old(Flags()))
      ensures old(FlagsAgree()) ==> (FlagsAgree() <==> DistinctDevices(old(View()).rows))
      ensures old(FlagsAgree()) && DistinctDevices(old(View()).rows) ==> View() == Step(old(View()), SelectAll)
    {
      hide ProjectionsOf, FlagsOf, SelectNew, SelectRows, DistinctKeys, DistinctDevices;
      ghost var shown, flags, before := ProjectionsOf(rows), Flags(), batchSelection;
      ghost var agreed := FlagsAgree();
      assert agreed ==> FlagsMatch(shown, flags, before);
      RaiseFlags(shown, flags);
      AllFlaggedAgree();
      if agreed && DistinctDevices(shown) {
        AgreedFlags(shown, flags, before);
      }
    }

    method RaiseFlags(ghost shown: seq<Projection>, ghost flags: seq<bool>)
      requires Valid() && shown == ProjectionsOf(rows) && flags == Flags()
      modifies this`batchSelection, rows`isBatchSelected
      ensures forall r :: r in rows ==> r.isBatchSelected
      ensures batchSelection == SelectNew(old(batchSelection), shown, flags)
    {
      RowsDiffer(shown);
      hide ProjectionsOf, FlagsOf, SelectNew;
      RaiseAll(shown, flags);
    }

    method RaiseAll(ghost shown: seq<Projection>, ghost flags: seq<bool>)
      requires Distinct(rows) && forall i :: 0 <= i < |rows| ==> rows[i].observed
      requires shown == ProjectionsOf(rows) && flags == FlagsOf(rows)
      modifies this`batchSelection, rows`isBatchSelected
      ensures forall i :: 0 <= i < |rows| ==> rows[i].isBatchSelected
      ensures batchSelection == SelectNew(old(batchSelection), shown, flags)
    {
      NoneSelected(batchSelection, shown[..0], flags[..0]);
      hide ProjectionsOf, FlagsOf, SelectNew, SelectRow, Distinct;
      for n := 0 to |rows|
        invariant forall i :: 0 <= i < n ==> rows[i].isBatchSelected
        invariant forall i :: n <= i < |rows| ==> rows[i].isBatchSelected == flags[i]
        invariant batchSelection == SelectNew(old(batchSelection), shown[..n], flags[..n])
      {
        OthersDiffer(n);
        RaiseOne(n, shown, flags, old(batchSelection));
      }
      assert shown[..|rows|] == shown && flags[..|rows|] == flags;
    }

    lemma OthersDiffer(n: nat)
      requires n < |rows| && Distinct(rows)
      ensures forall i :: 0 <= i < |rows| && i != n ==> rows[i] != rows[n]
    {
    }

    method RaiseOne(n: nat, ghost shown: seq<Projection>, ghost flags: seq<bool>, ghost start: map<string, nat>)
      requires n < |rows| == |flags| && shown == ProjectionsOf(rows) && rows[n].observed
      requires rows[n].isBatchSelected == flags[n] && batchSelection == SelectNew(start, shown[..n], flags[..n])
      modifies this`batchSelection, {rows[n]}`isBatchSelected
      ensures rows[n].isBatchSelected && batchSelection == SelectNew(start, shown[..n + 1], flags[..n + 1])
    {
      hide ProjectionsOf, SelectNew, SelectRow;
      SelectNewStep(start, shown, flags, n);
      SetBatchSelected(rows[n], true);
    }

    lemma NoneSelected(selection: map<string, nat>, rows: seq<Projection>, flags: seq<bool>)
      requires |rows| == |flags| == 0
      ensures SelectNew(selection, rows, flags) == selection
    {
    }

    ghost predicate FlagsMatch(shown: seq<Projection>, flags: seq<bool>, selection: map<string, nat>) {
      |flags| == |shown| && forall i :: 0 <= i < |shown| ==> (flags[i] <==> Flagged(selection, shown[i]))
    }

    lemma RowsDiffer(shown: seq<Projection>)
      requires RowsValid() && shown == ProjectionsOf(rows)
      ensures Distinct(rows)
    {
      forall i, j | 0 <= i < j < |rows| ensures rows[i] != rows[j] {
        assert shown[i].Key() != shown[j].Key();
      }
    }

    /** Flags that agreed, all raised over distinct devices, agree again. */
    lemma AgreedFlags(shown: seq<Projection>, flags: seq<bool>, before: map<string, nat>)
      requires shown == ProjectionsOf(rows) && DistinctDevices(shown) && FlagsMatch(shown, flags, before)
      requires batchSelection == SelectNew(before, shown, flags)
      requires forall r :: r in rows ==> r.isBatchSelected
      ensures FlagsAgree() && batchSelection == SelectRows(before, shown)
    {
      hide ProjectionsOf;
      SelectNewAgreed(before, shown, flags);
      SelectAllFlags(before, shown);
      forall r | r in rows ensures Flagged(batchSelection, r.projection) {
        var i :| 0 <= i < |rows| && rows[i] == r;
        assert shown[i] == r.projection;
      }
    }

    /** Two displayed revisions of one device cannot both be the selected one. */
    lemma AllFlaggedAgree()
      requires Valid() && forall i :: 0 <= i < |rows| ==> rows[i].isBatchSelected
      ensures FlagsAgree() ==> DistinctDevices(ProjectionsOf(rows))
    {
      hide ProjectionsOf;
      if FlagsAgree() {
        forall i, j | 0 <= i < j < |rows| ensures rows[i].projection.deviceId != rows[j].projection.deviceId {
          assert rows[i] in rows && rows[j] in rows;
          assert ProjectionsOf(rows)[i].Key() != ProjectionsOf(rows)[j].Key();
        }
      }
    }

    method ClearBatchSelection()
      requires Valid()
      modifies this`batchSelection, rows`isBatchSelected
      ensures Valid() && FlagsAgree() && View() == Step(old(View()), ClearSelection)
    {
      hide ProjectionsOf, DistinctKeys, Validated;
      for n := 0 to |rows|
        invariant forall i :: 0 <= i < n ==> !rows[i].isBatchSelected
      {
        SetBatchSelected(rows[n], false);
      }
      batchSelection := map[];
    }

    ghost function FlaggedPlaces(n: nat): set<nat>
      requires n <= |rows|
      reads this`rows, rows`isBatchSelected
    {
      set i | 0 <= i < n && rows[i].isBatchSelected
    }

    lemma OneMorePlace(n: nat)
      requires n < |rows|
      ensures |FlaggedPlaces(n + 1)| == |FlaggedPlaces(n)| + if rows[n].isBatchSelected then 1 else 0
    {
      assert FlaggedPlaces(n + 1) == FlaggedPlaces(n) + if rows[n].isBatchSelected then {n} else {};
    }

    lemma {:induction false} AgreedPlaces(shown: seq<Projection>, n: nat)
      requires FlagsAgree() && shown == ProjectionsOf(rows) && n <= |rows|
      ensures |FlaggedPlaces(n)| == FlaggedCount(batchSelection, shown[..n])
    {
      hide ProjectionsOf;
      if n > 0 {
        AgreedPlaces(shown, n - 1);
        OneMorePlace(n - 1);
        assert shown[..n][..n - 1] == shown[..n - 1];
      }
    }

    /** The two numbers of the selection text: with flags that agree, the second one counts the
        selected identities not displayed. */
    method BatchSelectionNumbers() returns (selected: nat, hidden: int)
      requires Valid()
      ensures selected == |batchSelection|
      ensures hidden == |batchSelection| - |FlaggedPlaces(|rows|)|
      ensures FlagsAgree() ==> hidden == |HiddenSelection(batchSelection, ProjectionsOf(rows))|
    {
      hide ProjectionsOf, FlaggedCount, HiddenSelection, DistinctKeys, FlagsAgree;
      var visible := 0;
      for n := 0 to |rows|
        invariant visible == |FlaggedPlaces(n)|
      {
        OneMorePlace(n);
        visible := visible + if rows[n].isBatchSelected then 1 else 0;
      }
      selected, hidden := |batchSelection|, |batchSelection| - visible;
      if FlagsAgree() {
        ghost var shown := ProjectionsOf(rows);
        AgreedPlaces(shown, |rows|);
        assert shown[..|rows|] == shown;
        HiddenCountExact(batchSelection, shown);
      }
    }

    /** One command against whatever the Hub answered. */
    method ExecuteOne(command: Command)
      requires Valid()
      modifies this, rows
      ensures Valid() && Shown(View()) == Shown(Step(old(View()), command))
      ensures old(Consistent()) && OneRevisionEach(command) ==> Consistent() && View() == Step(old(View()), command)
      ensures fresh(RowSet() - old(RowSet()))
    {
      hide Valid, FlagsAgree, ProjectionsOf, SingleRevision;
      ValidSound();
      if SingleRevision(View()) && OneRevisionEach(command) {
        StepSingleRevision(View(), command);
      }
      match command {
        case BackgroundRefresh(response) =>
          BackgroundLoads(View(), response);
          hide *;
          var succeeded := LoadScope(response, None, true);
        case ScopeChange(response, grouping) =>
          ScopeLoads(View(), response, grouping);
          hide *;
          var succeeded := LoadScope(response, Some(grouping), false);
        case SavedView(response, grouping) =>
          hide *;
          ApplySavedView(response, grouping);
        case ApplyOrdering =>
          assert Step(View(), ApplyOrdering) == ApplyQueued(View());
          hide *;
          ApplyQueuedOrderingChanges();
        case SetFlag(index, selected) =>
          ExecuteFlag(index, selected);
        case SelectAll =>
          ExecuteSelectAll();
        case ClearSelection =>
          hide *;
          ClearBatchSelection();
      }
    }

    /** Flags and selection in step, and no device under two revisions. */
    ghost predicate Consistent()
      reads this, rows
    {
      FlagsAgree() && SingleRevision(View())
    }

    method ExecuteFlag(index: nat, selected: bool)
      requires Valid()
      modifies this`batchSelection, rows`isBatchSelected
      ensures Valid() && Shown(View()) == Shown(Step(old(View()), SetFlag(index, selected)))
      ensures old(Consistent()) ==> Consistent() && View() == Step(old(View()), SetFlag(index, selected))
    {
      if index < |rows| {
        if Consistent() {
          NoSibling(index);
        }
        hide ProjectionsOf, SiblingFlagged, Valid, FlagsAgree;
        SetFlagAt(index, selected);
      }
    }

    method ExecuteSelectAll()
      requires Valid()
      modifies this`batchSelection, rows`isBatchSelected
      ensures Valid() && Shown(View()) == Shown(Step(old(View()), SelectAll))
      ensures old(Consistent()) ==> Consistent() && View() == Step(old(View()), SelectAll)
    {
      hide ProjectionsOf, Valid, FlagsAgree, SelectNew, SelectRows;
      SelectAllVisible();
    }

    lemma NoSibling(index: nat)
      requires index < |rows| && SingleRevision(View())
      ensures !SiblingFlagged(index)
    {
      hide ProjectionsOf;
      ghost var shown := ProjectionsOf(rows);
      assert forall i :: 0 <= i < |rows| && i != index ==> shown[i].deviceId != shown[index].deviceId;
    }

    /** Every run of commands on the row objects, from any valid state and against any Hub answers,
        displays, groups and queues what the run of the table functions does. From a consistent
        state and answers that name each device once it also selects the same, and at its end a row
        is flagged exactly when it is selected at its own revision. */
    method Execute(commands: seq<Command>)
      requires Valid()
      modifies this, rows
      ensures Valid() && Sound(old(View()))
      ensures Shown(View()) == Shown(Run(old(View()), commands))
      ensures old(Consistent()) && (forall c :: c in commands ==> OneRevisionEach(c)) ==>
        Consistent() && View() == Run(old(View()), commands)
    {
      ValidSound();
      hide Valid, View, Consistent, ProjectionsOf, Step, Shown, Sound, OneRevisionEach;
      for n := 0 to |commands|
        invariant Valid()
        invariant Shown(View()) == Shown(Run(old(View()), commands[..n]))
        invariant old(Consistent()) && (forall c :: c in commands ==> OneRevisionEach(c)) ==>
          Consistent() && View() == Run(old(View()), commands[..n])
        invariant fresh(RowSet() - old(RowSet()))
      {
        assert commands[..n + 1][..n] == commands[..n];
        ValidSound();
        StepShown(View(), Run(old(View()), commands[..n]), commands[n]);
        ExecuteOne(commands[n]);
      }
      assert commands[..|commands|] == commands;
    }
  }

  /** A validated answer with two revisions of one device, shown and selected, makes the number of
      hidden rows negative. */
  method TwoRevisionsMakeHiddenNegative() returns (result: QueryResult, hidden: int)
    ensures Validated(result) && hidden == -1
  {
    hide ProjectionsOf, Load, Workspace.Valid, Workspace.FlagsAgree;
    result := TWO_REVISIONS;
    var workspace := new Workspace();
    TwoRevisionsSelectOne();
    FirstLoad(result);
    var loaded := workspace.LoadScope(Some(result), None, false);
    hidden := SelectBoth(workspace, result);
  }

  method SelectBoth(workspace: Workspace, ghost result: QueryResult) returns (hidden: int)
    requires workspace.Valid() && workspace.FlagsAgree() && result == TWO_REVISIONS
    requires workspace.View().rows == result.rows && workspace.View().selection == map[]
    modifies workspace, workspace.rows
    ensures hidden == -1
  {
    hide ProjectionsOf, FlagsOf, SelectNew, SelectRows, HiddenSelection, Shown, DistinctDevices, Step;
    hide Workspace.Valid, Workspace.FlagsAgree, Workspace.FlaggedPlaces;
    TwoRevisionsSelectOne();
    NothingFlagged(workspace, result);
    SelectNewUnflagged(map[], result.rows, workspace.Flags());
    workspace.SelectAllVisible();
    BothFlagged(workspace);
    var selected;
    selected, hidden := workspace.BatchSelectionNumbers();
  }

  lemma FirstLoad(result: QueryResult)
    requires Validated(result)
    ensures Load(EMPTY, result, None, false).rows == result.rows
    ensures Load(EMPTY, result, None, false).selection == map[]
    ensures Accepted(Some(result))
  {
  }

  lemma NothingFlagged(workspace: Workspace, result: QueryResult)
    requires workspace.FlagsAgree() && workspace.View().rows == result.rows && workspace.View().selection == map[]
    ensures workspace.batchSelection == map[] && ProjectionsOf(workspace.rows) == result.rows
    ensures |workspace.Flags()| == |result.rows|
    ensures forall i :: 0 <= i < |workspace.Flags()| ==> !workspace.Flags()[i]
  {
  }

  lemma BothFlagged(workspace: Workspace)
    requires |workspace.rows| == 2 && forall r :: r in workspace.rows ==> r.isBatchSelected
    ensures |workspace.FlaggedPlaces(|workspace.rows|)| == 2
  {
    assert workspace.FlaggedPlaces(|workspace.rows|) == {0, 1};
  }

  /** The first `n` incoming rows stand in order at the front, each in the row object that
      held its key before; behind them wait the rows of `before` not yet placed. */
  ghost predicate Placed(
    rows: seq<DeviceRow>, before: seq<DeviceRow>, existing: map<DeviceKey, DeviceRow>,
    incoming: seq<Projection>, n: nat)
    reads rows`projection, rows`observed, before`projection
  {
    && n <= |rows| && n <= |incoming|
    && Indexes(existing, before)
    && (forall r :: r in rows ==> r.observed)
    && (forall i :: 0 <= i < n ==> Holds(rows[i], before, existing, incoming[i]))
    && Distinct(rows[n..])
    && (forall r :: r in rows[n..] ==> r in before && r.projection.Key() !in Keys(incoming[..n]))
    && (forall r :: r in before && r.projection.Key() !in Keys(incoming[..n]) ==> r in rows[n..])
  }

  lemma PlacedMove(
    rows: seq<DeviceRow>, before: seq<DeviceRow>, existing: map<DeviceKey, DeviceRow>,
    incoming: seq<Projection>, n: nat, current: nat)
    requires Placed(rows, before, existing, incoming, n)
    requires n < |incoming| && DistinctKeys(incoming) && current < |rows|
    requires incoming[n].Key() in existing && rows[current] == existing[incoming[n].Key()]
    requires rows[current].projection == incoming[n]
    ensures n <= current
    ensures current == n ==> Moved(rows, current, n) == rows
    ensures Placed(Moved(rows, current, n), before, existing, incoming, n + 1)
    ensures forall r :: r in Moved(rows, current, n) <==> r in rows
  {
    FoundBehind(rows, before, existing, incoming, n, current);
    NewKey(incoming, n);
    PlacedFacts(rows, before, existing, incoming, n);
    MovedParts(rows, current, n);
    hide Holds, Moved, Distinct, DistinctKeys, Placed, Indexes;
    var moved := Moved(rows, current, n);
    assert moved[..n] == rows[..n];
    PlacedNext(rows, moved, before, existing, incoming, n);
  }

  /** The placed prefix grows by the row that holds the next key; the rest loses just that row. */
  lemma PlacedNext(
    rows: seq<DeviceRow>, moved: seq<DeviceRow>, before: seq<DeviceRow>, existing: map<DeviceKey, DeviceRow>,
    incoming: seq<Projection>, n: nat)
    requires Placed(rows, before, existing, incoming, n) && n < |incoming| && DistinctKeys(incoming)
    requires n < |moved| == |rows| && moved[..n] == rows[..n] && moved[n] in rows[n..]
    requires Holds(moved[n], before, existing, incoming[n]) && incoming[n].Key() in existing
    requires Distinct(moved[n + 1..]) && forall r :: r in moved[n + 1..] <==> r in rows[n..] && r != moved[n]
    requires forall r :: r in moved <==> r in rows
    ensures Placed(moved, before, existing, incoming, n + 1)
  {
    NewKey(incoming, n);
    assert forall i :: 0 <= i < n ==> moved[i] == moved[..n][i] == rows[i];
    assert forall r :: r in rows[n..] && r != moved[n] ==> r.projection.Key() != incoming[n].Key();
    hide Distinct, DistinctKeys, Holds, Indexes;
  }

  /** The row found for the next key is not among those placed, and is the one that belongs there. */
  lemma FoundBehind(
    rows: seq<DeviceRow>, before: seq<DeviceRow>, existing: map<DeviceKey, DeviceRow>,
    incoming: seq<Projection>, n: nat, current: nat)
    requires Placed(rows, before, existing, incoming, n)
    requires n < |incoming| && DistinctKeys(incoming) && current < |rows|
    requires incoming[n].Key() in existing && rows[current] == existing[incoming[n].Key()]
    requires rows[current].projection == incoming[n]
    ensures n <= current && Holds(rows[current], before, existing, incoming[n])
  {
    NewKey(incoming, n);
    assert forall i :: 0 <= i < n ==> Keys(incoming[..n])[i] == rows[i].projection.Key();
  }

  lemma PlacedInsert(
    rows: seq<DeviceRow>, before: seq<DeviceRow>, existing: map<DeviceKey, DeviceRow>,
    incoming: seq<Projection>, n: nat, row: DeviceRow)
    requires Placed(rows, before, existing, incoming, n)
    requires n < |incoming| && DistinctKeys(incoming)
    requires Holds(row, before, existing, incoming[n]) && row.observed && incoming[n].Key() !in existing
    ensures Placed(rows[..n] + [row] + rows[n..], before, existing, incoming, n + 1)
  {
    NewKey(incoming, n);
    assert (rows[..n] + [row] + rows[n..])[n + 1..] == rows[n..];
  }

  lemma PlacedFacts(
    rows: seq<DeviceRow>, before: seq<DeviceRow>, existing: map<DeviceKey, DeviceRow>,
    incoming: seq<Projection>, n: nat)
    requires Placed(rows, before, existing, incoming, n)
    ensures n <= |rows| && n <= |incoming| && Distinct(rows[n..])
    ensures forall i :: 0 <= i < n ==> Holds(rows[i], before, existing, incoming[i])
    ensures forall r :: r in rows ==> r.observed
  {
  }

  lemma StartPlaced(rows: seq<DeviceRow>, existing: map<DeviceKey, DeviceRow>, incoming: seq<Projection>)
    requires Indexes(existing, rows) && DistinctKeys(ProjectionsOf(rows))
    requires forall r :: r in rows ==> r.observed
    ensures Placed(rows, rows, existing, incoming, 0)
  {
    assert rows[0..] == rows && Keys(incoming[..0]) == [];
    forall i, j | 0 <= i < j < |rows| ensures rows[i] != rows[j] {
      assert ProjectionsOf(rows)[i].Key() != ProjectionsOf(rows)[j].Key();
    }
  }

  /** Once every incoming row is placed, the front is the result and the tail is absent from it. */
  lemma FinishPlaced(
    rows: seq<DeviceRow>, before: seq<DeviceRow>, existing: map<DeviceKey, DeviceRow>, incoming: seq<Projection>)
    requires Placed(rows, before, existing, incoming, |incoming|) && DistinctKeys(incoming)
    ensures ProjectionsOf(rows[..|incoming|]) == incoming
    ensures forall i :: 0 <= i < |incoming| ==> rows[i].projection.Key() in Keys(incoming)
    ensures forall i :: |incoming| <= i < |rows| ==> rows[i].projection.Key() !in Keys(incoming)
    ensures forall r :: r in rows[..|incoming|] ==> r !in rows[|incoming|..]
    ensures forall r :: r in before && r !in rows[..|incoming|] ==> r in rows[|incoming|..]
  {
    var n := |incoming|;
    assert incoming[..n] == incoming;
    assert forall i :: 0 <= i < n ==> Keys(incoming)[i] == rows[i].projection.Key();
    assert forall i :: n <= i < |rows| ==> rows[i] in rows[n..];
    forall r | r in before && r.projection.Key() in Keys(incoming) ensures r in rows[..n] {
      var i :| 0 <= i < n && Keys(incoming)[i] == r.projection.Key();
      assert rows[i] == existing[incoming[i].Key()] == r;
      assert rows[i] in rows[..n];
    }
  }

  lemma NewKey(incoming: seq<Projection>, n: nat)
    requires n < |incoming| && DistinctKeys(incoming)
    ensures incoming[n].Key() !in Keys(incoming[..n])
    ensures forall k :: k in Keys(incoming[..n + 1]) <==> k in Keys(incoming[..n]) || k == incoming[n].Key()
  {
    assert Keys(incoming[..n + 1]) == Keys(incoming[..n]) + [incoming[n].Key()];
  }

  /** Every key shown before keeps its row object at its new place. */
  ghost predicate RowsRetained(
    before: seq<DeviceRow>, shownBefore: seq<Projection>, after: seq<DeviceRow>, incoming: seq<Projection>)
    requires |before| == |shownBefore|
  {
    && |after| == |incoming|
    && forall i, j :: 0 <= i < |before| && 0 <= j < |incoming| && shownBefore[i].Key() == incoming[j].Key() ==>
         after[j] == before[i]
  }

  /** The row object an incoming row must end up in. */
  ghost predicate Holds(
    row: DeviceRow, before: seq<DeviceRow>, existing: map<DeviceKey, DeviceRow>, incoming: Projection)
    reads row`projection
  {
    && row.projection == incoming
    && (incoming.Key() in existing ==> row == existing[incoming.Key()])
    && (incoming.Key() !in existing ==> row !in before)
  }

  function Moved<T>(rows: seq<T>, from: nat, to: nat): (moved: seq<T>)
    requires to <= from < |rows|
    ensures |moved| == |rows|
  {
    rows[..to] + [rows[from]] + rows[to..from] + rows[from + 1..]
  }

  lemma WithoutOne<T>(s: seq<T>, k: nat)
    requires k < |s| && Distinct(s)
    ensures var out := s[..k] + s[k + 1..];
            Distinct(out) && forall r :: r in out <==> r in s && r != s[k]
  {
    var out := s[..k] + s[k + 1..];
    assert forall i :: 0 <= i < |out| ==> out[i] == s[if i < k then i else i + 1];
    forall r | r in s && r != s[k] ensures r in out {
      var i :| 0 <= i < |s| && s[i] == r;
      assert out[if i < k then i else i - 1] == r;
    }
  }

  lemma MovedParts<T>(rows: seq<T>, from: nat, to: nat)
    requires to <= from < |rows| && Distinct(rows[to..])
    ensures var moved := Moved(rows, from, to);
            && moved[..to] == rows[..to] && moved[to] == rows[from]
            && (from == to ==> moved == rows)
            && Distinct(moved[to + 1..])
            && (forall r :: r in moved[to + 1..] <==> r in rows[to..] && r != rows[from])
            && (forall r :: r in moved <==> r in rows)
  {
    var moved := Moved(rows, from, to);
    var tail := rows[to..];
    var rest := tail[..from - to] + tail[from - to + 1..];
    WithoutOne(tail, from - to);
    assert moved[to + 1..] == rest;
    assert tail[from - to] == rows[from];
    assert moved == rows[..to] + ([rows[from]] + rest);
    assert rows == rows[..to] + tail;
    assert from == to ==> moved == rows;
  }
}
