// assign_substrates_to_groups of src/web/jv_parser.py: a stored analysis is upgraded, every substrate with all its
// devices goes to one group, and the statistics are computed afresh.
module Assignments {
  import opened GroupStatistics
  import opened Representatives
  import opened Substrates
  import opened Wrappers

  // A stored analysis; statistics is None before the first assignment, and summaries holds further derived tables.
  datatype Analysis = Analysis(schema: int, devices: seq<DeviceRow>, substrates: seq<Substrate>,
                               statistics: Option<Statistics>, summaries: map<string, Table>)

  datatype AssignmentError = SubstrateUnassigned | ExclusionInvalid | SubstrateUnknown

  const REASON_LIMIT := 200
  const ANALYSIS_SCHEMA_VERSION := 7

  // ----- the upgrade of stored analyses -----

  const DROPPED := {"summary", "acquisition_summary"}

  function NoTables(t: Tables): Tables { Tables(None, seq(|t.traces|, _ => None)) }

  function UpgradeDevice(d: DeviceRow): DeviceRow {
    d.(metrics := Upgraded(d.traces, d.metrics), tables := NoTables(d.tables))
  }

  // _normalize_legacy_analysis: schemas 5 and 6 are upgraded, any other is left as it is.
  function UpgradeAnalysis(a: Analysis): Analysis {
    if a.schema != 5 && a.schema != 6 then a
    else
      a.(schema := ANALYSIS_SCHEMA_VERSION,
         devices := seq(|a.devices|, i requires 0 <= i < |a.devices| => UpgradeDevice(a.devices[i])),
         summaries := a.summaries - DROPPED)
  }

  method NormalizeLegacyAnalysis(a: Analysis) returns (migrated: Analysis)
    ensures migrated == UpgradeAnalysis(a)
  {
    if a.schema != 5 && a.schema != 6 {
      return a;
    }
    var devices := a.devices;
    for i := 0 to |devices|
      invariant |devices| == |a.devices|
      invariant forall j :: 0 <= j < |devices| ==>
        devices[j] == if j < i then UpgradeDevice(a.devices[j]) else a.devices[j]
    {
      var device := new StoredDevice(devices[i].traces, devices[i].metrics);
      device.Normalize();
      devices := devices[i := devices[i].(metrics := device.metrics, tables := NoTables(devices[i].tables))];
    }
    migrated := a.(schema := ANALYSIS_SCHEMA_VERSION, devices := devices, summaries := a.summaries - DROPPED);
  }

  // ----- assigning -----

  function MembersOf(devices: seq<DeviceRow>): seq<Member> {
    seq(|devices|, i requires 0 <= i < |devices| =>
      Member(devices[i].substrateId, devices[i].deviceId, devices[i].instrumentLabel))
  }

  function GroupIds(groups: seq<Group>): set<string> { set i | 0 <= i < |groups| :: groups[i].groupId }

  function SubstrateIds(substrates: seq<Substrate>): set<string> {
    set i | 0 <= i < |substrates| :: substrates[i].substrateId
  }

  function AllDeviceIds(devices: seq<DeviceRow>): set<string> { set i | 0 <= i < |devices| :: devices[i].deviceId }

  // The group a substrate is assigned to; texts are taken as stripped.
  function GroupOf(assignments: map<string, string>, substrateId: string): string {
    if substrateId in assignments then assignments[substrateId] else ""
  }

  function SubstratesOf(a: Analysis): seq<Substrate> {
    if a.substrates == [] then Records(MembersOf(a.devices)) else a.substrates
  }

  function Shortened(reason: string): string { if |reason| > REASON_LIMIT then reason[..REASON_LIMIT] else reason }

  // _validated_exclusions
  predicate ExclusionsValid(devices: seq<DeviceRow>, exclusions: map<string, string>) {
    forall id :: id in exclusions ==> id in AllDeviceIds(devices) && exclusions[id] != ""
  }

  function AssignSubstrate(s: Substrate, assignments: map<string, string>): Substrate {
    s.(groupId := Some(GroupOf(assignments, s.substrateId)))
  }

  function AssignDevice(d: DeviceRow, assignments: map<string, string>, exclusions: map<string, string>): DeviceRow {
    d.(groupId := GroupOf(assignments, d.substrateId),
       exclusion := if d.deviceId in exclusions then Some(Shortened(exclusions[d.deviceId])) else None)
  }

  function AssignDevices(devices: seq<DeviceRow>, assignments: map<string, string>, exclusions: map<string, string>)
    : seq<DeviceRow>
  {
    seq(|devices|, i requires 0 <= i < |devices| => AssignDevice(devices[i], assignments, exclusions))
  }

  function AssignAll(substrates: seq<Substrate>, assignments: map<string, string>): seq<Substrate> {
    seq(|substrates|, i requires 0 <= i < |substrates| => AssignSubstrate(substrates[i], assignments))
  }

  // The arguments of one call.
  datatype Request = Request(assignments: map<string, string>, groups: seq<Group>, exclusions: map<string, string>)

  predicate AllAssigned(substrates: seq<Substrate>, r: Request) {
    forall i :: 0 <= i < |substrates| ==> GroupOf(r.assignments, substrates[i].substrateId) in GroupIds(r.groups)
  }

  predicate SubstratesKnown(devices: seq<DeviceRow>, substrates: seq<Substrate>) {
    forall i :: 0 <= i < |devices| ==> devices[i].substrateId in SubstrateIds(substrates)
  }

  // The call, once the analysis is upgraded.
  function AssignUpgraded(a: Analysis, r: Request, c: Settings): Result<Analysis, AssignmentError>
    requires c.Valid()
  {
    var substrates := SubstratesOf(a);
    if !AllAssigned(substrates, r) then Err(SubstrateUnassigned)
    else if !ExclusionsValid(a.devices, r.exclusions) then Err(ExclusionInvalid)
    else if !SubstratesKnown(a.devices, substrates) then Err(SubstrateUnknown)
    else
      var devices := AssignDevices(a.devices, r.assignments, r.exclusions);
      Ok(a.(devices := devices, substrates := AssignAll(substrates, r.assignments),
            statistics := Some(StatisticsOf(devices, r.groups, c))))
  }

  // What assign_substrates_to_groups returns.
  function Assign(a: Analysis, r: Request, c: Settings): Result<Analysis, AssignmentError>
    requires c.Valid()
  {
    AssignUpgraded(UpgradeAnalysis(a), r, c)
  }

  // The loop over the substrates; None where a substrate is left without a group.
  method AssignRows(rows: seq<Substrate>, r: Request) returns (done: Option<(seq<Substrate>, map<string, string>)>)
    ensures done.Some? <==> AllAssigned(rows, r)
    ensures done.Some? ==> done.value.0 == AssignAll(rows, r.assignments)
    ensures done.Some? ==> done.value.1.Keys == SubstrateIds(rows)
    ensures done.Some? ==> forall id :: id in done.value.1 ==> done.value.1[id] == GroupOf(r.assignments, id)
  {
    var groupIds := GroupIds(r.groups);
    var substrates := rows;
    var assignedGroups: map<string, string> := map[];
    for i := 0 to |substrates|
      invariant |substrates| == |rows|
      invariant forall j :: 0 <= j < |rows| ==>
        substrates[j] == if j < i then AssignSubstrate(rows[j], r.assignments) else rows[j]
      invariant forall j :: 0 <= j < i ==> GroupOf(r.assignments, rows[j].substrateId) in groupIds
      invariant assignedGroups.Keys == set j | 0 <= j < i :: rows[j].substrateId
      invariant forall id :: id in assignedGroups ==> assignedGroups[id] == GroupOf(r.assignments, id)
    {
      var id := substrates[i].substrateId;
      var groupId := GroupOf(r.assignments, id);
      if groupId !in groupIds {
        return None;
      }
      substrates := substrates[i := substrates[i].(groupId := Some(groupId))];
      assignedGroups := assignedGroups[id := groupId];
    }
    done := Some((substrates, assignedGroups));
  }

  // The loop over the devices; None where a device's substrate is missing.
  method AssignDeviceRows(rows: seq<DeviceRow>, assignedGroups: map<string, string>, r: Request)
    returns (done: Option<seq<DeviceRow>>)
    requires forall id :: id in assignedGroups ==> assignedGroups[id] == GroupOf(r.assignments, id)
    ensures done.Some? <==> forall i :: 0 <= i < |rows| ==> rows[i].substrateId in assignedGroups
    ensures done.Some? ==> done.value == AssignDevices(rows, r.assignments, r.exclusions)
  {
    var devices := rows;
    for i := 0 to |devices|
      invariant |devices| == |rows|
      invariant forall j :: 0 <= j < |rows| ==>
        devices[j] == if j < i then AssignDevice(rows[j], r.assignments, r.exclusions) else rows[j]
      invariant forall j :: 0 <= j < i ==> rows[j].substrateId in assignedGroups
    {
      var device := devices[i];
      if device.substrateId !in assignedGroups {
        return None;
      }
      device := device.(groupId := assignedGroups[device.substrateId]);
      if device.deviceId in r.exclusions {
        device := device.(exclusion := Some(Shortened(r.exclusions[device.deviceId])));
      } else {
        device := device.(exclusion := None);
      }
      devices := devices[i := device];
    }
    done := Some(devices);
  }

  // assign_substrates_to_groups, on its own copy of the analysis
  method AssignSubstratesToGroups(analysis: Analysis, r: Request, c: Settings)
    returns (updated: Result<Analysis, AssignmentError>)
    requires c.Valid()
    ensures updated == Assign(analysis, r, c)
  {
    var a := NormalizeLegacyAnalysis(analysis);
    var substrates := a.substrates;
    if substrates == [] {
      substrates := SubstrateRecords(MembersOf(a.devices));
    }
    var rows := AssignRows(substrates, r);
    if rows.None? {
      return Err(SubstrateUnassigned);
    }
    if !ExclusionsValid(a.devices, r.exclusions) {
      return Err(ExclusionInvalid);
    }
    var devices := AssignDeviceRows(a.devices, rows.value.1, r);
    if devices.None? {
      return Err(SubstrateUnknown);
    }
    var statistics := ComputeStatistics(devices.value, r.groups, c);
    updated := Ok(a.(devices := devices.value, substrates := rows.value.0, statistics := Some(statistics)));
  }

  // ----- the last assignment wins -----

  lemma SameIds(a: Analysis, r: Request, c: Settings)
    requires c.Valid() && AssignUpgraded(a, r, c).Ok?
    ensures var b := AssignUpgraded(a, r, c).value;
      && MembersOf(b.devices) == MembersOf(a.devices) && AllDeviceIds(b.devices) == AllDeviceIds(a.devices)
      && |SubstratesOf(b)| == |SubstratesOf(a)|
      && forall i :: 0 <= i < |SubstratesOf(a)| ==>
           SubstratesOf(b)[i] == AssignSubstrate(SubstratesOf(a)[i], r.assignments)
  {
    var b := AssignUpgraded(a, r, c).value;
    forall id ensures id in AllDeviceIds(b.devices) <==> id in AllDeviceIds(a.devices) {
      if id in AllDeviceIds(a.devices) {
        var i :| 0 <= i < |a.devices| && a.devices[i].deviceId == id;
        assert b.devices[i].deviceId == id;
      }
    }
    assert MembersOf(b.devices) == MembersOf(a.devices);
    if b.substrates == [] {
      assert SubstratesOf(a) == [];
    }
  }

  lemma SubstratesAgree(s: seq<Substrate>, t: seq<Substrate>, first: Request, last: Request)
    requires |s| == |t| && forall i :: 0 <= i < |s| ==> t[i] == AssignSubstrate(s[i], first.assignments)
    ensures AllAssigned(t, last) <==> AllAssigned(s, last)
    ensures SubstrateIds(t) == SubstrateIds(s)
    ensures AssignAll(t, last.assignments) == AssignAll(s, last.assignments)
  {
    forall i | 0 <= i < |s|
      ensures AssignAll(t, last.assignments)[i] == AssignAll(s, last.assignments)[i] && t[i].substrateId == s[i].substrateId
    {
    }
  }

  lemma DevicesAgree(devices: seq<DeviceRow>, first: Request, last: Request, substrates: seq<Substrate>)
    ensures var before := AssignDevices(devices, first.assignments, first.exclusions);
      && AssignDevices(before, last.assignments, last.exclusions) == AssignDevices(devices, last.assignments, last.exclusions)
      && (SubstratesKnown(before, substrates) <==> SubstratesKnown(devices, substrates))
  {
    var before := AssignDevices(devices, first.assignments, first.exclusions);
    assert forall i :: 0 <= i < |devices| ==> before[i].substrateId == devices[i].substrateId;
  }

  lemma LastUpgradedWins(a: Analysis, first: Request, last: Request, c: Settings)
    requires c.Valid() && AssignUpgraded(a, first, c).Ok?
    ensures AssignUpgraded(AssignUpgraded(a, first, c).value, last, c) == AssignUpgraded(a, last, c)
  {
    var b := AssignUpgraded(a, first, c).value;
    SameIds(a, first, c);
    SubstratesAgree(SubstratesOf(a), SubstratesOf(b), first, last);
    DevicesAgree(a.devices, first, last, SubstratesOf(a));
  }

  /** Assigning again, with other assignments, groups and exclusions, gives what assigning only then would have given,
      the upgrade of the stored analysis included: nothing of the first assignment remains. */
  lemma LastAssignmentWins(a: Analysis, first: Request, last: Request, c: Settings)
    requires c.Valid() && Assign(a, first, c).Ok?
    ensures Assign(Assign(a, first, c).value, last, c) == Assign(a, last, c)
  {
    LastUpgradedWins(UpgradeAnalysis(a), first, last, c);
  }

  // ----- flat records -----

  // The same device, except perhaps for what its flat record holds.
  predicate AlikeButFlat(d: DeviceRow, e: DeviceRow) {
    d == e || (d.metrics.Flat? && e.metrics.Flat? && d.(metrics := e.metrics) == e)
  }

  lemma FlatIsNotSeen(d: DeviceRow, e: DeviceRow, r: Request, name: string)
    requires AlikeButFlat(d, e)
    ensures SameSample(AssignDevice(UpgradeDevice(d), r.assignments, r.exclusions),
                       AssignDevice(UpgradeDevice(e), r.assignments, r.exclusions), name)
  {
    if d != e {
      FlatRecordIsNoSample(d.traces, d.metrics.record, name);
      FlatRecordIsNoSample(e.traces, e.metrics.record, name);
      assert forall saved: Saved :: saved.Flat? ==> CombinedTier in UpgradedTiers(d.traces, saved);
    }
  }

  lemma AlikeAreAssigned(u: Analysis, v: Analysis, r: Request, c: Settings)
    requires c.Valid() && u.substrates == v.substrates && |u.devices| == |v.devices|
    requires forall i :: 0 <= i < |u.devices| ==> u.devices[i].(metrics := v.devices[i].metrics) == v.devices[i]
    ensures AssignUpgraded(u, r, c).Err? <==> AssignUpgraded(v, r, c).Err?
    ensures AssignUpgraded(u, r, c).Err? ==> AssignUpgraded(u, r, c).error == AssignUpgraded(v, r, c).error
  {
    assert MembersOf(u.devices) == MembersOf(v.devices);
    assert AllDeviceIds(u.devices) == AllDeviceIds(v.devices);
    assert forall i :: 0 <= i < |u.devices| ==> u.devices[i].substrateId == v.devices[i].substrateId;
    assert SubstratesKnown(u.devices, SubstratesOf(u)) <==> SubstratesKnown(v.devices, SubstratesOf(v));
  }

  /** No assignment of a v5 or v6 analysis depends on what its flat records hold: two analyses that differ in nothing
      else fail alike, or get the same statistics and comparisons. */
  lemma FlatRecordsAreNotSeen(a: Analysis, b: Analysis, r: Request, c: Settings)
    requires c.Valid() && a.schema == b.schema && (a.schema == 5 || a.schema == 6)
    requires a.substrates == b.substrates && |a.devices| == |b.devices|
    requires forall i :: 0 <= i < |a.devices| ==> AlikeButFlat(a.devices[i], b.devices[i])
    ensures Assign(a, r, c).Ok? <==> Assign(b, r, c).Ok?
    ensures Assign(a, r, c).Err? ==> Assign(a, r, c).error == Assign(b, r, c).error
    ensures Assign(a, r, c).Ok? ==> Assign(a, r, c).value.statistics == Assign(b, r, c).value.statistics
  {
    var u, v := UpgradeAnalysis(a), UpgradeAnalysis(b);
    forall i | 0 <= i < |a.devices| ensures u.devices[i].(metrics := v.devices[i].metrics) == v.devices[i] {
      assert AlikeButFlat(a.devices[i], b.devices[i]);
    }
    AlikeAreAssigned(u, v, r, c);
    if Assign(a, r, c).Ok? {
      var x, y := Assign(a, r, c).value.devices, Assign(b, r, c).value.devices;
      forall name ensures SameSamples(x, y, name) {
        forall i | 0 <= i < |x| ensures SameSample(x[i], y[i], name) {
          FlatIsNotSeen(a.devices[i], b.devices[i], r, name);
        }
      }
      StatisticsAlike(x, y, r.groups, c);
    }
  }

  // ----- what an assignment keeps -----

  function Multiplicity(groups: seq<Group>, id: string): nat {
    if groups == [] then 0
    else Multiplicity(groups[..|groups| - 1], id) + (if groups[|groups| - 1].groupId == id then 1 else 0)
  }

  lemma {:induction false} IsListed(groups: seq<Group>, id: string)
    ensures id in GroupIds(groups) <==> Multiplicity(groups, id) > 0
  {
    if groups != [] {
      IsListed(groups[..|groups| - 1], id);
      assert groups[|groups| - 1].groupId in GroupIds(groups);
    }
  }

  // The device counts of all groups together.
  function TotalCount(devices: seq<DeviceRow>, groups: seq<Group>): nat {
    if groups == [] then 0
    else TotalCount(devices, groups[..|groups| - 1]) + |InGroup(devices, groups[|groups| - 1].groupId)|
  }

  // One more device is counted once for every listing of its group.
  lemma {:induction false} TotalCountStep(devices: seq<DeviceRow>, d: DeviceRow, groups: seq<Group>)
    ensures TotalCount(devices + [d], groups) == TotalCount(devices, groups) + Multiplicity(groups, d.groupId)
  {
    if groups != [] {
      TotalCountStep(devices, d, groups[..|groups| - 1]);
      assert (devices + [d])[..|devices|] == devices;
    }
  }

  lemma {:induction false} EmptyTotal(groups: seq<Group>)
    ensures TotalCount([], groups) == 0
  {
    if groups != [] {
      EmptyTotal(groups[..|groups| - 1]);
    }
  }

  predicate ListedOnce(devices: seq<DeviceRow>, groups: seq<Group>) {
    forall i :: 0 <= i < |devices| ==> Multiplicity(groups, devices[i].groupId) == 1
  }

  lemma {:induction false} CountsAddUp(devices: seq<DeviceRow>, groups: seq<Group>)
    requires forall i :: 0 <= i < |devices| ==> devices[i].groupId in GroupIds(groups)
    ensures TotalCount(devices, groups) >= |devices|
    ensures TotalCount(devices, groups) == |devices| <==> ListedOnce(devices, groups)
  {
    if devices == [] {
      EmptyTotal(groups);
    } else {
      var front, last := devices[..|devices| - 1], devices[|devices| - 1];
      assert devices == front + [last];
      CountsAddUp(front, groups);
      TotalCountStep(front, last, groups);
      IsListed(groups, last.groupId);
      assert ListedOnce(devices, groups) <==> ListedOnce(front, groups) && Multiplicity(groups, last.groupId) == 1;
    }
  }

  lemma RowCounts(devices: seq<DeviceRow>, group: Group, c: Settings)
    ensures var row := GroupRowOf(devices, group, c);
      row.deviceCount == |InGroup(devices, group.groupId)| && row.validCount + row.excludedCount <= row.deviceCount
  {
    SamplesAndExcluded(InGroup(devices, group.groupId));
  }

  lemma {:induction false} SamplesAndExcluded(devices: seq<DeviceRow>)
    ensures CountIf(devices, IsSample) + CountIf(devices, IsExcluded) <= |devices|
  {
    if devices != [] {
      SamplesAndExcluded(devices[1..]);
    }
  }

  function SumCounts(rows: seq<GroupRow>): nat {
    if rows == [] then 0 else SumCounts(rows[..|rows| - 1]) + rows[|rows| - 1].deviceCount
  }

  lemma {:induction false} SumCountsIs(devices: seq<DeviceRow>, groups: seq<Group>, c: Settings)
    ensures SumCounts(GroupRows(devices, groups, c)) == TotalCount(devices, groups)
  {
    if groups != [] {
      var n := |groups| - 1;
      SumCountsIs(devices, groups[..n], c);
      assert GroupRows(devices, groups, c)[..n] == GroupRows(devices, groups[..n], c);
    }
  }

  // Every group that a device is assigned to is listed once.
  predicate GroupsInUseListedOnce(a: Analysis, r: Request) {
    forall i :: 0 <= i < |a.devices| ==> Multiplicity(r.groups, GroupOf(r.assignments, a.devices[i].substrateId)) == 1
  }

  /** After an assignment no device is lost from the statistics: the groups' device counts sum to at least the number of
      devices, and to exactly that number when, and only when, the call lists every group in use once. */
  lemma GroupCountsConserveDevices(a: Analysis, r: Request, c: Settings)
    requires c.Valid() && Assign(a, r, c).Ok?
    ensures var b := Assign(a, r, c).value;
      && b.statistics.Some? && SumCounts(b.statistics.value.groups) >= |a.devices|
      && (SumCounts(b.statistics.value.groups) == |a.devices| <==> GroupsInUseListedOnce(a, r))
  {
    var b, u := Assign(a, r, c).value, UpgradeAnalysis(a);
    forall i | 0 <= i < |b.devices|
      ensures b.devices[i].groupId in GroupIds(r.groups)
      ensures b.devices[i].groupId == GroupOf(r.assignments, a.devices[i].substrateId)
    {
      assert u.devices[i].substrateId in SubstrateIds(SubstratesOf(u));
    }
    SumCountsIs(b.devices, r.groups, c);
    CountsAddUp(b.devices, r.groups);
    assert ListedOnce(b.devices, r.groups) <==> GroupsInUseListedOnce(a, r);
  }

  /** In every row the devices that count and the excluded ones are different devices of the group. */
  lemma RowsCountApart(a: Analysis, r: Request, c: Settings, i: nat)
    requires c.Valid() && Assign(a, r, c).Ok? && i < |r.groups|
    ensures var rows := Assign(a, r, c).value.statistics.value.groups;
      && i < |rows| && rows[i].group == r.groups[i]
      && rows[i].validCount + rows[i].excludedCount <= rows[i].deviceCount
  {
    RowCounts(Assign(a, r, c).value.devices, r.groups[i], c);
  }

  // ----- what the call records -----

  // The device of the result: assigned, and excluded when the call says so, for the first 200 characters of the reason.
  predicate IsRecorded(before: DeviceRow, after: DeviceRow, r: Request) {
    && after.groupId == (if before.substrateId in r.assignments then r.assignments[before.substrateId] else "")
    && (after.exclusion.Some? <==> before.deviceId in r.exclusions)
    && (before.deviceId in r.exclusions ==>
          after.exclusion.value <= r.exclusions[before.deviceId]
          && |after.exclusion.value| == if |r.exclusions[before.deviceId]| < 200 then |r.exclusions[before.deviceId]| else 200)
    && after == before.(groupId := after.groupId, exclusion := after.exclusion)
  }

  /** After the call every device of the upgraded analysis is there, in order, in the group assigned to its substrate and
      excluded exactly when the call excludes it, for the reason given, and otherwise as it was; and every substrate
      carries its assigned group, which is one of those listed. */
  lemma AssignmentIsRecorded(a: Analysis, r: Request, c: Settings)
    requires c.Valid() && Assign(a, r, c).Ok?
    ensures var b, u := Assign(a, r, c).value, UpgradeAnalysis(a);
      && |b.devices| == |u.devices| == |a.devices|
      && (forall i :: 0 <= i < |b.devices| ==> IsRecorded(u.devices[i], b.devices[i], r))
      && |b.substrates| == |SubstratesOf(u)|
      && (forall i :: 0 <= i < |b.substrates| ==> var id := b.substrates[i].substrateId;
            && b.substrates[i] == SubstratesOf(u)[i].(groupId := b.substrates[i].groupId)
            && b.substrates[i].groupId == Some(if id in r.assignments then r.assignments[id] else "")
            && b.substrates[i].groupId.value in GroupIds(r.groups))
  {
  }

  lemma MarkedWhen(a: Analysis, r: Request, c: Settings, id: string, j: nat)
    requires c.Valid() && Assign(a, r, c).Ok? && j < |a.devices|
    ensures |Assign(a, r, c).value.devices| == |a.devices|
    ensures var d := Assign(a, r, c).value.devices[j];
      d.groupId == id && d.exclusion.Some?
      <==> a.devices[j].deviceId in r.exclusions && GroupOf(r.assignments, a.devices[j].substrateId) == id
  {
    AssignmentIsRecorded(a, r, c);
    assert IsRecorded(UpgradeAnalysis(a).devices[j], Assign(a, r, c).value.devices[j], r);
  }

  lemma MarkedAre(a: Analysis, r: Request, c: Settings, id: string)
    requires c.Valid() && Assign(a, r, c).Ok?
    ensures var devices := Assign(a, r, c).value.devices;
      (set j | 0 <= j < |devices| && devices[j].groupId == id && devices[j].exclusion.Some?)
      == set j | 0 <= j < |a.devices| && a.devices[j].deviceId in r.exclusions
                 && GroupOf(r.assignments, a.devices[j].substrateId) == id
  {
    AssignmentIsRecorded(a, r, c);
    forall j: nat | j < |a.devices|
      ensures var d := Assign(a, r, c).value.devices[j];
        d.groupId == id && d.exclusion.Some?
        <==> a.devices[j].deviceId in r.exclusions && GroupOf(r.assignments, a.devices[j].substrateId) == id
    {
      MarkedWhen(a, r, c, id, j);
    }
  }

  /** The counts of excluded devices are the call's: of each group, the devices whose ids the call excludes. */
  lemma ExclusionsAreCounted(a: Analysis, r: Request, c: Settings, i: nat)
    requires c.Valid() && Assign(a, r, c).Ok? && i < |r.groups|
    ensures var b := Assign(a, r, c).value;
      && b.statistics.Some? && i < |b.statistics.value.groups|
      && b.statistics.value.groups[i].excludedCount
         == |set j | 0 <= j < |a.devices| && a.devices[j].deviceId in r.exclusions
                     && GroupOf(r.assignments, a.devices[j].substrateId) == r.groups[i].groupId|
  {
    RowCountsAre(Assign(a, r, c).value.devices, r.groups[i], c);
    MarkedAre(a, r, c, r.groups[i].groupId);
  }

  predicate Ungrouped(substrates: seq<Substrate>, r: Request) {
    exists s :: s in substrates && (s.substrateId in r.assignments ==> r.assignments[s.substrateId] !in GroupIds(r.groups))
                && (s.substrateId !in r.assignments ==> "" !in GroupIds(r.groups))
  }

  predicate Unexplained(devices: seq<DeviceRow>, r: Request) {
    exists id :: id in r.exclusions && (r.exclusions[id] == "" || forall d :: d in devices ==> d.deviceId != id)
  }

  predicate Stray(devices: seq<DeviceRow>, substrates: seq<Substrate>) {
    exists d :: d in devices && forall s :: s in substrates ==> s.substrateId != d.substrateId
  }

  /** The call fails exactly when a listed substrate has no listed group, an exclusion names no device or no reason, or a
      device belongs to no listed substrate; and the first of these that holds is the error. */
  lemma FailsWhen(a: Analysis, r: Request, c: Settings)
    requires c.Valid()
    ensures var u := UpgradeAnalysis(a);
      var ungrouped, unexplained, stray :=
        Ungrouped(SubstratesOf(u), r), Unexplained(u.devices, r), Stray(u.devices, SubstratesOf(u));
      && (Assign(a, r, c) == Err(SubstrateUnassigned) <==> ungrouped)
      && (Assign(a, r, c) == Err(ExclusionInvalid) <==> !ungrouped && unexplained)
      && (Assign(a, r, c) == Err(SubstrateUnknown) <==> !ungrouped && !unexplained && stray)
  {
    var u := UpgradeAnalysis(a);
    UngroupedWhen(SubstratesOf(u), r);
    UnexplainedWhen(u.devices, r);
    StrayWhen(u.devices, SubstratesOf(u));
  }

  lemma UngroupedWhen(substrates: seq<Substrate>, r: Request)
    ensures AllAssigned(substrates, r) <==> !Ungrouped(substrates, r)
  {
    if !AllAssigned(substrates, r) {
      var i :| 0 <= i < |substrates| && GroupOf(r.assignments, substrates[i].substrateId) !in GroupIds(r.groups);
      assert substrates[i] in substrates;
    }
  }

  lemma UnexplainedWhen(devices: seq<DeviceRow>, r: Request)
    ensures ExclusionsValid(devices, r.exclusions) <==> !Unexplained(devices, r)
  {
    assert forall d :: d in devices ==> d.deviceId in AllDeviceIds(devices);
    assert forall id :: id in AllDeviceIds(devices) ==> exists d :: d in devices && d.deviceId == id;
  }

  lemma StrayWhen(devices: seq<DeviceRow>, substrates: seq<Substrate>)
    ensures SubstratesKnown(devices, substrates) <==> !Stray(devices, substrates)
  {
    assert forall s :: s in substrates ==> s.substrateId in SubstrateIds(substrates);
    assert forall id :: id in SubstrateIds(substrates) ==> exists s :: s in substrates && s.substrateId == id;
    if !SubstratesKnown(devices, substrates) {
      var i :| 0 <= i < |devices| && devices[i].substrateId !in SubstrateIds(substrates);
      assert devices[i] in devices;
    }
  }

  /** Analyses of the two older schemas become schema 7: every device has its metrics upgraded and loses the tables of its
      instrument, the two cached summaries go, and everything else stays, as it does for any other schema. */
  lemma AnalysisUpgradeIs(a: Analysis)
    ensures var b := UpgradeAnalysis(a);
      if a.schema != 5 && a.schema != 6 then b == a
      else
        && b.schema == 7 && |b.devices| == |a.devices| && b.substrates == a.substrates && b.statistics == a.statistics
        && b.summaries.Keys == a.summaries.Keys - {"summary", "acquisition_summary"}
        && (forall key :: key in b.summaries ==> b.summaries[key] == a.summaries[key])
        && forall i :: 0 <= i < |a.devices| ==>
             && b.devices[i].metrics == Upgraded(a.devices[i].traces, a.devices[i].metrics)
             && b.devices[i].tables.device.None?
             && (forall t :: t in b.devices[i].tables.traces ==> t.None?)
             && b.devices[i] == a.devices[i].(metrics := b.devices[i].metrics, tables := b.devices[i].tables)
  {
  }
}
