// The data repair of migrations/versions/0014_deployment_integrity_repairs.py: analyses whose substrates carry
// truncated three-character ids are regrouped by the full laser mark, and the rows that refer to them follow.
module LegacyRepair {
  import opened Sequences
  import opened Substrates
  import opened Wrappers

  // mark is the device mark, stripped and in upper case; channels are the channel numbers found in the label.
  datatype Device = Device(deviceId: string, instrumentLabel: string, mark: string, channels: seq<int>,
                           ordinal: Option<int>, substrateId: string)

  // A stored analysis.  None in a list is an entry that is not a JSON object; an analysis that is no object, or has no
  // device list, is one without devices; substrates is None when it is not a list.
  datatype Document = Document(devices: seq<Option<Device>>, substrates: Option<seq<Option<Substrate>>>, schema: int)

  datatype Outcome = Outcome(document: Document, changed: bool, mapping: map<string, string>)

  // [A-Z][0-9]{3,8}
  predicate IsFullMark(mark: string) {
    4 <= |mark| <= 9 && 'A' <= mark[0] <= 'Z' && forall i :: 1 <= i < |mark| ==> '0' <= mark[i] <= '9'
  }

  function RepairDevice(entry: Option<Device>): Option<Device> {
    if entry.None? || !IsFullMark(entry.value.mark) then None
    else
      var d := entry.value;
      if |d.channels| != 1 || d.channels[0] < 1 then None
      else Some(d.(ordinal := Some(d.channels[0]), substrateId := d.mark))
  }

  predicate DevicesRepairable(devices: seq<Option<Device>>) {
    devices != [] && forall i :: 0 <= i < |devices| ==> RepairDevice(devices[i]).Some?
  }

  function RepairDevices(devices: seq<Option<Device>>): seq<Option<Device>> {
    seq(|devices|, i requires 0 <= i < |devices| => RepairDevice(devices[i]))
  }

  // The repaired devices, as grouping sees them.
  function Members(devices: seq<Option<Device>>): (members: seq<Member>)
    requires DevicesRepairable(devices)
  {
    seq(|devices|, i requires 0 <= i < |devices| =>
      var d := devices[i].value; Member(d.mark, d.deviceId, d.instrumentLabel))
  }

  // ----- old id to full mark -----

  predicate Matches(mark: string, id: string) {
    mark == id || (|mark| >= 3 && mark[..3] == id)
  }

  function MatchesOf(marks: seq<string>, id: string): seq<string> {
    if marks == [] then []
    else (if Matches(marks[0], id) then [marks[0]] else []) + MatchesOf(marks[1..], id)
  }

  lemma {:induction false} MatchesAre(marks: seq<string>, id: string, mark: string)
    ensures mark in MatchesOf(marks, id) <==> mark in marks && Matches(mark, id)
  {
    if marks != [] {
      MatchesAre(marks[1..], id, mark);
      assert marks == [marks[0]] + marks[1..];
    }
  }

  // One mark matches, and no other.
  ghost predicate OnlyMatch(marks: seq<string>, id: string, mark: string) {
    mark in marks && Matches(mark, id) && forall other :: other in marks && Matches(other, id) ==> other == mark
  }

  lemma SingleMatch(marks: seq<string>, id: string)
    requires |MatchesOf(marks, id)| == 1
    ensures OnlyMatch(marks, id, MatchesOf(marks, id)[0])
  {
    forall mark ensures mark == MatchesOf(marks, id)[0] <==> mark in marks && Matches(mark, id) {
      MatchesAre(marks, id, mark);
    }
  }

  lemma {:induction false} NoMatch(marks: seq<string>, id: string)
    requires forall mark :: mark in marks ==> !Matches(mark, id)
    ensures MatchesOf(marks, id) == []
  {
    if marks != [] {
      NoMatch(marks[1..], id);
    }
  }

  lemma {:induction false} MatchIsSingle(marks: seq<string>, id: string, mark: string)
    requires OnlyMatch(marks, id, mark) && Distinct(marks)
    ensures MatchesOf(marks, id) == [mark]
  {
    if marks[0] == mark {
      NoMatch(marks[1..], id);
    } else {
      MatchIsSingle(marks[1..], id, mark);
    }
  }

  predicate SubstratesRepairable(marks: seq<string>, olds: seq<Option<Substrate>>) {
    forall i :: 0 <= i < |olds| && olds[i].Some? ==> |MatchesOf(marks, olds[i].value.substrateId)| == 1
  }

  function OldIds(olds: seq<Option<Substrate>>): set<string> {
    set i | 0 <= i < |olds| && olds[i].Some? :: olds[i].value.substrateId
  }

  function Mapping(marks: seq<string>, olds: seq<Option<Substrate>>): map<string, string>
    requires SubstratesRepairable(marks, olds)
  {
    map id | id in OldIds(olds) :: MatchesOf(marks, id)[0]
  }

  // What a stored row hands on to the row of its full mark.
  function Inherit(row: Substrate, stored: Substrate): Substrate {
    row.(groupId := if stored.groupId.Some? then stored.groupId else row.groupId,
         conditions := row.conditions + stored.conditions)
  }

  // A row after every stored row that maps to it, the last one winning.
  function Carried(row: Substrate, olds: seq<Option<Substrate>>, marks: seq<string>): (r: Substrate)
    requires SubstratesRepairable(marks, olds)
    ensures r.substrateId == row.substrateId && r.deviceIds == row.deviceIds && r.labels == row.labels
    ensures row.groupId.Some? ==> r.groupId.Some?
  {
    if olds == [] then row
    else
      var last := olds[|olds| - 1];
      var earlier := Carried(row, olds[..|olds| - 1], marks);
      if last.Some? then CarryInto(earlier, last.value, marks) else earlier
  }

  function CarriedRows(members: seq<Member>, olds: seq<Option<Substrate>>): (rows: seq<Substrate>)
    requires SubstratesRepairable(FirstSeen(members), olds)
    ensures |rows| == |FirstSeen(members)|
    ensures forall i :: 0 <= i < |rows| ==> rows[i] == Carried(Records(members)[i], olds, FirstSeen(members))
  {
    var rows := Records(members);
    seq(|rows|, i requires 0 <= i < |rows| => Carried(rows[i], olds, FirstSeen(members)))
  }

  function Entries(rows: seq<Substrate>): seq<Option<Substrate>> {
    seq(|rows|, i requires 0 <= i < |rows| => Some(rows[i]))
  }

  function OldSubstrates(document: Document): seq<Option<Substrate>> {
    if document.substrates.Some? then document.substrates.value else []
  }

  predicate Repairable(document: Document) {
    && DevicesRepairable(document.devices)
    && SubstratesRepairable(FirstSeen(Members(document.devices)), OldSubstrates(document))
  }

  // What _repair_legacy_analysis returns.
  function Repair(document: Document): Outcome {
    if !Repairable(document) then Outcome(document, false, map[])
    else
      var members, olds := Members(document.devices), OldSubstrates(document);
      Outcome(Document(RepairDevices(document.devices), Some(Entries(CarriedRows(members, olds))), 3), true,
              Mapping(FirstSeen(members), olds))
  }

  // _repair_legacy_analysis
  method RepairLegacyAnalysis(document: Document) returns (r: Outcome)
    ensures r == Repair(document)
  {
    var asIs := Outcome(document, false, map[]);
    if document.devices == [] {
      return asIs;
    }
    var repaired: seq<Option<Device>> := [];
    for i := 0 to |document.devices|
      invariant repaired == RepairDevices(document.devices)[..i]
      invariant forall j :: 0 <= j < i ==> RepairDevice(document.devices[j]).Some?
    {
      var device := RepairDevice(document.devices[i]);
      if device.None? {
        return asIs;
      }
      repaired := repaired + [device];
    }
    var members := Members(document.devices);
    var rows := SubstrateRecords(members);
    var mapping: map<string, string>;
    var done: bool;
    done, rows, mapping := CarryOver(members, OldSubstrates(document), rows);
    if !done {
      return asIs;
    }
    r := Outcome(Document(repaired, Some(Entries(rows)), 3), true, mapping);
    assert repaired == RepairDevices(document.devices);
  }

  lemma MappingStep(marks: seq<string>, olds: seq<Option<Substrate>>, entry: Option<Substrate>)
    requires SubstratesRepairable(marks, olds)
    requires entry.Some? ==> |MatchesOf(marks, entry.value.substrateId)| == 1
    ensures SubstratesRepairable(marks, olds + [entry])
    ensures entry.None? ==> Mapping(marks, olds + [entry]) == Mapping(marks, olds)
    ensures entry.Some? ==> var id := entry.value.substrateId;
      Mapping(marks, olds + [entry]) == Mapping(marks, olds)[id := MatchesOf(marks, id)[0]]
  {
    OldIdsStep(olds, entry);
    RepairableStep(marks, olds, entry);
  }

  lemma RepairableStep(marks: seq<string>, olds: seq<Option<Substrate>>, entry: Option<Substrate>)
    requires SubstratesRepairable(marks, olds)
    requires entry.Some? ==> |MatchesOf(marks, entry.value.substrateId)| == 1
    ensures SubstratesRepairable(marks, olds + [entry])
  {
  }

  lemma OldIdsStep(olds: seq<Option<Substrate>>, entry: Option<Substrate>)
    ensures OldIds(olds + [entry]) == OldIds(olds) + (if entry.Some? then {entry.value.substrateId} else {})
  {
    var after := olds + [entry];
    assert after[|olds|] == entry;
    forall id | id in OldIds(olds) ensures id in OldIds(after) {
      var i :| 0 <= i < |olds| && olds[i].Some? && olds[i].value.substrateId == id;
      assert after[i] == olds[i];
    }
  }

  lemma CarriedStep(row: Substrate, olds: seq<Option<Substrate>>, entry: Option<Substrate>, marks: seq<string>)
    requires SubstratesRepairable(marks, olds) && SubstratesRepairable(marks, olds + [entry])
    ensures entry.None? ==> Carried(row, olds + [entry], marks) == Carried(row, olds, marks)
    ensures entry.Some? ==>
      Carried(row, olds + [entry], marks) == CarryInto(Carried(row, olds, marks), entry.value, marks)
  {
    assert (olds + [entry])[..|olds|] == olds;
  }

  function CarryInto(row: Substrate, stored: Substrate, marks: seq<string>): Substrate
    requires |MatchesOf(marks, stored.substrateId)| == 1
  {
    if MatchesOf(marks, stored.substrateId)[0] == row.substrateId then Inherit(row, stored) else row
  }

  // The loop over the stored substrates.  Two rows with the same old id match the same mark, so the source's second
  // ambiguity check never fires.
  method CarryOver(members: seq<Member>, olds: seq<Option<Substrate>>, start: seq<Substrate>)
    returns (done: bool, rows: seq<Substrate>, mapping: map<string, string>)
    requires start == Records(members)
    ensures done <==> SubstratesRepairable(FirstSeen(members), olds)
    ensures done ==> rows == CarriedRows(members, olds) && mapping == Mapping(FirstSeen(members), olds)
  {
    var marks := FirstSeen(members);
    rows, mapping := start, map[];
    ghost var seen: seq<Option<Substrate>> := [];
    for i := 0 to |olds|
      invariant seen == olds[..i] && SubstratesRepairable(marks, seen)
      invariant |rows| == |start| && forall k :: 0 <= k < |rows| ==> rows[k] == Carried(start[k], seen, marks)
      invariant mapping == Mapping(marks, seen)
    {
      if olds[i].Some? && |MatchesOf(marks, olds[i].value.substrateId)| != 1 {
        return false, rows, mapping;
      }
      MappingStep(marks, seen, olds[i]);
      forall k | 0 <= k < |start|
        ensures olds[i].None? ==> Carried(start[k], seen + [olds[i]], marks) == rows[k]
        ensures olds[i].Some? ==> Carried(start[k], seen + [olds[i]], marks) == CarryInto(rows[k], olds[i].value, marks)
      {
        CarriedStep(start[k], seen, olds[i], marks);
      }
      if olds[i].Some? {
        var stored := olds[i].value;
        mapping := mapping[stored.substrateId := MatchesOf(marks, stored.substrateId)[0]];
        rows := seq(|rows|, k requires 0 <= k < |rows| => CarryInto(rows[k], stored, marks));
      }
      seen := seen + [olds[i]];
    }
    assert seen == olds;
    done := true;
  }

  // ----- all or nothing -----

  // The device entry of the repaired document is the device, with only its channel ordinal and substrate filled in.
  predicate SameDevice(before: Option<Device>, after: Option<Device>) {
    && before.Some? && after.Some? && |before.value.channels| == 1
    && after.value == before.value.(ordinal := Some(before.value.channels[0]), substrateId := before.value.mark)
  }

  lemma {:induction false} MarksAreFull(members: seq<Member>)
    requires forall m :: m in members ==> IsFullMark(m.substrateId)
    ensures forall id :: id in FirstSeen(members) ==> IsFullMark(id)
  {
    if members != [] {
      var front, last := members[..|members| - 1], members[|members| - 1];
      assert forall m :: m in front ==> m in members;
      MarksAreFull(front);
      assert last in members;
    }
  }

  lemma MarksOf(document: Document)
    requires Repairable(document)
    ensures forall id :: id in FirstSeen(Members(document.devices)) ==> IsFullMark(id)
  {
    var members := Members(document.devices);
    forall m | m in members ensures IsFullMark(m.substrateId) {
      var i :| 0 <= i < |members| && members[i] == m;
      assert RepairDevice(document.devices[i]).Some?;
    }
    MarksAreFull(members);
  }

  lemma {:induction false} PooledDepends(rows: seq<Substrate>, others: seq<Substrate>)
    requires |rows| == |others| && forall i :: 0 <= i < |rows| ==> rows[i].deviceIds == others[i].deviceIds
    ensures Pooled(rows) == Pooled(others)
  {
    if rows != [] {
      PooledDepends(rows[..|rows| - 1], others[..|others| - 1]);
    }
  }

  lemma DevicesAreKept(document: Document)
    requires Repairable(document)
    ensures var after := RepairDevices(document.devices);
      |after| == |document.devices| && forall i :: 0 <= i < |after| ==> SameDevice(document.devices[i], after[i])
  {
  }

  lemma RowsPartition(members: seq<Member>, olds: seq<Option<Substrate>>)
    requires SubstratesRepairable(FirstSeen(members), olds)
    ensures IsPartition(members, CarriedRows(members, olds))
  {
    RecordsPartition(members);
    PooledDepends(CarriedRows(members, olds), Records(members));
  }

  /** An analysis is either left alone or regrouped whole: the same devices in the same order, each on the substrate of
      its full mark, and the rows a partition of them by mark. */
  lemma AllOrNothing(document: Document)
    ensures var r := Repair(document);
      if !r.changed then r == Outcome(document, false, map[])
      else
        var before, after := document.devices, r.document.devices;
        && DevicesRepairable(before) && |after| == |before|
        && (forall i :: 0 <= i < |after| ==> SameDevice(before[i], after[i]))
        && (forall id :: id in FirstSeen(Members(before)) ==> IsFullMark(id))
        && exists rows :: r.document.substrates == Some(Entries(rows)) && IsPartition(Members(before), rows)
  {
    if Repairable(document) {
      DevicesAreKept(document);
      MarksOf(document);
      RowsPartition(Members(document.devices), OldSubstrates(document));
    }
  }

  // ----- idempotence -----

  lemma MarkMatchesItself(marks: seq<string>, mark: string)
    requires Distinct(marks) && mark in marks && forall id :: id in marks ==> IsFullMark(id)
    ensures MatchesOf(marks, mark) == [mark]
  {
    assert forall other :: other in marks && Matches(other, mark) ==> other == mark;
    MatchIsSingle(marks, mark, mark);
  }

  // A complete row, carried into the blank row of its own mark and past the rows of other marks, comes out as it was.
  lemma {:induction false} CarriedIsItself(row: Substrate, rows: seq<Substrate>, k: nat, marks: seq<string>)
    requires Distinct(marks) && forall id :: id in marks ==> IsFullMark(id)
    requires |rows| <= |marks| && forall i :: 0 <= i < |rows| ==> rows[i].substrateId == marks[i] && rows[i].groupId.Some?
    requires k < |marks| && row.substrateId == marks[k] && row.conditions == map[]
    ensures SubstratesRepairable(marks, Entries(rows))
    ensures k >= |rows| ==> Carried(row, Entries(rows), marks) == row
    ensures k < |rows| ==>
      Carried(row, Entries(rows), marks) == row.(groupId := rows[k].groupId, conditions := rows[k].conditions)
  {
    if rows != [] {
      var n := |rows| - 1;
      var front := rows[..n];
      CarriedIsItself(row, front, k, marks);
      MarkMatchesItself(marks, marks[n]);
      assert Entries(rows)[..n] == Entries(front);
      assert map[] + rows[n].conditions == rows[n].conditions;
    }
  }

  lemma RepairedAgain(devices: seq<Option<Device>>)
    requires DevicesRepairable(devices)
    ensures DevicesRepairable(RepairDevices(devices))
    ensures RepairDevices(RepairDevices(devices)) == RepairDevices(devices)
    ensures Members(RepairDevices(devices)) == Members(devices)
  {
    forall i | 0 <= i < |devices|
      ensures RepairDevice(RepairDevices(devices)[i]) == RepairDevice(devices[i])
    {
      assert RepairDevices(devices)[i] == RepairDevice(devices[i]);
    }
  }

  lemma RowsAgain(members: seq<Member>, olds: seq<Option<Substrate>>)
    requires SubstratesRepairable(FirstSeen(members), olds) && forall id :: id in FirstSeen(members) ==> IsFullMark(id)
    ensures var rows := CarriedRows(members, olds);
      && SubstratesRepairable(FirstSeen(members), Entries(rows))
      && CarriedRows(members, Entries(rows)) == rows
  {
    var marks, rows := FirstSeen(members), CarriedRows(members, olds);
    forall i: nat | i < |rows| ensures SubstratesRepairable(marks, Entries(rows))
      && Carried(Records(members)[i], Entries(rows), marks) == rows[i]
    {
      CarriedIsItself(Records(members)[i], rows, i, marks);
    }
  }

  /** Repairing a second time changes nothing. */
  lemma RepairIsIdempotent(document: Document)
    ensures Repair(Repair(document).document).document == Repair(document).document
  {
    if Repairable(document) {
      var after := Repair(document).document;
      RepairedAgain(document.devices);
      MarksOf(document);
      RowsAgain(Members(document.devices), OldSubstrates(document));
      assert OldSubstrates(after) == Entries(CarriedRows(Members(document.devices), OldSubstrates(document)));
    }
  }

  // ----- the mapping of ids -----

  /** Every old id is mapped to a full mark of the analysis that it matches, and to no other; a mark that is mapped to
      and is itself an old id is mapped to itself. */
  lemma MappingIsFunctional(document: Document)
    requires Repairable(document)
    ensures var mapping := Repair(document).mapping; var marks := FirstSeen(Members(document.devices));
      && mapping.Keys == OldIds(OldSubstrates(document))
      && (forall id :: id in mapping ==> OnlyMatch(marks, id, mapping[id]) && IsFullMark(mapping[id]))
      && (forall id :: id in mapping && mapping[id] in mapping ==> mapping[mapping[id]] == mapping[id])
  {
    var mapping, marks := Repair(document).mapping, FirstSeen(Members(document.devices));
    MarksOf(document);
    forall id | id in mapping ensures OnlyMatch(marks, id, mapping[id]) && IsFullMark(mapping[id]) {
      SingleMatch(marks, id);
    }
    forall id | id in mapping && mapping[id] in mapping ensures mapping[mapping[id]] == mapping[id] {
      MarkMatchesItself(marks, mapping[id]);
    }
  }

  // No old id is a full mark whose three-character prefix is an old id as well.
  predicate NoPrefixBesideMark(ids: set<string>) {
    forall id :: id in ids && |id| > 3 ==> id[..3] !in ids
  }

  predicate OneToOne(mapping: map<string, string>) {
    forall x, y :: x in mapping && y in mapping && mapping[x] == mapping[y] ==> x == y
  }

  lemma OneToOneIf(document: Document)
    requires Repairable(document) && NoPrefixBesideMark(OldIds(OldSubstrates(document)))
    ensures OneToOne(Repair(document).mapping)
  {
    var mapping := Repair(document).mapping;
    MappingIsFunctional(document);
    forall x, y | x in mapping && y in mapping && mapping[x] == mapping[y] ensures x == y {
      assert Matches(mapping[x], x) && Matches(mapping[y], y);
    }
  }

  lemma OneToOneOnlyIf(document: Document, id: string)
    requires Repairable(document) && |id| > 3
    requires id in OldIds(OldSubstrates(document)) && id[..3] in OldIds(OldSubstrates(document))
    ensures !OneToOne(Repair(document).mapping)
  {
    var mapping := Repair(document).mapping;
    MappingIsFunctional(document);
    assert Matches(mapping[id], id);
    assert mapping[id] == id;
    assert Matches(id, id[..3]);
    assert mapping[id[..3]] == mapping[id];
  }

  /** The mapping is one-to-one exactly when no old id is a full mark stored beside its own prefix; in particular it is
      when every old id is a three-character prefix. */
  lemma OneToOneWhen(document: Document)
    requires Repairable(document)
    ensures OneToOne(Repair(document).mapping) <==> NoPrefixBesideMark(OldIds(OldSubstrates(document)))
    ensures (forall id :: id in OldIds(OldSubstrates(document)) ==> |id| == 3) ==> OneToOne(Repair(document).mapping)
  {
    var ids := OldIds(OldSubstrates(document));
    if NoPrefixBesideMark(ids) {
      OneToOneIf(document);
    } else {
      var id :| id in ids && |id| > 3 && id[..3] in ids;
      OneToOneOnlyIf(document, id);
    }
  }

  function Stored(id: string): Option<Substrate> { Some(Substrate(id, [], [], None, map[])) }

  // One device on A011, which the stored substrates name both by its prefix and in full.
  const DOUBLED := Document([Some(Device("device-001", "A011 Channel 1", "A011", [1], None, "A01"))],
                            Some([Stored("A01"), Stored("A011")]), 2)

  /** The documentation calls the mapping 1-to-1; here two old ids are mapped to the same mark. */
  lemma NotOneToOne()
    ensures Repair(DOUBLED).changed && "A01" != "A011"
    ensures "A01" in Repair(DOUBLED).mapping && "A011" in Repair(DOUBLED).mapping
    ensures Repair(DOUBLED).mapping["A01"] == Repair(DOUBLED).mapping["A011"] == "A011"
  {
    var members := Members(DOUBLED.devices);
    assert members == [Member("A011", "device-001", "A011 Channel 1")];
    assert members[..0] == [];
    assert FirstSeen(members) == ["A011"];
    assert "A011"[..3] == "A01";
    assert MatchesOf(["A011"], "A01") == ["A011"] && MatchesOf(["A011"], "A011") == ["A011"];
    var olds := OldSubstrates(DOUBLED);
    assert olds[0].value.substrateId == "A01" && olds[1].value.substrateId == "A011";
  }

  // ----- the rows that refer to the substrates -----

  // A result file, and analysis_substrate_id of its result_device_assignments rows.
  class ResultFile {
    var analysis: Document
    var version: int
    var assignments: seq<string>

    constructor (analysis: Document, version: int, assignments: seq<string>)
      ensures this.analysis == analysis && this.version == version && this.assignments == assignments
    {
      this.analysis, this.version, this.assignments := analysis, version, assignments;
    }

    // One UPDATE statement: the rows that hold the old id get the full mark.
    method UpdateRows(legacy: string, full: string)
      modifies `assignments
      ensures |assignments| == |old(assignments)|
      ensures forall i :: 0 <= i < |assignments| ==>
        assignments[i] == if old(assignments)[i] == legacy then full else old(assignments)[i]
    {
      assignments := seq(|assignments|, i requires 0 <= i < |assignments| reads this =>
        if assignments[i] == legacy then full else assignments[i]);
    }

    // The last loop of upgrade(), in whatever order the mapping lists its entries: one update at a time comes to the
    // same as substituting all ids at once.
    method RewriteRows(mapping: map<string, string>)
      requires forall id :: id in mapping && mapping[id] in mapping ==> mapping[mapping[id]] == mapping[id]
      modifies `assignments
      ensures assignments == Substituted(old(assignments), mapping)
    {
      ghost var before := assignments;
      ghost var done: set<string> := {};
      var todo := mapping.Keys;
      while todo != {}
        invariant done + todo == mapping.Keys && done !! todo
        invariant |assignments| == |before|
        invariant forall i :: 0 <= i < |before| ==>
          assignments[i] == if before[i] in done then mapping[before[i]] else before[i]
      {
        var id :| id in todo;
        UpdateRows(id, mapping[id]);
        done, todo := done + {id}, todo - {id};
      }
    }

    // The repair of one file in upgrade().  Either nothing changes, or the analysis is the repaired one and every row
    // refers to a substrate of it, the one its old id is mapped to.
    method Upgrade()
      modifies this
      ensures var r := Repair(old(analysis));
        if r.changed && r.mapping != map[] && (forall id :: id in old(assignments) ==> id in r.mapping)
        then analysis == r.document && version == 3 && assignments == Substituted(old(assignments), r.mapping)
        else unchanged(this)
      ensures unchanged(this) || (forall id :: id in assignments ==> id in FirstSeen(Members(old(analysis).devices)))
    {
      var r := RepairLegacyAnalysis(analysis);
      if !r.changed || r.mapping == map[] {
        return;
      }
      if exists i :: 0 <= i < |assignments| && assignments[i] !in r.mapping {
        return;
      }
      MappingIsFunctional(analysis);
      analysis, version := r.document, 3;
      RewriteRows(r.mapping);
    }
  }

  function Substituted(ids: seq<string>, mapping: map<string, string>): seq<string> {
    seq(|ids|, i requires 0 <= i < |ids| => if ids[i] in mapping then mapping[ids[i]] else ids[i])
  }

  // ----- what the new rows inherit -----

  // A stored row that is mapped to the mark.
  predicate MapsTo(entry: Option<Substrate>, marks: seq<string>, mark: string) {
    entry.Some? && MatchesOf(marks, entry.value.substrateId) == [mark]
  }

  lemma {:induction false} LastGroupWins(row: Substrate, olds: seq<Option<Substrate>>, marks: seq<string>, i: nat)
    requires SubstratesRepairable(marks, olds) && i < |olds| && MapsTo(olds[i], marks, row.substrateId)
    requires olds[i].value.groupId.Some?
    requires forall j :: i < j < |olds| && MapsTo(olds[j], marks, row.substrateId) ==> olds[j].value.groupId.None?
    ensures Carried(row, olds, marks).groupId == olds[i].value.groupId
    decreases |olds|
  {
    var last := |olds| - 1;
    if i < last {
      LastGroupWins(row, olds[..last], marks, i);
    }
    SingleMapsTo(olds[last], marks);
  }

  lemma SingleMapsTo(entry: Option<Substrate>, marks: seq<string>)
    requires entry.Some? ==> |MatchesOf(marks, entry.value.substrateId)| == 1
    ensures entry.Some? ==> MapsTo(entry, marks, MatchesOf(marks, entry.value.substrateId)[0])
  {
  }

  lemma {:induction false} LastConditionWins(row: Substrate, olds: seq<Option<Substrate>>, marks: seq<string>, i: nat,
                                             key: ConditionKey)
    requires SubstratesRepairable(marks, olds) && i < |olds| && MapsTo(olds[i], marks, row.substrateId)
    requires key in olds[i].value.conditions
    requires forall j :: i < j < |olds| && MapsTo(olds[j], marks, row.substrateId) ==> key !in olds[j].value.conditions
    ensures key in Carried(row, olds, marks).conditions
    ensures Carried(row, olds, marks).conditions[key] == olds[i].value.conditions[key]
    decreases |olds|
  {
    var last := |olds| - 1;
    if i < last {
      LastConditionWins(row, olds[..last], marks, i, key);
    }
    SingleMapsTo(olds[last], marks);
  }

  lemma {:induction false} NothingElseIsInherited(row: Substrate, olds: seq<Option<Substrate>>, marks: seq<string>)
    requires SubstratesRepairable(marks, olds)
    ensures var after := Carried(row, olds, marks);
      && (after.groupId != row.groupId ==>
            exists j :: 0 <= j < |olds| && MapsTo(olds[j], marks, row.substrateId) && olds[j].value.groupId == after.groupId)
      && forall key :: key in after.conditions && key !in row.conditions ==>
           exists j :: 0 <= j < |olds| && MapsTo(olds[j], marks, row.substrateId) && key in olds[j].value.conditions
  {
    if olds != [] {
      var last := |olds| - 1;
      NothingElseIsInherited(row, olds[..last], marks);
      SingleMapsTo(olds[last], marks);
      assert forall j :: 0 <= j < last ==> olds[..last][j] == olds[j];
    }
  }

  /** A row of the repaired analysis takes its group and each of its condition fields from the last stored row that is
      mapped to it and has one; what no such row has stays blank. */
  lemma RowsInherit(document: Document, k: nat)
    requires Repair(document).changed && k < |FirstSeen(Members(document.devices))|
    ensures var marks, olds := FirstSeen(Members(document.devices)), OldSubstrates(document);
      && Repair(document).document.substrates.Some? && k < |Repair(document).document.substrates.value|
      && Repair(document).document.substrates.value[k].Some?
      && var row := Repair(document).document.substrates.value[k].value;
      && row.substrateId == marks[k]
      && (forall i :: 0 <= i < |olds| && MapsTo(olds[i], marks, marks[k]) && olds[i].value.groupId.Some?
            && (forall j :: i < j < |olds| && MapsTo(olds[j], marks, marks[k]) ==> olds[j].value.groupId.None?)
            ==> row.groupId == olds[i].value.groupId)
      && (forall i, key :: 0 <= i < |olds| && MapsTo(olds[i], marks, marks[k]) && key in olds[i].value.conditions
            && (forall j :: i < j < |olds| && MapsTo(olds[j], marks, marks[k]) ==> key !in olds[j].value.conditions)
            ==> key in row.conditions && row.conditions[key] == olds[i].value.conditions[key])
      && (row.groupId == Some("") || exists j :: 0 <= j < |olds| && MapsTo(olds[j], marks, marks[k])
                                                 && olds[j].value.groupId == row.groupId)
      && (forall key :: key in row.conditions ==>
            exists j :: 0 <= j < |olds| && MapsTo(olds[j], marks, marks[k]) && key in olds[j].value.conditions)
  {
    var marks, olds := FirstSeen(Members(document.devices)), OldSubstrates(document);
    var blank := Records(Members(document.devices))[k];
    forall i: nat | i < |olds| && MapsTo(olds[i], marks, marks[k]) && olds[i].value.groupId.Some?
                    && (forall j :: i < j < |olds| && MapsTo(olds[j], marks, marks[k]) ==> olds[j].value.groupId.None?)
      ensures Carried(blank, olds, marks).groupId == olds[i].value.groupId
    {
      LastGroupWins(blank, olds, marks, i);
    }
    forall i: nat, key | i < |olds| && MapsTo(olds[i], marks, marks[k]) && key in olds[i].value.conditions
      && (forall j :: i < j < |olds| && MapsTo(olds[j], marks, marks[k]) ==> key !in olds[j].value.conditions)
      ensures key in Carried(blank, olds, marks).conditions
      ensures Carried(blank, olds, marks).conditions[key] == olds[i].value.conditions[key]
    {
      LastConditionWins(blank, olds, marks, i, key);
    }
    NothingElseIsInherited(blank, olds, marks);
  }
}
