// Grouping devices by the substrate they sit on: _substrate_records of src/web/jv_parser.py, and the same loop in
// migrations/versions/0014_deployment_integrity_repairs.py.
module Substrates {
  import opened Sequences
  import opened Wrappers

  // What grouping reads of a device.
  datatype Member = Member(substrateId: string, deviceId: string, instrumentLabel: string)

  datatype ConditionKey = BatchConditionId | ConditionCode | ConditionName

  // A substrate's row; a stored row may lack its group.
  datatype Substrate = Substrate(substrateId: string, deviceIds: seq<string>, labels: seq<string>, groupId: Option<string>,
                                 conditions: map<ConditionKey, string>)

  // The members of one substrate, in order.
  function Where(members: seq<Member>, id: string): seq<Member> {
    if members == [] then []
    else
      var last := members[|members| - 1];
      Where(members[..|members| - 1], id) + (if last.substrateId == id then [last] else [])
  }

  function DeviceIds(members: seq<Member>): seq<string> {
    seq(|members|, i requires 0 <= i < |members| => members[i].deviceId)
  }

  function Labels(members: seq<Member>): seq<string> {
    seq(|members|, i requires 0 <= i < |members| => members[i].instrumentLabel)
  }

  function Row(members: seq<Member>, id: string): Substrate {
    Substrate(id, DeviceIds(Where(members, id)), Labels(Where(members, id)), Some(""), map[])
  }

  // The substrates, in order of first appearance.
  function FirstSeen(members: seq<Member>): (ids: seq<string>)
    ensures Distinct(ids)
  {
    if members == [] then []
    else
      var front, last := members[..|members| - 1], members[|members| - 1];
      if last.substrateId in FirstSeen(front) then FirstSeen(front) else FirstSeen(front) + [last.substrateId]
  }

  lemma {:induction false} SeenWhenPresent(members: seq<Member>, id: string)
    ensures id in FirstSeen(members) <==> Where(members, id) != []
  {
    if members != [] {
      SeenWhenPresent(members[..|members| - 1], id);
    }
  }

  function Records(members: seq<Member>): (rows: seq<Substrate>)
    ensures |rows| == |FirstSeen(members)|
    ensures forall i :: 0 <= i < |rows| ==> rows[i] == Row(members, FirstSeen(members)[i])
  {
    var ids := FirstSeen(members);
    seq(|ids|, i requires 0 <= i < |ids| => Row(members, ids[i]))
  }

  function Appended(row: Substrate, m: Member): Substrate {
    row.(deviceIds := row.deviceIds + [m.deviceId], labels := row.labels + [m.instrumentLabel])
  }

  lemma RowStep(members: seq<Member>, m: Member, id: string)
    ensures Row(members + [m], id) ==
            if m.substrateId == id then Appended(Row(members, id), m) else Row(members, id)
  {
    assert (members + [m])[..|members|] == members;
    var own := Where(members, id);
    assert DeviceIds(own + [m]) == DeviceIds(own) + [m.deviceId];
    assert Labels(own + [m]) == Labels(own) + [m.instrumentLabel];
  }

  lemma FirstSeenStep(members: seq<Member>, m: Member)
    ensures FirstSeen(members + [m]) ==
            if m.substrateId in FirstSeen(members) then FirstSeen(members) else FirstSeen(members) + [m.substrateId]
  {
    assert (members + [m])[..|members|] == members;
  }

  // A dictionary of the rows of these members, and its keys in order of insertion.
  ghost predicate Holds(order: seq<string>, grouped: map<string, Substrate>, members: seq<Member>) {
    && order == FirstSeen(members)
    && (forall id :: id in grouped <==> id in order)
    && (forall id :: id in grouped ==> grouped[id] == Row(members, id))
  }

  lemma KnownSubstrate(order: seq<string>, grouped: map<string, Substrate>, members: seq<Member>, m: Member)
    requires Holds(order, grouped, members) && m.substrateId in grouped
    ensures Holds(order, grouped[m.substrateId := Appended(grouped[m.substrateId], m)], members + [m])
  {
    FirstSeenStep(members, m);
    var after := grouped[m.substrateId := Appended(grouped[m.substrateId], m)];
    forall id | id in after ensures after[id] == Row(members + [m], id) {
      RowStep(members, m, id);
    }
  }

  lemma NewSubstrate(order: seq<string>, grouped: map<string, Substrate>, members: seq<Member>, m: Member)
    requires Holds(order, grouped, members) && m.substrateId !in grouped
    ensures var added := grouped[m.substrateId := BlankRow(m.substrateId)];
      Holds(order + [m.substrateId], added[m.substrateId := Appended(added[m.substrateId], m)], members + [m])
  {
    FirstSeenStep(members, m);
    SeenWhenPresent(members, m.substrateId);
    assert Row(members, m.substrateId) == BlankRow(m.substrateId);
    var added := grouped[m.substrateId := BlankRow(m.substrateId)];
    var after := added[m.substrateId := Appended(added[m.substrateId], m)];
    forall id | id in after ensures after[id] == Row(members + [m], id) {
      RowStep(members, m, id);
    }
  }

  function BlankRow(id: string): Substrate { Substrate(id, [], [], Some(""), map[]) }

  // The rows in order of insertion.
  function Listing(order: seq<string>, grouped: map<string, Substrate>): seq<Substrate>
    requires forall id :: id in order ==> id in grouped
  {
    seq(|order|, i requires 0 <= i < |order| => grouped[order[i]])
  }

  lemma ListingIs(order: seq<string>, grouped: map<string, Substrate>, members: seq<Member>)
    requires Holds(order, grouped, members)
    ensures Listing(order, grouped) == Records(members)
  {
  }

  // One round of the loop: setdefault, then two appends.
  method AddDevice(order: seq<string>, grouped: map<string, Substrate>, ghost members: seq<Member>, m: Member)
    returns (keys: seq<string>, rows: map<string, Substrate>)
    requires Holds(order, grouped, members)
    ensures Holds(keys, rows, members + [m])
  {
    var id := m.substrateId;
    if id in grouped {
      KnownSubstrate(order, grouped, members, m);
      return order, grouped[id := Appended(grouped[id], m)];
    }
    NewSubstrate(order, grouped, members, m);
    var added := grouped[id := BlankRow(id)];
    return order + [id], added[id := Appended(added[id], m)];
  }

  method SubstrateRecords(members: seq<Member>) returns (rows: seq<Substrate>)
    ensures rows == Records(members)
  {
    var order: seq<string> := [];
    var grouped: map<string, Substrate> := map[];
    ghost var seen: seq<Member> := [];
    for i := 0 to |members|
      invariant seen == members[..i] && Holds(order, grouped, seen)
    {
      order, grouped := AddDevice(order, grouped, seen, members[i]);
      seen := seen + [members[i]];
    }
    assert seen == members;
    rows := Listing(order, grouped);
    ListingIs(order, grouped, members);
  }

  // All device ids of the rows listed, with their multiplicities.
  function Pooled(rows: seq<Substrate>): multiset<string> {
    if rows == [] then multiset{} else Pooled(rows[..|rows| - 1]) + multiset(rows[|rows| - 1].deviceIds)
  }

  function RowsFor(members: seq<Member>, ids: seq<string>): seq<Substrate> {
    seq(|ids|, i requires 0 <= i < |ids| => Row(members, ids[i]))
  }

  lemma PooledSplits(members: seq<Member>, ids: seq<string>, id: string)
    ensures Pooled(RowsFor(members, ids + [id])) == Pooled(RowsFor(members, ids)) + multiset(Row(members, id).deviceIds)
  {
    var rows := RowsFor(members, ids + [id]);
    assert rows[..|ids|] == RowsFor(members, ids);
  }

  // One more device adds itself to the one row of its substrate.
  lemma {:induction false} PooledStep(members: seq<Member>, m: Member, ids: seq<string>)
    requires Distinct(ids)
    ensures Pooled(RowsFor(members + [m], ids)) ==
            Pooled(RowsFor(members, ids)) + (if m.substrateId in ids then multiset{m.deviceId} else multiset{})
  {
    if ids != [] {
      var front, id := ids[..|ids| - 1], ids[|ids| - 1];
      assert ids == front + [id];
      PooledStep(members, m, front);
      PooledSplits(members + [m], front, id);
      PooledSplits(members, front, id);
      RowStep(members, m, id);
    }
  }

  lemma RecordsAreRows(members: seq<Member>)
    ensures Records(members) == RowsFor(members, FirstSeen(members))
  {
  }

  lemma DeviceIdsStep(members: seq<Member>, m: Member)
    ensures DeviceIds(members + [m]) == DeviceIds(members) + [m.deviceId]
  {
  }

  lemma {:induction false} PooledRecordsStep(members: seq<Member>, m: Member)
    ensures Pooled(RowsFor(members + [m], FirstSeen(members + [m]))) ==
            Pooled(RowsFor(members, FirstSeen(members))) + multiset{m.deviceId}
  {
    var ids := FirstSeen(members);
    FirstSeenStep(members, m);
    PooledStep(members, m, ids);
    if m.substrateId !in ids {
      PooledSplits(members + [m], ids, m.substrateId);
      SeenWhenPresent(members, m.substrateId);
      RowStep(members, m, m.substrateId);
      assert Row(members + [m], m.substrateId).deviceIds == [m.deviceId];
    }
  }

  ghost predicate AllPooled(members: seq<Member>) {
    Pooled(Records(members)) == multiset(DeviceIds(members))
  }

  lemma PooledIsAllStep(members: seq<Member>, m: Member)
    requires AllPooled(members)
    ensures AllPooled(members + [m])
  {
    RecordsAreRows(members);
    RecordsAreRows(members + [m]);
    PooledRecordsStep(members, m);
    DeviceIdsStep(members, m);
  }

  lemma NothingIsPooled()
    ensures AllPooled([])
  {
  }

  lemma {:induction false} PooledIsAll(members: seq<Member>)
    ensures AllPooled(members)
  {
    if members == [] {
      NothingIsPooled();
    } else {
      var front, last := members[..|members| - 1], members[|members| - 1];
      PooledIsAll(front);
      PooledIsAllStep(front, last);
      assert front + [last] == members;
    }
  }

  // One row per substrate, each with exactly the devices of that substrate in order, and every device listed as often
  // as it was given.
  predicate IsPartition(members: seq<Member>, rows: seq<Substrate>) {
    && (forall i, j :: 0 <= i < j < |rows| ==> rows[i].substrateId != rows[j].substrateId)
    && (forall i :: 0 <= i < |rows| ==>
          rows[i].deviceIds != [] && rows[i].deviceIds == DeviceIds(Where(members, rows[i].substrateId)))
    && Pooled(rows) == multiset(DeviceIds(members))
  }

  /** Grouping partitions the devices by substrate. */
  lemma RecordsPartition(members: seq<Member>)
    ensures IsPartition(members, Records(members))
  {
    forall i | 0 <= i < |FirstSeen(members)| ensures Records(members)[i].deviceIds != [] {
      SeenWhenPresent(members, FirstSeen(members)[i]);
    }
    PooledIsAll(members);
  }

  // ----- order and labels -----

  // The first device of the substrate is at place k.
  predicate FirstAt(members: seq<Member>, id: string, k: nat) {
    && k < |members| && members[k].substrateId == id
    && forall i :: 0 <= i < k ==> members[i].substrateId != id
  }

  predicate AreFirst(members: seq<Member>, ids: seq<string>, places: seq<nat>) {
    && |places| == |ids|
    && (forall i :: 0 <= i < |places| ==> FirstAt(members, ids[i], places[i]))
    && forall i, j :: 0 <= i < j < |places| ==> places[i] < places[j]
  }

  lemma FirstStay(front: seq<Member>, member: Member, ids: seq<string>, places: seq<nat>)
    requires AreFirst(front, ids, places)
    ensures AreFirst(front + [member], ids, places)
  {
    forall i | 0 <= i < |places| ensures FirstAt(front + [member], ids[i], places[i]) {
      assert FirstAt(front, ids[i], places[i]);
    }
  }

  lemma OneMoreFirst(front: seq<Member>, member: Member, ids: seq<string>, places: seq<nat>)
    requires AreFirst(front, ids, places) && forall i :: 0 <= i < |front| ==> front[i].substrateId != member.substrateId
    ensures AreFirst(front + [member], ids + [member.substrateId], places + [|front|])
  {
    FirstStay(front, member, ids, places);
    var all, marks, spots := front + [member], ids + [member.substrateId], places + [|front|];
    forall i | 0 <= i < |spots| ensures FirstAt(all, marks[i], spots[i]) {
      if i < |places| {
        assert FirstAt(all, ids[i], places[i]);
      }
    }
    forall i, j | 0 <= i < j < |spots| ensures spots[i] < spots[j] {
      assert FirstAt(front, ids[i], places[i]);
    }
  }

  lemma {:induction false} FirstPlaces(members: seq<Member>) returns (places: seq<nat>)
    ensures AreFirst(members, FirstSeen(members), places)
  {
    if members == [] {
      places := [];
    } else {
      var front, last := members[..|members| - 1], members[|members| - 1];
      places := FirstPlaces(front);
      assert members == front + [last];
      SeenWhenPresent(front, last.substrateId);
      if last.substrateId in FirstSeen(front) {
        FirstStay(front, last, FirstSeen(front), places);
      } else {
        NoneWhere(front, last.substrateId);
        OneMoreFirst(front, last, FirstSeen(front), places);
        places := places + [|front|];
      }
    }
  }

  lemma {:induction false} NoneWhere(members: seq<Member>, id: string)
    requires Where(members, id) == []
    ensures forall i :: 0 <= i < |members| ==> members[i].substrateId != id
  {
    if members != [] {
      NoneWhere(members[..|members| - 1], id);
    }
  }

  /** The rows come in the order in which their substrates first appear, and each starts out without group or conditions,
      with as many labels as devices, those of its devices in the same order. */
  lemma RecordsInOrder(members: seq<Member>) returns (places: seq<nat>)
    ensures |places| == |Records(members)|
    ensures forall i :: 0 <= i < |places| ==>
      && FirstAt(members, Records(members)[i].substrateId, places[i])
      && Records(members)[i].groupId == Some("") && Records(members)[i].conditions == map[]
      && |Records(members)[i].labels| == |Records(members)[i].deviceIds|
      && IsLabelling(members, Records(members)[i])
    ensures forall i, j :: 0 <= i < j < |places| ==> places[i] < places[j]
  {
    places := FirstPlaces(members);
    forall i | 0 <= i < |places| ensures FirstAt(members, Records(members)[i].substrateId, places[i]) {
      assert FirstAt(members, FirstSeen(members)[i], places[i]);
    }
    forall i | 0 <= i < |places| ensures IsLabelling(members, Records(members)[i]) {
      WhereIsLabelling(members, FirstSeen(members)[i]);
    }
  }

  // Device and label of the row stand at one place among those given.
  predicate IsLabelling(members: seq<Member>, row: Substrate) {
    && |row.labels| == |row.deviceIds|
    && forall k :: 0 <= k < |row.labels| ==> Member(row.substrateId, row.deviceIds[k], row.labels[k]) in members
  }

  lemma {:induction false} WhereIsLabelling(members: seq<Member>, id: string)
    ensures IsLabelling(members, Row(members, id))
  {
    forall k | 0 <= k < |Where(members, id)|
      ensures Member(id, Row(members, id).deviceIds[k], Row(members, id).labels[k]) in members
    {
      WhereIsFrom(members, id, k);
    }
  }

  lemma {:induction false} WhereIsFrom(members: seq<Member>, id: string, k: nat)
    requires k < |Where(members, id)|
    ensures Where(members, id)[k] in members && Where(members, id)[k].substrateId == id
  {
    var front := members[..|members| - 1];
    if k < |Where(front, id)| {
      WhereIsFrom(front, id, k);
      assert Where(members, id)[k] == Where(front, id)[k];
    }
  }
}
