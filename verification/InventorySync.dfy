/** Reconciliation of an organisation's devices with the platform inventory, in two paged phases. */
module InventorySync {
  import opened Tables

  /** A row of the devices table; a soft-deleted row is not live. */
  datatype Device = Device(org: string, uuid: string, live: bool)
  datatype Host = Host(id: string, org: string)

  /** What the inventory answers; a failed call leaves the empty response. */
  datatype Response = Response(result: seq<Host>, count: nat, total: nat)

  const LIMIT := 30

  // ----- rows and ids -----

  predicate Row(devices: seq<Device>, org: string, k: int) {
    0 <= k < |devices| && devices[k].live && devices[k].org == org
  }

  /** The live rows of an organisation in table order. */
  function LiveRows(devices: seq<Device>, org: string): (rows: seq<nat>)
    ensures forall k :: k in rows <==> Row(devices, org, k)
    ensures Distinct(rows)
  {
    if devices == [] then []
    else
      var last := |devices| - 1;
      var rows := LiveRows(devices[..last], org);
      assert forall i | 0 <= i < |rows| :: rows[i] in rows && rows[i] < last;
      if Row(devices, org, last) then rows + [last] else rows
  }

  function Uuid(devices: seq<Device>, k: nat): string {
    if k < |devices| then devices[k].uuid else ""
  }

  function Uuids(devices: seq<Device>, org: string): (uuids: set<string>)
    ensures forall k | Row(devices, org, k) :: devices[k].uuid in uuids
    ensures forall uuid | uuid in uuids :: exists k :: Row(devices, org, k) && devices[k].uuid == uuid
  {
    var uuids := set k | k in LiveRows(devices, org) :: Uuid(devices, k);
    assert forall k | Row(devices, org, k) :: k in LiveRows(devices, org) && Uuid(devices, k) in uuids;
    uuids
  }

  function Ids(hosts: seq<Host>): set<string> {
    set h | h in hosts :: h.id
  }

  /** Some live row, of any organisation, has the id. */
  predicate Held(devices: seq<Device>, id: string) {
    exists k | 0 <= k < |devices| :: devices[k].live && devices[k].uuid == id
  }

  /** The inventory ids that only devices of other organisations have. */
  function Foreign(devices: seq<Device>, org: string, inventory: seq<Host>): set<string> {
    set id | id in Ids(inventory) && id !in Uuids(devices, org) && Held(devices, id)
  }

  ghost predicate UniqueUuids(devices: seq<Device>, org: string) {
    forall j, k | Row(devices, org, j) && Row(devices, org, k) && devices[j].uuid == devices[k].uuid :: j == k
  }

  /** The inventory lists the hosts of the organisation, each under its own non-empty id. */
  predicate InventoryOk(inventory: seq<Host>, org: string) {
    && org != "" && DistinctIds(inventory)
    && forall h | h in inventory :: h.id != "" && h.org == org
  }

  predicate DistinctIds(hosts: seq<Host>) {
    forall i, j | 0 <= i < j < |hosts| :: hosts[i].id != hosts[j].id
  }

  // ----- what a sync does -----

  /** Phase one: the live devices of the organisation that the inventory does not list are deleted. */
  function Pruned(devices: seq<Device>, org: string, inventory: seq<Host>): (pruned: seq<Device>)
    ensures |pruned| == |devices|
    ensures forall k | 0 <= k < |devices| :: pruned[k] == PrunedRow(devices[k], org, inventory)
  {
    seq(|devices|, k requires 0 <= k < |devices| => PrunedRow(devices[k], org, inventory))
  }

  function PrunedRow(device: Device, org: string, inventory: seq<Host>): Device {
    if device.live && device.org == org && device.uuid !in Ids(inventory) then device.(live := false) else device
  }

  /** Phase two: a row for every listed host that no live row has. */
  function NewRows(devices: seq<Device>, hosts: seq<Host>): (rows: seq<Device>) {
    if hosts == [] then []
    else
      var h := hosts[|hosts| - 1];
      var rows := NewRows(devices, hosts[..|hosts| - 1]);
      if Held(devices, h.id) then rows else rows + [Device(h.org, h.id, true)]
  }

  /** A whole sync; the comparison of counts decides whether there is a second phase. */
  function Synced(devices: seq<Device>, org: string, inventory: seq<Host>): seq<Device> {
    var pruned := Pruned(devices, org, inventory);
    if |LiveRows(pruned, org)| == |inventory| then pruned else pruned + NewRows(pruned, inventory)
  }

  /** A sync under the two feature flags. */
  function SyncedUnder(devices: seq<Device>, org: string, inventory: seq<Host>, deletes: bool, creates: bool)
    : seq<Device>
  {
    var kept := if deletes then Pruned(devices, org, inventory) else devices;
    if |LiveRows(kept, org)| == |inventory| || !creates then kept else kept + NewRows(kept, inventory)
  }

  // ----- counts and sets -----

  lemma Counted(xs: seq<string>, target: set<string>)
    requires Elements(xs) <= target
    ensures |xs| < |target| ==> Elements(xs) != target
    ensures Distinct(xs) ==> (|xs| >= |target| <==> Elements(xs) == target) && |xs| <= |target|
  {
    if Distinct(xs) {
      DistinctSize(xs);
      SubsetSize(Elements(xs), target);
    }
    if Elements(xs) == target {
      ElementsAtMost(xs);
    }
  }

  lemma {:induction false} ElementsAtMost(xs: seq<string>)
    ensures |Elements(xs)| <= |xs|
    ensures |Elements(xs)| == |xs| <==> Distinct(xs)
  {
    if xs == [] {
      assert Elements(xs) == {};
    } else {
      var last := |xs| - 1;
      ElementsAtMost(xs[..last]);
      assert Elements(xs) == Elements(xs[..last]) + {xs[last]};
      if xs[last] in Elements(xs[..last]) {
        assert Elements(xs) == Elements(xs[..last]);
        var i :| 0 <= i < last && xs[..last][i] == xs[last];
        assert xs[i] == xs[last];
      } else {
        assert |Elements(xs)| == |Elements(xs[..last])| + 1;
      }
    }
  }

  function UuidsOf(devices: seq<Device>, rows: seq<nat>): (uuids: seq<string>)
    ensures |uuids| == |rows| && forall i | 0 <= i < |rows| :: uuids[i] == Uuid(devices, rows[i])
  {
    seq(|rows|, i requires 0 <= i < |rows| => Uuid(devices, rows[i]))
  }

  lemma UuidsOfElements(devices: seq<Device>, rows: seq<nat>)
    ensures Elements(UuidsOf(devices, rows)) == set k | k in rows :: Uuid(devices, k)
  {
    var uuids := UuidsOf(devices, rows);
    forall k | k in rows ensures Uuid(devices, k) in uuids {
      var i :| 0 <= i < |rows| && rows[i] == k;
      assert uuids[i] == Uuid(devices, k);
    }
    forall uuid | uuid in uuids ensures uuid in set k | k in rows :: Uuid(devices, k) {
      var i :| 0 <= i < |uuids| && uuids[i] == uuid;
      assert rows[i] in rows;
    }
  }

  lemma UuidsOfDistinct(devices: seq<Device>, org: string, rows: seq<nat>)
    requires Distinct(rows) && UniqueUuids(devices, org) && forall k | k in rows :: Row(devices, org, k)
    ensures Distinct(UuidsOf(devices, rows))
  {
    var uuids := UuidsOf(devices, rows);
    forall a, b | 0 <= a < b < |uuids| ensures uuids[a] != uuids[b] {
      assert Row(devices, org, rows[a]) && Row(devices, org, rows[b]);
    }
  }

  function IdsOf(hosts: seq<Host>): (ids: seq<string>)
    ensures |ids| == |hosts| && forall i | 0 <= i < |hosts| :: ids[i] == hosts[i].id
    ensures Elements(ids) == Ids(hosts)
    ensures DistinctIds(hosts) <==> Distinct(ids)
  {
    var ids := seq(|hosts|, i requires 0 <= i < |hosts| => hosts[i].id);
    assert forall h :: h in hosts ==> exists i :: 0 <= i < |hosts| && hosts[i] == h && ids[i] == h.id;
    assert forall id :: id in ids ==> exists i :: 0 <= i < |ids| && ids[i] == id && hosts[i].id == id;
    ids
  }

  lemma IdCount(hosts: seq<Host>)
    requires DistinctIds(hosts)
    ensures |Ids(hosts)| == |hosts|
  {
    DistinctSize(IdsOf(hosts));
  }

  /** The live uuids of an organisation as a list, with repetitions when they are not unique. */
  lemma UuidList(devices: seq<Device>, org: string)
    ensures var uuids := UuidsOf(devices, LiveRows(devices, org));
            Elements(uuids) == Uuids(devices, org) && (Distinct(uuids) <==> UniqueUuids(devices, org))
  {
    var rows := LiveRows(devices, org);
    var uuids := UuidsOf(devices, rows);
    UuidsOfElements(devices, rows);
    if UniqueUuids(devices, org) {
      UuidsOfDistinct(devices, org, rows);
    } else {
      var j, k :| Row(devices, org, j) && Row(devices, org, k) && devices[j].uuid == devices[k].uuid && j != k;
      var a :| 0 <= a < |rows| && rows[a] == j;
      var b :| 0 <= b < |rows| && rows[b] == k;
      assert uuids[Min(a, b)] == uuids[Max(a, b)];
    }
  }

  /** The comparison of totals that skips phase two, taken after phase one: with one live row per uuid it is the
      comparison of the two sets; in general equal totals mean equal sets exactly when no uuid is repeated. */
  lemma TotalsCompareSets(devices: seq<Device>, org: string, inventory: seq<Host>)
    requires DistinctIds(inventory) && Uuids(devices, org) <= Ids(inventory)
    ensures UniqueUuids(devices, org) ==>
              (|LiveRows(devices, org)| == |inventory| <==> Uuids(devices, org) == Ids(inventory))
    ensures |LiveRows(devices, org)| == |inventory| ==>
              (Uuids(devices, org) == Ids(inventory) <==> UniqueUuids(devices, org))
  {
    var uuids := UuidsOf(devices, LiveRows(devices, org));
    UuidList(devices, org);
    IdCount(inventory);
    Counted(uuids, Ids(inventory));
    ElementsAtMost(uuids);
    SubsetSize(Uuids(devices, org), Ids(inventory));
  }

  // ----- convergence -----

  lemma PrunedRows(devices: seq<Device>, org: string, inventory: seq<Host>)
    ensures var pruned := Pruned(devices, org, inventory);
            && (forall k :: Row(pruned, org, k) <==> Row(devices, org, k) && devices[k].uuid in Ids(inventory))
            && Uuids(pruned, org) == Uuids(devices, org) * Ids(inventory)
            && (UniqueUuids(devices, org) ==> UniqueUuids(pruned, org))
            && (forall id | id in Ids(inventory) :: Held(pruned, id) <==> Held(devices, id))
  {
    var pruned := Pruned(devices, org, inventory);
    forall k ensures Row(pruned, org, k) <==> Row(devices, org, k) && devices[k].uuid in Ids(inventory) {}
    forall id | id in Ids(inventory) ensures Held(pruned, id) <==> Held(devices, id) {
      if Held(devices, id) {
        var k :| 0 <= k < |devices| && devices[k].live && devices[k].uuid == id;
        assert pruned[k] == devices[k];
      }
      if Held(pruned, id) {
        var k :| 0 <= k < |pruned| && pruned[k].live && pruned[k].uuid == id;
        assert pruned[k] == devices[k];
      }
    }
  }

  /** A new row is live and stands for a listed host that no live row has. */
  lemma {:induction false} NewRowIs(devices: seq<Device>, hosts: seq<Host>, i: nat)
    requires i < |NewRows(devices, hosts)|
    ensures var row := NewRows(devices, hosts)[i];
            row.live && Host(row.uuid, row.org) in hosts && !Held(devices, row.uuid)
  {
    var last := |hosts| - 1;
    if i < |NewRows(devices, hosts[..last])| {
      NewRowIs(devices, hosts[..last], i);
    }
  }

  /** Every listed host that no live row has gets a row. */
  lemma {:induction false} NewRowOf(devices: seq<Device>, hosts: seq<Host>, h: Host) returns (i: nat)
    requires h in hosts && !Held(devices, h.id)
    ensures i < |NewRows(devices, hosts)| && NewRows(devices, hosts)[i] == Device(h.org, h.id, true)
  {
    var last := |hosts| - 1;
    if h in hosts[..last] {
      i := NewRowOf(devices, hosts[..last], h);
    } else {
      assert h == hosts[last];
      i := |NewRows(devices, hosts[..last])|;
    }
  }

  /** No host gets two rows. */
  lemma {:induction false} NewRowsDiffer(devices: seq<Device>, hosts: seq<Host>, i: nat, j: nat)
    requires DistinctIds(hosts) && i < j < |NewRows(devices, hosts)|
    ensures NewRows(devices, hosts)[i].uuid != NewRows(devices, hosts)[j].uuid
  {
    var last := |hosts| - 1;
    var rows := NewRows(devices, hosts[..last]);
    if j < |rows| {
      NewRowsDiffer(devices, hosts[..last], i, j);
    } else {
      NewRowIs(devices, hosts[..last], i);
      var k :| 0 <= k < last && hosts[k] == Host(rows[i].uuid, rows[i].org);
    }
  }

  lemma {:induction false} NoNewRows(devices: seq<Device>, hosts: seq<Host>)
    requires forall h | h in hosts :: Held(devices, h.id)
    ensures NewRows(devices, hosts) == []
  {
    if NewRows(devices, hosts) != [] {
      NewRowIs(devices, hosts, 0);
    }
  }

  /** The row at an index after new ones have been appended: an old one, or a new one for a listed host. */
  lemma AppendedRow(devices: seq<Device>, hosts: seq<Host>, k: nat)
    requires DistinctIds(hosts) && k < |devices + NewRows(devices, hosts)|
    ensures var row := (devices + NewRows(devices, hosts))[k];
            if k < |devices| then row == devices[k]
            else && row == NewRows(devices, hosts)[k - |devices|] && row.live
                 && Host(row.uuid, row.org) in hosts && !Held(devices, row.uuid)
  {
    if k >= |devices| {
      NewRowIs(devices, hosts, k - |devices|);
    }
  }

  lemma AppendedHeld(devices: seq<Device>, hosts: seq<Host>, id: string)
    requires DistinctIds(hosts)
    ensures Held(devices + NewRows(devices, hosts), id) <==> Held(devices, id) || id in Ids(hosts)
  {
    var rows := NewRows(devices, hosts);
    var after := devices + rows;
    if Held(devices, id) {
      var k :| 0 <= k < |devices| && devices[k].live && devices[k].uuid == id;
      assert after[k] == devices[k];
    } else if id in Ids(hosts) {
      var h :| h in hosts && h.id == id;
      var i := NewRowOf(devices, hosts, h);
      assert after[|devices| + i] == rows[i];
    } else if Held(after, id) {
      var k :| 0 <= k < |after| && after[k].live && after[k].uuid == id;
      AppendedRow(devices, hosts, k);
    }
  }

  /** Without deletions a sync leaves all rows alone, and each listed host has a live row afterwards exactly when it had
      one or the totals differ: devices that should have been deleted can hide missing hosts. */
  lemma CreateOnly(devices: seq<Device>, org: string, inventory: seq<Host>)
    requires DistinctIds(inventory)
    ensures var after := SyncedUnder(devices, org, inventory, false, true);
            && devices <= after
            && (forall id | id in Ids(inventory) ::
                  Held(after, id) <==> Held(devices, id) || |LiveRows(devices, org)| != |inventory|)
            && (forall k | |devices| <= k < |after| ::
                  after[k].live && Host(after[k].uuid, after[k].org) in inventory && !Held(devices, after[k].uuid))
  {
    if |LiveRows(devices, org)| != |inventory| {
      var after := devices + NewRows(devices, inventory);
      forall id | id in Ids(inventory) ensures Held(after, id) {
        AppendedHeld(devices, inventory, id);
      }
      forall k | |devices| <= k < |after|
        ensures after[k].live && Host(after[k].uuid, after[k].org) in inventory && !Held(devices, after[k].uuid)
      {
        AppendedRow(devices, inventory, k);
      }
    }
  }

  /** One device too many hides one missing host. */
  lemma StaleHidesMissing()
    ensures var devices, inventory := [Device("o", "old", true)], [Host("new", "o")];
            && InventoryOk(inventory, "o") && UniqueUuids(devices, "o")
            && SyncedUnder(devices, "o", inventory, false, true) == devices && !Held(devices, "new")
  {
    var devices := [Device("o", "old", true)];
    var rows := LiveRows(devices, "o");
    assert Row(devices, "o", 0) && 0 in rows;
    assert forall i | 0 <= i < |rows| :: rows[i] in rows && rows[i] == 0;
    assert |rows| == 1;
    assert "old"[0] != "new"[0];
  }

  lemma AppendedUnique(devices: seq<Device>, org: string, hosts: seq<Host>)
    requires DistinctIds(hosts) && UniqueUuids(devices, org)
    ensures UniqueUuids(devices + NewRows(devices, hosts), org)
  {
    var after := devices + NewRows(devices, hosts);
    forall j, k | Row(after, org, j) && Row(after, org, k) && j < k ensures after[j].uuid != after[k].uuid {
      AppendedRow(devices, hosts, j);
      AppendedRow(devices, hosts, k);
      if k < |devices| {
        assert Row(devices, org, j) && Row(devices, org, k);
      } else if j < |devices| {
        assert Held(devices, devices[j].uuid);
      } else {
        NewRowsDiffer(devices, hosts, j - |devices|, k - |devices|);
      }
    }
  }

  /** The live rows after new ones have been appended. */
  lemma AppendedRows(devices: seq<Device>, org: string, hosts: seq<Host>)
    requires DistinctIds(hosts) && forall h | h in hosts :: h.org == org
    ensures Uuids(devices + NewRows(devices, hosts), org) ==
            Uuids(devices, org) + (set id | id in Ids(hosts) && !Held(devices, id))
  {
    var rows := NewRows(devices, hosts);
    var after := devices + rows;
    forall id | id in Uuids(after, org) ensures id in Uuids(devices, org) || (id in Ids(hosts) && !Held(devices, id)) {
      var k :| Row(after, org, k) && after[k].uuid == id;
      AppendedRow(devices, hosts, k);
      assert k < |devices| ==> Row(devices, org, k);
    }
    forall id | id in Uuids(devices, org) ensures id in Uuids(after, org) {
      var k :| Row(devices, org, k) && devices[k].uuid == id;
      assert Row(after, org, k) && after[k] == devices[k];
    }
    forall h | h in hosts && !Held(devices, h.id) ensures h.id in Uuids(after, org) {
      var i := NewRowOf(devices, hosts, h);
      assert Row(after, org, |devices| + i) && after[|devices| + i] == rows[i];
    }
  }

  lemma SyncedUuids(devices: seq<Device>, org: string, inventory: seq<Host>)
    requires UniqueUuids(devices, org) && InventoryOk(inventory, org)
    ensures var after := Synced(devices, org, inventory);
            && Uuids(after, org) == Ids(inventory) - Foreign(devices, org, inventory)
            && UniqueUuids(after, org)
            && forall id | id in Ids(inventory) :: Held(after, id)
  {
    var pruned := Pruned(devices, org, inventory);
    PrunedRows(devices, org, inventory);
    TotalsCompareSets(pruned, org, inventory);
    AppendedRows(pruned, org, inventory);
    AppendedUnique(pruned, org, inventory);
    assert forall id | id in Uuids(pruned, org) :: Held(pruned, id);
    forall id | id in Ids(inventory) ensures Held(Synced(devices, org, inventory), id) {
      AppendedHeld(pruned, inventory, id);
    }
  }

  /** After a sync the organisation has exactly the inventory's ids, except those that only devices of other
      organisations have: so it converges exactly when there are none of these. A second sync changes nothing. */
  lemma SyncConverges(devices: seq<Device>, org: string, inventory: seq<Host>)
    requires UniqueUuids(devices, org) && InventoryOk(inventory, org)
    ensures var after := Synced(devices, org, inventory);
            && Uuids(after, org) == Ids(inventory) - Foreign(devices, org, inventory)
            && (Uuids(after, org) == Ids(inventory) <==> Foreign(devices, org, inventory) == {})
            && UniqueUuids(after, org)
            && Synced(after, org, inventory) == after
  {
    SyncedUuids(devices, org, inventory);
    SettledStays(Synced(devices, org, inventory), org, inventory);
  }

  /** A host whose device lives in another organisation gets no device of its own. */
  lemma ForeignStaysMissing()
    ensures var devices := [Device("p", "a", true)];
            var inventory := [Host("a", "o")];
            && InventoryOk(inventory, "o") && UniqueUuids(devices, "o")
            && Foreign(devices, "o", inventory) == {"a"} && Uuids(Synced(devices, "o", inventory), "o") == {}
  {
    var devices := [Device("p", "a", true)];
    var inventory := [Host("a", "o")];
    assert inventory[0] in inventory && Ids(inventory) == {"a"};
    assert "p"[0] != "o"[0];
    assert devices[0].live && Held(devices, "a") && Uuids(devices, "o") == {};
    SyncConverges(devices, "o", inventory);
  }

  /** A sync of tables without stale or missing devices changes nothing. */
  lemma SettledStays(devices: seq<Device>, org: string, inventory: seq<Host>)
    requires DistinctIds(inventory) && Uuids(devices, org) <= Ids(inventory)
    requires forall id | id in Ids(inventory) :: Held(devices, id)
    ensures Synced(devices, org, inventory) == devices
  {
    forall k | 0 <= k < |devices| ensures PrunedRow(devices[k], org, inventory) == devices[k] {
      if devices[k].live && devices[k].org == org {
        assert Row(devices, org, k);
      }
    }
    assert Pruned(devices, org, inventory) == devices;
    forall h | h in inventory ensures Held(devices, h.id) {
      assert h.id in Ids(inventory);
    }
    NoNewRows(devices, inventory);
  }

  /** Devices of other organisations are never touched. */
  lemma OthersUntouched(devices: seq<Device>, org: string, inventory: seq<Host>, k: nat)
    requires InventoryOk(inventory, org) && k < |Synced(devices, org, inventory)|
    ensures k < |devices| && devices[k].org != org ==> Synced(devices, org, inventory)[k] == devices[k]
    ensures k >= |devices| ==> Synced(devices, org, inventory)[k].org == org
  {
    var pruned := Pruned(devices, org, inventory);
    if k >= |devices| {
      NewRowIs(pruned, inventory, k - |devices|);
    }
  }

  // ----- the shortcuts within a page -----

  /** The hosts with one of the ids. */
  function WithIds(inventory: seq<Host>, ids: seq<string>): (found: seq<Host>)
    ensures forall h :: h in found <==> h in inventory && h.id in ids
    ensures DistinctIds(inventory) ==> DistinctIds(found)
  {
    if inventory == [] then []
    else
      var h := inventory[|inventory| - 1];
      var found := WithIds(inventory[..|inventory| - 1], ids);
      if h.id in ids then found + [h] else found
  }

  lemma AnswerIds(inventory: seq<Host>, ids: seq<string>)
    ensures Ids(WithIds(inventory, ids)) == Elements(ids) * Ids(inventory)
  {
    assert forall h :: h in WithIds(inventory, ids) <==> h in inventory && h.id in ids;
  }

  /** Phase one compares the size of a page with the number of hosts found: a page that is not larger has no stale
      device, and with distinct ids a larger one has. */
  lemma PageOfDevices(inventory: seq<Host>, ids: seq<string>)
    requires DistinctIds(inventory)
    ensures |WithIds(inventory, ids)| >= |ids| ==> Elements(ids) <= Ids(inventory)
    ensures Distinct(ids) ==> (|WithIds(inventory, ids)| >= |ids| <==> Elements(ids) <= Ids(inventory))
  {
    var found := IdsOf(WithIds(inventory, ids));
    AnswerIds(inventory, ids);
    Counted(found, Elements(ids));
    ElementsAtMost(ids);
  }

  /** The live rows of an organisation with one of the ids. */
  function RowsWithIds(devices: seq<Device>, org: string, ids: set<string>): (rows: seq<nat>)
    ensures forall k :: k in rows <==> Row(devices, org, k) && devices[k].uuid in ids
    ensures Distinct(rows)
  {
    if devices == [] then []
    else
      var last := |devices| - 1;
      var rows := RowsWithIds(devices[..last], org, ids);
      assert forall i | 0 <= i < |rows| :: rows[i] in rows && rows[i] < last;
      if Row(devices, org, last) && devices[last].uuid in ids then rows + [last] else rows
  }

  /** How many of the rows repeat the uuid of another one. */
  function Repeats(devices: seq<Device>, rows: seq<nat>): (n: int)
    ensures n >= 0
  {
    ElementsAtMost(UuidsOf(devices, rows));
    |rows| - |Elements(UuidsOf(devices, rows))|
  }

  function MissingIds(devices: seq<Device>, org: string, hosts: seq<Host>): set<string> {
    Ids(hosts) - Uuids(devices, org)
  }

  lemma RowsAndMissing(devices: seq<Device>, org: string, hosts: seq<Host>)
    requires DistinctIds(hosts)
    ensures var rows := RowsWithIds(devices, org, Ids(hosts));
            |rows| + |MissingIds(devices, org, hosts)| == |hosts| + Repeats(devices, rows)
  {
    UuidsOfElements(devices, RowsWithIds(devices, org, Ids(hosts)));
    FoundUuids(devices, org, Ids(hosts));
    IdCount(hosts);
    SplitBy(Ids(hosts), Uuids(devices, org));
  }

  lemma NoRepeats(devices: seq<Device>, org: string, ids: set<string>)
    requires UniqueUuids(devices, org)
    ensures Repeats(devices, RowsWithIds(devices, org, ids)) == 0
  {
    var rows := RowsWithIds(devices, org, ids);
    UuidsOfDistinct(devices, org, rows);
    ElementsAtMost(UuidsOf(devices, rows));
  }

  /** Phase two compares the size of a page with the number of devices found, which is larger by what is repeated and
      smaller by what is missing: the page counts as complete exactly when there are at least as many repetitions as
      missing hosts. */
  lemma PageOfHosts(devices: seq<Device>, org: string, hosts: seq<Host>)
    requires DistinctIds(hosts)
    ensures var rows := RowsWithIds(devices, org, Ids(hosts));
            && (|rows| >= |hosts| <==> |MissingIds(devices, org, hosts)| <= Repeats(devices, rows))
            && (Ids(hosts) <= Uuids(devices, org) ==> |rows| >= |hosts|)
            && (UniqueUuids(devices, org) ==> (|rows| >= |hosts| <==> Ids(hosts) <= Uuids(devices, org)))
  {
    RowsAndMissing(devices, org, hosts);
    SplitBy(Ids(hosts), Uuids(devices, org));
    if UniqueUuids(devices, org) {
      NoRepeats(devices, org, Ids(hosts));
    }
  }

  /** Two live rows with one uuid hide a missing host: the page of two hosts counts as complete. */
  lemma RepeatHidesMissing()
    ensures var devices := [Device("o", "a", true), Device("o", "a", true)];
            var hosts := [Host("a", "o"), Host("b", "o")];
            && DistinctIds(hosts) && "b" in MissingIds(devices, "o", hosts)
            && |RowsWithIds(devices, "o", Ids(hosts))| >= |hosts|
  {
    var devices := [Device("o", "a", true), Device("o", "a", true)];
    var hosts := [Host("a", "o"), Host("b", "o")];
    assert "a"[0] != "b"[0];
    var rows := RowsWithIds(devices, "o", Ids(hosts));
    assert hosts[0] in hosts && hosts[1] in hosts;
    assert 0 in rows && 1 in rows;
    DistinctSize(rows);
    SubsetSize({0, 1}, Elements(rows));
  }

  lemma FoundUuids(devices: seq<Device>, org: string, ids: set<string>)
    ensures (set k | k in RowsWithIds(devices, org, ids) :: Uuid(devices, k)) == Uuids(devices, org) * ids
  {
    var found := set k | k in RowsWithIds(devices, org, ids) :: Uuid(devices, k);
    forall id | id in Uuids(devices, org) * ids ensures id in found {
      var k :| Row(devices, org, k) && devices[k].uuid == id;
      assert k in RowsWithIds(devices, org, ids);
    }
    forall id | id in found ensures id in Uuids(devices, org) * ids {
      var k: nat :| k in RowsWithIds(devices, org, ids) && Uuid(devices, k) == id;
      assert Row(devices, org, k);
    }
  }

  lemma Associative(a: seq<Device>, b: seq<Device>, c: seq<Device>)
    ensures (a + b) + c == a + (b + c)
  {
  }

  lemma DistinctParts(a: seq<Host>, b: seq<Host>)
    requires DistinctIds(a + b)
    ensures DistinctIds(a) && DistinctIds(b)
    ensures Ids(a) !! Ids(b)
  {
    forall i, j | 0 <= i < j < |a| ensures a[i].id != a[j].id {
      assert (a + b)[i] == a[i] && (a + b)[j] == a[j];
    }
    forall i, j | 0 <= i < j < |b| ensures b[i].id != b[j].id {
      assert (a + b)[|a| + i] == b[i] && (a + b)[|a| + j] == b[j];
    }
    forall h, g | h in a && g in b ensures h.id != g.id {
      var i :| 0 <= i < |a| && a[i] == h;
      var j :| 0 <= j < |b| && b[j] == g;
      assert (a + b)[i] == h && (a + b)[|a| + j] == g;
    }
  }

  /** Pages are filled one after the other. */
  lemma {:induction false} NewRowsAppend(devices: seq<Device>, a: seq<Host>, b: seq<Host>)
    requires DistinctIds(a + b)
    ensures NewRows(devices, a + b) == NewRows(devices, a) + NewRows(devices + NewRows(devices, a), b)
  {
    if b == [] {
      assert a + b == a;
    } else {
      var last := |b| - 1;
      var more := devices + NewRows(devices, a);
      assert (a + b)[..|a| + last] == a + b[..last];
      NewRowsAppend(devices, a, b[..last]);
      assert (a + b)[|a + b| - 1] == b[last];
      DistinctParts(a, b);
      assert b[last].id in Ids(b);
      HeldBefore(devices, a, b[last].id);
    }
  }

  lemma HeldBefore(devices: seq<Device>, hosts: seq<Host>, id: string)
    requires DistinctIds(hosts) && forall h | h in hosts :: h.id != id
    ensures Held(devices + NewRows(devices, hosts), id) <==> Held(devices, id)
  {
    AppendedHeld(devices, hosts, id);
  }

  // ----- the service -----

  class DeviceService {
    /** What the inventory lists throughout. */
    const inventory: seq<Host>
    const syncDelete: bool
    const syncCreate: bool
    var devices: seq<Device>

    constructor (devices: seq<Device>, inventory: seq<Host>, syncDelete: bool, syncCreate: bool)
      ensures this.devices == devices && this.inventory == inventory
      ensures this.syncDelete == syncDelete && this.syncCreate == syncCreate
    {
      this.devices, this.inventory, this.syncDelete, this.syncCreate := devices, inventory, syncDelete, syncCreate;
    }

    /** The inventory refuses an empty list of ids. */
    function ReturnDeviceListByID(ids: seq<string>): Response {
      if ids == [] then Response([], 0, 0)
      else Response(WithIds(inventory, ids), |WithIds(inventory, ids)|, |WithIds(inventory, ids)|)
    }

    /** Page numbers start at one; a page past the end is empty. */
    function ReturnDevices(page: nat): Response
      requires page > 0
    {
      var from, to := Min((page - 1) * LIMIT, |inventory|), Min(page * LIMIT, |inventory|);
      Response(inventory[from..to], to - from, |inventory|)
    }

    method NotListed(page: seq<nat>, listed: set<string>) returns (rows: seq<nat>)
      ensures forall k :: k in rows <==> k in page && Uuid(devices, k) !in listed
    {
      rows := [];
      for i := 0 to |page|
        invariant forall k :: k in rows <==> k in page[..i] && Uuid(devices, k) !in listed
      {
        assert page[..i + 1] == page[..i] + [page[i]];
        if Uuid(devices, page[i]) !in listed {
          rows := rows + [page[i]];
        }
      }
      assert page[..|page|] == page;
    }

    /** The devices of a page that the inventory does not list; a page that is not larger than the answer has none. */
    method StaleDevices(page: seq<nat>) returns (stale: seq<nat>)
      requires DistinctIds(inventory) && forall k | k in page :: k < |devices|
      ensures forall k :: k in stale <==> k in page && devices[k].uuid !in Ids(inventory)
    {
      stale := [];
      var ids := UuidsOf(devices, page);
      var response := ReturnDeviceListByID(ids);
      UuidsOfElements(devices, page);
      PageOfDevices(inventory, ids);
      AnswerIds(inventory, ids);
      assert forall k | k in page :: Uuid(devices, k) in Elements(ids);
      if |page| > response.count {
        stale := NotListed(page, Ids(response.result));
      }
    }

    /** Phase one: pages of the organisation's devices are compared with the inventory, then the stale ones deleted. */
    method DeleteStaleDevices(org: string)
      requires DistinctIds(inventory)
      modifies this`devices
      ensures devices == if syncDelete then Pruned(old(devices), org, inventory) else old(devices)
    {
      var rows := LiveRows(devices, org);
      var total := |rows|;
      var offset := 0;
      var devicesToBeDeleted: seq<nat> := [];
      while offset <= total
        invariant 0 <= offset <= total + LIMIT && devices == old(devices)
        invariant forall k :: k in devicesToBeDeleted <==>
                    k in rows[..Min(offset, total)] && Uuid(devices, k) !in Ids(inventory)
      {
        var next := Min(offset + LIMIT, total);
        var page := rows[offset..next];
        assert forall k | k in page :: k in rows;
        assert rows[..next] == rows[..Min(offset, total)] + page;
        var stale := StaleDevices(page);
        devicesToBeDeleted := devicesToBeDeleted + stale;
        offset := offset + LIMIT;
      }
      assert rows[..total] == rows;
      if |devicesToBeDeleted| > 0 && syncDelete {
        DeleteRows(devicesToBeDeleted);
      }
      if syncDelete {
        forall k | 0 <= k < |devices| ensures devices[k] == PrunedRow(old(devices)[k], org, inventory) {
          assert k in rows <==> Row(old(devices), org, k);
          assert k in devicesToBeDeleted <==> k in rows && Uuid(old(devices), k) !in Ids(inventory);
        }
        assert devices == Pruned(old(devices), org, inventory);
      }
    }

    method DeleteRows(rows: seq<nat>)
      requires forall k | k in rows :: k < |devices|
      modifies this`devices
      ensures |devices| == |old(devices)|
      ensures forall k | 0 <= k < |devices| ::
                devices[k] == if k in rows then old(devices)[k].(live := false) else old(devices)[k]
    {
      for i := 0 to |rows|
        invariant |devices| == |old(devices)|
        invariant forall k | 0 <= k < |devices| ::
                    devices[k] == if k in rows[..i] then old(devices)[k].(live := false) else old(devices)[k]
      {
        assert rows[..i + 1] == rows[..i] + [rows[i]];
        assert rows[i] in rows;
        devices := devices[rows[i] := devices[rows[i]].(live := false)];
      }
      assert rows[..|rows|] == rows;
    }

    /** The event of one missing host: created only when no live device, of any organisation, has the id. */
    method CreateFromHost(h: Host)
      modifies this`devices
      ensures devices == if Held(old(devices), h.id) then old(devices) else old(devices) + [Device(h.org, h.id, true)]
    {
      if !Held(devices, h.id) {
        devices := devices + [Device(h.org, h.id, true)];
      }
    }

    /** One page of phase two. */
    method AddMissingDevices(org: string, hosts: seq<Host>)
      requires DistinctIds(hosts) && UniqueUuids(devices, org)
      modifies this`devices
      ensures devices == With(old(devices), hosts)
    {
      var found := RowsWithIds(devices, org, Ids(hosts));
      PageOfHosts(devices, org, hosts);
      if |found| < |hosts| {
        var known := set k | k in found :: Uuid(devices, k);
        FoundUuids(devices, org, Ids(hosts));
        forall id | id in known ensures Held(devices, id) {
          assert id in Uuids(devices, org);
        }
        CreateUnknown(hosts, known);
      } else {
        NoneMissing(devices, org, hosts);
      }
    }

    /** The rows together with new ones for the missing hosts, if these may be created. */
    ghost function With(rows: seq<Device>, hosts: seq<Host>): seq<Device> {
      if syncCreate then rows + NewRows(rows, hosts) else rows
    }

    method CreateUnknown(hosts: seq<Host>, known: set<string>)
      requires DistinctIds(hosts) && forall id | id in known :: Held(devices, id)
      modifies this`devices
      ensures devices == With(old(devices), hosts)
    {
      for i := 0 to |hosts|
        invariant devices == With(old(devices), hosts[..i])
      {
        assert hosts[..i + 1][..i] == hosts[..i];
        HeldBefore(old(devices), hosts[..i], hosts[i].id);
        if hosts[i].id !in known {
          if syncCreate {
            CreateFromHost(hosts[i]);
          }
        }
      }
      assert hosts[..|hosts|] == hosts;
    }

    lemma WithPage(rows: seq<Device>, org: string, hosts: seq<Host>, page: seq<Host>)
      requires InventoryOk(hosts + page, org) && UniqueUuids(rows, org)
      ensures With(With(rows, hosts), page) == With(rows, hosts + page) && UniqueUuids(With(rows, hosts), org)
      ensures DistinctIds(page)
    {
      DistinctParts(hosts, page);
      NewRowsAppend(rows, hosts, page);
      AppendedUnique(rows, org, hosts);
      var first := NewRows(rows, hosts);
      Associative(rows, first, NewRows(rows + first, page));
    }

    /** Phase two: the pages of the inventory, until one is not full. */
    method SyncInventoryWithDevices(org: string)
      requires InventoryOk(inventory, org) && UniqueUuids(devices, org)
      modifies this`devices
      ensures devices == With(old(devices), inventory)
    {
      var page := 1;
      var searchInventory := true;
      ghost var done := 0;
      while searchInventory
        invariant page >= 1 && 0 <= done <= |inventory|
        invariant if searchInventory then done == (page - 1) * LIMIT else done == |inventory|
        invariant devices == With(old(devices), inventory[..done])
        decreases |inventory| + 1 - done, searchInventory
      {
        var response := ReturnDevices(page);
        ghost var to := Min(page * LIMIT, |inventory|);
        assert inventory[..to] == inventory[..done] + response.result;
        WithPage(old(devices), org, inventory[..done], response.result);
        AddMissingDevices(org, response.result);
        done := to;
        if response.count < LIMIT {
          searchInventory := false;
        }
        page := page + 1;
      }
      assert inventory[..|inventory|] == inventory;
    }

    /** With both flags on, afterwards the organisation has one live device for each inventory id that no other
        organisation's device has, and no other, and a sync of that changes nothing. */
    method SyncDevicesWithInventory(org: string)
      requires InventoryOk(inventory, org) && UniqueUuids(devices, org)
      modifies this`devices
      ensures syncDelete && syncCreate ==> devices == Synced(old(devices), org, inventory)
      ensures syncDelete && syncCreate ==>
                && Uuids(devices, org) == Ids(inventory) - Foreign(old(devices), org, inventory)
                && UniqueUuids(devices, org)
                && Synced(devices, org, inventory) == devices
      ensures devices == SyncedUnder(old(devices), org, inventory, syncDelete, syncCreate)
    {
      SyncConverges(devices, org, inventory);
      PrunedRows(devices, org, inventory);
      DeleteStaleDevices(org);
      var total := |LiveRows(devices, org)|;
      var response := ReturnDevices(1);
      if response.total != total {
        SyncInventoryWithDevices(org);
      }
    }
  }

  lemma NoneMissing(devices: seq<Device>, org: string, hosts: seq<Host>)
    requires DistinctIds(hosts) && Ids(hosts) <= Uuids(devices, org)
    ensures devices + NewRows(devices, hosts) == devices
  {
    forall h | h in hosts ensures Held(devices, h.id) {
      assert h.id in Uuids(devices, org);
    }
    NoNewRows(devices, hosts);
  }
}
