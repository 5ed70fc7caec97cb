/** Playbook-dispatcher events and the status of update transactions. */
module DispatchEvents {
  import opened Queries

  datatype RecordStatus = Created | Pending | Running | Errored | Complete
  datatype UpdateStatus = UpdateCreated | Building | UpdateErrored | UpdateSuccess | Disconnected | Unresponsive
  datatype Reason = NoReason | Failure | Timeout

  datatype Record = Record(dispatcherId: string, device: nat, status: RecordStatus, reason: Reason)
  datatype Update = Update(status: UpdateStatus, records: seq<nat>, devices: set<nat>, commit: string)
  datatype Device = Device(currentHash: string, availableHash: string, runs: string)

  datatype Db = Db(records: map<nat, Record>, updates: map<nat, Update>, devices: map<nat, Device>)

  /** A payload status outside the event schema counts as a failure. */
  datatype Payload = PayloadRunning | PayloadSuccess | PayloadFailure | PayloadTimeout | PayloadUnknown
  datatype Event = Event(id: string, payload: Payload)

  /** A record whose device has been deleted: saving it after a failure is refused, and a success dereferences nil. */
  datatype Outcome = Done | RecordNotFound | UpdateNotFound | DeviceNotSaved | NilDevice

  const DEV_NULL := "/dev/null"

  // ----- one event -----

  function Verdict(payload: Payload): RecordStatus {
    match payload
    case PayloadSuccess => Complete
    case PayloadRunning => Running
    case _ => Errored
  }

  function Why(payload: Payload, before: Reason): Reason {
    match payload
    case PayloadSuccess => before
    case PayloadRunning => before
    case PayloadTimeout => Timeout
    case _ => Failure
  }

  /** The records with a dispatcher id; an empty id is no condition at all. */
  function RecordsWithId(db: Db, id: string): set<nat> {
    set x | x in db.records && (id == "" || db.records[x].dispatcherId == id)
  }

  function UpdatesOf(db: Db, x: nat): set<nat> {
    set u | u in db.updates && x in db.updates[u].records
  }

  predicate AllComplete(records: map<nat, Record>, ids: seq<nat>) {
    forall x | x in ids :: x in records && records[x].status == Complete
  }

  predicate SomeErrored(records: map<nat, Record>, ids: seq<nat>) {
    exists x | x in ids :: x in records && records[x].status == Errored
  }

  /** SetUpdateStatus: an error decides, then success of all; otherwise the status stays. */
  function Decided(records: map<nat, Record>, ids: seq<nat>, status: UpdateStatus): UpdateStatus {
    if SomeErrored(records, ids) then UpdateErrored
    else if AllComplete(records, ids) then UpdateSuccess
    else status
  }

  function Ended(record: Record, payload: Payload): Record {
    record.(status := Verdict(payload), reason := Why(payload, record.reason))
  }

  function DevicesSaved(devices: map<nat, Device>, d: nat, payload: Payload): map<nat, Device>
    requires d in devices
  {
    if payload.PayloadSuccess?
    then devices[d := devices[d].(currentHash := devices[d].availableHash, availableHash := DEV_NULL)] else devices
  }

  function SavedRecord(db: Db, x: nat, payload: Payload): Db
    requires x in db.records && db.records[x].device in db.devices
  {
    db.(records := db.records[x := Ended(db.records[x], payload)],
        devices := DevicesSaved(db.devices, db.records[x].device, payload))
  }

  /** The devices of a successful update run its commit. */
  function DevicesMoved(db: Db, u: nat): Db
    requires u in db.updates
  {
    if db.updates[u].status != UpdateSuccess then db
    else db.(devices := map d | d in db.devices ::
               if d in db.updates[u].devices then db.devices[d].(runs := db.updates[u].commit) else db.devices[d])
  }

  ghost function UpdateSettled(db: Db, x: nat): (Db, Outcome) {
    var found := UpdatesOf(db, x);
    if found == {} then (db, UpdateNotFound)
    else
      var u := FirstOf(found);
      var update := db.updates[u];
      var status := Decided(db.records, update.records, update.status);
      (DevicesMoved(db.(updates := db.updates[u := update.(status := status)]), u), Done)
  }

  ghost function Processed(db: Db, e: Event): (Db, Outcome) {
    if e.payload.PayloadRunning? then (db, Done)
    else if RecordsWithId(db, e.id) == {} then (db, RecordNotFound)
    else
      var x := FirstOf(RecordsWithId(db, e.id));
      if db.records[x].device in db.devices then UpdateSettled(SavedRecord(db, x, e.payload), x)
      else if e.payload.PayloadSuccess? then (db, NilDevice)
      else (db.(records := db.records[x := Ended(db.records[x], e.payload)]), DeviceNotSaved)
  }

  // ----- runs of events -----

  ghost function Run(db: Db, events: seq<Event>): Db {
    if events == [] then db
    else Processed(Run(db, events[..|events| - 1]), events[|events| - 1]).0
  }

  /** Every record of an update is there. */
  predicate RecordsThere(db: Db) {
    forall u, x | u in db.updates && x in db.updates[u].records :: x in db.records
  }

  /** Dispatcher ids name records, and each record belongs to one update. A dispatch that failed leaves a record in
      error without an id, and the device of a record may have been deleted. */
  ghost predicate Linked(db: Db) {
    && RecordsThere(db)
    && (forall x, y | x in db.records && y in db.records &&
                      db.records[x].dispatcherId == db.records[y].dispatcherId != "" :: x == y)
    && (forall u, v, x | u in db.updates && v in db.updates &&
                         x in db.updates[u].records && x in db.updates[v].records :: u == v)
  }

  /** The event has an id, and a record with that id has its device. */
  ghost predicate Deliverable(db: Db, e: Event) {
    e.id != "" && forall x | x in db.records && db.records[x].dispatcherId == e.id :: db.records[x].device in db.devices
  }

  ghost predicate AllDeliverable(db: Db, events: seq<Event>) {
    forall e | e in events :: Deliverable(db, e)
  }

  /** The same rows but for statuses, reasons and what the devices run. */
  ghost predicate SameWiring(db: Db, db': Db) {
    && db'.records.Keys == db.records.Keys && db'.updates.Keys == db.updates.Keys && db'.devices.Keys == db.devices.Keys
    && (forall x | x in db.records ::
          db'.records[x].dispatcherId == db.records[x].dispatcherId && db'.records[x].device == db.records[x].device)
    && (forall u | u in db.updates :: db'.updates[u] == db.updates[u].(status := db'.updates[u].status))
  }

  /** The update status agrees with the records: an error wins, success needs all of them. */
  ghost predicate Agrees(records: map<nat, Record>, update: Update) {
    update.records != [] ==> update.status == Decided(records, update.records, update.status)
  }

  ghost predicate AllAgree(db: Db) {
    forall u | u in db.updates :: Agrees(db.records, db.updates[u])
  }

  /** A terminal event of record x: that record, the status of its update, and no other status. */
  ghost predicate Effect(db: Db, x: nat, payload: Payload, db': Db) {
    && x in db.records && SameWiring(db, db') && db'.records == db.records[x := Ended(db.records[x], payload)]
    && forall u | u in db.updates :: db'.updates[u].status ==
         if x in db.updates[u].records
         then Decided(db'.records, db.updates[u].records, db.updates[u].status) else db.updates[u].status
  }

  lemma RecordFound(db: Db, x: nat)
    requires Linked(db) && x in db.records && db.records[x].dispatcherId != ""
    ensures RecordsWithId(db, db.records[x].dispatcherId) == {x}
    ensures FirstOf(RecordsWithId(db, db.records[x].dispatcherId)) == x
  {
    var found := RecordsWithId(db, db.records[x].dispatcherId);
    assert x in found && forall y | y in found :: y == x;
    assert First(found, FirstOf(found));
  }

  lemma SettledEffect(db: Db, x: nat)
    requires Linked(db) && x in db.records
    ensures var db' := UpdateSettled(db, x).0;
            && SameWiring(db, db') && db'.records == db.records
            && forall u | u in db.updates :: db'.updates[u].status ==
                 if x in db.updates[u].records
                 then Decided(db.records, db.updates[u].records, db.updates[u].status) else db.updates[u].status
  {
    var found := UpdatesOf(db, x);
    forall u | u in db.updates && u !in found ensures x !in db.updates[u].records {}
    if found != {} {
      assert FirstOf(found) in found;
    }
  }

  lemma ProcessedEffect(db: Db, e: Event, x: nat)
    requires Linked(db) && Deliverable(db, e) && !e.payload.PayloadRunning?
    requires x in db.records && db.records[x].dispatcherId == e.id
    ensures Effect(db, x, e.payload, Processed(db, e).0)
  {
    RecordFound(db, x);
    var db1 := SavedRecord(db, x, e.payload);
    assert Linked(db1);
    SettledEffect(db1, x);
  }

  /** Running events and unknown ids change nothing. */
  lemma ProcessedNothing(db: Db, e: Event)
    requires e.id != "" && (e.payload.PayloadRunning? || !Known(db, e.id))
    ensures Processed(db, e).0 == db
  {
    if !e.payload.PayloadRunning? {
      assert RecordsWithId(db, e.id) == {};
    }
  }

  ghost predicate Known(db: Db, id: string) {
    exists x :: x in db.records && db.records[x].dispatcherId == id
  }

  lemma EffectKeeps(db: Db, x: nat, payload: Payload, db': Db)
    requires Linked(db) && AllAgree(db) && Effect(db, x, payload, db')
    ensures Linked(db') && AllAgree(db')
  {
    forall u | u in db'.updates ensures Agrees(db'.records, db'.updates[u]) {
      assert Agrees(db.records, db.updates[u]);
      if x !in db.updates[u].records {
        SameDecision(db.records, db'.records, db.updates[u].records, db.updates[u].status);
      }
    }
  }

  lemma SameDecision(records: map<nat, Record>, records': map<nat, Record>, ids: seq<nat>, status: UpdateStatus)
    requires forall x | x in ids :: x in records && x in records' && records'[x].status == records[x].status
    ensures Decided(records', ids, status) == Decided(records, ids, status)
  {
  }

  lemma ProcessedKeeps(db: Db, e: Event)
    requires Linked(db) && AllAgree(db) && Deliverable(db, e)
    ensures Linked(Processed(db, e).0) && AllAgree(Processed(db, e).0) && SameWiring(db, Processed(db, e).0)
  {
    if e.payload.PayloadRunning? || !Known(db, e.id) {
      ProcessedNothing(db, e);
    } else {
      var x :| x in db.records && db.records[x].dispatcherId == e.id;
      ProcessedEffect(db, e, x);
      EffectKeeps(db, x, e.payload, Processed(db, e).0);
    }
  }

  /** Without its device a record is lost to its update: an event for it keeps the statuses in agreement exactly when it
      is a success, which saves nothing at all, or when the update is in error already. */
  lemma MissingDeviceExactly(db: Db, e: Event, x: nat)
    requires Linked(db) && AllAgree(db) && !e.payload.PayloadRunning? && e.id != ""
    requires x in db.records && db.records[x].dispatcherId == e.id
    requires db.records[x].device !in db.devices
    ensures Processed(db, e).0.updates == db.updates
    ensures AllAgree(Processed(db, e).0) <==>
            e.payload.PayloadSuccess? ||
            forall u | u in db.updates && x in db.updates[u].records :: db.updates[u].status == UpdateErrored
  {
    RecordFound(db, x);
    var db' := Processed(db, e).0;
    if !e.payload.PayloadSuccess? {
      forall u | u in db.updates
        ensures Agrees(db'.records, db.updates[u]) <==>
                (x in db.updates[u].records ==> db.updates[u].status == UpdateErrored)
      {
        assert Agrees(db.records, db.updates[u]);
        if x in db.updates[u].records {
          assert SomeErrored(db'.records, db.updates[u].records);
        } else {
          SameDecision(db.records, db'.records, db.updates[u].records, db.updates[u].status);
        }
      }
    }
  }

  /** The failure of a record whose device is gone: the record is saved, the update stays in progress. */
  lemma LostFailure()
    ensures var db := Db(map[1 := Record("r", 7, Created, NoReason)], map[1 := Update(Building, [1], {}, "c")], map[]);
            var (db', outcome) := Processed(db, Event("r", PayloadFailure));
            && Linked(db) && AllAgree(db) && outcome == DeviceNotSaved && !AllAgree(db')
            && 1 in db'.records && db'.records[1].status == Errored && db'.updates == db.updates
  {
    var db := Db(map[1 := Record("r", 7, Created, NoReason)], map[1 := Update(Building, [1], {}, "c")], map[]);
    assert 1 in db.updates[1].records;
    RecordFound(db, 1);
    MissingDeviceExactly(db, Event("r", PayloadFailure), 1);
  }

  lemma StaysDeliverable(db: Db, db': Db, e: Event)
    requires SameWiring(db, db') && Deliverable(db, e)
    ensures Deliverable(db', e)
  {
  }

  /** Over every run of events, in any order and with any re-delivery, the status of every update with records agrees
      with them: ERROR while one of them is in error, SUCCESS when all of them are complete. */
  lemma {:induction false} AgreesOverRuns(db: Db, events: seq<Event>)
    requires Linked(db) && AllAgree(db) && AllDeliverable(db, events)
    ensures Linked(Run(db, events)) && AllAgree(Run(db, events)) && SameWiring(db, Run(db, events))
  {
    if events == [] {
    } else {
      var last := |events| - 1;
      AgreesOverRuns(db, events[..last]);
      StaysDeliverable(db, Run(db, events[..last]), events[last]);
      ProcessedKeeps(Run(db, events[..last]), events[last]);
    }
  }

  // ----- independence of order and re-delivery -----

  /** The events that decide something about a record. */
  predicate Ends(e: Event, id: string) {
    e.id == id && !e.payload.PayloadRunning?
  }

  /** No two terminal events with the id contradict each other. */
  ghost predicate Coherent(events: seq<Event>, id: string) {
    forall e, f | e in events && f in events && Ends(e, id) && Ends(f, id) :: Verdict(e.payload) == Verdict(f.payload)
  }

  /** The events contradict each other on no record. */
  ghost predicate Consistent(db: Db, events: seq<Event>) {
    forall x | x in db.records :: Coherent(events, db.records[x].dispatcherId)
  }

  /** Some event of the list decides the record. */
  ghost predicate Decides(events: seq<Event>, id: string) {
    exists e :: e in events && Ends(e, id)
  }

  /** The status the events leave a record in, read off the set of events. */
  ghost predicate Left(events: seq<Event>, id: string, before: RecordStatus, after: RecordStatus) {
    && (!Decides(events, id) ==> after == before)
    && forall e | e in events && Ends(e, id) :: after == Verdict(e.payload)
  }

  /** One more event, seen from one record. */
  lemma LeftStep(events: seq<Event>, e: Event, id: string, before: RecordStatus, middle: RecordStatus)
    requires Coherent(events + [e], id) && Left(events, id, before, middle)
    ensures Left(events + [e], id, before, if Ends(e, id) then Verdict(e.payload) else middle)
  {
    if Ends(e, id) {
      assert e in events + [e];
    } else {
      assert forall f | f in events + [e] && Ends(f, id) :: f in events;
      if Decides(events, id) {
        var f :| f in events && Ends(f, id);
        assert f in events + [e];
      }
    }
  }

  lemma RecordStep(db: Db, e: Event, x: nat)
    requires Linked(db) && Deliverable(db, e) && x in db.records
    ensures x in Processed(db, e).0.records
    ensures Processed(db, e).0.records[x].status ==
            if Ends(e, db.records[x].dispatcherId) then Verdict(e.payload) else db.records[x].status
  {
    if e.payload.PayloadRunning? || !Known(db, e.id) {
      ProcessedNothing(db, e);
    } else {
      var y :| y in db.records && db.records[y].dispatcherId == e.id;
      ProcessedEffect(db, e, y);
    }
  }

  /** A record ends in the status of its terminal events, or keeps its own. */
  lemma {:induction false} RecordsOfRun(db: Db, events: seq<Event>, x: nat)
    requires Linked(db) && AllAgree(db) && AllDeliverable(db, events)
    requires x in db.records && Coherent(events, db.records[x].dispatcherId)
    ensures x in Run(db, events).records
    ensures Left(events, db.records[x].dispatcherId, db.records[x].status, Run(db, events).records[x].status)
  {
    if events == [] {
    } else {
      var before, e := events[..|events| - 1], events[|events| - 1];
      assert events == before + [e];
      AgreesOverRuns(db, before);
      RecordsOfRun(db, before, x);
      StaysDeliverable(db, Run(db, before), e);
      RecordStep(Run(db, before), e, x);
      LeftStep(before, e, db.records[x].dispatcherId, db.records[x].status, Run(db, before).records[x].status);
    }
  }

  lemma UpdateStep(db: Db, e: Event, u: nat)
    requires Linked(db) && Deliverable(db, e) && u in db.updates
    ensures u in Processed(db, e).0.updates
    ensures var after := Processed(db, e).0;
            var update := db.updates[u];
            if forall x | x in update.records :: x in after.records && after.records[x] == db.records[x]
            then after.updates[u].status in {update.status, Decided(after.records, update.records, update.status)}
                 && (update.records == [] ==> after.updates[u].status == update.status)
            else after.updates[u].status == Decided(after.records, update.records, update.status)
  {
    if e.payload.PayloadRunning? || !Known(db, e.id) {
      ProcessedNothing(db, e);
    } else {
      var y :| y in db.records && db.records[y].dispatcherId == e.id;
      ProcessedEffect(db, e, y);
    }
  }

  /** One more event takes a record out of its decision only if that was its status from the start: an error of the
      update then was one from the start as well. */
  lemma StatusFallsBack(db: Db, before: seq<Event>, e: Event, u: nat)
    requires Linked(db) && AllAgree(db) && AllDeliverable(db, before + [e]) && Consistent(db, before + [e])
    requires u in db.updates
    requires Linked(Run(db, before)) && SameWiring(db, Run(db, before))
    ensures var ids, status := db.updates[u].records, db.updates[u].status;
            var middle, after := Run(db, before).records, Processed(Run(db, before), e).0.records;
            Decided(after, ids, Decided(middle, ids, status)) == Decided(after, ids, status)
  {
    var ids, status := db.updates[u].records, db.updates[u].status;
    var middle, after := Run(db, before).records, Processed(Run(db, before), e).0.records;
    assert e in before + [e];
    assert forall f | f in before :: f in before + [e];
    StaysDeliverable(db, Run(db, before), e);
    forall x | x in ids
      ensures x in middle && x in after
      ensures middle[x].status == Complete && after[x].status != Complete ==> after[x].status == Errored
      ensures middle[x].status == Errored && after[x].status != Errored ==> db.records[x].status == Errored
    {
      RecordsOfRun(db, before, x);
      RecordStep(Run(db, before), e, x);
      assert Coherent(before + [e], db.records[x].dispatcherId);
    }
    if SomeErrored(middle, ids) && !SomeErrored(after, ids) {
      var x :| x in ids && x in middle && middle[x].status == Errored;
      assert Agrees(db.records, db.updates[u]);
    }
  }

  /** The update status after a run is the decision on the final records; it falls back on the status before. */
  lemma {:induction false} UpdatesOfRun(db: Db, events: seq<Event>, u: nat)
    requires Linked(db) && AllAgree(db) && AllDeliverable(db, events) && Consistent(db, events) && u in db.updates
    ensures u in Run(db, events).updates
    ensures var update := db.updates[u];
            Run(db, events).updates[u].status ==
            if update.records == [] then update.status
            else Decided(Run(db, events).records, update.records, update.status)
  {
    if events == [] {
      assert Agrees(db.records, db.updates[u]);
    } else {
      var before, e := events[..|events| - 1], events[|events| - 1];
      assert events == before + [e];
      assert forall f | f in before :: f in events;
      AgreesOverRuns(db, before);
      UpdatesOfRun(db, before, u);
      StaysDeliverable(db, Run(db, before), e);
      UpdateStep(Run(db, before), e, u);
      StatusFallsBack(db, before, e, u);
    }
  }

  /** The status of a record and of an update after a run. */
  ghost function RecordAfter(db: Db, events: seq<Event>, x: nat): RecordStatus {
    if x in Run(db, events).records then Run(db, events).records[x].status else Created
  }

  ghost function UpdateAfter(db: Db, events: seq<Event>, u: nat): UpdateStatus {
    if u in Run(db, events).updates then Run(db, events).updates[u].status else UpdateCreated
  }

  /** The same events, in whatever order and however often each of them. */
  ghost predicate SameEvents(events: seq<Event>, events': seq<Event>) {
    forall e :: e in events <==> e in events'
  }

  /** Any two runs of the same events leave the same record and update statuses. */
  lemma OrderAndRedeliveryDoNotMatter(db: Db, events: seq<Event>, events': seq<Event>)
    requires Linked(db) && AllAgree(db) && AllDeliverable(db, events) && Consistent(db, events)
    requires SameEvents(events, events')
    ensures forall x | x in db.records :: RecordAfter(db, events, x) == RecordAfter(db, events', x)
    ensures forall u | u in db.updates :: UpdateAfter(db, events, u) == UpdateAfter(db, events', u)
  {
    forall x | x in db.records
      ensures x in Run(db, events).records && x in Run(db, events').records
      ensures RecordAfter(db, events, x) == RecordAfter(db, events', x)
    {
      assert Coherent(events, db.records[x].dispatcherId) && Coherent(events', db.records[x].dispatcherId);
      RecordsOfRun(db, events, x);
      RecordsOfRun(db, events', x);
      LeftAgree(events, events', db.records[x].dispatcherId, db.records[x].status,
                RecordAfter(db, events, x), RecordAfter(db, events', x));
    }
    forall u | u in db.updates ensures UpdateAfter(db, events, u) == UpdateAfter(db, events', u) {
      UpdatesOfRun(db, events, u);
      UpdatesOfRun(db, events', u);
      SameDecision(Run(db, events).records, Run(db, events').records, db.updates[u].records, db.updates[u].status);
    }
  }

  lemma LeftAgree(events: seq<Event>, events': seq<Event>, id: string, before: RecordStatus, after: RecordStatus,
                  after': RecordStatus)
    requires SameEvents(events, events')
    requires Left(events, id, before, after) && Left(events', id, before, after')
    ensures after == after'
  {
    if e :| e in events && Ends(e, id) {
      assert e in events';
    }
  }

  /** Two events that contradict each other on a record: whichever is delivered last decides. */
  lemma ContradictionMatters(db: Db, events: seq<Event>, x: nat) returns (one: seq<Event>, other: seq<Event>)
    requires Linked(db) && AllAgree(db) && AllDeliverable(db, events)
    requires x in db.records && !Coherent(events, db.records[x].dispatcherId)
    ensures SameEvents(events, one) && SameEvents(events, other)
    ensures RecordAfter(db, one, x) != RecordAfter(db, other, x)
  {
    var id := db.records[x].dispatcherId;
    var e, f :| e in events && f in events && Ends(e, id) && Ends(f, id) && Verdict(e.payload) != Verdict(f.payload);
    one, other := events + [e], events + [f];
    AgreesOverRuns(db, events);
    StaysDeliverable(db, Run(db, events), e);
    StaysDeliverable(db, Run(db, events), f);
    assert one[..|events|] == events && other[..|events|] == events;
    RecordStep(Run(db, events), e, x);
    RecordStep(Run(db, events), f, x);
  }

  /** So order and re-delivery do not matter exactly when the events contradict each other on no record. */
  lemma OrderMattersExactly(db: Db, events: seq<Event>)
    requires Linked(db) && AllAgree(db) && AllDeliverable(db, events)
    ensures Consistent(db, events) <==>
            forall events', x | SameEvents(events, events') && x in db.records ::
              RecordAfter(db, events', x) == RecordAfter(db, events, x)
  {
    if Consistent(db, events) {
      forall events', x | SameEvents(events, events') && x in db.records
        ensures RecordAfter(db, events', x) == RecordAfter(db, events, x)
      {
        OrderAndRedeliveryDoNotMatter(db, events, events');
      }
    } else {
      var x :| x in db.records && !Coherent(events, db.records[x].dispatcherId);
      var one, other := ContradictionMatters(db, events, x);
    }
  }

  /** Once every record of an update has had a terminal event, the update is a SUCCESS when all of those were
      successes and an ERROR otherwise. */
  lemma FinalStatus(db: Db, events: seq<Event>, u: nat)
    requires Linked(db) && AllAgree(db) && AllDeliverable(db, events) && Consistent(db, events)
    requires u in db.updates && db.updates[u].records != []
    requires forall x | x in db.updates[u].records :: Decides(events, db.records[x].dispatcherId)
    ensures u in Run(db, events).updates
    ensures Run(db, events).updates[u].status ==
            if forall x, e | x in db.updates[u].records && e in events && Ends(e, db.records[x].dispatcherId) ::
                 e.payload.PayloadSuccess?
            then UpdateSuccess else UpdateErrored
  {
    UpdatesOfRun(db, events, u);
    var after := Run(db, events);
    forall x | x in db.updates[u].records
      ensures x in after.records
      ensures forall e | e in events && Ends(e, db.records[x].dispatcherId) ::
                after.records[x].status == Verdict(e.payload)
    {
      RecordsOfRun(db, events, x);
    }
    if x, e :|
        && x in db.updates[u].records && e in events
        && Ends(e, db.records[x].dispatcherId) && !e.payload.PayloadSuccess?
    {
      assert after.records[x].status == Errored;
    } else {
      forall x | x in db.updates[u].records ensures after.records[x].status == Complete {
        var e :| e in events && Ends(e, db.records[x].dispatcherId);
      }
    }
  }

  /** One of two devices could not be reached. */
  const UNREACHED := Db(map[1 := Record("", 7, Errored, Failure), 2 := Record("r", 8, Created, NoReason)],
                        map[1 := Update(UpdateErrored, [1, 2], {7, 8}, "c")], map[8 := Device("a", "b", "c")])

  lemma OneEvent(db: Db, e: Event)
    requires Deliverable(db, e)
    ensures AllDeliverable(db, [e]) && Consistent(db, [e])
  {
  }

  lemma UnreachedIsSound()
    ensures Linked(UNREACHED) && AllAgree(UNREACHED)
  {
    var db := UNREACHED;
    assert db.records.Keys == {1, 2} && db.updates.Keys == {1};
    assert SomeErrored(db.records, [1, 2]) by {
      assert 1 in [1, 2] && db.records[1].status == Errored;
    }
  }

  /** The record of the device is in error without an id; the success of the other record leaves the update in error. */
  lemma UnreachableDevice()
    ensures var events := [Event("r", PayloadSuccess)];
            && Linked(UNREACHED) && AllAgree(UNREACHED)
            && AllDeliverable(UNREACHED, events) && Consistent(UNREACHED, events)
            && RecordAfter(UNREACHED, events, 1) == Errored && RecordAfter(UNREACHED, events, 2) == Complete
            && UpdateAfter(UNREACHED, events, 1) == UpdateErrored
  {
    var events := [Event("r", PayloadSuccess)];
    UnreachedIsSound();
    OneEvent(UNREACHED, events[0]);
    assert Ends(events[0], "r");
    RecordsOfRun(UNREACHED, events, 1);
    RecordsOfRun(UNREACHED, events, 2);
    UpdatesOfRun(UNREACHED, events, 1);
  }

  // ----- devices -----

  /** A device moves to another commit only when an event completes the last record of one of its updates, and then to
      the commit of that update. */
  lemma DevicesMoveOnSuccess(db: Db, e: Event, d: nat)
    requires Linked(db) && Deliverable(db, e) && SuccessIsComplete(db) && d in db.devices
    ensures d in Processed(db, e).0.devices
    ensures Processed(db, e).0.devices[d].runs != db.devices[d].runs ==>
              exists u :: MovedBy(db, Processed(db, e).0, u, d)
  {
    if e.payload.PayloadRunning? || !Known(db, e.id) {
      ProcessedNothing(db, e);
    } else {
      var x :| x in db.records && db.records[x].dispatcherId == e.id;
      RecordFound(db, x);
      var db1 := SavedRecord(db, x, e.payload);
      assert Linked(db1);
      SettledMoves(db1, x, d);
      if Processed(db, e).0.devices[d].runs != db.devices[d].runs {
        var u :| u in db.updates && x in db.updates[u].records && Moves(db1, UpdateSettled(db1, x).0, u, d);
        SuccessDecided(db.records, x, e.payload, db.updates[u].records, db.updates[u].status);
        assert MovedBy(db, Processed(db, e).0, u, d);
      }
    }
  }

  /** An event of record x for a device: its hashes change exactly when it is the device of the record and the event a
      success; it runs the commit of the record's update if that is a SUCCESS afterwards and has the device, and what it
      ran otherwise. */
  lemma DevicesOfEvent(db: Db, e: Event, x: nat, d: nat)
    requires Linked(db) && Deliverable(db, e) && !e.payload.PayloadRunning? && d in db.devices
    requires x in db.records && db.records[x].dispatcherId == e.id
    ensures var after := Processed(db, e).0;
            && after.devices.Keys == db.devices.Keys
            && var device, device' := db.devices[d], after.devices[d];
               && (if e.payload.PayloadSuccess? && d == db.records[x].device
                   then device'.currentHash == device.availableHash && device'.availableHash == DEV_NULL
                   else device'.currentHash == device.currentHash && device'.availableHash == device.availableHash)
               && (forall u | HasMoved(db, after, x, u, d) :: device'.runs == db.updates[u].commit)
               && ((forall u :: !HasMoved(db, after, x, u, d)) ==> device'.runs == device.runs)
  {
    RecordFound(db, x);
    var db1 := SavedRecord(db, x, e.payload);
    assert Linked(db1);
    SettledDevices(db1, x, d);
    var after := Processed(db, e).0;
    forall u ensures HasMoved(db, after, x, u, d) <==> HasMoved(db1, after, x, u, d) {}
  }

  /** The update of the record is a SUCCESS after the event, and the device is one of its devices. */
  ghost predicate HasMoved(db: Db, after: Db, x: nat, u: nat, d: nat) {
    && u in db.updates && x in db.updates[u].records && d in db.updates[u].devices
    && u in after.updates && after.updates[u].status == UpdateSuccess
  }

  lemma SettledDevices(db: Db, x: nat, d: nat)
    requires Linked(db) && d in db.devices
    ensures var after := UpdateSettled(db, x).0;
            && after.devices.Keys == db.devices.Keys
            && after.devices[d] == db.devices[d].(runs := after.devices[d].runs)
            && (forall u | HasMoved(db, after, x, u, d) :: after.devices[d].runs == db.updates[u].commit)
            && ((forall u :: !HasMoved(db, after, x, u, d)) ==> after.devices[d].runs == db.devices[d].runs)
  {
    var found := UpdatesOf(db, x);
    if found == {} {
      forall u ensures !HasMoved(db, db, x, u, d) {
        assert u in db.updates && x in db.updates[u].records ==> u in found;
      }
    } else {
      var v := FirstOf(found);
      assert v in found;
      var after := UpdateSettled(db, x).0;
      forall u | HasMoved(db, after, x, u, d) ensures u == v {}
      if after.devices[d].runs != db.devices[d].runs {
        assert HasMoved(db, after, x, v, d);
      }
    }
  }

  /** A failure and a timeout leave their reason in the record, a success leaves the one before. */
  lemma ReasonOfEvent(db: Db, e: Event, x: nat)
    requires Linked(db) && Deliverable(db, e) && !e.payload.PayloadRunning?
    requires x in db.records && db.records[x].dispatcherId == e.id
    ensures var after := Processed(db, e).0;
            && x in after.records
            && (after.records[x].reason == Timeout <==>
                  e.payload.PayloadTimeout? || (e.payload.PayloadSuccess? && db.records[x].reason == Timeout))
            && (after.records[x].reason == NoReason <==>
                  e.payload.PayloadSuccess? && db.records[x].reason == NoReason)
            && forall y | y in db.records && y != x :: y in after.records && after.records[y] == db.records[y]
  {
    ProcessedEffect(db, e, x);
  }

  /** All records of a successful update are complete. */
  ghost predicate SuccessIsComplete(db: Db) {
    forall u | u in db.updates && db.updates[u].status == UpdateSuccess ::
      AllComplete(db.records, db.updates[u].records)
  }

  /** Over every run of events a successful update has only complete records. */
  lemma {:induction false} SuccessOverRuns(db: Db, events: seq<Event>)
    requires Linked(db) && AllAgree(db) && SuccessIsComplete(db) && AllDeliverable(db, events)
    ensures SuccessIsComplete(Run(db, events))
  {
    if events == [] {
    } else {
      var before, e := events[..|events| - 1], events[|events| - 1];
      AgreesOverRuns(db, before);
      SuccessOverRuns(db, before);
      StaysDeliverable(db, Run(db, before), e);
      SuccessStep(Run(db, before), e);
    }
  }

  lemma SuccessStep(db: Db, e: Event)
    requires Linked(db) && SuccessIsComplete(db) && Deliverable(db, e)
    ensures SuccessIsComplete(Processed(db, e).0)
  {
    if e.payload.PayloadRunning? || !Known(db, e.id) {
      ProcessedNothing(db, e);
    } else {
      var x :| x in db.records && db.records[x].dispatcherId == e.id;
      ProcessedEffect(db, e, x);
      var db' := Processed(db, e).0;
      forall u | u in db'.updates && db'.updates[u].status == UpdateSuccess
        ensures AllComplete(db'.records, db'.updates[u].records)
      {
        if x in db.updates[u].records {
          SuccessDecided(db.records, x, e.payload, db.updates[u].records, db.updates[u].status);
        } else {
          assert AllComplete(db.records, db.updates[u].records);
        }
      }
    }
  }

  /** A success that is decided after a terminal event means that all records are complete. */
  lemma SuccessDecided(records: map<nat, Record>, x: nat, payload: Payload, ids: seq<nat>, status: UpdateStatus)
    requires x in records && x in ids && !payload.PayloadRunning?
    requires status == UpdateSuccess ==> AllComplete(records, ids)
    ensures var records' := records[x := Ended(records[x], payload)];
            Decided(records', ids, status) == UpdateSuccess ==> AllComplete(records', ids)
  {
    var records' := records[x := Ended(records[x], payload)];
    if status == UpdateSuccess && !SomeErrored(records', ids) {
      assert records'[x].status == Complete;
    }
  }

  /** The device is one of a successful update's and runs its commit. */
  ghost predicate Moves(db: Db, db': Db, u: nat, d: nat) {
    && u in db.updates && u in db'.updates && d in db.updates[u].devices && d in db'.devices
    && db'.updates[u].status == UpdateSuccess && db'.devices[d].runs == db.updates[u].commit
    && db'.updates[u].status == Decided(db.records, db.updates[u].records, db.updates[u].status)
  }

  /** The same, with all records of the update complete. */
  ghost predicate MovedBy(db: Db, db': Db, u: nat, d: nat) {
    && u in db.updates && u in db'.updates && d in db.updates[u].devices && d in db'.devices
    && db'.updates[u].status == UpdateSuccess && db'.devices[d].runs == db.updates[u].commit
    && AllComplete(db'.records, db.updates[u].records)
  }

  lemma SettledMoves(db: Db, x: nat, d: nat)
    requires Linked(db) && d in db.devices
    ensures var db' := UpdateSettled(db, x).0;
            && d in db'.devices && db'.records == db.records
            && (db'.devices[d].runs != db.devices[d].runs ==>
                  exists u :: u in db.updates && x in db.updates[u].records && Moves(db, db', u, d))
  {
    var found := UpdatesOf(db, x);
    if found != {} {
      assert FirstOf(found) in found;
      var u := FirstOf(found);
      if UpdateSettled(db, x).0.devices[d].runs != db.devices[d].runs {
        assert Moves(db, UpdateSettled(db, x).0, u, d);
      }
    }
  }

  /** A success is delivered twice: the statuses stay, but the hash of the device survives only if none was pending. */
  lemma RedeliveredHash(db: Db, e: Event, x: nat)
    requires Linked(db) && Deliverable(db, e) && e.payload.PayloadSuccess?
    requires x in db.records && db.records[x].dispatcherId == e.id
    ensures var d := db.records[x].device;
            var once := Processed(db, e).0;
            var twice := Processed(once, e).0;
            && d in once.devices && d in twice.devices && twice.records == once.records
            && once.devices[d].currentHash == db.devices[d].availableHash
            && (twice.devices[d].currentHash == once.devices[d].currentHash <==>
                db.devices[d].availableHash == DEV_NULL)
  {
    var once := Processed(db, e).0;
    ProcessedEffect(db, e, x);
    assert Linked(once);
    ProcessedEffect(once, e, x);
    HashOnce(db, e, x);
    HashOnce(once, e, x);
  }

  /** A device loses its hash to a success that is delivered twice. */
  lemma HashLost()
    ensures var db := Db(map[1 := Record("r", 1, Created, NoReason)], map[], map[1 := Device("a", "b", "c")]);
            var e := Event("r", PayloadSuccess);
            var once := Processed(db, e).0;
            var twice := Processed(once, e).0;
            && Linked(db) && 1 in once.devices && 1 in twice.devices
            && once.devices[1].currentHash == "b" && twice.devices[1].currentHash == DEV_NULL
  {
    var db := Db(map[1 := Record("r", 1, Created, NoReason)], map[], map[1 := Device("a", "b", "c")]);
    var e := Event("r", PayloadSuccess);
    HashOnce(db, e, 1);
    ProcessedEffect(db, e, 1);
    HashOnce(Processed(db, e).0, e, 1);
  }

  lemma HashOnce(db: Db, e: Event, x: nat)
    requires Linked(db) && Deliverable(db, e) && e.payload.PayloadSuccess?
    requires x in db.records && db.records[x].dispatcherId == e.id
    ensures var d := db.records[x].device;
            var after := Processed(db, e).0;
            && d in after.devices && after.devices[d].currentHash == db.devices[d].availableHash
            && after.devices[d].availableHash == DEV_NULL
  {
    RecordFound(db, x);
  }

  // ----- the service -----

  class UpdateService {
    var records: map<nat, Record>
    var updates: map<nat, Update>
    var devices: map<nat, Device>

    constructor (db: Db)
      ensures Tables() == db
    {
      records, updates, devices := db.records, db.updates, db.devices;
    }

    function Tables(): Db
      reads this
    {
      Db(records, updates, devices)
    }

    /** The first record in error decides; otherwise all of them must be complete. */
    method SetUpdateStatus(u: nat)
      requires u in updates && forall x | x in updates[u].records :: x in records
      modifies this`updates
      ensures updates == old(updates)[u := old(updates)[u].(
                status := Decided(records, old(updates)[u].records, old(updates)[u].status))]
    {
      var update := updates[u];
      var allSuccess := true;
      var status := update.status;
      var i := 0;
      while i < |update.records|
        invariant 0 <= i <= |update.records|
        invariant allSuccess <==> AllComplete(records, update.records[..i])
        invariant !SomeErrored(records, update.records[..i]) && status == update.status
      {
        var record := records[update.records[i]];
        assert update.records[..i + 1] == update.records[..i] + [update.records[i]];
        if record.status != Complete {
          allSuccess := false;
        }
        if record.status == Errored {
          status := UpdateErrored;
          assert update.records[i] in update.records;
          break;
        }
        i := i + 1;
      }
      if i == |update.records| {
        assert update.records[..i] == update.records;
      }
      if allSuccess {
        status := UpdateSuccess;
      }
      updates := updates[u := update.(status := status)];
    }

    method UpdateDevicesFromUpdateTransaction(u: nat)
      requires u in updates
      modifies this`devices
      ensures Tables() == DevicesMoved(old(Tables()), u)
    {
      var update := updates[u];
      if update.status == UpdateSuccess {
        devices := map d | d in devices ::
          if d in update.devices then devices[d].(runs := update.commit) else devices[d];
      }
    }

    method SetUpdateStatusBasedOnDispatchRecord(x: nat) returns (outcome: Outcome)
      requires RecordsThere(Tables()) && x in records
      modifies this`updates, this`devices
      ensures Tables() == UpdateSettled(old(Tables()), x).0 && outcome == UpdateSettled(old(Tables()), x).1
    {
      var found := UpdatesOf(Tables(), x);
      if found == {} { return UpdateNotFound; }
      var u := PickFirst(found);
      SetUpdateStatus(u);
      UpdateDevicesFromUpdateTransaction(u);
      outcome := Done;
    }

    /** The record, and after a success its device, are saved. */
    method SaveRecord(x: nat, payload: Payload)
      requires x in records && !payload.PayloadRunning? && (payload.PayloadSuccess? ==> records[x].device in devices)
      modifies this`records, this`devices
      ensures records == old(records)[x := Ended(old(records)[x], payload)]
      ensures if old(records)[x].device in old(devices) then Tables() == SavedRecord(old(Tables()), x, payload)
              else devices == old(devices)
    {
      var record := records[x];
      if payload.PayloadSuccess? {
        records := records[x := record.(status := Complete)];
        var device := devices[record.device];
        devices := devices[record.device := device.(currentHash := device.availableHash, availableHash := DEV_NULL)];
      } else if payload.PayloadTimeout? {
        records := records[x := record.(status := Errored, reason := Timeout)];
      } else {
        records := records[x := record.(status := Errored, reason := Failure)];
      }
    }

    /** Whatever the event, the statuses of the updates go on agreeing with their records. */
    method ProcessPlaybookDispatcherRunEvent(e: Event) returns (outcome: Outcome)
      requires RecordsThere(Tables())
      modifies this`records, this`updates, this`devices
      ensures Tables() == Processed(old(Tables()), e).0 && outcome == Processed(old(Tables()), e).1
      ensures Linked(old(Tables())) && AllAgree(old(Tables())) && Deliverable(old(Tables()), e) ==>
                Linked(Tables()) && AllAgree(Tables())
    {
      ghost var db := Tables();
      if Linked(db) && AllAgree(db) && Deliverable(db, e) { ProcessedKeeps(db, e); }
      if e.payload.PayloadRunning? { return Done; }
      var found := RecordsWithId(Tables(), e.id);
      if found == {} { return RecordNotFound; }
      var x := PickFirst(found);
      if records[x].device !in devices && e.payload.PayloadSuccess? { return NilDevice; }
      SaveRecord(x, e.payload);
      if records[x].device !in devices { return DeviceNotSaved; }
      outcome := SetUpdateStatusBasedOnDispatchRecord(x);
    }
  }
}
