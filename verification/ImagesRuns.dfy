/** Every run of the operations on images, image sets and devices keeps the flags right and the sets whole. */
module ImagesRuns {
  import opened Options
  import opened Queries
  import opened Images
  import opened ImagesProofs

  datatype Operation =
    | Create(org: string, name: string, version: nat, commit: string, now: nat, valid: bool, composed: bool)
    | NewVersion(image: nat, name: string, version: nat, commit: string, now: nat, valid: bool, composed: bool)
    | Build(image: nat, status: Status, commit: string)
    | Interruption(image: nat)
    | Finish(image: nat, success: bool)
    | Event(uuid: string, org: string, booted: Option<string>)
    | UpdateDone(success: bool, row: Option<UpdateTransaction>)
    | RemoveImage(image: nat)
    | RemoveSet(imageSet: nat)
    | RemoveDevice(device: nat)

  ghost function Step(db: Db, op: Operation): Db
    requires Allowed(db, op)
  {
    match op
    case Create(org, name, version, commit, now, valid, composed) =>
      CreateImage(db, org, name, version, commit, now, valid, composed).0
    case NewVersion(i, name, version, commit, now, valid, composed) =>
      UpdateImage(db, i, name, version, commit, now, valid, composed).0
    case Build(i, status, commit) => SaveImage(db, i, status, commit)
    case Interruption(i) => Interrupt(db, i)
    case Finish(i, success) => FinishImage(db, i, success)
    case Event(uuid, org, booted) => InventoryEvent(db, uuid, org, booted).0
    case UpdateDone(success, row) => FinishUpdate(db, success, row).0
    case RemoveImage(i) => DeleteImage(db, i).0
    case RemoveSet(s) => DeleteImageSet(db, s).0
    case RemoveDevice(d) => DeleteDevice(db, d)
  }

  /** What a run relies on: the clock gives every image of a set its own creation time, and only the end of a build
      makes an image a success. */
  ghost predicate Allowed(db: Db, op: Operation) {
    match op
    case Create(org, name, _, _, now, _, _) => forall s | s in SetsNamed(db, org, name) :: NewTime(db, s, now)
    case NewVersion(i, _, _, _, now, _, _) => i in db.images ==> NewTime(db, db.images[i].setId, now)
    case Build(i, status, _) => i in db.images && !status.Success?
    case Finish(i, _) => i in db.images
    case _ => true
  }

  /** A retry, an interruption or a failed build takes a SUCCESS image out of that status; no flag follows. */
  ghost predicate Demotes(db: Db, op: Operation) {
    match op
    case Build(i, _, _) => Succeeded(db.images, i)
    case Interruption(i) => Succeeded(db.images, i)
    case Finish(i, success) => !success && Succeeded(db.images, i)
    case _ => false
  }

  /** The sets whose flags have been pending since a demotion; a success settles its own set. */
  ghost function PendingAfter(db: Db, op: Operation, pending: set<Place>): set<Place>
    requires Allowed(db, op)
  {
    if Demotes(db, op) then pending + {PlaceOf(db.images[op.image])}
    else if op.Finish? && op.success then pending - {PlaceOf(db.images[op.image])}
    else pending
  }

  predicate Succeeded(images: ImageTable, i: nat) {
    LiveImage(images, i) && images[i].status.Success?
  }

  ghost predicate NewTime(db: Db, s: nat, now: nat) {
    forall i | i in db.images && db.images[i].setId == s :: db.images[i].created != now
  }

  // ----- frames -----

  /** The same live SUCCESS images, with the same places in the same sets. */
  ghost predicate SameSuccesses(images: ImageTable, images': ImageTable) {
    forall i | i in images || i in images' :: SameSuccess(images, images', i)
  }

  ghost predicate SameSuccess(images: ImageTable, images': ImageTable, i: nat) {
    && (Succeeded(images, i) <==> Succeeded(images', i))
    && (Succeeded(images, i) ==> SamePlace(images[i], images'[i]))
  }

  predicate SamePlace(image: Image, image': Image) {
    image.org == image'.org && image.setId == image'.setId && image.created == image'.created
  }

  lemma SameLater(images: ImageTable, images': ImageTable, i: nat)
    requires SameSuccesses(images, images') && i in images && i in images' && SamePlace(images[i], images'[i])
    ensures LaterSuccess(images, i) <==> LaterSuccess(images', i)
  {
    var org, s, created := images[i].org, images[i].setId, images[i].created;
    if LaterSuccess(images, i) {
      var j :| j in images && Candidate(images, org, s, j) && images[j].created > created;
      assert SameSuccess(images, images', j);
    }
    if LaterSuccess(images', i) {
      var j :| j in images' && Candidate(images', org, s, j) && images'[j].created > created;
      assert SameSuccess(images, images', j);
    }
  }

  /** Flags stay right while the successful images stay what they are. */
  lemma FlagsFrame(db: Db, db': Db, pending: set<Place>)
    requires FlagsOk(db, pending) && db'.devices == db.devices && SameSuccesses(db.images, db'.images)
    requires forall i | i in db.images :: i in db'.images && SamePlace(db.images[i], db'.images[i])
    ensures FlagsOk(db', pending)
  {
    forall d | d in db'.devices ensures FlagGood(db'.images, db'.devices[d], pending) {
      var device := db.devices[d];
      assert FlagGood(db.images, device, pending);
      if Succeeded(db'.images, device.imageId) {
        assert SameSuccess(db.images, db'.images, device.imageId);
        SameLater(db.images, db'.images, device.imageId);
      }
    }
  }

  /** Images and sets that differ at most in status, commit and deletion. */
  ghost predicate SameRows(db: Db, db': Db) {
    && db'.devices == db.devices && db'.nextDevice == db.nextDevice && db'.nextImage == db.nextImage
    && db'.images.Keys == db.images.Keys && db.nextSet <= db'.nextSet
    && (forall i | i in db.images :: SamePlace(db.images[i], db'.images[i]) && db.images[i].name == db'.images[i].name)
    && (forall s | s in db.sets :: s in db'.sets && db'.sets[s] == db.sets[s].(live := db'.sets[s].live))
    && (forall s | s in db'.sets :: s < db'.nextSet)
  }

  lemma RowsFrame(db: Db, db': Db)
    requires RowsOk(db) && SameRows(db, db')
    ensures RowsOk(db')
  {
    forall i | i in db'.images ensures 0 < i < db'.nextImage && NamedSet(db', db'.images[i]) {
      assert NamedSet(db, db.images[i]);
    }
    forall d | d in db'.devices ensures DeviceRowOk(db', db'.devices[d]) {
      assert DeviceRowOk(db, db.devices[d]);
    }
  }

  lemma SetsFrame(db: Db, db': Db)
    requires SetsOk(db) && db'.sets == db.sets
    requires forall i | i in db'.images && db'.images[i].live :: HasOwnSet(db, db'.images[i])
    ensures SetsOk(db')
  {}

  // ----- each operation -----

  lemma AddImageKeeps(db: Db, image: Image, pending: set<Place>)
    requires FlagInv(db, pending) && image.live && image.status.Building?
    requires HasOwnSet(db, image) && NewTime(db, image.setId, image.created)
    ensures Keeps(db, AddImage(db, image), pending)
  {
    var db' := AddImage(db, image);
    assert SameSuccesses(db.images, db'.images);
    FlagsFrame(db, db', pending);
    forall i | i in db'.images ensures NamedSet(db', db'.images[i]) {
      assert i != db.nextImage ==> NamedSet(db, db.images[i]);
    }
    forall d | d in db'.devices ensures DeviceRowOk(db', db'.devices[d]) {
      assert DeviceRowOk(db, db.devices[d]);
    }
    if SetsOk(db) {
      SetsFrame(db, db');
    }
  }

  /** A set is created only when no live set of the organisation has the name. */
  lemma SetForNewImageKeeps(db: Db, org: string, name: string, now: nat, pending: set<Place>)
    requires FlagInv(db, pending) && (forall s | s in SetsNamed(db, org, name) :: NewTime(db, s, now))
    ensures var (db', s) := SetForNewImage(db, org, name);
            && Keeps(db, db', pending)
            && (s.Some? ==> && s.value in db'.sets && db'.sets[s.value] == ImageSet(org, name, true)
                            && NewTime(db', s.value, now))
  {
    var db' := SetForNewImage(db, org, name).0;
    var found := SetsNamed(db, org, name);
    if found == {} {
      RowsFrame(db, db');
      FlagsFrame(db, db', pending);
      assert forall i | i in db.images :: NamedSet(db, db.images[i]);
      if SetsOk(db) {
        NewSetKeepsSets(db, org, name);
      }
    } else {
      assert FirstOf(found) in found;
    }
  }

  lemma NewSetKeepsSets(db: Db, org: string, name: string)
    requires SetsOk(db) && RowsOk(db) && SetsNamed(db, org, name) == {}
    ensures SetsOk(SetForNewImage(db, org, name).0)
  {
    var db' := SetForNewImage(db, org, name).0;
    forall i | i in db'.images && db'.images[i].live ensures HasOwnSet(db', db'.images[i]) {
      assert HasOwnSet(db, db.images[i]);
    }
    forall s | LiveSet(db', s) && s != db.nextSet ensures db'.sets[s].org != org || db'.sets[s].name != name {
      assert s !in SetsNamed(db, org, name);
    }
  }

  /** The row goes into the set found or created for it. */
  lemma NewImageKeeps(db: Db, org: string, name: string, image: Image, pending: set<Place>)
    requires FlagInv(db, pending) && image.live && image.status.Building? && image.org == org && image.name == name
    requires forall s | s in SetsNamed(db, org, name) :: NewTime(db, s, image.created)
    requires SetForNewImage(db, org, name).1 == Some(image.setId)
    ensures Keeps(db, AddImage(SetForNewImage(db, org, name).0, image), pending)
  {
    SetForNewImageKeeps(db, org, name, image.created, pending);
    AddImageKeeps(SetForNewImage(db, org, name).0, image, pending);
  }

  lemma CreateImageKeeps(db: Db, org: string, name: string, version: nat, commit: string, now: nat,
                         valid: bool, composed: bool, pending: set<Place>)
    requires FlagInv(db, pending) && (forall s | s in SetsNamed(db, org, name) :: NewTime(db, s, now))
    ensures Keeps(db, CreateImage(db, org, name, version, commit, now, valid, composed).0, pending)
  {
    var (db', outcome) := CreateImage(db, org, name, version, commit, now, valid, composed);
    var (db1, s) := SetForNewImage(db, org, name);
    if outcome == Done {
      var image := Image(org, name, FirstVersion(version), Building, s.value, now, commit, true);
      NewImageKeeps(db, org, name, image, pending);
    } else {
      assert db' == db || db' == db1;
      SetForNewImageKeeps(db, org, name, now, pending);
    }
  }

  lemma UpdateImageKeeps(db: Db, i: nat, name: string, version: nat, commit: string, now: nat,
                         valid: bool, composed: bool, pending: set<Place>)
    requires FlagInv(db, pending) && (i in db.images ==> NewTime(db, db.images[i].setId, now))
    ensures Keeps(db, UpdateImage(db, i, name, version, commit, now, valid, composed).0, pending)
  {
    if LiveImage(db.images, i) && LiveSet(db, db.images[i].setId) {
      assert NamedSet(db, db.images[i]);
      AddImageKeeps(db, NextVersion(db.images[i], version, commit, now), pending);
    }
  }

  /** A demotion leaves the flags of its own set pending; the other ones are what they were. */
  lemma SaveImageKeepsFlags(db: Db, i: nat, status: Status, commit: string, pending: set<Place>)
    requires FlagInv(db, pending) && i in db.images && !status.Success?
    ensures FlagInv(SaveImage(db, i, status, commit),
                    if Succeeded(db.images, i) then pending + {PlaceOf(db.images[i])} else pending)
  {
    var db' := SaveImage(db, i, status, commit);
    RowsFrame(db, db');
    if Succeeded(db.images, i) {
      forall d | d in db'.devices
        ensures FlagGood(db'.images, db'.devices[d], pending + {PlaceOf(db.images[i])})
      {
        OtherRow(db, i, status, commit, d, pending);
      }
    } else {
      assert SameSuccesses(db.images, db'.images);
      FlagsFrame(db, db', pending);
    }
  }

  /** Saving an image changes no flag of a device on another set from right to wrong. */
  lemma OtherRow(db: Db, i: nat, status: Status, commit: string, d: nat, pending: set<Place>)
    requires FlagsOk(db, pending) && i in db.images && d in db.devices
    ensures FlagGood(SaveImage(db, i, status, commit).images, db.devices[d], pending + {PlaceOf(db.images[i])})
  {
    var j := db.devices[d].imageId;
    assert FlagGood(db.images, db.devices[d], pending);
    if j in db.images && PlaceOf(db.images[j]) != PlaceOf(db.images[i]) {
      OtherSetLater(db, i, status, commit, j);
    }
  }

  lemma OtherSetLater(db: Db, i: nat, status: Status, commit: string, j: nat)
    requires i in db.images && j in db.images && PlaceOf(db.images[j]) != PlaceOf(db.images[i])
    ensures var images' := SaveImage(db, i, status, commit).images;
            LaterSuccess(images', j) <==> LaterSuccess(db.images, j)
  {
    var images' := SaveImage(db, i, status, commit).images;
    var org, s := db.images[j].org, db.images[j].setId;
    assert forall k | k in db.images :: Candidate(images', org, s, k) <==> Candidate(db.images, org, s, k);
  }

  /** A save keeps the sets whole exactly when the set of the image has not been deleted, since it brings the image
      back. */
  lemma SaveImageKeepsSetsExactly(db: Db, i: nat, status: Status, commit: string)
    requires SetsOk(db) && RowsOk(db) && i in db.images
    ensures SetsOk(SaveImage(db, i, status, commit)) <==> LiveSet(db, db.images[i].setId)
  {
    var db' := SaveImage(db, i, status, commit);
    assert NamedSet(db, db.images[i]);
    assert db'.images[i].live;
    forall j | j in db'.images && j != i && db'.images[j].live ensures HasOwnSet(db, db'.images[j]) {
      assert HasOwnSet(db, db.images[j]);
    }
    if LiveSet(db, db.images[i].setId) {
      SetsFrame(db, db');
    } else {
      assert !HasOwnSet(db', db'.images[i]);
    }
  }

  predicate InSet(image: Image, org: string, s: nat) {
    image.org == org && image.setId == s
  }

  /** A successful image changes the flags of its own set only, and the bulk update makes those right, also the ones
      that were pending. */
  lemma SucceedInv(db: Db, i: nat, pending: set<Place>)
    requires FlagInv(db, pending) && i in db.images
    ensures FlagInv(FinishImage(db, i, true), pending - {PlaceOf(db.images[i])})
  {
    var db1 := SaveImage(db, i, Success, db.images[i].commit);
    var db' := FinishImage(db, i, true);
    RowsFrame(db, db1);
    forall d | d in db'.devices
      ensures FlagGood(db'.images, db'.devices[d], pending - {PlaceOf(db.images[i])})
      ensures DeviceRowOk(db', db'.devices[d])
    {
      SucceededRow(db, i, d, pending);
      assert DeviceRowOk(db1, db.devices[d]);
    }
    assert forall j | j in db1.images :: NamedSet(db1, db1.images[j]);
  }

  lemma SucceededRow(db: Db, i: nat, d: nat, pending: set<Place>)
    requires FlagInv(db, pending) && i in db.images && d in db.devices
    ensures var db' := FinishImage(db, i, true);
            && d in db'.devices && FlagGood(db'.images, db'.devices[d], pending - {PlaceOf(db.images[i])})
            && db'.devices[d] == Flagged(db.devices[d], db'.devices[d].updateAvailable)
  {
    var org, s := db.images[i].org, db.images[i].setId;
    var db1 := SaveImage(db, i, Success, db.images[i].commit);
    var device := db.devices[d];
    RowsFrame(db, db1);
    assert Candidate(db1.images, org, s, i) && i in Candidates(db1.images, org, s);
    BulkRow(db1.images, org, s, device);
    assert DeviceRowOk(db1, device) && FlagGood(db.images, device, pending);
    if InScope(db1.images, org, s, device) {
      NoStaleTie(db1, org, s, device);
    } else if device.imageId in db.images && PlaceOf(db.images[device.imageId]) != PlaceOf(db.images[i]) {
      OtherSetLater(db, i, Success, db.images[i].commit, device.imageId);
    }
  }

  /** A build that ends settles or defers the flags of its own set. */
  lemma FinishImageKeepsFlags(db: Db, i: nat, success: bool, pending: set<Place>)
    requires FlagInv(db, pending) && i in db.images
    ensures FlagInv(FinishImage(db, i, success), PendingAfter(db, Finish(i, success), pending))
  {
    if success {
      SucceedInv(db, i, pending);
    } else {
      SaveImageKeepsFlags(db, i, Errored, db.images[i].commit, pending);
    }
  }

  /** A build that ends keeps the sets whole exactly when the set of its image has not been deleted. */
  lemma FinishImageKeepsSetsExactly(db: Db, i: nat, success: bool)
    requires SetsOk(db) && RowsOk(db) && i in db.images
    ensures SetsOk(FinishImage(db, i, success)) <==> LiveSet(db, db.images[i].setId)
  {
    var db1 := SaveImage(db, i, if success then Success else Errored, db.images[i].commit);
    SaveImageKeepsSetsExactly(db, i, if success then Success else Errored, db.images[i].commit);
    var db' := FinishImage(db, i, success);
    assert db'.images == db1.images && db'.sets == db1.sets;
    if SetsOk(db') {
      SetsFrame(db', db1);
    }
    if SetsOk(db1) {
      SetsFrame(db1, db');
    }
  }

  /** One device row rewritten. */
  lemma RewrittenDeviceKeeps(db: Db, d: nat, device: Device, next: nat, pending: set<Place>)
    requires FlagInv(db, pending) && FlagOk(db.images, device) && DeviceRowOk(db, device)
    requires d < next && next >= db.nextDevice
    ensures Keeps(db, db.(devices := db.devices[d := device], nextDevice := next), pending)
  {
    var db' := db.(devices := db.devices[d := device], nextDevice := next);
    forall k | k in db'.devices
      ensures FlagGood(db'.images, db'.devices[k], pending) && DeviceRowOk(db', db'.devices[k])
    {
      if k != d {
        assert FlagGood(db.images, db.devices[k], pending) && DeviceRowOk(db, db.devices[k]);
      }
    }
    assert forall i | i in db.images :: NamedSet(db, db.images[i]);
    if SetsOk(db) {
      SetsFrame(db, db');
    }
  }

  /** The image an event or an update finds by commit. */
  lemma FoundImage(images: ImageTable, org: string, commit: string)
    requires ImagesWithCommit(images, org, commit) != {}
    ensures var i := FirstOf(ImagesWithCommit(images, org, commit));
            LiveImage(images, i) && images[i].org == org && images[i].commit == commit
  {
    var rows := ImagesWithCommit(images, org, commit);
    assert FirstOf(rows) in rows;
  }

  lemma RunImageKeeps(db: Db, d: nat, i: nat, pending: set<Place>)
    requires FlagInv(db, pending)
    requires LiveDevice(db, d) && LiveImage(db.images, i) && db.images[i].org == db.devices[d].org
    ensures var db1 := db.(devices := db.devices[d := db.devices[d].(imageId := i)]);
            var (db', outcome) := Recompute(db1, db.devices[d].org, d);
            && Keeps(db, db', pending) && outcome == Done
            && db'.devices == db.devices[d := db.devices[d].(
                 imageId := i, updateAvailable := LaterSuccess(db.images, i))]
  {
    var org := db.devices[d].org;
    var db1 := db.(devices := db.devices[d := db.devices[d].(imageId := i)]);
    RecomputeIsFresh(db1, org, d);
    var device := Fresh(db.images, org, db1.devices[d]);
    assert FlagOk(db.images, device) && DeviceRowOk(db, device);
    RewrittenDeviceKeeps(db, d, device, db.nextDevice, pending);
    assert db1.devices[d := device] == db.devices[d := device];
  }

  /** The device runs a live image of the commit, with the right flag, and is otherwise as it was. */
  ghost predicate RunsCommit(images: ImageTable, device: Device, commit: string, device': Device) {
    var i := device'.imageId;
    && LiveImage(images, i) && images[i].org == device.org && images[i].commit == commit
    && device' == device.(imageId := i, updateAvailable := LaterSuccess(images, i))
  }

  /** An event is refused exactly when the device, the booted commit or a live image of that commit is missing;
      otherwise the device runs that image with the right flag, and no other row has changed. */
  lemma EventUpdateDeviceInv(db: Db, uuid: string, booted: Option<string>, pending: set<Place>)
    requires FlagInv(db, pending)
    ensures var (db', outcome) := EventUpdateDevice(db, uuid, booted);
            var known := DevicesWithUuid(db, uuid);
            && Keeps(db, db', pending)
            && (outcome != Done ==> db' == db)
            && (outcome == Done <==> known != {} && booted.Some? &&
                                     ImagesWithCommit(db.images, db.devices[FirstOf(known)].org, booted.value) != {})
            && (outcome == Done ==>
                  var d := FirstOf(known);
                  && db' == db.(devices := db.devices[d := db'.devices[d]])
                  && RunsCommit(db.images, db.devices[d], booted.value, db'.devices[d]))
  {
    var known := DevicesWithUuid(db, uuid);
    if known != {} && booted.Some? {
      var d := FirstOf(known);
      assert d in known;
      if ImagesWithCommit(db.images, db.devices[d].org, booted.value) != {} {
        FoundImage(db.images, db.devices[d].org, booted.value);
        RunImageKeeps(db, d, FirstOf(ImagesWithCommit(db.images, db.devices[d].org, booted.value)), pending);
      }
    }
  }

  lemma InventoryEventKeeps(db: Db, uuid: string, org: string, booted: Option<string>, pending: set<Place>)
    requires FlagInv(db, pending)
    ensures Keeps(db, InventoryEvent(db, uuid, org, booted).0, pending)
  {
    if DevicesWithUuid(db, uuid) != {} {
      EventUpdateDeviceInv(db, uuid, booted, pending);
    } else {
      AddDeviceKeeps(db, uuid, org, pending);
      EventUpdateDeviceInv(AddDevice(db, uuid, org), uuid, booted, pending);
    }
  }

  ghost predicate SameOrganisations(db: Db, db': Db) {
    forall d | d in db.devices :: d in db'.devices && db'.devices[d].org == db.devices[d].org
  }

  /** Whatever the event says, every device stays in its organisation. */
  lemma EventKeepsOrganisations(db: Db, uuid: string, org: string, booted: Option<string>)
    requires RowsOk(db)
    ensures SameOrganisations(db, InventoryEvent(db, uuid, org, booted).0)
  {
    UpdateDeviceKeepsOrganisations(db, uuid, booted);
    UpdateDeviceKeepsOrganisations(AddDevice(db, uuid, org), uuid, booted);
  }

  lemma UpdateDeviceKeepsOrganisations(db: Db, uuid: string, booted: Option<string>)
    ensures SameOrganisations(db, EventUpdateDevice(db, uuid, booted).0)
  {
    var known := DevicesWithUuid(db, uuid);
    if known != {} {
      assert FirstOf(known) in known;
    }
  }

  lemma AddDeviceKeeps(db: Db, uuid: string, org: string, pending: set<Place>)
    requires FlagInv(db, pending)
    ensures Keeps(db, AddDevice(db, uuid, org), pending)
  {
    var row := Device(org, uuid, 0, false, true);
    assert FlagOk(db.images, row) && DeviceRowOk(db, row);
    RewrittenDeviceKeeps(db, db.nextDevice, row, db.nextDevice + 1, pending);
  }

  /** The devices of a successful update run an image of its commit, flagged exactly when that has a later success. */
  lemma FinishUpdateInv(db: Db, success: bool, row: Option<UpdateTransaction>, pending: set<Place>)
    requires FlagInv(db, pending)
    ensures var (db', outcome) := FinishUpdate(db, success, row);
            && Keeps(db, db', pending)
            && (outcome == Done <==>
                  success ==>
                    && row.Some? && row.value.commit.Some?
                    && ImagesWithCommit(db.images, row.value.org, row.value.commit.value) != {})
            && (outcome != Done || !success ==> db' == db)
            && (outcome == Done && success ==>
                  && db' == db.(devices := db'.devices) && db'.devices.Keys == db.devices.Keys
                  && forall d | d in db.devices ::
                       if d in row.value.devices && LiveDevice(db, d) && db.devices[d].org == row.value.org
                       then RunsCommit(db.images, db.devices[d], row.value.commit.value, db'.devices[d])
                       else db'.devices[d] == db.devices[d])
  {
    if success && row.Some? && row.value.commit.Some? {
      var rows := ImagesWithCommit(db.images, row.value.org, row.value.commit.value);
      if rows == {} { return; }
      FoundImage(db.images, row.value.org, row.value.commit.value);
      assert FirstOf(rows) in rows;
      var db' := FinishUpdate(db, success, row).0;
      forall d | d in db'.devices
        ensures FlagGood(db'.images, db'.devices[d], pending) && DeviceRowOk(db', db'.devices[d])
      {
        assert FlagGood(db.images, db.devices[d], pending) && DeviceRowOk(db, db.devices[d]);
      }
      assert forall i | i in db.images :: NamedSet(db, db.images[i]);
      if SetsOk(db) {
        SetsFrame(db, db');
      }
    }
  }

  /** The set found by name is the set of the image. */
  lemma OwnSetFound(db: Db, i: nat)
    requires SetsOk(db) && LiveImage(db.images, i)
    ensures SetsNamed(db, db.images[i].org, db.images[i].name) == {db.images[i].setId}
    ensures FirstOf(SetsNamed(db, db.images[i].org, db.images[i].name)) == db.images[i].setId
  {
    var found := SetsNamed(db, db.images[i].org, db.images[i].name);
    assert HasOwnSet(db, db.images[i]);
    assert db.images[i].setId in found;
    assert FirstOf(found) in found;
  }

  /** The count taken before the image is deleted tells whether it is the only one. */
  lemma AtMostOne(rows: set<nat>, x: nat)
    requires x in rows
    ensures |rows| <= 1 <==> rows == {x}
  {
    if |rows| <= 1 {
      assert |rows - {x}| == 0;
      assert rows == {x} + (rows - {x});
    }
  }

  ghost predicate OnlyImage(images: ImageTable, i: nat)
    requires i in images
  {
    forall j | j in images && j != i && images[j].live :: images[j].setId != images[i].setId
  }

  /** DeleteImage removes the image's own set, exactly when the image is the only live one in it. */
  lemma DeleteImageSetGoes(db: Db, i: nat)
    requires SetsOk(db) && LiveImage(db.images, i) && db.images[i].status.Errored?
    ensures DeleteImage(db, i).1 == Done
    ensures forall s :: LiveSet(DeleteImage(db, i).0, s) <==>
              LiveSet(db, s) && !(s == db.images[i].setId && OnlyImage(db.images, i))
  {
    var s := db.images[i].setId;
    OwnSetFound(db, i);
    assert HasOwnSet(db, db.images[i]);
    AtMostOne(ImagesOf(db.images, s), i);
    if OnlyImage(db.images, i) {
      assert ImagesOf(db.images, s) == {i};
    } else {
      var j :| j in db.images && j != i && db.images[j].live && db.images[j].setId == s;
      assert j in ImagesOf(db.images, s);
    }
  }

  lemma DeleteImageKeepsSets(db: Db, i: nat)
    requires SetsOk(db) && LiveImage(db.images, i) && db.images[i].status.Errored?
    ensures SetsOk(DeleteImage(db, i).0)
  {
    DeleteImageSetGoes(db, i);
    var db' := DeleteImage(db, i).0;
    forall j | j in db'.images && db'.images[j].live ensures HasOwnSet(db', db'.images[j]) {
      assert HasOwnSet(db, db.images[j]);
      assert LiveSet(db', db'.images[j].setId);
    }
  }

  /** An image that is no success goes away, and some sets with it. */
  lemma HiddenImageKeepsFlags(db: Db, i: nat, sets: map<nat, ImageSet>, pending: set<Place>)
    requires FlagInv(db, pending) && i in db.images && !Succeeded(db.images, i) && sets.Keys == db.sets.Keys
    requires forall s | s in sets :: sets[s] == db.sets[s].(live := sets[s].live)
    ensures FlagInv(db.(images := db.images[i := db.images[i].(live := false)], sets := sets), pending)
  {
    var db' := db.(images := db.images[i := db.images[i].(live := false)], sets := sets);
    RowsFrame(db, db');
    assert SameSuccesses(db.images, db'.images);
    FlagsFrame(db, db', pending);
  }

  lemma DeleteImageKeepsFlags(db: Db, i: nat, pending: set<Place>)
    requires FlagInv(db, pending)
    ensures FlagInv(DeleteImage(db, i).0, pending)
  {
    var (db', outcome) := DeleteImage(db, i);
    if outcome == Done {
      var found := SetsNamed(db, db.images[i].org, db.images[i].name);
      assert FirstOf(found) in found;
      HiddenImageKeepsFlags(db, i, db'.sets, pending);
    }
  }

  lemma DeleteImageKeeps(db: Db, i: nat, pending: set<Place>)
    requires FlagInv(db, pending)
    ensures Keeps(db, DeleteImage(db, i).0, pending)
  {
    DeleteImageKeepsFlags(db, i, pending);
    if SetsOk(db) && DeleteImage(db, i).1 == Done {
      DeleteImageKeepsSets(db, i);
    }
  }

  /** A set that no live device uses takes its images with it; no flag depends on them. */
  lemma DeleteImageSetKeeps(db: Db, s: nat, pending: set<Place>)
    requires FlagInv(db, pending)
    ensures Keeps(db, DeleteImageSet(db, s).0, pending)
  {
    if DevicesOnSet(db, s) == {} && LiveSet(db, s) {
      var db' := DeleteImageSet(db, s).0;
      RowsFrame(db, db');
      forall d | d in db'.devices ensures FlagGood(db'.images, db'.devices[d], pending) {
        UnusedSetKeepsFlag(db, s, d, pending);
      }
      if SetsOk(db) {
        DeleteImageSetKeepsSets(db, s);
      }
    }
  }

  lemma DeleteImageSetKeepsSets(db: Db, s: nat)
    requires SetsOk(db) && DevicesOnSet(db, s) == {} && LiveSet(db, s)
    ensures SetsOk(DeleteImageSet(db, s).0)
  {
    var db' := DeleteImageSet(db, s).0;
    forall i | i in db'.images && db'.images[i].live ensures HasOwnSet(db', db'.images[i]) {
      assert HasOwnSet(db, db.images[i]);
    }
  }

  lemma UnusedSetKeepsFlag(db: Db, s: nat, d: nat, pending: set<Place>)
    requires FlagsOk(db, pending) && DevicesOnSet(db, s) == {} && LiveSet(db, s) && d in db.devices
    ensures FlagGood(DeleteImageSet(db, s).0.images, db.devices[d], pending)
  {
    var images' := DeleteImageSet(db, s).0.images;
    var device := db.devices[d];
    assert FlagGood(db.images, device, pending);
    assert d !in DevicesOnSet(db, s);
    if device.live && LiveImage(images', device.imageId) {
      var org, t := db.images[device.imageId].org, db.images[device.imageId].setId;
      assert forall k | k in db.images :: Candidate(images', org, t, k) <==> Candidate(db.images, org, t, k);
    }
  }

  lemma DeleteDeviceKeeps(db: Db, d: nat, pending: set<Place>)
    requires FlagInv(db, pending)
    ensures Keeps(db, DeleteDevice(db, d), pending)
  {
    if LiveDevice(db, d) {
      var device := db.devices[d].(live := false);
      assert DeviceRowOk(db, db.devices[d]);
      assert FlagOk(db.images, device) && DeviceRowOk(db, device);
      RewrittenDeviceKeeps(db, d, device, db.nextDevice, pending);
    }
  }

  // ----- runs -----

  /** The operation writes the whole row of this image. */
  ghost predicate Saves(op: Operation, i: nat) {
    (op.Build? || op.Finish?) && op.image == i
  }

  /** Every operation keeps the flags right outside the pending sets; one keeps the sets whole exactly when it does not
      save an image whose set has been deleted. */
  lemma StepInv(db: Db, op: Operation, pending: set<Place>)
    requires FlagInv(db, pending) && Allowed(db, op)
    ensures FlagInv(Step(db, op), PendingAfter(db, op, pending))
    ensures SetsOk(db) ==>
              (SetsOk(Step(db, op)) <==> forall i | i in db.images && Saves(op, i) :: LiveSet(db, db.images[i].setId))
  {
    match op
    case Create(org, name, version, commit, now, valid, composed) =>
      CreateImageKeeps(db, org, name, version, commit, now, valid, composed, pending);
    case NewVersion(i, name, version, commit, now, valid, composed) =>
      UpdateImageKeeps(db, i, name, version, commit, now, valid, composed, pending);
    case Build(i, status, commit) =>
      SaveImageKeepsFlags(db, i, status, commit, pending);
      if SetsOk(db) { SaveImageKeepsSetsExactly(db, i, status, commit); }
    case Interruption(i) => InterruptKeeps(db, i, pending);
    case Finish(i, success) =>
      FinishImageKeepsFlags(db, i, success, pending);
      if SetsOk(db) { FinishImageKeepsSetsExactly(db, i, success); }
    case Event(uuid, org, booted) => InventoryEventKeeps(db, uuid, org, booted, pending);
    case UpdateDone(success, row) => FinishUpdateInv(db, success, row, pending);
    case RemoveImage(i) => DeleteImageKeeps(db, i, pending);
    case RemoveSet(s) => DeleteImageSetKeeps(db, s, pending);
    case RemoveDevice(d) => DeleteDeviceKeeps(db, d, pending);
  }

  lemma InterruptKeeps(db: Db, i: nat, pending: set<Place>)
    requires FlagInv(db, pending)
    ensures Keeps(db, Interrupt(db, i), PendingAfter(db, Interruption(i), pending))
  {
    if LiveImage(db.images, i) {
      SaveImageKeepsFlags(db, i, Interrupted, db.images[i].commit, pending);
      if SetsOk(db) {
        assert HasOwnSet(db, db.images[i]);
        SaveImageKeepsSetsExactly(db, i, Interrupted, db.images[i].commit);
      }
    }
  }

  ghost predicate AllowedRun(db: Db, ops: seq<Operation>)
    decreases |ops|
  {
    ops == [] || (Allowed(db, ops[0]) && AllowedRun(Step(db, ops[0]), ops[1..]))
  }

  ghost function Run(db: Db, ops: seq<Operation>): Db
    requires AllowedRun(db, ops)
    decreases |ops|
  {
    if ops == [] then db else Run(Step(db, ops[0]), ops[1..])
  }

  /** The sets that a run has left with a demotion and no success since. */
  ghost function Pending(db: Db, ops: seq<Operation>, pending: set<Place>): set<Place>
    requires AllowedRun(db, ops)
    decreases |ops|
  {
    if ops == [] then pending else Pending(Step(db, ops[0]), ops[1..], PendingAfter(db, ops[0], pending))
  }

  ghost predicate NoDemotion(db: Db, ops: seq<Operation>)
    requires AllowedRun(db, ops)
    decreases |ops|
  {
    ops == [] || (!Demotes(db, ops[0]) && NoDemotion(Step(db, ops[0]), ops[1..]))
  }

  /** No build of the run saves an image after its set was deleted. */
  ghost predicate SavesAtHome(db: Db, ops: seq<Operation>)
    requires AllowedRun(db, ops)
    decreases |ops|
  {
    ops == [] ||
    (&& (forall i | i in db.images && Saves(ops[0], i) :: LiveSet(db, db.images[i].setId))
     && SavesAtHome(Step(db, ops[0]), ops[1..]))
  }

  const EMPTY := Db(map[], map[], map[], 1, 1, 1)

  lemma {:induction false} RunInv(db: Db, ops: seq<Operation>, pending: set<Place>)
    requires FlagInv(db, pending) && AllowedRun(db, ops)
    ensures FlagInv(Run(db, ops), Pending(db, ops, pending))
    ensures SetsOk(db) && SavesAtHome(db, ops) ==> SetsOk(Run(db, ops))
    decreases |ops|
  {
    if ops == [] {
    } else {
      StepInv(db, ops[0], pending);
      RunInv(Step(db, ops[0]), ops[1..], PendingAfter(db, ops[0], pending));
    }
  }

  /** Over every run from empty tables, the flag of a live device on a live SUCCESS image says exactly whether a
      later SUCCESS image exists in the same set, unless an image of that set has been demoted with no success in the
      set since. */
  lemma FlagRightOverRuns(ops: seq<Operation>, d: nat)
    requires AllowedRun(EMPTY, ops)
    ensures var db := Run(EMPTY, ops);
            LiveDevice(db, d) && Succeeded(db.images, db.devices[d].imageId) ==>
              var image := db.images[db.devices[d].imageId];
              PlaceOf(image) in Pending(EMPTY, ops, {}) ||
              (db.devices[d].updateAvailable <==>
               exists j :: Candidate(db.images, image.org, image.setId, j) && db.images[j].created > image.created)
  {
    RunInv(EMPTY, ops, {});
    var db := Run(EMPTY, ops);
    if d in db.devices {
      assert FlagGood(db.images, db.devices[d], Pending(EMPTY, ops, {}));
    }
  }

  /** Without demotions nothing is ever pending, so that all flags are right. */
  lemma {:induction false} NothingPending(db: Db, ops: seq<Operation>)
    requires AllowedRun(db, ops) && NoDemotion(db, ops)
    ensures Pending(db, ops, {}) == {}
    decreases |ops|
  {
    if ops == [] {
    } else {
      assert PendingAfter(db, ops[0], {}) == {};
      NothingPending(Step(db, ops[0]), ops[1..]);
    }
  }

  /** Over every run from empty tables in which no build outlives its set, each live image is in a live set of its
      organisation and name, that set is the only one a lookup by name can find, and deleting the image never leaves
      another live image without its set. */
  lemma SetsWholeOverRuns(ops: seq<Operation>, i: nat)
    requires AllowedRun(EMPTY, ops) && SavesAtHome(EMPTY, ops) && LiveImage(Run(EMPTY, ops).images, i)
    ensures var db := Run(EMPTY, ops);
            && HasOwnSet(db, db.images[i])
            && SetsNamed(db, db.images[i].org, db.images[i].name) == {db.images[i].setId}
            && forall j | LiveImage(DeleteImage(db, i).0.images, j) :: LiveSet(DeleteImage(db, i).0, db.images[j].setId)
  {
    RunInv(EMPTY, ops, {});
    var db := Run(EMPTY, ops);
    OwnSetFound(db, i);
    DeleteImageKeeps(db, i, Pending(EMPTY, ops, {}));
    var db' := DeleteImage(db, i).0;
    forall j | LiveImage(db'.images, j) ensures LiveSet(db', db.images[j].setId) {
      assert HasOwnSet(db', db'.images[j]);
    }
  }

  /** An errored image that is deleted with its set while its build still runs comes back without a set. */
  lemma BuildOutlivesSet()
    ensures var image := Image("o", "n", 1, Errored, 1, 5, "c", true);
            var db := Db(map[1 := image], map[1 := ImageSet("o", "n", true)], map[], 2, 2, 1);
            var (db1, outcome) := DeleteImage(db, 1);
            && Inv(db) && outcome == Done && Inv(db1) && Allowed(db1, Finish(1, true))
            && LiveImage(FinishImage(db1, 1, true).images, 1) && !LiveSet(FinishImage(db1, 1, true), 1)
  {
    var image := Image("o", "n", 1, Errored, 1, 5, "c", true);
    var db := Db(map[1 := image], map[1 := ImageSet("o", "n", true)], map[], 2, 2, 1);
    assert HasOwnSet(db, image);
    DeleteImageSetGoes(db, 1);
    DeleteImageKeeps(db, 1, {});
  }

  // ----- demotions -----

  /** Image i is the only later success of a SUCCESS image that the live device runs. */
  ghost predicate OnlyUpdateOf(images: ImageTable, i: nat, device: Device)
    requires i in images
  {
    && device.live && device.imageId != i && Succeeded(images, device.imageId)
    && InSet(images[i], images[device.imageId].org, images[device.imageId].setId)
    && images[i].created > images[device.imageId].created
    && forall j | j in images && j != i && Candidate(images, images[i].org, images[i].setId, j) ::
         images[j].created <= images[device.imageId].created
  }

  /** A retry, or any other write that takes a SUCCESS image out of that status, breaks a flag exactly when the image
      was the only later success of an image that a live device runs: these writes update no flags. */
  lemma DemotionBreaksFlags(db: Db, i: nat, status: Status, commit: string)
    requires FlagInv(db, {}) && Succeeded(db.images, i) && !status.Success?
    ensures FlagsOk(SaveImage(db, i, status, commit), {}) <==>
            !exists d :: d in db.devices && OnlyUpdateOf(db.images, i, db.devices[d])
  {
    var db' := SaveImage(db, i, status, commit);
    forall d | d in db.devices
      ensures FlagGood(db'.images, db'.devices[d], {}) <==> !OnlyUpdateOf(db.images, i, db.devices[d])
    {
      DemotionOfRow(db, i, status, commit, d);
    }
  }

  lemma DemotionOfRow(db: Db, i: nat, status: Status, commit: string, d: nat)
    requires FlagInv(db, {}) && Succeeded(db.images, i) && !status.Success? && d in db.devices
    ensures FlagOk(SaveImage(db, i, status, commit).images, db.devices[d]) <==>
            !OnlyUpdateOf(db.images, i, db.devices[d])
  {
    var images' := SaveImage(db, i, status, commit).images;
    var device := db.devices[d];
    assert FlagGood(db.images, device, {});
    if device.live && Succeeded(db.images, device.imageId) && device.imageId != i {
      var image := db.images[device.imageId];
      forall j | j in db.images
        ensures Candidate(images', image.org, image.setId, j) <==>
                j != i && Candidate(db.images, image.org, image.setId, j) {}
      if LaterSuccess(images', device.imageId) {
        var j :| j in images' && Candidate(images', image.org, image.setId, j) && images'[j].created > image.created;
        assert Candidate(db.images, image.org, image.setId, j);
      } else if LaterSuccess(db.images, device.imageId) {
        var j :| && j in db.images && Candidate(db.images, image.org, image.setId, j)
                 && db.images[j].created > image.created;
        assert j == i;
        forall k | k in db.images && k != i && Candidate(db.images, image.org, image.setId, k)
          ensures db.images[k].created <= image.created
        {
          assert Candidate(images', image.org, image.setId, k);
        }
      }
    }
  }

  /** A retry that ends in a success leaves its set settled, whatever was pending. */
  lemma RetriedSuccessHeals(db: Db, i: nat, status: Status, commit: string, pending: set<Place>)
    requires FlagInv(db, pending) && i in db.images && !status.Success?
    ensures FlagInv(FinishImage(SaveImage(db, i, status, commit), i, true), pending - {PlaceOf(db.images[i])})
  {
    var db1 := SaveImage(db, i, status, commit);
    SaveImageKeepsFlags(db, i, status, commit, pending);
    var pending' := if Succeeded(db.images, i) then pending + {PlaceOf(db.images[i])} else pending;
    SucceedInv(db1, i, pending');
    assert pending' - {PlaceOf(db.images[i])} == pending - {PlaceOf(db.images[i])};
  }

  /** A device on the first of two SUCCESS images is flagged; the retry of the second one leaves the flag on. */
  lemma RetryLeavesFlag()
    ensures var image := Image("o", "n", 1, Success, 1, 5, "c", true);
            var db := Db(map[1 := image, 2 := image.(version := 2, created := 6)], map[1 := ImageSet("o", "n", true)],
                         map[1 := Device("o", "u", 1, true, true)], 3, 2, 2);
            && Inv(db) && Succeeded(db.images, 2)
            && SaveImage(db, 2, Building, "c").devices[1].updateAvailable
            && !LaterSuccess(SaveImage(db, 2, Building, "c").images, 1)
            && !FlagsOk(SaveImage(db, 2, Building, "c"), {})
  {
    var image := Image("o", "n", 1, Success, 1, 5, "c", true);
    var db := Db(map[1 := image, 2 := image.(version := 2, created := 6)], map[1 := ImageSet("o", "n", true)],
                 map[1 := Device("o", "u", 1, true, true)], 3, 2, 2);
    assert HasOwnSet(db, db.images[1]) && HasOwnSet(db, db.images[2]);
    assert Candidate(db.images, "o", 1, 2);
    var db' := SaveImage(db, 2, Building, "c");
    assert !FlagGood(db'.images, db'.devices[1], {});
  }
}
