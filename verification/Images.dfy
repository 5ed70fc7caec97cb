/** Images, image sets and the cached update_available flag of devices: the tables and what each operation does. */
module Images {
  import opened Options
  import opened Queries

  datatype Status = Created | Building | Success | Errored | Interrupted | Pending

  /** Rows of images, image_sets and devices; a soft-deleted row is not live. The image id 0 of a device stands for
      none. */
  datatype Image = Image(org: string, name: string, version: nat, status: Status, setId: nat, created: nat,
                         commit: string, live: bool)
  datatype ImageSet = ImageSet(org: string, name: string, live: bool)
  datatype Device = Device(org: string, uuid: string, imageId: nat, updateAvailable: bool, live: bool)

  /** A row of update_transactions with its devices; the commit row may be missing. */
  datatype UpdateTransaction = UpdateTransaction(org: string, commit: Option<string>, devices: set<nat>, live: bool)

  type ImageTable = map<nat, Image>
  type UpdateTable = map<nat, UpdateTransaction>

  datatype Db = Db(images: ImageTable, sets: map<nat, ImageSet>, devices: map<nat, Device>,
                   nextImage: nat, nextSet: nat, nextDevice: nat)

  datatype Error =
    | OrgIDNotSet
    | ImageNameUndefined
    | ImageNameAlreadyExists
    | ImageSetAlreadyExists
    | ImageSetNotFound
    | ImageOnlyLatestCanModify
    | ImageNameChangeIsProhibited
    | ImageNotInErrorState
    | ImageSetInUse
    | ImageNotFound
    | DeviceNotFound
    | DeviceHasImageUndefined
    | UpdateNotFound
    | UndefinedCommit
    | BuilderFailure      // validation or compose refused by an external service

  datatype Outcome = Done | Failed(error: Error)

  // ----- queries -----

  predicate LiveImage(images: ImageTable, i: nat) {
    i in images && images[i].live
  }

  predicate LiveSet(db: Db, s: nat) {
    s in db.sets && db.sets[s].live
  }

  predicate LiveDevice(db: Db, d: nat) {
    d in db.devices && db.devices[d].live
  }

  /** A live SUCCESS image of the organisation and set. */
  predicate Candidate(images: ImageTable, org: string, s: nat, i: nat) {
    LiveImage(images, i) && images[i].org == org && images[i].setId == s && images[i].status.Success?
  }

  /** Some SUCCESS image of the same organisation and set is later than image i. */
  predicate LaterSuccess(images: ImageTable, i: nat)
    requires i in images
  {
    exists j | j in images ::
      Candidate(images, images[i].org, images[i].setId, j) && images[j].created > images[i].created
  }

  function ImagesNamed(images: ImageTable, org: string, name: string): set<nat> {
    set i | i in images && LiveImage(images, i) && images[i].org == org && images[i].name == name
  }

  function SetsNamed(db: Db, org: string, name: string): set<nat> {
    set s | s in db.sets && LiveSet(db, s) && db.sets[s].org == org && db.sets[s].name == name
  }

  function ImagesOf(images: ImageTable, s: nat): set<nat> {
    set i | i in images && LiveImage(images, i) && images[i].setId == s
  }

  function ImagesWithCommit(images: ImageTable, org: string, commit: string): set<nat> {
    set i | i in images && LiveImage(images, i) && images[i].org == org && images[i].commit == commit
  }

  function DevicesWithUuid(db: Db, uuid: string): set<nat> {
    set d | d in db.devices && LiveDevice(db, d) && db.devices[d].uuid == uuid
  }

  /** Live devices whose image, deleted or not, belongs to the set. */
  function DevicesOnSet(db: Db, s: nat): set<nat> {
    set d | d in db.devices && LiveDevice(db, d) && db.devices[d].imageId in db.images &&
            db.images[db.devices[d].imageId].setId == s
  }

  function FindUpdate(updates: UpdateTable, org: string, u: nat): Option<UpdateTransaction> {
    if u in updates && updates[u].live && updates[u].org == org then Some(updates[u]) else None
  }

  function Candidates(images: ImageTable, org: string, s: nat): set<nat> {
    set i | i in images && Candidate(images, org, s, i)
  }

  /** The row of `ORDER BY created_at DESC` followed by the primary key. */
  predicate Latest(images: ImageTable, rows: set<nat>, x: nat) {
    && x in rows && x in images
    && forall y | y in rows && y in images && y != x ::
         images[y].created < images[x].created || (images[y].created == images[x].created && x < y)
  }

  ghost function LatestOf(images: ImageTable, rows: set<nat>): nat
    requires rows != {} && rows <= images.Keys
    ensures Latest(images, rows, LatestOf(images, rows))
  {
    LatestExists(images, rows);
    var x :| Latest(images, rows, x);
    x
  }

  lemma {:induction false} LatestExists(images: ImageTable, rows: set<nat>)
    requires rows != {} && rows <= images.Keys
    ensures exists x :: Latest(images, rows, x)
  {
    var x :| x in rows;
    if rows == {x} {
      assert Latest(images, rows, x);
    } else {
      LatestExists(images, rows - {x});
      var y :| Latest(images, rows - {x}, y);
      assert Latest(images, rows, x) || Latest(images, rows, y);
    }
  }

  /** Image j comes before image i in `ORDER BY version DESC` followed by the primary key. */
  predicate Ahead(images: ImageTable, j: nat, i: nat)
    requires i in images
  {
    && LiveImage(images, j) && j != i
    && images[j].org == images[i].org && images[j].setId == images[i].setId
    && (images[j].version > images[i].version || (images[j].version == images[i].version && j < i))
  }

  /** CheckIfIsLatestVersion: the live image that comes first in its organisation and set. */
  predicate IsLatestVersion(images: ImageTable, i: nat) {
    LiveImage(images, i) && images[i].org != "" && forall j | j in images :: !Ahead(images, j, i)
  }

  // ----- the flag -----

  function Flagged(device: Device, flag: bool): Device {
    device.(updateAvailable := flag)
  }

  /** SetDeviceUpdateAvailability: the flag of one device from scratch. */
  function Recompute(db: Db, org: string, d: nat): (Db, Outcome) {
    if !LiveDevice(db, d) || db.devices[d].org != org then (db, Failed(DeviceNotFound))
    else if db.devices[d].imageId == 0 then (db, Failed(DeviceHasImageUndefined))
    else if !LiveImage(db.images, db.devices[d].imageId) || db.images[db.devices[d].imageId].org != org then
      (db, Failed(ImageNotFound))
    else
      (db.(devices := db.devices[d := Flagged(db.devices[d], LaterSuccess(db.images, db.devices[d].imageId))]), Done)
  }

  /** What SetDeviceUpdateAvailability leaves of a device row. */
  function Fresh(images: ImageTable, org: string, device: Device): Device {
    if device.live && device.org == org && device.imageId != 0 && LiveImage(images, device.imageId)
       && images[device.imageId].org == org
    then Flagged(device, LaterSuccess(images, device.imageId)) else device
  }

  /** The first bulk statement: false for the flagged devices on the last image. */
  function Lowered(org: string, last: nat, device: Device): Device {
    if device.live && device.org == org && device.updateAvailable && device.imageId == last
    then Flagged(device, false) else device
  }

  /** The second bulk statement: true for the unflagged devices on earlier SUCCESS images. */
  function Raised(images: ImageTable, org: string, s: nat, last: nat, device: Device): Device
    requires last in images
  {
    if device.live && device.org == org && !device.updateAvailable && Candidate(images, org, s, device.imageId)
       && images[device.imageId].created < images[last].created
    then Flagged(device, true) else device
  }

  /** SetDevicesUpdateAvailabilityFromImageSet: the two statements on every device row. */
  ghost function Bulk(db: Db, org: string, s: nat): (Db, Outcome) {
    var rows := Candidates(db.images, org, s);
    if rows == {} then (db, Failed(ImageNotFound))
    else
      var last := LatestOf(db.images, rows);
      (db.(devices := map d | d in db.devices :: Raised(db.images, org, s, last, Lowered(org, last, db.devices[d]))),
       Done)
  }

  // ----- operations -----

  /** The image set a new image goes to, created when it does not exist; it must hold no live image. */
  ghost function SetForNewImage(db: Db, org: string, name: string): (Db, Option<nat>) {
    var found := SetsNamed(db, org, name);
    if found == {} then
      (db.(sets := db.sets[db.nextSet := ImageSet(org, name, true)], nextSet := db.nextSet + 1), Some(db.nextSet))
    else if ImagesOf(db.images, FirstOf(found)) != {} then (db, None)
    else (db, Some(FirstOf(found)))
  }

  function AddImage(db: Db, image: Image): Db {
    db.(images := db.images[db.nextImage := image], nextImage := db.nextImage + 1)
  }

  /** A compose that fails leaves a new, empty image set behind. */
  ghost function CreateImage(db: Db, org: string, name: string, version: nat, commit: string, now: nat,
                             valid: bool, composed: bool): (Db, Outcome)
  {
    if org == "" then (db, Failed(OrgIDNotSet))
    else if name == "" then (db, Failed(ImageNameUndefined))
    else if ImagesNamed(db.images, org, name) != {} then (db, Failed(ImageNameAlreadyExists))
    else if !valid then (db, Failed(BuilderFailure))
    else
      var (db1, s) := SetForNewImage(db, org, name);
      if s.None? then (db1, Failed(ImageSetAlreadyExists))
      else if !composed then (db1, Failed(BuilderFailure))
      else (AddImage(db1, Image(org, name, FirstVersion(version), Building, s.value, now, commit, true)), Done)
  }

  function FirstVersion(version: nat): nat {
    if version == 0 then 1 else version
  }

  /** A new version of a loaded image: same organisation, set and name; the version number is that of the request. */
  function UpdateImage(db: Db, i: nat, name: string, version: nat, commit: string, now: nat,
                       valid: bool, composed: bool): (Db, Outcome)
  {
    if i !in db.images then (db, Failed(ImageNotFound))
    else
      var previous := db.images[i];
      if !IsLatestVersion(db.images, i) then (db, Failed(ImageOnlyLatestCanModify))
      else if !valid then (db, Failed(BuilderFailure))
      else if name != "" && name != previous.name then (db, Failed(ImageNameChangeIsProhibited))
      else if !LiveSet(db, previous.setId) then (db, Failed(ImageSetNotFound))
      else if !composed then (db, Failed(BuilderFailure))
      else (AddImage(db, NextVersion(previous, version, commit, now)), Done)
  }

  function NextVersion(previous: Image, version: nat, commit: string, now: nat): Image {
    previous.(version := version, status := Building, created := now, commit := commit)
  }

  /** A build writes a loaded image back with another status or commit. The whole row is saved, so an image that was
      deleted in the meantime is live again. */
  function SaveImage(db: Db, i: nat, status: Status, commit: string): Db
    requires i in db.images
  {
    db.(images := db.images[i := db.images[i].(status := status, commit := commit, live := true)])
  }

  /** The statement behind an interrupted build sees live rows only. */
  function Interrupt(db: Db, i: nat): Db {
    if LiveImage(db.images, i) then SaveImage(db, i, Interrupted, db.images[i].commit) else db
  }

  /** SetFinalImageStatus: the verdict is saved, and a success updates the flags of the set. */
  ghost function FinishImage(db: Db, i: nat, success: bool): Db
    requires i in db.images
  {
    var db1 := SaveImage(db, i, if success then Success else Errored, db.images[i].commit);
    if success then Bulk(db1, db.images[i].org, db.images[i].setId).0 else db1
  }

  /** The device found by its id runs the image of the booted commit, and its flag is recomputed. */
  ghost function EventUpdateDevice(db: Db, uuid: string, booted: Option<string>): (Db, Outcome) {
    var known := DevicesWithUuid(db, uuid);
    if known == {} then (db, Failed(DeviceNotFound))
    else if booted.None? then (db, Failed(ImageNotFound))
    else
      var d := FirstOf(known);
      var rows := ImagesWithCommit(db.images, db.devices[d].org, booted.value);
      if rows == {} then (db, Failed(ImageNotFound))
      else Recompute(db.(devices := db.devices[d := db.devices[d].(imageId := FirstOf(rows))]), db.devices[d].org, d)
  }

  function AddDevice(db: Db, uuid: string, org: string): Db {
    db.(devices := db.devices[db.nextDevice := Device(org, uuid, 0, false, true)], nextDevice := db.nextDevice + 1)
  }

  /** An inventory event: an unknown device is created first. */
  ghost function InventoryEvent(db: Db, uuid: string, org: string, booted: Option<string>): (Db, Outcome) {
    if DevicesWithUuid(db, uuid) != {} then EventUpdateDevice(db, uuid, booted)
    else if org == "" then (db, Failed(OrgIDNotSet))
    else EventUpdateDevice(AddDevice(db, uuid, org), uuid, booted)
  }

  /** A finished update: when it succeeded, the devices of its reloaded row run the image of its commit, with the flag
      computed once for all of them. */
  ghost function FinishUpdate(db: Db, success: bool, row: Option<UpdateTransaction>): (Db, Outcome) {
    if !success then (db, Done)
    else if row.None? then (db, Failed(UpdateNotFound))
    else if row.value.commit.None? then (db, Failed(UndefinedCommit))
    else
      var rows := ImagesWithCommit(db.images, row.value.org, row.value.commit.value);
      if rows == {} then (db, Failed(ImageNotFound))
      else
        var i := FirstOf(rows);
        (db.(devices := map d | d in db.devices :: Moved(db.images, i, row.value.devices, d, db.devices[d])), Done)
  }

  /** What a finished update leaves of a device row. */
  function Moved(images: ImageTable, i: nat, ids: set<nat>, d: nat, device: Device): Device
    requires i in images
  {
    if d in ids && device.live && device.org == images[i].org
    then device.(imageId := i, updateAvailable := LaterSuccess(images, i)) else device
  }

  /** Only errored images are deleted; the image set is looked up by name and goes with its last image. */
  ghost function DeleteImage(db: Db, i: nat): (Db, Outcome) {
    if !LiveImage(db.images, i) then (db, Failed(ImageNotFound))
    else if !db.images[i].status.Errored? then (db, Failed(ImageNotInErrorState))
    else
      var found := SetsNamed(db, db.images[i].org, db.images[i].name);
      if found == {} then (db, Failed(ImageSetNotFound))
      else
        var s := FirstOf(found);
        var db1 := db.(images := db.images[i := db.images[i].(live := false)]);
        (if |ImagesOf(db.images, s)| <= 1 then db1.(sets := db1.sets[s := db1.sets[s].(live := false)]) else db1, Done)
  }

  function DeleteImageSet(db: Db, s: nat): (Db, Outcome) {
    if DevicesOnSet(db, s) != {} then (db, Failed(ImageSetInUse))
    else if !LiveSet(db, s) then (db, Failed(ImageSetNotFound))
    else
      (db.(images := map i | i in db.images ::
                       if db.images[i].setId == s then db.images[i].(live := false) else db.images[i],
           sets := db.sets[s := db.sets[s].(live := false)]), Done)
  }

  function DeleteDevice(db: Db, d: nat): Db {
    if LiveDevice(db, d) then db.(devices := db.devices[d := db.devices[d].(live := false)]) else db
  }
}
