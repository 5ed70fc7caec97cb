/** When an operation on images, image sets and devices is accepted, and exactly which rows it changes. */
module ImagesEffects {
  import opened Options
  import opened Queries
  import opened Images
  import opened ImagesProofs
  import opened ImagesRuns

  // ----- creation -----

  ghost predicate NameInUse(db: Db, org: string, name: string) {
    exists i :: i in db.images && db.images[i].live && db.images[i].org == org && db.images[i].name == name
  }

  /** A live set of the organisation with the name. */
  predicate IsSetNamed(db: Db, org: string, name: string, s: nat) {
    s in db.sets && db.sets[s].live && db.sets[s].org == org && db.sets[s].name == name
  }

  ghost predicate HasSetNamed(db: Db, org: string, name: string) {
    exists s :: IsSetNamed(db, org, name, s)
  }

  ghost predicate HoldsLiveImage(db: Db, s: nat) {
    exists i :: i in db.images && db.images[i].live && db.images[i].setId == s
  }

  lemma FirstSetNamed(db: Db, org: string, name: string)
    ensures SetsNamed(db, org, name) == {} <==> !HasSetNamed(db, org, name)
    ensures HasSetNamed(db, org, name) ==>
              var s := FirstOf(SetsNamed(db, org, name));
              IsSetNamed(db, org, name, s) && forall t | IsSetNamed(db, org, name, t) :: s <= t
  {
    var found := SetsNamed(db, org, name);
    if s: nat :| IsSetNamed(db, org, name, s) {
      assert s in found;
      assert forall t: nat | IsSetNamed(db, org, name, t) :: t in found;
      assert First(found, FirstOf(found));
    } else if found != {} {
      var s :| s in found;
      assert IsSetNamed(db, org, name, s);
    }
  }

  /** The set for a new image is the first live one of the name, refused exactly when it holds a live image, or a new
      one when there is none. */
  lemma SetForNewImageExactly(db: Db, org: string, name: string)
    ensures var (db', found) := SetForNewImage(db, org, name);
            && (HasSetNamed(db, org, name) ==> db' == db)
            && (!HasSetNamed(db, org, name) ==>
                  && found == Some(db.nextSet) && db'.nextSet == db.nextSet + 1
                  && db' == db.(sets := db.sets[db.nextSet := ImageSet(org, name, true)], nextSet := db'.nextSet))
            && (found.Some? ==> IsSetNamed(db', org, name, found.value))
            && (found.None? <==> exists s ::
                  && IsSetNamed(db, org, name, s) && (forall t | IsSetNamed(db, org, name, t) :: s <= t)
                  && HoldsLiveImage(db, s))
  {
    FirstSetNamed(db, org, name);
    if HasSetNamed(db, org, name) {
      var s := FirstOf(SetsNamed(db, org, name));
      assert HoldsLiveImage(db, s) <==> ImagesOf(db.images, s) != {} by {
        if i :| i in db.images && db.images[i].live && db.images[i].setId == s {
          assert i in ImagesOf(db.images, s);
        }
      }
    }
  }

  /** A set that holds a live image has its name, so a name that is not in use has no such set. */
  lemma UnusedNameHasRoom(db: Db, org: string, name: string)
    requires RowsOk(db) && !NameInUse(db, org, name)
    ensures SetForNewImage(db, org, name).1.Some?
  {
    SetForNewImageExactly(db, org, name);
    forall i | i in db.images && db.images[i].live ensures !IsSetNamed(db, org, name, db.images[i].setId) {
      assert NamedSet(db, db.images[i]);
    }
  }

  lemma NameInUseExactly(db: Db, org: string, name: string)
    ensures ImagesNamed(db.images, org, name) != {} <==> NameInUse(db, org, name)
  {
    if i :| i in db.images && db.images[i].live && db.images[i].org == org && db.images[i].name == name {
      assert i in ImagesNamed(db.images, org, name);
    }
  }

  /** A creation is accepted exactly when organisation and name are set, the name is not in use, and neither validation
      nor compose refuses it; a refusal names the first of these that fails. */
  lemma CreateImageAccepted(db: Db, org: string, name: string, version: nat, commit: string, now: nat, valid: bool,
                            composed: bool)
    requires RowsOk(db)
    ensures var outcome := CreateImage(db, org, name, version, commit, now, valid, composed).1;
            var asked := org != "" && name != "";
            && (outcome == Done <==> asked && !NameInUse(db, org, name) && valid && composed)
            && (outcome == Failed(OrgIDNotSet) <==> org == "")
            && (outcome == Failed(ImageNameUndefined) <==> org != "" && name == "")
            && (outcome == Failed(ImageNameAlreadyExists) <==> asked && NameInUse(db, org, name))
            && (outcome == Failed(BuilderFailure) <==>
                  asked && !NameInUse(db, org, name) && !(valid && composed))
  {
    NameInUseExactly(db, org, name);
    if !NameInUse(db, org, name) {
      UnusedNameHasRoom(db, org, name);
    }
  }

  /** The row as asked for, in a live set of its name; a set is created exactly when there is none, also when the
      compose then fails; and nothing else changes. */
  lemma CreateImageEffect(db: Db, org: string, name: string, version: nat, commit: string, now: nat, valid: bool,
                          composed: bool)
    requires RowsOk(db)
    ensures var (db', outcome) := CreateImage(db, org, name, version, commit, now, valid, composed);
            var created := outcome == Done || (outcome == Failed(BuilderFailure) && valid);
            && db'.devices == db.devices && db'.nextDevice == db.nextDevice
            && db'.sets == (if created && !HasSetNamed(db, org, name)
                            then db.sets[db.nextSet := ImageSet(org, name, true)] else db.sets)
            && (outcome != Done ==> db'.images == db.images && db'.nextImage == db.nextImage)
            && (outcome == Done ==>
                  && db.nextImage !in db.images && db'.nextImage == db.nextImage + 1 && db.nextImage in db'.images
                  && db'.images == db.images[db.nextImage := db'.images[db.nextImage]]
                  && var image := db'.images[db.nextImage];
                     && image.org == org && image.name == name && image.status == Building && image.live
                     && image.created == now && image.commit == commit
                     && image.version == (if version == 0 then 1 else version)
                     && IsSetNamed(db', org, name, image.setId))
  {
    NameInUseExactly(db, org, name);
    SetForNewImageExactly(db, org, name);
    if !NameInUse(db, org, name) {
      UnusedNameHasRoom(db, org, name);
    }
  }

  /** The image is live and first by descending version, then ascending id, among the live ones of its organisation and
      set. */
  ghost predicate Newest(db: Db, i: nat) {
    && i in db.images && db.images[i].live && db.images[i].org != ""
    && forall j | j in db.images && j != i && db.images[j].live && db.images[j].org == db.images[i].org &&
                  db.images[j].setId == db.images[i].setId ::
         db.images[j].version < db.images[i].version || (db.images[j].version == db.images[i].version && i < j)
  }

  /** A new version is accepted exactly for the newest image, under its own name, while its set is there; the row is the
      previous one with the new version, commit and time. */
  lemma UpdateImageExactly(db: Db, i: nat, name: string, version: nat, commit: string, now: nat, valid: bool,
                           composed: bool)
    requires RowsOk(db)
    ensures var (db', outcome) := UpdateImage(db, i, name, version, commit, now, valid, composed);
            && (outcome == Failed(ImageNotFound) <==> i !in db.images)
            && (outcome == Failed(ImageOnlyLatestCanModify) <==> i in db.images && !Newest(db, i))
            && (outcome == Failed(ImageNameChangeIsProhibited) <==>
                  Newest(db, i) && valid && name != "" && name != db.images[i].name)
            && (outcome == Failed(ImageSetNotFound) <==>
                  && Newest(db, i) && valid && name in {"", db.images[i].name}
                  && !(db.images[i].setId in db.sets && db.sets[db.images[i].setId].live))
            && (outcome == Done <==>
                  && Newest(db, i) && valid && composed && name in {"", db.images[i].name}
                  && db.images[i].setId in db.sets && db.sets[db.images[i].setId].live)
            && (outcome != Done ==> db' == db)
            && (outcome == Done ==>
                  && db.nextImage !in db.images
                  && db' == db.(images := db.images[db.nextImage := db.images[i].(
                                  version := version, status := Building, created := now, commit := commit)],
                                nextImage := db.nextImage + 1))
  {
    if i in db.images {
      forall j | j in db.images && j != i
        ensures Ahead(db.images, j, i) <==>
                && db.images[j].live && db.images[j].org == db.images[i].org
                && db.images[j].setId == db.images[i].setId
                && !(db.images[j].version < db.images[i].version ||
                     (db.images[j].version == db.images[i].version && i < j)) {}
    }
  }

  // ----- builds -----

  /** What a build writes: status and commit of that image, which is live afterwards; an interruption writes the status
      of a live image only. */
  lemma BuildEffect(db: Db, i: nat, status: Status, commit: string)
    requires i in db.images
    ensures SaveImage(db, i, status, commit) ==
            db.(images := db.images[i := Image(db.images[i].org, db.images[i].name, db.images[i].version, status,
                                               db.images[i].setId, db.images[i].created, commit, true)])
    ensures var db' := Interrupt(db, i);
            && db' == db.(images := db'.images) && db'.images.Keys == db.images.Keys
            && (forall j | j in db.images && !(j == i && db.images[i].live) :: db'.images[j] == db.images[j])
            && (db.images[i].live ==> db'.images[i] == db.images[i].(status := Interrupted))
  {
  }

  // ----- deletion -----

  /** Deleting an image takes exactly its row away, and a refusal changes nothing. */
  lemma DeleteImageExactly(db: Db, i: nat)
    ensures var (db', outcome) := DeleteImage(db, i);
            && (outcome != Done ==> db' == db)
            && (outcome == Failed(ImageNotFound) <==> !(i in db.images && db.images[i].live))
            && (outcome == Failed(ImageNotInErrorState) <==>
                  i in db.images && db.images[i].live && !db.images[i].status.Errored?)
            && (outcome == Failed(ImageSetNotFound) <==>
                  && i in db.images && db.images[i].live && db.images[i].status.Errored?
                  && !HasSetNamed(db, db.images[i].org, db.images[i].name))
            && (outcome == Done ==>
                  && i in db.images && db'.images.Keys == db.images.Keys
                  && (forall j :: LiveImage(db'.images, j) <==> LiveImage(db.images, j) && j != i)
                  && (forall j | j in db.images :: db'.images[j] == db.images[j].(live := db'.images[j].live))
                  && db' == db.(images := db'.images, sets := db'.sets))
  {
    if LiveImage(db.images, i) {
      FirstSetNamed(db, db.images[i].org, db.images[i].name);
    }
  }

  /** Deleting a set takes exactly the set and its images away. */
  lemma DeleteImageSetExactly(db: Db, s: nat)
    ensures var (db', outcome) := DeleteImageSet(db, s);
            var used := exists d :: d in db.devices && db.devices[d].live && db.devices[d].imageId in db.images &&
                                    db.images[db.devices[d].imageId].setId == s;
            && (outcome != Done ==> db' == db)
            && (outcome == Failed(ImageSetInUse) <==> used)
            && (outcome == Failed(ImageSetNotFound) <==> !used && !(s in db.sets && db.sets[s].live))
            && (outcome == Done ==>
                  && db' == db.(images := db'.images, sets := db'.sets)
                  && s in db.sets && db'.sets == db.sets[s := db.sets[s].(live := false)]
                  && db'.images.Keys == db.images.Keys
                  && forall j | j in db.images ::
                       db'.images[j] == if db.images[j].setId == s then db.images[j].(live := false) else db.images[j])
  {
    if d :| && d in db.devices && db.devices[d].live && db.devices[d].imageId in db.images
            && db.images[db.devices[d].imageId].setId == s
    {
      assert d in DevicesOnSet(db, s);
    }
  }

  /** Deleting a device takes exactly that row away. */
  lemma DeleteDeviceExactly(db: Db, d: nat)
    ensures var db' := DeleteDevice(db, d);
            && db' == db.(devices := db'.devices) && db'.devices.Keys == db.devices.Keys
            && forall k | k in db.devices ::
                 db'.devices[k] == if k == d then db.devices[k].(live := false) else db.devices[k]
  {
  }

  // ----- devices -----

  /** The device is the first live one with the uuid. */
  predicate IsDevice(db: Db, uuid: string, d: nat) {
    && d in db.devices && db.devices[d].live && db.devices[d].uuid == uuid
    && forall k | k in db.devices && db.devices[k].live && db.devices[k].uuid == uuid :: d <= k
  }

  ghost predicate KnownDevice(db: Db, uuid: string) {
    exists d :: d in db.devices && db.devices[d].live && db.devices[d].uuid == uuid
  }

  lemma FirstDevice(db: Db, uuid: string)
    ensures DevicesWithUuid(db, uuid) != {} <==> KnownDevice(db, uuid)
    ensures KnownDevice(db, uuid) ==> IsDevice(db, uuid, FirstOf(DevicesWithUuid(db, uuid)))
  {
    var known := DevicesWithUuid(db, uuid);
    if d :| d in db.devices && db.devices[d].live && db.devices[d].uuid == uuid {
      assert d in known;
      assert First(known, FirstOf(known));
      forall k | k in db.devices && db.devices[k].live && db.devices[k].uuid == uuid ensures FirstOf(known) <= k {
        assert k in known;
      }
    }
  }

  /** The image is the first live one of the organisation with the commit. */
  predicate IsImageOf(db: Db, org: string, commit: string, i: nat) {
    && i in db.images && db.images[i].live && db.images[i].org == org && db.images[i].commit == commit
    && forall k | k in db.images && db.images[k].live && db.images[k].org == org && db.images[k].commit == commit ::
         i <= k
  }

  ghost predicate HasImageOf(db: Db, org: string, commit: string) {
    exists i :: i in db.images && db.images[i].live && db.images[i].org == org && db.images[i].commit == commit
  }

  lemma FirstImageOf(db: Db, org: string, commit: string)
    ensures ImagesWithCommit(db.images, org, commit) != {} <==> HasImageOf(db, org, commit)
    ensures HasImageOf(db, org, commit) ==>
              IsImageOf(db, org, commit, FirstOf(ImagesWithCommit(db.images, org, commit)))
  {
    var rows := ImagesWithCommit(db.images, org, commit);
    if i :| i in db.images && db.images[i].live && db.images[i].org == org && db.images[i].commit == commit {
      assert i in rows;
      assert First(rows, FirstOf(rows));
      forall k | k in db.images && db.images[k].live && db.images[k].org == org && db.images[k].commit == commit
        ensures FirstOf(rows) <= k
      {
        assert k in rows;
      }
    }
  }

  /** A known device runs the first image of the booted commit with the right flag; the event is refused, and changes
      nothing, exactly when the device, the commit or the image is missing. */
  lemma KnownDeviceExactly(db: Db, uuid: string, booted: Option<string>)
    requires RowsOk(db)
    ensures var (db', outcome) := EventUpdateDevice(db, uuid, booted);
            && (outcome == Failed(DeviceNotFound) <==> !KnownDevice(db, uuid))
            && (outcome != Done ==> db' == db && outcome in {Failed(DeviceNotFound), Failed(ImageNotFound)})
            && (outcome == Done <==>
                  && KnownDevice(db, uuid) && booted.Some?
                  && exists d :: IsDevice(db, uuid, d) && HasImageOf(db, db.devices[d].org, booted.value))
            && (outcome == Done ==>
                  exists d, i :: && IsDevice(db, uuid, d) && IsImageOf(db, db.devices[d].org, booted.value, i)
                                 && db' == db.(devices := db.devices[d := db.devices[d].(
                                             imageId := i, updateAvailable := LaterSuccess(db.images, i))]))
  {
    FirstDevice(db, uuid);
    var known := DevicesWithUuid(db, uuid);
    if known != {} && booted.Some? {
      var d := FirstOf(known);
      var org := db.devices[d].org;
      FirstImageOf(db, org, booted.value);
      assert forall e | IsDevice(db, uuid, e) :: e == d;
      if HasImageOf(db, org, booted.value) {
        var i := FirstOf(ImagesWithCommit(db.images, org, booted.value));
        var db1 := db.(devices := db.devices[d := db.devices[d].(imageId := i)]);
        RecomputeIsFresh(db1, org, d);
        assert 0 < i;
        assert db1.devices[d := Fresh(db.images, org, db1.devices[d])] ==
               db.devices[d := db.devices[d].(imageId := i, updateAvailable := LaterSuccess(db.images, i))];
      }
    }
  }

  /** An event for an unknown device adds one live row for it, whatever becomes of its image; without an organisation it
      is refused. A known device gets no second row. */
  lemma UnknownDeviceIsAdded(db: Db, uuid: string, org: string, booted: Option<string>)
    requires RowsOk(db)
    ensures var (db', outcome) := InventoryEvent(db, uuid, org, booted);
            && (KnownDevice(db, uuid) ==> (db', outcome) == EventUpdateDevice(db, uuid, booted))
            && (!KnownDevice(db, uuid) && org == "" ==> db' == db && outcome == Failed(OrgIDNotSet))
            && (!KnownDevice(db, uuid) && org != "" ==>
                  var d := db.nextDevice;
                  && d !in db.devices && db'.devices.Keys == db.devices.Keys + {d} && db'.nextDevice == d + 1
                  && (forall k | k in db.devices :: db'.devices[k] == db.devices[k])
                  && db'.devices[d].uuid == uuid && db'.devices[d].org == org && db'.devices[d].live
                  && (outcome == Done <==> booted.Some? && HasImageOf(db, org, booted.value))
                  && (outcome == Done ==> IsImageOf(db, org, booted.value, db'.devices[d].imageId))
                  && (outcome != Done ==> db'.devices[d].imageId == 0 && !db'.devices[d].updateAvailable))
  {
    FirstDevice(db, uuid);
    if !KnownDevice(db, uuid) && org != "" {
      AddedDevice(db, uuid, org, booted);
    }
  }

  lemma AddedDevice(db: Db, uuid: string, org: string, booted: Option<string>)
    requires RowsOk(db) && !KnownDevice(db, uuid) && org != ""
    ensures var (db', outcome) := EventUpdateDevice(AddDevice(db, uuid, org), uuid, booted);
            var d := db.nextDevice;
            && d !in db.devices && db'.devices.Keys == db.devices.Keys + {d} && db'.nextDevice == d + 1
            && (forall k | k in db.devices :: db'.devices[k] == db.devices[k])
            && db'.devices[d].uuid == uuid && db'.devices[d].org == org && db'.devices[d].live
            && (outcome == Done <==> booted.Some? && HasImageOf(db, org, booted.value))
            && (outcome == Done ==> IsImageOf(db, org, booted.value, db'.devices[d].imageId))
            && (outcome != Done ==> db'.devices[d].imageId == 0 && !db'.devices[d].updateAvailable)
  {
    var db1 := AddDevice(db, uuid, org);
    var d := db.nextDevice;
    AddedRowsOk(db, uuid, org);
    KnownDeviceExactly(db1, uuid, booted);
    assert IsDevice(db1, uuid, d) && forall e | IsDevice(db1, uuid, e) :: e == d;
    if booted.Some? {
      assert HasImageOf(db1, org, booted.value) <==> HasImageOf(db, org, booted.value);
      assert forall i :: IsImageOf(db1, org, booted.value, i) <==> IsImageOf(db, org, booted.value, i);
    }
  }

  lemma AddedRowsOk(db: Db, uuid: string, org: string)
    requires RowsOk(db)
    ensures RowsOk(AddDevice(db, uuid, org))
  {
    var db' := AddDevice(db, uuid, org);
    assert forall i | i in db.images :: NamedSet(db, db.images[i]);
    forall d | d in db'.devices ensures d < db'.nextDevice && DeviceRowOk(db', db'.devices[d]) {
      assert d != db.nextDevice ==> DeviceRowOk(db, db.devices[d]);
    }
  }

  /** The row of a finished update is looked up among the live ones of the organisation. */
  lemma FindUpdateExactly(updates: UpdateTable, org: string, u: nat)
    ensures FindUpdate(updates, org, u).Some? <==> u in updates && updates[u].live && updates[u].org == org
    ensures FindUpdate(updates, org, u).Some? ==> u in updates && FindUpdate(updates, org, u).value == updates[u]
  {
  }

  // ----- over runs -----

  /** An image that is not live becomes so only by a save of its own build. */
  lemma OnlySavesRevive(db: Db, op: Operation, i: nat)
    requires RowsOk(db) && Allowed(db, op) && i < db.nextImage && !LiveImage(db.images, i)
    ensures i < Step(db, op).nextImage
    ensures LiveImage(Step(db, op).images, i) ==> Saves(op, i)
  {
    match op
    case Create(org, name, version, commit, now, valid, composed) =>
      CreateImageEffect(db, org, name, version, commit, now, valid, composed);
    case NewVersion(j, name, version, commit, now, valid, composed) =>
      UpdateImageExactly(db, j, name, version, commit, now, valid, composed);
    case Event(uuid, org, booted) => EventKeepsImages(db, uuid, org, booted);
    case RemoveImage(j) => DeleteImageExactly(db, j);
    case RemoveSet(s) => DeleteImageSetExactly(db, s);
    case _ =>
  }

  lemma EventKeepsImages(db: Db, uuid: string, org: string, booted: Option<string>)
    ensures InventoryEvent(db, uuid, org, booted).0.images == db.images
    ensures InventoryEvent(db, uuid, org, booted).0.nextImage == db.nextImage
  {
  }

  /** So a deleted image stays deleted over every run in which its build saves it no more. */
  lemma {:induction false} DeletedStaysDeleted(db: Db, ops: seq<Operation>, i: nat, pending: set<Place>)
    requires FlagInv(db, pending) && AllowedRun(db, ops) && i < db.nextImage && !LiveImage(db.images, i)
    requires forall k | 0 <= k < |ops| :: !Saves(ops[k], i)
    ensures !LiveImage(Run(db, ops).images, i)
    decreases |ops|
  {
    if ops == [] {
    } else {
      StepInv(db, ops[0], pending);
      OnlySavesRevive(db, ops[0], i);
      assert forall k | 0 <= k < |ops[1..]| :: ops[1..][k] == ops[k + 1];
      DeletedStaysDeleted(Step(db, ops[0]), ops[1..], i, PendingAfter(db, ops[0], pending));
    }
  }
}
