/** The services that change images, image sets and devices, statement by statement over the tables. */
module ImageStore {
  import opened Options
  import opened Queries
  import opened Images
  import opened ImagesProofs
  import opened ImagesRuns
  import opened ImagesEffects

  datatype OutputType = CommitOutput | InstallerOutput

  /** Every output asked for has been built. */
  ghost predicate AllBuilt(outputs: seq<OutputType>, commit: Option<Status>, installer: Option<Status>) {
    && (CommitOutput in outputs ==> commit == Some(Success))
    && (InstallerOutput in outputs ==> installer == Some(Success))
  }

  /** An output asked for has no row. */
  ghost predicate RowMissing(outputs: seq<OutputType>, commit: Option<Status>, installer: Option<Status>) {
    (CommitOutput in outputs && commit.None?) || (InstallerOutput in outputs && installer.None?)
  }

  /** What is still building when the image is finished is an error. */
  ghost function Ended(asked: bool, status: Option<Status>): Option<Status> {
    if asked && status == Some(Building) then Some(Errored) else status
  }

  /** The row a query ordered by descending creation time finds first. */
  method PickLatest(images: ImageTable, rows: set<nat>) returns (x: nat)
    requires rows != {} && rows <= images.Keys
    ensures x in rows && x == LatestOf(images, rows)
  {
    LatestExists(images, rows);
    x :| x in rows && Latest(images, rows, x);
  }

  class Store {
    var images: ImageTable
    var sets: map<nat, ImageSet>
    var devices: map<nat, Device>
    var nextImage: nat
    var nextSet: nat
    var nextDevice: nat
    /** The update transactions, which these services only read. */
    const updates: UpdateTable

    /** No images, sets and devices. */
    constructor (updates: UpdateTable)
      ensures Tables() == EMPTY && Inv(Tables()) && this.updates == updates
    {
      this.updates := updates;
      images, sets, devices := map[], map[], map[];
      nextImage, nextSet, nextDevice := 1, 1, 1;
    }

    ghost function Tables(): Db
      reads this
    {
      Db(images, sets, devices, nextImage, nextSet, nextDevice)
    }

    // ----- flags -----

    /** Afterwards every device of the organisation on a SUCCESS image of the set is right, and no other row has
        changed. */
    method SetDevicesUpdateAvailabilityFromImageSet(org: string, s: nat) returns (outcome: Outcome)
      modifies this`devices
      ensures Tables() == Bulk(old(Tables()), org, s).0 && outcome == Bulk(old(Tables()), org, s).1
      ensures outcome != Done ==> devices == old(devices)
      ensures outcome == Done && RowsOk(old(Tables())) ==>
                forall d | d in old(devices) ::
                  && d in devices
                  && (if InScope(images, org, s, old(devices)[d])
                      then devices[d] == Flagged(old(devices)[d], LaterSuccess(images, old(devices)[d].imageId))
                      else devices[d] == old(devices)[d])
    {
      var rows := Candidates(images, org, s);
      if rows == {} { return Failed(ImageNotFound); }
      var last := PickLatest(images, rows);
      devices := map d | d in devices :: Lowered(org, last, devices[d]);
      devices := map d | d in devices :: Raised(images, org, s, last, devices[d]);
      outcome := Done;
      ghost var db := old(Tables());
      assert devices == Bulk(db, org, s).0.devices;
      forall d | d in old(devices) && RowsOk(db)
        ensures if InScope(images, org, s, old(devices)[d])
                then devices[d] == Flagged(old(devices)[d], LaterSuccess(images, old(devices)[d].imageId))
                else devices[d] == old(devices)[d]
      {
        BulkRow(images, org, s, old(devices)[d]);
        NoStaleTie(db, org, s, old(devices)[d]);
      }
    }

    /** The flag of one device from scratch. */
    method SetDeviceUpdateAvailability(org: string, d: nat) returns (outcome: Outcome)
      modifies this`devices
      ensures Tables() == Recompute(old(Tables()), org, d).0 && outcome == Recompute(old(Tables()), org, d).1
      ensures outcome == Done ==> d in devices && devices == old(devices)[d := devices[d]] && FlagOk(images, devices[d])
      ensures outcome != Done ==> devices == old(devices)
    {
      if d !in devices || !devices[d].live || devices[d].org != org { return Failed(DeviceNotFound); }
      var device := devices[d];
      if device.imageId == 0 { return Failed(DeviceHasImageUndefined); }
      if device.imageId !in images || !images[device.imageId].live || images[device.imageId].org != org {
        return Failed(ImageNotFound);
      }
      var image := images[device.imageId];
      var later := set j | j in images && Candidate(images, org, image.setId, j) &&
                           images[j].created > image.created;
      assert later != {} <==> LaterSuccess(images, device.imageId) by {
        if LaterSuccess(images, device.imageId) {
          var j :| j in images && Candidate(images, org, image.setId, j) && images[j].created > image.created;
          assert j in later;
        }
      }
      devices := devices[d := device.(updateAvailable := later != {})];
      outcome := Done;
    }

    /** Success exactly when every output asked for is built; what is still building then is marked as an error. A
        missing row of an output asked for is dereferenced. */
    method Verdict(outputs: seq<OutputType>, commit: Option<Status>, installer: Option<Status>)
      returns (success: bool, commit': Option<Status>, installer': Option<Status>, panics: bool)
      ensures panics <==> RowMissing(outputs, commit, installer)
      ensures !panics ==> (success <==> AllBuilt(outputs, commit, installer))
      ensures !panics ==> commit' == Ended(CommitOutput in outputs, commit)
      ensures !panics ==> installer' == Ended(InstallerOutput in outputs, installer)
      ensures panics ==> commit' in {commit, Ended(true, commit)} && installer' in {installer, Ended(true, installer)}
    {
      success, commit', installer', panics := true, commit, installer, false;
      for k := 0 to |outputs|
        invariant !RowMissing(outputs[..k], commit, installer) && !panics
        invariant success <==> AllBuilt(outputs[..k], commit, installer)
        invariant commit' == Ended(CommitOutput in outputs[..k], commit)
        invariant installer' == Ended(InstallerOutput in outputs[..k], installer)
      {
        assert forall o :: o in outputs[..k + 1] <==> o in outputs[..k] || o == outputs[k];
        if outputs[k] == CommitOutput {
          if commit' != Some(Success) { success := false; }
          if commit'.None? { return false, commit', installer', true; }
          if commit' == Some(Building) { success, commit' := false, Some(Errored); }
        }
        if outputs[k] == InstallerOutput {
          if installer' != Some(Success) { success := false; }
          if installer'.None? { return false, commit', installer', true; }
          if installer' == Some(Building) { success, installer' := false, Some(Errored); }
        }
      }
      assert outputs[..|outputs|] == outputs;
    }

    /** The final status of a built image, which is saved as a whole row; a success brings the flags of its set up
        to date. A missing commit or installer ends the build before that. */
    method SetFinalImageStatus(i: nat, outputs: seq<OutputType>, commit: Option<Status>, installer: Option<Status>)
      returns (commit': Option<Status>, installer': Option<Status>, panics: bool)
      requires i in images
      modifies this`images, this`devices
      ensures panics <==> RowMissing(outputs, commit, installer)
      ensures Tables() == if panics then old(Tables())
                          else FinishImage(old(Tables()), i, AllBuilt(outputs, commit, installer))
      ensures !panics ==>
                images == old(images)[i := old(images)[i].(
                  status := if AllBuilt(outputs, commit, installer) then Success else Errored, live := true)]
      ensures !panics ==>
                forall pending | FlagInv(old(Tables()), pending) ::
                  FlagInv(Tables(),
                          PendingAfter(old(Tables()), Finish(i, AllBuilt(outputs, commit, installer)), pending))
      ensures !panics && Inv(old(Tables())) ==> (SetsOk(Tables()) <==> LiveSet(old(Tables()), old(images)[i].setId))
    {
      var success;
      success, commit', installer', panics := Verdict(outputs, commit, installer);
      if panics { return; }
      ghost var db := Tables();
      forall pending | FlagInv(db, pending)
        ensures FlagInv(FinishImage(db, i, success), PendingAfter(db, Finish(i, success), pending))
      {
        FinishImageKeepsFlags(db, i, success, pending);
      }
      if Inv(db) { FinishImageKeepsSetsExactly(db, i, success); }
      images := images[i := images[i].(status := if success then Success else Errored, live := true)];
      assert Tables() == SaveImage(db, i, if success then Success else Errored, db.images[i].commit);
      if success {
        var ignored := SetDevicesUpdateAvailabilityFromImageSet(images[i].org, images[i].setId);
      }
    }

    // ----- creation -----

    /** A set for a new image: a new one, or the one of that name if it holds no live image. */
    method GetImageSetForNewImage(org: string, name: string) returns (s: Option<nat>)
      modifies this`sets, this`nextSet
      ensures Tables() == SetForNewImage(old(Tables()), org, name).0 && s == SetForNewImage(old(Tables()), org, name).1
      ensures s.Some? && RowsOk(old(Tables())) ==>
                s.value in sets && sets[s.value] == ImageSet(org, name, true) && ImagesOf(images, s.value) == {}
    {
      ghost var db := Tables();
      var found := set s | s in sets && sets[s].live && sets[s].org == org && sets[s].name == name;
      assert found == SetsNamed(db, org, name);
      if found == {} {
        s := Some(nextSet);
        sets := sets[nextSet := ImageSet(org, name, true)];
        nextSet := nextSet + 1;
        return;
      }
      var imageSet := PickFirst(found);
      if ImagesOf(images, imageSet) != {} { return None; }
      s := Some(imageSet);
    }

    method CreateImage(org: string, name: string, version: nat, commit: string, now: nat, valid: bool, composed: bool)
      returns (outcome: Outcome)
      modifies this`images, this`nextImage, this`sets, this`nextSet
      ensures Tables() == Images.CreateImage(old(Tables()), org, name, version, commit, now, valid, composed).0
      ensures outcome == Images.CreateImage(old(Tables()), org, name, version, commit, now, valid, composed).1
      ensures outcome == Done ==> ImagesNamed(old(images), org, name) == {}
      ensures outcome == Done ==> images.Keys == old(images.Keys) + {old(nextImage)}
      ensures Allowed(old(Tables()), Create(org, name, version, commit, now, valid, composed)) ==>
                forall pending | FlagInv(old(Tables()), pending) :: Keeps(old(Tables()), Tables(), pending)
    {
      ghost var db := Tables();
      forall pending
        | FlagInv(db, pending) && Allowed(db, Create(org, name, version, commit, now, valid, composed))
        ensures Keeps(db, Images.CreateImage(db, org, name, version, commit, now, valid, composed).0, pending)
      {
        CreateImageKeeps(db, org, name, version, commit, now, valid, composed, pending);
      }
      if org == "" { return Failed(OrgIDNotSet); }
      if name == "" { return Failed(ImageNameUndefined); }
      if ImagesNamed(images, org, name) != {} { return Failed(ImageNameAlreadyExists); }
      var version' := version;
      if version == 0 { version' := 1; }
      if !valid { return Failed(BuilderFailure); }
      var s := GetImageSetForNewImage(org, name);
      if s.None? { return Failed(ImageSetAlreadyExists); }
      if !composed { return Failed(BuilderFailure); }
      images := images[nextImage := Image(org, name, version', Building, s.value, now, commit, true)];
      nextImage := nextImage + 1;
      outcome := Done;
    }

    /** Accepted exactly for the row that comes first when the live images of its organisation and set are ordered by
        descending version, then id. */
    method CheckIfIsLatestVersion(i: nat) returns (latest: bool)
      requires i in images
      ensures latest <==> IsLatestVersion(images, i)
      ensures latest ==> forall j | LiveImage(images, j) && InSet(images[j], images[i].org, images[i].setId) ::
                           images[j].version <= images[i].version
    {
      if images[i].org == "" { return false; }
      var rows := set j | j in images && LiveImage(images, j) && InSet(images[j], images[i].org, images[i].setId);
      if rows == {} {
        assert i !in rows;
        return false;
      }
      var first :| first in rows;
      var rest := rows - {first};
      while rest != {}
        invariant first in rows && rest <= rows - {first}
        invariant forall j | j in rows && j !in rest :: !Ahead(images, j, first)
        decreases |rest|
      {
        var j :| j in rest;
        rest := rest - {j};
        if Ahead(images, j, first) {
          first := j;
        }
      }
      assert forall j | j in images && Ahead(images, j, first) :: j in rows;
      assert LiveImage(images, i) && first != i ==> i in rows && Ahead(images, first, i);
      latest := first == i;
    }

    method UpdateImage(i: nat, name: string, version: nat, commit: string, now: nat, valid: bool, composed: bool)
      returns (outcome: Outcome)
      modifies this`images, this`nextImage
      ensures Tables() == Images.UpdateImage(old(Tables()), i, name, version, commit, now, valid, composed).0
      ensures outcome == Images.UpdateImage(old(Tables()), i, name, version, commit, now, valid, composed).1
      ensures outcome == Done ==> i in old(images) && IsLatestVersion(old(images), i)
      ensures Allowed(old(Tables()), NewVersion(i, name, version, commit, now, valid, composed)) ==>
                forall pending | FlagInv(old(Tables()), pending) :: Keeps(old(Tables()), Tables(), pending)
    {
      ghost var db := Tables();
      forall pending
        | FlagInv(db, pending) && Allowed(db, NewVersion(i, name, version, commit, now, valid, composed))
        ensures Keeps(db, Images.UpdateImage(db, i, name, version, commit, now, valid, composed).0, pending)
      {
        UpdateImageKeeps(db, i, name, version, commit, now, valid, composed, pending);
      }
      if i !in images { return Failed(ImageNotFound); }
      var previous := images[i];
      var latest := CheckIfIsLatestVersion(i);
      if !latest { return Failed(ImageOnlyLatestCanModify); }
      if !valid { return Failed(BuilderFailure); }
      var newName := name;
      if name == "" {
        newName := previous.name;
      } else if name != previous.name {
        return Failed(ImageNameChangeIsProhibited);
      }
      if previous.setId !in sets || !sets[previous.setId].live { return Failed(ImageSetNotFound); }
      if !composed { return Failed(BuilderFailure); }
      images := images[nextImage := Image(previous.org, newName, version, Building, previous.setId, now, commit, true)];
      nextImage := nextImage + 1;
      outcome := Done;
    }

    // ----- devices -----

    method ProcessPlatformInventoryEventUpdateDevice(uuid: string, booted: Option<string>) returns (outcome: Outcome)
      modifies this`devices
      ensures Tables() == EventUpdateDevice(old(Tables()), uuid, booted).0
      ensures outcome == EventUpdateDevice(old(Tables()), uuid, booted).1
      ensures forall pending | FlagInv(old(Tables()), pending) :: Keeps(old(Tables()), Tables(), pending)
    {
      ghost var db := Tables();
      forall pending | FlagInv(db, pending) ensures Keeps(db, EventUpdateDevice(db, uuid, booted).0, pending) {
        EventUpdateDeviceInv(db, uuid, booted, pending);
      }
      var known := set d | d in devices && devices[d].live && devices[d].uuid == uuid;
      assert known == DevicesWithUuid(db, uuid);
      if known == {} { return Failed(DeviceNotFound); }
      var d := PickFirst(known);
      if booted.None? { return Failed(ImageNotFound); }
      var rows := ImagesWithCommit(images, devices[d].org, booted.value);
      if rows == {} { return Failed(ImageNotFound); }
      var i := PickFirst(rows);
      devices := devices[d := devices[d].(imageId := i)];
      outcome := SetDeviceUpdateAvailability(devices[d].org, d);
    }

    /** A loaded device is saved; its organisation is a column that is written on creation only. */
    method SaveDevice(d: nat, device: Device)
      requires d in devices
      modifies this`devices
      ensures devices == old(devices)[d := device.(org := old(devices)[d].org)]
    {
      devices := devices[d := device.(org := devices[d].org)];
    }

    /** A known device without an organisation is given that of the event, but the save does not write it: no device
        ever changes its organisation. */
    method ProcessPlatformInventoryUpdatedEvent(uuid: string, org: string, booted: Option<string>)
      returns (outcome: Outcome)
      modifies this`devices, this`nextDevice
      ensures RowsOk(old(Tables())) ==> SameOrganisations(old(Tables()), Tables())
      ensures Tables() == InventoryEvent(old(Tables()), uuid, org, booted).0
      ensures outcome == InventoryEvent(old(Tables()), uuid, org, booted).1
      ensures forall pending | FlagInv(old(Tables()), pending) :: Keeps(old(Tables()), Tables(), pending)
    {
      ghost var db := Tables();
      var known := set d | d in devices && devices[d].live && devices[d].uuid == uuid;
      assert known == DevicesWithUuid(db, uuid);
      if known == {} {
        if org == "" { return Failed(OrgIDNotSet); }
        devices := devices[nextDevice := Device(org, uuid, 0, false, true)];
        nextDevice := nextDevice + 1;
        assert Tables() == AddDevice(db, uuid, org);
      } else {
        var d := PickFirst(known);
        var device := devices[d];
        if device.org == "" {
          device := device.(org := org);
        }
        SaveDevice(d, device);
        assert devices == db.devices;
      }
      if RowsOk(db) { EventKeepsOrganisations(db, uuid, org, booted); }
      outcome := ProcessPlatformInventoryEventUpdateDevice(uuid, booted);
      forall pending | FlagInv(db, pending) ensures Keeps(db, InventoryEvent(db, uuid, org, booted).0, pending) {
        InventoryEventKeeps(db, uuid, org, booted, pending);
      }
    }

    /** Whether the update succeeded is what the caller says; the rest is loaded again. */
    method UpdateDevicesFromUpdateTransaction(u: nat, org: string, success: bool) returns (outcome: Outcome)
      modifies this`devices
      ensures Tables() == FinishUpdate(old(Tables()), success, FindUpdate(updates, org, u)).0
      ensures outcome == FinishUpdate(old(Tables()), success, FindUpdate(updates, org, u)).1
      ensures forall pending | FlagInv(old(Tables()), pending) :: Keeps(old(Tables()), Tables(), pending)
    {
      ghost var db, row := Tables(), FindUpdate(updates, org, u);
      forall pending | FlagInv(db, pending) ensures Keeps(db, FinishUpdate(db, success, row).0, pending) {
        FinishUpdateInv(db, success, row, pending);
      }
      if !success { return Done; }
      if u !in updates || !updates[u].live || updates[u].org != org { return Failed(UpdateNotFound); }
      var update := updates[u];
      if update.commit.None? { return Failed(UndefinedCommit); }
      var rows := ImagesWithCommit(images, update.org, update.commit.value);
      if rows == {} { return Failed(ImageNotFound); }
      var i := PickFirst(rows);
      var image := images[i];
      var later := set j | j in images && Candidate(images, image.org, image.setId, j) &&
                           images[j].created > image.created;
      assert later != {} <==> LaterSuccess(images, i) by {
        if LaterSuccess(images, i) {
          var j :| j in images && Candidate(images, image.org, image.setId, j) && images[j].created > image.created;
          assert j in later;
        }
      }
      devices := map d | d in devices ::
        if d in update.devices && devices[d].live && devices[d].org == image.org
        then devices[d].(imageId := i, updateAvailable := later != {}) else devices[d];
      outcome := Done;
    }

    // ----- deletion -----

    /** The images of the set are counted before the image goes. */
    method DeleteImage(i: nat) returns (outcome: Outcome)
      modifies this`images, this`sets
      ensures Tables() == Images.DeleteImage(old(Tables()), i).0 && outcome == Images.DeleteImage(old(Tables()), i).1
      ensures forall pending | FlagInv(old(Tables()), pending) :: Keeps(old(Tables()), Tables(), pending)
      ensures Inv(old(Tables())) ==> (outcome == Done <==> LiveImage(old(images), i) && old(images)[i].status.Errored?)
      ensures outcome != Done ==> Tables() == old(Tables())
      ensures outcome == Done ==> forall j :: LiveImage(images, j) <==> LiveImage(old(images), j) && j != i
    {
      ghost var db := Tables();
      DeleteImageExactly(db, i);
      forall pending | FlagInv(db, pending) ensures Keeps(db, Images.DeleteImage(db, i).0, pending) {
        DeleteImageKeeps(db, i, pending);
      }
      if Inv(db) && LiveImage(images, i) && images[i].status.Errored? { DeleteImageSetGoes(db, i); }
      if i !in images || !images[i].live { return Failed(ImageNotFound); }
      if images[i].status != Errored { return Failed(ImageNotInErrorState); }
      var found := set s | s in sets && sets[s].live && sets[s].org == images[i].org && sets[s].name == images[i].name;
      assert found == SetsNamed(db, images[i].org, images[i].name);
      if found == {} { return Failed(ImageSetNotFound); }
      var s := PickFirst(found);
      var preloaded := ImagesOf(images, s);
      images := images[i := images[i].(live := false)];
      if |preloaded| <= 1 {
        sets := sets[s := sets[s].(live := false)];
      }
      outcome := Done;
    }

    /** Refused exactly while a live device runs an image of the set. */
    method DeleteImageSet(s: nat) returns (outcome: Outcome)
      modifies this`images, this`sets
      ensures Tables() == Images.DeleteImageSet(old(Tables()), s).0
      ensures outcome == Images.DeleteImageSet(old(Tables()), s).1
      ensures outcome == Failed(ImageSetInUse) <==> DevicesOnSet(old(Tables()), s) != {}
      ensures outcome == Done ==> ImagesOf(images, s) == {} && !LiveSet(Tables(), s)
      ensures forall pending | FlagInv(old(Tables()), pending) :: Keeps(old(Tables()), Tables(), pending)
    {
      ghost var db := Tables();
      forall pending | FlagInv(db, pending) ensures Keeps(db, Images.DeleteImageSet(db, s).0, pending) {
        DeleteImageSetKeeps(db, s, pending);
      }
      var ids := set d | d in devices && devices[d].live && devices[d].imageId in images &&
                         images[devices[d].imageId].setId == s;
      assert ids == DevicesOnSet(db, s);
      if |ids| != 0 { return Failed(ImageSetInUse); }
      assert ids == {};
      if s !in sets || !sets[s].live { return Failed(ImageSetNotFound); }
      images := map i | i in images :: if images[i].setId == s then images[i].(live := false) else images[i];
      sets := sets[s := sets[s].(live := false)];
      outcome := Done;
    }
  }
}
