/** The update_available flag and the image sets over every run of the operations. */
module ImagesProofs {
  import opened Images

  /** The image belongs to a row of its own organisation and name. */
  ghost predicate NamedSet(db: Db, image: Image) {
    image.setId in db.sets && db.sets[image.setId].org == image.org && db.sets[image.setId].name == image.name
  }

  ghost predicate HasOwnSet(db: Db, image: Image) {
    NamedSet(db, image) && db.sets[image.setId].live
  }

  /** Live sets of one organisation have different names. */
  ghost predicate UniqueSets(db: Db) {
    forall s, t | LiveSet(db, s) && LiveSet(db, t) && s != t ::
      db.sets[s].org != db.sets[t].org || db.sets[s].name != db.sets[t].name
  }

  /** Every live image belongs to a live set of its own organisation and name, and set names are unique. */
  ghost predicate SetsOk(db: Db) {
    UniqueSets(db) && forall i | i in db.images && db.images[i].live :: HasOwnSet(db, db.images[i])
  }

  /** A live device on a live SUCCESS image is flagged exactly when a later SUCCESS image exists in the same set. */
  ghost predicate FlagOk(images: ImageTable, device: Device) {
    device.live && LiveImage(images, device.imageId) && images[device.imageId].status.Success? ==>
      (device.updateAvailable <==> LaterSuccess(images, device.imageId))
  }

  /** An organisation and an image set. */
  type Place = (string, nat)

  function PlaceOf(image: Image): Place {
    (image.org, image.setId)
  }

  /** The flag is right, or the set of the image that the device runs is pending. */
  ghost predicate FlagGood(images: ImageTable, device: Device, pending: set<Place>) {
    FlagOk(images, device) || (device.imageId in images && PlaceOf(images[device.imageId]) in pending)
  }

  ghost predicate FlagsOk(db: Db, pending: set<Place>) {
    forall d | d in db.devices :: FlagGood(db.images, db.devices[d], pending)
  }

  /** The image a device runs belongs to the organisation of the device. */
  ghost predicate DeviceRowOk(db: Db, device: Device) {
    device.imageId < db.nextImage && (device.imageId in db.images ==> db.images[device.imageId].org == device.org)
  }

  /** Keys are below the next ones, images deleted or not keep their set, whose images have different creation times. */
  ghost predicate RowsOk(db: Db) {
    && 0 < db.nextImage
    && (forall i | i in db.images :: 0 < i < db.nextImage && NamedSet(db, db.images[i]))
    && (forall s | s in db.sets :: s < db.nextSet)
    && (forall d | d in db.devices :: d < db.nextDevice && DeviceRowOk(db, db.devices[d]))
    && DistinctTimes(db.images)
  }

  ghost predicate DistinctTimes(images: ImageTable) {
    forall i, j | i in images && j in images && i != j && images[i].setId == images[j].setId ::
      images[i].created != images[j].created
  }

  ghost predicate FlagInv(db: Db, pending: set<Place>) {
    FlagsOk(db, pending) && RowsOk(db)
  }

  ghost predicate Inv(db: Db) {
    SetsOk(db) && FlagInv(db, {})
  }

  /** The step kept the flags right outside the pending sets, and the sets whole if they were. */
  ghost predicate Keeps(db: Db, db': Db, pending: set<Place>) {
    FlagInv(db', pending) && (SetsOk(db) ==> SetsOk(db'))
  }

  // ----- bulk and per-device computation -----

  /** A live device row of the organisation on a SUCCESS image of the set. */
  ghost predicate InScope(images: ImageTable, org: string, s: nat, device: Device) {
    device.live && device.org == org && Candidate(images, org, s, device.imageId)
  }

  /** The flags of the given devices computed one after the other. */
  ghost function RecomputeAll(db: Db, org: string, ids: seq<nat>): Db
    decreases |ids|
  {
    if ids == [] then db else RecomputeAll(Recompute(db, org, ids[0]).0, org, ids[1..])
  }

  /** The same in one go. */
  ghost function Recomputed(db: Db, org: string, ids: seq<nat>): Db {
    db.(devices := map d | d in db.devices :: if d in ids then Fresh(db.images, org, db.devices[d]) else db.devices[d])
  }

  lemma RecomputeIsFresh(db: Db, org: string, d: nat)
    ensures Recompute(db, org, d).0 ==
            if d in db.devices then db.(devices := db.devices[d := Fresh(db.images, org, db.devices[d])]) else db
  {
    if d in db.devices {
      assert db.devices == db.devices[d := db.devices[d]];
    }
  }

  lemma {:induction false} RecomputeAllIsRecomputed(db: Db, org: string, ids: seq<nat>)
    ensures RecomputeAll(db, org, ids) == Recomputed(db, org, ids)
    decreases |ids|
  {
    if ids == [] {
      assert Recomputed(db, org, ids).devices == db.devices;
    } else {
      var db1 := Recompute(db, org, ids[0]).0;
      RecomputeIsFresh(db, org, ids[0]);
      RecomputeAllIsRecomputed(db1, org, ids[1..]);
      assert forall d :: d in ids <==> d == ids[0] || d in ids[1..];
      assert Recomputed(db1, org, ids[1..]).devices == Recomputed(db, org, ids).devices;
    }
  }

  /** The row is flagged although its image was created at the same time as the last image of the set. */
  ghost predicate StaleTie(images: ImageTable, org: string, s: nat, last: nat, device: Device)
    requires last in images
  {
    && InScope(images, org, s, device) && device.updateAvailable
    && device.imageId != last && images[device.imageId].created == images[last].created
  }

  /** Whether an image of the set is followed by a later success is decided by the last image. */
  lemma LaterThanLast(images: ImageTable, org: string, s: nat, i: nat)
    requires Candidate(images, org, s, i)
    ensures i in Candidates(images, org, s)
    ensures var last := LatestOf(images, Candidates(images, org, s));
            LaterSuccess(images, i) <==> images[i].created < images[last].created
  {
    var rows := Candidates(images, org, s);
    assert i in rows;
    var last := LatestOf(images, rows);
    assert Candidate(images, org, s, last);
    if LaterSuccess(images, i) {
      var j :| j in images && Candidate(images, org, s, j) && images[j].created > images[i].created;
      assert j in rows;
    }
  }

  /** The two bulk statements on one row. */
  lemma BulkRow(images: ImageTable, org: string, s: nat, device: Device)
    requires Candidates(images, org, s) != {}
    ensures var last := LatestOf(images, Candidates(images, org, s));
            var row := Raised(images, org, s, last, Lowered(org, last, device));
            && (!InScope(images, org, s, device) ==> row == device)
            && (InScope(images, org, s, device) ==>
                  (row == Flagged(device, LaterSuccess(images, device.imageId)) <==>
                   !StaleTie(images, org, s, last, device)))
            && row == Flagged(device, row.updateAvailable)
  {
    var rows := Candidates(images, org, s);
    var last := LatestOf(images, rows);
    assert Candidate(images, org, s, last);
    if InScope(images, org, s, device) {
      LaterThanLast(images, org, s, device.imageId);
      assert Latest(images, rows, last);
    }
  }

  /** The bulk update has exactly the effect of recomputing, one by one and in any order, the devices of the
      organisation on a SUCCESS image of the set, and touches no other device, if and only if no flagged device of
      them is on an image created at the same time as the last one. */
  lemma BulkIsRecomputation(db: Db, org: string, s: nat, ids: seq<nat>)
    requires Candidates(db.images, org, s) != {} && 0 !in db.images
    requires forall d :: d in ids <==> d in db.devices && InScope(db.images, org, s, db.devices[d])
    ensures var last := LatestOf(db.images, Candidates(db.images, org, s));
            Bulk(db, org, s).0 == RecomputeAll(db, org, ids)
            <==> forall d | d in db.devices :: !StaleTie(db.images, org, s, last, db.devices[d])
  {
    var last := LatestOf(db.images, Candidates(db.images, org, s));
    RecomputeAllIsRecomputed(db, org, ids);
    var bulk, each := Bulk(db, org, s).0.devices, Recomputed(db, org, ids).devices;
    forall d | d in db.devices
      ensures bulk[d] == each[d] <==> !StaleTie(db.images, org, s, last, db.devices[d])
    {
      BulkRow(db.images, org, s, db.devices[d]);
    }
    if forall d | d in db.devices :: !StaleTie(db.images, org, s, last, db.devices[d]) {
      assert bulk == each;
    }
  }

  /** Two images created at the same time: the bulk update leaves the flag of a device on the second one, while
      recomputing the device clears it. */
  lemma TieKeepsFlag()
    ensures var image := Image("o", "n", 1, Success, 1, 5, "c", true);
            var db := Db(map[1 := image, 2 := image], map[1 := ImageSet("o", "n", true)],
                         map[1 := Device("o", "u", 2, true, true)], 3, 2, 2);
            && Bulk(db, "o", 1).1 == Done && Bulk(db, "o", 1).0.devices[1].updateAvailable
            && Recompute(db, "o", 1).1 == Done && !Recompute(db, "o", 1).0.devices[1].updateAvailable
  {
    var image := Image("o", "n", 1, Success, 1, 5, "c", true);
    var db := Db(map[1 := image, 2 := image], map[1 := ImageSet("o", "n", true)],
                 map[1 := Device("o", "u", 2, true, true)], 3, 2, 2);
    var rows := Candidates(db.images, "o", 1);
    assert 1 in rows && 2 in rows;
    var last := LatestOf(db.images, rows);
    assert last == 1;
    assert StaleTie(db.images, "o", 1, last, db.devices[1]);
    BulkRow(db.images, "o", 1, db.devices[1]);
  }

  /** With distinct creation times in the set the condition always holds. */
  lemma NoStaleTie(db: Db, org: string, s: nat, device: Device)
    requires RowsOk(db) && Candidates(db.images, org, s) != {}
    ensures !StaleTie(db.images, org, s, LatestOf(db.images, Candidates(db.images, org, s)), device)
  {
    assert Candidate(db.images, org, s, LatestOf(db.images, Candidates(db.images, org, s)));
  }
}
