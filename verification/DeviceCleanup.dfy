/** The tables behind the permanent deletion of devices and their update transactions. */
module DeviceCleanup {
  import opened Options
  import opened Tables

  /** The rows: whether a device is soft-deleted, the commit and the repo of an update, the device of a dispatch
      record. */
  datatype Device = Device(deleted: bool)
  datatype Update = Update(commit: nat, repo: Option<nat>)
  datatype Repo = Repo(url: string, cleaned: bool)
  datatype Record = Record(device: nat)

  /** A row of a join table. */
  datatype Link = Link(update: nat, other: nat)
  datatype Membership = Membership(group: nat, device: nat)

  datatype Db = Db(
    devices: map<nat, Device>,
    updates: map<nat, Update>,
    repos: map<nat, Repo>,
    records: map<nat, Record>,
    updateRecords: set<Link>,      // updatetransaction_dispatchrecords
    updateDevices: set<Link>,      // updatetransaction_devices
    updateCommits: set<Link>,      // updatetransaction_commits
    groups: set<Membership>,       // device_groups_devices
    images: map<nat, nat>,         // the commit of an image
    commitRepos: set<nat>)         // the repos that commits use

  /** One row of a candidate query: a device with a dispatch record or an update, once for each image of the update's
      commit. */
  datatype Candidate = Candidate(device: nat, deleted: bool, record: Option<nat>, update: Option<nat>,
                                 image: Option<nat>, repo: Option<nat>, url: string)

  /** The tables and the folders in storage, by the address of the repo. */
  datatype State = State(db: Db, folders: set<string>)

  datatype Failure =
    | CleanupNotAvailable
    | NotCandidate
    | UpdateNotDefined
    | DeviceWithUpdate
    | StorageFault
    | Statement(error: Error)
    | Interrupted

  datatype Result = Success | Failure(why: Failure)

  // ----- foreign keys -----

  /** Every foreign key points at a row. */
  ghost predicate Valid(db: Db) {
    && (forall x | x in db.records :: db.records[x].device in db.devices)
    && (forall k | k in db.updateRecords :: k.update in db.updates && k.other in db.records)
    && (forall k | k in db.updateDevices :: k.update in db.updates && k.other in db.devices)
    && (forall k | k in db.updateCommits :: k.update in db.updates)
    && (forall m | m in db.groups :: m.device in db.devices)
    && (forall u | u in db.updates && db.updates[u].repo.Some? :: db.updates[u].repo.value in db.repos)
    && db.commitRepos <= db.repos.Keys
  }

  predicate HasDevices(db: Db, u: nat) {
    exists k | k in db.updateDevices :: k.update == u
  }

  /** The device of a dispatch record is linked to the update of the record, unless that update lost all its devices. */
  ghost predicate Linked(db: Db) {
    forall k | k in db.updateRecords && k.other in db.records ::
      Link(k.update, db.records[k.other].device) in db.updateDevices || !HasDevices(db, k.update)
  }

  predicate Deleted(db: Db, d: nat) {
    d in db.devices && db.devices[d].deleted
  }

  /** An update that has lost its devices, with a dispatch record of a deleted device. */
  predicate Orphan(db: Db, k: Link) {
    && k in db.updateRecords && k.other in db.records
    && Deleted(db, db.records[k.other].device) && !HasDevices(db, k.update)
  }

  predicate NoOrphans(db: Db) {
    forall k | k in db.updateRecords :: !Orphan(db, k)
  }

  // ----- candidates -----

  /** The rows a left join with the images of a commit yields. */
  function ImageRows(images: map<nat, nat>, commit: nat): (rows: set<Option<nat>>)
    ensures rows != {}
  {
    var found := set i | i in images && images[i] == commit :: Some(i);
    if found == {} then {None} else found
  }

  function RowsOf(db: Db, u: nat): (rows: set<Option<nat>>)
    ensures rows != {}
  {
    if u in db.updates then ImageRows(db.images, db.updates[u].commit) else {None}
  }

  function CandidateOf(db: Db, d: nat, record: Option<nat>, u: nat, image: Option<nat>): Candidate {
    var repo := if u in db.updates then db.updates[u].repo else None;
    Candidate(d, true, record, Some(u), image, repo,
              if repo.Some? && repo.value in db.repos then db.repos[repo.value].url else "")
  }

  function DeviceOnly(d: nat): Candidate {
    Candidate(d, true, None, None, None, None, "")
  }

  /** A deleted device once for each of its dispatch records on an update without devices, and each image. */
  function OrphanCandidates(db: Db): set<Candidate> {
    set k, m | k in db.updateRecords && Orphan(db, k) && m in RowsOf(db, k.update) ::
      CandidateOf(db, db.records[k.other].device, Some(k.other), k.update, m)
  }

  predicate HasUpdates(db: Db, d: nat) {
    exists k | k in db.updateDevices :: k.other == d
  }

  /** A deleted device once for each of its updates and each image, or once without an update. */
  function DeviceCandidates(db: Db): set<Candidate> {
    (set k, m | k in db.updateDevices && Deleted(db, k.other) && m in RowsOf(db, k.update) ::
       CandidateOf(db, k.other, None, k.update, m))
    + (set d | d in db.devices && Deleted(db, d) && !HasUpdates(db, d) :: DeviceOnly(d))
  }

  /** The rows of the query of the first phase or of the second. */
  function Candidates(db: Db, orphans: bool): set<Candidate> {
    if orphans then OrphanCandidates(db) else DeviceCandidates(db)
  }

  function Doomed(db: Db): set<nat> {
    set k | k in db.updateDevices && Deleted(db, k.other) :: k.update
  }

  function OrphanUpdates(db: Db): set<nat> {
    set k | k in db.updateRecords && Orphan(db, k) :: k.update
  }

  /** The updates the cleanup deletes: those linked to a deleted device, and orphans. */
  function Condemned(db: Db): set<nat> {
    Doomed(db) + OrphanUpdates(db)
  }

  /** An update goes exactly when it is linked to a deleted device, or linked to none while a dispatch record of it is
      that of a deleted device. */
  lemma CondemnedExactly(db: Db, u: nat)
    ensures u in Condemned(db) <==>
            || (exists d :: Link(u, d) in db.updateDevices && d in db.devices && db.devices[d].deleted)
            || (&& (forall d :: Link(u, d) !in db.updateDevices)
                && exists x :: Link(u, x) in db.updateRecords && x in db.records &&
                               db.records[x].device in db.devices && db.devices[db.records[x].device].deleted)
  {
    assert HasDevices(db, u) <==> exists d :: Link(u, d) in db.updateDevices by {
      if k :| k in db.updateDevices && k.update == u {
        assert Link(u, k.other) in db.updateDevices;
      }
    }
    if d: nat :| Link(u, d) in db.updateDevices && d in db.devices && db.devices[d].deleted {
      assert u in Doomed(db);
    }
    if !HasDevices(db, u) {
      if x: nat :| && Link(u, x) in db.updateRecords && x in db.records && db.records[x].device in db.devices
                   && db.devices[db.records[x].device].deleted
      {
        assert Orphan(db, Link(u, x)) && u in OrphanUpdates(db);
      }
    }
  }

  /** A candidate query repeats a row once for each image of the update's commit, and gives one row without any. */
  lemma RowsOfExactly(db: Db, u: nat)
    ensures forall i: nat :: Some(i) in RowsOf(db, u) <==>
              u in db.updates && i in db.images && db.images[i] == db.updates[u].commit
    ensures None in RowsOf(db, u) <==>
              forall i | u in db.updates && i in db.images :: db.images[i] != db.updates[u].commit
  {
    if u in db.updates {
      forall i | i in db.images && db.images[i] == db.updates[u].commit ensures Some(i) in RowsOf(db, u) {
        assert Some(i) in set j | j in db.images && db.images[j] == db.updates[u].commit :: Some(j);
      }
    }
  }

  lemma CandidateCondemned(db: Db, c: Candidate, orphans: bool)
    requires c in Candidates(db, orphans) && c.update.Some?
    ensures c.update.value in Condemned(db)
  {
  }

  // ----- permanent deletion -----

  predicate RepoUsed(db: Db, r: nat) {
    exists u | u in db.updates :: db.updates[u].repo == Some(r)
  }

  function WithoutUpdate(db: Db, u: nat): Db {
    db.(updateRecords := (set k | k in db.updateRecords && k.update != u),
        updateDevices := (set k | k in db.updateDevices && k.update != u),
        updateCommits := (set k | k in db.updateCommits && k.update != u),
        updates := db.updates - {u})
  }

  /** One transaction: the update with its join rows, and its repo when no other update uses it; a repo that a commit
      uses cannot go. */
  function DeleteUpdate(db: Db, u: nat, repo: Option<nat>): (Db, Result) {
    var db1 := WithoutUpdate(db, u);
    if repo.Some? && !RepoUsed(db1, repo.value) then
      if repo.value in db.commitRepos then (db, Failure(Statement(ForeignKeyViolation)))
      else (db1.(repos := db1.repos - {repo.value}), Success)
    else (db1, Success)
  }

  /** Some dispatch record of the device is still reached by a join row. */
  predicate RecordsReached(db: Db, d: nat) {
    exists k | k in db.updateRecords :: k.other in db.records && db.records[k.other].device == d
  }

  /** One transaction: the dispatch records and group memberships of the device, and the device. */
  function DeleteDeviceRow(db: Db, d: nat): (Db, Result) {
    if RecordsReached(db, d) || HasUpdates(db, d) then (db, Failure(Statement(ForeignKeyViolation)))
    else
      (db.(records := (map x | x in db.records && db.records[x].device != d :: db.records[x]),
           groups := (set m | m in db.groups && m.device != d),
           devices := db.devices - {d}), Success)
  }

  predicate Contains(s: string, part: string) {
    exists i | 0 <= i <= |s| :: part <= s[i..]
  }

  function Decimal(n: nat): string {
    var digit := ['0' + (n % 10) as char];
    if n < 10 then digit else Decimal(n / 10) + digit
  }

  /** The repo was built for an update. */
  predicate UpdateRepoUrl(url: string, repo: nat) {
    url != "" && (Contains(url, "/upd/") || Contains(url, "/" + Decimal(repo) + "/"))
  }

  lemma ContainsExactly(s: string, part: string)
    ensures Contains(s, part) <==> exists before, after :: s == before + part + after
  {
    if i :| 0 <= i <= |s| && part <= s[i..] {
      assert s == s[..i] + part + s[i..][|part|..];
    }
    if before: string, after: string :| s == before + part + after {
      assert s[|before|..] == part + after;
    }
  }

  /** The number that a string of decimal digits stands for. */
  function Number(digits: string): int {
    if digits == "" then 0 else 10 * Number(digits[..|digits| - 1]) + (digits[|digits| - 1] as int - '0' as int)
  }

  lemma {:induction false} DecimalRoundTrip(n: nat)
    ensures Decimal(n) != "" && Number(Decimal(n)) == n
  {
    var digits := Decimal(n);
    var last := ['0' + (n % 10) as char];
    if n >= 10 {
      DecimalRoundTrip(n / 10);
      assert digits == Decimal(n / 10) + last;
      assert digits[..|digits| - 1] == Decimal(n / 10);
    } else {
      assert digits == last && digits[..0] == "";
    }
  }

  /** The address of a repo is that of one built for an update when some part of its path is "upd" or the id of the
      repo. */
  lemma UpdateRepoUrlExactly(url: string, repo: nat)
    ensures UpdateRepoUrl(url, repo) <==>
            || (exists before, after :: url == before + "/upd/" + after)
            || (exists before, after :: url == before + ("/" + Decimal(repo) + "/") + after)
    ensures Number(Decimal(repo)) == repo
  {
    ContainsExactly(url, "/upd/");
    ContainsExactly(url, "/" + Decimal(repo) + "/");
    DecimalRoundTrip(repo);
  }

  /** A repo without its address. */
  const CLEANED := Repo("", true)

  function CleanRepo(db: Db, r: nat): Db {
    if r in db.repos then db.(repos := db.repos[r := CLEANED]) else db
  }

  // ----- what every step keeps -----

  ghost predicate Inv(db: Db) {
    Valid(db) && Linked(db)
  }

  /** Rows only disappear, live devices stay, and an update keeps all its links as long as it exists. */
  ghost predicate Shrinks(db: Db, db': Db) {
    && db'.devices.Keys <= db.devices.Keys && db'.updates.Keys <= db.updates.Keys
    && (forall d | d in db'.devices :: db'.devices[d] == db.devices[d])
    && (forall d | d in db.devices && !db.devices[d].deleted :: d in db'.devices)
    && (forall u | u in db'.updates :: db'.updates[u] == db.updates[u])
    && db'.records.Keys <= db.records.Keys
    && (forall x | x in db'.records :: db'.records[x] == db.records[x])
    && (forall k :: k in db'.updateRecords <==> k in db.updateRecords && k.update in db'.updates)
    && (forall k :: k in db'.updateDevices <==> k in db.updateDevices && k.update in db'.updates)
    && db'.commitRepos == db.commitRepos && db'.images == db.images
  }

  /** What hangs on a device or an update goes exactly when that does: the dispatch records and the group memberships of
      a device, and the old commits of an update. */
  ghost predicate RestFollows(db: Db, db': Db) {
    && (forall m :: m in db'.groups <==> m in db.groups && m.device in db'.devices)
    && (forall x :: x in db'.records <==> x in db.records && db.records[x].device in db'.devices)
    && (forall k :: k in db'.updateCommits <==> k in db.updateCommits && k.update in db'.updates)
  }

  lemma RestFollowsAgain(a: Db, b: Db, c: Db)
    requires RestFollows(a, b) && RestFollows(b, c) && Shrinks(a, b) && Shrinks(b, c)
    ensures RestFollows(a, c)
  {
    forall m ensures m in c.groups <==> m in a.groups && m.device in c.devices {}
    forall x ensures x in c.records <==> x in a.records && a.records[x].device in c.devices {}
    forall k ensures k in c.updateCommits <==> k in a.updateCommits && k.update in c.updates {}
  }

  lemma RestFollowsSteps(db: Db, u: nat, repo: Option<nat>, d: nat)
    requires Valid(db)
    ensures RestFollows(db, db) && RestFollows(db, DeleteUpdate(db, u, repo).0)
    ensures RestFollows(db, DeleteDeviceRow(db, d).0)
  {
    DeleteUpdateTables(db, u, repo);
  }

  lemma DeleteUpdateTables(db: Db, u: nat, repo: Option<nat>)
    requires Valid(db)
    ensures var db' := DeleteUpdate(db, u, repo).0;
            && db'.devices == db.devices && db'.groups == db.groups && db'.records == db.records
            && forall k :: k in db'.updateCommits <==> k in db.updateCommits && k.update in db'.updates
  {
  }

  /** A repo that updates use disappears exactly when its last update does, and any other repo stays. */
  ghost predicate ReposFollow(db: Db, db': Db) {
    && db'.repos.Keys <= db.repos.Keys
    && forall r | r in db.repos :: r in db'.repos <==> (RepoUsed(db, r) ==> RepoUsed(db', r))
  }

  lemma ShrinksSelf(db: Db)
    requires Valid(db)
    ensures Shrinks(db, db) && ReposFollow(db, db)
  {
    forall r | RepoUsed(db, r) ensures r in db.repos {
      var u :| u in db.updates && db.updates[u].repo == Some(r);
    }
  }

  lemma ShrinksAgain(a: Db, b: Db, c: Db)
    requires Shrinks(a, b) && Shrinks(b, c)
    ensures Shrinks(a, c)
  {
    forall k ensures k in c.updateRecords <==> k in a.updateRecords && k.update in c.updates {}
    forall k ensures k in c.updateDevices <==> k in a.updateDevices && k.update in c.updates {}
  }

  lemma ReposFollowAgain(a: Db, b: Db, c: Db)
    requires ReposFollow(a, b) && ReposFollow(b, c) && Shrinks(a, b) && Shrinks(b, c)
    ensures ReposFollow(a, c)
  {
    UsedBefore(a, b);
    UsedBefore(b, c);
  }

  lemma UsedBefore(db: Db, db': Db)
    requires Shrinks(db, db')
    ensures forall r: nat | RepoUsed(db', r) :: RepoUsed(db, r)
  {
    forall r: nat | RepoUsed(db', r) ensures RepoUsed(db, r) {
      var u :| u in db'.updates && db'.updates[u].repo == Some(r);
      assert db.updates[u].repo == Some(r);
    }
  }

  /** Links that stay have the same meaning, so shrinking keeps the links complete and makes no orphans. */
  lemma ShrinksKeepsLinks(db: Db, db': Db)
    requires Shrinks(db, db') && Linked(db)
    ensures Linked(db')
    ensures forall k | Orphan(db', k) :: Orphan(db, k)
  {
    forall u | u in db'.updates ensures HasDevices(db', u) <==> HasDevices(db, u) {
      if HasDevices(db, u) {
        var k :| k in db.updateDevices && k.update == u;
        assert k in db'.updateDevices;
      }
      if HasDevices(db', u) {
        var k :| k in db'.updateDevices && k.update == u;
        assert k in db.updateDevices;
      }
    }
    forall k | k in db'.updateRecords && k.other in db'.records
      ensures Link(k.update, db'.records[k.other].device) in db'.updateDevices || !HasDevices(db', k.update)
    {
      assert k in db.updateRecords;
    }
    forall k | Orphan(db', k) ensures Orphan(db, k) {
      assert k in db.updateRecords;
    }
  }

  /** No update is condemned later that was not from the start. */
  lemma CondemnedShrinks(db: Db, db': Db)
    requires Shrinks(db, db') && Linked(db)
    ensures Condemned(db') <= Condemned(db)
  {
    ShrinksKeepsLinks(db, db');
  }

  lemma DeleteUpdateKeeps(db: Db, u: nat, repo: Option<nat>)
    requires Inv(db)
    requires u in db.updates ==> repo == db.updates[u].repo
    ensures var db' := DeleteUpdate(db, u, repo).0;
            Inv(db') && Shrinks(db, db') && (DeleteUpdate(db, u, repo).1 == Success ==> u !in db'.updates)
  {
    DeleteUpdateShrinks(db, u, repo);
    ShrinksKeepsLinks(db, DeleteUpdate(db, u, repo).0);
    DeleteUpdateValid(db, u, repo);
  }

  lemma DeleteUpdateShrinks(db: Db, u: nat, repo: Option<nat>)
    requires Valid(db)
    ensures Shrinks(db, DeleteUpdate(db, u, repo).0)
    ensures DeleteUpdate(db, u, repo).1 == Success ==> u !in DeleteUpdate(db, u, repo).0.updates
  {
  }

  lemma DeleteUpdateValid(db: Db, u: nat, repo: Option<nat>)
    requires Valid(db)
    ensures Valid(DeleteUpdate(db, u, repo).0)
  {
    var db' := DeleteUpdate(db, u, repo).0;
    var db1 := WithoutUpdate(db, u);
    if db' != db {
      forall v | v in db'.updates && db'.updates[v].repo.Some? ensures db'.updates[v].repo.value in db'.repos {
        assert v in db1.updates && RepoUsed(db1, db1.updates[v].repo.value);
      }
    }
  }

  /** The candidate was read when its update existed, or the update has been deleted since. */
  ghost predicate Current(db: Db, u: nat, repo: Option<nat>) {
    if u in db.updates then repo == db.updates[u].repo
    else repo.Some? ==> repo.value !in db.repos || RepoUsed(db, repo.value)
  }

  /** The repo of a deleted update goes with the last update that uses it. */
  lemma DeleteUpdateRepos(db: Db, u: nat, repo: Option<nat>)
    requires Valid(db) && Current(db, u, repo)
    ensures ReposFollow(db, DeleteUpdate(db, u, repo).0)
  {
    var db' := DeleteUpdate(db, u, repo).0;
    ShrinksSelf(db);
    if db' != db {
      forall r | r in db.repos ensures r in db'.repos <==> (RepoUsed(db, r) ==> RepoUsed(db', r)) {
        if v :| v in db.updates && db.updates[v].repo == Some(r) && repo != Some(r) {
          assert v != u && v in db'.updates;
        }
      }
    }
  }

  /** A candidate stays current while rows disappear as they should. */
  lemma StaysCurrent(start: Db, db: Db, u: nat)
    requires Valid(start) && Shrinks(start, db) && ReposFollow(start, db) && u in start.updates
    ensures Current(db, u, start.updates[u].repo)
  {
    var repo := start.updates[u].repo;
    if repo.Some? {
      assert RepoUsed(start, repo.value);
    }
  }

  /** Deleting an update fails exactly when it is the last one of a repo that a commit uses. */
  lemma DeleteUpdateFailsExactly(db: Db, u: nat, repo: Option<nat>)
    ensures DeleteUpdate(db, u, repo).1 != Success <==>
            && repo.Some? && repo.value in db.commitRepos
            && forall v | v in db.updates && v != u :: db.updates[v].repo != repo
  {
    if repo.Some? {
      var db1 := WithoutUpdate(db, u);
      if RepoUsed(db1, repo.value) {
        var v :| v in db1.updates && db1.updates[v].repo == Some(repo.value);
        assert v in db.updates && v != u;
      } else {
        assert forall v | v in db.updates && v != u :: v in db1.updates;
      }
    }
  }

  /** The only update of a repo that a commit uses cannot be deleted. */
  lemma CommitRepoStays()
    ensures var db := Db(map[1 := Device(true)], map[1 := Update(1, Some(1))], map[1 := Repo("r", false)], map[],
                         {}, {Link(1, 1)}, {}, {}, map[], {1});
            && Inv(db) && Condemned(db) == {1} && !SafeRepos(db)
            && DeleteUpdate(db, 1, Some(1)).1 == Failure(Statement(ForeignKeyViolation))
  {
    var db := Db(map[1 := Device(true)], map[1 := Update(1, Some(1))], map[1 := Repo("r", false)], map[],
                 {}, {Link(1, 1)}, {}, {}, map[], {1});
    assert Link(1, 1) in db.updateDevices;
    assert 1 in Condemned(db) && CommitHasRepo(db, 1);
    DeleteUpdateFailsExactly(db, 1, Some(1));
  }

  /** Deleting a device without updates breaks a foreign key exactly while one of its records belongs to an orphan
      update. */
  lemma DeviceDeletableExactly(db: Db, d: nat)
    requires Inv(db) && Deleted(db, d) && !HasUpdates(db, d)
    ensures DeleteDeviceRow(db, d).1 != Success <==>
            exists k :: k in db.updateRecords && Orphan(db, k) && db.records[k.other].device == d
  {
    if RecordsReached(db, d) {
      var k :| k in db.updateRecords && k.other in db.records && db.records[k.other].device == d;
      assert Link(k.update, d) !in db.updateDevices;
      assert Orphan(db, k);
    }
  }

  lemma DeleteDeviceKeeps(db: Db, d: nat)
    requires Inv(db) && (d in db.devices ==> db.devices[d].deleted)
    ensures var db' := DeleteDeviceRow(db, d).0;
            && Inv(db') && Shrinks(db, db') && ReposFollow(db, db') && db'.updates == db.updates
            && (DeleteDeviceRow(db, d).1 == Success ==> d !in db'.devices)
  {
    var db' := DeleteDeviceRow(db, d).0;
    ShrinksSelf(db);
    assert Shrinks(db, db');
    ShrinksKeepsLinks(db, db');
    assert db'.updates == db.updates;
    if db' != db {
      forall k | k in db'.updateRecords ensures k.other in db'.records {
        assert db.records[k.other].device != d;
      }
    }
  }

  // ----- progress -----

  function DeletedDevices(db: Db): set<nat> {
    set d | d in db.devices && Deleted(db, d)
  }

  /** The updates linked to deleted devices and the deleted devices. */
  function Measure(db: Db): nat {
    |Doomed(db)| + |DeletedDevices(db)|
  }

  predicate Gone(db: Db, c: Candidate) {
    if c.update.Some? then c.update.value !in db.updates else c.device !in db.devices
  }

  /** The measure never grows, and falls once one candidate is gone. */
  lemma MeasureFalls(db: Db, db': Db, c: Candidate)
    requires Valid(db) && Valid(db') && Shrinks(db, db')
    ensures Measure(db') <= Measure(db)
    ensures c in DeviceCandidates(db) && Gone(db', c) ==> Measure(db') < Measure(db)
  {
    assert Doomed(db') <= Doomed(db) && DeletedDevices(db') <= DeletedDevices(db);
    SubsetSize(Doomed(db'), Doomed(db));
    SubsetSize(DeletedDevices(db'), DeletedDevices(db));
    if c in DeviceCandidates(db) && Gone(db', c) {
      if c.update.Some? {
        assert c.update.value in Doomed(db) && c.update.value !in Doomed(db');
      } else {
        assert c.device in DeletedDevices(db) && c.device !in DeletedDevices(db');
      }
    }
  }

  /** A row of a candidate query, or a deleted device. */
  datatype Unit = RowUnit(device: nat, record: Option<nat>, update: nat, image: Option<nat>) | DeviceUnit(device: nat)

  function UnitOf(c: Candidate): Unit {
    if c.update.Some? then RowUnit(c.device, c.record, c.update.value, c.image) else DeviceUnit(c.device)
  }

  /** The rows of the first phase. */
  function OrphanUnits(db: Db): set<Unit> {
    set k, m | k in db.updateRecords && Orphan(db, k) && m in RowsOf(db, k.update) ::
      RowUnit(db.records[k.other].device, Some(k.other), k.update, m)
  }

  /** The rows of the second phase with an update. */
  function LinkUnits(db: Db): set<Unit> {
    set k, m | k in db.updateDevices && Deleted(db, k.other) && m in RowsOf(db, k.update) ::
      RowUnit(k.other, None, k.update, m)
  }

  /** All the work of the second phase. */
  function Units(db: Db): set<Unit> {
    LinkUnits(db) + set d | d in db.devices && Deleted(db, d) :: DeviceUnit(d)
  }

  predicate AllGone(db: Db, candidates: set<Candidate>) {
    forall c | c in candidates :: Gone(db, c)
  }

  /** Different candidates of one page stand for different units. */
  lemma {:induction false} PageUnits(candidates: set<Candidate>, page: seq<Candidate>) returns (units: set<Unit>)
    requires Distinct(page) && Elements(page) <= candidates
    requires forall c, d | c in candidates && d in candidates && UnitOf(c) == UnitOf(d) :: c == d
    ensures units == (set c | c in Elements(page) :: UnitOf(c)) && |units| == |page|
  {
    if page == [] {
      units := {};
      assert Elements(page) == {};
    } else {
      var last := |page| - 1;
      assert Elements(page) == Elements(page[..last]) + {page[last]};
      var before := PageUnits(candidates, page[..last]);
      assert page[last] !in Elements(page[..last]);
      assert UnitOf(page[last]) !in before;
      units := before + {UnitOf(page[last])};
    }
  }

  lemma SameSize(page: seq<Candidate>, candidates: set<Candidate>)
    requires Distinct(page) && Elements(page) <= candidates && |page| == |candidates|
    ensures Elements(page) == candidates
  {
    DistinctSize(page);
    assert candidates == Elements(page) + (candidates - Elements(page));
  }

  /** An error-free page of the first phase takes as many rows away as it has, and all of them when it has them all. */
  lemma OrphanPage(db: Db, db': Db, page: seq<Candidate>)
    requires Inv(db) && Inv(db') && Shrinks(db, db')
    requires Distinct(page) && Elements(page) <= OrphanCandidates(db) && AllGone(db', Elements(page))
    ensures |OrphanUnits(db')| + |page| <= |OrphanUnits(db)|
    ensures |page| == |OrphanCandidates(db)| ==> OrphanUnits(db') == {}
  {
    var units := PageUnits(OrphanCandidates(db), page);
    OrphanUnitsStay(db, db');
    forall c | c in Elements(page) ensures UnitOf(c) in OrphanUnits(db) && UnitOf(c) !in OrphanUnits(db') {
      assert c in OrphanCandidates(db) && Gone(db', c);
    }
    PartSizes(OrphanUnits(db'), units, OrphanUnits(db));
    if |page| == |OrphanCandidates(db)| {
      SameSize(page, OrphanCandidates(db));
      AllOrphansGone(db, db');
    }
  }

  lemma OrphanUnitsStay(db: Db, db': Db)
    requires Inv(db) && Inv(db') && Shrinks(db, db')
    ensures OrphanUnits(db') <= OrphanUnits(db)
  {
    ShrinksKeepsLinks(db, db');
    forall k, m | k in db'.updateRecords && Orphan(db', k) && m in RowsOf(db', k.update)
      ensures RowUnit(db'.records[k.other].device, Some(k.other), k.update, m) in OrphanUnits(db)
    {
      assert Orphan(db, k) && db.records[k.other] == db'.records[k.other] && m in RowsOf(db, k.update);
    }
  }

  lemma AllOrphansGone(db: Db, db': Db)
    requires Inv(db) && Inv(db') && Shrinks(db, db') && AllGone(db', OrphanCandidates(db))
    ensures OrphanUnits(db') == {}
  {
    ShrinksKeepsLinks(db, db');
    forall k | k in db.updateRecords && Orphan(db, k) ensures k.update !in db'.updates {
      var m :| m in RowsOf(db, k.update);
      assert CandidateOf(db, db.records[k.other].device, Some(k.other), k.update, m) in OrphanCandidates(db);
    }
  }

  lemma CandidateUnit(db: Db, c: Candidate)
    requires c in DeviceCandidates(db)
    ensures UnitOf(c) in Units(db)
  {
  }

  lemma GoneUnit(db: Db, c: Candidate)
    requires Valid(db) && Gone(db, c)
    ensures UnitOf(c) !in Units(db)
  {
  }

  /** The same for the second phase, where a page that has all candidates takes all links away, and everything when no
      link was left. */
  lemma DevicePage(db: Db, db': Db, page: seq<Candidate>)
    requires Valid(db) && Valid(db') && Shrinks(db, db')
    requires Distinct(page) && Elements(page) <= DeviceCandidates(db) && AllGone(db', Elements(page))
    ensures |Units(db')| + |page| <= |Units(db)| && LinkUnits(db') <= LinkUnits(db)
    ensures |page| == |DeviceCandidates(db)| ==> LinkUnits(db') == {} && (LinkUnits(db) == {} ==> Units(db') == {})
  {
    var units := PageUnits(DeviceCandidates(db), page);
    FewerUnits(db, db');
    forall c | c in Elements(page) ensures UnitOf(c) in Units(db) && UnitOf(c) !in Units(db') {
      CandidateUnit(db, c);
      GoneUnit(db', c);
    }
    assert Units(db') !! units;
    PartSizes(Units(db'), units, Units(db));
    if |page| == |DeviceCandidates(db)| {
      SameSize(page, DeviceCandidates(db));
      AllCandidatesGone(db, db');
    }
  }

  lemma FewerUnits(db: Db, db': Db)
    requires Valid(db') && Shrinks(db, db')
    ensures Units(db') <= Units(db) && LinkUnits(db') <= LinkUnits(db) && |Units(db')| <= |Units(db)|
  {
    FewerLinkUnits(db, db');
    var devices := set d | d in db.devices && Deleted(db, d) :: DeviceUnit(d);
    forall d | d in db'.devices && Deleted(db', d) ensures DeviceUnit(d) in devices {
      assert d in db.devices && Deleted(db, d);
    }
    SubsetSize(Units(db'), Units(db));
  }

  lemma FewerLinkUnits(db: Db, db': Db)
    requires Valid(db') && Shrinks(db, db')
    ensures LinkUnits(db') <= LinkUnits(db)
  {
    forall k, m | k in db'.updateDevices && Deleted(db', k.other) && m in RowsOf(db', k.update)
      ensures RowUnit(k.other, None, k.update, m) in LinkUnits(db)
    {
      assert k in db.updateDevices && Deleted(db, k.other) && m in RowsOf(db, k.update);
    }
  }

  lemma NoUnitsNoOrphans(db: Db)
    ensures OrphanUnits(db) == {} ==> NoOrphans(db)
  {
    if k :| k in db.updateRecords && Orphan(db, k) {
      var m :| m in RowsOf(db, k.update);
      assert RowUnit(db.records[k.other].device, Some(k.other), k.update, m) in OrphanUnits(db);
    }
  }

  lemma AllCandidatesGone(db: Db, db': Db)
    requires Valid(db) && Valid(db') && Shrinks(db, db') && AllGone(db', DeviceCandidates(db))
    ensures LinkUnits(db') == {} && (LinkUnits(db) == {} ==> Units(db') == {})
  {
    forall k | k in db.updateDevices && Deleted(db, k.other) ensures k.update !in db'.updates {
      var m :| m in RowsOf(db, k.update);
      assert CandidateOf(db, k.other, None, k.update, m) in DeviceCandidates(db);
    }
    if LinkUnits(db) == {} {
      forall d | d in db.devices && Deleted(db, d) ensures d !in db'.devices {
        NoLinkNoUpdates(db, d);
        assert DeviceOnly(d) in DeviceCandidates(db);
      }
    }
  }

  lemma LinkHasUnit(db: Db, k: Link)
    requires k in db.updateDevices && Deleted(db, k.other)
    ensures LinkUnits(db) != {}
  {
    var m :| m in RowsOf(db, k.update);
    assert RowUnit(k.other, None, k.update, m) in LinkUnits(db);
  }

  lemma NoLinkNoUpdates(db: Db, d: nat)
    requires LinkUnits(db) == {} && Deleted(db, d)
    ensures !HasUpdates(db, d)
  {
    if k :| k in db.updateDevices && k.other == d {
      LinkHasUnit(db, k);
    }
  }

  /** How far the second phase is after so many pages of the given size: full pages only, or one page that was not
      full, after which no link is left, or the end. */
  ghost predicate Progress(start: Db, db: Db, page: nat, limit: nat) {
    || |Units(db)| + limit * page <= |Units(start)|
    || (LinkUnits(db) == {} && page > 0 && |Units(db)| + limit * (page - 1) <= |Units(start)|)
    || Units(db) == {}
  }

  /** Candidates run out exactly when no deleted device is left. */
  lemma CandidatesExhausted(db: Db)
    ensures DeviceCandidates(db) == {} <==> (DeletedDevices(db) == {} && Doomed(db) == {})
    ensures DeviceCandidates(db) == {} <==> Units(db) == {}
  {
    if d: nat :| d in DeletedDevices(db) {
      assert DeviceUnit(d) in Units(db);
      if HasUpdates(db, d) {
        var k :| k in db.updateDevices && k.other == d;
        var m :| m in RowsOf(db, k.update);
        assert CandidateOf(db, d, None, k.update, m) in DeviceCandidates(db);
      } else {
        assert DeviceOnly(d) in DeviceCandidates(db);
      }
    } else {
      forall k | k in db.updateDevices ensures !Deleted(db, k.other) {
        assert Deleted(db, k.other) ==> k.other in DeletedDevices(db);
      }
      forall d | d in db.devices ensures !Deleted(db, d) {
        assert Deleted(db, d) ==> d in DeletedDevices(db);
      }
      assert LinkUnits(db) == {} && Units(db) == {};
    }
  }

  lemma OrphansExhausted(db: Db)
    ensures OrphanCandidates(db) == {} <==> NoOrphans(db)
  {
    if !NoOrphans(db) {
      var k :| k in db.updateRecords && Orphan(db, k);
      var m :| m in RowsOf(db, k.update);
      assert CandidateOf(db, db.records[k.other].device, Some(k.other), k.update, m) in OrphanCandidates(db);
    }
  }

  // ----- storage -----

  /** A repo built for an update loses its row or its address only after its folder has been deleted. */
  ghost predicate StorageFirst(db: Db, db': Db, folders: set<string>) {
    forall r | r in db.repos && UpdateRepoUrl(db.repos[r].url, r) ::
      (r in db'.repos && db'.repos[r] == db.repos[r]) || db.repos[r].url !in folders
  }

  /** The repo of the update was built for an update. */
  predicate HasUpdateRepo(db: Db, u: nat) {
    && u in db.updates && db.updates[u].repo.Some? && db.updates[u].repo.value in db.repos
    && UpdateRepoUrl(db.repos[db.updates[u].repo.value].url, db.updates[u].repo.value)
  }

  /** The repos built for condemned updates, and their folders. */
  function CondemnedRepos(db: Db): set<nat> {
    set u | u in Condemned(db) && HasUpdateRepo(db, u) :: db.updates[u].repo.value
  }

  function CondemnedFolders(db: Db): set<string> {
    set r | r in CondemnedRepos(db) && r in db.repos :: db.repos[r].url
  }

  /** A repo keeps its address, or loses it because of a condemned update. */
  ghost predicate AddressesStay(db: Db, db': Db) {
    forall r | r in db'.repos ::
      r in db.repos && (db'.repos[r] == db.repos[r] || (db'.repos[r] == CLEANED && r in CondemnedRepos(db)))
  }

  /** The folder of the update's repo has gone, and the address of the repo if that is still there. */
  ghost predicate Cleared(start: Db, db: Db, folders: set<string>, u: nat) {
    HasUpdateRepo(start, u) ==>
      var r := start.updates[u].repo.value;
      start.repos[r].url !in folders && (r in db.repos ==> db.repos[r] == CLEANED)
  }

  /** The folder and the address of an update's repo have gone before the update. */
  ghost predicate GoneCleared(db: Db, db': Db, folders: set<string>) {
    forall u | HasUpdateRepo(db, u) && u !in db'.updates :: Cleared(db, db', folders, u)
  }

  /** Folders only go, and only those of condemned updates. */
  ghost predicate Spared(db: Db, folders: set<string>, folders': set<string>) {
    folders - CondemnedFolders(db) <= folders' <= folders
  }

  lemma CondemnedReposShrink(db: Db, db': Db)
    requires Shrinks(db, db') && Linked(db) && AddressesStay(db, db')
    ensures CondemnedRepos(db') <= CondemnedRepos(db) && CondemnedFolders(db') <= CondemnedFolders(db)
  {
    CondemnedShrinks(db, db');
    forall u | u in Condemned(db') && HasUpdateRepo(db', u)
      ensures HasUpdateRepo(db, u) && db.repos[db.updates[u].repo.value] == db'.repos[db.updates[u].repo.value]
    {
      assert db'.updates[u] == db.updates[u];
    }
  }

  lemma AddressesStayAgain(a: Db, b: Db, c: Db)
    requires Shrinks(a, b) && Linked(a) && AddressesStay(a, b) && AddressesStay(b, c)
    ensures AddressesStay(a, c)
  {
    CondemnedReposShrink(a, b);
  }

  lemma GoneClearedAgain(a: Db, b: Db, c: Db, folders: set<string>, folders': set<string>)
    requires Shrinks(a, b) && Valid(b) && AddressesStay(a, b) && AddressesStay(b, c) && folders' <= folders
    requires GoneCleared(a, b, folders) && GoneCleared(b, c, folders') && StorageFirst(a, b, folders)
    ensures GoneCleared(a, c, folders')
  {
    forall u | HasUpdateRepo(a, u) && u !in c.updates
      ensures Cleared(a, c, folders', u)
    {
      var r := a.updates[u].repo.value;
      if u in b.updates {
        assert b.updates[u] == a.updates[u] && r in b.repos;
        if b.repos[r] == a.repos[r] {
          assert HasUpdateRepo(b, u);
        }
      }
    }
  }

  /** Only condemned updates go. */
  ghost predicate UpdatesStay(start: Db, db: Db) {
    start.updates.Keys - Condemned(start) <= db.updates.Keys
  }

  /** What a cleanup keeps from its start to any later moment. */
  ghost predicate Kept(start: Db, db: Db, folders: set<string>) {
    && Inv(db) && Shrinks(start, db) && ReposFollow(start, db) && UpdatesStay(start, db)
    && RestFollows(start, db)
    && StorageFirst(start, db, folders) && AddressesStay(start, db) && GoneCleared(start, db, folders)
  }

  lemma KeptSelf(db: Db, folders: set<string>)
    requires Inv(db)
    ensures Kept(db, db, folders)
  {
    ShrinksSelf(db);
    RestFollowsSteps(db, 0, None, 0);
  }

  lemma StorageFirstAgain(a: Db, b: Db, c: Db, folders: set<string>, folders': set<string>)
    requires StorageFirst(a, b, folders) && StorageFirst(b, c, folders') && folders' <= folders
    ensures StorageFirst(a, c, folders')
  {
    forall r | r in a.repos && UpdateRepoUrl(a.repos[r].url, r)
      ensures (r in c.repos && c.repos[r] == a.repos[r]) || a.repos[r].url !in folders'
    {
      if a.repos[r].url in folders' {
        assert a.repos[r].url in folders && b.repos[r] == a.repos[r];
      }
    }
  }

  lemma KeptAgain(a: Db, b: Db, c: Db, folders: set<string>, folders': set<string>)
    requires Inv(a) && Kept(a, b, folders) && Kept(b, c, folders') && folders' <= folders
    ensures Kept(a, c, folders')
  {
    ShrinksAgain(a, b, c);
    ReposFollowAgain(a, b, c);
    RestFollowsAgain(a, b, c);
    StorageFirstAgain(a, b, c, folders, folders');
    AddressesStayAgain(a, b, c);
    GoneClearedAgain(a, b, c, folders, folders');
    CondemnedShrinks(a, b);
  }

  lemma SparedLater(start: Db, db: Db, before: set<string>, folders: set<string>, folders': set<string>)
    requires Inv(start) && Kept(start, db, folders) && Spared(start, before, folders) && Spared(db, folders, folders')
    ensures Spared(start, before, folders')
  {
    CondemnedReposShrink(start, db);
  }

  lemma KeptLess(start: Db, db: Db, folders: set<string>, folders': set<string>)
    requires Kept(start, db, folders) && folders' <= folders
    ensures Kept(start, db, folders')
  {
  }

  /** The repo of the candidate was built for an update. */
  predicate HasFolder(c: Candidate) {
    c.repo.Some? && UpdateRepoUrl(c.url, c.repo.value)
  }

  lemma CandidateFolder(db: Db, c: Candidate, orphans: bool)
    requires c in Candidates(db, orphans) && HasFolder(c)
    ensures c.repo.value in CondemnedRepos(db) && c.repo.value in db.repos && db.repos[c.repo.value].url == c.url
    ensures c.url in CondemnedFolders(db)
  {
    assert c.update.value in Condemned(db) && HasUpdateRepo(db, c.update.value);
  }

  lemma CleanRepoStorage(start: Db, db: Db, folders: set<string>, r: nat)
    requires StorageFirst(start, db, folders) && AddressesStay(start, db) && GoneCleared(start, db, folders)
    requires r in CondemnedRepos(start) && (r in start.repos ==> start.repos[r].url !in folders)
    ensures var db' := CleanRepo(db, r);
            StorageFirst(start, db', folders) && AddressesStay(start, db') && GoneCleared(start, db', folders)
  {
    var db' := CleanRepo(db, r);
    forall u | HasUpdateRepo(start, u) && u !in db'.updates ensures Cleared(start, db', folders, u) {
      assert Cleared(start, db, folders, u);
    }
  }

  /** The address of a repo is cleaned when its folder is gone. */
  lemma CleanRepoKept(start: Db, db: Db, folders: set<string>, r: nat)
    requires Kept(start, db, folders) && r in CondemnedRepos(start)
    requires r in start.repos ==> start.repos[r].url !in folders
    ensures Kept(start, CleanRepo(db, r), folders)
  {
    var db' := CleanRepo(db, r);
    assert db' == db.(repos := db'.repos) && db'.repos.Keys == db.repos.Keys;
    assert Shrinks(start, db');
    CleanRepoStorage(start, db, folders, r);
  }

  lemma DeleteUpdateRest(db: Db, u: nat, repo: Option<nat>)
    ensures var db' := DeleteUpdate(db, u, repo).0;
            && (forall r | r in db'.repos :: r in db.repos && db'.repos[r] == db.repos[r])
            && (forall r | r in db.repos && r !in db'.repos :: repo == Some(r))
            && (forall v | v in db.updates && v != u :: v in db'.updates)
  {
  }

  lemma DeleteUpdateStorage(start: Db, db: Db, folders: set<string>, u: nat)
    requires Valid(start) && u in start.updates && Cleared(start, db, folders, u)
    requires StorageFirst(start, db, folders) && AddressesStay(start, db) && GoneCleared(start, db, folders)
    ensures var db' := DeleteUpdate(db, u, start.updates[u].repo).0;
            StorageFirst(start, db', folders) && AddressesStay(start, db') && GoneCleared(start, db', folders)
  {
    var db' := DeleteUpdate(db, u, start.updates[u].repo).0;
    DeleteUpdateRest(db, u, start.updates[u].repo);
    forall v | HasUpdateRepo(start, v) && v !in db'.updates ensures Cleared(start, db', folders, v) {
      assert v == u || v !in db.updates;
    }
  }

  lemma DeleteUpdateFollows(start: Db, db: Db, u: nat)
    requires Inv(start) && Inv(db) && Shrinks(start, db) && ReposFollow(start, db) && RestFollows(start, db)
    requires u in start.updates
    ensures var (db', result) := DeleteUpdate(db, u, start.updates[u].repo);
            && Inv(db') && Shrinks(start, db') && ReposFollow(start, db') && RestFollows(start, db')
            && (result == Success ==> u !in db'.updates)
  {
    var repo := start.updates[u].repo;
    var db' := DeleteUpdate(db, u, repo).0;
    StaysCurrent(start, db, u);
    DeleteUpdateKeeps(db, u, repo);
    DeleteUpdateRepos(db, u, repo);
    ShrinksAgain(start, db, db');
    ReposFollowAgain(start, db, db');
    RestFollowsSteps(db, u, repo, 0);
    RestFollowsAgain(start, db, db');
  }

  lemma DeleteUpdateKept(start: Db, db: Db, folders: set<string>, u: nat)
    requires Inv(start) && Kept(start, db, folders) && u in start.updates && u in Condemned(start)
    requires Cleared(start, db, folders, u)
    ensures Kept(start, DeleteUpdate(db, u, start.updates[u].repo).0, folders)
    ensures DeleteUpdate(db, u, start.updates[u].repo).1 == Success ==>
              u !in DeleteUpdate(db, u, start.updates[u].repo).0.updates
  {
    DeleteUpdateFollows(start, db, u);
    DeleteUpdateRest(db, u, start.updates[u].repo);
    DeleteUpdateStorage(start, db, folders, u);
  }

  lemma DeleteDeviceKept(start: Db, db: Db, folders: set<string>, d: nat)
    requires Kept(start, db, folders) && (d in db.devices ==> db.devices[d].deleted)
    ensures Kept(start, DeleteDeviceRow(db, d).0, folders)
  {
    DeleteDeviceKeeps(db, d);
    ShrinksAgain(start, db, DeleteDeviceRow(db, d).0);
    ReposFollowAgain(start, db, DeleteDeviceRow(db, d).0);
    RestFollowsSteps(db, 0, None, d);
    RestFollowsAgain(start, db, DeleteDeviceRow(db, d).0);
  }

  /** A device that had no update when its page was read can be deleted at any later moment of the page. */
  lemma DeviceCandidateDeletable(start: Db, db: Db, d: nat)
    requires Inv(db) && Shrinks(start, db) && Linked(start) && Deleted(start, d) && !HasUpdates(start, d)
    ensures d in db.devices ==> db.devices[d].deleted
    ensures NoOrphans(start) ==> DeleteDeviceRow(db, d).1 == Success
  {
    ShrinksKeepsLinks(start, db);
    assert !HasUpdates(db, d);
    if d in db.devices {
      DeviceDeletableExactly(db, d);
    }
  }

  // ----- when the cleanup can succeed -----

  /** The repo of the update is also the repo of a commit. */
  predicate CommitHasRepo(db: Db, u: nat) {
    u in db.updates && db.updates[u].repo.Some? && db.updates[u].repo.value in db.commitRepos
  }

  /** An update that stays uses the repo of update u. */
  ghost predicate Sheltered(db: Db, u: nat)
    requires u in db.updates
  {
    exists v :: v in db.updates && v !in Condemned(db) && db.updates[v].repo == db.updates[u].repo
  }

  /** Every repo that a commit and a condemned update use is used by an update that stays. */
  ghost predicate SafeRepos(db: Db) {
    forall u | u in Condemned(db) && CommitHasRepo(db, u) :: Sheltered(db, u)
  }

  lemma SafeDeletable(start: Db, db: Db, folders: set<string>, u: nat)
    requires SafeRepos(start) && Kept(start, db, folders) && u in Condemned(start) && u in start.updates
    ensures DeleteUpdate(db, u, start.updates[u].repo).1 == Success
  {
    DeleteUpdateFailsExactly(db, u, start.updates[u].repo);
    if CommitHasRepo(start, u) {
      var v :| v in start.updates && v !in Condemned(start) && start.updates[v].repo == start.updates[u].repo;
      assert v in db.updates && db.updates[v].repo == start.updates[u].repo;
    }
  }

  lemma SafeReposStay(start: Db, db: Db, folders: set<string>)
    requires Inv(start) && Kept(start, db, folders) && SafeRepos(start)
    ensures SafeRepos(db)
  {
    CondemnedShrinks(start, db);
    forall u | u in Condemned(db) && CommitHasRepo(db, u) ensures Sheltered(db, u) {
      assert u in Condemned(start) && CommitHasRepo(start, u);
      var v :| v in start.updates && v !in Condemned(start) && start.updates[v].repo == start.updates[u].repo;
      assert v in db.updates && v !in Condemned(db) && db.updates[v].repo == db.updates[u].repo;
    }
  }

  /** Once all condemned updates are gone, none of their repos can have been without shelter: the repo would be gone
      with its last update, although a commit has it. */
  lemma AllGoneMeansSafe(start: Db, db: Db, folders: set<string>)
    requires Inv(start) && Kept(start, db, folders) && Condemned(start) !! db.updates.Keys
    ensures SafeRepos(start)
  {
    forall u | u in Condemned(start) && CommitHasRepo(start, u) ensures Sheltered(start, u) {
      var r := start.updates[u].repo.value;
      assert RepoUsed(start, r) && r in db.repos;
      var v :| v in db.updates && db.updates[v].repo == Some(r);
      assert v !in Condemned(start);
    }
  }

  /** When both phases have left nothing, the condemned updates are gone. */
  lemma NothingLeft(start: Db, middle: Db, db: Db, folders: set<string>, folders': set<string>)
    requires Inv(start) && Kept(start, middle, folders) && Kept(middle, db, folders')
    requires NoOrphans(middle) && Units(db) == {}
    ensures Condemned(start) !! db.updates.Keys
  {
    ShrinksAgain(start, middle, db);
    ShrinksKeepsLinks(start, middle);
    forall k | k in start.updateRecords && Orphan(start, k) ensures k.update !in db.updates {
      if k.update in db.updates {
        OrphanStays(start, middle, k);
      }
    }
    forall k | k in start.updateDevices && Deleted(start, k.other) ensures k.update !in db.updates {
      if k.update in db.updates {
        LinkHasUnit(db, k);
      }
    }
  }

  /** An orphan stays one while its update is there. */
  lemma OrphanStays(start: Db, db: Db, k: Link)
    requires Inv(start) && Inv(db) && Shrinks(start, db) && k in start.updateRecords && Orphan(start, k)
    requires k.update in db.updates
    ensures k in db.updateRecords && Orphan(db, k)
  {
    assert k in db.updateRecords && k.other in db.records;
    assert !HasDevices(db, k.update);
  }

  // ----- what is left at the end -----

  predicate LiveDevice(db: Db, d: nat) {
    d in db.devices && !db.devices[d].deleted
  }

  /** An update that is not condemned uses the repo. */
  ghost predicate UsedByOther(db: Db, r: nat) {
    exists u :: u in db.updates && u !in Condemned(db) && db.updates[u].repo == Some(r)
  }

  /** The live devices with their groups and dispatch records, the updates that are not condemned with their old
      commits, and the repos that such an update, or no update at all, uses; and nothing else. */
  ghost predicate OnlyRestLeft(start: Db, db: Db) {
    && (forall d :: d in db.devices <==> LiveDevice(start, d))
    && (forall m :: m in db.groups <==> m in start.groups && LiveDevice(start, m.device))
    && (forall x :: x in db.records <==> x in start.records && LiveDevice(start, start.records[x].device))
    && db.updates.Keys == start.updates.Keys - Condemned(start)
    && (forall k :: k in db.updateCommits <==> k in start.updateCommits && k.update !in Condemned(start))
    && (forall r :: r in db.repos <==> r in start.repos && (RepoUsed(start, r) ==> UsedByOther(start, r)))
  }

  lemma RestLeft(start: Db, db: Db, folders: set<string>)
    requires Inv(start) && Kept(start, db, folders) && Units(db) == {} && Condemned(start) !! db.updates.Keys
    ensures OnlyRestLeft(start, db)
  {
    CandidatesExhausted(db);
    forall d ensures d in db.devices <==> LiveDevice(start, d) {
      assert d in db.devices ==> d !in DeletedDevices(db) && db.devices[d] == start.devices[d];
    }
    forall k ensures k in db.updateCommits <==> k in start.updateCommits && k.update !in Condemned(start) {}
    ReposLeft(start, db, folders);
  }

  lemma ReposLeft(start: Db, db: Db, folders: set<string>)
    requires Kept(start, db, folders) && db.updates.Keys == start.updates.Keys - Condemned(start)
    ensures forall r :: r in db.repos <==> r in start.repos && (RepoUsed(start, r) ==> UsedByOther(start, r))
  {
    forall r | r in start.repos ensures RepoUsed(db, r) <==> UsedByOther(start, r) {
      if u :| u in db.updates && db.updates[u].repo == Some(r) {
        assert start.updates[u].repo == Some(r);
      }
      if u :| u in start.updates && u !in Condemned(start) && start.updates[u].repo == Some(r) {
        assert u in db.updates;
      }
    }
  }

  // ----- storage at the end -----

  /** Once the condemned updates are gone, exactly the folders of their repos have gone, and exactly those repos that
      stay for another update or a commit have lost their address. */
  lemma StorageAtEnd(start: Db, db: Db, folders: set<string>, folders': set<string>)
    requires Kept(start, db, folders') && Spared(start, folders, folders') && Condemned(start) !! db.updates.Keys
    ensures folders' == folders - CondemnedFolders(start)
    ensures forall r | r in db.repos :: db.repos[r] == if r in CondemnedRepos(start) then CLEANED else start.repos[r]
  {
    forall u | u in Condemned(start) && HasUpdateRepo(start, u)
      ensures Cleared(start, db, folders', u)
    {
      assert u !in db.updates;
    }
  }

  /** An update that stays keeps the folder of its repo exactly when no condemned update has a repo with that address,
      and the address exactly when none has that repo. */
  lemma StayingUpdateKeepsFolderExactly(db: Db, u: nat)
    requires HasUpdateRepo(db, u) && u !in Condemned(db)
    ensures var r := db.updates[u].repo.value;
            && (db.repos[r].url !in CondemnedFolders(db) <==>
                forall v | v in Condemned(db) && HasUpdateRepo(db, v) ::
                  db.repos[db.updates[v].repo.value].url != db.repos[r].url)
            && (r !in CondemnedRepos(db) <==> forall v | v in Condemned(db) && v in db.updates ::
                  db.updates[v].repo != Some(r))
  {
    var r := db.updates[u].repo.value;
    if v :| v in Condemned(db) && v in db.updates && db.updates[v].repo == Some(r) {
      assert HasUpdateRepo(db, v) && r in CondemnedRepos(db);
    }
    if v :| v in Condemned(db) && HasUpdateRepo(db, v) && db.repos[db.updates[v].repo.value].url == db.repos[r].url {
      assert db.updates[v].repo.value in CondemnedRepos(db);
    }
  }

  /** A deleted and a live device with an update each on one repo: the update of the live one stays, its folder goes. */
  lemma StayingUpdateLosesFolder()
    ensures var updates := map[1 := Update(1, Some(1)), 2 := Update(1, Some(1))];
            var db := Db(map[1 := Device(true), 2 := Device(false)], updates, map[1 := Repo("/upd/", false)], map[],
                         {}, {Link(1, 1), Link(2, 2)}, {}, {}, map[], {});
            && Inv(db) && SafeRepos(db) && 2 !in Condemned(db) && HasUpdateRepo(db, 2)
            && "/upd/" in CondemnedFolders(db) && 1 in CondemnedRepos(db)
  {
    var updates := map[1 := Update(1, Some(1)), 2 := Update(1, Some(1))];
    var db := Db(map[1 := Device(true), 2 := Device(false)], updates, map[1 := Repo("/upd/", false)], map[],
                 {}, {Link(1, 1), Link(2, 2)}, {}, {}, map[], {});
    assert Link(1, 1) in db.updateDevices;
    assert Contains("/upd/", "/upd/") by { assert "/upd/" <= "/upd/"[0..]; }
    assert HasUpdateRepo(db, 1) && HasUpdateRepo(db, 2);
    StayingUpdateKeepsFolderExactly(db, 2);
  }

  // ----- transactions that overlap -----

  /** Some update that uses the repo is not among the given ones. */
  ghost predicate UsedBeside(db: Db, r: nat, without: set<nat>) {
    exists u :: u in db.updates && u !in without && db.updates[u].repo == Some(r)
  }

  /** A transaction keeps a repo exactly when it is not that of its update, or another update uses it. */
  lemma DeleteOfRepo(db: Db, u: nat, r: nat)
    requires u in db.updates && DeleteUpdate(db, u, db.updates[u].repo).1 == Success && r in db.repos
    ensures r in DeleteUpdate(db, u, db.updates[u].repo).0.repos <==>
            db.updates[u].repo != Some(r) || UsedBeside(db, r, {u})
  {
    var db1 := WithoutUpdate(db, u);
    assert RepoUsed(db1, r) <==> UsedBeside(db, r, {u}) by {
      if w :| w in db.updates && w !in {u} && db.updates[w].repo == Some(r) {
        assert w in db1.updates;
      }
    }
  }

  /** Two transactions when neither sees that the other deletes its update: each keeps the repo for the other. */
  function DeleteBoth(db: Db, u: nat, v: nat): Db
    requires u in db.updates && v in db.updates
  {
    var one := DeleteUpdate(db, u, db.updates[u].repo).0;
    var other := DeleteUpdate(db, v, db.updates[v].repo).0;
    WithoutUpdate(one, v).(repos := map r | r in one.repos && r in other.repos :: one.repos[r])
  }

  /** Both updates are there, and each transaction alone would succeed. */
  ghost predicate BothReady(db: Db, u: nat, v: nat) {
    && u in db.updates && v in db.updates && u != v
    && DeleteUpdate(db, u, db.updates[u].repo).1 == Success && DeleteUpdate(db, v, db.updates[v].repo).1 == Success
  }

  /** Overlapping transactions leave a repo behind exactly when they delete its last two updates. */
  lemma OverlapLeavesRepo(db: Db, u: nat, v: nat)
    requires Valid(db) && BothReady(db, u, v)
    ensures ReposFollow(db, DeleteBoth(db, u, v)) <==>
            !(db.updates[u].repo.Some? && db.updates[u].repo == db.updates[v].repo &&
              !UsedBeside(db, db.updates[u].repo.value, {u, v}))
  {
    forall r | r in db.repos && RepoUsed(db, r)
      ensures (r in DeleteBoth(db, u, v).repos <==> RepoUsed(DeleteBoth(db, u, v), r)) <==>
              !(db.updates[u].repo == Some(r) && db.updates[v].repo == Some(r) && !UsedBeside(db, r, {u, v}))
    {
      OverlapOfRepo(db, u, v, r);
    }
    if db.updates[u].repo.Some? {
      assert RepoUsed(db, db.updates[u].repo.value);
    }
  }

  /** One repo, two updates, both deleted by transactions that overlap: the repo stays and nothing uses it. */
  lemma RepoLeftBehind()
    ensures var db := Db(map[], map[1 := Update(1, Some(1)), 2 := Update(1, Some(1))], map[1 := Repo("r", false)],
                         map[], {}, {}, {}, {}, map[], {});
            Valid(db) && BothReady(db, 1, 2) && !ReposFollow(db, DeleteBoth(db, 1, 2))
  {
    var db := Db(map[], map[1 := Update(1, Some(1)), 2 := Update(1, Some(1))], map[1 := Repo("r", false)],
                 map[], {}, {}, {}, {}, map[], {});
    DeleteUpdateFailsExactly(db, 1, Some(1));
    DeleteUpdateFailsExactly(db, 2, Some(1));
    OverlapLeavesRepo(db, 1, 2);
  }

  lemma OverlapOfRepo(db: Db, u: nat, v: nat, r: nat)
    requires BothReady(db, u, v) && r in db.repos && RepoUsed(db, r)
    ensures (r in DeleteBoth(db, u, v).repos <==> RepoUsed(DeleteBoth(db, u, v), r)) <==>
            !(db.updates[u].repo == Some(r) && db.updates[v].repo == Some(r) && !UsedBeside(db, r, {u, v}))
  {
    DeleteOfRepo(db, u, r);
    DeleteOfRepo(db, v, r);
    BothUsedBeside(db, u, v, r);
    var both := DeleteBoth(db, u, v);
    assert both.updates == db.updates - {u} - {v};
    if w :| w in db.updates && w !in {u, v} && db.updates[w].repo == Some(r) {
      assert w in both.updates;
    }
  }

  /** Which of two updates have another one beside them that uses the repo. */
  lemma BothUsedBeside(db: Db, u: nat, v: nat, r: nat)
    requires u in db.updates && v in db.updates && u != v
    ensures UsedBeside(db, r, {u}) <==> db.updates[v].repo == Some(r) || UsedBeside(db, r, {u, v})
    ensures UsedBeside(db, r, {v}) <==> db.updates[u].repo == Some(r) || UsedBeside(db, r, {u, v})
    ensures RepoUsed(db, r) <==>
            db.updates[u].repo == Some(r) || db.updates[v].repo == Some(r) || UsedBeside(db, r, {u, v})
  {
    if w :| w in db.updates && w !in {u} && db.updates[w].repo == Some(r) {
      assert w == v || w !in {u, v};
    }
    if w :| w in db.updates && w !in {v} && db.updates[w].repo == Some(r) {
      assert w == u || w !in {u, v};
    }
    if w :| w in db.updates && db.updates[w].repo == Some(r) {
      assert w == u || w == v || w !in {u, v};
    }
  }
}
