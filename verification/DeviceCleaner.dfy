/** The permanent cleanup of deleted devices, page by page. The goroutines of a page interleave between their calls to
    storage, their statements and their transactions. */
module DeviceCleaner {
  import opened Goroutines
  import opened Options
  import opened Sums
  import opened Tables

  import opened DeviceCleanup

  const LIMIT := 100
  const MAX_PAGES := 3000

  // ----- the goroutine of a candidate -----

  /** The goroutine deletes the folder of an update repo, cleans the address of the repo, and ends with a transaction;
      without an update there is only the transaction. */
  const STEPS := 3

  function WithoutFolder(c: Candidate, folders: set<string>): set<string> {
    if HasFolder(c) then folders - {c.url} else folders
  }

  function WithoutAddress(c: Candidate, db: Db): Db {
    if HasFolder(c) then CleanRepo(db, c.repo.value) else db
  }

  /** The transaction: the update of the candidate, or its device. */
  function Transaction(c: Candidate, db: Db): (Db, Result) {
    if c.update.Some? then DeleteUpdate(db, c.update.value, c.repo) else DeleteDeviceRow(db, c.device)
  }

  /** The next step of the goroutine when it meets no error. */
  function Step(c: Candidate, left: nat, s: State): State {
    if left == 3 then s.(folders := WithoutFolder(c, s.folders))
    else if left == 2 then s.(db := WithoutAddress(c, s.db))
    else s.(db := Transaction(c, s.db).0)
  }

  /** The transaction at the end of the goroutine breaks no foreign key. */
  predicate Free(c: Candidate, left: nat, s: State) {
    left == 1 ==> Transaction(c, s.db).1 == Success
  }

  ghost predicate Keeps(start: Db, s: State) {
    match s
    case State(db, folders) => Kept(start, db, folders)
  }

  /** The goroutine of the candidate is that far. */
  predicate At(start: Db, s: State, c: Candidate, left: nat, orphans: bool) {
    && c in Candidates(start, orphans) && left <= STEPS
    && (left <= 2 && HasFolder(c) ==> c.url !in s.folders)
    && (left <= 1 && HasFolder(c) && c.repo.value in s.db.repos ==> s.db.repos[c.repo.value] == CLEANED)
    && (left == 0 ==> Gone(s.db, c))
  }

  /** Rows, addresses and folders only go. */
  predicate Fewer(s: State, s': State) {
    && s'.db.devices.Keys <= s.db.devices.Keys && s'.db.updates.Keys <= s.db.updates.Keys
    && s'.folders <= s.folders
    && forall r | r in s'.db.repos :: r in s.db.repos && s'.db.repos[r] in {s.db.repos[r], CLEANED}
  }

  /** A candidate read from valid tables knows the repo of its update. */
  lemma CandidateRepo(start: Db, c: Candidate, orphans: bool)
    requires Inv(start) && c in Candidates(start, orphans)
    ensures c.deleted
    ensures c.update.Some? ==> c.update.value in start.updates && c.repo == start.updates[c.update.value].repo
    ensures c.repo.Some? ==> c.update.Some? && c.repo.value in start.repos && c.url == start.repos[c.repo.value].url
    ensures c.update.None? ==> !orphans && c == DeviceOnly(c.device)
    ensures c.update.None? ==> Deleted(start, c.device) && !HasUpdates(start, c.device)
  {
  }

  /** A step keeps what it should and brings the goroutine forward. */
  lemma StepKeeps(start: Db, s: State, c: Candidate, left: nat, orphans: bool)
    requires Inv(start) && Keeps(start, s) && At(start, s, c, left, orphans) && left > 0 && Free(c, left, s)
    ensures var s' := Step(c, left, s); Keeps(start, s') && Fewer(s, s') && At(start, s', c, left - 1, orphans)
    ensures Spared(start, s.folders, Step(c, left, s).folders)
  {
    if left == 3 {
      FolderKeeps(start, s, c, orphans);
    } else if left == 2 {
      AddressKeeps(start, s, c, orphans);
    } else {
      TransactionKeeps(start, s, c, orphans);
    }
  }

  lemma FolderKeeps(start: Db, s: State, c: Candidate, orphans: bool)
    requires Inv(start) && Keeps(start, s) && At(start, s, c, 3, orphans)
    ensures var s' := s.(folders := WithoutFolder(c, s.folders));
            Keeps(start, s') && Fewer(s, s') && At(start, s', c, 2, orphans) && Spared(start, s.folders, s'.folders)
  {
    KeptLess(start, s.db, s.folders, WithoutFolder(c, s.folders));
    if HasFolder(c) { CandidateFolder(start, c, orphans); }
  }

  lemma AddressKeeps(start: Db, s: State, c: Candidate, orphans: bool)
    requires Inv(start) && Keeps(start, s) && At(start, s, c, 2, orphans)
    ensures var s' := s.(db := WithoutAddress(c, s.db));
            Keeps(start, s') && Fewer(s, s') && At(start, s', c, 1, orphans)
  {
    AddressSteps(start, s, c, orphans);
    if HasFolder(c) {
      CandidateFolder(start, c, orphans);
      CleanRepoKept(start, s.db, s.folders, c.repo.value);
    }
  }

  lemma AddressSteps(start: Db, s: State, c: Candidate, orphans: bool)
    requires At(start, s, c, 2, orphans)
    ensures var s' := s.(db := WithoutAddress(c, s.db)); Fewer(s, s') && At(start, s', c, 1, orphans)
  {
  }

  lemma TransactionKeeps(start: Db, s: State, c: Candidate, orphans: bool)
    requires Inv(start) && Keeps(start, s) && At(start, s, c, 1, orphans) && Free(c, 1, s)
    ensures var s' := s.(db := Transaction(c, s.db).0); Keeps(start, s') && Fewer(s, s') && Gone(s'.db, c)
  {
    CandidateRepo(start, c, orphans);
    if c.update.Some? {
      CandidateCondemned(start, c, orphans);
      DeleteUpdateKept(start, s.db, s.folders, c.update.value);
    } else {
      DeviceCandidateDeletable(start, s.db, c.device);
      DeleteDeviceKept(start, s.db, s.folders, c.device);
    }
  }

  /** Nothing in the tables stands in the way of the candidates of a phase. */
  ghost predicate Clean(start: Db, orphans: bool) {
    SafeRepos(start) && (orphans || NoOrphans(start))
  }

  /** Then the transactions break no foreign key. */
  lemma CleanIsFree(start: Db, s: State, c: Candidate, left: nat, orphans: bool)
    requires Inv(start) && Keeps(start, s) && At(start, s, c, left, orphans) && Clean(start, orphans)
    ensures Free(c, left, s)
  {
    CandidateRepo(start, c, orphans);
    if c.update.Some? {
      CandidateCondemned(start, c, orphans);
      SafeDeletable(start, s.db, s.folders, c.update.value);
    } else {
      DeviceCandidateDeletable(start, s.db, c.device);
    }
  }

  // ----- the goroutines of a page -----

  predicate PageAt(start: Db, s: State, page: seq<Candidate>, gs: seq<Goroutine>, orphans: bool) {
    && |gs| == |page|
    && forall k | 0 <= k < |page| && gs[k].Running? :: At(start, s, page[k], gs[k].left, orphans)
  }

  lemma PageStarts(start: Db, folders: set<string>, page: seq<Candidate>, orphans: bool)
    requires Elements(page) <= Candidates(start, orphans)
    ensures PageAt(start, State(start, folders), page, Started(|page|, STEPS), orphans)
  {
    assert forall k | 0 <= k < |page| :: page[k] in Elements(page);
  }

  /** While one goroutine takes a step the others stay where they are. */
  lemma PageSteps(start: Db, s: State, s': State, page: seq<Candidate>, gs: seq<Goroutine>, k: nat, g: Goroutine,
                  orphans: bool)
    requires PageAt(start, s, page, gs, orphans) && k < |page| && Fewer(s, s')
    requires g.Running? ==> At(start, s', page[k], g.left, orphans)
    ensures PageAt(start, s', page, gs[k := g], orphans)
  {
    forall j | 0 <= j < |page| && j != k && gs[j].Running? ensures At(start, s', page[j], gs[j].left, orphans) {
      assert At(start, s, page[j], gs[j].left, orphans);
      assert gs[j].left == 0 ==> Gone(s'.db, page[j]);
    }
  }

  lemma PageDone(start: Db, s: State, page: seq<Candidate>, gs: seq<Goroutine>, orphans: bool)
    requires PageAt(start, s, page, gs, orphans) && Unfinished(gs) == {} && NoneBroken(gs)
    ensures AllGone(s.db, Elements(page))
  {
    forall c | c in Elements(page) ensures Gone(s.db, c) {
      var k: nat :| k < |page| && page[k] == c;
      AllDone(gs, k);
      assert At(start, s, page[k], 0, orphans);
    }
  }

  class Cleaner {
    /** The tables of the database. */
    var db: Db
    /** The folders in storage, by the address of the repo. */
    var folders: set<string>
    /** Statements and storage calls do not fail. */
    const reliable: bool
    /** The feature flag. */
    const enabled: bool

    constructor (db: Db, folders: set<string>, reliable: bool, enabled: bool)
      ensures this.db == db && this.folders == folders && this.reliable == reliable && this.enabled == enabled
    {
      this.db, this.folders, this.reliable, this.enabled := db, folders, reliable, enabled;
    }

    ghost function Now(): State
      reads this
    {
      State(db, folders)
    }

    method DeleteAWSFolder(url: string) returns (failed: bool)
      modifies this`folders
      ensures failed ==> !reliable && folders == old(folders)
      ensures !failed ==> folders == old(folders) - {url}
    {
      failed := Faults(reliable);
      if !failed {
        folders := folders - {url};
      }
    }

    /** The folder of an update repo. */
    method DeleteFolder(c: Candidate) returns (result: Result)
      modifies this`folders
      ensures result == Success ==> folders == WithoutFolder(c, old(folders))
      ensures result != Success ==> !reliable && result == Failure(StorageFault) && folders == old(folders)
    {
      if HasFolder(c) {
        var failed := DeleteAWSFolder(c.url);
        if failed { return Failure(StorageFault); }
      }
      result := Success;
    }

    /** The address of the repo whose folder is gone. */
    method CleanAddress(c: Candidate) returns (result: Result)
      modifies this`db
      ensures result == Success ==> db == WithoutAddress(c, old(db))
      ensures result != Success ==> !reliable && result == Failure(Statement(DatabaseFault)) && db == old(db)
    {
      if HasFolder(c) {
        var failed := Faults(reliable);
        if failed { return Failure(Statement(DatabaseFault)); }
        if c.repo.value in db.repos {
          db := db.(repos := db.repos[c.repo.value := Repo("", true)]);
        }
      }
      result := Success;
    }

    /** One transaction: a failed statement leaves nothing behind. */
    method DeleteUpdateTransaction(c: Candidate) returns (result: Result)
      modifies this`db
      ensures !c.deleted <==> result == Failure(NotCandidate)
      ensures c.deleted && c.update.None? <==> result == Failure(UpdateNotDefined)
      ensures result == Success ==> (db, Success) == DeleteUpdate(old(db), c.update.value, c.repo)
      ensures result != Success ==> db == old(db)
      ensures c.deleted && c.update.Some? && result != Success ==>
                (result == Failure(Statement(DatabaseFault)) && !reliable) ||
                result == DeleteUpdate(old(db), c.update.value, c.repo).1
    {
      if !c.deleted { return Failure(NotCandidate); }
      if c.update.None? { return Failure(UpdateNotDefined); }
      var failed := Faults(reliable);
      if failed { return Failure(Statement(DatabaseFault)); }
      var u := c.update.value;
      var tx := db;
      tx := tx.(updateRecords := set k | k in tx.updateRecords && k.update != u);
      tx := tx.(updateDevices := set k | k in tx.updateDevices && k.update != u);
      tx := tx.(updateCommits := set k | k in tx.updateCommits && k.update != u);
      tx := tx.(updates := tx.updates - {u});
      if c.repo.Some? {
        var repoOtherUpdates := set v | v in tx.updates && tx.updates[v].repo == Some(c.repo.value);
        assert repoOtherUpdates == {} <==> !RepoUsed(tx, c.repo.value) by {
          if RepoUsed(tx, c.repo.value) {
            var v :| v in tx.updates && tx.updates[v].repo == Some(c.repo.value);
            assert v in repoOtherUpdates;
          }
        }
        if |repoOtherUpdates| == 0 {
          if c.repo.value in tx.commitRepos { return Failure(Statement(ForeignKeyViolation)); }
          tx := tx.(repos := tx.repos - {c.repo.value});
        }
      }
      db := tx;
      result := Success;
    }

    /** One transaction: the dispatch records and groups of the device, and the device. */
    method DeleteDevice(c: Candidate) returns (result: Result)
      modifies this`db
      ensures !c.deleted <==> result == Failure(NotCandidate)
      ensures c.deleted && c.update.Some? <==> result == Failure(DeviceWithUpdate)
      ensures result == Success ==> (db, Success) == DeleteDeviceRow(old(db), c.device)
      ensures result == Success ==> forall m :: m in db.groups <==> m in old(db).groups && m.device != c.device
      ensures result != Success ==> db == old(db)
      ensures c.deleted && c.update.None? && result != Success ==>
                (result == Failure(Statement(DatabaseFault)) && !reliable) ||
                result == DeleteDeviceRow(old(db), c.device).1
    {
      if !c.deleted { return Failure(NotCandidate); }
      if c.update.Some? { return Failure(DeviceWithUpdate); }
      var failed := Faults(reliable);
      if failed { return Failure(Statement(DatabaseFault)); }
      var d := c.device;
      if RecordsReached(db, d) || HasUpdates(db, d) { return Failure(Statement(ForeignKeyViolation)); }
      var tx := db;
      tx := tx.(records := map x | x in tx.records && tx.records[x].device != d :: tx.records[x]);
      tx := tx.(groups := set m | m in tx.groups && m.device != d);
      db := tx.(devices := tx.devices - {d});
      result := Success;
    }

    /** One goroutine alone: the folder of an update repo, its address, then the rows; a storage failure changes no
        row. */
    method CleanUpUpdateTransaction(c: Candidate) returns (result: Result)
      modifies this`db, this`folders
      ensures !c.deleted <==> result == Failure(NotCandidate)
      ensures c.deleted && c.update.None? <==> result == Failure(UpdateNotDefined)
      ensures result in {Failure(NotCandidate), Failure(UpdateNotDefined)} ==> Now() == old(Now())
      ensures result == Success ==> Free(c, 1, Step(c, 2, Step(c, 3, old(Now()))))
      ensures result == Success ==> Now() == Step(c, 1, Step(c, 2, Step(c, 3, old(Now()))))
      ensures result == Failure(StorageFault) ==> Now() == old(Now())
      ensures result != Success ==> db in {old(db), WithoutAddress(c, old(db))}
      ensures reliable && c.deleted && c.update.Some? && result != Success ==>
                Now() == Step(c, 2, Step(c, 3, old(Now()))) && !Free(c, 1, Now())
    {
      if !c.deleted { return Failure(NotCandidate); }
      if c.update.None? { return Failure(UpdateNotDefined); }
      result := DeleteFolder(c);
      if result != Success { return; }
      result := CleanAddress(c);
      if result != Success { return; }
      result := DeleteUpdateTransaction(c);
    }

    /** One goroutine alone: a candidate with an update loses that, one without is deleted. */
    method CleanUpDevice(c: Candidate) returns (result: Result)
      requires c.update.None? ==> c.repo.None?
      modifies this`db, this`folders
      ensures !c.deleted <==> result == Failure(NotCandidate)
      ensures result == Success ==> Free(c, 1, Step(c, 2, Step(c, 3, old(Now()))))
      ensures result == Success ==> Now() == Step(c, 1, Step(c, 2, Step(c, 3, old(Now()))))
      ensures reliable && c.deleted && result != Success ==>
                Now() == Step(c, 2, Step(c, 3, old(Now()))) && !Free(c, 1, Now())
    {
      if !c.deleted { return Failure(NotCandidate); }
      if c.update.Some? {
        result := CleanUpUpdateTransaction(c);
      } else {
        result := DeleteDevice(c);
      }
    }

    /** The next call to storage, statement or transaction of a goroutine. */
    method Advance(c: Candidate, left: nat) returns (g: Goroutine)
      requires 0 < left <= STEPS && c.deleted
      modifies this`db, this`folders
      ensures g.Running? ==> g.left == left - 1 && Free(c, left, old(Now())) && Now() == Step(c, left, old(Now()))
      ensures g.Broken? ==> Now() == old(Now()) && (reliable ==> !Free(c, left, old(Now())))
    {
      var result;
      if left == 3 {
        result := DeleteFolder(c);
      } else if left == 2 {
        result := CleanAddress(c);
      } else if c.update.Some? {
        result := DeleteUpdateTransaction(c);
      } else {
        result := DeleteDevice(c);
      }
      g := if result == Success then Running(left - 1) else Broken;
    }

    /** The goroutine of a candidate goes on; what it does keeps what it should. */
    method AdvanceCandidate(ghost start: Db, c: Candidate, left: nat, ghost orphans: bool) returns (g: Goroutine)
      requires Inv(start) && Keeps(start, Now()) && At(start, Now(), c, left, orphans) && left > 0
      modifies this`db, this`folders
      ensures Keeps(start, Now()) && Fewer(old(Now()), Now()) && Spared(start, old(folders), folders)
      ensures g.Running? ==> g.left == left - 1 && At(start, Now(), c, g.left, orphans)
      ensures reliable && Clean(start, orphans) ==> g.Running?
    {
      CandidateRepo(start, c, orphans);
      if Clean(start, orphans) { CleanIsFree(start, Now(), c, left, orphans); }
      g := Advance(c, left);
      if g.Running? { StepKeeps(start, old(Now()), c, left, orphans); }
    }

    /** One of the goroutines of a page goes on. */
    method AdvancePage(ghost start: Db, page: seq<Candidate>, gs: seq<Goroutine>, k: nat, ghost orphans: bool)
      returns (g: Goroutine)
      requires Inv(start) && Keeps(start, Now()) && PageAt(start, Now(), page, gs, orphans) && k in Unfinished(gs)
      modifies this`db, this`folders
      ensures Keeps(start, Now()) && PageAt(start, Now(), page, gs[k := g], orphans)
      ensures Spared(start, old(folders), folders)
      ensures Left(g) < Left(gs[k]) && (reliable && Clean(start, orphans) ==> g.Running?)
    {
      g := AdvanceCandidate(start, page[k], gs[k].left, orphans);
      PageSteps(start, old(Now()), Now(), page, gs, k, g, orphans);
    }

    /** The goroutines of a page in any interleaving; every one goes on whatever happens to the others. */
    method CleanUpPage(ghost start: Db, page: seq<Candidate>, ghost orphans: bool) returns (errCount: nat)
      requires start == db && Inv(start) && Elements(page) <= Candidates(start, orphans)
      modifies this`db, this`folders
      ensures Kept(start, db, folders) && Spared(start, old(folders), folders)
      ensures errCount == 0 ==> AllGone(db, Elements(page))
      ensures reliable && Clean(start, orphans) ==> errCount == 0
    {
      var gs := Started(|page|, STEPS);
      PageStarts(start, folders, page, orphans);
      KeptSelf(start, folders);
      while Unfinished(gs) != {}
        invariant Keeps(start, Now()) && PageAt(start, Now(), page, gs, orphans)
        invariant Spared(start, old(folders), folders)
        invariant reliable && Clean(start, orphans) ==> NoneBroken(gs)
        decreases Sum(gs, Left)
      {
        var k: nat :| k in Unfinished(gs);
        var g := AdvancePage(start, page, gs, k, orphans);
        FewerSteps(gs, k, g);
        gs := gs[k := g];
      }
      errCount := |BrokenOnes(gs)|;
      BrokenOnesEmpty(gs);
      if errCount == 0 { PageDone(start, Now(), page, gs, orphans); }
    }

    /** The same, seen from the start of the phase. */
    method CleanUpNextPage(ghost start: Db, ghost startFolders: set<string>, page: seq<Candidate>, ghost orphans: bool)
      returns (errCount: nat)
      requires Inv(start) && Keeps(start, Now()) && Spared(start, startFolders, folders)
      requires Elements(page) <= Candidates(db, orphans)
      modifies this`db, this`folders
      ensures Keeps(start, Now()) && Spared(start, startFolders, folders)
      ensures errCount == 0 ==> Inv(db) && Shrinks(old(db), db) && AllGone(db, Elements(page))
      ensures reliable && Clean(old(db), orphans) ==> errCount == 0
    {
      ghost var before, foldersBefore := db, folders;
      errCount := CleanUpPage(before, page, orphans);
      KeptAgain(start, before, db, foldersBefore, folders);
      SparedLater(start, before, startFolders, foldersBefore, folders);
    }

    /** Afterwards, unless the page bound was hit, no orphan update is left. */
    method CleanupOrphanDevicesUpdates() returns (result: Result)
      requires Inv(db)
      modifies this`db, this`folders
      ensures Keeps(old(db), Now()) && Spared(old(db), old(folders), folders)
      ensures result == Success && enabled && |OrphanUnits(old(db))| <= LIMIT * MAX_PAGES ==> NoOrphans(db)
      ensures reliable && SafeRepos(old(db)) ==> result == Success
      ensures result != Failure(CleanupNotAvailable)
    {
      ghost var start := db;
      KeptSelf(start, folders);
      var page := 0;
      while page < MAX_PAGES && enabled
        invariant 0 <= page <= MAX_PAGES
        invariant Keeps(start, Now()) && Spared(start, old(folders), folders)
        invariant |OrphanUnits(db)| + LIMIT * page <= |OrphanUnits(start)| || OrphanUnits(db) == {}
      {
        var failed := Faults(reliable);
        if failed { return Failure(Statement(DatabaseFault)); }
        var candidates := SelectPage(OrphanCandidates(db), LIMIT);
        if |candidates| == 0 {
          OrphansExhausted(db);
          return Success;
        }
        if SafeRepos(start) { SafeReposStay(start, db, folders); }
        ghost var before := db;
        var errCount := CleanUpNextPage(start, old(folders), candidates, true);
        if errCount > 0 { return Failure(Interrupted); }
        OrphanPage(before, db, candidates);
        page := page + 1;
      }
      NoUnitsNoOrphans(db);
      result := Success;
    }

    /** The pages of the second phase. */
    method CleanupDevicePages() returns (result: Result)
      requires Inv(db)
      modifies this`db, this`folders
      ensures Keeps(old(db), Now()) && Spared(old(db), old(folders), folders)
      ensures result == Success && enabled && |Units(old(db))| <= LIMIT * (MAX_PAGES - 1) ==> Units(db) == {}
      ensures reliable && Clean(old(db), false) ==> result == Success
      ensures result != Failure(CleanupNotAvailable)
    {
      ghost var start := db;
      KeptSelf(start, folders);
      var page := 0;
      while page < MAX_PAGES && enabled
        invariant 0 <= page <= MAX_PAGES
        invariant Keeps(start, Now()) && Spared(start, old(folders), folders)
        invariant Progress(start, db, page, LIMIT)
      {
        var failed := Faults(reliable);
        if failed { return Failure(Statement(DatabaseFault)); }
        var candidates := SelectPage(DeviceCandidates(db), LIMIT);
        if |candidates| == 0 {
          CandidatesExhausted(db);
          return Success;
        }
        CleanStays(start, db, folders);
        ghost var before := db;
        var errCount := CleanUpNextPage(start, old(folders), candidates, false);
        if errCount > 0 { return Failure(Interrupted); }
        DevicePage(before, db, candidates);
        PageProgress(start, before, db, page, |candidates|);
        page := page + 1;
      }
      if enabled && |Units(start)| <= LIMIT * (MAX_PAGES - 1) { PagesSuffice(start, db); }
      result := Success;
    }

    /** Live devices and the updates that are neither linked to a deleted device nor orphans stay, foreign keys stay
        valid, groups, dispatch records and old commits go with their device or update, a repo follows its last update
        and its storage goes first; no other folder ever goes than those of condemned updates. Unless a page bound was
        hit, a success leaves only what is neither deleted nor condemned, and takes exactly those folders and the
        addresses of their repos; and without faults it succeeds exactly when every repo that a commit and a condemned
        update use is used by an update that stays. */
    method CleanupAllDevices() returns (result: Result)
      requires Inv(db)
      modifies this`db, this`folders
      ensures !enabled <==> result == Failure(CleanupNotAvailable)
      ensures Keeps(old(db), Now()) && Spared(old(db), old(folders), folders)
      ensures result == Success && |Units(old(db))| <= LIMIT * (MAX_PAGES - 1) ==> Units(db) == {}
      ensures enabled && reliable && WithinBounds(old(db)) ==> (result == Success <==> SafeRepos(old(db)))
      ensures result == Success && WithinBounds(old(db)) ==> OnlyRestLeft(old(db), db)
      ensures result == Success && WithinBounds(old(db)) ==>
                && folders == old(folders) - CondemnedFolders(old(db))
                && forall r | r in db.repos ::
                     db.repos[r] == if r in CondemnedRepos(old(db)) then CLEANED else old(db).repos[r]
    {
      ghost var start := db;
      KeptSelf(start, folders);
      if !enabled { return Failure(CleanupNotAvailable); }
      result := CleanupOrphanDevicesUpdates();
      if result != Success { return; }
      ghost var middle, foldersMiddle := db, folders;
      FewerUnits(start, middle);
      if SafeRepos(start) { SafeReposStay(start, middle, foldersMiddle); }
      result := CleanupDevicePages();
      KeptAgain(start, middle, db, foldersMiddle, folders);
      SparedLater(start, middle, old(folders), foldersMiddle, folders);
      if result == Success && WithinBounds(start) {
        NothingLeft(start, middle, db, foldersMiddle, folders);
        AllGoneMeansSafe(start, db, folders);
        RestLeft(start, db, folders);
        StorageAtEnd(start, db, old(folders), folders);
      }
    }
  }

  /** One more error-free page. */
  lemma PageProgress(start: Db, db: Db, db': Db, page: nat, rows: nat)
    requires Progress(start, db, page, LIMIT) && rows == Min(|DeviceCandidates(db)|, LIMIT)
    requires |Units(db')| + rows <= |Units(db)| && LinkUnits(db') <= LinkUnits(db)
    requires rows == |DeviceCandidates(db)| ==> LinkUnits(db') == {} && (LinkUnits(db) == {} ==> Units(db') == {})
    ensures Progress(start, db', page + 1, LIMIT)
  {
    if Units(db) == {} {
      assert |Units(db')| == 0;
    }
  }

  lemma PagesSuffice(start: Db, db: Db)
    requires Progress(start, db, MAX_PAGES, LIMIT) && |Units(start)| <= LIMIT * (MAX_PAGES - 1)
    ensures Units(db) == {}
  {
  }

  /** Both phases have pages enough for their rows. */
  ghost predicate WithinBounds(db: Db) {
    |OrphanUnits(db)| <= LIMIT * MAX_PAGES && |Units(db)| <= LIMIT * (MAX_PAGES - 1)
  }

  lemma CleanStays(start: Db, db: Db, folders: set<string>)
    requires Inv(start) && Kept(start, db, folders)
    ensures Clean(start, false) ==> Clean(db, false)
  {
    if Clean(start, false) {
      SafeReposStay(start, db, folders);
      ShrinksKeepsLinks(start, db);
    }
  }
}
