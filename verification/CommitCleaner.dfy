/** The permanent cleanup of the commits that no image and no update uses, page by page, with the goroutines of a page
    interleaving as those of the images do. */
module CommitCleaner {
  import opened Goroutines
  import opened Options
  import opened Sums
  import opened Tables

  import opened ImageCleanup

  const LIMIT := 45
  const MAX_PAGES := 1000

  // ----- the goroutine of an orphan commit -----

  /** The goroutine deletes the folder of the commit's repo, marks the repo, and ends with a transaction. */
  const STEPS := 3

  function WithoutFolder(start: Db, c: nat, storage: set<string>): set<string> {
    if CommitHasFolder(start, c) then storage - {CommitFolder(start, c)} else storage
  }

  /** The next step of the goroutine when it meets no error. */
  function Step(start: Db, c: nat, left: nat, s: State): State
    requires c in start.commits
  {
    if left == 3 then s.(storage := WithoutFolder(start, c, s.storage))
    else if left == 2 then
      (if CommitHasFolder(start, c) then s.(db := s.db.(repos := Wiped(s.db.repos, start.commits[c].value))) else s)
    else s.(db := EraseCommit(s.db, c, start.commits[c]).0)
  }

  /** The transaction at the end of the goroutine breaks no foreign key. */
  predicate Free(start: Db, c: nat, left: nat, s: State)
    requires c in start.commits
  {
    left == 1 ==> EraseCommit(s.db, c, start.commits[c]).1 == Success
  }

  ghost predicate Keeps(start: Db, s: State) {
    KeptButTars(start, s.db, s.storage)
  }

  /** The repo is gone or has lost its address. */
  predicate NoAddress(db: Db, r: nat) {
    r in db.repos ==> db.repos[r] == Artifact(StorageCleaned, "")
  }

  /** The goroutine of commit c is that far. */
  predicate At(start: Db, s: State, c: nat, left: nat) {
    && OrphanCommit(start, c) && left <= STEPS
    && (left <= 2 && CommitHasFolder(start, c) ==> CommitFolder(start, c) !in s.storage)
    && (left <= 1 && CommitHasFolder(start, c) ==> NoAddress(s.db, start.commits[c].value))
    && (left == 0 ==> c !in s.db.commits)
  }

  /** Commits, addresses and files only go. */
  ghost predicate Fewer(s: State, s': State) {
    match s'
    case State(db', storage') =>
      db'.commits.Keys <= s.db.commits.Keys && storage' <= s.storage && Faded(s.db.repos, db'.repos)
  }

  /** A step keeps what it should and brings the goroutine forward. */
  lemma StepKeeps(start: Db, s: State, c: nat, left: nat)
    requires Valid(start) && Keeps(start, s) && At(start, s, c, left) && left > 0 && Free(start, c, left, s)
    ensures var s' := Step(start, c, left, s); Keeps(start, s') && Fewer(s, s') && At(start, s', c, left - 1)
    ensures SparedFolders(start, s.storage, Step(start, c, left, s).storage)
  {
    assert c in OrphanCommits(start);
    if left == 3 {
      KeptButTarsLess(start, s.db, s.storage, WithoutFolder(start, c, s.storage));
    } else if left == 2 {
      MarkKeeps(start, s, c);
    } else {
      TransactionKeeps(start, s, c);
    }
  }

  lemma MarkKeeps(start: Db, s: State, c: nat)
    requires Keeps(start, s) && At(start, s, c, 2)
    ensures var s' := Step(start, c, 2, s); Keeps(start, s') && Fewer(s, s') && At(start, s', c, 1)
  {
    if CommitHasFolder(start, c) {
      WipedRepoKept(start, s.db, s.storage, start.commits[c].value);
    }
  }

  lemma TransactionKeeps(start: Db, s: State, c: nat)
    requires Valid(start) && Keeps(start, s) && At(start, s, c, 1) && Free(start, c, 1, s)
    ensures var s' := Step(start, c, 1, s); Keeps(start, s') && Fewer(s, s') && At(start, s', c, 0)
  {
    EraseCommitKept(start, s.db, s.storage, c);
  }

  /** Nor does a step touch any row that does not go with the commit. */
  lemma StepKeepsRest(start: Db, s: State, c: nat, left: nat)
    requires Valid(start) && Keeps(start, s) && CommitsFollow(start, s.db) && At(start, s, c, left)
    requires left > 0 && Free(start, c, left, s)
    ensures CommitsFollow(start, Step(start, c, left, s).db)
  {
    assert c in OrphanCommits(start);
    if left == 2 {
      if CommitHasFolder(start, c) {
        assert OrphanHasFolder(start, start.commits[c].value);
        WipedFollows(start, s.db, start.commits[c].value);
      }
    } else if left == 1 {
      EraseCommitRest(start, s.db, s.storage, c);
    }
  }

  /** Everything that is kept from the start of a page or of the stage. */
  ghost predicate Sound(start: Db, s: State) {
    match s
    case State(db, storage) => KeptButTars(start, db, storage) && CommitsFollow(start, db)
  }

  /** A step keeps all of it. */
  lemma StepSound(start: Db, s: State, c: nat, left: nat)
    requires Valid(start) && Sound(start, s) && At(start, s, c, left) && left > 0 && Free(start, c, left, s)
    ensures var s' := Step(start, c, left, s);
            && Sound(start, s') && Fewer(s, s') && At(start, s', c, left - 1)
            && SparedFolders(start, s.storage, s'.storage)
  {
    StepKeeps(start, s, c, left);
    StepKeepsRest(start, s, c, left);
  }

  /** The transaction of a commit that does not share its repo breaks no foreign key. */
  lemma NotStuckIsFree(start: Db, s: State, c: nat, left: nat)
    requires Keeps(start, s) && At(start, s, c, left) && !StuckCommit(start, c)
    ensures Free(start, c, left, s)
  {
    assert !CommitHasImage(s.db, c) && !CommitHasUpdate(s.db, c);
    EraseCommitFailsExactly(s.db, c, start.commits[c]);
    if SharesRepo(s.db, c, start.commits[c]) {
      SharesRepoBefore(start, s.db, c, start.commits[c]);
    }
  }

  // ----- the goroutines of a page -----

  predicate PageAt(start: Db, s: State, page: seq<nat>, gs: seq<Goroutine>) {
    && |gs| == |page|
    && forall k | 0 <= k < |page| && gs[k].Running? :: At(start, s, page[k], gs[k].left)
  }

  lemma PageStarts(start: Db, storage: set<string>, page: seq<nat>)
    requires Elements(page) <= OrphanCommits(start)
    ensures PageAt(start, State(start, storage), page, Started(|page|, STEPS))
  {
    assert forall k | 0 <= k < |page| :: page[k] in Elements(page);
  }

  lemma PageDone(start: Db, s: State, page: seq<nat>, gs: seq<Goroutine>)
    requires PageAt(start, s, page, gs) && Unfinished(gs) == {} && NoneBroken(gs)
    ensures Elements(page) !! s.db.commits.Keys
  {
    forall c | c in Elements(page) ensures c !in s.db.commits {
      var k: nat :| k < |page| && page[k] == c;
      AllDone(gs, k);
      assert At(start, s, page[k], 0);
    }
  }

  lemma PageLeaves(start: Db, db: Db, storage: set<string>, page: seq<nat>)
    requires KeptButTars(start, db, storage) && Distinct(page) && Elements(page) <= OrphanCommits(start)
    requires Elements(page) !! db.commits.Keys
    ensures |OrphanCommits(db)| + |page| <= |OrphanCommits(start)|
    ensures |page| == |OrphanCommits(start)| ==> OrphanCommits(db) == {}
  {
    OrphansOnlyGo(start, db, storage);
    DistinctSize(page);
    PartSizes(OrphanCommits(db), Elements(page), OrphanCommits(start));
  }

  // ----- the tar file -----

  /** The tar file of the commit is the folder of its repo. */
  predicate TarIsFolder(start: Db, c: nat) {
    CommitHasFolder(start, c) && c in start.tars && start.tars[c].url == CommitFolder(start, c)
  }

  /** The stage forgets the tar file: it is out of storage in the end exactly if it was before, or if it goes with the
      folder of the repo. */
  lemma TarStays(start: Db, c: nat, storage: set<string>)
    requires c in start.tars
    ensures Cleared(start.tars[c], WithoutFolder(start, c, storage)) <==>
            Cleared(start.tars[c], storage) || TarIsFolder(start, c)
  {
  }

  /** An orphan commit with a built tar file and a built repo: rows and folder go, the tar file stays. */
  lemma TarLeftBehind()
    ensures var db := Db(map[], {}, map[1 := Some(1)], map[1 := Artifact(Built, "t")], map[1 := Artifact(Built, "r")],
                         map[], map[], {}, {}, {});
            && Valid(db) && OrphanCommits(db) == {1} && !TarIsFolder(db, 1)
            && WithoutFolder(db, 1, {"t", "r"}) == {"t"} && !Cleared(db.tars[1], {"t"})
            && EraseCommit(db, 1, Some(1)).1 == Success && EraseCommit(db, 1, Some(1)).0.tars == map[]
  {
    var db := Db(map[], {}, map[1 := Some(1)], map[1 := Artifact(Built, "t")], map[1 := Artifact(Built, "r")],
                 map[], map[], {}, {}, {});
    assert "t"[0] != "r"[0];
    EraseCommitFailsExactly(db, 1, Some(1));
  }

  class Cleaner {
    /** The tables of the database. */
    var db: Db
    /** The files and folders in storage, by address. */
    var storage: set<string>
    /** Statements and storage calls do not fail. */
    const reliable: bool
    /** The feature flag. */
    const enabled: bool

    constructor (db: Db, storage: set<string>, reliable: bool, enabled: bool)
      ensures this.db == db && this.storage == storage && this.reliable == reliable && this.enabled == enabled
    {
      this.db, this.storage, this.reliable, this.enabled := db, storage, reliable, enabled;
    }

    ghost function Now(): State
      reads this
    {
      State(db, storage)
    }

    /** The folder of a built repo. */
    method DeleteFolder(start: Db, c: nat) returns (result: Result)
      requires c in start.commits
      modifies this`storage
      ensures result == Success ==> Now() == Step(start, c, 3, old(Now()))
      ensures result != Success ==> !reliable && IsFault(result) && Now() == old(Now())
    {
      if CommitHasFolder(start, c) {
        var failed := Faults(reliable);
        if failed { return Failure(StorageFault); }
        storage := storage - {CommitFolder(start, c)};
      }
      result := Success;
    }

    /** The address of the repo whose folder is gone. */
    method MarkFolder(start: Db, c: nat) returns (result: Result)
      requires c in start.commits
      modifies this`db
      ensures result == Success ==> Now() == Step(start, c, 2, old(Now()))
      ensures result != Success ==> !reliable && IsFault(result) && Now() == old(Now())
    {
      if CommitHasFolder(start, c) {
        var failed := Faults(reliable);
        if failed { return Failure(Statement(DatabaseFault)); }
        db := db.(repos := Wiped(db.repos, start.commits[c].value));
      }
      result := Success;
    }

    /** One transaction: a failed statement leaves nothing behind. */
    method DeleteCommit(c: nat, repo: Option<nat>) returns (result: Result)
      modifies this`db
      ensures db == if result == Success then EraseCommit(old(db), c, repo).0 else old(db)
      ensures result == Success ==>
                && (forall k :: k in db.packages <==> k in old(db).packages && k.owner != c)
                && (forall k :: k in db.oldCommits <==> k in old(db).oldCommits && k.owner != c)
      ensures result == EraseCommit(old(db), c, repo).1 || (result == Failure(Statement(DatabaseFault)) && !reliable)
    {
      var failed := Faults(reliable);
      if failed { return Failure(Statement(DatabaseFault)); }
      var tx := WithoutCommitLinks(db, c);
      if CommitStuck(tx, c, repo) { return Failure(Statement(ForeignKeyViolation)); }
      tx := tx.(commits := tx.commits - {c}, tars := tx.tars - {c});
      if repo.Some? {
        tx := tx.(repos := tx.repos - {repo.value});
      }
      db := tx;
      result := Success;
    }

    /** One goroutine alone: the folder of the repo, its address, then the commit with its repo. The tar file of the
        commit is forgotten: it is out of storage afterwards exactly if it was before or is the same as the folder. */
    method CleanupOrphanCommit(start: Db, c: nat) returns (result: Result)
      requires Valid(start) && Sound(start, Now()) && OrphanCommit(start, c)
      modifies this`db, this`storage
      ensures Sound(start, Now()) && storage <= old(storage)
      ensures result == Success ==> c !in db.commits && storage == WithoutFolder(start, c, old(storage))
      ensures result == Success ==>
                (Cleared(start.tars[c], storage) <==> Cleared(start.tars[c], old(storage)) || TarIsFolder(start, c))
      ensures reliable && !StuckCommit(start, c) ==> result == Success
    {
      TarStays(start, c, storage);
      var g := Advance(start, c, 3);
      if g.Running? { g := FinishRows(start, c); }
      result := if g.Running? then Success else Failure(Interrupted);
    }

    /** The address of the repo, then the commit. */
    method FinishRows(start: Db, c: nat) returns (g: Goroutine)
      requires Valid(start) && Sound(start, Now()) && At(start, Now(), c, 2)
      modifies this`db, this`storage
      ensures Sound(start, Now()) && storage <= old(storage)
      ensures g.Running? ==> c !in db.commits && storage == old(storage)
      ensures reliable && !StuckCommit(start, c) ==> g.Running?
    {
      g := Advance(start, c, 2);
      if g.Running? { g := Advance(start, c, 1); }
    }

    /** The next call to storage, statement or transaction of a goroutine. */
    method Advance(start: Db, c: nat, left: nat) returns (g: Goroutine)
      requires Valid(start) && Sound(start, Now()) && At(start, Now(), c, left) && left > 0
      modifies this`db, this`storage
      ensures Sound(start, Now()) && Fewer(old(Now()), Now()) && SparedFolders(start, old(storage), storage)
      ensures g.Running? ==> g.left == left - 1 && At(start, Now(), c, g.left)
      ensures g.Running? ==> storage == if left == 3 then WithoutFolder(start, c, old(storage)) else old(storage)
      ensures reliable && !StuckCommit(start, c) ==> g.Running?
    {
      if !StuckCommit(start, c) { NotStuckIsFree(start, Now(), c, left); }
      var result;
      if left == 3 {
        result := DeleteFolder(start, c);
      } else if left == 2 {
        result := MarkFolder(start, c);
      } else {
        result := DeleteCommit(c, start.commits[c]);
      }
      if result != Success { return Broken; }
      StepSound(start, old(Now()), c, left);
      g := Running(left - 1);
    }

    /** One of the goroutines of a page goes on. */
    method AdvancePage(start: Db, page: seq<nat>, gs: seq<Goroutine>, k: nat) returns (g: Goroutine)
      requires Valid(start) && Sound(start, Now()) && PageAt(start, Now(), page, gs) && k in Unfinished(gs)
      modifies this`db, this`storage
      ensures Sound(start, Now()) && PageAt(start, Now(), page, gs[k := g])
      ensures SparedFolders(start, old(storage), storage)
      ensures Left(g) < Left(gs[k]) && (reliable && NoCommitStuck(start) ==> g.Running?)
    {
      g := Advance(start, page[k], gs[k].left);
    }

    /** The goroutines of a page in any interleaving; every one goes on whatever happens to the others. */
    method CleanUpPage(start: Db, page: seq<nat>) returns (errCount: nat)
      requires start == db && Valid(start) && Elements(page) <= OrphanCommits(start)
      modifies this`db, this`storage
      ensures Sound(start, Now()) && SparedFolders(start, old(storage), storage)
      ensures errCount == 0 ==> Elements(page) !! db.commits.Keys
      ensures reliable && NoCommitStuck(start) ==> errCount == 0
    {
      var gs := Started(|page|, STEPS);
      PageStarts(start, storage, page);
      KeptButTarsSelf(start, storage);
      while Unfinished(gs) != {}
        invariant Sound(start, Now()) && PageAt(start, Now(), page, gs)
        invariant SparedFolders(start, old(storage), storage)
        invariant reliable && NoCommitStuck(start) ==> NoneBroken(gs)
        decreases Sum(gs, Left)
      {
        var k: nat :| k in Unfinished(gs);
        var g := AdvancePage(start, page, gs, k);
        FewerSteps(gs, k, g);
        gs := gs[k := g];
      }
      errCount := |BrokenOnes(gs)|;
      BrokenOnesEmpty(gs);
      if errCount == 0 { PageDone(start, Now(), page, gs); }
    }

    /** Images, updates and the commits in use stay, and no other folders go than those of orphan commits. Unless there
        were more orphan commits than the pages can hold, and without faults, it succeeds exactly when no orphan commit
        shares its repo; then exactly they and their folders are gone, and no tar file that is not such a folder. */
    method CleanupAllOrphanCommits() returns (result: Result)
      requires Valid(db)
      modifies this`db, this`storage
      ensures !enabled <==> result == Failure(CleanupNotAvailable)
      ensures Sound(old(db), Now()) && SparedFolders(old(db), old(storage), storage)
      ensures result == Success && |OrphanCommits(old(db))| <= LIMIT * MAX_PAGES ==>
                OrphanCommits(db) == {} && NoCommitStuck(old(db)) &&
                db.commits.Keys == old(db.commits.Keys) - OrphanCommits(old(db)) &&
                storage == old(storage) - OrphanFolders(old(db)) &&
                forall c | c in old(db).tars ::
                  Cleared(old(db).tars[c], storage) <==>
                  Cleared(old(db).tars[c], old(storage)) || TarGoesToo(old(db), c)
      ensures enabled && reliable && NoCommitStuck(old(db)) ==> result == Success
    {
      ghost var start := db;
      KeptButTarsSelf(start, storage);
      if !enabled { return Failure(CleanupNotAvailable); }
      var page := 0;
      while page < MAX_PAGES && enabled
        invariant 0 <= page <= MAX_PAGES
        invariant Sound(start, Now()) && SparedFolders(start, old(storage), storage)
        invariant |OrphanCommits(db)| + LIMIT * page <= |OrphanCommits(start)| || OrphanCommits(db) == {}
      {
        var failed := Faults(reliable);
        if failed { return Failure(Statement(DatabaseFault)); }
        var snapshot := db;
        var candidates := SelectPage(OrphanCommits(snapshot), LIMIT);
        if |candidates| == 0 { break; }
        if NoCommitStuck(start) { NoCommitStuckStays(start, snapshot, storage); }
        ghost var storageBefore := storage;
        var errCount := CleanUpPage(snapshot, candidates);
        CommitsFollowAgain(start, snapshot, db, storageBefore);
        KeptButTarsAgain(start, snapshot, db, storageBefore, storage);
        SparedFoldersLater(start, snapshot, old(storage), storageBefore, storage);
        if errCount > 0 { return Failure(Interrupted); }
        PageLeaves(snapshot, db, storage, candidates);
        page := page + 1;
      }
      result := Success;
      if OrphanCommits(db) == {} {
        GoneCommitWasFree(start, db, storage);
        FoldersAtEnd(start, db, old(storage), storage);
      }
    }
  }
}
