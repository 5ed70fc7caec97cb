/** The permanent cleanup of images, page by page. The goroutines of a page interleave between their calls to storage,
    their statements and their transactions. */
module ImageCleaner {
  import opened Goroutines
  import opened Options
  import opened Sums
  import opened Tables

  import opened ImageCleanup

  const LIMIT := 45
  const MAX_PAGES := 1000

  // ----- the goroutine of an image -----

  /** The goroutine of an image deletes a file and marks its row, for the tar file, the repo and the iso file in this
      order, and ends with a transaction. */
  const STEPS := 7

  function FileOf(c: Candidate, left: nat): Artifact {
    if left >= 6 then c.tar else if left >= 4 then c.repoDir else c.iso
  }

  function MarkRow(db: Db, c: Candidate, left: nat): Db {
    if left >= 6 then db.(tars := Marked(db.tars, c.image.commit, c.tar))
    else if left >= 4 then db.(repos := Marked(db.repos, c.repo, c.repoDir))
    else db.(isos := Marked(db.isos, c.installer, c.iso))
  }

  /** The next step of the goroutine when it meets no error; an image that is not deleted keeps its row. */
  function Step(c: Candidate, left: nat, s: State): State {
    if left == 1 then (if c.image.deleted then s.(db := EraseImage(s.db, c).0) else s)
    else if left % 2 == 1 then s.(storage := WithoutFile(FileOf(c, left), s.storage))
    else s.(db := MarkRow(s.db, c, left))
  }

  /** The transaction at the end of the goroutine breaks no foreign key. */
  predicate Free(c: Candidate, left: nat, s: State) {
    left == 1 && c.image.deleted ==> EraseImage(s.db, c).1 == Success
  }

  /** The two steps for one artifact, without another goroutine in between. */
  function Cleaned(c: Candidate, left: nat, s: State): State
    requires left > 0
  {
    Step(c, left - 1, Step(c, left, s))
  }

  function AllCleaned(c: Candidate, s: State): State {
    Cleaned(c, 3, Cleaned(c, 5, Cleaned(c, 7, s)))
  }

  /** What the goroutine has achieved when so many steps are left. */
  predicate Reached(s: State, c: Candidate, left: nat) {
    && (left <= 6 ==> Cleared(c.tar, s.storage))
    && (left <= 5 ==> Unbuilt(s.db.tars, c.image.commit))
    && (left <= 4 ==> Cleared(c.repoDir, s.storage))
    && (left <= 3 ==> Unbuilt(s.db.repos, c.repo))
    && (left <= 2 ==> Cleared(c.iso, s.storage))
    && (left <= 1 ==> Unbuilt(s.db.isos, c.installer))
    && (left == 0 ==> Handled(s.db, c))
  }

  /** The goroutine of candidate i is that far. */
  predicate At(start: Db, s: State, i: nat, left: nat) {
    IsCandidate(start, i) && left <= STEPS && Reached(s, CandidateOf(start, i), left)
  }

  ghost predicate Keeps(start: Db, s: State) {
    Kept(start, s.db, s.storage)
  }

  /** Rows and files only go. */
  ghost predicate Fewer(s: State, s': State) {
    match s'
    case State(db', storage') => Fades(s.db, db') && storage' <= s.storage
  }

  lemma FewerSelf(s: State)
    ensures Fewer(s, s)
  {
  }

  /** What other goroutines do undoes nothing. */
  lemma StaysAt(start: Db, s: State, s': State, i: nat, left: nat)
    requires At(start, s, i, left) && Fewer(s, s')
    ensures At(start, s', i, left)
  {
    if left == 0 {
      HandledStays(s.db, s'.db, CandidateOf(start, i));
    }
  }

  /** A step keeps what it should and brings the goroutine forward. */
  lemma StepKeeps(start: Db, s: State, i: nat, left: nat)
    requires Valid(start) && Keeps(start, s) && At(start, s, i, left)
    requires left > 0 && Free(CandidateOf(start, i), left, s)
    ensures var s' := Step(CandidateOf(start, i), left, s);
            Keeps(start, s') && Fewer(s, s') && At(start, s', i, left - 1) && Spared(start, s.storage, s'.storage)
  {
    if left == 1 {
      TransactionKeeps(start, s, i);
    } else if left % 2 == 1 {
      FileDeleted(start, s, i, left);
      FileSpares(start, s.storage, i, left);
    } else {
      RowMarked(start, s, i, left);
    }
  }

  lemma FileDeleted(start: Db, s: State, i: nat, left: nat)
    requires Keeps(start, s) && At(start, s, i, left) && left in {7, 5, 3}
    ensures var s' := Step(CandidateOf(start, i), left, s);
            Keeps(start, s') && Fewer(s, s') && At(start, s', i, left - 1)
  {
    KeptLess(start, s.db, s.storage, WithoutFile(FileOf(CandidateOf(start, i), left), s.storage));
  }

  lemma FileSpares(start: Db, storage: set<string>, i: nat, left: nat)
    requires IsCandidate(start, i)
    ensures Spared(start, storage, WithoutFile(FileOf(CandidateOf(start, i), left), storage))
  {
    var c := CandidateOf(start, i);
    var a := FileOf(c, left);
    if a.status.Built? && a.url != "" {
      assert a in {c.tar, c.repoDir, c.iso};
      assert i in CandidateIds(start) && a.url in FilesOf(c);
    }
  }

  lemma RowMarked(start: Db, s: State, i: nat, left: nat)
    requires Keeps(start, s) && At(start, s, i, left) && left in {6, 4, 2}
    ensures var s' := Step(CandidateOf(start, i), left, s);
            Keeps(start, s') && Fewer(s, s') && At(start, s', i, left - 1)
  {
    var c := CandidateOf(start, i);
    var s' := s.(db := MarkRow(s.db, c, left));
    if left == 6 {
      TarMarked(start, s.db, s.storage, i);
    } else if left == 4 {
      RepoMarked(start, s.db, s.storage, i);
    } else {
      IsoMarked(start, s.db, s.storage, i);
    }
    StaysAt(start, s, s', i, left);
  }

  lemma TransactionKeeps(start: Db, s: State, i: nat)
    requires Valid(start) && Keeps(start, s) && At(start, s, i, 1) && Free(CandidateOf(start, i), 1, s)
    ensures var s' := Step(CandidateOf(start, i), 1, s);
            Keeps(start, s') && Fewer(s, s') && At(start, s', i, 0)
  {
    if start.images[i].deleted {
      EraseImageKept(start, s.db, s.storage, i);
      EraseImageFades(s.db, CandidateOf(start, i));
      StaysAt(start, s, Step(CandidateOf(start, i), 1, s), i, 1);
    }
  }

  lemma MarkKeepsRest(start: Db, db: Db, i: nat, left: nat)
    requires Rest(start, db) && IsCandidate(start, i) && left in {6, 4, 2}
    ensures Rest(start, MarkRow(db, CandidateOf(start, i), left))
  {
    if left == 6 {
      TarMarkedRest(start, db, i);
    } else if left == 4 {
      RepoMarkedRest(start, db, i);
    } else {
      IsoMarkedRest(start, db, i);
    }
  }

  /** What a step leaves of the tables. */
  lemma StepOnTables(c: Candidate, left: nat, s: State)
    requires 0 < left <= STEPS
    ensures left == 1 ==> Step(c, left, s).db == if c.image.deleted then EraseImage(s.db, c).0 else s.db
    ensures left in {7, 5, 3} ==> Step(c, left, s).db == s.db
    ensures left in {6, 4, 2} ==> Step(c, left, s).db == MarkRow(s.db, c, left)
  {
  }

  /** Everything that is kept from the start of a page or of the cleanup. */
  ghost predicate Sound(start: Db, s: State) {
    match s
    case State(db, storage) => Kept(start, db, storage) && Rest(start, db)
  }

  /** A step keeps all of it, and touches no row that does not go with the image or is marked with the candidate. */
  lemma StepSound(start: Db, s: State, i: nat, left: nat)
    requires Valid(start) && Sound(start, s) && At(start, s, i, left)
    requires left > 0 && Free(CandidateOf(start, i), left, s)
    ensures var s' := Step(CandidateOf(start, i), left, s);
            Sound(start, s') && Fewer(s, s') && At(start, s', i, left - 1) && Spared(start, s.storage, s'.storage)
  {
    StepKeeps(start, s, i, left);
    StepOnTables(CandidateOf(start, i), left, s);
    if left == 1 {
      if start.images[i].deleted {
        EraseImageRest(start, s.db, i);
      }
    } else if left in {6, 4, 2} {
      MarkKeepsRest(start, s.db, i, left);
    }
  }

  lemma CleanedKeeps(start: Db, s: State, i: nat, left: nat)
    requires Valid(start) && Keeps(start, s) && At(start, s, i, left) && left in {7, 5, 3}
    ensures var s' := Cleaned(CandidateOf(start, i), left, s); Keeps(start, s') && At(start, s', i, left - 2)
  {
    FileDeleted(start, s, i, left);
    RowMarked(start, Step(CandidateOf(start, i), left, s), i, left - 1);
  }

  /** A goroutine that runs alone keeps what it should, and has handled its candidate in the end. */
  lemma AloneKeeps(start: Db, s: State, i: nat)
    requires Valid(start) && Keeps(start, s) && IsCandidate(start, i)
    ensures var c := CandidateOf(start, i);
            var stored := AllCleaned(c, s);
            && Keeps(start, stored)
            && (Free(c, 1, stored) ==> Keeps(start, Step(c, 1, stored)) && Handled(Step(c, 1, stored).db, c))
  {
    var c := CandidateOf(start, i);
    CleanedKeeps(start, s, i, 7);
    CleanedKeeps(start, Cleaned(c, 7, s), i, 5);
    CleanedKeeps(start, Cleaned(c, 5, Cleaned(c, 7, s)), i, 3);
    if Free(c, 1, AllCleaned(c, s)) {
      TransactionKeeps(start, AllCleaned(c, s), i);
    }
  }

  /** The transaction of an image that shares nothing breaks no foreign key. */
  lemma NotStuckIsFree(start: Db, s: State, i: nat, left: nat)
    requires Valid(start) && Keeps(start, s) && At(start, s, i, left) && !Stuck(start, i)
    ensures Free(CandidateOf(start, i), left, s)
  {
    var c := CandidateOf(start, i);
    EraseImageFailsExactly(s.db, c);
    if Shares(s.db, i, c.image.commit, c.repo, c.installer) {
      SharesBefore(start, s.db, i, c.image.commit, c.repo, c.installer);
    }
  }

  // ----- the goroutines of a page -----

  /** The goroutines of a page are as far as they say, except those that met an error. */
  ghost predicate PageAt(start: Db, s: State, page: seq<nat>, gs: seq<Goroutine>) {
    && |gs| == |page|
    && forall k | 0 <= k < |page| && gs[k].Running? :: At(start, s, page[k], gs[k].left)
  }

  lemma PageStarts(start: Db, storage: set<string>, page: seq<nat>)
    requires Elements(page) <= CandidateIds(start)
    ensures PageAt(start, State(start, storage), page, Started(|page|, STEPS))
  {
    assert forall k | 0 <= k < |page| :: page[k] in Elements(page);
  }

  /** While one goroutine takes a step the others stay where they are. */
  lemma PageSteps(start: Db, s: State, s': State, page: seq<nat>, gs: seq<Goroutine>, k: nat, g: Goroutine)
    requires PageAt(start, s, page, gs) && k < |page| && Fewer(s, s')
    requires g.Running? ==> At(start, s', page[k], g.left)
    ensures PageAt(start, s', page, gs[k := g])
  {
    forall j | 0 <= j < |page| && j != k && gs[j].Running? ensures At(start, s', page[j], gs[j].left) {
      StaysAt(start, s, s', page[j], gs[j].left);
    }
  }

  lemma PageDone(start: Db, s: State, page: seq<nat>, gs: seq<Goroutine>)
    requires PageAt(start, s, page, gs) && Unfinished(gs) == {} && NoneBroken(gs)
    ensures AllHandled(start, s.db, Elements(page))
  {
    forall i | i in Elements(page) ensures IsCandidate(start, i) && Handled(s.db, CandidateOf(start, i)) {
      var k: nat :| k < |page| && page[k] == i;
      AllDone(gs, k);
      assert At(start, s, page[k], 0);
    }
  }

  predicate AllHandled(start: Db, db: Db, ids: set<nat>) {
    forall i | i in ids :: IsCandidate(start, i) && Handled(db, CandidateOf(start, i))
  }

  /** The handled rows of a page are no candidates any more, and no new ones appear. */
  lemma PageLeaves(start: Db, db: Db, storage: set<string>, page: seq<nat>)
    requires Kept(start, db, storage) && Distinct(page) && Elements(page) <= CandidateIds(start)
    requires AllHandled(start, db, Elements(page))
    ensures |CandidateIds(db)| + |page| <= |CandidateIds(start)|
    ensures |page| == |CandidateIds(start)| ==> CandidateIds(db) == {}
  {
    NoNewCandidates(start, db, storage);
    forall i | i in page ensures i !in CandidateIds(db) {
      assert i in Elements(page);
      HandledLeaves(start, db, storage, i);
    }
    DistinctSize(page);
    PartSizes(CandidateIds(db), Elements(page), CandidateIds(start));
  }

  /** Without candidates every image that could be erased is gone. */
  lemma NoCandidateErasable(db: Db)
    requires Valid(db) && CandidateIds(db) == {}
    ensures ErasableIds(db) == {}
  {
    forall i | i in db.images ensures !Erasable(db, i) {
      assert i !in CandidateIds(db);
      assert ImageRowOk(db, db.images[i]);
    }
  }

  /** The statements of the transaction, on a copy of the tables. */
  method DeleteImageStatements(db: Db, c: Candidate) returns (tx: Db, result: Result)
    ensures (tx, result) == EraseImage(db, c)
  {
    var commit := c.image.commit;
    tx := WithoutImage(db, c.id, commit);
    var updatesCount := set u | u in tx.updates && tx.updates[u].commit == commit;
    assert updatesCount == {} <==> !CommitHasUpdate(tx, commit) by {
      if CommitHasUpdate(tx, commit) {
        var u :| u in tx.updates && tx.updates[u].commit == commit;
        assert u in updatesCount;
      }
    }
    if |updatesCount| == 0 {
      if CommitStuck(tx, commit, Some(c.repo)) { return db, Failure(Statement(ForeignKeyViolation)); }
      tx := WithoutCommit(tx, commit, Some(c.repo));
    }
    if InstallerHasImage(tx, c.installer) { return db, Failure(Statement(ForeignKeyViolation)); }
    tx := tx.(isos := tx.isos - {c.installer});
    if c.image.setId.Some? && !SetHasImage(tx, c.image.setId.value) {
      tx := tx.(sets := tx.sets - {c.image.setId.value});
    }
    result := Success;
  }

  class Cleaner {
    /** The tables of the database. */
    var db: Db
    /** The files and folders in storage, by address. */
    var storage: set<string>
    /** Statements and storage calls do not fail. */
    const reliable: bool
    /** The feature flag. */
    const enabled: bool

    constructor (db: Db, storage: set<string>, reliable: bool, enabled: bool)
      ensures this.db == db && this.storage == storage && this.reliable == reliable && this.enabled == enabled
    {
      this.db, this.storage, this.reliable, this.enabled := db, storage, reliable, enabled;
    }

    ghost function Now(): State
      reads this
    {
      State(db, storage)
    }

    // ----- storage -----

    /** The file or folder of a built artifact, if it has an address. */
    method DeleteFile(artifact: Artifact) returns (result: Result)
      modifies this`storage
      ensures result == Success ==> storage == WithoutFile(artifact, old(storage))
      ensures result != Success ==> !reliable && result == Failure(StorageFault) && storage == old(storage)
    {
      if artifact.status.Built? && artifact.url != "" {
        var failed := Faults(reliable);
        if failed { return Failure(StorageFault); }
        storage := storage - {artifact.url};
      }
      result := Success;
    }

    /** The row of an artifact that is out of storage, if it was built. */
    method Mark(c: Candidate, left: nat) returns (result: Result)
      requires left in {6, 4, 2}
      modifies this`db
      ensures result == Success ==> db == MarkRow(old(db), c, left)
      ensures result != Success ==> !reliable && result == Failure(Statement(DatabaseFault)) && db == old(db)
    {
      if FileOf(c, left).status.Built? {
        var failed := Faults(reliable);
        if failed { return Failure(Statement(DatabaseFault)); }
        db := MarkRow(db, c, left);
      }
      result := Success;
    }

    /** The tar file of the commit: storage first, then the row; nothing is marked when storage fails. */
    method CleanUpImageTarFile(c: Candidate) returns (result: Result)
      modifies this`db, this`storage
      ensures result == Success ==> Now() == Cleaned(c, 7, old(Now())) && Cleared(c.tar, storage)
      ensures result == Success && c.tar.status.Built? ==> Unbuilt(db.tars, c.image.commit)
      ensures result != Success ==> !reliable && IsFault(result) && db == old(db)
      ensures storage in {old(storage), WithoutFile(c.tar, old(storage))}
    {
      result := DeleteFile(c.tar);
      if result == Success { result := Mark(c, 6); }
    }

    /** The folder of the repo. */
    method CleanUpImageRepo(c: Candidate) returns (result: Result)
      modifies this`db, this`storage
      ensures result == Success ==> Now() == Cleaned(c, 5, old(Now())) && Cleared(c.repoDir, storage)
      ensures result == Success && c.repoDir.status.Built? ==> Unbuilt(db.repos, c.repo)
      ensures result != Success ==> !reliable && IsFault(result) && db == old(db)
      ensures storage in {old(storage), WithoutFile(c.repoDir, old(storage))}
    {
      result := DeleteFile(c.repoDir);
      if result == Success { result := Mark(c, 4); }
    }

    /** The iso file of the installer. */
    method CleanUpImageISOFile(c: Candidate) returns (result: Result)
      modifies this`db, this`storage
      ensures result == Success ==> Now() == Cleaned(c, 3, old(Now())) && Cleared(c.iso, storage)
      ensures result == Success && c.iso.status.Built? ==> Unbuilt(db.isos, c.installer)
      ensures result != Success ==> !reliable && IsFault(result) && db == old(db)
      ensures storage in {old(storage), WithoutFile(c.iso, old(storage))}
    {
      result := DeleteFile(c.iso);
      if result == Success { result := Mark(c, 2); }
    }

    /** The three of them in this order, as far as they succeed. */
    method CleanUpImageStorage(c: Candidate) returns (result: Result)
      modifies this`db, this`storage
      ensures result == Success ==> Now() == AllCleaned(c, old(Now())) && AllCleared(c, storage)
      ensures result != Success ==> !reliable && IsFault(result)
      ensures result != Success ==>
                db in {old(db), Cleaned(c, 7, old(Now())).db, Cleaned(c, 5, Cleaned(c, 7, old(Now()))).db}
    {
      result := CleanUpImageTarFile(c);
      if result != Success { return; }
      result := CleanUpImageRepo(c);
      if result != Success { return; }
      result := CleanUpImageISOFile(c);
    }

    // ----- images -----

    /** One transaction: a failed statement leaves nothing behind. */
    method DeleteImage(c: Candidate) returns (result: Result)
      modifies this`db
      ensures result == Failure(NotCandidate) <==> !c.image.deleted
      ensures db == if result == Success then EraseImage(old(db), c).0 else old(db)
      ensures result == Success ==> forall k :: k in db.imageLinks <==> k in old(db).imageLinks && k.owner != c.id
      ensures c.image.deleted ==>
                result == EraseImage(old(db), c).1 || (result == Failure(Statement(DatabaseFault)) && !reliable)
    {
      if !c.image.deleted { return Failure(NotCandidate); }
      var failed := Faults(reliable);
      if failed { return Failure(Statement(DatabaseFault)); }
      var tx;
      tx, result := DeleteImageStatements(db, c);
      if result == Success {
        EraseRest(db, c);
        db := tx;
      }
    }

    /** One goroutine alone: storage first; a deleted image is then erased, an errored one stays without its storage. */
    method CleanUpImage(c: Candidate) returns (result: Result)
      modifies this`db, this`storage
      ensures result == Failure(NotCandidate) <==> !c.image.deleted && !c.image.errored
      ensures result == Failure(NotCandidate) ==> Now() == old(Now())
      ensures result == Success ==> Free(c, 1, AllCleaned(c, old(Now())))
      ensures result == Success ==> Now() == Step(c, 1, AllCleaned(c, old(Now())))
      ensures reliable && result !in {Success, Failure(NotCandidate)} ==>
                Now() == AllCleaned(c, old(Now())) && !Free(c, 1, Now())
    {
      if !c.image.deleted && !c.image.errored { return Failure(NotCandidate); }
      result := CleanUpImageStorage(c);
      if result == Success && c.image.deleted {
        result := DeleteImage(c);
      }
    }

    /** The next call to storage, statement or transaction of a goroutine. */
    method Advance(c: Candidate, left: nat) returns (g: Goroutine)
      requires 0 < left <= STEPS
      modifies this`db, this`storage
      ensures g.Running? ==> g.left == left - 1 && Free(c, left, old(Now())) && Now() == Step(c, left, old(Now()))
      ensures g.Broken? ==> Now() == old(Now()) && (reliable ==> !Free(c, left, old(Now())))
    {
      var result := Success;
      if left == 1 {
        if c.image.deleted {
          result := DeleteImage(c);
        }
      } else if left % 2 == 1 {
        result := DeleteFile(FileOf(c, left));
      } else {
        result := Mark(c, left);
      }
      g := if result == Success then Running(left - 1) else Broken;
    }

    /** The goroutine of candidate i goes on; what it does keeps what it should. */
    method AdvanceCandidate(start: Db, i: nat, left: nat) returns (g: Goroutine)
      requires Valid(start) && Sound(start, Now()) && At(start, Now(), i, left) && left > 0
      modifies this`db, this`storage
      ensures Sound(start, Now()) && Fewer(old(Now()), Now()) && Spared(start, old(storage), storage)
      ensures g.Running? ==> g.left == left - 1 && At(start, Now(), i, g.left)
      ensures reliable && !Stuck(start, i) ==> g.Running?
    {
      ghost var s := Now();
      if !Stuck(start, i) { NotStuckIsFree(start, s, i, left); }
      g := Advance(CandidateOf(start, i), left);
      if g.Running? {
        StepSound(start, s, i, left);
      } else {
        FewerSelf(s);
      }
    }

    /** One of the goroutines of a page goes on. */
    method AdvancePage(start: Db, page: seq<nat>, gs: seq<Goroutine>, k: nat) returns (g: Goroutine)
      requires Valid(start) && Sound(start, Now()) && PageAt(start, Now(), page, gs) && k in Unfinished(gs)
      modifies this`db, this`storage
      ensures Sound(start, Now()) && PageAt(start, Now(), page, gs[k := g]) && Spared(start, old(storage), storage)
      ensures Left(g) < Left(gs[k]) && (reliable && NothingStuck(start) ==> g.Running?)
    {
      g := AdvanceCandidate(start, page[k], gs[k].left);
      PageSteps(start, old(Now()), Now(), page, gs, k, g);
    }

    /** The goroutines of a page in any interleaving; every one goes on whatever happens to the others. */
    method CleanUpPage(start: Db, page: seq<nat>) returns (errCount: nat)
      requires start == db && Valid(start) && Elements(page) <= CandidateIds(start)
      modifies this`db, this`storage
      ensures Sound(start, Now()) && Spared(start, old(storage), storage)
      ensures errCount == 0 ==> AllHandled(start, db, Elements(page))
      ensures reliable && NothingStuck(start) ==> errCount == 0
    {
      var gs := Started(|page|, STEPS);
      PageStarts(start, storage, page);
      KeptSelf(start, storage);
      RestSelf(start);
      while Unfinished(gs) != {}
        invariant Sound(start, Now()) && PageAt(start, Now(), page, gs) && Spared(start, old(storage), storage)
        invariant reliable && NothingStuck(start) ==> NoneBroken(gs)
        decreases Sum(gs, Left)
      {
        var k: nat :| k in Unfinished(gs);
        var g := AdvancePage(start, page, gs, k);
        FewerSteps(gs, k, g);
        gs := gs[k := g];
      }
      errCount := |BrokenOnes(gs)|;
      BrokenOnesEmpty(gs);
      if errCount == 0 { PageDone(start, Now(), page, gs); }
    }

    /** Images that cannot be erased and updates stay, foreign keys stay valid, storage goes before rows, and no other
        files go than those of candidates. Unless there were more candidates than the pages can hold, and without
        faults, it succeeds exactly when no image to erase shares a row that would go with it; then exactly the deleted
        images with artifacts are gone, and exactly the files of the candidates. */
    method CleanUpAllImages() returns (result: Result)
      requires Valid(db)
      modifies this`db, this`storage
      ensures !enabled <==> result == Failure(CleanupNotAvailable)
      ensures Sound(old(db), Now()) && Spared(old(db), old(storage), storage)
      ensures result == Success && |CandidateIds(old(db))| <= LIMIT * MAX_PAGES ==>
                CandidateIds(db) == {} && NothingStuck(old(db)) &&
                db.images.Keys == old(db.images.Keys) - ErasableIds(old(db)) &&
                storage == old(storage) - CandidateFiles(old(db))
      ensures enabled && reliable && NothingStuck(old(db)) ==> result == Success
    {
      ghost var start := db;
      KeptSelf(start, storage);
      RestSelf(start);
      if !enabled { return Failure(CleanupNotAvailable); }
      var page := 0;
      while page < MAX_PAGES && enabled
        invariant 0 <= page <= MAX_PAGES
        invariant Sound(start, Now()) && Spared(start, old(storage), storage)
        invariant |CandidateIds(db)| + LIMIT * page <= |CandidateIds(start)| || CandidateIds(db) == {}
      {
        var failed := Faults(reliable);
        if failed { return Failure(Statement(DatabaseFault)); }
        var snapshot := db;
        var candidates := SelectPage(CandidateIds(snapshot), LIMIT);
        if |candidates| == 0 { break; }
        if NothingStuck(start) { NothingStuckStays(start, snapshot); }
        ghost var storageBefore := storage;
        var errCount := CleanUpPage(snapshot, candidates);
        KeptAgain(start, snapshot, db, storageBefore, storage);
        RestAgain(start, snapshot, db, storageBefore, storage);
        SparedLater(start, snapshot, old(storage), storageBefore, storage);
        if errCount > 0 { return Failure(Interrupted); }
        PageLeaves(snapshot, db, storage, candidates);
        page := page + 1;
      }
      result := Success;
      if CandidateIds(db) == {} {
        NoCandidateErasable(db);
        GoneWasFree(start, db);
        StorageAtEnd(start, db, old(storage), storage);
      }
    }
  }
}
