/** The tables behind the permanent deletion of images, and of commits nothing uses any more. */
module ImageCleanup {
  import opened Options
  import opened Tables

  datatype Status = Built | StorageCleaned | OtherStatus

  /** The part of a commit, repo or installer row that stands for something in storage. */
  datatype Artifact = Artifact(status: Status, url: string)

  datatype Image = Image(setId: Option<nat>, commit: nat, installer: Option<nat>, errored: bool, deleted: bool)
  datatype Update = Update(commit: nat, repo: Option<nat>)
  datatype Link = Link(owner: nat, other: nat)

  datatype Db = Db(
    images: map<nat, Image>,
    sets: set<nat>,
    commits: map<nat, Option<nat>>,  // the repo of a commit
    tars: map<nat, Artifact>,        // the tar file of a commit
    repos: map<nat, Artifact>,
    isos: map<nat, Artifact>,        // the iso file of an installer
    updates: map<nat, Update>,
    imageLinks: set<Link>,           // images_packages, images_repos and images_custom_packages, by image
    packages: set<Link>,             // commit_installed_packages, by commit
    oldCommits: set<Link>)           // updatetransaction_commits, by commit

  datatype Failure = CleanupNotAvailable | NotCandidate | StorageFault | Statement(error: Error) | Interrupted
  datatype Result = Success | Failure(why: Failure)

  /** A row of the candidate query, read when its page was. */
  datatype Candidate = Candidate(id: nat, image: Image, tar: Artifact, repo: nat, repoDir: Artifact,
                                 installer: nat, iso: Artifact)

  /** The tables and the files and folders in storage, by address. */
  datatype State = State(db: Db, storage: set<string>)

  /** A storage call or a statement has failed. */
  predicate IsFault(result: Result) {
    result == Failure(StorageFault) || result == Failure(Statement(DatabaseFault))
  }

  // ----- foreign keys -----

  ghost predicate Valid(db: Db) {
    && db.tars.Keys == db.commits.Keys
    && (forall i | i in db.images :: ImageRowOk(db, db.images[i]))
    && (forall c | c in db.commits && db.commits[c].Some? :: db.commits[c].value in db.repos)
    && (forall u | u in db.updates :: db.updates[u].commit in db.commits)
    && (forall u | u in db.updates && db.updates[u].repo.Some? :: db.updates[u].repo.value in db.repos)
    && (forall k | k in db.imageLinks :: k.owner in db.images)
    && (forall k | k in db.packages :: k.owner in db.commits)
    && (forall k | k in db.oldCommits :: k.owner in db.commits)
  }

  ghost predicate ImageRowOk(db: Db, image: Image) {
    && (image.setId.Some? ==> image.setId.value in db.sets)
    && image.commit in db.commits
    && (image.installer.Some? ==> image.installer.value in db.isos)
  }

  predicate CommitHasImage(db: Db, c: nat) {
    exists i | i in db.images :: db.images[i].commit == c
  }

  predicate InstallerHasImage(db: Db, n: nat) {
    exists i | i in db.images :: db.images[i].installer == Some(n)
  }

  predicate SetHasImage(db: Db, s: nat) {
    exists i | i in db.images :: db.images[i].setId == Some(s)
  }

  predicate CommitHasUpdate(db: Db, c: nat) {
    exists u | u in db.updates :: db.updates[u].commit == c
  }

  predicate RepoInUse(db: Db, r: nat) {
    || (exists c | c in db.commits :: db.commits[c] == Some(r))
    || (exists u | u in db.updates :: db.updates[u].repo == Some(r))
  }

  // ----- candidates -----

  /** The joins of the candidate query find a row for the image. */
  predicate Joined(db: Db, i: nat) {
    && i in db.images && db.images[i].commit in db.commits && db.images[i].commit in db.tars
    && db.commits[db.images[i].commit].Some? && db.commits[db.images[i].commit].value in db.repos
    && db.images[i].installer.Some? && db.images[i].installer.value in db.isos
  }

  function CandidateOf(db: Db, i: nat): Candidate
    requires Joined(db, i)
  {
    var image := db.images[i];
    var repo := db.commits[image.commit].value;
    var installer := image.installer.value;
    Candidate(i, image, db.tars[image.commit], repo, db.repos[repo], installer, db.isos[installer])
  }

  /** Deleted images, and errored ones that still have something in storage. */
  predicate IsCandidate(db: Db, i: nat) {
    && Joined(db, i)
    && var c := CandidateOf(db, i);
       c.image.deleted || (c.image.errored && (c.repoDir.status.Built? || c.tar.status.Built? || c.iso.status.Built?))
  }

  function CandidateIds(db: Db): set<nat> {
    set i | i in db.images && IsCandidate(db, i)
  }

  /** An image with an installer and a commit with a repo is handled exactly when it is deleted, or is in error with a
      built tar file, repo or iso file. */
  lemma CandidatesExactly(db: Db, i: nat)
    requires Valid(db) && i in db.images
    ensures i in CandidateIds(db) <==>
            var image := db.images[i];
            && image.commit in db.commits && db.commits[image.commit].Some? && image.installer.Some?
            && (|| image.deleted
                || (image.errored && (|| db.tars[image.commit].status.Built?
                                      || db.repos[db.commits[image.commit].value].status.Built?
                                      || db.isos[image.installer.value].status.Built?)))
  {
    assert ImageRowOk(db, db.images[i]);
  }

  // ----- storage -----

  function Wiped(table: map<nat, Artifact>, id: nat): map<nat, Artifact> {
    if id in table then table[id := Artifact(StorageCleaned, "")] else table
  }

  /** Rows only disappear or are marked as cleaned, and a built one only after its file or folder has been deleted. */
  ghost predicate Worn(start: map<nat, Artifact>, table: map<nat, Artifact>, storage: set<string>) {
    && (forall id | id in table :: id in start && (table[id] == start[id] || table[id] == Artifact(StorageCleaned, "")))
    && (forall id | id in start && start[id].status.Built? && start[id].url != "" ::
          (id in table && table[id] == start[id]) || start[id].url !in storage)
  }

  /** The artifact of a candidate may be marked or erased. */
  predicate Cleared(artifact: Artifact, storage: set<string>) {
    artifact.status.Built? && artifact.url != "" ==> artifact.url !in storage
  }

  /** Storage after the file or folder of a built artifact has been deleted. */
  function WithoutFile(artifact: Artifact, storage: set<string>): set<string> {
    if artifact.status.Built? && artifact.url != "" then storage - {artifact.url} else storage
  }

  /** The addresses of the built artifacts of a candidate. */
  function FilesOf(c: Candidate): set<string> {
    set a | a in {c.tar, c.repoDir, c.iso} && a.status.Built? && a.url != "" :: a.url
  }

  /** The files and folders of all candidates. */
  function CandidateFiles(db: Db): set<string> {
    set i, url | i in CandidateIds(db) && url in FilesOf(CandidateOf(db, i)) :: url
  }

  /** Files only go, and only those of candidates. */
  ghost predicate Spared(db: Db, storage: set<string>, storage': set<string>) {
    storage - CandidateFiles(db) <= storage' <= storage
  }

  lemma WornStep(start: map<nat, Artifact>, table: map<nat, Artifact>, storage: set<string>, id: nat)
    requires Worn(start, table, storage) && (id in start ==> Cleared(start[id], storage))
    ensures Worn(start, Wiped(table, id), storage) && Worn(start, table - {id}, storage)
  {
  }

  /** Deleting more from storage changes nothing. */
  lemma WornLess(start: map<nat, Artifact>, table: map<nat, Artifact>, storage: set<string>, storage': set<string>)
    requires Worn(start, table, storage) && storage' <= storage
    ensures Worn(start, table, storage')
  {
  }

  lemma WornAgain(a: map<nat, Artifact>, b: map<nat, Artifact>, c: map<nat, Artifact>,
                  storage: set<string>, storage': set<string>)
    requires Worn(a, b, storage) && Worn(b, c, storage') && storage' <= storage
    ensures Worn(a, c, storage')
  {
    forall id | id in a && a[id].status.Built? && a[id].url != "" && a[id].url in storage'
      ensures id in c && c[id] == a[id]
    {
      assert id in b && b[id] == a[id];
    }
  }

  // ----- permanent deletion of an image -----

  function WithoutImage(db: Db, i: nat, c: nat): Db {
    db.(imageLinks := (set k | k in db.imageLinks && k.owner != i),
        packages := (set k | k in db.packages && k.owner != c),
        oldCommits := (set k | k in db.oldCommits && k.owner != c),
        images := db.images - {i})
  }

  function WithoutCommit(db: Db, c: nat, repo: Option<nat>): Db {
    db.(commits := db.commits - {c}, tars := db.tars - {c},
        repos := if repo.Some? then db.repos - {repo.value} else db.repos)
  }

  /** A commit row cannot go while an image, an update, or a join row has it, nor its repo while another row has
      that. */
  predicate CommitStuck(db: Db, c: nat, repo: Option<nat>) {
    || CommitHasImage(db, c) || CommitHasUpdate(db, c)
    || (exists k | k in db.packages :: k.owner == c) || (exists k | k in db.oldCommits :: k.owner == c)
    || (repo.Some? && RepoInUse(db.(commits := db.commits - {c}), repo.value))
  }

  /** One transaction: the image with its links, then its commit and repo unless an update needs the commit, its
      installer, and its set when that has no image left. */
  function EraseImage(db: Db, c: Candidate): (Db, Result) {
    var db1 := WithoutImage(db, c.id, c.image.commit);
    if !CommitHasUpdate(db1, c.image.commit) && CommitStuck(db1, c.image.commit, Some(c.repo)) then
      (db, Failure(Statement(ForeignKeyViolation)))
    else
      var db2 := if CommitHasUpdate(db1, c.image.commit) then db1 else WithoutCommit(db1, c.image.commit, Some(c.repo));
      if InstallerHasImage(db2, c.installer) then (db, Failure(Statement(ForeignKeyViolation)))
      else (WithoutInstallerAndSet(db2, c.installer, c.image.setId), Success)
  }

  function WithoutInstallerAndSet(db: Db, n: nat, s: Option<nat>): Db {
    db.(isos := db.isos - {n}, sets := if s.None? || SetHasImage(db, s.value) then db.sets else db.sets - {s.value})
  }

  /** Another row has the installer of the image, or the commit or repo that would go with it. */
  ghost predicate Shares(db: Db, i: nat, commit: nat, repo: nat, installer: nat) {
    || (exists j :: j in db.images && j != i && db.images[j].installer == Some(installer))
    || (!CommitHasUpdate(db, commit) && SharesCommit(db, i, commit, repo))
  }

  ghost predicate SharesCommit(db: Db, i: nat, commit: nat, repo: nat) {
    (exists j :: j in db.images && j != i && db.images[j].commit == commit) || SharesRepo(db, commit, Some(repo))
  }

  /** Another commit, or an update, has the repo of the commit. */
  ghost predicate SharesRepo(db: Db, commit: nat, repo: Option<nat>) {
    && repo.Some?
    && ((exists d :: d in db.commits && d != commit && db.commits[d] == repo)
        || (exists u :: u in db.updates && db.updates[u].repo == repo))
  }

  /** Erasing an image fails exactly when its installer, or a commit or repo that would go, is shared. */
  lemma EraseImageFailsExactly(db: Db, c: Candidate)
    ensures EraseImage(db, c).1 != Success <==> Shares(db, c.id, c.image.commit, c.repo, c.installer)
  {
    var db1 := WithoutImage(db, c.id, c.image.commit);
    assert CommitHasUpdate(db1, c.image.commit) <==> CommitHasUpdate(db, c.image.commit);
    InstallerLeft(db, c);
    if !CommitHasUpdate(db, c.image.commit) {
      CommitStuckExactly(db, c);
    }
  }

  lemma InstallerLeft(db: Db, c: Candidate)
    ensures InstallerHasImage(WithoutImage(db, c.id, c.image.commit), c.installer) <==>
            exists i :: i in db.images && i != c.id && db.images[i].installer == Some(c.installer)
  {
    var db1 := WithoutImage(db, c.id, c.image.commit);
    if i :| i in db.images && i != c.id && db.images[i].installer == Some(c.installer) {
      assert i in db1.images;
    }
  }

  lemma CommitStuckExactly(db: Db, c: Candidate)
    requires !CommitHasUpdate(db, c.image.commit)
    ensures CommitStuck(WithoutImage(db, c.id, c.image.commit), c.image.commit, Some(c.repo)) <==>
            SharesCommit(db, c.id, c.image.commit, c.repo)
  {
    var db1 := WithoutImage(db, c.id, c.image.commit);
    if i :| i in db.images && i != c.id && db.images[i].commit == c.image.commit {
      assert i in db1.images;
    }
    RepoInUseExactly(db1, c.image.commit, c.repo);
  }

  lemma RepoInUseExactly(db: Db, c: nat, repo: nat)
    ensures RepoInUse(db.(commits := db.commits - {c}), repo) <==> SharesRepo(db, c, Some(repo))
  {
    var rest := db.(commits := db.commits - {c});
    if d :| d in db.commits && d != c && db.commits[d] == Some(repo) {
      assert d in rest.commits;
    }
  }

  /** With the image its commit and repo go exactly when no update has the commit, and its set exactly when it was the
      last image of it; of the links go exactly those of the image and of its commit. */
  lemma EraseImageExactly(db: Db, c: Candidate)
    requires Valid(db) && EraseImage(db, c).1 == Success && c.id in db.images && db.images[c.id] == c.image
    ensures var db' := EraseImage(db, c).0;
            && db'.images == db.images - {c.id} && db'.updates == db.updates
            && (c.image.commit in db'.commits <==> CommitHasUpdate(db, c.image.commit))
            && (c.image.setId.Some? ==>
                  (c.image.setId.value in db'.sets <==>
                   exists i :: i in db.images && i != c.id && db.images[i].setId == c.image.setId))
            && (c.image.setId.None? ==> db'.sets == db.sets)
            && c.installer !in db'.isos
            && (forall k :: k in db'.imageLinks <==> k in db.imageLinks && k.owner != c.id)
            && (forall k :: k in db'.packages <==> k in db.packages && k.owner != c.image.commit)
            && (forall k :: k in db'.oldCommits <==> k in db.oldCommits && k.owner != c.image.commit)
  {
    EraseRest(db, c);
    assert ImageRowOk(db, c.image);
    EraseOwnSet(db, c);
  }

  lemma EraseOwnSet(db: Db, c: Candidate)
    requires EraseImage(db, c).1 == Success
    ensures c.image.setId.None? ==> EraseImage(db, c).0.sets == db.sets
    ensures c.image.setId.Some? && c.image.setId.value in db.sets ==>
              (c.image.setId.value in EraseImage(db, c).0.sets <==>
               exists i :: i in db.images && i != c.id && db.images[i].setId == c.image.setId)
  {
    var db1 := WithoutImage(db, c.id, c.image.commit);
    if i :| i in db.images && i != c.id && db.images[i].setId == c.image.setId {
      assert i in db1.images;
    }
  }

  /** Two deleted images with one installer: neither can be erased. */
  lemma SharedInstallerStays()
    ensures var built := Artifact(Built, "u");
            var image := Image(Some(1), 1, Some(1), false, true);
            var db := Db(map[1 := image, 2 := image.(commit := 2)], {1}, map[1 := Some(1), 2 := Some(2)],
                         map[1 := built, 2 := built], map[1 := built, 2 := built], map[1 := built], map[], {}, {}, {});
            && Valid(db) && CandidateIds(db) == {1, 2}
            && EraseImage(db, CandidateOf(db, 1)).1 == Failure(Statement(ForeignKeyViolation))
            && EraseImage(db, CandidateOf(db, 2)).1 == Failure(Statement(ForeignKeyViolation))
  {
    var built := Artifact(Built, "u");
    var image := Image(Some(1), 1, Some(1), false, true);
    var db := Db(map[1 := image, 2 := image.(commit := 2)], {1}, map[1 := Some(1), 2 := Some(2)],
                 map[1 := built, 2 := built], map[1 := built, 2 := built], map[1 := built], map[], {}, {}, {});
    assert db.images[1].installer == Some(1) && db.images[2].installer == Some(1);
    EraseImageFailsExactly(db, CandidateOf(db, 1));
    EraseImageFailsExactly(db, CandidateOf(db, 2));
  }

  // ----- rows that are shared stay shared -----

  /** A deleted image with an installer, whose commit has a repo. */
  predicate Erasable(db: Db, i: nat) {
    && i in db.images && db.images[i].deleted && db.images[i].installer.Some?
    && db.images[i].commit in db.commits && db.commits[db.images[i].commit].Some?
  }

  function ErasableIds(db: Db): set<nat> {
    set i | i in db.images && Erasable(db, i)
  }

  /** Erasing the image would break a foreign key. */
  ghost predicate Stuck(db: Db, i: nat) {
    && Erasable(db, i)
    && var image := db.images[i];
       Shares(db, i, image.commit, db.commits[image.commit].value, image.installer.value)
  }

  ghost predicate NothingStuck(db: Db) {
    forall i | i in db.images :: !Stuck(db, i)
  }

  /** No step frees an image of what it shares. */
  ghost predicate StuckStays(start: Db, db: Db) {
    forall i | i in start.images && Stuck(start, i) :: Stuck(db, i)
  }

  lemma StuckFrame(start: Db, db: Db, db': Db)
    requires StuckStays(start, db) && db'.images == db.images && db'.commits == db.commits && db'.updates == db.updates
    ensures StuckStays(start, db')
  {
    forall i | i in start.images && Stuck(start, i) ensures Stuck(db', i) {
      var image := db.images[i];
      assert SharesRepo(db', image.commit, db.commits[image.commit]) <==>
             SharesRepo(db, image.commit, db.commits[image.commit]);
    }
  }

  /** The candidate as the tables have it, as far as they still do. */
  ghost predicate Matches(db: Db, c: Candidate) {
    && c.image.installer == Some(c.installer)
    && (c.id in db.images ==> db.images[c.id] == c.image)
    && (c.image.commit in db.commits ==> db.commits[c.image.commit] == Some(c.repo))
  }

  /** Whoever shares a row with a stuck image is stuck as well, so erasing another image frees none. */
  lemma EraseKeepsStuck(db: Db, c: Candidate, i: nat)
    requires Stuck(db, i) && EraseImage(db, c).1 == Success && Matches(db, c)
    ensures Stuck(EraseImage(db, c).0, i)
  {
    EraseImageFailsExactly(db, c);
    assert i != c.id;
    var db' := EraseImage(db, c).0;
    var commit, n := db.images[i].commit, db.images[i].installer.value;
    var repo := db.commits[commit].value;
    EraseKeepsCommit(db, c, i);
    assert CommitHasUpdate(db', commit) <==> CommitHasUpdate(db, commit);
    if j :| j in db.images && j != i && db.images[j].installer == Some(n) {
      assert j != c.id;
      assert j in db'.images && db'.images[j].installer == Some(n);
    } else {
      EraseKeepsSharedCommit(db, c, i);
    }
  }

  lemma EraseKeepsCommit(db: Db, c: Candidate, i: nat)
    requires Erasable(db, i) && i != c.id && EraseImage(db, c).1 == Success && Matches(db, c)
    ensures Erasable(EraseImage(db, c).0, i)
  {
    EraseImageFailsExactly(db, c);
    var commit := db.images[i].commit;
    if commit == c.image.commit && !CommitHasUpdate(db, commit) {
      assert SharesCommit(db, c.id, commit, c.repo);
    }
  }

  lemma EraseKeepsSharedCommit(db: Db, c: Candidate, i: nat)
    requires Erasable(db, i) && i != c.id && EraseImage(db, c).1 == Success && Matches(db, c)
    requires var commit := db.images[i].commit;
             !CommitHasUpdate(db, commit) && SharesCommit(db, i, commit, db.commits[commit].value)
    ensures var commit := db.images[i].commit;
            SharesCommit(EraseImage(db, c).0, i, commit, db.commits[commit].value)
  {
    EraseImageFailsExactly(db, c);
    var db' := EraseImage(db, c).0;
    var commit := db.images[i].commit;
    var repo := db.commits[commit].value;
    if j :| j in db.images && j != i && db.images[j].commit == commit {
      assert j != c.id;
      assert j in db'.images;
    } else if d :| d in db.commits && d != commit && db.commits[d] == Some(repo) {
      assert d in db'.commits by {
        if d == c.image.commit {
          assert SharesRepo(db, d, Some(c.repo));
        }
      }
    } else {
      assert db'.updates == db.updates;
    }
  }

  // ----- what a cleanup keeps -----

  /** Rows only disappear; images that cannot be erased, and updates, stay. */
  ghost predicate KeptRows(start: Db, db: Db) {
    && db.images.Keys <= start.images.Keys && (forall i | i in db.images :: db.images[i] == start.images[i])
    && (forall i | i in start.images && !Erasable(start, i) :: i in db.images)
    && db.commits.Keys <= start.commits.Keys && (forall c | c in db.commits :: db.commits[c] == start.commits[c])
    && db.sets <= start.sets && db.updates == start.updates
  }

  /** An image of the commit has been erased. */
  ghost predicate ImageErased(start: Db, db: Db, c: nat) {
    exists i :: i in start.images && i !in db.images && start.images[i].commit == c
  }

  ghost predicate InstallerErased(start: Db, db: Db, n: nat) {
    exists i :: i in start.images && i !in db.images && start.images[i].installer == Some(n)
  }

  ghost predicate CommitGone(start: Db, db: Db, r: nat) {
    exists c :: c in start.commits && c !in db.commits && start.commits[c] == Some(r)
  }

  /** What hangs on an image goes exactly when that does: its packages, repositories and custom packages, the links of
      its commit, its installer, its commit unless an update has that, the repo of that commit, and its set when no
      other image of the set is left. */
  ghost predicate Follows(start: Db, db: Db) {
    && (forall k :: k in db.imageLinks <==> k in start.imageLinks && k.owner in db.images)
    && (forall k :: k in db.packages <==> k in start.packages && !ImageErased(start, db, k.owner))
    && (forall k :: k in db.oldCommits <==> k in start.oldCommits && !ImageErased(start, db, k.owner))
    && (forall c :: c in db.commits <==>
          c in start.commits && (ImageErased(start, db, c) ==> CommitHasUpdate(start, c)))
    && (forall r :: r in db.repos <==> r in start.repos && !CommitGone(start, db, r))
    && (forall n :: n in db.isos <==> n in start.isos && !InstallerErased(start, db, n))
    && (forall s :: s in db.sets <==> s in start.sets && (SetHasImage(start, s) ==> SetHasImage(db, s)))
  }

  lemma FollowsSelf(db: Db)
    requires Valid(db)
    ensures Follows(db, db)
  {
  }

  lemma FollowsFrame(start: Db, db: Db, db': Db)
    requires Follows(start, db)
    requires db' == db.(tars := db'.tars, repos := db'.repos, isos := db'.isos)
    requires db'.repos.Keys == db.repos.Keys && db'.isos.Keys == db.isos.Keys
    ensures Follows(start, db')
  {
    forall c ensures ImageErased(start, db', c) <==> ImageErased(start, db, c) {}
    forall n ensures InstallerErased(start, db', n) <==> InstallerErased(start, db, n) {}
    forall r ensures CommitGone(start, db', r) <==> CommitGone(start, db, r) {}
    forall s ensures SetHasImage(db', s) <==> SetHasImage(db, s) {}
  }

  lemma ErasedLater(a: Db, b: Db, c: Db)
    requires KeptRows(a, b) && KeptRows(b, c)
    ensures forall x :: ImageErased(a, c, x) <==> ImageErased(a, b, x) || ImageErased(b, c, x)
    ensures forall n :: InstallerErased(a, c, n) <==> InstallerErased(a, b, n) || InstallerErased(b, c, n)
    ensures forall r :: CommitGone(a, c, r) <==> CommitGone(a, b, r) || CommitGone(b, c, r)
    ensures forall s: nat | SetHasImage(c, s) :: SetHasImage(b, s)
  {
    forall x: nat ensures ImageErased(a, c, x) <==> ImageErased(a, b, x) || ImageErased(b, c, x) {
      if i :| i in a.images && i !in c.images && a.images[i].commit == x {
        assert i in b.images ==> b.images[i] == a.images[i];
      }
    }
    forall n: nat ensures InstallerErased(a, c, n) <==> InstallerErased(a, b, n) || InstallerErased(b, c, n) {
      if i :| i in a.images && i !in c.images && a.images[i].installer == Some(n) {
        assert i in b.images ==> b.images[i] == a.images[i];
      }
    }
    forall r: nat ensures CommitGone(a, c, r) <==> CommitGone(a, b, r) || CommitGone(b, c, r) {
      if x :| x in a.commits && x !in c.commits && a.commits[x] == Some(r) {
        assert x in b.commits ==> b.commits[x] == a.commits[x];
      }
    }
    forall s: nat | SetHasImage(c, s) ensures SetHasImage(b, s) {
      var i :| i in c.images && c.images[i].setId == Some(s);
      assert b.images[i].setId == Some(s);
    }
  }

  lemma FollowsAgain(a: Db, b: Db, c: Db)
    requires KeptRows(a, b) && KeptRows(b, c) && Follows(a, b) && Follows(b, c)
    ensures Follows(a, c)
  {
    ErasedLater(a, b, c);
    forall x: nat ensures CommitHasUpdate(b, x) <==> CommitHasUpdate(a, x) {}
    forall s: nat | SetHasImage(b, s) ensures SetHasImage(a, s) {
      var i :| i in b.images && b.images[i].setId == Some(s);
      assert a.images[i].setId == Some(s);
    }
  }

  /** The candidates that are gone have left nothing in storage. */
  ghost predicate GoneCleared(start: Db, db: Db, storage: set<string>) {
    forall i | i in CandidateIds(start) && i !in db.images :: AllCleared(CandidateOf(start, i), storage)
  }

  /** A candidate has the built tar file, repo or iso file. */
  ghost predicate TarOfCandidate(db: Db, c: nat) {
    exists i :: i in CandidateIds(db) && db.images[i].commit == c && CandidateOf(db, i).tar.status.Built?
  }

  ghost predicate RepoOfCandidate(db: Db, r: nat) {
    exists i :: i in CandidateIds(db) && CandidateOf(db, i).repo == r && CandidateOf(db, i).repoDir.status.Built?
  }

  ghost predicate IsoOfCandidate(db: Db, n: nat) {
    exists i :: i in CandidateIds(db) && CandidateOf(db, i).installer == n && CandidateOf(db, i).iso.status.Built?
  }

  /** Rows only disappear or are cleaned, with storage first, and foreign keys stay valid. */
  ghost predicate Kept(start: Db, db: Db, storage: set<string>) {
    && Valid(db) && KeptRows(start, db) && StuckStays(start, db) && GoneCleared(start, db, storage)
    && Worn(start.tars, db.tars, storage) && Worn(start.repos, db.repos, storage) && Worn(start.isos, db.isos, storage)
  }

  lemma GoneClearedAgain(a: Db, b: Db, c: Db, storage: set<string>, storage': set<string>)
    requires Kept(a, b, storage) && Kept(b, c, storage') && storage' <= storage
    ensures GoneCleared(a, c, storage')
  {
    forall i | i in CandidateIds(a) && i !in c.images ensures AllCleared(CandidateOf(a, i), storage') {
      if i in b.images {
        StillJoined(a, b, storage, i);
        assert i in CandidateIds(b);
        ArtifactsBefore(a, b, storage, storage', i);
      }
    }
  }

  /** A candidate row keeps what the query joins it with. */
  lemma StillJoined(start: Db, db: Db, storage: set<string>, i: nat)
    requires Kept(start, db, storage) && Joined(start, i) && i in db.images
    ensures Joined(db, i) && db.images[i] == start.images[i]
    ensures CandidateOf(db, i).repo == CandidateOf(start, i).repo
    ensures CandidateOf(db, i).installer == CandidateOf(start, i).installer
  {
    assert ImageRowOk(db, db.images[i]);
  }

  /** What is out of storage for the artifacts as they are now is so for what they were. */
  lemma ArtifactsBefore(start: Db, db: Db, storage: set<string>, storage': set<string>, i: nat)
    requires Kept(start, db, storage) && Joined(start, i) && i in db.images && Joined(db, i) && storage' <= storage
    requires AllCleared(CandidateOf(db, i), storage')
    ensures AllCleared(CandidateOf(start, i), storage')
  {
    StillJoined(start, db, storage, i);
  }

  lemma KeptAgain(a: Db, b: Db, c: Db, storage: set<string>, storage': set<string>)
    requires Kept(a, b, storage) && Kept(b, c, storage') && storage' <= storage
    ensures Kept(a, c, storage')
  {
    GoneClearedAgain(a, b, c, storage, storage');
    WornAgain(a.tars, b.tars, c.tars, storage, storage');
    WornAgain(a.repos, b.repos, c.repos, storage, storage');
    WornAgain(a.isos, b.isos, c.isos, storage, storage');
  }

  ghost predicate TarMarks(start: Db, db: Db) {
    forall c | c in db.tars && c in start.tars && db.tars[c] != start.tars[c] :: TarOfCandidate(start, c)
  }

  ghost predicate RepoMarks(start: Db, db: Db) {
    forall r | r in db.repos && r in start.repos && db.repos[r] != start.repos[r] :: RepoOfCandidate(start, r)
  }

  ghost predicate IsoMarks(start: Db, db: Db) {
    forall n | n in db.isos && n in start.isos && db.isos[n] != start.isos[n] :: IsoOfCandidate(start, n)
  }

  /** The rest of the tables goes with the images, and only the rows of built artifacts of candidates are marked. */
  ghost predicate Rest(start: Db, db: Db) {
    Follows(start, db) && TarMarks(start, db) && RepoMarks(start, db) && IsoMarks(start, db)
  }

  lemma TarMarksAgain(a: Db, b: Db, c: Db)
    requires KeptRows(a, b) && CandidateIds(b) <= CandidateIds(a) && c.tars.Keys <= b.tars.Keys
    requires TarMarks(a, b) && TarMarks(b, c)
    ensures TarMarks(a, c)
  {
    forall x | x in c.tars && x in a.tars && c.tars[x] != a.tars[x] ensures TarOfCandidate(a, x) {
      if b.tars[x] == a.tars[x] {
        var i :| i in CandidateIds(b) && b.images[i].commit == x && CandidateOf(b, i).tar.status.Built?;
        assert i in CandidateIds(a);
      }
    }
  }

  lemma RepoMarksAgain(a: Db, b: Db, c: Db)
    requires KeptRows(a, b) && CandidateIds(b) <= CandidateIds(a) && c.repos.Keys <= b.repos.Keys
    requires RepoMarks(a, b) && RepoMarks(b, c)
    ensures RepoMarks(a, c)
  {
    forall x | x in c.repos && x in a.repos && c.repos[x] != a.repos[x] ensures RepoOfCandidate(a, x) {
      if b.repos[x] == a.repos[x] {
        var i :| i in CandidateIds(b) && CandidateOf(b, i).repo == x && CandidateOf(b, i).repoDir.status.Built?;
        assert i in CandidateIds(a);
      }
    }
  }

  lemma IsoMarksAgain(a: Db, b: Db, c: Db)
    requires KeptRows(a, b) && CandidateIds(b) <= CandidateIds(a) && c.isos.Keys <= b.isos.Keys
    requires IsoMarks(a, b) && IsoMarks(b, c)
    ensures IsoMarks(a, c)
  {
    forall x | x in c.isos && x in a.isos && c.isos[x] != a.isos[x] ensures IsoOfCandidate(a, x) {
      if b.isos[x] == a.isos[x] {
        var i :| i in CandidateIds(b) && CandidateOf(b, i).installer == x && CandidateOf(b, i).iso.status.Built?;
        assert i in CandidateIds(a);
      }
    }
  }

  lemma RestSelf(db: Db)
    requires Valid(db)
    ensures Rest(db, db)
  {
    FollowsSelf(db);
  }

  lemma RestAgain(a: Db, b: Db, c: Db, storage: set<string>, storage': set<string>)
    requires Kept(a, b, storage) && Kept(b, c, storage') && Rest(a, b) && Rest(b, c)
    ensures Rest(a, c)
  {
    FollowsAgain(a, b, c);
    NoNewCandidates(a, b, storage);
    TarMarksAgain(a, b, c);
    RepoMarksAgain(a, b, c);
    IsoMarksAgain(a, b, c);
  }

  lemma KeptSelf(db: Db, storage: set<string>)
    requires Valid(db)
    ensures Kept(db, db, storage)
  {
  }

  /** Fewer rows share less. */
  lemma SharesBefore(start: Db, db: Db, i: nat, commit: nat, repo: nat, installer: nat)
    requires KeptRows(start, db) && Shares(db, i, commit, repo, installer)
    ensures Shares(start, i, commit, repo, installer)
  {
    assert CommitHasUpdate(db, commit) <==> CommitHasUpdate(start, commit);
    if SharesRepo(db, commit, Some(repo)) {
      SharesRepoBefore(start, db, commit, Some(repo));
    }
    if j :| j in db.images && j != i && db.images[j].installer == Some(installer) {
      assert j in start.images;
    }
    if j :| j in db.images && j != i && db.images[j].commit == commit {
      assert j in start.images;
    }
  }

  /** What is stuck was so from the start. */
  lemma StuckBefore(start: Db, db: Db, i: nat)
    requires KeptRows(start, db) && Stuck(db, i)
    ensures Stuck(start, i)
  {
    var image := db.images[i];
    assert image == start.images[i] && db.commits[image.commit] == start.commits[image.commit];
    SharesBefore(start, db, i, image.commit, db.commits[image.commit].value, image.installer.value);
  }

  lemma SharesRepoBefore(start: Db, db: Db, c: nat, repo: Option<nat>)
    requires KeptRows(start, db) && SharesRepo(db, c, repo)
    ensures SharesRepo(start, c, repo)
  {
    if d :| d in db.commits && d != c && db.commits[d] == repo {
      assert d in start.commits;
    }
  }

  lemma NothingStuckStays(start: Db, db: Db)
    requires KeptRows(start, db) && NothingStuck(start)
    ensures NothingStuck(db)
  {
    forall i | i in db.images ensures !Stuck(db, i) {
      if Stuck(db, i) {
        StuckBefore(start, db, i);
      }
    }
  }

  /** An image that is gone was not stuck. */
  lemma GoneWasFree(start: Db, db: Db)
    requires Valid(db) && KeptRows(start, db) && StuckStays(start, db) && ErasableIds(db) == {}
    ensures NothingStuck(start) && db.images.Keys == start.images.Keys - ErasableIds(start)
  {
    forall i | i in start.images ensures !Stuck(start, i) && (i in db.images <==> !Erasable(start, i)) {
      assert i !in ErasableIds(db);
      if i in db.images {
        assert ImageRowOk(db, db.images[i]);
      }
    }
  }

  /** Marking rows as cleaned breaks nothing. */
  lemma CleanedKept(start: Db, db: Db, db': Db, storage: set<string>)
    requires Valid(db) && KeptRows(start, db) && StuckStays(start, db) && GoneCleared(start, db, storage)
    requires db' == db.(tars := db'.tars, repos := db'.repos, isos := db'.isos)
    requires db'.tars.Keys == db.tars.Keys && db'.repos.Keys == db.repos.Keys && db'.isos.Keys == db.isos.Keys
    requires Worn(start.tars, db'.tars, storage) && Worn(start.repos, db'.repos, storage)
    requires Worn(start.isos, db'.isos, storage)
    ensures Kept(start, db', storage)
  {
    StuckFrame(start, db, db');
    forall i | i in db'.images ensures ImageRowOk(db', db'.images[i]) {
      assert ImageRowOk(db, db.images[i]);
    }
  }

  /** The row of a built artifact is marked. */
  function Marked(table: map<nat, Artifact>, id: nat, artifact: Artifact): map<nat, Artifact> {
    if artifact.status.Built? then Wiped(table, id) else table
  }

  lemma WornMark(start: map<nat, Artifact>, table: map<nat, Artifact>, storage: set<string>, id: nat)
    requires Worn(start, table, storage) && id in start && Cleared(start[id], storage)
    ensures var table' := Marked(table, id, start[id]);
            Worn(start, table', storage) && Faded(table, table') && Unbuilt(table', id) && table'.Keys == table.Keys
  {
    WornStep(start, table, storage, id);
  }

  lemma TarMarked(start: Db, db: Db, storage: set<string>, i: nat)
    requires Kept(start, db, storage) && Joined(start, i) && Cleared(CandidateOf(start, i).tar, storage)
    ensures var c := CandidateOf(start, i);
            var db' := db.(tars := Marked(db.tars, c.image.commit, c.tar));
            Kept(start, db', storage) && Fades(db, db') && Unbuilt(db'.tars, c.image.commit)
  {
    var c := CandidateOf(start, i);
    WornMark(start.tars, db.tars, storage, c.image.commit);
    CleanedKept(start, db, db.(tars := Marked(db.tars, c.image.commit, c.tar)), storage);
  }

  lemma RepoMarked(start: Db, db: Db, storage: set<string>, i: nat)
    requires Kept(start, db, storage) && Joined(start, i) && Cleared(CandidateOf(start, i).repoDir, storage)
    ensures var c := CandidateOf(start, i);
            var db' := db.(repos := Marked(db.repos, c.repo, c.repoDir));
            Kept(start, db', storage) && Fades(db, db') && Unbuilt(db'.repos, c.repo)
  {
    var c := CandidateOf(start, i);
    WornMark(start.repos, db.repos, storage, c.repo);
    CleanedKept(start, db, db.(repos := Marked(db.repos, c.repo, c.repoDir)), storage);
  }

  lemma IsoMarked(start: Db, db: Db, storage: set<string>, i: nat)
    requires Kept(start, db, storage) && Joined(start, i) && Cleared(CandidateOf(start, i).iso, storage)
    ensures var c := CandidateOf(start, i);
            var db' := db.(isos := Marked(db.isos, c.installer, c.iso));
            Kept(start, db', storage) && Fades(db, db') && Unbuilt(db'.isos, c.installer)
  {
    var c := CandidateOf(start, i);
    WornMark(start.isos, db.isos, storage, c.installer);
    CleanedKept(start, db, db.(isos := Marked(db.isos, c.installer, c.iso)), storage);
  }

  lemma TarMarkedOnly(start: Db, db: Db, i: nat)
    requires TarMarks(start, db) && IsCandidate(start, i)
    ensures var c := CandidateOf(start, i); TarMarks(start, db.(tars := Marked(db.tars, c.image.commit, c.tar)))
  {
    var c := CandidateOf(start, i);
    if c.tar.status.Built? {
      assert i in CandidateIds(start) && TarOfCandidate(start, c.image.commit);
    }
  }

  lemma TarMarkedRest(start: Db, db: Db, i: nat)
    requires Rest(start, db) && IsCandidate(start, i)
    ensures var c := CandidateOf(start, i); Rest(start, db.(tars := Marked(db.tars, c.image.commit, c.tar)))
  {
    var c := CandidateOf(start, i);
    FollowsFrame(start, db, db.(tars := Marked(db.tars, c.image.commit, c.tar)));
    TarMarkedOnly(start, db, i);
  }

  lemma RepoMarkedOnly(start: Db, db: Db, i: nat)
    requires RepoMarks(start, db) && IsCandidate(start, i)
    ensures var c := CandidateOf(start, i); RepoMarks(start, db.(repos := Marked(db.repos, c.repo, c.repoDir)))
  {
    var c := CandidateOf(start, i);
    if c.repoDir.status.Built? {
      assert i in CandidateIds(start) && RepoOfCandidate(start, c.repo);
    }
  }

  lemma RepoMarkedRest(start: Db, db: Db, i: nat)
    requires Rest(start, db) && IsCandidate(start, i)
    ensures var c := CandidateOf(start, i); Rest(start, db.(repos := Marked(db.repos, c.repo, c.repoDir)))
  {
    var c := CandidateOf(start, i);
    FollowsFrame(start, db, db.(repos := Marked(db.repos, c.repo, c.repoDir)));
    RepoMarkedOnly(start, db, i);
  }

  lemma IsoMarkedOnly(start: Db, db: Db, i: nat)
    requires IsoMarks(start, db) && IsCandidate(start, i)
    ensures var c := CandidateOf(start, i); IsoMarks(start, db.(isos := Marked(db.isos, c.installer, c.iso)))
  {
    var c := CandidateOf(start, i);
    if c.iso.status.Built? {
      assert i in CandidateIds(start) && IsoOfCandidate(start, c.installer);
    }
  }

  lemma IsoMarkedRest(start: Db, db: Db, i: nat)
    requires Rest(start, db) && IsCandidate(start, i)
    ensures var c := CandidateOf(start, i); Rest(start, db.(isos := Marked(db.isos, c.installer, c.iso)))
  {
    var c := CandidateOf(start, i);
    FollowsFrame(start, db, db.(isos := Marked(db.isos, c.installer, c.iso)));
    IsoMarkedOnly(start, db, i);
  }

  /** Deleting more from storage changes nothing in the tables. */
  lemma KeptLess(start: Db, db: Db, storage: set<string>, storage': set<string>)
    requires Kept(start, db, storage) && storage' <= storage
    ensures Kept(start, db, storage')
  {
    WornLess(start.tars, db.tars, storage, storage');
    WornLess(start.repos, db.repos, storage, storage');
    WornLess(start.isos, db.isos, storage, storage');
  }

  /** No new candidate ever appears. */
  lemma NoNewCandidates(start: Db, db: Db, storage: set<string>)
    requires Kept(start, db, storage)
    ensures CandidateIds(db) <= CandidateIds(start)
  {
    forall i | i in CandidateIds(db) ensures i in CandidateIds(start) {
      var image := db.images[i];
      assert image == start.images[i] && db.commits[image.commit] == start.commits[image.commit];
    }
  }

  /** No new file becomes that of a candidate. */
  lemma CandidateFilesShrink(start: Db, db: Db, storage: set<string>)
    requires Kept(start, db, storage)
    ensures CandidateFiles(db) <= CandidateFiles(start)
  {
    NoNewCandidates(start, db, storage);
    forall i, url | i in CandidateIds(db) && url in FilesOf(CandidateOf(db, i)) ensures url in CandidateFiles(start) {
      assert i in CandidateIds(start);
      StillJoined(start, db, storage, i);
      FileBefore(start, db, storage, i, url);
    }
  }

  lemma FileBefore(start: Db, db: Db, storage: set<string>, i: nat, url: string)
    requires Kept(start, db, storage) && Joined(start, i) && i in db.images && Joined(db, i)
    requires url in FilesOf(CandidateOf(db, i))
    ensures url in FilesOf(CandidateOf(start, i))
  {
    StillJoined(start, db, storage, i);
    var c := CandidateOf(db, i);
    var a :| a in {c.tar, c.repoDir, c.iso} && a.status.Built? && a.url == url;
    assert a in {CandidateOf(start, i).tar, CandidateOf(start, i).repoDir, CandidateOf(start, i).iso};
  }

  lemma SparedLater(start: Db, db: Db, before: set<string>, storage: set<string>, storage': set<string>)
    requires Kept(start, db, storage) && Spared(start, before, storage) && Spared(db, storage, storage')
    ensures Spared(start, before, storage')
  {
    CandidateFilesShrink(start, db, storage);
  }

  /** Once no candidate is left, exactly the files and folders of the candidates have gone. */
  lemma StorageAtEnd(start: Db, db: Db, storage: set<string>, storage': set<string>)
    requires Kept(start, db, storage') && Spared(start, storage, storage') && CandidateIds(db) == {}
    ensures storage' == storage - CandidateFiles(start)
  {
    forall i, url | i in CandidateIds(start) && url in FilesOf(CandidateOf(start, i)) ensures url !in storage' {
      if i in db.images {
        StillJoined(start, db, storage', i);
        assert i !in CandidateIds(db);
        NothingBuilt(start, db, storage', i);
      }
    }
  }

  lemma NothingBuilt(start: Db, db: Db, storage: set<string>, i: nat)
    requires Kept(start, db, storage) && IsCandidate(start, i) && i in db.images && Joined(db, i) && !IsCandidate(db, i)
    ensures AllCleared(CandidateOf(start, i), storage)
  {
    StillJoined(start, db, storage, i);
  }

  /** An image that stays keeps all its files and folders exactly when no candidate has an artifact with the address of
      one of them. */
  lemma StayingImageKeepsFilesExactly(db: Db, i: nat)
    requires Joined(db, i) && !IsCandidate(db, i)
    ensures FilesOf(CandidateOf(db, i)) !! CandidateFiles(db) <==>
            forall j | j in CandidateIds(db) :: FilesOf(CandidateOf(db, i)) !! FilesOf(CandidateOf(db, j))
  {
    var files := FilesOf(CandidateOf(db, i));
    if j :| j in CandidateIds(db) && !(files !! FilesOf(CandidateOf(db, j))) {
      var url :| url in files && url in FilesOf(CandidateOf(db, j));
      assert url in CandidateFiles(db);
    }
  }

  /** A live and a deleted image with one commit, which an update has: nothing stands in the way of the deletion, and
      the tar file and the folder of the live image's commit go with it. */
  function SharedCommit(): Db {
    var image := Image(Some(1), 1, Some(1), false, false);
    Db(map[1 := image, 2 := image.(installer := Some(2), deleted := true)], {1}, map[1 := Some(1)],
       map[1 := Artifact(Built, "t")], map[1 := Artifact(Built, "r")],
       map[1 := Artifact(OtherStatus, ""), 2 := Artifact(OtherStatus, "")], map[1 := Update(1, None)], {}, {}, {})
  }

  lemma LiveImageLosesFiles()
    ensures var db := SharedCommit();
            && Valid(db) && NothingStuck(db) && Joined(db, 1) && CandidateIds(db) == {2}
            && FilesOf(CandidateOf(db, 1)) == {"t", "r"} && CandidateFiles(db) == {"t", "r"}
  {
    var db := SharedCommit();
    SharedCommitSound();
    TwoFiles(CandidateOf(db, 1), "t", "r");
    TwoFiles(CandidateOf(db, 2), "t", "r");
    assert 2 in CandidateIds(db);
    assert forall url | url in FilesOf(CandidateOf(db, 2)) :: url in CandidateFiles(db);
  }

  lemma SharedCommitSound()
    ensures var db := SharedCommit();
            Valid(db) && NothingStuck(db) && Joined(db, 1) && Joined(db, 2) && CandidateIds(db) == {2}
  {
    assert SharedCommit().updates[1].commit == 1;
  }

  lemma TwoFiles(c: Candidate, tar: string, folder: string)
    requires c.tar == Artifact(Built, tar) && c.repoDir == Artifact(Built, folder) && !c.iso.status.Built?
    requires tar != "" && folder != ""
    ensures FilesOf(c) == {tar, folder}
  {
    assert c.tar in {c.tar, c.repoDir, c.iso} && c.repoDir in {c.tar, c.repoDir, c.iso};
  }

  /** What handling a candidate achieves: a deleted image is gone, an errored one has nothing left in storage. */
  predicate Handled(db: Db, c: Candidate) {
    if c.image.deleted then c.id !in db.images
    else Unbuilt(db.tars, c.image.commit) && Unbuilt(db.repos, c.repo) && Unbuilt(db.isos, c.installer)
  }

  predicate Unbuilt(table: map<nat, Artifact>, id: nat) {
    id in table ==> !table[id].status.Built?
  }

  /** Images only disappear, and artifact rows only disappear or are marked as cleaned. */
  ghost predicate Fades(db: Db, db': Db) {
    && db'.images.Keys <= db.images.Keys
    && Faded(db.tars, db'.tars) && Faded(db.repos, db'.repos) && Faded(db.isos, db'.isos)
  }

  ghost predicate Faded(table: map<nat, Artifact>, table': map<nat, Artifact>) {
    forall id | id in table' :: id in table && (table'[id] == table[id] || table'[id] == Artifact(StorageCleaned, ""))
  }

  lemma EraseImageFades(db: Db, c: Candidate)
    ensures Fades(db, EraseImage(db, c).0)
    ensures EraseImage(db, c).1 == Success ==> c.id !in EraseImage(db, c).0.images
  {
  }

  lemma HandledStays(db: Db, db': Db, c: Candidate)
    requires Fades(db, db') && Handled(db, c)
    ensures Handled(db', c)
  {
  }

  /** A handled candidate is no candidate any more. */
  lemma HandledLeaves(start: Db, db: Db, storage: set<string>, i: nat)
    requires Kept(start, db, storage) && IsCandidate(start, i) && Handled(db, CandidateOf(start, i))
    ensures !IsCandidate(db, i)
  {
    if i in db.images {
      assert db.images[i] == start.images[i];
      var commit := db.images[i].commit;
      assert commit in db.commits ==> db.commits[commit] == start.commits[commit];
    }
  }

  predicate AllCleared(c: Candidate, storage: set<string>) {
    Cleared(c.tar, storage) && Cleared(c.repoDir, storage) && Cleared(c.iso, storage)
  }

  lemma EraseImageKept(start: Db, db: Db, storage: set<string>, i: nat)
    requires Valid(start) && Kept(start, db, storage) && IsCandidate(start, i) && start.images[i].deleted
    requires AllCleared(CandidateOf(start, i), storage)
    ensures Kept(start, EraseImage(db, CandidateOf(start, i)).0, storage)
  {
    var c := CandidateOf(start, i);
    var db' := EraseImage(db, c).0;
    if db' != db {
      EraseImageValid(db, c);
      EraseImageRows(start, db, c);
      EraseImageStuck(start, db, i);
      EraseImageGone(start, db, storage, i);
      EraseImageWorn(start, db, storage, i);
    }
  }

  /** One erasure takes exactly what hangs on the image. */
  lemma EraseFollows(db: Db, c: Candidate)
    requires Valid(db) && Matches(db, c) && c.id in db.images && EraseImage(db, c).1 == Success
    ensures Follows(db, EraseImage(db, c).0)
  {
    var db' := EraseImage(db, c).0;
    EraseRest(db, c);
    forall x: nat ensures ImageErased(db, db', x) <==> x == c.image.commit {
      if x == c.image.commit {
        assert db.images[c.id].commit == x;
      }
    }
    forall n: nat ensures InstallerErased(db, db', n) <==> n == c.installer {
      if n == c.installer {
        assert db.images[c.id].installer == Some(n);
      }
    }
    forall r: nat ensures CommitGone(db, db', r) <==> r == c.repo && !CommitHasUpdate(db, c.image.commit) {
      if r == c.repo && !CommitHasUpdate(db, c.image.commit) {
        assert ImageRowOk(db, db.images[c.id]);
        assert c.image.commit in db.commits && c.image.commit !in db'.commits;
      }
    }
    EraseSets(db, c);
  }

  lemma EraseRest(db: Db, c: Candidate)
    requires EraseImage(db, c).1 == Success
    ensures var db' := EraseImage(db, c).0;
            var kept := CommitHasUpdate(db, c.image.commit);
            && db'.images == db.images - {c.id} && db'.updates == db.updates && db'.isos == db.isos - {c.installer}
            && db'.imageLinks == (set k | k in db.imageLinks && k.owner != c.id)
            && db'.packages == (set k | k in db.packages && k.owner != c.image.commit)
            && db'.oldCommits == (set k | k in db.oldCommits && k.owner != c.image.commit)
            && db'.commits == (if kept then db.commits else db.commits - {c.image.commit})
            && db'.repos == (if kept then db.repos else db.repos - {c.repo})
  {
    assert CommitHasUpdate(WithoutImage(db, c.id, c.image.commit), c.image.commit) <==>
           CommitHasUpdate(db, c.image.commit);
  }

  lemma EraseSets(db: Db, c: Candidate)
    requires EraseImage(db, c).1 == Success && c.id in db.images && db.images[c.id] == c.image
    ensures var db' := EraseImage(db, c).0;
            forall s :: s in db'.sets <==> s in db.sets && (SetHasImage(db, s) ==> SetHasImage(db', s))
  {
    var db' := EraseImage(db, c).0;
    ImagesAfter(db, c);
    forall s ensures s in db'.sets <==> s in db.sets && (SetHasImage(db, s) ==> SetHasImage(db', s)) {
      if s in db.sets {
        EraseOfSet(db, c, s);
        SetLeft(db, db', c, s);
      }
    }
  }

  lemma SetLeft(db: Db, db': Db, c: Candidate, s: nat)
    requires c.id in db.images && db.images[c.id] == c.image && db'.images == db.images - {c.id}
    ensures SetHasImage(db', s) <==> HasOther(db.images, s, {c.id})
    ensures SetHasImage(db, s) <==> c.image.setId == Some(s) || HasOther(db.images, s, {c.id})
  {
    if i :| i in db'.images && db'.images[i].setId == Some(s) {
      assert i !in {c.id} && db.images[i].setId == Some(s);
    }
    if i :| i in db.images && i !in {c.id} && db.images[i].setId == Some(s) {
      assert i in db'.images;
    }
    if i :| i in db.images && db.images[i].setId == Some(s) && c.image.setId != Some(s) {
      assert i !in {c.id};
    }
    if c.image.setId == Some(s) {
      assert db.images[c.id].setId == Some(s);
    }
  }

  /** Everything that the transaction of the candidate would delete is gone. */
  ghost predicate NothingLeft(db: Db, c: Candidate) {
    && c.id !in db.images && c.installer !in db.isos
    && (forall k | k in db.imageLinks :: k.owner != c.id)
    && (forall k | k in db.packages :: k.owner != c.image.commit)
    && (forall k | k in db.oldCommits :: k.owner != c.image.commit)
    && (!CommitHasUpdate(db, c.image.commit) ==>
          c.image.commit !in db.commits && c.image.commit !in db.tars && c.repo !in db.repos)
    && (c.image.setId.Some? && c.image.setId.value in db.sets ==> SetHasImage(db, c.image.setId.value))
  }

  lemma GoneLeavesNothing(start: Db, db: Db, i: nat)
    requires Valid(start) && Valid(db) && KeptRows(start, db) && Follows(start, db)
    requires Joined(start, i) && i !in db.images
    ensures NothingLeft(db, CandidateOf(start, i))
  {
    var c := CandidateOf(start, i);
    assert ImageErased(start, db, c.image.commit) && InstallerErased(start, db, c.installer);
    if c.image.setId.Some? {
      assert ImageRowOk(start, c.image) && SetHasImage(start, c.image.setId.value);
    }
    if !CommitHasUpdate(db, c.image.commit) {
      assert c.image.commit !in db.commits;
      assert CommitGone(start, db, c.repo);
    }
  }

  lemma NothingLeftToErase(db: Db, c: Candidate)
    requires NothingLeft(db, c)
    ensures EraseImage(db, c).0 == db
  {
    var db1 := WithoutImage(db, c.id, c.image.commit);
    assert db1 == db by {
      assert db1.imageLinks == db.imageLinks && db1.packages == db.packages && db1.oldCommits == db.oldCommits;
      assert db1.images == db.images;
    }
    if !CommitHasUpdate(db, c.image.commit) {
      var db2 := WithoutCommit(db, c.image.commit, Some(c.repo));
      assert db2.commits == db.commits && db2.tars == db.tars && db2.repos == db.repos;
    }
    assert db.isos - {c.installer} == db.isos;
  }

  /** Nothing is left to erase of an image that is gone. */
  lemma ErasedBefore(start: Db, db: Db, i: nat)
    requires Valid(start) && Valid(db) && KeptRows(start, db) && Follows(start, db)
    requires Joined(start, i) && i !in db.images
    ensures EraseImage(db, CandidateOf(start, i)).0 == db
  {
    GoneLeavesNothing(start, db, i);
    NothingLeftToErase(db, CandidateOf(start, i));
  }

  lemma EraseImageFollows(start: Db, db: Db, i: nat)
    requires Valid(start) && Valid(db) && KeptRows(start, db) && Follows(start, db)
    requires IsCandidate(start, i) && start.images[i].deleted
    requires EraseImage(db, CandidateOf(start, i)).1 == Success
    ensures Follows(start, EraseImage(db, CandidateOf(start, i)).0)
  {
    var c := CandidateOf(start, i);
    if i in db.images {
      assert Matches(db, c);
      EraseFollows(db, c);
      StillErasable(start, db, i);
      KeptRowsStep(db, c);
      FollowsAgain(start, db, EraseImage(db, c).0);
    } else {
      ErasedBefore(start, db, i);
    }
  }

  lemma StillErasable(start: Db, db: Db, i: nat)
    requires Valid(db) && KeptRows(start, db) && Erasable(start, i) && i in db.images
    ensures Erasable(db, i)
  {
    assert ImageRowOk(db, db.images[i]);
  }

  lemma EraseImageRest(start: Db, db: Db, i: nat)
    requires Valid(start) && Valid(db) && KeptRows(start, db) && Rest(start, db)
    requires IsCandidate(start, i) && start.images[i].deleted
    requires EraseImage(db, CandidateOf(start, i)).1 == Success
    ensures Rest(start, EraseImage(db, CandidateOf(start, i)).0)
  {
    var c := CandidateOf(start, i);
    EraseImageFollows(start, db, i);
    EraseImageRows(start, db, c);
  }

  lemma KeptRowsStep(db: Db, c: Candidate)
    requires EraseImage(db, c).1 == Success && (c.id in db.images ==> Erasable(db, c.id))
    ensures KeptRows(db, EraseImage(db, c).0)
  {
    EraseImageRows(db, db, c);
  }

  lemma EraseImageStuck(start: Db, db: Db, i: nat)
    requires KeptRows(start, db) && StuckStays(start, db) && Joined(start, i)
    requires EraseImage(db, CandidateOf(start, i)).1 == Success
    ensures StuckStays(start, EraseImage(db, CandidateOf(start, i)).0)
  {
    var c := CandidateOf(start, i);
    assert Matches(db, c);
    forall j | j in start.images && Stuck(start, j) ensures Stuck(EraseImage(db, c).0, j) {
      EraseKeepsStuck(db, c, j);
    }
  }

  lemma EraseImageGone(start: Db, db: Db, storage: set<string>, i: nat)
    requires GoneCleared(start, db, storage) && Joined(start, i)
    requires AllCleared(CandidateOf(start, i), storage) && EraseImage(db, CandidateOf(start, i)).1 == Success
    ensures GoneCleared(start, EraseImage(db, CandidateOf(start, i)).0, storage)
  {
    ImagesAfter(db, CandidateOf(start, i));
  }

  lemma EraseImageWorn(start: Db, db: Db, storage: set<string>, i: nat)
    requires KeptRows(start, db) && Joined(start, i) && AllCleared(CandidateOf(start, i), storage)
    requires Erasable(start, i) && EraseImage(db, CandidateOf(start, i)).1 == Success
    requires Worn(start.tars, db.tars, storage) && Worn(start.repos, db.repos, storage)
    requires Worn(start.isos, db.isos, storage)
    ensures var db' := EraseImage(db, CandidateOf(start, i)).0;
            && Worn(start.tars, db'.tars, storage) && Worn(start.repos, db'.repos, storage)
            && Worn(start.isos, db'.isos, storage)
  {
    var c := CandidateOf(start, i);
    EraseImageRows(start, db, c);
    WornStep(start.tars, db.tars, storage, c.image.commit);
    WornStep(start.repos, db.repos, storage, c.repo);
    WornStep(start.isos, db.isos, storage, c.installer);
  }

  lemma EraseImageRows(start: Db, db: Db, c: Candidate)
    requires KeptRows(start, db) && EraseImage(db, c).1 == Success && (c.id in start.images ==> Erasable(start, c.id))
    ensures var db' := EraseImage(db, c).0;
            && KeptRows(start, db')
            && (db'.tars == db.tars || db'.tars == db.tars - {c.image.commit})
            && (db'.repos == db.repos || db'.repos == db.repos - {c.repo})
            && db'.isos == db.isos - {c.installer}
  {
    var db1 := WithoutImage(db, c.id, c.image.commit);
    assert KeptRows(start, db1) && db1.tars == db.tars && db1.repos == db.repos && db1.isos == db.isos;
    if !CommitHasUpdate(db1, c.image.commit) {
      WithoutCommitRows(start, db1, c.image.commit, Some(c.repo));
    }
  }

  lemma WithoutCommitRows(start: Db, db: Db, c: nat, repo: Option<nat>)
    requires KeptRows(start, db)
    ensures KeptRows(start, WithoutCommit(db, c, repo))
  {
  }

  /** Erasing keeps every foreign key valid. */
  lemma EraseImageValid(db: Db, c: Candidate)
    requires Valid(db) && EraseImage(db, c).1 == Success
    ensures Valid(EraseImage(db, c).0)
  {
    var db1 := WithoutImage(db, c.id, c.image.commit);
    var db2 := if CommitHasUpdate(db1, c.image.commit) then db1 else WithoutCommit(db1, c.image.commit, Some(c.repo));
    WithoutImageValid(db, c.id, c.image.commit);
    if !CommitHasUpdate(db1, c.image.commit) {
      WithoutCommitValid(db1, c.image.commit, Some(c.repo));
    }
    WithoutInstallerAndSetValid(db2, c.installer, c.image.setId);
  }

  lemma WithoutInstallerAndSetValid(db: Db, n: nat, s: Option<nat>)
    requires Valid(db) && !InstallerHasImage(db, n)
    ensures Valid(WithoutInstallerAndSet(db, n, s))
  {
    var db' := WithoutInstallerAndSet(db, n, s);
    forall i | i in db'.images ensures ImageRowOk(db', db'.images[i]) {
      assert ImageRowOk(db, db.images[i]);
    }
  }

  lemma WithoutImageValid(db: Db, i: nat, c: nat)
    requires Valid(db)
    ensures Valid(WithoutImage(db, i, c))
  {
    var db' := WithoutImage(db, i, c);
    forall j | j in db'.images ensures ImageRowOk(db', db'.images[j]) {
      assert ImageRowOk(db, db.images[j]);
    }
  }

  lemma WithoutCommitValid(db: Db, c: nat, repo: Option<nat>)
    requires Valid(db) && !CommitStuck(db, c, repo)
    ensures Valid(WithoutCommit(db, c, repo))
  {
    var db' := WithoutCommit(db, c, repo);
    var rest := db.(commits := db.commits - {c});
    forall j | j in db'.images ensures ImageRowOk(db', db'.images[j]) {
      assert ImageRowOk(db, db.images[j]);
    }
    forall d | d in db'.commits && db'.commits[d].Some? ensures db'.commits[d].value in db'.repos {
      assert d in rest.commits;
    }
  }

  // ----- transactions that overlap -----

  /** A set disappears exactly with its last image. */
  ghost predicate SetsFollow(db: Db, db': Db) {
    forall s | s in db.sets && SetHasImage(db, s) :: SetFollows(db', s)
  }

  ghost predicate SetFollows(db: Db, s: nat) {
    s in db.sets <==> SetHasImage(db, s)
  }

  /** Some image of the set is not among the given ones. */
  ghost predicate HasOther(images: map<nat, Image>, s: nat, without: set<nat>) {
    exists i :: i in images && i !in without && images[i].setId == Some(s)
  }

  /** A transaction keeps a set exactly when the set is not that of its image, or has another image. */
  lemma EraseOfSet(db: Db, c: Candidate, s: nat)
    requires EraseImage(db, c).1 == Success && s in db.sets
    ensures EraseImage(db, c).0.images == db.images - {c.id}
    ensures s in EraseImage(db, c).0.sets <==> c.image.setId != Some(s) || HasOther(db.images, s, {c.id})
  {
    var db1 := WithoutImage(db, c.id, c.image.commit);
    assert SetHasImage(db1, s) <==> HasOther(db.images, s, {c.id}) by {
      if i :| i in db.images && i !in {c.id} && db.images[i].setId == Some(s) {
        assert i in db1.images;
      }
    }
  }

  /** Two transactions of one page when neither sees what the other deletes: each keeps the set for the other's
      image. */
  function EraseBoth(db: Db, c: Candidate, d: Candidate): Db {
    var one := EraseImage(db, c).0;
    EraseImage(one, d).0.(sets := one.sets * EraseImage(db, d).0.sets)
  }

  /** The image of the candidate is there, and its transaction would succeed. */
  ghost predicate Ready(db: Db, c: Candidate) {
    c.id in db.images && db.images[c.id] == c.image && EraseImage(db, c).1 == Success
  }

  /** Overlapping transactions leave a set behind exactly when they erase its last two images. */
  lemma OverlapLeavesSet(db: Db, c: Candidate, d: Candidate)
    requires Valid(db) && Ready(db, c) && Ready(db, d) && c.id != d.id && Ready(EraseImage(db, c).0, d)
    ensures SetsFollow(db, EraseBoth(db, c, d)) <==>
            !(c.image.setId.Some? && c.image.setId == d.image.setId &&
              !HasOther(db.images, c.image.setId.value, {c.id, d.id}))
  {
    forall s | s in db.sets && SetHasImage(db, s)
      ensures SetFollows(EraseBoth(db, c, d), s) <==>
              !(c.image.setId == Some(s) && d.image.setId == Some(s) && !HasOther(db.images, s, {c.id, d.id}))
    {
      OverlapOfSet(db, c, d, s);
    }
    if c.image.setId.Some? {
      assert ImageRowOk(db, c.image);
      assert SetHasImage(db, c.image.setId.value);
    }
  }

  /** Two deleted images in one set that share nothing else. */
  function TwoInSet(): Db {
    var image := Image(Some(1), 1, Some(1), false, true);
    var file := Artifact(OtherStatus, "");
    Db(map[1 := image, 2 := image.(commit := 2, installer := Some(2))], {1}, map[1 := Some(1), 2 := Some(2)],
       map[1 := file, 2 := file], map[1 := file, 2 := file], map[1 := file, 2 := file], map[], {}, {}, {})
  }

  lemma TwoInSetReady()
    ensures var db := TwoInSet();
            Joined(db, 1) && Joined(db, 2) && Valid(db) && NothingStuck(db) && !HasOther(db.images, 1, {1, 2})
  {
  }

  /** One erasure leaves the other image ready. */
  lemma FirstErased(db: Db, i: nat, j: nat)
    requires Valid(db) && NothingStuck(db) && i != j
    requires Erasable(db, i) && Erasable(db, j) && Joined(db, i) && Joined(db, j)
    ensures Ready(db, CandidateOf(db, i)) && Ready(EraseImage(db, CandidateOf(db, i)).0, CandidateOf(db, j))
  {
    var c, d := CandidateOf(db, i), CandidateOf(db, j);
    EraseImageFailsExactly(db, c);
    assert !Stuck(db, i) && !Stuck(db, j);
    var one := EraseImage(db, c).0;
    EraseImageRows(db, db, c);
    EraseImageFailsExactly(one, d);
    if Shares(one, j, d.image.commit, d.repo, d.installer) {
      SharesBefore(db, one, j, d.image.commit, d.repo, d.installer);
    }
  }

  /** Both erased by transactions that overlap: the set stays without an image. */
  lemma SetLeftBehind()
    ensures var db := TwoInSet();
            Joined(db, 1) && Joined(db, 2) && !SetsFollow(db, EraseBoth(db, CandidateOf(db, 1), CandidateOf(db, 2)))
  {
    var db := TwoInSet();
    TwoInSetReady();
    FirstErased(db, 1, 2);
    FirstErased(db, 2, 1);
    OverlapLeavesSet(db, CandidateOf(db, 1), CandidateOf(db, 2));
  }

  lemma OverlapOfSet(db: Db, c: Candidate, d: Candidate, s: nat)
    requires Ready(db, c) && Ready(db, d) && c.id != d.id && Ready(EraseImage(db, c).0, d)
    requires s in db.sets && SetHasImage(db, s)
    ensures SetFollows(EraseBoth(db, c, d), s) <==>
            !(c.image.setId == Some(s) && d.image.setId == Some(s) && !HasOther(db.images, s, {c.id, d.id}))
  {
    var both := EraseBoth(db, c, d);
    assert s in both.sets <==> (c.image.setId != Some(s) || HasOther(db.images, s, {c.id})) &&
                               (d.image.setId != Some(s) || HasOther(db.images, s, {d.id})) by {
      EraseOfSet(db, c, s);
      EraseOfSet(db, d, s);
    }
    BothImages(db, c, d, s);
    BothOfSet(db.images, c.id, d.id, s);
  }

  lemma BothImages(db: Db, c: Candidate, d: Candidate, s: nat)
    requires Ready(db, c) && Ready(db, d) && c.id != d.id && Ready(EraseImage(db, c).0, d)
    ensures SetHasImage(EraseBoth(db, c, d), s) <==> HasOther(db.images, s, {c.id, d.id})
  {
    ImagesAfter(db, c);
    ImagesAfter(EraseImage(db, c).0, d);
    var images := EraseBoth(db, c, d).images;
    if i :| i in db.images && i !in {c.id, d.id} && db.images[i].setId == Some(s) {
      assert i in images;
    }
  }

  lemma ImagesAfter(db: Db, c: Candidate)
    requires EraseImage(db, c).1 == Success
    ensures EraseImage(db, c).0.images == db.images - {c.id}
  {
  }

  /** Which of two images of a set have another one beside them. */
  lemma BothOfSet(images: map<nat, Image>, i: nat, j: nat, s: nat)
    requires i in images && j in images && i != j
    ensures HasOther(images, s, {i}) <==> images[j].setId == Some(s) || HasOther(images, s, {i, j})
    ensures HasOther(images, s, {j}) <==> images[i].setId == Some(s) || HasOther(images, s, {i, j})
    ensures (exists k | k in images :: images[k].setId == Some(s)) <==>
            images[i].setId == Some(s) || images[j].setId == Some(s) || HasOther(images, s, {i, j})
  {
    if k :| k in images && k !in {i} && images[k].setId == Some(s) {
      assert k == j || k !in {i, j};
    }
    if k :| k in images && k !in {j} && images[k].setId == Some(s) {
      assert k == i || k !in {i, j};
    }
    if k :| k in images && images[k].setId == Some(s) {
      assert k == i || k == j || k !in {i, j};
    }
  }

  // ----- commits nothing uses -----

  predicate OrphanCommit(db: Db, c: nat) {
    c in db.commits && !CommitHasImage(db, c) && !CommitHasUpdate(db, c)
  }

  function OrphanCommits(db: Db): set<nat> {
    set c | c in db.commits && OrphanCommit(db, c)
  }

  function WithoutCommitLinks(db: Db, c: nat): Db {
    db.(packages := (set k | k in db.packages && k.owner != c),
        oldCommits := (set k | k in db.oldCommits && k.owner != c))
  }

  /** One transaction: the commit with its links, and its repo. */
  function EraseCommit(db: Db, c: nat, repo: Option<nat>): (Db, Result) {
    var db1 := WithoutCommitLinks(db, c);
    if CommitStuck(db1, c, repo) then (db, Failure(Statement(ForeignKeyViolation)))
    else (WithoutCommit(db1, c, repo), Success)
  }

  /** Erasing a commit that no image and no update has fails exactly when its repo is shared. */
  lemma EraseCommitFailsExactly(db: Db, c: nat, repo: Option<nat>)
    requires !CommitHasImage(db, c) && !CommitHasUpdate(db, c)
    ensures EraseCommit(db, c, repo).1 != Success <==> SharesRepo(db, c, repo)
  {
    var db1 := WithoutCommitLinks(db, c);
    if repo.Some? {
      RepoInUseExactly(db1, c, repo.value);
    }
    assert CommitHasImage(db1, c) <==> CommitHasImage(db, c);
    assert CommitHasUpdate(db1, c) <==> CommitHasUpdate(db, c);
  }

  /** Erasing the orphan commit would break a foreign key. */
  ghost predicate StuckCommit(db: Db, c: nat) {
    OrphanCommit(db, c) && SharesRepo(db, c, db.commits[c])
  }

  ghost predicate NoCommitStuck(db: Db) {
    forall c | c in db.commits :: !StuckCommit(db, c)
  }

  ghost predicate StuckCommitsStay(start: Db, db: Db) {
    forall c | c in start.commits && StuckCommit(start, c) :: StuckCommit(db, c)
  }

  lemma StuckCommitsFrame(start: Db, db: Db, db': Db)
    requires StuckCommitsStay(start, db)
    requires db'.images == db.images && db'.commits == db.commits && db'.updates == db.updates
    ensures StuckCommitsStay(start, db')
  {
    forall c | c in start.commits && StuckCommit(start, c) ensures StuckCommit(db', c) {
      assert SharesRepo(db', c, db.commits[c]) <==> SharesRepo(db, c, db.commits[c]);
    }
  }

  /** Whoever shares the repo of a stuck commit cannot be erased either. */
  lemma EraseCommitKeepsStuck(db: Db, c: nat, repo: Option<nat>, d: nat)
    requires !CommitHasImage(db, c) && !CommitHasUpdate(db, c) && (c in db.commits ==> db.commits[c] == repo)
    requires EraseCommit(db, c, repo).1 == Success && StuckCommit(db, d)
    ensures StuckCommit(EraseCommit(db, c, repo).0, d)
  {
    EraseCommitFailsExactly(db, c, repo);
    var db' := EraseCommit(db, c, repo).0;
    assert db'.updates == db.updates && db'.images == db.images;
    if e :| e in db.commits && e != d && db.commits[e] == db.commits[d] {
      assert e != c;
      assert e in db'.commits;
    }
  }

  /** Two orphan commits with one repo: neither can be erased. */
  lemma SharedRepoStays()
    ensures var built := Artifact(Built, "u");
            var db := Db(map[], {}, map[1 := Some(1), 2 := Some(1)], map[1 := built, 2 := built], map[1 := built],
                         map[], map[], {}, {}, {});
            && Valid(db) && OrphanCommits(db) == {1, 2}
            && EraseCommit(db, 1, Some(1)).1 == Failure(Statement(ForeignKeyViolation))
            && EraseCommit(db, 2, Some(1)).1 == Failure(Statement(ForeignKeyViolation))
  {
    var built := Artifact(Built, "u");
    var db := Db(map[], {}, map[1 := Some(1), 2 := Some(1)], map[1 := built, 2 := built], map[1 := built],
                 map[], map[], {}, {}, {});
    assert db.commits[1] == Some(1) && db.commits[2] == Some(1);
    EraseCommitFailsExactly(db, 1, Some(1));
    EraseCommitFailsExactly(db, 2, Some(1));
  }

  /** The repo of the commit is built and has an address. */
  predicate CommitHasFolder(db: Db, c: nat) {
    && c in db.commits && db.commits[c].Some? && db.commits[c].value in db.repos
    && db.repos[db.commits[c].value].status.Built? && db.repos[db.commits[c].value].url != ""
  }

  function CommitFolder(db: Db, c: nat): string
    requires CommitHasFolder(db, c)
  {
    db.repos[db.commits[c].value].url
  }

  /** The folders of all orphan commits. */
  function OrphanFolders(db: Db): set<string> {
    set c | c in OrphanCommits(db) && CommitHasFolder(db, c) :: CommitFolder(db, c)
  }

  /** Folders only go, and only those of orphan commits. */
  ghost predicate SparedFolders(db: Db, storage: set<string>, storage': set<string>) {
    storage - OrphanFolders(db) <= storage' <= storage
  }

  /** The links of a commit and its repo go exactly with it, and a row of a repo changes only with the folder of an
      orphan commit. */
  ghost predicate CommitsFollow(start: Db, db: Db) {
    && db.imageLinks == start.imageLinks && db.sets == start.sets
    && (forall k :: k in db.packages <==> k in start.packages && k.owner in db.commits)
    && (forall k :: k in db.oldCommits <==> k in start.oldCommits && k.owner in db.commits)
    && (forall r :: r in db.repos <==> r in start.repos && !CommitGone(start, db, r))
    && (forall r | r in db.repos && db.repos[r] != start.repos[r] :: OrphanHasFolder(start, r))
  }

  /** The repo is that of an orphan commit, built and with an address. */
  ghost predicate OrphanHasFolder(db: Db, r: nat) {
    exists c :: c in OrphanCommits(db) && CommitHasFolder(db, c) && db.commits[c] == Some(r)
  }

  lemma CommitsFollowAgain(a: Db, b: Db, c: Db, storage: set<string>)
    requires KeptButTars(a, b, storage) && KeptRows(b, c) && CommitsFollow(a, b) && CommitsFollow(b, c)
    ensures CommitsFollow(a, c)
  {
    ErasedLater(a, b, c);
    forall r | r in c.repos && c.repos[r] != a.repos[r] ensures OrphanHasFolder(a, r) {
      if b.repos[r] == a.repos[r] {
        var x :| x in OrphanCommits(b) && CommitHasFolder(b, x) && b.commits[x] == Some(r);
        OrphansOnlyGo(a, b, storage);
        assert x in OrphanCommits(a) && CommitHasFolder(a, x);
      }
    }
  }

  lemma EraseCommitFollows(db: Db, c: nat)
    requires Valid(db) && OrphanCommit(db, c) && EraseCommit(db, c, db.commits[c]).1 == Success
    ensures CommitsFollow(db, EraseCommit(db, c, db.commits[c]).0)
  {
    var db' := EraseCommit(db, c, db.commits[c]).0;
    forall r: nat ensures CommitGone(db, db', r) <==> db.commits[c] == Some(r) {
      if db.commits[c] == Some(r) {
        assert c in db.commits && c !in db'.commits;
      }
    }
  }

  lemma WipedFollows(start: Db, db: Db, r: nat)
    requires CommitsFollow(start, db) && OrphanHasFolder(start, r)
    ensures CommitsFollow(start, db.(repos := Wiped(db.repos, r)))
  {
    var db' := db.(repos := Wiped(db.repos, r));
    forall x: nat ensures CommitGone(start, db', x) <==> CommitGone(start, db, x) {}
  }

  /** Everything that the transaction of the commit would delete is gone. */
  ghost predicate NoCommitLeft(db: Db, c: nat, repo: Option<nat>) {
    && c !in db.commits && c !in db.tars && (repo.Some? ==> repo.value !in db.repos)
    && (forall k | k in db.packages :: k.owner != c) && (forall k | k in db.oldCommits :: k.owner != c)
  }

  lemma NoCommitToErase(db: Db, c: nat, repo: Option<nat>)
    requires NoCommitLeft(db, c, repo)
    ensures EraseCommit(db, c, repo).0 == db
  {
    var db1 := WithoutCommitLinks(db, c);
    assert db1.packages == db.packages && db1.oldCommits == db.oldCommits;
    var db2 := WithoutCommit(db, c, repo);
    assert db2.commits == db.commits && db2.tars == db.tars && db2.repos == db.repos;
  }

  /** Nothing is left to erase of a commit that is gone. */
  lemma CommitErasedBefore(start: Db, db: Db, c: nat)
    requires Valid(db) && CommitsFollow(start, db) && c in start.commits && c !in db.commits
    ensures EraseCommit(db, c, start.commits[c]).0 == db
  {
    var repo := start.commits[c];
    assert repo.Some? ==> CommitGone(start, db, repo.value);
    NoCommitToErase(db, c, repo);
  }

  /** The orphan commits that are gone have no folder in storage. */
  ghost predicate GoneCommitsCleared(start: Db, db: Db, storage: set<string>) {
    forall c | c in OrphanCommits(start) && c !in db.commits && CommitHasFolder(start, c) ::
      CommitFolder(start, c) !in storage
  }

  /** The stage of the orphan commits keeps the same, except that it deletes no tar file from storage. */
  ghost predicate KeptButTars(start: Db, db: Db, storage: set<string>) {
    && Valid(db) && KeptRows(start, db) && StuckCommitsStay(start, db) && db.images == start.images
    && GoneCommitsCleared(start, db, storage)
    && Worn(start.repos, db.repos, storage) && db.isos == start.isos
    && (forall c | c in db.tars :: c in start.tars && db.tars[c] == start.tars[c])
  }

  lemma KeptButTarsSelf(db: Db, storage: set<string>)
    requires Valid(db)
    ensures KeptButTars(db, db, storage)
  {
  }

  lemma GoneCommitsAgain(a: Db, b: Db, c: Db, storage: set<string>, storage': set<string>)
    requires KeptButTars(a, b, storage) && KeptButTars(b, c, storage') && storage' <= storage
    ensures GoneCommitsCleared(a, c, storage')
  {
    OrphansOnlyGo(a, b, storage);
    forall x | x in OrphanCommits(a) && x !in c.commits && CommitHasFolder(a, x)
      ensures CommitFolder(a, x) !in storage'
    {
      if x in b.commits && CommitFolder(a, x) in storage {
        assert CommitHasFolder(b, x) && CommitFolder(b, x) == CommitFolder(a, x);
      }
    }
  }

  lemma OrphanFoldersShrink(start: Db, db: Db, storage: set<string>)
    requires KeptButTars(start, db, storage)
    ensures OrphanFolders(db) <= OrphanFolders(start)
  {
    OrphansOnlyGo(start, db, storage);
    forall c | c in OrphanCommits(db) && CommitHasFolder(db, c) ensures CommitFolder(db, c) in OrphanFolders(start) {
      assert CommitHasFolder(start, c) && CommitFolder(db, c) == CommitFolder(start, c);
    }
  }

  lemma SparedFoldersLater(start: Db, db: Db, before: set<string>, storage: set<string>, storage': set<string>)
    requires KeptButTars(start, db, storage)
    requires SparedFolders(start, before, storage) && SparedFolders(db, storage, storage')
    ensures SparedFolders(start, before, storage')
  {
    OrphanFoldersShrink(start, db, storage);
  }

  /** The tar file of the commit has the address of a folder that goes. */
  ghost predicate TarGoesToo(db: Db, c: nat) {
    c in db.tars && db.tars[c].status.Built? && db.tars[c].url in OrphanFolders(db)
  }

  /** Once the orphan commits are gone, exactly their folders have gone; of the tar files that were still in storage
      exactly those are out of it that have the address of such a folder. */
  lemma FoldersAtEnd(start: Db, db: Db, storage: set<string>, storage': set<string>)
    requires KeptButTars(start, db, storage') && SparedFolders(start, storage, storage') && OrphanCommits(db) == {}
    ensures storage' == storage - OrphanFolders(start)
    ensures forall c | c in start.tars ::
              Cleared(start.tars[c], storage') <==> Cleared(start.tars[c], storage) || TarGoesToo(start, c)
  {
    OrphansOnlyGo(start, db, storage');
    forall c | c in OrphanCommits(start) && CommitHasFolder(start, c) ensures CommitFolder(start, c) !in storage' {
      assert c !in OrphanCommits(db);
      assert c !in db.commits;
    }
  }

  lemma KeptButTarsAgain(a: Db, b: Db, c: Db, storage: set<string>, storage': set<string>)
    requires KeptButTars(a, b, storage) && KeptButTars(b, c, storage') && storage' <= storage
    ensures KeptButTars(a, c, storage')
  {
    GoneCommitsAgain(a, b, c, storage, storage');
    WornAgain(a.repos, b.repos, c.repos, storage, storage');
  }

  /** The address of a repo goes after its folder. */
  lemma WipedRepoKept(start: Db, db: Db, storage: set<string>, r: nat)
    requires KeptButTars(start, db, storage) && (r in start.repos ==> Cleared(start.repos[r], storage))
    ensures KeptButTars(start, db.(repos := Wiped(db.repos, r)), storage)
  {
    var db' := db.(repos := Wiped(db.repos, r));
    WornStep(start.repos, db.repos, storage, r);
    StuckCommitsFrame(start, db, db');
    assert Valid(db') by {
      forall i | i in db'.images ensures ImageRowOk(db', db'.images[i]) {
        assert ImageRowOk(db, db.images[i]);
      }
    }
  }

  lemma KeptButTarsLess(start: Db, db: Db, storage: set<string>, storage': set<string>)
    requires KeptButTars(start, db, storage) && storage' <= storage
    ensures KeptButTars(start, db, storage')
  {
    WornLess(start.repos, db.repos, storage, storage');
  }

  /** Commits in use stay: the images and updates that use them do. */
  lemma UsedCommitsStay(start: Db, db: Db, storage: set<string>, c: nat)
    requires KeptButTars(start, db, storage) && c in start.commits && !OrphanCommit(start, c)
    ensures c in db.commits
  {
    if CommitHasImage(start, c) {
      var i :| i in start.images && start.images[i].commit == c;
      assert ImageRowOk(db, db.images[i]);
    }
  }

  lemma EraseCommitKept(start: Db, db: Db, storage: set<string>, c: nat)
    requires Valid(start) && KeptButTars(start, db, storage) && OrphanCommit(start, c)
    requires start.commits[c].Some? ==> Cleared(start.repos[start.commits[c].value], storage)
    ensures KeptButTars(start, EraseCommit(db, c, start.commits[c]).0, storage)
  {
    var repo := start.commits[c];
    if EraseCommit(db, c, repo).1 == Success {
      EraseCommitValid(db, c, repo);
      EraseCommitStuck(start, db, c);
      EraseCommitGone(start, db, storage, c);
      if repo.Some? {
        WornStep(start.repos, db.repos, storage, repo.value);
      }
    }
  }

  lemma EraseCommitRest(start: Db, db: Db, storage: set<string>, c: nat)
    requires KeptButTars(start, db, storage) && CommitsFollow(start, db) && OrphanCommit(start, c)
    requires EraseCommit(db, c, start.commits[c]).1 == Success
    ensures CommitsFollow(start, EraseCommit(db, c, start.commits[c]).0)
  {
    if c in db.commits {
      OrphansOnlyGo(start, db, storage);
      assert c in OrphanCommits(start);
      EraseCommitFollows(db, c);
      CommitsFollowAgain(start, db, EraseCommit(db, c, start.commits[c]).0, storage);
    } else {
      CommitErasedBefore(start, db, c);
    }
  }

  lemma EraseCommitGone(start: Db, db: Db, storage: set<string>, c: nat)
    requires GoneCommitsCleared(start, db, storage) && c in start.commits
    requires CommitHasFolder(start, c) ==> CommitFolder(start, c) !in storage
    ensures GoneCommitsCleared(start, EraseCommit(db, c, start.commits[c]).0, storage)
  {
    var db' := EraseCommit(db, c, start.commits[c]).0;
    assert db'.commits == db.commits || db'.commits == db.commits - {c};
  }

  lemma EraseCommitStuck(start: Db, db: Db, c: nat)
    requires KeptRows(start, db) && StuckCommitsStay(start, db) && db.images == start.images && OrphanCommit(start, c)
    requires EraseCommit(db, c, start.commits[c]).1 == Success
    ensures StuckCommitsStay(start, EraseCommit(db, c, start.commits[c]).0)
  {
    assert !CommitHasImage(db, c) && !CommitHasUpdate(db, c);
    forall d | d in start.commits && StuckCommit(start, d)
      ensures StuckCommit(EraseCommit(db, c, start.commits[c]).0, d)
    {
      EraseCommitKeepsStuck(db, c, start.commits[c], d);
    }
  }

  lemma EraseCommitValid(db: Db, c: nat, repo: Option<nat>)
    requires Valid(db) && EraseCommit(db, c, repo).1 == Success
    ensures Valid(EraseCommit(db, c, repo).0)
  {
    var db1 := WithoutCommitLinks(db, c);
    forall j | j in db1.images ensures ImageRowOk(db1, db1.images[j]) {
      assert ImageRowOk(db, db.images[j]);
    }
    WithoutCommitValid(db1, c, repo);
  }

  /** An orphan commit stays one until it is erased, and no new one appears. */
  lemma OrphansOnlyGo(start: Db, db: Db, storage: set<string>)
    requires KeptButTars(start, db, storage)
    ensures OrphanCommits(db) <= OrphanCommits(start)
    ensures forall c | c in OrphanCommits(start) && c in db.commits :: c in OrphanCommits(db)
  {
    forall c | c in db.commits ensures OrphanCommit(db, c) <==> OrphanCommit(start, c) {
      assert CommitHasImage(db, c) <==> CommitHasImage(start, c);
    }
  }

  lemma NoCommitStuckStays(start: Db, db: Db, storage: set<string>)
    requires KeptButTars(start, db, storage) && NoCommitStuck(start)
    ensures NoCommitStuck(db)
  {
    OrphansOnlyGo(start, db, storage);
    forall c | c in db.commits ensures !StuckCommit(db, c) {
      if StuckCommit(db, c) {
        assert c in OrphanCommits(db);
        SharesRepoBefore(start, db, c, db.commits[c]);
      }
    }
  }

  /** An orphan commit that is gone was not stuck. */
  lemma GoneCommitWasFree(start: Db, db: Db, storage: set<string>)
    requires KeptButTars(start, db, storage) && OrphanCommits(db) == {}
    ensures NoCommitStuck(start) && db.commits.Keys == start.commits.Keys - OrphanCommits(start)
  {
    forall c | c in start.commits ensures !StuckCommit(start, c) && (c in db.commits <==> !OrphanCommit(start, c)) {
      assert c !in OrphanCommits(db);
      OrphansOnlyGo(start, db, storage);
      if !OrphanCommit(start, c) {
        UsedCommitsStay(start, db, storage, c);
      } else {
        assert c in OrphanCommits(start);
      }
    }
  }
}
