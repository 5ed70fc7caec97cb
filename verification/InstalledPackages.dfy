/** The last cleanup stage: installed packages that no commit has, deleted in batches. */
module InstalledPackages {
  import opened Tables

  /** A row of commit_installed_packages. */
  datatype Link = Link(commit: nat, package: nat)

  class PackageStore {
    var packages: set<nat>
    const links: set<Link>

    constructor (packages: set<nat>, links: set<Link>)
      ensures this.packages == packages && this.links == links
    {
      this.packages, this.links := packages, links;
    }

    predicate Installed(p: nat) {
      exists k | k in links :: k.package == p
    }

    /** One batch: as many orphan packages as there are, up to its size. */
    method DeleteBatch(batchSize: nat) returns (rowsAffected: nat)
      modifies this
      ensures packages <= old(packages)
      ensures forall p | p in old(packages) && Installed(p) :: p in packages
      ensures rowsAffected == |old(packages)| - |packages|
      ensures rowsAffected == Min(batchSize, |set p | p in old(packages) && !Installed(p)|)
      ensures rowsAffected == 0 && batchSize > 0 ==> forall p | p in packages :: Installed(p)
      ensures batchSize == 0 ==> rowsAffected == 0
    {
      var orphans: set<nat> := set p | p in packages && !Installed(p);
      var batch: seq<nat> := SelectPage(orphans, batchSize);
      DistinctSize(batch);
      if orphans != {} && batchSize > 0 {
        assert |batch| > 0;
      }
      assert Elements(batch) <= packages && forall p | p in Elements(batch) :: !Installed(p);
      var rest := packages - (set p | p in batch);
      assert packages == rest + Elements(batch) && rest !! Elements(batch);
      rowsAffected := |batch|;
      packages := rest;
      if rowsAffected == 0 && batchSize > 0 {
        assert orphans == {};
        forall p | p in packages ensures Installed(p) {
          assert !Installed(p) ==> p in orphans;
        }
      }
    }

    /** The batches go on until one deletes nothing: then exactly the packages that some commit has are left, unless the
        batch size is zero, which deletes nothing at all; a failed statement stops in between. */
    method CleanupOrphanInstalledPackagesPlain(batchSize: nat) returns (outcome: Outcome, total: nat)
      modifies this
      ensures packages <= old(packages) && forall p | p in old(packages) && Installed(p) :: p in packages
      ensures total == |old(packages)| - |packages|
      ensures outcome == Done && batchSize > 0 ==> packages == set p | p in old(packages) && Installed(p)
      ensures batchSize == 0 ==> packages == old(packages)
    {
      total := 0;
      var keepGoing := true;
      while keepGoing
        invariant packages <= old(packages) && forall p | p in old(packages) && Installed(p) :: p in packages
        invariant total == |old(packages)| - |packages|
        invariant !keepGoing && batchSize > 0 ==> forall p | p in packages :: Installed(p)
        invariant batchSize == 0 ==> packages == old(packages)
        decreases |packages|, keepGoing
      {
        var failed := DatabaseFails();
        if failed { return Failed(DatabaseFault), total; }
        ghost var before := packages;
        var rowsAffected := DeleteBatch(batchSize);
        SubsetSize(packages, before);
        if rowsAffected <= 0 {
          keepGoing := false;
        }
        total := total + rowsAffected;
      }
      outcome := Done;
    }
  }
}
