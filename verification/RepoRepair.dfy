/** The three paged phases that repair the custom-repository tables before the migration. */
module RepoRepair {
  import opened RepoRepairSpec
  import opened Tables
  import opened Urls

  datatype Count = Count(n: nat) | Error(error: Tables.Error)

  class Database {
    var repos: Repos
    var links: Links

    /** DefaultDataLimit and DefaultMaxDataPageNumber. */
    const limit: nat
    const maxPages: nat

    ghost predicate Valid()
      reads this
    {
      limit > 0 && LinksOk(repos, links)
    }

    constructor (repos: Repos, links: Links)
      requires LinksOk(repos, links)
      ensures Valid() && this.repos == repos && this.links == links && limit == 100 && maxPages == 100
    {
      this.repos := repos;
      this.links := links;
      limit := 100;
      maxPages := 100;
    }

    /** Cleans the URLs of the live repositories that lack a final slash, a page of distinct URLs at a time. The URLs
        in `done` are cleaned, nothing else changes, and without a fault exactly min(URLs, limit * maxPages) of the
        URLs are done: all of them if and only if they fit in the pages. */
    method RepairUrls(enabled: bool) returns (r: Count, ghost done: set<string>)
      requires Valid()
      modifies this`repos
      ensures Valid()
      ensures done <= UnslashedUrls(old(repos)) && repos == Slashed(old(repos), done)
      ensures SameMeaning(old(repos), links, repos, links)
      ensures !enabled ==> r == Error(Disabled) && repos == old(repos)
      ensures r.Error? ==> r.error == (if enabled then DatabaseFault else Disabled)
      ensures r.Count? ==> r.n == |done| && Paged(UnslashedUrls(old(repos)), done, limit, maxPages)
      ensures r.Count? ==> (UnslashedUrls(repos) == {} <==> |UnslashedUrls(old(repos))| <= Rows(limit, maxPages))
    {
      done := {};
      ghost var repos0 := repos;
      assert repos == Slashed(repos0, done);
      SlashedMeaning(repos0, links, done);
      if !enabled {
        return Error(Disabled), done;
      }
      ghost var all := UnslashedUrls(repos);
      var affected, page := 0, 0;
      while page < maxPages
        invariant Valid()
        invariant 0 <= page <= maxPages && affected == |done| && Paged(all, done, limit, page)
        invariant repos == Slashed(repos0, done) && UnslashedUrls(repos) == all - done
        invariant SameMeaning(repos0, links, repos, links)
      {
        var fails := DatabaseFails();
        if fails {
          return Error(DatabaseFault), done;
        }
        var urls := SelectPage(UnslashedUrls(repos), limit);
        if |urls| == 0 {
          break;
        }
        FullPage(all, done, urls, limit, page);
        var failed;
        failed, done := CleanPage(urls, repos0, done);
        if failed {
          return Error(DatabaseFault), done;
        }
        affected := affected + |urls|;
        page := page + 1;
      }
      PagesEnd(all, done, limit, page, maxPages);
      r := Count(affected);
    }

    /** The updates of one page. */
    method CleanPage(urls: seq<string>, ghost repos0: Repos, ghost before: set<string>)
      returns (failed: bool, ghost done: set<string>)
      requires Valid() && Distinct(urls) && Elements(urls) <= UnslashedUrls(repos)
      requires before <= UnslashedUrls(repos0) && repos == Slashed(repos0, before)
      modifies this`repos
      ensures Valid() && SameMeaning(repos0, links, repos, links)
      ensures done <= UnslashedUrls(repos0) && repos == Slashed(repos0, done)
      ensures UnslashedUrls(repos) == UnslashedUrls(repos0) - done
      ensures !failed ==> done == before + Elements(urls)
    {
      done := before;
      SlashedRest(repos0, done);
      failed := false;
      var i := 0;
      while i < |urls| && !failed
        invariant LinksOk(repos, links)
        invariant 0 <= i <= |urls| && done == before + Elements(urls[..i]) && done <= UnslashedUrls(repos0)
        invariant repos == Slashed(repos0, done) && UnslashedUrls(repos) == UnslashedUrls(repos0) - done
        invariant !failed || i <= |urls|
        decreases |urls| - i, !failed
      {
        failed := DatabaseFails();
        if !failed {
          NextElement(urls, i);
          SlashedStep(repos0, done, urls[i]);
          repos := Rename(repos, urls[i], AddSlashToURL(urls[i]));
          done := done + {urls[i]};
          SlashedRest(repos0, done);
          i := i + 1;
        }
      }
      assert !failed ==> urls[..i] == urls;
      SlashedMeaning(repos0, links, done);
    }

    /** Keeps only the link to the largest repository id among the live repositories of one image and URL. */
    method RepairImageUrl(img: nat, url: string) returns (r: Outcome)
      requires Valid()
      modifies this`links
      ensures Valid()
      ensures r.Failed? ==> r.error == DatabaseFault && links == old(links)
      ensures var s := LinkedWith(repos, old(links), img, url);
              r.Done? ==>
                links == (if |s| <= 1 then old(links)
                          else set l | l in old(links) && !(l.0 == img && l.1 in s - {MaxOf(s)}))
    {
      var fails := DatabaseFails();
      if fails {
        return Failed(DatabaseFault);
      }
      var ids := SelectDescending(LinkedWith(repos, links, img, url));
      if |ids| <= 1 {
        return Done;
      }
      var others := Elements(ids[1..]);
      var fault := DatabaseFails();
      if fault {
        return Failed(DatabaseFault);
      }
      links := set l | l in links && !(l.0 == img && l.1 in others);
      return Done;
    }

    /** Removes duplicate URLs from images, a page of (image, URL) groups at a time. */
    method RepairDuplicateImagesReposUrls(enabled: bool) returns (r: Outcome, ghost done: set<ImageUrl>)
      requires Valid()
      modifies this`links
      ensures Valid()
      ensures done <= ImageGroups(repos, old(links)) && links == Deduplicated(repos, old(links), done)
      ensures SameMeaning(repos, old(links), repos, links)
      ensures !enabled ==> r == Failed(Disabled) && links == old(links)
      ensures r.Failed? ==> r.error == (if enabled then DatabaseFault else Disabled)
      ensures r.Done? ==> Paged(ImageGroups(repos, old(links)), done, limit, maxPages)
      ensures r.Done? ==>
                (ImageGroups(repos, links) == {} <==> |ImageGroups(repos, old(links))| <= Rows(limit, maxPages))
    {
      done := {};
      ghost var links0 := links;
      assert links == Deduplicated(repos, links0, done);
      DeduplicatedMeaning(repos, links0, done);
      if !enabled {
        return Failed(Disabled), done;
      }
      ghost var all := ImageGroups(repos, links);
      var page := 0;
      while page < maxPages
        invariant Valid()
        invariant 0 <= page <= maxPages && Paged(all, done, limit, page)
        invariant links == Deduplicated(repos, links0, done) && ImageGroups(repos, links) == all - done
        invariant SameMeaning(repos, links0, repos, links)
      {
        var fails := DatabaseFails();
        if fails {
          return Failed(DatabaseFault), done;
        }
        var groups := SelectPage(ImageGroups(repos, links), limit);
        if |groups| == 0 {
          break;
        }
        FullPage(all, done, groups, limit, page);
        r, done := DeduplicatePage(groups, links0, done);
        if r.Failed? {
          return;
        }
        page := page + 1;
      }
      PagesEnd(all, done, limit, page, maxPages);
      r := Done;
    }

    /** The deletions of one page. */
    method DeduplicatePage(groups: seq<ImageUrl>, ghost links0: Links, ghost before: set<ImageUrl>)
      returns (r: Outcome, ghost done: set<ImageUrl>)
      requires Valid() && Distinct(groups) && Elements(groups) <= ImageGroups(repos, links) && LinksOk(repos, links0)
      requires before <= ImageGroups(repos, links0) && links == Deduplicated(repos, links0, before)
      modifies this`links
      ensures Valid() && SameMeaning(repos, links0, repos, links)
      ensures done <= ImageGroups(repos, links0) && links == Deduplicated(repos, links0, done)
      ensures ImageGroups(repos, links) == ImageGroups(repos, links0) - done
      ensures r.Done? ==> done == before + Elements(groups)
      ensures r.Failed? ==> r.error == DatabaseFault
    {
      done, r := before, Done;
      DeduplicatedRest(repos, links0, done);
      var i := 0;
      while i < |groups| && r.Done?
        invariant Valid()
        invariant 0 <= i <= |groups| && done == before + Elements(groups[..i]) && done <= ImageGroups(repos, links0)
        invariant links == Deduplicated(repos, links0, done)
        invariant ImageGroups(repos, links) == ImageGroups(repos, links0) - done
        invariant r.Failed? ==> r.error == DatabaseFault
        decreases |groups| - i, r.Done?
      {
        var g := groups[i];
        NextElement(groups, i);
        DeduplicatedGroup(repos, links0, done, g.0, g.1);
        GroupIff(repos, links0, g);
        r := RepairImageUrl(g.0, g.1);
        if r.Done? {
          ghost var s := LinkedWith(repos, links0, g.0, g.1);
          DeduplicatedStep(repos, links0, done, g, s - {MaxOf(s)});
          done := done + {g};
          DeduplicatedRest(repos, links0, done);
          i := i + 1;
        }
      }
      assert r.Done? ==> groups[..i] == groups;
      DeduplicatedMeaning(repos, links0, done);
    }

    /** Re-points every image of one organisation and URL to the largest repository id and deletes the other
        repositories. The re-pointing fails on the primary key of images_repos, the deletion on its foreign key; a
        failure leaves the tables with the group either untouched or re-pointed. */
    method RepairOrgUrl(org: string, url: string) returns (r: Outcome)
      requires Valid()
      modifies this
      ensures Valid()
      ensures r.Done? && (org == "" || url == "" || |Ids(old(repos), (org, url))| <= 1) ==>
                repos == old(repos) && links == old(links)
      ensures r.Done? && org != "" && url != "" && |Ids(old(repos), (org, url))| > 1 ==>
                && repos == old(repos) - Others(old(repos), (org, url))
                && links == RepointGroup(old(repos), old(links), (org, url))
      ensures r.Failed? ==> org != "" && url != "" && repos == old(repos)
      ensures r.Failed? ==> links == old(links)
                            || (|Ids(repos, (org, url))| > 1 && links == RepointGroup(repos, old(links), (org, url)))
      ensures r.Failed? ==> r.error == DatabaseFault
                            || (r.error == UniqueViolation && |Ids(repos, (org, url))| > 1
                                && RepointClashes(old(links), Others(repos, (org, url)), MaxOf(Ids(repos, (org, url)))))
    {
      if org == "" || url == "" {
        return Done;
      }
      var fails := DatabaseFails();
      if fails {
        return Failed(DatabaseFault);
      }
      var sorted := SelectDescending(Ids(repos, (org, url)));
      if |sorted| <= 1 {
        return Done;
      }
      var chosen := sorted[0];
      var others := Elements(sorted[1..]);
      assert others == Others(repos, (org, url));
      if RepointClashes(links, others, chosen) {
        return Failed(UniqueViolation);
      }
      var fault := DatabaseFails();
      if fault {
        return Failed(DatabaseFault);
      }
      links := Repoint(links, others, chosen);
      RepointOk(repos, old(links), others, chosen);
      fault := DatabaseFails();
      if fault {
        return Failed(DatabaseFault);
      }
      if exists l | l in links :: l.1 in others {
        return Failed(ForeignKeyViolation);
      }
      repos := repos - others;
      return Done;
    }

    /** Merges the repositories of each organisation with the same URL, a page of (organisation, URL) groups at a time.
        A failing query only ends the loop; `complete` says that this did not happen. Groups without an organisation
        are selected again and again and skipped: they take up a share of each page. */
    method RepairDuplicates(enabled: bool) returns (r: Outcome, ghost done: set<OrgUrl>, ghost complete: bool)
      requires Valid()
      modifies this
      ensures Valid()
      ensures Preserved(old(repos), old(links), repos, links)
      ensures !enabled ==> r == Failed(Disabled) && repos == old(repos) && links == old(links)
      ensures r.Done? ==> MergeState(old(repos), old(links), done, repos, links)
      ensures r.Failed? ==> ExpectedFailure(old(repos), old(links), r)
      ensures r.Done? && complete ==> PageShare(old(repos), done, limit, maxPages)
      ensures r.Done? && complete && OrphanGroups(old(repos)) == {} ==>
                (OrgGroups(repos) == {} <==> |OrgGroups(old(repos))| <= Rows(limit, maxPages))
    {
      done, complete := {}, true;
      StartMerge(repos, links);
      MergeStateFacts(repos, links, done, repos, links);
      if !enabled {
        return Failed(Disabled), done, complete;
      }
      r, done, complete := MergePages(repos, links);
      if r.Done? && complete {
        MergeComplete(old(repos), old(links), done, repos, links, limit, maxPages);
      }
    }

    /** The page loop of phase 3. */
    method MergePages(ghost repos0: Repos, ghost links0: Links)
      returns (r: Outcome, ghost done: set<OrgUrl>, ghost complete: bool)
      requires Valid() && MergeState(repos0, links0, {}, repos, links)
      modifies this
      ensures Valid() && Preserved(repos0, links0, repos, links)
      ensures r.Done? ==> MergeState(repos0, links0, done, repos, links)
      ensures r.Failed? ==> ExpectedFailure(repos0, links0, r)
      ensures r.Done? && complete ==> PageShare(repos0, done, limit, maxPages)
    {
      done, complete, r := {}, true, Done;
      var page := 0;
      while page < maxPages
        invariant Valid() && complete && r.Done?
        invariant 0 <= page <= maxPages && PageShare(repos0, done, limit, page)
        invariant MergeState(repos0, links0, done, repos, links)
      {
        MergeStateFacts(repos0, links0, done, repos, links);
        var fails := DatabaseFails();
        if fails {
          complete := false;
          return;
        }
        ghost var rows := OrgGroups(repos);
        var groups := SelectPage(OrgGroups(repos), limit);
        if |groups| == 0 {
          PageShareEnd(repos0, repos, done, limit, page, maxPages);
          return;
        }
        ghost var before := done;
        r, done := MergePage(groups, repos0, links0, done);
        if r.Failed? {
          return;
        }
        PageShareStep(repos0, rows, before, groups, limit, page);
        page := page + 1;
      }
      MergeStateFacts(repos0, links0, done, repos, links);
    }

    /** The groups of one page. */
    method MergePage(groups: seq<OrgUrl>, ghost repos0: Repos, ghost links0: Links, ghost before: set<OrgUrl>)
      returns (r: Outcome, ghost done: set<OrgUrl>)
      requires Valid() && MergeState(repos0, links0, before, repos, links)
      requires Distinct(groups) && Elements(groups) <= (OwnedGroups(repos0) - before) + OrphanGroups(repos0)
      modifies this
      ensures Valid()
      ensures r.Done? ==> MergeState(repos0, links0, done, repos, links) && done == MergedSoFar(groups, before)
      ensures r.Failed? ==> Preserved(repos0, links0, repos, links) && ExpectedFailure(repos0, links0, r)
    {
      done := before;
      var i := 0;
      while i < |groups|
        invariant Valid() && MergeState(repos0, links0, done, repos, links)
        invariant 0 <= i <= |groups| && done == MergedSoFar(groups[..i], before)
      {
        NextMerged(groups, i, repos0, before);
        r := MergeGroup(groups[i], repos0, links0, done);
        if r.Failed? {
          return;
        }
        done := WithGroup(done, groups[i]);
        i := i + 1;
      }
      assert groups[..i] == groups;
      r := Done;
    }

    /** One group of phase 3, relative to the state phase 3 started from. */
    method MergeGroup(g: OrgUrl, ghost repos0: Repos, ghost links0: Links, ghost done: set<OrgUrl>) returns (r: Outcome)
      requires Valid() && MergeState(repos0, links0, done, repos, links) && g in OrgGroups(repos0) && g !in done
      modifies this
      ensures Valid()
      ensures r.Done? ==> MergeState(repos0, links0, WithGroup(done, g), repos, links)
      ensures r.Failed? ==> Preserved(repos0, links0, repos, links) && ExpectedFailure(repos0, links0, r)
    {
      MergeGroupFacts(repos0, links0, done, g, repos, links);
      r := RepairOrgUrl(g.0, g.1);
    }
  }

  // ----- the state phase 3 is in -----

  /** The tables after the groups in done were merged. */
  ghost predicate MergeState(repos0: Repos, links0: Links, done: set<OrgUrl>, repos: Repos, links: Links) {
    && LinksOk(repos0, links0) && done <= OwnedGroups(repos0)
    && repos == Merged(repos0, done) && links == Repointed(repos0, links0, done)
  }

  /** What phase 3 keeps at every point. */
  ghost predicate Preserved(repos0: Repos, links0: Links, repos: Repos, links: Links) {
    && SameMeaning(repos0, links0, repos, links)
    && OrphanGroups(repos) == OrphanGroups(repos0)
    && UnslashedUrls(repos) <= UnslashedUrls(repos0)
  }

  /** A failure of phase 3 is a constraint violation only if some image has a URL twice. */
  ghost predicate ExpectedFailure(repos0: Repos, links0: Links, r: Outcome) {
    r.Failed? && (ImageGroups(repos0, links0) == {} ==> r.error == Disabled || r.error == DatabaseFault)
  }

  /** How many groups are merged after so many pages: all that fit when no group lacks an organisation, and
      otherwise at least the share of each page that such groups leave. */
  ghost predicate PageShare(repos0: Repos, done: set<OrgUrl>, limit: nat, pages: nat) {
    && done <= OwnedGroups(repos0)
    && ShareBounds(|OwnedGroups(repos0)|, |OrphanGroups(repos0)|, |done|, limit, pages)
  }

  predicate ShareBounds(owned: nat, orphans: nat, merged: nat, limit: nat, pages: nat) {
    Min(owned, Rows(Max(0, limit - orphans), pages)) <= merged <= Min(owned, Rows(limit, pages))
  }

  /** The groups merged once g was handled; groups without an organisation are skipped. */
  function WithGroup(done: set<OrgUrl>, g: OrgUrl): set<OrgUrl> {
    if g.0 != "" then done + {g} else done
  }

  function MergedSoFar(groups: seq<OrgUrl>, before: set<OrgUrl>): set<OrgUrl> {
    before + set g | g in groups && g.0 != ""
  }

  lemma MergeStateFacts(repos0: Repos, links0: Links, done: set<OrgUrl>, repos: Repos, links: Links)
    requires MergeState(repos0, links0, done, repos, links)
    ensures Preserved(repos0, links0, repos, links) && LinksOk(repos, links)
    ensures OrgGroups(repos) == (OwnedGroups(repos0) - done) + OrphanGroups(repos0)
  {
    MergedRest(repos0, done);
    MergedMeaning(repos0, links0, done);
    MergedKeepsSlashes(repos0, done);
    OwnedAndOrphans(repos);
  }

  lemma MergeComplete(repos0: Repos, links0: Links, done: set<OrgUrl>, repos: Repos, links: Links,
                      limit: nat, maxPages: nat)
    requires MergeState(repos0, links0, done, repos, links) && PageShare(repos0, done, limit, maxPages)
    ensures OrphanGroups(repos0) == {} ==> (OrgGroups(repos) == {} <==> |OrgGroups(repos0)| <= Rows(limit, maxPages))
  {
    if OrphanGroups(repos0) == {} {
      MergeStateFacts(repos0, links0, done, repos, links);
      OwnedAndOrphans(repos0);
      Remaining(OwnedGroups(repos0), done);
      ShareAll(|OwnedGroups(repos0)|, |done|, limit, maxPages);
    }
  }

  lemma ShareAll(owned: nat, merged: nat, limit: nat, pages: nat)
    requires ShareBounds(owned, 0, merged, limit, pages)
    ensures merged == Min(owned, Rows(limit, pages))
  {
  }

  lemma GroupUntouched(repos0: Repos, links0: Links, done: set<OrgUrl>, g: OrgUrl, repos: Repos, links: Links)
    requires MergeState(repos0, links0, done, repos, links) && g in OrgGroups(repos0) && g !in done
    ensures |Ids(repos, g)| > 1 && g.1 != "" && Ids(repos, g) == Ids(repos0, g)
    ensures ImageGroups(repos0, links0) == {} ==> !RepointClashes(links, Others(repos, g), MaxOf(Ids(repos, g)))
  {
    OrgGroupIff(repos0, g);
    MergedIds(repos0, done, g);
    MergedKeepsImageGroupsIf(repos0, links0, done);
    ClashIff(repos, links, g, MaxOf(Ids(repos0, g)));
  }

  /** The two statements of RepairOrgUrl for the group g: what the tables look like after none, one or both of them. */
  lemma MergeGroupFacts(repos0: Repos, links0: Links, done: set<OrgUrl>, g: OrgUrl, repos: Repos, links: Links)
    requires MergeState(repos0, links0, done, repos, links) && g in OrgGroups(repos0) && g !in done
    ensures |Ids(repos, g)| > 1 && g.1 != ""
    ensures ImageGroups(repos0, links0) == {} ==> !RepointClashes(links, Others(repos, g), MaxOf(Ids(repos, g)))
    ensures Preserved(repos0, links0, repos, links)
    ensures Preserved(repos0, links0, repos, RepointGroup(repos, links, g))
    ensures g.0 != "" ==>
              MergeState(repos0, links0, done + {g}, repos - Others(repos, g), RepointGroup(repos, links, g))
  {
    GroupUntouched(repos0, links0, done, g, repos, links);
    MergeStateFacts(repos0, links0, done, repos, links);
    RepointedMeaning(repos0, links0, done, g);
    RepointStep(repos0, links0, done, g, Others(repos0, g), MaxOf(Ids(repos0, g)));
    assert RepointGroup(repos, links, g) == Repointed(repos0, links0, done + {g});
  }

  /** The repositories of a group other than the one with the largest id. */
  ghost function Others(repos: Repos, g: OrgUrl): set<nat> {
    var ids := Ids(repos, g);
    if ids == {} then {} else ids - {MaxOf(ids)}
  }

  function Repoint(links: Links, others: set<nat>, chosen: nat): Links {
    set l | l in links :: (l.0, if l.1 in others then chosen else l.1)
  }

  ghost function RepointGroup(repos: Repos, links: Links, g: OrgUrl): Links
    requires Ids(repos, g) != {}
  {
    Repoint(links, Others(repos, g), MaxOf(Ids(repos, g)))
  }

  lemma RepointOk(repos: Repos, links: Links, others: set<nat>, chosen: nat)
    requires LinksOk(repos, links) && chosen in repos && chosen !in others
    ensures LinksOk(repos, Repoint(links, others, chosen))
    ensures forall l | l in Repoint(links, others, chosen) :: l.1 !in others
  {
  }

  lemma MergedKeepsImageGroupsIf(repos: Repos, links: Links, done: set<OrgUrl>)
    requires LinksOk(repos, links)
    ensures ImageGroups(repos, links) == {} ==> ImageGroups(Merged(repos, done), Repointed(repos, links, done)) == {}
  {
    if ImageGroups(repos, links) == {} {
      MergedKeepsImageGroups(repos, links, done);
    }
  }

  /** Between the two statements of a group, with the images re-pointed and the other repositories not yet deleted,
      the meaning is already the old one. */
  lemma RepointedMeaning(repos: Repos, links: Links, done: set<OrgUrl>, g: OrgUrl)
    requires LinksOk(repos, links)
    ensures SameMeaning(repos, links, Merged(repos, done), Repointed(repos, links, done + {g}))
  {
    var repos', links' := Merged(repos, done), Repointed(repos, links, done + {g});
    var repos2 := Merged(repos, done + {g});
    MergedMeaning(repos, links, done + {g});
    forall r | r in repos2 ensures r in repos' && repos'[r] == repos2[r] {
      TargetKept(repos, done, r);
      assert Merges(repos, done, r) ==> Merges(repos, done + {g}, r);
    }
    forall img: nat, u ensures UsesUrl(repos2, links', img, u) <==> UsesUrl(repos', links', img, u) {
      if UsesUrl(repos2, links', img, u) {
        var r :| Linked(repos2, links', img, r) && AddSlashToURL(repos2[r].url) == u;
        assert Linked(repos', links', img, r);
      }
      if UsesUrl(repos', links', img, u) {
        var r :| Linked(repos', links', img, r) && AddSlashToURL(repos'[r].url) == u;
        assert (img, r) in links' && (img, r).1 in repos2;
        assert Linked(repos2, links', img, r);
      }
    }
    SameMeaningByUse(repos2, links', repos', links');
  }

  lemma StartMerge(repos: Repos, links: Links)
    requires LinksOk(repos, links)
    ensures repos == Merged(repos, {}) && links == Repointed(repos, links, {})
    ensures SameMeaning(repos, links, repos, links)
  {
    forall l | l in links ensures l == (l.0, Target(repos, {}, l.1)) {
    }
  }

  lemma OwnedAndOrphans(repos: Repos)
    ensures OrgGroups(repos) == OwnedGroups(repos) + OrphanGroups(repos)
    ensures |OrgGroups(repos)| == |OwnedGroups(repos)| + |OrphanGroups(repos)|
  {
    assert OrgGroups(repos) == OwnedGroups(repos) + OrphanGroups(repos);
    assert OwnedGroups(repos) !! OrphanGroups(repos);
  }

  // ----- counting pages -----

  /** The rows that the given number of full pages holds. */
  function Rows(limit: nat, pages: nat): nat {
    if pages == 0 then 0 else Rows(limit, pages - 1) + limit
  }

  lemma {:induction false} RowsProduct(limit: nat, pages: nat)
    ensures Rows(limit, pages) == limit * pages
  {
    if pages > 0 {
      RowsProduct(limit, pages - 1);
    }
  }

  /** If a loop of full pages stops early, the pages allowed would have sufficed. */
  lemma {:induction false} PagesSuffice(limit: nat, page: nat, maxPages: nat)
    requires page <= maxPages
    ensures Rows(limit, page) <= Rows(limit, maxPages)
  {
    if page < maxPages {
      PagesSuffice(limit, page, maxPages - 1);
    }
  }

  lemma Remaining<T>(all: set<T>, done: set<T>)
    requires done <= all
    ensures |all - done| == |all| - |done|
    ensures all - done == {} <==> |done| == |all|
  {
    assert all == done + (all - done);
  }

  /** After so many pages all the rows that fit in them are done. */
  ghost predicate Paged<T(!new)>(all: set<T>, done: set<T>, limit: nat, pages: nat) {
    done <= all && |done| == Min(|all|, Rows(limit, pages))
  }

  /** At the end of a page loop. */
  lemma PagesEnd<T(!new)>(all: set<T>, done: set<T>, limit: nat, page: nat, maxPages: nat)
    requires Paged(all, done, limit, page) && page <= maxPages
    requires page == maxPages || |all - done| == 0
    ensures Paged(all, done, limit, maxPages)
    ensures all - done == {} <==> |all| <= Rows(limit, maxPages)
  {
    PagesSuffice(limit, page, maxPages);
    Remaining(all, done);
  }

  /** The i-th element of a listing without repetitions is new. */
  lemma NextElement<T>(s: seq<T>, i: nat)
    requires Distinct(s) && i < |s|
    ensures s[i] in Elements(s) && s[i] !in Elements(s[..i])
    ensures Elements(s[..i + 1]) == Elements(s[..i]) + {s[i]}
  {
  }

  /** Handling the i-th group of a page, which counts unless it is skipped. */
  lemma NextMerged(groups: seq<OrgUrl>, i: nat, repos0: Repos, before: set<OrgUrl>)
    requires Distinct(groups) && i < |groups| && before <= OwnedGroups(repos0)
    requires Elements(groups) <= (OwnedGroups(repos0) - before) + OrphanGroups(repos0)
    ensures groups[i] in OrgGroups(repos0) && groups[i] !in MergedSoFar(groups[..i], before)
    ensures WithGroup(MergedSoFar(groups[..i], before), groups[i]) == MergedSoFar(groups[..i + 1], before)
  {
    NextElement(groups, i);
    assert groups[i] !in before;
  }

  /** A page of what is left brings the number of handled groups to the next multiple of the limit, or to the end. */
  lemma FullPage<T(!new)>(all: set<T>, done: set<T>, page: seq<T>, limit: nat, pages: nat)
    requires Paged(all, done, limit, pages)
    requires Distinct(page) && Elements(page) <= all - done && |page| == Min(|all - done|, limit)
    ensures |done + Elements(page)| == |done| + |page| && Paged(all, done + Elements(page), limit, pages + 1)
  {
    DistinctSize(page);
    Remaining(all, done);
    assert done !! Elements(page);
  }

  /** One more page: the page without the groups it skips is merged. */
  lemma PageShareStep(repos0: Repos, rows: set<OrgUrl>, before: set<OrgUrl>, page: seq<OrgUrl>, limit: nat, pages: nat)
    requires PageShare(repos0, before, limit, pages) && rows == (OwnedGroups(repos0) - before) + OrphanGroups(repos0)
    requires Distinct(page) && Elements(page) <= rows && |page| == Min(|rows|, limit)
    ensures PageShare(repos0, MergedSoFar(page, before), limit, pages + 1)
  {
    var all, orphans := OwnedGroups(repos0), OrphanGroups(repos0);
    var done := MergedSoFar(page, before);
    OwnedAndOrphansApart(repos0);
    MergedWithin(all, orphans, before, page);
    PageSizes(all, orphans, before, page);
    RowCount(all, orphans, before, rows);
    ShareStep(|all|, |orphans|, |before|, |done|, |page|, limit, pages);
  }

  lemma OwnedAndOrphansApart(repos0: Repos)
    ensures (forall g | g in OwnedGroups(repos0) :: g.0 != "") && (forall g | g in OrphanGroups(repos0) :: g.0 == "")
    ensures OwnedGroups(repos0) !! OrphanGroups(repos0)
  {
  }

  lemma MergedWithin(all: set<OrgUrl>, orphans: set<OrgUrl>, before: set<OrgUrl>, page: seq<OrgUrl>)
    requires before <= all && (forall g | g in orphans :: g.0 == "") && Elements(page) <= (all - before) + orphans
    ensures MergedSoFar(page, before) <= all && |MergedSoFar(page, before)| <= |all|
  {
    forall g | g in page ensures g in all || g.0 == "" {
      assert g in Elements(page);
    }
    SubsetSize(MergedSoFar(page, before), all);
  }

  lemma RowCount(all: set<OrgUrl>, orphans: set<OrgUrl>, before: set<OrgUrl>, rows: set<OrgUrl>)
    requires before <= all && rows == (all - before) + orphans && all !! orphans
    ensures |before| <= |all| && |rows| == |all| - |before| + |orphans|
  {
    Remaining(all, before);
    SubsetSize(before, all);
    assert (all - before) !! orphans;
    assert |(all - before) + orphans| == |all - before| + |orphans|;
  }

  lemma ShareStep(all: nat, orphans: nat, before: nat, done: nat, size: nat, limit: nat, pages: nat)
    requires ShareBounds(all, orphans, before, limit, pages)
    requires before <= all && size == Min(all - before + orphans, limit)
    requires before + size - orphans <= done <= before + size && before <= done <= all
    ensures ShareBounds(all, orphans, done, limit, pages + 1)
  {
  }

  /** A page splits into the groups it merges, all new, and the groups it skips. */
  lemma PageSizes(all: set<OrgUrl>, orphans: set<OrgUrl>, before: set<OrgUrl>, page: seq<OrgUrl>)
    requires before <= all && (forall g | g in all :: g.0 != "") && (forall g | g in orphans :: g.0 == "")
    requires Distinct(page) && Elements(page) <= (all - before) + orphans
    ensures |before| + |page| - |orphans| <= |MergedSoFar(page, before)| <= |before| + |page|
    ensures |before| <= |MergedSoFar(page, before)|
  {
    DistinctSize(page);
    var merged := set g | g in page && g.0 != "";
    var skipped := Elements(page) * orphans;
    assert merged !! before && MergedSoFar(page, before) == before + merged;
    assert |before + merged| == |before| + |merged|;
    assert Elements(page) == merged + skipped && merged !! skipped;
    SubsetSize(skipped, orphans);
  }

  lemma PageShareEnd(repos0: Repos, repos: Repos, done: set<OrgUrl>, limit: nat, page: nat, maxPages: nat)
    requires page <= maxPages && limit > 0 && PageShare(repos0, done, limit, page)
    requires OrgGroups(repos) == (OwnedGroups(repos0) - done) + OrphanGroups(repos0) && |OrgGroups(repos)| == 0
    ensures PageShare(repos0, done, limit, maxPages)
  {
    Remaining(OwnedGroups(repos0), done);
    assert OrgGroups(repos) == {};
    assert OwnedGroups(repos0) - done == {};
    PagesSuffice(limit, page, maxPages);
  }

  // ----- the whole pipeline -----

  /** The repositories with every URL clean. */
  ghost function AllSlashed(repos: Repos): Repos {
    Slashed(repos, UnslashedUrls(repos))
  }

  /** The links with no image left that has a URL twice. */
  ghost function AllDeduplicated(repos: Repos, links: Links): Links {
    Deduplicated(AllSlashed(repos), links, ImageGroups(AllSlashed(repos), links))
  }

  /** What the first two phases have to clean fits in their pages. */
  ghost predicate CleansFit(repos: Repos, links: Links, limit: nat, maxPages: nat) {
    |UnslashedUrls(repos)| <= limit * maxPages && |ImageGroups(AllSlashed(repos), links)| <= limit * maxPages
  }

  /** What the third phase has to merge fits in the part of its pages that groups without an organisation leave. */
  ghost predicate MergesFit(repos: Repos, limit: nat, maxPages: nat) {
    |OwnedGroups(AllSlashed(repos))| <= Max(0, limit - |OrphanGroups(AllSlashed(repos))|) * maxPages
  }

  ghost predicate PipelineFits(repos: Repos, links: Links, limit: nat, maxPages: nat) {
    CleansFit(repos, links, limit, maxPages) && MergesFit(repos, limit, maxPages)
  }

  /** Of the repositories of an organisation with one URL only the largest id is left. */
  ghost predicate LargestLeft(repos: Repos, repos': Repos) {
    forall g: OrgUrl | g.0 != "" && g.1 != "" ::
      Ids(repos', g) == if Ids(repos, g) == {} then {} else {MaxOf(Ids(repos, g))}
  }

  lemma MergedLargest(repos: Repos)
    ensures LargestLeft(repos, Merged(repos, OwnedGroups(repos)))
  {
    forall g: OrgUrl | g.0 != "" && g.1 != ""
      ensures Ids(Merged(repos, OwnedGroups(repos)), g) == if Ids(repos, g) == {} then {} else {MaxOf(Ids(repos, g))}
    {
      MergedIds(repos, OwnedGroups(repos), g);
      OrgGroupIff(repos, g);
      if Ids(repos, g) != {} && g !in OrgGroups(repos) {
        SubsetSize({MaxOf(Ids(repos, g))}, Ids(repos, g));
      }
    }
  }

  lemma AllHandled<T>(all: set<T>, done: set<T>, limit: nat, maxPages: nat)
    requires done <= all && |done| == Min(|all|, Rows(limit, maxPages)) && |all| <= limit * maxPages
    ensures done == all
  {
    RowsProduct(limit, maxPages);
    SubsetSize(done, all);
  }

  lemma AllMerged(repos: Repos, done: set<OrgUrl>, limit: nat, maxPages: nat)
    requires PageShare(repos, done, limit, maxPages)
    requires |OwnedGroups(repos)| <= Max(0, limit - |OrphanGroups(repos)|) * maxPages
    ensures done == OwnedGroups(repos)
  {
    RowsProduct(Max(0, limit - |OrphanGroups(repos)|), maxPages);
    SubsetSize(done, OwnedGroups(repos));
  }

  /** The end of a complete run: clean URLs, no image with a URL twice, and of each organisation and URL the
      repository with the largest id, to which all links of the others point now. */
  ghost predicate Finished(repos0: Repos, links0: Links, repos: Repos, links: Links) {
    var r1, l1 := AllSlashed(repos0), AllDeduplicated(repos0, links0);
    && repos == Merged(r1, OwnedGroups(r1)) && links == Repointed(r1, l1, OwnedGroups(r1))
    && UnslashedUrls(repos) == {} && ImageGroups(repos, links) == {} && OwnedGroups(repos) == {}
    && LargestLeft(r1, repos)
  }

  lemma PipelineFinished(repos: Repos, links: Links)
    requires LinksOk(repos, links)
    ensures var r1, l1 := AllSlashed(repos), AllDeduplicated(repos, links);
            Finished(repos, links, Merged(r1, OwnedGroups(r1)), Repointed(r1, l1, OwnedGroups(r1)))
  {
    var r1, l1 := AllSlashed(repos), AllDeduplicated(repos, links);
    SlashedRest(repos, UnslashedUrls(repos));
    SlashedMeaning(repos, links, UnslashedUrls(repos));
    DeduplicatedRest(r1, links, ImageGroups(r1, links));
    DeduplicatedMeaning(r1, links, ImageGroups(r1, links));
    MergedKeepsSlashes(r1, OwnedGroups(r1));
    MergedKeepsImageGroups(r1, l1, OwnedGroups(r1));
    MergedRest(r1, OwnedGroups(r1));
    MergedLargest(r1);
  }

  /** A third phase that handled what it should ends a complete run. */
  lemma PipelineEnds(repos0: Repos, links0: Links, repos: Repos, links: Links, done: set<OrgUrl>,
                     limit: nat, maxPages: nat)
    requires LinksOk(repos0, links0) && MergesFit(repos0, limit, maxPages)
    requires var r1, l1 := AllSlashed(repos0), AllDeduplicated(repos0, links0);
             PageShare(r1, done, limit, maxPages) && repos == Merged(r1, done) && links == Repointed(r1, l1, done)
    ensures Finished(repos0, links0, repos, links)
  {
    AllMerged(AllSlashed(repos0), done, limit, maxPages);
    PipelineFinished(repos0, links0);
  }

  /** The first two phases were complete, so the third cannot fail on a key. */
  lemma NoGroupsLeft(repos: Repos, links: Links, urls: set<string>, groups: set<ImageUrl>, limit: nat, maxPages: nat)
    requires CleansFit(repos, links, limit, maxPages)
    requires Paged(UnslashedUrls(repos), urls, limit, maxPages)
    requires Paged(ImageGroups(Slashed(repos, urls), links), groups, limit, maxPages)
    ensures Slashed(repos, urls) == AllSlashed(repos)
    ensures Deduplicated(Slashed(repos, urls), links, groups) == AllDeduplicated(repos, links)
    ensures ImageGroups(AllSlashed(repos), AllDeduplicated(repos, links)) == {}
  {
    AllHandled(UnslashedUrls(repos), urls, limit, maxPages);
    AllHandled(ImageGroups(AllSlashed(repos), links), groups, limit, maxPages);
    DeduplicatedRest(AllSlashed(repos), links, groups);
  }

  /** The first two phases. */
  method RepairUrlsAndLinks(db: Database, enabled: bool) returns (r: Outcome)
    requires db.Valid()
    modifies db
    ensures db.Valid()
    ensures SameMeaning(old(db.repos), old(db.links), db.repos, db.links)
    ensures r.Failed? ==> r.error == Disabled || r.error == DatabaseFault
    ensures r.Done? && CleansFit(old(db.repos), old(db.links), db.limit, db.maxPages) ==>
              && db.repos == AllSlashed(old(db.repos)) && db.links == AllDeduplicated(old(db.repos), old(db.links))
              && ImageGroups(db.repos, db.links) == {}
  {
    ghost var r0, l0 := db.repos, db.links;
    var urls, urlsDone := db.RepairUrls(enabled);
    if urls.Error? {
      return Failed(urls.error);
    }
    ghost var groupsDone;
    r, groupsDone := db.RepairDuplicateImagesReposUrls(enabled);
    if r.Done? && CleansFit(r0, l0, db.limit, db.maxPages) {
      NoGroupsLeft(r0, l0, urlsDone, groupsDone, db.limit, db.maxPages);
    }
  }

  /** The three phases one after the other; the first failure ends the program. Whatever happens, every image uses
      the same URLs as before, up to cleaning, and every link points to an existing repository. When the first two
      phases fit their pages no failure is a constraint violation. When the third fits too, a successful run in which
      none of its queries failed is finished. */
  method RepairAll(db: Database, enabled: bool) returns (r: Outcome, ghost complete: bool)
    requires db.Valid()
    modifies db
    ensures db.Valid()
    ensures SameMeaning(old(db.repos), old(db.links), db.repos, db.links)
    ensures CleansFit(old(db.repos), old(db.links), db.limit, db.maxPages) && r.Failed? ==>
              r.error == Disabled || r.error == DatabaseFault
    ensures r.Done? && complete && PipelineFits(old(db.repos), old(db.links), db.limit, db.maxPages) ==>
              Finished(old(db.repos), old(db.links), db.repos, db.links)
  {
    complete := true;
    ghost var r0, l0 := db.repos, db.links;
    r := RepairUrlsAndLinks(db, enabled);
    if r.Failed? {
      return;
    }
    ghost var orgsDone;
    r, orgsDone, complete := db.RepairDuplicates(enabled);
    if r.Done? && complete && PipelineFits(r0, l0, db.limit, db.maxPages) {
      PipelineEnds(r0, l0, db.repos, db.links, orgsDone, db.limit, db.maxPages);
    }
  }
}
