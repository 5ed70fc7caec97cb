/** What a finished repair means, row by row and link by link. */
module RepoRepairMeaning {
  import opened RepoRepair
  import opened RepoRepairSpec
  import opened Tables
  import opened Urls

  /** The URL of a row once phase 1 is over. */
  function CleanUrl(repo: Repo): string {
    if repo.live && repo.url != "" && repo.url[|repo.url| - 1] != '/' then AddSlashToURL(repo.url) else repo.url
  }

  /** Live rows r and t belong to one organisation, which is set, and have one clean URL, which is not empty. */
  ghost predicate SameRepository(repos: Repos, r: nat, t: nat) {
    && r in repos && t in repos && repos[r].live && repos[t].live && repos[r].org != ""
    && repos[r].org == repos[t].org && CleanUrl(repos[r]) == CleanUrl(repos[t]) != ""
  }

  lemma AllSlashedRows(repos: Repos)
    ensures AllSlashed(repos).Keys == repos.Keys
    ensures forall r | r in repos :: AllSlashed(repos)[r] == repos[r].(url := CleanUrl(repos[r]))
  {
    assert forall u | u in UnslashedUrls(repos) :: Unslashed(u);
    forall r | r in repos ensures AllSlashed(repos)[r] == repos[r].(url := CleanUrl(repos[r])) {
      assert repos[r].live && Unslashed(repos[r].url) ==> repos[r].url in UnslashedUrls(repos);
    }
  }

  lemma GroupOfRow(repos: Repos, r: nat)
    requires r in repos && repos[r].live && repos[r].org != "" && CleanUrl(repos[r]) != ""
    ensures var ids := Ids(AllSlashed(repos), (repos[r].org, CleanUrl(repos[r])));
            r in ids && forall t :: t in ids <==> SameRepository(repos, r, t)
  {
    AllSlashedRows(repos);
  }

  /** A row is left, with its clean URL, exactly when no row with a larger id is the same repository. */
  lemma SurvivorsExactly(repos0: Repos, links0: Links, repos: Repos, links: Links)
    requires Finished(repos0, links0, repos, links)
    ensures forall r :: r in repos <==> r in repos0 && forall t | SameRepository(repos0, r, t) :: t <= r
    ensures forall r | r in repos && r in repos0 :: repos[r] == repos0[r].(url := CleanUrl(repos0[r]))
  {
    var r1 := AllSlashed(repos0);
    AllSlashedRows(repos0);
    forall r | r in repos0 ensures r in repos <==> forall t | SameRepository(repos0, r, t) :: t <= r {
      SurvivorExactly(repos0, r);
    }
  }

  lemma SurvivorExactly(repos: Repos, r: nat)
    requires r in repos
    ensures var r1 := AllSlashed(repos);
            r in Merged(r1, OwnedGroups(r1)) <==> forall t: nat | SameRepository(repos, r, t) :: t <= r
  {
    var r1 := AllSlashed(repos);
    AllSlashedRows(repos);
    var g := (r1[r].org, r1[r].url);
    if repos[r].live && repos[r].org != "" && CleanUrl(repos[r]) != "" {
      GroupOfRow(repos, r);
      OrgGroupIff(r1, g);
      var ids := Ids(r1, g);
      if g !in OwnedGroups(r1) {
        SubsetSize({r}, ids);
      }
    }
  }

  /** No URL lacks its slash, no image has one URL through two live repositories, and no organisation has two live
      repositories with one URL. */
  lemma FinishedMeans(repos0: Repos, links0: Links, repos: Repos, links: Links)
    requires Finished(repos0, links0, repos, links)
    ensures forall r | r in repos && repos[r].live && repos[r].url != "" :: repos[r].url[|repos[r].url| - 1] == '/'
    ensures forall img, r, t | (img, r) in links && (img, t) in links && r in repos && t in repos && r != t &&
                               repos[r].live && repos[t].live :: repos[r].url != repos[t].url
    ensures forall r, t | r in repos && t in repos && r != t && repos[r].live && repos[t].live &&
                          repos[r].org == repos[t].org != "" && repos[r].url != "" :: repos[r].url != repos[t].url
  {
    forall r | r in repos && repos[r].live && repos[r].url != "" ensures repos[r].url[|repos[r].url| - 1] == '/' {
      assert repos[r].url !in UnslashedUrls(repos);
    }
    forall img: nat, r: nat, t: nat | (img, r) in links && (img, t) in links && r in repos && t in repos && r != t &&
                                      repos[r].live && repos[t].live
      ensures repos[r].url != repos[t].url
    {
      OneUrlPerImage(repos, links, img, r, t);
    }
    forall r, t | r in repos && t in repos && r != t && repos[r].live && repos[t].live &&
                  repos[r].org == repos[t].org != "" && repos[r].url != ""
      ensures repos[r].url != repos[t].url
    {
      OneUrlPerOrg(repos, r, t);
    }
  }

  lemma OneUrlPerImage(repos: Repos, links: Links, img: nat, r: nat, t: nat)
    requires ImageGroups(repos, links) == {} && (img, r) in links && (img, t) in links && r != t
    requires r in repos && t in repos && repos[r].live && repos[t].live
    ensures repos[r].url != repos[t].url
  {
    if repos[r].url == repos[t].url {
      GroupIff(repos, links, (img, repos[r].url));
      SubsetSize({r, t}, LinkedWith(repos, links, img, repos[r].url));
      assert false;
    }
  }

  lemma OneUrlPerOrg(repos: Repos, r: nat, t: nat)
    requires OwnedGroups(repos) == {} && r in repos && t in repos && r != t && repos[r].live && repos[t].live
    requires repos[r].org == repos[t].org != "" && repos[r].url != ""
    ensures repos[r].url != repos[t].url
  {
    var g := (repos[r].org, repos[r].url);
    OrgGroupIff(repos, g);
    assert g !in OwnedGroups(repos);
    if repos[r].url == repos[t].url {
      SubsetSize({r, t}, Ids(repos, g));
      assert false;
    }
  }

  /** The image is linked to a live repository whose URL is u once it is clean. */
  ghost predicate ImageUses(repos: Repos, links: Links, img: nat, u: string) {
    exists r :: (img, r) in links && r in repos && repos[r].live && AddSlashToURL(repos[r].url) == u
  }

  /** The meaning is the same when every image uses the same clean URLs. */
  lemma SameMeaningExactly(repos: Repos, links: Links, repos': Repos, links': Links)
    ensures SameMeaning(repos, links, repos', links') <==>
            forall img: nat, u :: ImageUses(repos, links, img, u) <==> ImageUses(repos', links', img, u)
  {
    forall img: nat, u
      ensures ImageUses(repos, links, img, u) <==> (img, u) in Usage(repos, links)
      ensures ImageUses(repos', links', img, u) <==> (img, u) in Usage(repos', links')
    {
      UsesUrlExactly(repos, links, img, u);
      UsesUrlExactly(repos', links', img, u);
    }
    if forall img: nat, u :: ImageUses(repos, links, img, u) <==> ImageUses(repos', links', img, u) {
      assert Usage(repos, links) == Usage(repos', links');
    }
  }

  lemma UsesUrlExactly(repos: Repos, links: Links, img: nat, u: string)
    ensures UsesUrl(repos, links, img, u) <==> ImageUses(repos, links, img, u)
  {
    if r: nat :| (img, r) in links && r in repos && repos[r].live && AddSlashToURL(repos[r].url) == u {
      assert Linked(repos, links, img, r);
    }
  }
}
