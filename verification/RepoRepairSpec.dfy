/** The two tables of the custom-repository repair, the closed form of what each phase does to them, and what the
    phases preserve. */
module RepoRepairSpec {
  import opened Tables
  import opened Urls

  /** A row of third_party_repos; a soft-deleted row is not live. */
  datatype Repo = Repo(org: string, url: string, live: bool)

  type Repos = map<nat, Repo>

  /** images_repos: pairs of an image id and a repository id; the pair is the primary key. */
  type Links = set<(nat, nat)>

  ghost predicate LinksOk(repos: Repos, links: Links) {
    forall l | l in links :: l.1 in repos
  }

  predicate Linked(repos: Repos, links: Links, img: nat, r: nat) {
    (img, r) in links && r in repos && repos[r].live
  }

  /** The image uses a live repository whose cleaned URL is u. */
  ghost predicate UsesUrl(repos: Repos, links: Links, img: nat, u: string) {
    exists r :: Linked(repos, links, img, r) && AddSlashToURL(repos[r].url) == u
  }

  /** The cleaned URLs each image uses. */
  ghost function Usage(repos: Repos, links: Links): iset<(nat, string)> {
    iset img: nat, u: string | UsesUrl(repos, links, img, u) :: (img, u)
  }

  /** Every image uses the same URLs, up to cleaning, in both states. */
  ghost predicate SameMeaning(repos: Repos, links: Links, repos': Repos, links': Links) {
    Usage(repos, links) == Usage(repos', links')
  }

  lemma SameMeaningByUse(repos: Repos, links: Links, repos': Repos, links': Links)
    requires forall img: nat, u :: UsesUrl(repos, links, img, u) <==> UsesUrl(repos', links', img, u)
    ensures SameMeaning(repos, links, repos', links')
  {
  }

  // ----- phase 1: a slash at the end of every URL -----

  predicate Unslashed(u: string) {
    u != "" && !EndsWithSlash(u)
  }

  function UnslashedUrls(repos: Repos): set<string> {
    set r | r in repos && repos[r].live && Unslashed(repos[r].url) :: repos[r].url
  }

  /** UPDATE third_party_repos SET url = to WHERE url = from, over live rows. */
  function Rename(repos: Repos, from: string, to: string): Repos {
    map r | r in repos :: if repos[r].live && repos[r].url == from then repos[r].(url := to) else repos[r]
  }

  /** All the given URLs cleaned. */
  function Slashed(repos: Repos, done: set<string>): Repos {
    map r | r in repos ::
      if repos[r].live && repos[r].url in done then repos[r].(url := AddSlashToURL(repos[r].url)) else repos[r]
  }

  lemma SlashedStep(repos: Repos, done: set<string>, u: string)
    requires u in UnslashedUrls(Slashed(repos, done)) && done <= UnslashedUrls(repos)
    ensures u in UnslashedUrls(repos) && u !in done
    ensures Rename(Slashed(repos, done), u, AddSlashToURL(u)) == Slashed(repos, done + {u})
  {
    var mid := Slashed(repos, done);
    var r0 :| r0 in mid && mid[r0].live && Unslashed(mid[r0].url) && mid[r0].url == u;
    AddSlashCanonical(repos[r0].url);
    forall r | r in repos ensures Rename(mid, u, AddSlashToURL(u))[r] == Slashed(repos, done + {u})[r] {
      AddSlashCanonical(repos[r].url);
    }
  }

  /** What is left to clean. */
  lemma SlashedRest(repos: Repos, done: set<string>)
    requires done <= UnslashedUrls(repos)
    ensures UnslashedUrls(Slashed(repos, done)) == UnslashedUrls(repos) - done
  {
    var after := Slashed(repos, done);
    forall v ensures !Unslashed(AddSlashToURL(v)) {
      AddSlashCanonical(v);
    }
    forall u | u in UnslashedUrls(repos) - done ensures u in UnslashedUrls(after) {
      var r :| r in repos && repos[r].live && repos[r].url == u;
      assert after[r].url == u;
    }
    forall u | u in UnslashedUrls(after) ensures u in UnslashedUrls(repos) - done {
      var r :| r in after && after[r].live && after[r].url == u;
      assert repos[r].url == u;
    }
  }

  lemma SlashedMeaning(repos: Repos, links: Links, done: set<string>)
    ensures SameMeaning(repos, links, Slashed(repos, done), links)
    ensures LinksOk(repos, links) ==> LinksOk(Slashed(repos, done), links)
  {
    var after := Slashed(repos, done);
    forall r | r in repos
      ensures r in after && after[r].live == repos[r].live
      ensures AddSlashToURL(after[r].url) == AddSlashToURL(repos[r].url)
    {
      AddSlashIdempotent(repos[r].url);
    }
    forall img: nat, u ensures UsesUrl(repos, links, img, u) <==> UsesUrl(after, links, img, u) {
      if UsesUrl(repos, links, img, u) {
        var r :| Linked(repos, links, img, r) && AddSlashToURL(repos[r].url) == u;
        assert Linked(after, links, img, r);
      }
      if UsesUrl(after, links, img, u) {
        var r :| Linked(after, links, img, r) && AddSlashToURL(after[r].url) == u;
        assert Linked(repos, links, img, r);
      }
    }
    SameMeaningByUse(repos, links, after, links);
  }

  // ----- phase 2: at most one live repository per image and URL -----

  type ImageUrl = (nat, string)

  function LinkedWith(repos: Repos, links: Links, img: nat, url: string): set<nat> {
    set r | r in repos && Linked(repos, links, img, r) && repos[r].url == url
  }

  function ImageGroups(repos: Repos, links: Links): set<ImageUrl> {
    set l | l in links && Linked(repos, links, l.0, l.1) && |LinkedWith(repos, links, l.0, repos[l.1].url)| > 1
      :: (l.0, repos[l.1].url)
  }

  /** The links of a group other than the one to the largest repository id. */
  ghost predicate Surplus(repos: Repos, links: Links, done: set<ImageUrl>, l: (nat, nat)) {
    && l in links && Linked(repos, links, l.0, l.1)
    && (l.0, repos[l.1].url) in done
    && l.1 in LinkedWith(repos, links, l.0, repos[l.1].url)
    && l.1 != MaxOf(LinkedWith(repos, links, l.0, repos[l.1].url))
  }

  /** The links left when every group in done keeps only its largest repository id. */
  ghost function Deduplicated(repos: Repos, links: Links, done: set<ImageUrl>): Links {
    set l | l in links && !Surplus(repos, links, done, l)
  }

  lemma GroupIff(repos: Repos, links: Links, g: ImageUrl)
    ensures g in ImageGroups(repos, links) <==> |LinkedWith(repos, links, g.0, g.1)| > 1
  {
    var s := LinkedWith(repos, links, g.0, g.1);
    if |s| > 1 {
      var r :| r in s;
      assert (g.0, r) in links;
    }
  }

  /** The links of one group: all of them before it is handled, the largest id afterwards. */
  lemma DeduplicatedGroup(repos: Repos, links: Links, done: set<ImageUrl>, img: nat, url: string)
    ensures var s := LinkedWith(repos, links, img, url);
            LinkedWith(repos, Deduplicated(repos, links, done), img, url)
            == (if (img, url) in done && s != {} then {MaxOf(s)} else s)
  {
    var after := Deduplicated(repos, links, done);
    var s := LinkedWith(repos, links, img, url);
    forall r ensures r in LinkedWith(repos, after, img, url) <==> r in s && ((img, url) in done ==> r == MaxOf(s)) {
      if r in s {
        assert (img, r) in after <==> !Surplus(repos, links, done, (img, r));
      }
    }
  }

  lemma DeduplicatedRest(repos: Repos, links: Links, done: set<ImageUrl>)
    requires done <= ImageGroups(repos, links)
    ensures ImageGroups(repos, Deduplicated(repos, links, done)) == ImageGroups(repos, links) - done
  {
    var after := Deduplicated(repos, links, done);
    forall g: ImageUrl ensures g in ImageGroups(repos, after) <==> g in ImageGroups(repos, links) && g !in done {
      GroupIff(repos, links, g);
      GroupIff(repos, after, g);
      DeduplicatedGroup(repos, links, done, g.0, g.1);
    }
  }

  lemma DeduplicatedStep(repos: Repos, links: Links, done: set<ImageUrl>, g: ImageUrl, others: set<nat>)
    requires LinkedWith(repos, links, g.0, g.1) != {} && g !in done
    requires others == LinkedWith(repos, links, g.0, g.1) - {MaxOf(LinkedWith(repos, links, g.0, g.1))}
    ensures (set l | l in Deduplicated(repos, links, done) && !(l.0 == g.0 && l.1 in others)) ==
            Deduplicated(repos, links, done + {g})
  {
    var left := set l | l in Deduplicated(repos, links, done) && !(l.0 == g.0 && l.1 in others);
    forall l: (nat, nat) ensures l in left <==> l in Deduplicated(repos, links, done + {g}) {
      if l in links {
        assert (l.0, l.1) == l;
      }
    }
  }

  lemma DeduplicatedMeaning(repos: Repos, links: Links, done: set<ImageUrl>)
    ensures SameMeaning(repos, links, repos, Deduplicated(repos, links, done))
    ensures LinksOk(repos, links) ==> LinksOk(repos, Deduplicated(repos, links, done))
  {
    var after := Deduplicated(repos, links, done);
    forall img: nat, u | UsesUrl(repos, links, img, u) ensures UsesUrl(repos, after, img, u) {
      var r :| Linked(repos, links, img, r) && AddSlashToURL(repos[r].url) == u;
      var s := LinkedWith(repos, links, img, repos[r].url);
      assert r in s;
      DeduplicatedGroup(repos, links, done, img, repos[r].url);
      var kept := if (img, repos[r].url) in done then MaxOf(s) else r;
      assert kept in LinkedWith(repos, after, img, repos[r].url);
      assert Linked(repos, after, img, kept);
    }
    forall img: nat, u | UsesUrl(repos, after, img, u) ensures UsesUrl(repos, links, img, u) {
      var r :| Linked(repos, after, img, r) && AddSlashToURL(repos[r].url) == u;
      assert Linked(repos, links, img, r);
    }
    SameMeaningByUse(repos, links, repos, after);
  }

  // ----- phase 3: one live repository per organisation and URL -----

  type OrgUrl = (string, string)

  function Ids(repos: Repos, g: OrgUrl): set<nat> {
    set r | r in repos && repos[r].live && repos[r].org == g.0 && repos[r].url == g.1
  }

  function OrgGroups(repos: Repos): set<OrgUrl> {
    set r | r in repos && repos[r].live && repos[r].url != "" && |Ids(repos, (repos[r].org, repos[r].url))| > 1
      :: (repos[r].org, repos[r].url)
  }

  /** The groups phase 3 repairs; the ones without an organisation are selected but skipped. */
  function OwnedGroups(repos: Repos): set<OrgUrl> {
    set g | g in OrgGroups(repos) && g.0 != ""
  }

  function OrphanGroups(repos: Repos): set<OrgUrl> {
    set g | g in OrgGroups(repos) && g.0 == ""
  }

  ghost predicate Merges(repos: Repos, done: set<OrgUrl>, r: nat) {
    && r in repos && repos[r].live && (repos[r].org, repos[r].url) in done
    && r in Ids(repos, (repos[r].org, repos[r].url))
  }

  /** The repository that replaces r once the groups in done are merged: the largest id of its group. */
  ghost function Target(repos: Repos, done: set<OrgUrl>, r: nat): nat {
    if Merges(repos, done, r) then MaxOf(Ids(repos, (repos[r].org, repos[r].url))) else r
  }

  ghost function Merged(repos: Repos, done: set<OrgUrl>): Repos {
    map r | r in repos && Target(repos, done, r) == r :: repos[r]
  }

  ghost function Repointed(repos: Repos, links: Links, done: set<OrgUrl>): Links {
    set l | l in links :: (l.0, Target(repos, done, l.1))
  }

  lemma OrgGroupIff(repos: Repos, g: OrgUrl)
    ensures g in OrgGroups(repos) <==> g.1 != "" && |Ids(repos, g)| > 1
  {
    var s := Ids(repos, g);
    if |s| > 1 {
      var r :| r in s;
      assert (repos[r].org, repos[r].url) == g;
    }
  }

  lemma MergedIds(repos: Repos, done: set<OrgUrl>, g: OrgUrl)
    ensures Ids(Merged(repos, done), g) ==
            (if g in done && Ids(repos, g) != {} then {MaxOf(Ids(repos, g))} else Ids(repos, g))
  {
    forall r
      ensures r in Ids(Merged(repos, done), g) <==> r in Ids(repos, g) && (g in done ==> r == MaxOf(Ids(repos, g)))
    {
      if r in Ids(repos, g) {
        assert (repos[r].org, repos[r].url) == g;
      }
    }
  }

  lemma MergedRest(repos: Repos, done: set<OrgUrl>)
    requires done <= OwnedGroups(repos)
    ensures OwnedGroups(Merged(repos, done)) == OwnedGroups(repos) - done
    ensures OrphanGroups(Merged(repos, done)) == OrphanGroups(repos)
  {
    forall g: OrgUrl ensures g in OrgGroups(Merged(repos, done)) <==> g in OrgGroups(repos) && g !in done {
      OrgGroupIff(repos, g);
      OrgGroupIff(Merged(repos, done), g);
      MergedIds(repos, done, g);
    }
  }

  lemma TargetKept(repos: Repos, done: set<OrgUrl>, r: nat)
    requires r in repos
    ensures var t := Target(repos, done, r);
            && t in repos && t in Merged(repos, done)
            && repos[t] == repos[r].(url := repos[t].url) && repos[t].url == repos[r].url
  {
    if Merges(repos, done, r) {
      var t := Target(repos, done, r);
      assert t in Ids(repos, (repos[r].org, repos[r].url));
      assert repos[t].org == repos[r].org && repos[t].url == repos[r].url;
    }
  }

  lemma MergedMeaning(repos: Repos, links: Links, done: set<OrgUrl>)
    requires LinksOk(repos, links)
    ensures SameMeaning(repos, links, Merged(repos, done), Repointed(repos, links, done))
    ensures LinksOk(Merged(repos, done), Repointed(repos, links, done))
  {
    var repos', links' := Merged(repos, done), Repointed(repos, links, done);
    forall r | r in repos ensures Target(repos, done, r) in repos' && repos'[Target(repos, done, r)] == repos[r] {
      TargetKept(repos, done, r);
    }
    forall img: nat, u | UsesUrl(repos, links, img, u) ensures UsesUrl(repos', links', img, u) {
      var r :| Linked(repos, links, img, r) && AddSlashToURL(repos[r].url) == u;
      assert (img, r) in links && (img, r).1 == r;
      assert Linked(repos', links', img, Target(repos, done, r));
    }
    forall img: nat, u | UsesUrl(repos', links', img, u) ensures UsesUrl(repos, links, img, u) {
      var t :| Linked(repos', links', img, t) && AddSlashToURL(repos'[t].url) == u;
      var l :| l in links && (l.0, Target(repos, done, l.1)) == (img, t);
      assert l == (img, l.1);
      assert Linked(repos, links, img, l.1);
    }
    SameMeaningByUse(repos, links, repos', links');
  }

  /** Re-pointing the group g on top of the groups already merged is merging one group more. */
  lemma RepointStep(repos: Repos, links: Links, done: set<OrgUrl>, g: OrgUrl, others: set<nat>, chosen: nat)
    requires g !in done && Ids(repos, g) != {} && chosen == MaxOf(Ids(repos, g)) && others == Ids(repos, g) - {chosen}
    ensures (set l | l in Repointed(repos, links, done) :: (l.0, if l.1 in others then chosen else l.1)) ==
            Repointed(repos, links, done + {g})
    ensures Merged(repos, done) - others == Merged(repos, done + {g})
  {
    var step := set l | l in Repointed(repos, links, done) :: (l.0, if l.1 in others then chosen else l.1);
    forall r: nat
      ensures (var t := Target(repos, done, r); if t in others then chosen else t) == Target(repos, done + {g}, r)
    {
      TargetOne(repos, done, g, r);
    }
    forall p | p in step ensures p in Repointed(repos, links, done + {g}) {
      var l :| l in Repointed(repos, links, done) && p == (l.0, if l.1 in others then chosen else l.1);
      var m :| m in links && l == (m.0, Target(repos, done, m.1));
      assert p == (m.0, Target(repos, done + {g}, m.1));
    }
    forall p | p in Repointed(repos, links, done + {g}) ensures p in step {
      var m :| m in links && p == (m.0, Target(repos, done + {g}, m.1));
      var l := (m.0, Target(repos, done, m.1));
      assert l in Repointed(repos, links, done);
      assert p == (l.0, if l.1 in others then chosen else l.1);
    }
  }

  lemma TargetOne(repos: Repos, done: set<OrgUrl>, g: OrgUrl, r: nat)
    requires g !in done && Ids(repos, g) != {}
    ensures var chosen := MaxOf(Ids(repos, g)); var t := Target(repos, done, r);
            (if t in Ids(repos, g) - {chosen} then chosen else t) == Target(repos, done + {g}, r)
  {
    var t := Target(repos, done, r);
    if Merges(repos, done, r) {
      assert t in Ids(repos, (repos[r].org, repos[r].url));
    }
    if r in Ids(repos, g) {
      assert (repos[r].org, repos[r].url) == g;
    }
  }

  /** Re-pointing two links of one image to the same repository would break the primary key of images_repos. */
  predicate RepointClashes(links: Links, others: set<nat>, chosen: nat) {
    exists l, m | l in links && m in links :: l != m && l.0 == m.0 && l.1 in others && (m.1 in others || m.1 == chosen)
  }

  /** The re-pointing of a group clashes exactly when some image is linked to two of the repositories of the group;
      in particular it never does once each image has at most one live repository per URL. */
  lemma ClashIff(repos: Repos, links: Links, g: OrgUrl, chosen: nat)
    requires chosen in Ids(repos, g)
    ensures RepointClashes(links, Ids(repos, g) - {chosen}, chosen)
       <==> exists l, m | l in links && m in links ::
              l.0 == m.0 && l.1 != m.1 && l.1 in Ids(repos, g) && m.1 in Ids(repos, g)
    ensures ImageGroups(repos, links) == {} ==> !RepointClashes(links, Ids(repos, g) - {chosen}, chosen)
  {
    var ids := Ids(repos, g);
    if l, m :| l in links && m in links && l.0 == m.0 && l.1 != m.1 && l.1 in ids && m.1 in ids {
      if l.1 == chosen {
        assert m != l && m.1 in ids - {chosen};
      } else {
        assert l != m && l.1 in ids - {chosen};
      }
      var s := LinkedWith(repos, links, l.0, g.1);
      assert l == (l.0, l.1) && m == (l.0, m.1);
      assert l.1 in s && m.1 in s;
      TwoElements(s, l.1, m.1);
      GroupIff(repos, links, (l.0, g.1));
    }
    if RepointClashes(links, ids - {chosen}, chosen) {
      var l, m :| && l in links && m in links && l != m && l.0 == m.0
                  && l.1 in ids - {chosen} && (m.1 in ids - {chosen} || m.1 == chosen);
      assert l.1 != m.1;
    }
  }

  lemma TwoElements<T>(s: set<T>, x: T, y: T)
    requires x in s && y in s && x != y
    ensures |s| > 1
  {
    assert {x, y} <= s;
    assert |s| == |{x, y}| + |s - {x, y}|;
  }

  /** Merging keeps each image at one live repository per URL. */
  lemma MergedKeepsImageGroups(repos: Repos, links: Links, done: set<OrgUrl>)
    requires ImageGroups(repos, links) == {} && LinksOk(repos, links)
    ensures ImageGroups(Merged(repos, done), Repointed(repos, links, done)) == {}
  {
    var repos', links' := Merged(repos, done), Repointed(repos, links, done);
    forall g: ImageUrl ensures g !in ImageGroups(repos', links') {
      GroupIff(repos', links', g);
      GroupIff(repos, links, g);
      var s, s' := LinkedWith(repos, links, g.0, g.1), LinkedWith(repos', links', g.0, g.1);
      if |s'| > 1 {
        var a :| a in s';
        if s' == {a} {
          assert false;
        }
        assert s' - {a} != {};
        var b :| b in s' - {a};
        var la :| la in links && (la.0, Target(repos, done, la.1)) == (g.0, a);
        var lb :| lb in links && (lb.0, Target(repos, done, lb.1)) == (g.0, b);
        assert la == (g.0, la.1) && lb == (g.0, lb.1);
        TargetKept(repos, done, la.1);
        TargetKept(repos, done, lb.1);
        assert la.1 in s && lb.1 in s;
        TwoElements(s, la.1, lb.1);
      }
    }
  }

  /** Merging changes no URL, so what phase 1 achieved stays. */
  lemma MergedKeepsSlashes(repos: Repos, done: set<OrgUrl>)
    ensures UnslashedUrls(Merged(repos, done)) <= UnslashedUrls(repos)
  {
  }
}
