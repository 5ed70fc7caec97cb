/** What an accepted request changes in the tables of the custom repositories, and when a request is accepted. */
module CustomReposEffects {
  import opened Options
  import opened Urls
  import opened CustomRepos

  /** Another live repository of the organisation has the name. */
  ghost predicate NameHeld(db: Db, org: string, name: string) {
    exists r :: LiveIn(db, org, r) && db.repos[r].name == name
  }

  /** The existence query says so: an equivalent URL is stored, or slashes only meet a stored empty URL. */
  ghost predicate UrlHeld(db: Db, org: string, url: string) {
    HasEquivalent(db, org, url) || (TrimSlashes(url) == "" && HasEmptyUrl(db, org))
  }

  /** A live image with one of the statuses is linked to the repository. */
  ghost predicate Uses(db: Db, i: nat, r: nat, statuses: set<string>) {
    (i, r) in db.links && i in db.images && db.images[i].live && db.images[i].status in statuses
  }

  lemma ImagesUseExactly(db: Db, r: nat, statuses: set<string>)
    ensures statuses != {} ==> (ImagesUse(db, r, statuses) <==> exists i: nat :: Uses(db, i, r, statuses))
    ensures ImagesUse(db, r, {}) <==> exists i: nat, status :: Uses(db, i, r, {status})
  {
    if i: nat, status :| Uses(db, i, r, {status}) {
      assert (i, r) in db.links;
    }
    if i: nat :| Uses(db, i, r, statuses) {
      assert (i, r) in db.links;
    }
    if l :| l in db.links && l.1 == r && l.0 in db.images && db.images[l.0].live {
      assert Uses(db, l.0, r, {db.images[l.0].status});
    }
    if l :| && l in db.links && l.1 == r && l.0 in db.images && db.images[l.0].live
            && db.images[l.0].status in statuses
    {
      assert Uses(db, l.0, r, statuses);
    }
  }

  /** The two queries refuse an empty organisation first, then an empty name or URL. */
  lemma QueriesExactly(db: Db, org: string, name: string, url: string)
    requires Inv(db)
    ensures NameTaken(db, org, name) == Err(OrgIDNotSet) <==> org == ""
    ensures NameTaken(db, org, name) == Err(NameIsEmpty) <==> org != "" && name == ""
    ensures org != "" && name != "" ==> NameTaken(db, org, name) == Ok(NameHeld(db, org, name))
    ensures UrlTaken(db, org, url) == Err(OrgIDNotSet) <==> org == ""
    ensures UrlTaken(db, org, url) == Err(URLIsEmpty) <==> org != "" && url == ""
    ensures org != "" && url != "" ==> UrlTaken(db, org, url) == Ok(UrlHeld(db, org, url))
  {
    if org != "" && url != "" {
      UrlTakenExact(db, org, url);
    }
  }

  // ----- create -----

  /** Accepted exactly when everything is set, the URL is valid, and neither name nor URL is held; a refusal names the
      first of these that fails. */
  lemma CreateAcceptedExactly(db: Db, valid: string -> bool, org: string, name: string, url: string,
                              description: string)
    requires Inv(db)
    ensures var reply := Create(db, valid, org, name, url, description).1;
            var set_ := org != "" && name != "" && url != "";
            && (reply.Ok? <==> set_ && valid(url) && !NameHeld(db, org, name) && !UrlHeld(db, org, url))
            && (reply == Err(OrgIDNotSet) <==> org == "")
            && (reply == Err(NameIsEmpty) <==> org != "" && name == "")
            && (reply == Err(URLIsEmpty) <==> org != "" && name != "" && url == "")
            && (reply == Err(InvalidURL) <==> set_ && !valid(url))
            && (reply == Err(NameExists) <==> set_ && valid(url) && NameHeld(db, org, name))
            && (reply == Err(URLExists) <==>
                  set_ && valid(url) && !NameHeld(db, org, name) && UrlHeld(db, org, url))
  {
    QueriesExactly(db, org, name, url);
  }

  /** One new live row with the name, the description and an equivalent clean URL, and nothing else; a refusal changes
      nothing. */
  lemma CreateEffect(db: Db, valid: string -> bool, org: string, name: string, url: string, description: string)
    requires Inv(db)
    ensures var (db', reply) := Create(db, valid, org, name, url, description);
            && (reply.Err? ==> db' == db)
            && (reply.Ok? ==>
                  var id := reply.value;
                  && id !in db.repos && LiveIn(db', org, id)
                  && db' == db.(repos := db.repos[id := db'.repos[id]], next := db'.next)
                  && db'.repos[id].name == name && db'.repos[id].description == description
                  && Canonical(db'.repos[id].url) && SlashEquivalent(db'.repos[id].url, url)
                  && NameTaken(db', org, name) == Ok(true) && UrlTaken(db', org, url) == Ok(true))
  {
    var (db', reply) := Create(db, valid, org, name, url, description);
    if reply.Ok? {
      AddSlashIdempotent(url);
      AddSlashCanonical(url);
      assert LiveIn(db', org, reply.value);
      CreateKeepsInv(db, valid, org, name, url, description);
      QueriesExactly(db', org, name, url);
    }
  }

  // ----- find, update and delete -----

  lemma FindExactly(db: Db, context: Option<string>, id: nat)
    ensures Find(db, context, id) == Err(NoContextOrg) <==> context.None?
    ensures Find(db, context, id) == Err(NotFound) <==> context.Some? && !LiveIn(db, context.value, id)
    ensures Find(db, context, id).Ok? ==> id in db.repos && Find(db, context, id).value == db.repos[id]
    ensures Find(db, context, id).Ok? <==> context.Some? && LiveIn(db, context.value, id)
  {
  }

  /** Some SUCCESS, BUILDING or INTERRUPTED image uses the repository. */
  ghost predicate Locked(db: Db, id: nat) {
    exists i: nat :: Uses(db, i, id, LOCKING)
  }

  /** A new name must not be held, a new URL neither be held nor the repository be locked; the name is looked at first,
      and an organisation that is not set is refused when either is new. */
  lemma UpdateAcceptedExactly(db: Db, org: string, id: nat, name: string, url: string, description: string)
    requires Inv(db) && org != "" && LiveIn(db, org, id)
    ensures var reply := Update(db, Some(org), org, id, name, url, description).1;
            var row := db.repos[id];
            var renamed, moved := name != "" && name != row.name, !KeepsUrl(row, url);
            && (reply.Ok? <==>
                  && !(renamed && NameHeld(db, org, name))
                  && !(moved && UrlHeld(db, org, url)) && !(moved && Locked(db, id)))
            && (reply == Err(NameExists) <==> renamed && NameHeld(db, org, name))
            && (reply == Err(URLExists) <==>
                  !(renamed && NameHeld(db, org, name)) && moved && UrlHeld(db, org, url))
            && (reply == Err(ImagesExist) <==>
                  && !(renamed && NameHeld(db, org, name))
                  && moved && !UrlHeld(db, org, url) && Locked(db, id))
  {
    QueriesExactly(db, org, name, url);
    ImagesUseExactly(db, id, LOCKING);
  }

  /** An update and a delete refuse a repository that is not there as its lookup does. */
  lemma NotFoundRefused(db: Db, context: Option<string>, org: string, id: nat, name: string, url: string,
                        description: string)
    requires Find(db, context, id).Err?
    ensures Update(db, context, org, id, name, url, description) == (db, Err(Find(db, context, id).error))
    ensures Delete(db, context, id) == (db, Err(Find(db, context, id).error))
  {
  }

  /** The given fields, and only those, of that row, and nothing else; a refusal changes nothing. */
  lemma UpdateEffect(db: Db, org: string, id: nat, name: string, url: string, description: string)
    requires Inv(db)
    ensures var (db', reply) := Update(db, Some(org), org, id, name, url, description);
            && (reply.Err? ==> db' == db)
            && (reply.Ok? ==>
                  && LiveIn(db, org, id) && LiveIn(db', org, id)
                  && db' == db.(repos := db.repos[id := db'.repos[id]])
                  && var row, row' := db.repos[id], db'.repos[id];
                     && row'.name == (if name == "" then row.name else name)
                     && row'.description == (if description == "" then row.description else description)
                     && Canonical(row'.url)
                     && (if url == "" then row'.url == row.url else SlashEquivalent(row'.url, url)))
  {
    var (db', reply) := Update(db, Some(org), org, id, name, url, description);
    if reply.Ok? {
      AddSlashCanonical(db.repos[id].url);
      AddSlashCanonical(url);
      AddSlashIdempotent(url);
    }
  }

  /** Accepted exactly when the repository is there and no live image uses it; then exactly that row is deleted. */
  lemma DeleteExactly(db: Db, context: Option<string>, id: nat)
    ensures var (db', reply) := Delete(db, context, id);
            var used := exists i: nat, status :: Uses(db, i, id, {status});
            && (reply.Ok? <==> context.Some? && LiveIn(db, context.value, id) && !used)
            && (reply == Err(ImagesExist) <==> context.Some? && LiveIn(db, context.value, id) && used)
            && (reply.Err? ==> db' == db)
            && (reply.Ok? ==>
                  && reply.value == db.repos[id] && db' == db.(repos := db'.repos)
                  && db'.repos.Keys == db.repos.Keys && db'.repos[id] == db.repos[id].(live := false)
                  && forall r | r in db.repos && r != id :: db'.repos[r] == db.repos[r])
  {
    ImagesUseExactly(db, id, {});
  }

  /** The name and the URL of a deleted repository are free again; a URL of slashes only may still be confused with a
      stored empty one. */
  lemma DeletedIsFree(db: Db, org: string, id: nat)
    requires Inv(db) && Delete(db, Some(org), id).1.Ok?
    ensures var db' := Delete(db, Some(org), id).0; var row := db.repos[id];
            && !LiveIn(db', org, id) && !NameHeld(db', org, row.name)
            && (UrlHeld(db', org, row.url) <==> TrimSlashes(row.url) == "" && HasEmptyUrl(db', org))
  {
    var db', row := Delete(db, Some(org), id).0, db.repos[id];
    forall r | LiveIn(db', org, r)
      ensures db'.repos[r].name != row.name && !SlashEquivalent(db'.repos[r].url, row.url)
    {
      assert r != id && db'.repos[r] == db.repos[r];
    }
  }
}
