/** The custom-repository service: what its tables look like after create, update and delete. */
module CustomRepos {
  import opened Options
  import opened Urls
  import Tables

  datatype Row = Row(org: string, name: string, url: string, description: string, live: bool)
  datatype Image = Image(status: string, live: bool)

  /** third_party_repos, images and images_repos; the next primary key is larger than every used one. */
  datatype Db = Db(repos: map<nat, Row>, images: map<nat, Image>, links: set<(nat, nat)>, next: nat)

  datatype Error =
    | NoContextOrg
    | OrgIDNotSet
    | NameIsEmpty
    | URLIsEmpty
    | InvalidURL
    | NameExists
    | URLExists
    | NotFound
    | ImagesExist
    | DatabaseFault

  datatype Reply<+T> = Ok(value: T) | Err(error: Error)

  const LOCKING := {"SUCCESS", "BUILDING", "INTERRUPTED"}

  // ----- queries -----

  predicate LiveIn(db: Db, org: string, r: nat) {
    r in db.repos && db.repos[r].live && db.repos[r].org == org
  }

  function NameTaken(db: Db, org: string, name: string): Reply<bool> {
    if org == "" then Err(OrgIDNotSet)
    else if name == "" then Err(NameIsEmpty)
    else Ok(exists r | r in db.repos :: LiveIn(db, org, r) && db.repos[r].name == name)
  }

  /** The URL is looked for as given, with its final slash added, and with its final slashes removed. */
  function UrlTaken(db: Db, org: string, url: string): Reply<bool> {
    if org == "" then Err(OrgIDNotSet)
    else if url == "" then Err(URLIsEmpty)
    else
      var cleaned := AddSlashToURL(url);
      var other := if cleaned == url then TrimSlashes(url) else url;
      Ok(exists r | r in db.repos :: LiveIn(db, org, r) && (db.repos[r].url == other || db.repos[r].url == cleaned))
  }

  /** Some live image with one of the statuses, or any status when none is given, uses the repository. */
  predicate ImagesUse(db: Db, r: nat, statuses: set<string>) {
    exists l | l in db.links ::
      && l.1 == r && l.0 in db.images && db.images[l.0].live
      && (statuses == {} || db.images[l.0].status in statuses)
  }

  // ----- operations -----

  function Create(db: Db, valid: string -> bool, org: string, name: string, url: string, description: string)
    : (Db, Reply<nat>)
  {
    if org == "" then (db, Err(OrgIDNotSet))
    else if name == "" then (db, Err(NameIsEmpty))
    else if url == "" then (db, Err(URLIsEmpty))
    else if !valid(url) then (db, Err(InvalidURL))
    else if NameTaken(db, org, name) == Ok(true) then (db, Err(NameExists))
    else if UrlTaken(db, org, url) == Ok(true) then (db, Err(URLExists))
    else
      (db.(repos := db.repos[db.next := Row(org, name, AddSlashToURL(url), description, true)], next := db.next + 1),
       Ok(db.next))
  }

  function Find(db: Db, context: Option<string>, id: nat): Reply<Row> {
    if context.None? then Err(NoContextOrg)
    else if LiveIn(db, context.value, id) then Ok(db.repos[id])
    else Err(NotFound)
  }

  /** The refusal of a new name, if any. */
  function NameRefusal(db: Db, org: string, row: Row, name: string): Option<Error> {
    if name == "" || name == row.name then None
    else match NameTaken(db, org, name)
         case Err(e) => Some(e)
         case Ok(taken) => if taken then Some(NameExists) else None
  }

  function UrlRefusal(db: Db, org: string, id: nat, row: Row, url: string): Option<Error> {
    if url == "" || row.url == url || row.url == AddSlashToURL(url) then None
    else match UrlTaken(db, org, url)
         case Err(e) => Some(e)
         case Ok(taken) =>
           if taken then Some(URLExists) else if ImagesUse(db, id, LOCKING) then Some(ImagesExist) else None
  }

  /** An empty field of the request leaves the stored one as it is; the update hook cleans the URL that is saved. */
  function Edited(row: Row, name: string, url: string, description: string): Row {
    row.(name := if name != "" then name else row.name,
         url := AddSlashToURL(if url != "" then url else row.url),
         description := if description != "" then description else row.description)
  }

  function Update(db: Db, context: Option<string>, org: string, id: nat, name: string, url: string,
                  description: string): (Db, Reply<()>)
  {
    match Find(db, context, id)
    case Err(e) => (db, Err(e))
    case Ok(row) =>
      match NameRefusal(db, org, row, name)
      case Some(e) => (db, Err(e))
      case None =>
        match UrlRefusal(db, org, id, row, url)
        case Some(e) => (db, Err(e))
        case None => (db.(repos := db.repos[id := Edited(row, name, url, description)]), Ok(()))
  }

  function Delete(db: Db, context: Option<string>, id: nat): (Db, Reply<Row>) {
    match Find(db, context, id)
    case Err(e) => (db, Err(e))
    case Ok(row) =>
      if ImagesUse(db, id, {}) then (db, Err(ImagesExist))
      else (db.(repos := db.repos[id := row.(live := false)]), Ok(row))
  }

  // ----- what every state satisfies -----

  ghost predicate Unique(db: Db) {
    forall r, t | r in db.repos && t in db.repos && r != t && db.repos[r].live && db.repos[t].live &&
                  db.repos[r].org == db.repos[t].org ::
      db.repos[r].name != db.repos[t].name && !SlashEquivalent(db.repos[r].url, db.repos[t].url)
  }

  /** Stored URLs are clean, keys are below the next one, and no two live repositories of an organisation share a
      name or an equivalent URL. */
  ghost predicate Inv(db: Db) {
    && (forall r | r in db.repos :: r < db.next && (db.repos[r].live ==> Canonical(db.repos[r].url)))
    && Unique(db)
  }

  /** Some live repository of the organisation has an equivalent URL. */
  ghost predicate HasEquivalent(db: Db, org: string, url: string) {
    exists r :: LiveIn(db, org, r) && SlashEquivalent(db.repos[r].url, url)
  }

  ghost predicate HasEmptyUrl(db: Db, org: string) {
    exists r :: LiveIn(db, org, r) && db.repos[r].url == ""
  }

  lemma {:induction false} TrimSlashesCanonical(u: string)
    requires Canonical(u) && Canonical(TrimSlashes(u))
    ensures TrimSlashes(u) == ""
  {
    TrimSlashesEnd(u);
  }

  lemma {:induction false} TrimSlashesEmpty(u: string)
    requires u != "" && TrimSlashes(u) == ""
    ensures EndsWithSlash(u) && u[0] == '/' && Canonical(u)
  {
    if |u| > 1 {
      TrimSlashesEmpty(u[..|u| - 1]);
    }
  }

  /** The answer is true exactly when an equivalent URL is stored, but for a URL made of slashes only, which is also
      confused with a stored empty URL. */
  lemma UrlTakenExact(db: Db, org: string, url: string)
    requires Inv(db) && org != "" && url != ""
    ensures UrlTaken(db, org, url) ==
            Ok(HasEquivalent(db, org, url) || (TrimSlashes(url) == "" && HasEmptyUrl(db, org)))
  {
    var cleaned := AddSlashToURL(url);
    var other := if cleaned == url then TrimSlashes(url) else url;
    AddSlashCanonical(url);
    AddSlashIdempotent(url);
    forall r | LiveIn(db, org, r)
      ensures SlashEquivalent(db.repos[r].url, url) <==> db.repos[r].url == cleaned
      ensures db.repos[r].url == other ==>
                db.repos[r].url == cleaned || (TrimSlashes(url) == "" && db.repos[r].url == "")
    {
      AddSlashCanonical(db.repos[r].url);
      if db.repos[r].url == other && cleaned == url {
        TrimSlashesCanonical(url);
      }
    }
    if TrimSlashes(url) == "" {
      TrimSlashesEmpty(url);
    }
  }

  /** The check is exact if and only if the confusion cannot happen: the URL has a character other than a slash, or an
      equivalent URL is stored anyway, or no empty URL is stored. */
  lemma UrlTakenMeansEquivalent(db: Db, org: string, url: string)
    requires Inv(db) && org != "" && url != ""
    ensures UrlTaken(db, org, url) == Ok(HasEquivalent(db, org, url))
       <==> TrimSlashes(url) != "" || HasEquivalent(db, org, url) || !HasEmptyUrl(db, org)
  {
    UrlTakenExact(db, org, url);
  }

  /** The service stores the empty URL when an update asks for a blank one, which the routes do not let through: their
      requests have a valid URL. */
  predicate Validated(op: Operation) {
    match op
    case DoCreate(_, _, url, _) => ValidRepoURL(url)
    case DoUpdate(_, _, _, _, url, _) => ValidRepoURL(url)
    case _ => true
  }

  predicate NoEmptyUrl(db: Db) {
    forall r | r in db.repos :: db.repos[r].url != ""
  }

  lemma UpdateStoresNoEmptyUrl(db: Db, context: Option<string>, org: string, id: nat, name: string, url: string,
                               description: string)
    requires NoEmptyUrl(db) && url != "" && AddSlashToURL(url) != ""
    ensures NoEmptyUrl(Update(db, context, org, id, name, url, description).0)
  {
    var db' := Update(db, context, org, id, name, url, description).0;
    if db' != db {
      assert db'.repos == db.repos[id := Edited(db.repos[id], name, url, description)];
    }
  }

  lemma CreateStoresNoEmptyUrl(db: Db, valid: string -> bool, org: string, name: string, url: string,
                               description: string)
    requires NoEmptyUrl(db) && AddSlashToURL(url) != ""
    ensures NoEmptyUrl(Create(db, valid, org, name, url, description).0)
  {
  }

  lemma DeleteStoresNoEmptyUrl(db: Db, context: Option<string>, id: nat)
    requires NoEmptyUrl(db)
    ensures NoEmptyUrl(Delete(db, context, id).0)
  {
  }

  lemma StepStoresNoEmptyUrl(db: Db, valid: string -> bool, op: Operation)
    requires NoEmptyUrl(db) && Validated(op)
    ensures NoEmptyUrl(Step(db, valid, op))
  {
    match op
    case DoCreate(org, name, url, description) =>
      ValidStaysNonEmpty(url);
      CreateStoresNoEmptyUrl(db, valid, org, name, url, description);
    case DoUpdate(context, org, id, name, url, description) =>
      ValidStaysNonEmpty(url);
      UpdateStoresNoEmptyUrl(db, context, org, id, name, url, description);
    case DoDelete(context, id) =>
      DeleteStoresNoEmptyUrl(db, context, id);
    case _ =>
  }

  /** Over every run of the routes from an empty table the existence query is exact: it answers true exactly when an
      equivalent URL is stored. */
  lemma UrlTakenExactOverRuns(db: Db, valid: string -> bool, ops: seq<Operation>, org: string, url: string)
    requires db.repos == map[] && (forall i | 0 <= i < |ops| :: FromRoute(ops[i]) && Validated(ops[i]))
    requires org != "" && url != ""
    ensures var db' := Steps(db, valid, ops); UrlTaken(db', org, url) == Ok(HasEquivalent(db', org, url))
  {
    UniqueOverRuns(db, valid, ops);
    NoEmptyUrlOverRuns(db, valid, ops);
    UrlTakenMeansEquivalent(Steps(db, valid, ops), org, url);
  }

  lemma {:induction false} NoEmptyUrlOverRuns(db: Db, valid: string -> bool, ops: seq<Operation>)
    requires NoEmptyUrl(db) && forall i | 0 <= i < |ops| :: Validated(ops[i])
    ensures NoEmptyUrl(Steps(db, valid, ops))
    decreases |ops|
  {
    if ops != [] {
      StepStoresNoEmptyUrl(db, valid, ops[0]);
      assert forall i | 0 <= i < |ops[1..]| :: ops[1..][i] == ops[i + 1];
      NoEmptyUrlOverRuns(Step(db, valid, ops[0]), valid, ops[1..]);
    }
  }

  /** An update request whose URL is a blank stores the empty URL; afterwards "/" counts as taken although no stored
      URL is equivalent to it. */
  lemma BlankUrlConfusesTheCheck()
    ensures var db := Db(map[1 := Row("o", "n", "http://a/", "", true)], map[], {}, 2);
            var db' := Update(db, Some("o"), "o", 1, "", " ", "").0;
            Inv(db) && db'.repos[1].url == "" && UrlTaken(db', "o", "/") == Ok(true) && !HasEquivalent(db', "o", "/")
  {
    var db := Db(map[1 := Row("o", "n", "http://a/", "", true)], map[], {}, 2);
    assert TrimLeft(" ") == "" by {
      assert " "[1..] == "";
    }
    assert AddSlashToURL(" ") == "";
    assert Canonical("http://a/");
    assert !LiveIn(db, "o", 2);
    assert UrlTaken(db, "o", " ") == Ok(false);
    var db' := Update(db, Some("o"), "o", 1, "", " ", "").0;
    assert LiveIn(db', "o", 1) && db'.repos[1].url == "";
    assert TrimSlashes("/") == "" by {
      assert "/"[..0] == "";
    }
    AddSlashCanonical("/");
    AddSlashCanonical("");
  }

  // ----- runs -----

  /** The requests to the service, and what happens to images meanwhile: one is created, changes its status or goes, and
      links to repositories come and go. */
  datatype Operation =
    | DoCreate(org: string, name: string, url: string, description: string)
    | DoUpdate(context: Option<string>, org: string, id: nat, name: string, url: string, description: string)
    | DoDelete(context: Option<string>, id: nat)
    | ImageSaved(image: nat, row: Image)
    | LinkAdded(image: nat, repo: nat)
    | LinkRemoved(image: nat, repo: nat)

  /** The routes pass the organisation of the repository they have just loaded through the same context. */
  predicate FromRoute(op: Operation) {
    op.DoUpdate? ==> op.context == Some(op.org)
  }

  function Step(db: Db, valid: string -> bool, op: Operation): Db {
    match op
    case DoCreate(org, name, url, description) => Create(db, valid, org, name, url, description).0
    case DoUpdate(context, org, id, name, url, description) => Update(db, context, org, id, name, url, description).0
    case DoDelete(context, id) => Delete(db, context, id).0
    case ImageSaved(image, row) => db.(images := db.images[image := row])
    case LinkAdded(image, repo) => db.(links := db.links + {(image, repo)})
    case LinkRemoved(image, repo) => db.(links := db.links - {(image, repo)})
  }

  function Steps(db: Db, valid: string -> bool, ops: seq<Operation>): Db
    decreases |ops|
  {
    if ops == [] then db else Steps(Step(db, valid, ops[0]), valid, ops[1..])
  }

  /** A URL found free is equivalent to no live URL of the organisation. */
  lemma FreeUrl(db: Db, org: string, url: string)
    requires Inv(db) && org != "" && url != "" && UrlTaken(db, org, url) == Ok(false)
    ensures forall r | LiveIn(db, org, r) :: !SlashEquivalent(db.repos[r].url, AddSlashToURL(url))
  {
    UrlTakenExact(db, org, url);
    AddSlashIdempotent(url);
  }

  lemma CreateKeepsInv(db: Db, valid: string -> bool, org: string, name: string, url: string, description: string)
    requires Inv(db)
    ensures Inv(Create(db, valid, org, name, url, description).0)
  {
    AddSlashCanonical(url);
    if Create(db, valid, org, name, url, description).1.Ok? {
      FreeUrl(db, org, url);
    }
  }

  lemma UpdateKeepsInv(db: Db, org: string, id: nat, name: string, url: string, description: string)
    requires Inv(db)
    ensures Inv(Update(db, Some(org), org, id, name, url, description).0)
  {
    var (db', reply) := Update(db, Some(org), org, id, name, url, description);
    if reply.Ok? {
      var row := db.repos[id];
      var edited := Edited(row, name, url, description);
      AddSlashCanonical(row.url);
      AddSlashCanonical(url);
      if edited.url != row.url {
        FreeUrl(db, org, url);
      }
      assert forall r :: !Clashes(db, org, id, edited, r);
      EditedKeepsInvExactly(db, org, id, edited);
    }
  }

  lemma StepKeepsInv(db: Db, valid: string -> bool, op: Operation)
    requires Inv(db) && FromRoute(op)
    ensures Inv(Step(db, valid, op))
  {
    match op
    case DoCreate(org, name, url, description) => CreateKeepsInv(db, valid, org, name, url, description);
    case DoUpdate(_, org, id, name, url, description) => UpdateKeepsInv(db, org, id, name, url, description);
    case _ =>
  }

  /** Over every run of the service, URLs stay clean and names and URLs stay unique per organisation. */
  lemma {:induction false} UniqueOverRuns(db: Db, valid: string -> bool, ops: seq<Operation>)
    requires Inv(db) && forall i | 0 <= i < |ops| :: FromRoute(ops[i])
    ensures Inv(Steps(db, valid, ops))
    decreases |ops|
  {
    if ops != [] {
      StepKeepsInv(db, valid, ops[0]);
      assert forall i | 0 <= i < |ops[1..]| :: ops[1..][i] == ops[i + 1];
      UniqueOverRuns(Step(db, valid, ops[0]), valid, ops[1..]);
    }
  }

  lemma StepKeepsUsed(db: Db, valid: string -> bool, op: Operation, r: nat)
    requires Inv(db) && r in db.repos && db.repos[r].live
    ensures var db' := Step(db, valid, op); r in db'.repos && db'.repos[r].org == db.repos[r].org
    ensures ImagesUse(db, r, {}) ==> Step(db, valid, op).repos[r].live
    ensures ImagesUse(db, r, LOCKING) ==> Step(db, valid, op).repos[r].url == db.repos[r].url
  {
    if op.DoUpdate? && op.id == r {
      AddSlashCanonical(db.repos[r].url);
    }
  }

  /** Whenever the run takes a step, some live image with one of the statuses uses the repository. */
  ghost predicate UsedThroughout(db: Db, valid: string -> bool, ops: seq<Operation>, r: nat, statuses: set<string>)
    decreases |ops|
  {
    ops != [] ==> ImagesUse(db, r, statuses) && UsedThroughout(Step(db, valid, ops[0]), valid, ops[1..], r, statuses)
  }

  /** Whatever images and links do meanwhile, a repository that some live image uses throughout is never deleted, and
      one that some SUCCESS, BUILDING or INTERRUPTED image uses throughout keeps its URL. */
  lemma {:induction false} UsedOverRuns(db: Db, valid: string -> bool, ops: seq<Operation>, r: nat)
    requires Inv(db) && (forall i | 0 <= i < |ops| :: FromRoute(ops[i]))
    requires r in db.repos && db.repos[r].live && UsedThroughout(db, valid, ops, r, {})
    ensures var db' := Steps(db, valid, ops);
            && r in db'.repos && db'.repos[r].live && db'.repos[r].org == db.repos[r].org
            && (UsedThroughout(db, valid, ops, r, LOCKING) ==> db'.repos[r].url == db.repos[r].url)
    decreases |ops|
  {
    if ops != [] {
      StepKeepsInv(db, valid, ops[0]);
      StepKeepsUsed(db, valid, ops[0], r);
      assert forall i | 0 <= i < |ops[1..]| :: ops[1..][i] == ops[i + 1];
      UsedOverRuns(Step(db, valid, ops[0]), valid, ops[1..], r);
    }
  }

  predicate FromService(op: Operation) {
    op.DoCreate? || op.DoUpdate? || op.DoDelete?
  }

  /** The service itself ends no use: one that holds at the start of a run of requests holds throughout. */
  lemma {:induction false} ServiceEndsNoUse(db: Db, valid: string -> bool, ops: seq<Operation>, r: nat,
                                            statuses: set<string>)
    requires ImagesUse(db, r, statuses) && forall i | 0 <= i < |ops| :: FromService(ops[i])
    ensures UsedThroughout(db, valid, ops, r, statuses)
    decreases |ops|
  {
    if ops != [] {
      var db1 := Step(db, valid, ops[0]);
      assert db1.images == db.images && db1.links == db.links;
      assert forall i | 0 <= i < |ops[1..]| :: ops[1..][i] == ops[i + 1];
      ServiceEndsNoUse(db1, valid, ops[1..], r, statuses);
    }
  }

  /** The condition on the routes is needed: when the request names another organisation than the context, the checks
      look at the wrong one. An accepted update then keeps names and URLs unique exactly when the checks would have
      passed for the organisation of the repository itself. */
  lemma OtherOrgExactly(db: Db, org: string, other: string, id: nat, name: string, url: string, description: string)
    requires Inv(db) && org != "" && Update(db, Some(org), other, id, name, url, description).1.Ok?
    ensures id in db.repos
    ensures Inv(Update(db, Some(org), other, id, name, url, description).0) <==>
            && NameRefusal(db, org, db.repos[id], name).None?
            && (KeepsUrl(db.repos[id], url) || !HasEquivalent(db, org, url))
  {
    var row := db.repos[id];
    var edited := Edited(row, name, url, description);
    assert Update(db, Some(org), other, id, name, url, description).0 == db.(repos := db.repos[id := edited]);
    AddSlashCanonical(row.url);
    AddSlashCanonical(url);
    AddSlashIdempotent(url);
    EditedKeepsInvExactly(db, org, id, edited);
    if NameRefusal(db, org, row, name).Some? {
      var r :| LiveIn(db, org, r) && db.repos[r].name == name;
      assert Clashes(db, org, id, edited, r);
    } else if !KeepsUrl(row, url) && HasEquivalent(db, org, url) {
      var r :| LiveIn(db, org, r) && SlashEquivalent(db.repos[r].url, url);
      AddSlashCanonical(db.repos[r].url);
      assert Clashes(db, org, id, edited, r);
    }
  }

  /** Another live repository of the organisation has the name or an equivalent URL. */
  ghost predicate Clashes(db: Db, org: string, id: nat, edited: Row, r: nat) {
    LiveIn(db, org, r) && r != id && (db.repos[r].name == edited.name || SlashEquivalent(db.repos[r].url, edited.url))
  }

  lemma EditedKeepsInvExactly(db: Db, org: string, id: nat, edited: Row)
    requires Inv(db) && LiveIn(db, org, id) && edited.org == org && edited.live && Canonical(edited.url)
    ensures Inv(db.(repos := db.repos[id := edited])) <==> forall r :: !Clashes(db, org, id, edited, r)
  {
    var db' := db.(repos := db.repos[id := edited]);
    if r :| Clashes(db, org, id, edited, r) {
      assert db'.repos[r] == db.repos[r] && db'.repos[id] == edited;
    } else {
      forall r | r in db'.repos && r != id && db'.repos[r].live && db'.repos[r].org == org
        ensures db'.repos[r].name != edited.name && !SlashEquivalent(db'.repos[r].url, edited.url)
      {
        assert !Clashes(db, org, id, edited, r);
      }
    }
  }

  /** The other case exists: two live repositories of "o" end up with one name. */
  lemma OtherOrgBreaksUniqueness()
    ensures var db := Db(map[1 := Row("o", "a", "u/", "", true), 2 := Row("o", "bb", "vv/", "", true)], map[], {}, 3);
            Inv(db) && !Inv(Update(db, Some("o"), "p", 2, "a", "", "").0)
  {
    var db := Db(map[1 := Row("o", "a", "u/", "", true), 2 := Row("o", "bb", "vv/", "", true)], map[], {}, 3);
    assert Canonical("u/") && Canonical("vv/");
    AddSlashCanonical("u/");
    AddSlashCanonical("vv/");
    assert |"u/"| != |"vv/"|;
    assert Inv(db);
    assert NameTaken(db, "p", "a") == Ok(false);
    assert LiveIn(db, "o", 1) && NameTaken(db, "o", "a") == Ok(true);
    OtherOrgExactly(db, "o", "p", 2, "a", "", "");
  }

  predicate KeepsUrl(row: Row, url: string) {
    url == "" || row.url == url || row.url == AddSlashToURL(url)
  }

  // ----- the service -----

  class ThirdPartyRepoService {
    var repos: map<nat, Row>
    var images: map<nat, Image>
    var links: set<(nat, nat)>
    var next: nat
    const validUrl: string -> bool

    constructor (validUrl: string -> bool)
      ensures Inv(State()) && State() == Db(map[], map[], {}, 1) && this.validUrl == validUrl
    {
      repos, images, links, next := map[], map[], {}, 1;
      this.validUrl := validUrl;
    }

    function State(): Db
      reads this
    {
      Db(repos, images, links, next)
    }

    method ThirdPartyRepoNameExists(org: string, name: string) returns (r: Reply<bool>)
      ensures r == Err(DatabaseFault) || r == NameTaken(State(), org, name)
    {
      if org == "" {
        return Err(OrgIDNotSet);
      }
      if name == "" {
        return Err(NameIsEmpty);
      }
      var fails := Tables.DatabaseFails();
      if fails {
        return Err(DatabaseFault);
      }
      return Ok(exists r | r in repos :: LiveIn(State(), org, r) && repos[r].name == name);
    }

    method ThirdPartyRepoURLExists(org: string, url: string) returns (r: Reply<bool>)
      ensures r == Err(DatabaseFault) || r == UrlTaken(State(), org, url)
    {
      if org == "" {
        return Err(OrgIDNotSet);
      }
      if url == "" {
        return Err(URLIsEmpty);
      }
      var cleaned, other := AddSlashToURL(url), url;
      if cleaned == url {
        other := TrimSlashes(url);
      }
      var fails := Tables.DatabaseFails();
      if fails {
        return Err(DatabaseFault);
      }
      return Ok(exists r | r in repos :: LiveIn(State(), org, r) && (repos[r].url == other || repos[r].url == cleaned));
    }

    method GetThirdPartyRepoByID(context: Option<string>, id: nat) returns (r: Reply<Row>)
      ensures r == Err(DatabaseFault) || r == Find(State(), context, id)
    {
      if context.None? {
        return Err(NoContextOrg);
      }
      var fails := Tables.DatabaseFails();
      if fails {
        return Err(DatabaseFault);
      }
      if !LiveIn(State(), context.value, id) {
        return Err(NotFound);
      }
      return Ok(repos[id]);
    }

    /** Loads the repository again before counting its images. */
    method ThirdPartyRepoImagesExists(context: Option<string>, id: nat, statuses: set<string>) returns (r: Reply<bool>)
      ensures r == Err(DatabaseFault)
              || r == (match Find(State(), context, id)
                       case Err(e) => Err(e)
                       case Ok(_) => Ok(ImagesUse(State(), id, statuses)))
    {
      var repo := GetThirdPartyRepoByID(context, id);
      if repo.Err? {
        return Err(repo.error);
      }
      var fails := Tables.DatabaseFails();
      if fails {
        return Err(DatabaseFault);
      }
      return Ok(ImagesUse(State(), id, statuses));
    }

    /** A failing statement leaves the tables as they were; otherwise the outcome is that of Create. */
    method CreateThirdPartyRepo(org: string, name: string, url: string, description: string) returns (r: Reply<nat>)
      modifies this
      ensures (r == Err(DatabaseFault) && State() == old(State()))
              || (State(), r) == Create(old(State()), validUrl, org, name, url, description)
      ensures r.Err? ==> State() == old(State())
    {
      if org == "" {
        return Err(OrgIDNotSet);
      }
      if name == "" {
        return Err(NameIsEmpty);
      }
      if url == "" {
        return Err(URLIsEmpty);
      }
      if !validUrl(url) {
        return Err(InvalidURL);
      }
      var nameExists := ThirdPartyRepoNameExists(org, name);
      if nameExists.Err? {
        return Err(nameExists.error);
      }
      if nameExists.value {
        return Err(NameExists);
      }
      var urlExists := ThirdPartyRepoURLExists(org, url);
      if urlExists.Err? {
        return Err(urlExists.error);
      }
      if urlExists.value {
        return Err(URLExists);
      }
      var fails := Tables.DatabaseFails();
      if fails {
        return Err(DatabaseFault);
      }
      // the create hook cleans the URL
      repos := repos[next := Row(org, name, AddSlashToURL(url), description, true)];
      next := next + 1;
      return Ok(next - 1);
    }

    method UpdateThirdPartyRepo(context: Option<string>, org: string, id: nat, name: string, url: string,
                                description: string)
      returns (r: Reply<()>)
      modifies this
      ensures (r == Err(DatabaseFault) && State() == old(State()))
              || (State(), r) == Update(old(State()), context, org, id, name, url, description)
      ensures r.Err? ==> State() == old(State())
    {
      var found := GetThirdPartyRepoByID(context, id);
      if found.Err? {
        return Err(found.error);
      }
      var row := found.value;
      if name != "" {
        if name != row.name {
          var taken := ThirdPartyRepoNameExists(org, name);
          if taken.Err? {
            return Err(taken.error);
          }
          if taken.value {
            return Err(NameExists);
          }
        }
        row := row.(name := name);
      }
      if url != "" {
        if row.url != url && row.url != AddSlashToURL(url) {
          var taken := ThirdPartyRepoURLExists(org, url);
          if taken.Err? {
            return Err(taken.error);
          }
          if taken.value {
            return Err(URLExists);
          }
          var used := ThirdPartyRepoImagesExists(context, id, LOCKING);
          if used.Err? {
            return Err(used.error);
          }
          if used.value {
            return Err(ImagesExist);
          }
        }
        row := row.(url := url);
      }
      if description != "" {
        row := row.(description := description);
      }
      var fails := Tables.DatabaseFails();
      if fails {
        return Err(DatabaseFault);
      }
      // the update hook cleans the URL
      repos := repos[id := row.(url := AddSlashToURL(row.url))];
      return Ok(());
    }

    method DeleteThirdPartyRepoByID(context: Option<string>, id: nat) returns (r: Reply<Row>)
      modifies this
      ensures (r == Err(DatabaseFault) && State() == old(State())) || (State(), r) == Delete(old(State()), context, id)
      ensures r.Err? ==> State() == old(State())
      ensures r.Ok? ==> id in old(repos) && repos == old(repos)[id := old(repos)[id].(live := false)]
    {
      var found := GetThirdPartyRepoByID(context, id);
      if found.Err? {
        return Err(found.error);
      }
      var used := ThirdPartyRepoImagesExists(context, id, {});
      if used.Err? {
        return Err(used.error);
      }
      if used.value {
        return Err(ImagesExist);
      }
      var fails := Tables.DatabaseFails();
      if fails {
        return Err(DatabaseFault);
      }
      repos := repos[id := found.value.(live := false)];
      return Ok(found.value);
    }
  }
}
