/** The difference between the installed packages of two images. */
module PackageDiff {

  datatype Package = Package(name: string, version: string)
  datatype Diff = Diff(added: seq<Package>, removed: seq<Package>, upgraded: seq<Package>)

  predicate Named(packages: seq<Package>, name: string) {
    exists i | 0 <= i < |packages| :: packages[i].name == name
  }

  function Names(packages: seq<Package>): set<string> {
    set p | p in packages :: p.name
  }

  /** The version of the last package of that name: later ones replace earlier ones in the lookup table. */
  function LastVersion(packages: seq<Package>, name: string): string
    requires Named(packages, name)
  {
    if packages[|packages| - 1].name == name then packages[|packages| - 1].version
    else LastVersion(packages[..|packages| - 1], name)
  }

  /** The lookup table by name. */
  function Versions(packages: seq<Package>): map<string, string> {
    map name | name in Names(packages) && Named(packages, name) :: LastVersion(packages, name)
  }

  /** No name is installed twice. */
  predicate UniqueNames(packages: seq<Package>) {
    forall i, j | 0 <= i < j < |packages| :: packages[i].name != packages[j].name
  }

  // ----- the two differences -----

  /** The packages of a, in order, whose name b does not have. */
  function Missing(a: seq<Package>, b: seq<Package>): (missing: seq<Package>)
    ensures forall p :: p in missing <==> p in a && !Named(b, p.name)
  {
    if a == [] then []
    else
      var missing := Missing(a[..|a| - 1], b);
      if Named(b, a[|a| - 1].name) then missing else missing + [a[|a| - 1]]
  }

  /** The packages of the new list, in order, that are newer than the old one of the same name. */
  function Newer(newer: (string, string) -> bool, current: seq<Package>, previous: seq<Package>)
    : (upgraded: seq<Package>)
    ensures forall p :: p in upgraded <==>
              p in current && Named(previous, p.name) && newer(p.version, LastVersion(previous, p.name))
  {
    if current == [] then []
    else
      var p := current[|current| - 1];
      var upgraded := Newer(newer, current[..|current| - 1], previous);
      if Named(previous, p.name) && newer(p.version, LastVersion(previous, p.name)) then upgraded + [p] else upgraded
  }

  function DiffOnUpdate(newer: (string, string) -> bool, from: seq<Package>, to: seq<Package>): Diff {
    Diff(Missing(to, from), Missing(from, to), Newer(newer, to, from))
  }

  /** The picked packages are those of the list at the given places, from first to last, and these are the places of all
      packages wanted. */
  ghost predicate Picks(list: seq<Package>, wanted: Package -> bool, places: seq<nat>, picked: seq<Package>) {
    && |places| == |picked|
    && (forall k | 0 <= k < |places| :: places[k] < |list| && picked[k] == list[places[k]])
    && (forall j, k | 0 <= j < k < |places| :: places[j] < places[k])
    && (forall i | 0 <= i < |list| :: i in places <==> wanted(list[i]))
  }

  lemma PicksOneMore(list: seq<Package>, wanted: Package -> bool, places: seq<nat>, picked: seq<Package>, p: Package)
    requires Picks(list, wanted, places, picked)
    ensures if wanted(p) then Picks(list + [p], wanted, places + [|list|], picked + [p])
            else Picks(list + [p], wanted, places, picked)
  {
    var more := places + [|list|];
    assert forall k | 0 <= k < |places| :: places[k] in places && more[k] == places[k];
    assert more[|places|] == |list|;
    forall i | 0 <= i < |list| ensures i in more <==> i in places {}
  }

  function LackedBy(b: seq<Package>): Package -> bool {
    (p: Package) => !Named(b, p.name)
  }

  function NewerThan(newer: (string, string) -> bool, previous: seq<Package>): Package -> bool {
    (p: Package) => Named(previous, p.name) && newer(p.version, LastVersion(previous, p.name))
  }

  /** The difference has exactly the places of the first list whose name the second one lacks: a package that is listed
      twice is reported twice, and the order is kept. */
  lemma {:induction false} MissingInOrder(a: seq<Package>, b: seq<Package>) returns (places: seq<nat>)
    ensures Picks(a, LackedBy(b), places, Missing(a, b))
  {
    places := [];
    if a != [] {
      var last := |a| - 1;
      var before := MissingInOrder(a[..last], b);
      assert a == a[..last] + [a[last]];
      PicksOneMore(a[..last], LackedBy(b), before, Missing(a[..last], b), a[last]);
      places := if LackedBy(b)(a[last]) then before + [last] else before;
    }
  }

  /** The same for the packages that are newer. */
  lemma {:induction false} NewerInOrder(newer: (string, string) -> bool, current: seq<Package>, previous: seq<Package>)
    returns (places: seq<nat>)
    ensures Picks(current, NewerThan(newer, previous), places, Newer(newer, current, previous))
  {
    places := [];
    if current != [] {
      var last := |current| - 1;
      var before := NewerInOrder(newer, current[..last], previous);
      assert current == current[..last] + [current[last]];
      PicksOneMore(current[..last], NewerThan(newer, previous), before,
                   Newer(newer, current[..last], previous), current[last]);
      places := if NewerThan(newer, previous)(current[last]) then before + [last] else before;
    }
  }

  lemma NamedIsInNames(packages: seq<Package>, name: string)
    ensures Named(packages, name) <==> name in Names(packages)
  {
    if Named(packages, name) {
      var i :| 0 <= i < |packages| && packages[i].name == name;
      assert packages[i] in packages;
    }
  }

  /** The names of the new image are those of the old one without the removed and with the added ones, and the three
      groups of names are apart: nothing added or upgraded was removed, and nothing added was there before. Going back
      adds what was removed and removes what was added, element for element. */
  lemma DiffReconstructs(newer: (string, string) -> bool, from: seq<Package>, to: seq<Package>)
    ensures var diff := DiffOnUpdate(newer, from, to);
            && Names(to) == (Names(from) - Names(diff.removed)) + Names(diff.added)
            && Names(diff.removed) == Names(from) - Names(to) && Names(diff.added) == Names(to) - Names(from)
            && Names(diff.upgraded) <= Names(from) * Names(to)
            && DiffOnUpdate(newer, to, from).added == diff.removed
            && DiffOnUpdate(newer, to, from).removed == diff.added
  {
    forall p | p in from || p in to
      ensures Named(from, p.name) <==> p.name in Names(from)
      ensures Named(to, p.name) <==> p.name in Names(to)
    {
      NamedIsInNames(from, p.name);
      NamedIsInNames(to, p.name);
    }
    var diff := DiffOnUpdate(newer, from, to);
    forall name ensures name in Names(diff.removed) <==> name in Names(from) && name !in Names(to) {
      if name in Names(from) && name !in Names(to) {
        var p :| p in from && p.name == name;
        assert p in diff.removed;
      }
    }
    forall name ensures name in Names(diff.added) <==> name in Names(to) && name !in Names(from) {
      if name in Names(to) && name !in Names(from) {
        var p :| p in to && p.name == name;
        assert p in diff.added;
      }
    }
  }

  lemma {:induction false} OnlyVersion(packages: seq<Package>, p: Package)
    requires UniqueNames(packages) && p in packages
    ensures Named(packages, p.name) && LastVersion(packages, p.name) == p.version
    decreases |packages|
  {
    var i :| 0 <= i < |packages| && packages[i] == p;
    if i < |packages| - 1 {
      var rest := packages[..|packages| - 1];
      assert rest[i] == p;
      OnlyVersion(rest, p);
    }
  }

  predicate Reversible(newer: (string, string) -> bool, from: seq<Package>, to: seq<Package>, name: string) {
    name in Names(DiffOnUpdate(newer, from, to).upgraded) && name in Names(DiffOnUpdate(newer, to, from).upgraded)
  }

  /** With unique names a name is upgraded in both directions exactly when its two versions are newer than each other,
      so never under a strict order; the package upgraded is the one installed in the new image. */
  lemma UpgradedOneWay(newer: (string, string) -> bool, from: seq<Package>, to: seq<Package>, p: Package, q: Package)
    requires UniqueNames(from) && UniqueNames(to) && p in from && q in to && p.name == q.name
    ensures Reversible(newer, from, to, p.name) <==> newer(p.version, q.version) && newer(q.version, p.version)
  {
    OnlyVersion(from, p);
    OnlyVersion(to, q);
    forall r | r in to && r.name == p.name ensures r == q {
      OnlyVersion(to, r);
    }
    forall r | r in from && r.name == p.name ensures r == p {
      OnlyVersion(from, r);
    }
    if newer(q.version, p.version) {
      assert q in DiffOnUpdate(newer, from, to).upgraded;
    }
    if newer(p.version, q.version) {
      assert p in DiffOnUpdate(newer, to, from).upgraded;
    }
  }

  /** Without unique names a package can be upgraded in both directions, even under a strict order of the versions. */
  lemma RepeatedNameGoesBothWays()
    ensures var newer := (v: string, w: string) => |v| > |w|;
            var from, to := [Package("vim", "22")], [Package("vim", "333"), Package("vim", "1")];
            Reversible(newer, from, to, "vim")
  {
    var newer := (v: string, w: string) => |v| > |w|;
    var from, to := [Package("vim", "22")], [Package("vim", "333"), Package("vim", "1")];
    assert from[0].name == "vim" && to[0].name == "vim";
    assert LastVersion(from, "vim") == "22" && LastVersion(to, "vim") == "1";
    assert to[0] in DiffOnUpdate(newer, from, to).upgraded;
    assert from[0] in DiffOnUpdate(newer, to, from).upgraded;
  }

  // ----- the loops -----

  lemma VersionsExtended(packages: seq<Package>)
    requires packages != []
    ensures var last := packages[|packages| - 1];
            Versions(packages) == Versions(packages[..|packages| - 1])[last.name := last.version]
  {
    var before, last := packages[..|packages| - 1], packages[|packages| - 1];
    assert packages == before + [last];
    forall name ensures Named(packages, name) <==> Named(before, name) || name == last.name {
      if Named(packages, name) && name != last.name {
        var i :| 0 <= i < |packages| && packages[i].name == name;
        assert before[i].name == name;
      }
      if Named(before, name) {
        var i :| 0 <= i < |before| && before[i].name == name;
        assert packages[i].name == name;
      }
      NamedIsInNames(packages, name);
      NamedIsInNames(before, name);
    }
    forall name ensures name in Versions(packages) <==> Named(packages, name) {
      NamedIsInNames(packages, name);
    }
    forall name ensures name in Versions(before) <==> Named(before, name) {
      NamedIsInNames(before, name);
    }
  }

  lemma VersionsHasNames(packages: seq<Package>, name: string)
    ensures name in Versions(packages) <==> Named(packages, name)
  {
    NamedIsInNames(packages, name);
  }

  method TableOf(packages: seq<Package>) returns (table: map<string, string>)
    ensures table == Versions(packages)
  {
    table := map[];
    for i := 0 to |packages|
      invariant table == Versions(packages[..i])
    {
      VersionsExtended(packages[..i + 1]);
      assert packages[..i + 1][..i] == packages[..i];
      table := table[packages[i].name := packages[i].version];
    }
    assert packages[..|packages|] == packages;
  }

  method GetPackageDiff(a: seq<Package>, b: seq<Package>) returns (diff: seq<Package>)
    ensures diff == Missing(a, b)
  {
    diff := [];
    var pkgs := TableOf(b);
    for i := 0 to |a|
      invariant diff == Missing(a[..i], b)
    {
      assert a[..i + 1][..i] == a[..i];
      VersionsHasNames(b, a[i].name);
      if a[i].name !in pkgs {
        diff := diff + [a[i]];
      }
    }
    assert a[..|a|] == a;
  }

  method GetVersionDiff(newer: (string, string) -> bool, current: seq<Package>, previous: seq<Package>)
    returns (diff: seq<Package>)
    ensures diff == Newer(newer, current, previous)
  {
    diff := [];
    var oldPkgs := TableOf(previous);
    for i := 0 to |current|
      invariant diff == Newer(newer, current[..i], previous)
    {
      assert current[..i + 1][..i] == current[..i];
      VersionsHasNames(previous, current[i].name);
      if current[i].name in oldPkgs {
        if newer(current[i].version, oldPkgs[current[i].name]) {
          diff := diff + [current[i]];
        }
      }
    }
    assert current[..|current|] == current;
  }

  method GetDiffOnUpdate(newer: (string, string) -> bool, oldImage: seq<Package>, newImage: seq<Package>)
    returns (results: Diff)
    ensures results == DiffOnUpdate(newer, oldImage, newImage)
    ensures Names(newImage) == (Names(oldImage) - Names(results.removed)) + Names(results.added)
  {
    var added := GetPackageDiff(newImage, oldImage);
    var removed := GetPackageDiff(oldImage, newImage);
    var upgraded := GetVersionDiff(newer, newImage, oldImage);
    results := Diff(added, removed, upgraded);
    DiffReconstructs(newer, oldImage, newImage);
  }
}
