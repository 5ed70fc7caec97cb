/** The normal form of custom-repository URLs. */
module Urls {

  /** The characters Go's strings.TrimSpace removes. */
  predicate IsSpace(c: char) {
    || '\t' <= c <= '\r' || c == ' ' || c == '\U{85}' || c == '\U{A0}' || c == '\U{1680}'
    || '\U{2000}' <= c <= '\U{200A}' || c == '\U{2028}' || c == '\U{2029}' || c == '\U{202F}' || c == '\U{205F}'
    || c == '\U{3000}'
  }

  function TrimLeft(s: string): string {
    if s != "" && IsSpace(s[0]) then TrimLeft(s[1..]) else s
  }

  function TrimRight(s: string): string {
    if s != "" && IsSpace(s[|s| - 1]) then TrimRight(s[..|s| - 1]) else s
  }

  function TrimSpace(s: string): string {
    TrimRight(TrimLeft(s))
  }

  /** strings.TrimRight(s, "/"): every trailing slash goes. */
  function TrimSlashes(s: string): string {
    if EndsWithSlash(s) then TrimSlashes(s[..|s| - 1]) else s
  }

  predicate EndsWithSlash(s: string) {
    s != "" && s[|s| - 1] == '/'
  }

  function AddSlashToURL(url: string): string {
    var u := TrimSpace(url);
    if u != "" && u[|u| - 1] != '/' then u + "/" else u
  }

  /** Two URLs are the same repository address up to spaces around them and one missing final slash. */
  predicate SlashEquivalent(u: string, v: string) {
    AddSlashToURL(u) == AddSlashToURL(v)
  }

  /** What the stored URLs look like: empty, or free of outer spaces with a slash at the end. */
  predicate Canonical(u: string) {
    u == "" || (!IsSpace(u[0]) && EndsWithSlash(u))
  }

  lemma {:induction false} TrimLeftStart(s: string)
    ensures TrimLeft(s) == "" || !IsSpace(TrimLeft(s)[0])
  {
    if s != "" && IsSpace(s[0]) {
      TrimLeftStart(s[1..]);
    }
  }

  /** Trimming the right end leaves a prefix that does not end in a space. */
  lemma {:induction false} TrimRightEnd(s: string)
    ensures TrimRight(s) <= s
    ensures TrimRight(s) == "" || !IsSpace(TrimRight(s)[|TrimRight(s)| - 1])
  {
    if s != "" && IsSpace(s[|s| - 1]) {
      TrimRightEnd(s[..|s| - 1]);
    }
  }

  /** AddSlashToURL always yields a canonical URL, and its fixed points are exactly the canonical URLs. */
  lemma AddSlashCanonical(u: string)
    ensures Canonical(AddSlashToURL(u))
    ensures Canonical(u) <==> AddSlashToURL(u) == u
  {
    TrimLeftStart(u);
    TrimRightEnd(TrimLeft(u));
  }

  /** Cleaning a URL twice is cleaning it once. */
  lemma AddSlashIdempotent(u: string)
    ensures AddSlashToURL(AddSlashToURL(u)) == AddSlashToURL(u)
  {
    AddSlashCanonical(u);
    AddSlashCanonical(AddSlashToURL(u));
  }

  lemma {:induction false} TrimSlashesEnd(s: string)
    ensures !EndsWithSlash(TrimSlashes(s))
  {
    if EndsWithSlash(s) {
      TrimSlashesEnd(s[..|s| - 1]);
    }
  }

  /** A URL without outer spaces and without a final slash is equivalent to itself with the slash. */
  lemma SlashMakesEquivalent(u: string)
    requires u != "" && !IsSpace(u[0]) && !IsSpace(u[|u| - 1]) && u[|u| - 1] != '/'
    ensures SlashEquivalent(u, u + "/")
  {
    AddSlashCanonical(u + "/");
  }

  // ----- the URLs that requests may have -----

  predicate WordChar(c: char) {
    'a' <= c <= 'z' || 'A' <= c <= 'Z' || '0' <= c <= '9' || c == '_'
  }

  predicate HostChar(c: char) {
    WordChar(c) || c == '.' || c == '-'
  }

  predicate PathChar(c: char) {
    WordChar(c) || c in "-.~:/?#[]@!$&'()*+,;="
  }

  /** The regular expression for repository URLs: the scheme, a host name, a dot with more of it, and something behind.
      The host is u[p..i], the dotted part u[i..j]. */
  predicate ValidRepoURL(u: string) {
    exists i, j | 0 <= i < j < |u| :: ValidParts(u, i, j)
  }

  predicate ValidParts(u: string, i: nat, j: nat)
    requires i < j < |u|
  {
    var p := if "https://" <= u then 8 else 7;
    && ("http://" <= u || "https://" <= u) && p < i && i + 1 < j && u[i] == '.'
    && (forall k | p <= k < j :: HostChar(u[k]))
    && (forall k | j <= k < |u| :: PathChar(u[k]))
  }

  // ----- the regular expression, part by part -----

  predicate HostChars(s: string) {
    s != "" && forall k | 0 <= k < |s| :: HostChar(s[k])
  }

  predicate PathChars(s: string) {
    s != "" && forall k | 0 <= k < |s| :: PathChar(s[k])
  }

  /** A dot and characters of a host name. */
  predicate DottedPart(s: string) {
    s != "" && s[0] == '.' && HostChars(s[1..])
  }

  function Joined(groups: seq<string>): string {
    if groups == [] then "" else groups[0] + Joined(groups[1..])
  }

  /** Scheme, host, one or more dotted parts, and a path, one after the other. */
  ghost predicate Matches(u: string, scheme: string, host: string, dotted: seq<string>, path: string) {
    && u == scheme + host + Joined(dotted) + path
    && scheme in {"http://", "https://"} && HostChars(host) && PathChars(path)
    && dotted != [] && forall part | part in dotted :: DottedPart(part)
  }

  lemma DottedTwice(s: string, t: string)
    requires DottedPart(s) && DottedPart(t)
    ensures DottedPart(s + t)
  {
    assert (s + t)[1..] == s[1..] + t;
    assert HostChar('.');
  }

  /** Dotted parts one after the other are one dotted part. */
  lemma {:induction false} JoinedDotted(groups: seq<string>)
    requires groups != [] && forall part | part in groups :: DottedPart(part)
    ensures DottedPart(Joined(groups))
    decreases |groups|
  {
    assert groups[0] in groups;
    if |groups| > 1 {
      JoinedDotted(groups[1..]);
      DottedTwice(groups[0], Joined(groups[1..]));
    } else {
      assert Joined(groups[1..]) == "";
      assert Joined(groups) == groups[0];
    }
  }

  /** A URL is valid exactly when it matches the regular expression. */
  lemma ValidMatchesExactly(u: string)
    ensures ValidRepoURL(u) <==> exists scheme, host, dotted, path :: Matches(u, scheme, host, dotted, path)
  {
    if ValidRepoURL(u) {
      var i, j :| 0 <= i < j < |u| && ValidParts(u, i, j);
      var scheme, host, dotted, path := PartsMatch(u, i, j);
    }
    if scheme: string, host: string, dotted: seq<string>, path: string :| Matches(u, scheme, host, dotted, path) {
      JoinedDotted(dotted);
      MatchHasParts(u, scheme, host, Joined(dotted), path);
    }
  }

  lemma JoinedOne(part: string)
    ensures Joined([part]) == part
  {
    assert [part][1..] == [];
  }

  lemma CutInFour(u: string, p: nat, i: nat, j: nat)
    requires p <= i <= j <= |u|
    ensures u == u[..p] + u[p..i] + u[i..j] + u[j..]
  {
  }

  lemma SchemeOf(u: string) returns (p: nat)
    requires "http://" <= u || "https://" <= u
    ensures p <= |u| && u[..p] in {"http://", "https://"} && p == if "https://" <= u then 8 else 7
  {
    if "https://" <= u {
      p := 8;
      assert u[..8] == "https://";
    } else {
      p := 7;
      assert u[..7] == "http://";
    }
  }

  lemma PartsMatch(u: string, i: nat, j: nat)
    returns (scheme: string, host: string, dotted: seq<string>, path: string)
    requires i < j < |u| && ValidParts(u, i, j)
    ensures Matches(u, scheme, host, dotted, path)
  {
    var p := SchemeOf(u);
    scheme, host, dotted, path := u[..p], u[p..i], [u[i..j]], u[j..];
    JoinedOne(u[i..j]);
    CutInFour(u, p, i, j);
    assert DottedPart(u[i..j]) by {
      assert u[i..j][1..] == u[i + 1..j];
    }
  }

  lemma MatchHasParts(u: string, scheme: string, host: string, dotted: string, path: string)
    requires u == scheme + host + dotted + path && scheme in {"http://", "https://"}
    requires HostChars(host) && DottedPart(dotted) && PathChars(path)
    ensures ValidRepoURL(u)
  {
    var p := |scheme|;
    var i := p + |host|;
    var j := i + |dotted|;
    SchemeLength(u, scheme);
    forall k | p <= k < j ensures HostChar(u[k]) {
      if k < i {
        assert u[k] == host[k - p];
      } else if k > i {
        assert u[k] == dotted[1..][k - i - 1];
      }
    }
    forall k | j <= k < |u| ensures PathChar(u[k]) {
      assert u[k] == path[k - j];
    }
    assert ValidParts(u, i, j);
  }

  lemma SchemeLength(u: string, scheme: string)
    requires scheme in {"http://", "https://"} && scheme <= u
    ensures |scheme| == if "https://" <= u then 8 else 7
  {
    if scheme == "http://" {
      assert u[4] == ':' && "https://"[4] == 's';
    }
  }

  lemma {:induction false} TrimRightKeepsStart(s: string)
    requires s != "" && !IsSpace(s[0])
    ensures TrimRight(s) != ""
  {
    if IsSpace(s[|s| - 1]) {
      TrimRightKeepsStart(s[..|s| - 1]);
    }
  }

  /** Cleaning a valid URL never leaves the empty one. */
  lemma ValidStaysNonEmpty(u: string)
    requires ValidRepoURL(u)
    ensures u != "" && AddSlashToURL(u) != ""
  {
    assert u[0] == 'h';
    TrimRightKeepsStart(u);
  }

  /** Neither a blank nor a slash is valid. */
  lemma BlankAndSlashAreInvalid()
    ensures !ValidRepoURL(" ") && !ValidRepoURL("/")
  {
  }
}
