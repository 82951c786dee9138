/** The player-page link: query and fragment removal, the profile-shape check
    `^https?://(www\.)?playmakerstats\.com/player/[^/]+/\d+` (anchored at the
    start only), and the Player ID search `/player/[^/]+/(\d+)`. */
module ProfileUrl {
  import opened Text
  import opened Search

  /** Where the link is cut: the first `?` (query) or `#` (fragment), or the end. */
  function CutPoint(raw: string): (k: nat)
    ensures k <= |raw|
    ensures forall j :: 0 <= j < k ==> raw[j] != '?' && raw[j] != '#'
    ensures k < |raw| ==> raw[k] == '?' || raw[k] == '#'
  {
    if raw == [] || raw[0] == '?' || raw[0] == '#' then 0 else 1 + CutPoint(raw[1..])
  }

  /** `urlunparse(urlparse(link)._replace(query='', fragment=''))`. */
  function Normalize(raw: string): (link: string)
    ensures |link| <= |raw|
    ensures '?' !in link && '#' !in link
    ensures raw == link + raw[|link|..]
    ensures |link| < |raw| ==> raw[|link|] == '?' || raw[|link|] == '#'
  {
    raw[..CutPoint(raw)]
  }

  /** Normalising a link that has no query and no fragment changes nothing;
      in particular normalising twice is normalising once. */
  lemma NormalizeIdempotent(raw: string)
    ensures '?' !in raw && '#' !in raw ==> Normalize(raw) == raw
    ensures Normalize(Normalize(raw)) == Normalize(raw)
  {
    var n := Normalize(raw);
    assert forall j :: 0 <= j < |n| ==> n[j] in n;
    assert CutPoint(n) == |n|;
    if '?' !in raw && '#' !in raw {
      assert forall j :: 0 <= j < |raw| ==> raw[j] in raw;
      assert CutPoint(raw) == |raw|;
    }
  }

  /** A query or fragment appended to a link without either is removed, and
      only it. */
  lemma NormalizeStrips(link: string, sep: char, tail: string)
    requires '?' !in link && '#' !in link
    requires sep == '?' || sep == '#'
    ensures Normalize(link + [sep] + tail) == link
  {
    var raw := link + [sep] + tail;
    assert forall j :: 0 <= j < |link| ==> raw[j] == link[j] && link[j] in link;
    assert raw[|link|] == sep;
    assert CutPoint(raw) == |link|;
    assert raw[..|link|] == link;
  }

  const Host: string := "playmakerstats.com"
  const PlayerPath: string := "/player/"

  function SchemeText(secure: bool): string {
    if secure then "https://" else "http://"
  }

  function SiteName(www: bool): string {
    if www then "www." + Host else Host
  }

  /** What follows the scheme up to the slug. */
  function SitePath(www: bool): string {
    SiteName(www) + PlayerPath
  }

  /** A profile link assembled from its parts. */
  function ProfileLink(secure: bool, www: bool, slug: string, rest: string): string {
    SchemeText(secure) + (SitePath(www) + (slug + ("/" + rest)))
  }

  /** The shape the validator demands, stated on the parts: a non-empty slug
      without `/`, then `/` and a digit, followed by anything at all. */
  ghost predicate ProfileShaped(u: string) {
    exists secure: bool, www: bool, slug: string, rest: string ::
      && slug != [] && '/' !in slug
      && rest != [] && IsDigit(rest[0])
      && u == ProfileLink(secure, www, slug, rest)
  }

  /** `^https?://`: the text after the scheme. */
  function AfterScheme(u: string): Option<string> {
    if StartsWith(u, SchemeText(true)) then Some(u[|SchemeText(true)|..])
    else if StartsWith(u, SchemeText(false)) then Some(u[|SchemeText(false)|..])
    else None
  }

  /** `(www\.)?playmakerstats\.com/player/`: the text after the player path. */
  function AfterHost(r: string): Option<string> {
    if StartsWith(r, SitePath(true)) then Some(r[|SitePath(true)|..])
    else if StartsWith(r, SitePath(false)) then Some(r[|SitePath(false)|..])
    else None
  }

  /** `[^/]+/\d+` at the start of `p`: the slug can only end at the first `/`. */
  predicate SlugThenDigit(p: string) {
    var k := CharFrom(p, '/', 0);
    0 < k < |p| - 1 && IsDigit(p[k + 1])
  }

  /** The `re.match` test at main.py:26. */
  predicate IsProfileUrl(u: string): (ok: bool)
    ensures ok ==> StartsWith(u, SchemeText(true)) || StartsWith(u, SchemeText(false))
  {
    match AfterScheme(u)
    case None => false
    case Some(r) =>
      match AfterHost(r)
      case None => false
      case Some(p) => SlugThenDigit(p)
  }

  lemma StartsWithJoin(a: string, b: string)
    ensures StartsWith(a + b, a) && (a + b)[|a|..] == b
  {
    assert (a + b)[..|a|] == a;
  }

  /** `s` cannot start with `p` when they differ at index `i`. */
  lemma DiffersAt(s: string, p: string, i: nat)
    requires i < |s| && i < |p| && s[i] != p[i]
    ensures !StartsWith(s, p)
  {
    if |p| <= |s| {
      assert s[..|p|][i] == s[i];
    }
  }

  lemma AfterSchemeOf(secure: bool, tail: string)
    ensures AfterScheme(SchemeText(secure) + tail) == Some(tail)
  {
    StartsWithJoin(SchemeText(secure), tail);
    if !secure {
      DiffersAt(SchemeText(false) + tail, SchemeText(true), 4);
    }
  }

  lemma AfterHostOf(www: bool, x: string)
    ensures AfterHost(SitePath(www) + x) == Some(x)
  {
    StartsWithJoin(SitePath(www), x);
    if !www {
      DiffersAt(SitePath(false) + x, SitePath(true), 0);
    }
  }

  lemma FirstSlashOf(slug: string, rest: string)
    requires '/' !in slug
    ensures CharFrom(slug + ("/" + rest), '/', 0) == |slug|
  {
    var p := slug + ("/" + rest);
    assert forall j :: 0 <= j < |slug| ==> p[j] == slug[j] && slug[j] in slug;
    assert p[|slug|] == '/';
  }

  /** How the validator reads a link built from parts. */
  lemma ProfileLinkScanned(secure: bool, www: bool, slug: string, rest: string)
    requires '/' !in slug
    ensures AfterScheme(ProfileLink(secure, www, slug, rest)) == Some(SitePath(www) + (slug + ("/" + rest)))
    ensures AfterHost(SitePath(www) + (slug + ("/" + rest))) == Some(slug + ("/" + rest))
    ensures CharFrom(slug + ("/" + rest), '/', 0) == |slug|
  {
    AfterSchemeOf(secure, SitePath(www) + (slug + ("/" + rest)));
    AfterHostOf(www, slug + ("/" + rest));
    FirstSlashOf(slug, rest);
  }

  lemma SplitAt(s: string, k: nat)
    requires k <= |s|
    ensures s == s[..k] + s[k..]
  {
  }

  lemma SchemeOf(u: string) returns (secure: bool)
    requires AfterScheme(u).Some?
    ensures u == SchemeText(secure) + AfterScheme(u).value
  {
    secure := StartsWith(u, SchemeText(true));
    SplitAt(u, |SchemeText(secure)|);
  }

  lemma SiteOf(r: string) returns (www: bool)
    requires AfterHost(r).Some?
    ensures r == SitePath(www) + AfterHost(r).value
  {
    www := StartsWith(r, SitePath(true));
    SplitAt(r, |SitePath(www)|);
  }

  lemma SlugOf(p: string) returns (slug: string, rest: string)
    requires SlugThenDigit(p)
    ensures slug != [] && '/' !in slug && rest != [] && IsDigit(rest[0])
    ensures p == slug + ("/" + rest)
  {
    var k := CharFrom(p, '/', 0);
    slug, rest := p[..k], p[k + 1..];
    SplitAt(p, k);
    assert p[k..] == "/" + rest;
    assert forall j :: 0 <= j < |slug| ==> slug[j] == p[j];
    assert rest[0] == p[k + 1];
  }

  lemma AcceptedIsShaped(u: string)
    requires IsProfileUrl(u)
    ensures ProfileShaped(u)
  {
    var secure := SchemeOf(u);
    var r := AfterScheme(u).value;
    var www := SiteOf(r);
    var slug, rest := SlugOf(AfterHost(r).value);
    assert u == ProfileLink(secure, www, slug, rest);
  }

  lemma ShapedIsAccepted(u: string)
    requires ProfileShaped(u)
    ensures IsProfileUrl(u)
  {
    var secure: bool, www: bool, slug: string, rest: string :|
      && slug != [] && '/' !in slug
      && rest != [] && IsDigit(rest[0])
      && u == ProfileLink(secure, www, slug, rest);
    ProfileLinkScanned(secure, www, slug, rest);
    assert (slug + ("/" + rest))[|slug| + 1] == rest[0];
  }

  /** The validator accepts exactly the links of the profile shape. */
  lemma ValidatorMatchesShape(u: string)
    ensures IsProfileUrl(u) <==> ProfileShaped(u)
  {
    if IsProfileUrl(u) {
      AcceptedIsShaped(u);
    }
    if ProfileShaped(u) {
      ShapedIsAccepted(u);
    }
  }

  datatype Error = InvalidInput

  datatype Result<T> = Ok(value: T) | Err(error: Error)

  /** Steps 22-27 of the endpoint: normalise, then reject anything that is not
      a player profile link with `InvalidInput` (the HTTP 400). */
  function Validate(raw: string): (r: Result<string>)
    ensures r.Ok? <==> ProfileShaped(Normalize(raw))
    ensures r.Ok? ==> r.value == Normalize(raw)
  {
    ValidatorMatchesShape(Normalize(raw));
    var link := Normalize(raw);
    if IsProfileUrl(link) then Ok(link) else Err(InvalidInput)
  }

  /** One attempt of `/player/[^/]+/(\d+)` at index `i`. */
  function PlayerIdAt(s: string, i: nat): (r: Option<string>)
    ensures r.Some? ==> r.value != [] && AllDigits(r.value)
  {
    if At(s, PlayerPath, i) then
      var j := i + |PlayerPath|;
      var k := CharFrom(s, '/', j);
      if j < k < |s| && DigitRun(s[k + 1..]) != [] then Some(DigitRun(s[k + 1..])) else None
    else None
  }

  /** `re.compile(r'/player/[^/]+/(\d+)').search(link).group(1)`. */
  function PlayerId(link: string): (r: Option<string>)
    ensures r.Some? ==> r.value != [] && AllDigits(r.value)
  {
    LeftmostFound(link, 0, PlayerIdAt);
    Leftmost(link, 0, PlayerIdAt)
  }

  function SchemeName(secure: bool): string {
    if secure then "https:" else "http:"
  }

  lemma SchemeParts(secure: bool)
    ensures SchemeText(secure) == SchemeName(secure) + "//"
    ensures '/' !in SchemeName(secure)
  {
  }

  lemma NotAt(s: string, p: string, k: nat, i: nat)
    requires i < |p| && k + i < |s| && s[k + i] != p[i]
    ensures !At(s, p, k)
  {
    if k + |p| <= |s| {
      assert s[k..k + |p|][i] == s[k + i];
    }
  }

  /** No attempt of the Player ID pattern succeeds inside the scheme and the
      site name. */
  lemma NoPlayerPathBeforeHost(secure: bool, www: bool, x: string, j: nat)
    requires j < |SchemeText(secure)| + |SiteName(www)|
    ensures !At(SchemeText(secure) + (SitePath(www) + x), PlayerPath, j)
  {
    var name, site := SchemeName(secure), SiteName(www);
    SchemeParts(secure);
    var u := (name + "//") + ((site + PlayerPath) + x);
    var n := |name|;
    assert '/' !in site;
    if j < n {
      assert u[j] == name[j] && name[j] in name;
      NotAt(u, PlayerPath, j, 0);
    } else if j == n {
      assert u[j + 1] == '/';
      NotAt(u, PlayerPath, j, 1);
    } else if j == n + 1 {
      assert u[j + 1] == site[0];
      if www {
        NotAt(u, PlayerPath, j, 1);
      } else {
        assert u[j + 5] == site[4];
        NotAt(u, PlayerPath, j, 5);
      }
    } else {
      assert u[j] == site[j - n - 2] && site[j - n - 2] in site;
      NotAt(u, PlayerPath, j, 0);
    }
  }

  lemma Regroup(a: string, b: string, c: string, d: string)
    ensures a + ((b + c) + d) == (a + b) + (c + d)
    ensures At((a + b) + (c + d), c, |a + b|)
    ensures ((a + b) + (c + d))[|a + b| + |c|..] == d
  {
    assert ((a + b) + (c + d))[|a + b|..|a + b| + |c|] == c;
  }

  /** For every link the validator accepts, Player ID is the maximal run of
      digits after the first `/player/<slug>/`. */
  lemma PlayerIdOfProfileLink(secure: bool, www: bool, slug: string, rest: string)
    requires slug != [] && '/' !in slug
    requires rest != [] && IsDigit(rest[0])
    ensures PlayerId(ProfileLink(secure, www, slug, rest)) == Some(DigitRun(rest))
  {
    var x := slug + ("/" + rest);
    var u := ProfileLink(secure, www, slug, rest);
    var m := |SchemeText(secure)| + |SiteName(www)|;
    forall j | 0 <= j < m ensures PlayerIdAt(u, j) == None {
      NoPlayerPathBeforeHost(secure, www, x, j);
    }
    Regroup(SchemeText(secure), SiteName(www), PlayerPath, x);
    assert At(u, PlayerPath, m);
    assert u[m + 8..] == x;
    FirstSlashOf(slug, rest);
    PlayerIdAtSlug(u, m, slug, rest);
    LeftmostAt(u, m, PlayerIdAt);
  }

  lemma CharFromShift(u: string, j: nat, x: string)
    requires j <= |u| && u[j..] == x
    ensures CharFrom(u, '/', j) == j + CharFrom(x, '/', 0)
  {
    var k, kx := CharFrom(u, '/', j), CharFrom(x, '/', 0);
    assert forall i :: 0 <= i < |x| ==> u[j + i] == x[i];
  }

  /** Once `/player/` is found, the attempt reads the slug up to its end and
      the digit run after it. */
  lemma PlayerIdAtSlug(u: string, m: nat, slug: string, rest: string)
    requires At(u, PlayerPath, m) && u[m + 8..] == slug + ("/" + rest)
    requires slug != [] && CharFrom(slug + ("/" + rest), '/', 0) == |slug|
    requires rest != [] && IsDigit(rest[0])
    ensures PlayerIdAt(u, m) == Some(DigitRun(rest))
  {
    var k := m + 8 + |slug|;
    assert CharFrom(u, '/', m + 8) == k by {
      CharFromShift(u, m + 8, slug + ("/" + rest));
    }
    assert u[k + 1..] == rest by {
      assert u[k + 1..] == (slug + ("/" + rest))[|slug| + 1..];
    }
    assert DigitRun(rest) != [] by {
      assert rest == [rest[0]] + rest[1..];
    }
    PlayerIdAtFound(u, m, k);
  }

  lemma PlayerIdAtFound(u: string, m: nat, k: nat)
    requires At(u, PlayerPath, m) && m + 8 < k < |u| && CharFrom(u, '/', m + 8) == k
    requires DigitRun(u[k + 1..]) != []
    ensures PlayerIdAt(u, m) == Some(DigitRun(u[k + 1..]))
  {
  }

  /** Every accepted link yields a Player ID. */
  lemma AcceptedHasPlayerId(raw: string)
    requires Validate(raw).Ok?
    ensures PlayerId(Validate(raw).value).Some?
  {
    var link := Normalize(raw);
    var secure: bool, www: bool, slug: string, rest: string :|
      && slug != [] && '/' !in slug
      && rest != [] && IsDigit(rest[0])
      && link == ProfileLink(secure, www, slug, rest);
    PlayerIdOfProfileLink(secure, www, slug, rest);
  }

  /** Writing an id into a profile link and reading it back gives the id. */
  lemma PlayerIdRoundTrip(secure: bool, www: bool, slug: string, id: string, tail: string)
    requires slug != [] && '/' !in slug
    requires id != [] && AllDigits(id)
    requires tail == [] || !IsDigit(tail[0])
    ensures PlayerId(ProfileLink(secure, www, slug, id + tail)) == Some(id)
  {
    assert (id + tail)[0] == id[0];
    PlayerIdOfProfileLink(secure, www, slug, id + tail);
    DigitRunOf(id, tail);
  }

  /** Neither `?` nor `#` occurs in a join of two strings free of them, and
      neither occurs in the fixed parts of a profile link. */
  lemma NotInJoin(a: string, b: string)
    requires ('?' !in a && '#' !in a) || a in {SchemeText(true), SchemeText(false), SitePath(true), SitePath(false), "/"}
    requires ('?' !in b && '#' !in b) || b == "/"
    ensures '?' !in a + b && '#' !in a + b
  {
    assert forall j :: 0 <= j < |a| ==> a[j] == (a + b)[j];
    assert forall j :: 0 <= j < |b| ==> b[j] == (a + b)[|a| + j];
  }

  /** A profile link followed by a query string validates to the link. */
  lemma QueryDropped(secure: bool, www: bool, slug: string, rest: string, tail: string)
    requires slug != [] && '/' !in slug && rest != [] && IsDigit(rest[0])
    requires '?' !in slug + rest && '#' !in slug + rest
    ensures Validate(ProfileLink(secure, www, slug, rest) + "?" + tail) == Ok(ProfileLink(secure, www, slug, rest))
  {
    var link := ProfileLink(secure, www, slug, rest);
    assert '?' !in link && '#' !in link by {
      NotInJoin(slug, rest);
      NotInJoin("/", rest);
      NotInJoin(slug, "/" + rest);
      NotInJoin(SitePath(www), slug + ("/" + rest));
      NotInJoin(SchemeText(secure), SitePath(www) + (slug + ("/" + rest)));
    }
    NormalizeStrips(link, '?', tail);
    assert link + ['?'] + tail == link + "?" + tail;
    ShapedIsAccepted(link);
  }

  /** The worked example, `https://www.playmakerstats.com/player/richard-rios/744267`,
      written in the pieces the link is assembled from. */
  const RichardRios: string :=
    "https://" + ((("www." + "playmakerstats.com") + "/player/") + ("richard-rios" + ("/" + "744267")))

  /** The worked example: the `?ref=x` query is dropped and the link is
      accepted. */
  lemma RichardRiosAccepted()
    ensures Validate(RichardRios + "?" + "ref=x") == Ok(RichardRios)
  {
    assert RichardRios == ProfileLink(true, true, "richard-rios", "744267");
    assert '/' !in "richard-rios";
    assert '?' !in "richard-rios" + "744267" && '#' !in "richard-rios" + "744267";
    QueryDropped(true, true, "richard-rios", "744267", "ref=x");
  }

  /** The worked example's Player ID is `744267`. */
  lemma RichardRiosPlayerId()
    ensures PlayerId(RichardRios) == Some("744267")
  {
    assert RichardRios == ProfileLink(true, true, "richard-rios", "744267" + "");
    PlayerIdRoundTrip(true, true, "richard-rios", "744267", "");
  }

  /** A link to another site is rejected before anything is fetched. */
  lemma ForeignLinkRejected()
    ensures Validate("https://" + "example.com/foo") == Err(InvalidInput)
  {
    var u := "https://" + "example.com/foo";
    NormalizeIdempotent(u);
    AfterSchemeOf(true, "example.com/foo");
    assert u == SchemeText(true) + "example.com/foo";
    DiffersAt("example.com/foo", SitePath(true), 0);
    DiffersAt("example.com/foo", SitePath(false), 0);
  }
}
