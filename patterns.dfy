/** The text patterns the extraction rules apply, each written as a scanner
    that follows Python's `re` semantics for that one pattern: `re.search`
    tries start positions left to right, `\d+` and `[^x]+` are greedy, `.+?`
    is lazy and `.` does not match a line break. */
module Patterns {
  import opened Text
  import opened Search

  /** Greedy `\s*` from index `i`. None of the patterns below lets a space
      follow `\s*`, so backtracking never shortens the run. */
  function SkipSpaces(s: string, i: nat): (k: nat)
    requires i <= |s|
    ensures i <= k <= |s|
    ensures forall j :: i <= j < k ==> IsSpace(s[j])
    ensures k < |s| ==> !IsSpace(s[k])
    decreases |s| - i
  {
    if i < |s| && IsSpace(s[i]) then SkipSpaces(s, i + 1) else i
  }

  lemma SkipSpacesOf(s: string, i: nat, sp: string)
    requires i + |sp| < |s| && s[i..i + |sp|] == sp
    requires AllSpaces(sp) && !IsSpace(s[i + |sp|])
    ensures SkipSpaces(s, i) == i + |sp|
    decreases |sp|
  {
    if sp != [] {
      assert s[i] == sp[0];
      assert s[i + 1..i + 1 + |sp[1..]|] == sp[1..];
      SkipSpacesOf(s, i + 1, sp[1..]);
    }
  }

  // ---------------------------------------------------------------- Age

  const YearsOld := " -yrs-old)"

  /** One attempt of `\((\d+) -yrs-old\)` at index `i`; the group is the
      whole digit run, since a space cannot be a digit. */
  function AgeAt(s: string, i: nat): (r: Option<string>)
    ensures r.Some? ==> r.value != [] && AllDigits(r.value)
  {
    if i < |s| && s[i] == '(' then
      var d := DigitRun(s[i + 1..]);
      if d != [] && At(s, YearsOld, i + 1 + |d|) then Some(d) else None
    else None
  }

  /** `re.search(r'\((\d+) -yrs-old\)', text).group(1)`; `None` where the
      search finds nothing. The age stays a string of digits. */
  function Age(text: string): (r: Option<string>)
    ensures r.Some? ==> r.value != [] && AllDigits(r.value)
  {
    LeftmostFound(text, 0, AgeAt);
    Leftmost(text, 0, AgeAt)
  }

  /** The digits of the first `(<digits> -yrs-old)` are the age. */
  lemma AgeOf(a: string, d: string, b: string)
    requires '(' !in a
    requires d != [] && AllDigits(d)
    ensures Age(a + "(" + d + YearsOld + b) == Some(d)
  {
    var s := a + "(" + d + YearsOld + b;
    assert s[|a| + 1..] == d + (YearsOld + b);
    DigitRunOf(d, YearsOld + b);
    assert s[|a| + 1 + |d|..|a| + 1 + |d| + |YearsOld|] == YearsOld;
    forall j | 0 <= j < |a| ensures AgeAt(s, j).None? {
      assert s[j] == a[j] && a[j] in a;
    }
    LeftmostAt(s, |a|, AgeAt);
  }

  // ---------------------------------------------------------------- Team

  const Dash := " - "

  /** One attempt of ` - ([^-]+) - ` at index `i`. The greedy group runs up
      to the first `-` after the opening ` - `, and the closing ` - ` can only
      begin one character before that `-`. */
  function TeamAt(s: string, i: nat): (r: Option<string>)
    ensures r.Some? ==> r.value != [] && '-' !in r.value
  {
    if At(s, Dash, i) then
      var j := i + |Dash|;
      var f := CharFrom(s, '-', j);
      if j < f - 1 && f + 1 < |s| && s[f - 1] == ' ' && s[f + 1] == ' ' then
        Some(s[j..f - 1])
      else None
    else None
  }

  /** `re.search(r' - ([^-]+) - ', title).group(1).strip()`. */
  function Team(title: string): (r: Option<string>)
    ensures r.Some? ==> '-' !in r.value && Trim(r.value) == r.value
  {
    LeftmostFound(title, 0, TeamAt);
    match Leftmost(title, 0, TeamAt)
    case None => None
    case Some(g) =>
      TrimWithin(g);
      TrimIdempotent(g);
      Some(Trim(g))
  }

  lemma TeamFound(s: string, i: nat, g: string)
    requires TeamAt(s, i) == Some(g)
    requires forall k :: 0 <= k < i ==> TeamAt(s, k).None?
    ensures Team(s) == Some(Trim(g))
  {
    LeftmostAt(s, i, TeamAt);
  }

  lemma TeamAtOf(a: string, t: string, b: string)
    requires t != [] && '-' !in t
    ensures TeamAt(a + (Dash + (t + (Dash + b))), |a|) == Some(t)
  {
    var s := a + (Dash + (t + (Dash + b)));
    var j := |a| + |Dash|;
    assert s[|a|..j] == Dash;
    forall m | j <= m < j + |t| ensures s[m] != '-' {
      assert s[m] == t[m - j] && t[m - j] in t;
    }
    assert s[j + |t|] == ' ' && s[j + |t| + 1] == '-' && s[j + |t| + 2] == ' ';
    assert CharFrom(s, '-', j) == j + |t| + 1;
    assert s[j..j + |t|] == t;
  }

  /** The text between the first two ` - ` separators, trimmed, is the team,
      provided no ` - ` begins before them (a hyphen inside a name is fine)
      and the team itself has no `-`. */
  lemma TeamOf(a: string, t: string, b: string)
    requires !Contains(a + Dash[..|Dash| - 1], Dash)
    requires t != [] && '-' !in t
    ensures Team(a + Dash + t + Dash + b) == Some(Trim(t))
  {
    var x := Dash + (t + (Dash + b));
    assert a + Dash + t + Dash + b == a + x == a + Dash + (t + (Dash + b));
    TeamAtOf(a, t, b);
    FirstOccurrence(a, Dash, t + (Dash + b));
    forall k | 0 <= k < |a| ensures TeamAt(a + x, k).None? {
      assert !At(a + Dash + (t + (Dash + b)), Dash, k);
    }
    TeamFound(a + x, |a|, t);
  }

  /** A title without ` - ` yields no team. */
  lemma TeamAbsent(title: string)
    requires !Contains(title, Dash)
    ensures Team(title) == None
  {
    assert forall k :: 0 <= k ==> !At(title, Dash, k);
  }

  /** The group may be all spaces, in which case the team is the empty text. */
  lemma TeamMayBeEmpty(sp: string)
    requires sp != [] && AllSpaces(sp)
    ensures Team(Dash + sp + Dash) == Some("")
  {
    var none: string := [];
    assert none + Dash + sp + Dash + none == Dash + sp + Dash;
    assert '-' !in sp by {
      assert forall c :: c in sp ==> IsSpace(c);
    }
    TeamOf(none, sp, none);
    TrimBlank(sp);
  }

  // ---------------------------------------------------------------- Full Name

  const IsA := " is a "
  const YearOld := "-year-old" + " Football player"

  /** What follows the group in `^(.+?) is a \d+-year-old Football player`,
      tried with the group ending at `e`. */
  predicate SentenceAt(s: string, e: nat) {
    && At(s, IsA, e)
    && var d := DigitRun(s[e + |IsA|..]);
    && d != []
    && At(s, YearOld, e + |IsA| + |d|)
  }

  /** The lazy group `.+?` anchored at the start grows one character at a
      time and cannot take a line break: the first end `e` (from `e` on)
      after which the rest of the pattern matches. */
  function NameEnd(s: string, e: nat): (r: Option<nat>)
    requires 1 <= e
    ensures r.Some? ==> e <= r.value <= |s| && SentenceAt(s, r.value)
    ensures r.Some? ==> forall j :: e - 1 <= j < r.value ==> s[j] != '\n'
    ensures r.Some? ==> forall j :: e <= j < r.value ==> !SentenceAt(s, j)
    decreases |s| + 1 - e
  {
    if e > |s| || s[e - 1] == '\n' then None
    else if SentenceAt(s, e) then Some(e)
    else NameEnd(s, e + 1)
  }

  /** `re.search(r'^(.+?) is a \d+-year-old Football player', meta).group(1).strip()`. */
  function FullName(meta: string): (r: Option<string>)
    ensures r.Some? ==> '\n' !in r.value && Trim(r.value) == r.value
  {
    match NameEnd(meta, 1)
    case None => None
    case Some(e) =>
      assert forall c :: c in meta[..e] ==> c != '\n';
      TrimWithin(meta[..e]);
      TrimIdempotent(meta[..e]);
      Some(Trim(meta[..e]))
  }

  lemma {:induction false} NameEndFrom(s: string, e: nat, m: nat)
    requires 1 <= e <= m <= |s|
    requires forall j :: e - 1 <= j < m ==> s[j] != '\n'
    requires forall j :: e <= j < m ==> !SentenceAt(s, j)
    requires SentenceAt(s, m)
    ensures NameEnd(s, e) == Some(m)
    decreases m - e
  {
    if e < m {
      NameEndFrom(s, e + 1, m);
    }
  }

  lemma FullNameFound(s: string, e: nat)
    requires 1 <= e <= |s|
    requires forall j :: 0 <= j < e ==> s[j] != '\n'
    requires forall j :: 1 <= j < e ==> !SentenceAt(s, j)
    requires SentenceAt(s, e)
    ensures FullName(s) == Some(Trim(s[..e]))
  {
    NameEndFrom(s, 1, e);
  }

  lemma SentenceAtOf(name: string, d: string, rest: string)
    requires d != [] && AllDigits(d)
    ensures SentenceAt(name + (IsA + (d + (YearOld + rest))), |name|)
  {
    var s := name + (IsA + (d + (YearOld + rest)));
    var e := |name| + |IsA|;
    assert s[|name|..e] == IsA;
    assert s[e..] == d + (YearOld + rest);
    DigitRunOf(d, YearOld + rest);
    assert s[e + |d|..e + |d| + |YearOld|] == YearOld;
  }

  /** The name before the first ` is a ` of the description sentence, trimmed,
      is the full name, provided it has no line break. */
  lemma FullNameOf(name: string, d: string, rest: string)
    requires name != [] && '\n' !in name
    requires !Contains(name + IsA[..|IsA| - 1], IsA)
    requires d != [] && AllDigits(d)
    ensures FullName(name + IsA + d + YearOld + rest) == Some(Trim(name))
  {
    var tail := d + (YearOld + rest);
    var s := name + (IsA + tail);
    assert name + IsA + d + YearOld + rest == s;
    assert name + IsA + tail == s;
    assert s[..|name|] == name;
    FirstOccurrence(name, IsA, tail);
    SentenceAtOf(name, d, rest);
    forall j | 0 <= j < |name| ensures s[j] != '\n' {
      assert s[j] == name[j] && name[j] in name;
    }
    FullNameFound(s, |name|);
  }

  // ---------------------------------------------------------------- ld+json

  const JsonImage := "\"image\""
  const JsonHeight := "\"height\""

  /** One attempt, at index `i`, of `"key"\s*:\s*"`: the index just after the
      opening quote of the value. */
  function JsonValueAt(s: string, key: string, i: nat): (r: Option<nat>)
    ensures r.Some? ==> i + |key| < r.value <= |s| && s[r.value - 1] == '"' && At(s, key, i)
  {
    if At(s, key, i) then
      var c := SkipSpaces(s, i + |key|);
      if c < |s| && s[c] == ':' then
        var q := SkipSpaces(s, c + 1);
        if q < |s| && s[q] == '"' then Some(q + 1) else None
      else None
    else None
  }

  /** One attempt of `"image"\s*:\s*"([^"]+)"` at index `i`. */
  function ImageAt(s: string, i: nat): (r: Option<string>)
    ensures r.Some? ==> r.value != [] && '"' !in r.value
  {
    match JsonValueAt(s, JsonImage, i)
    case None => None
    case Some(v) =>
      var k := CharFrom(s, '"', v);
      if v < k < |s| then
        Some(s[v..k])
      else None
  }

  /** `re.search(r'"image"\s*:\s*"([^"]+)"', ld).group(1)`. */
  function ImageUrl(ld: string): (r: Option<string>)
    ensures r.Some? ==> r.value != [] && '"' !in r.value
  {
    LeftmostFound(ld, 0, ImageAt);
    Leftmost(ld, 0, ImageAt)
  }

  /** One attempt of `"height"\s*:\s*"(\d+)` at index `i`. */
  function HeightAt(s: string, i: nat): (r: Option<string>)
    ensures r.Some? ==> r.value != [] && AllDigits(r.value)
  {
    match JsonValueAt(s, JsonHeight, i)
    case None => None
    case Some(v) => if DigitRun(s[v..]) != [] then Some(DigitRun(s[v..])) else None
  }

  /** `int(re.search(r'"height"\s*:\s*"(\d+)', ld).group(1))`, with a height
      of 0 read as no height at all. */
  function HeightCm(ld: string): (r: Option<nat>)
    ensures r.Some? ==> r.value > 0
    ensures r.Some? ==> exists i :: 0 <= i <= |ld| && HeightAt(ld, i).Some? && DigitsValue(HeightAt(ld, i).value) == r.value
  {
    LeftmostFound(ld, 0, HeightAt);
    match Leftmost(ld, 0, HeightAt)
    case None => None
    case Some(d) => if DigitsValue(d) == 0 then None else Some(DigitsValue(d))
  }

  /** A text written as `"key"`, optional whitespace, `:`, optional
      whitespace, `"` and then the value. */
  function JsonEntry(key: string, sp1: string, sp2: string, v: string): string {
    key + (sp1 + (":" + (sp2 + ("\"" + v))))
  }

  /** The value of an entry starts right after its opening quote. */
  lemma JsonValueAtOf(a: string, key: string, sp1: string, sp2: string, v: string)
    requires AllSpaces(sp1) && AllSpaces(sp2)
    ensures JsonValueAt(a + JsonEntry(key, sp1, sp2, v), key, |a|) == Some(|a| + |key| + |sp1| + |sp2| + 2)
    ensures (a + JsonEntry(key, sp1, sp2, v))[|a| + |key| + |sp1| + |sp2| + 2..] == v
  {
    var s := a + JsonEntry(key, sp1, sp2, v);
    var c := |a| + |key| + |sp1|;
    var q := c + 1 + |sp2|;
    JsonEntryParts(a, key, sp1, sp2, v);
    SkipSpacesOf(s, |a| + |key|, sp1);
    SkipSpacesOf(s, c + 1, sp2);
  }

  lemma JsonEntryParts(a: string, key: string, sp1: string, sp2: string, v: string)
    ensures var s := a + JsonEntry(key, sp1, sp2, v);
      var c := |a| + |key| + |sp1|;
      var q := c + 1 + |sp2|;
      && q < |s|
      && s[|a|..|a| + |key|] == key
      && s[|a| + |key|..c] == sp1 && s[c] == ':'
      && s[c + 1..q] == sp2 && s[q] == '"'
      && s[q + 1..] == v
  {
    var s := a + JsonEntry(key, sp1, sp2, v);
    var c := |a| + |key| + |sp1|;
    var q := c + 1 + |sp2|;
    assert s[|a|..|a| + |key|] == key;
    assert s[|a| + |key|..c] == sp1;
    assert s[c] == ':';
    assert s[c + 1..q] == sp2;
    assert s[q] == '"';
    assert s[q + 1..] == v;
  }

  lemma ImageFound(s: string, i: nat, url: string)
    requires ImageAt(s, i) == Some(url)
    requires forall k :: 0 <= k < i ==> ImageAt(s, k).None?
    ensures ImageUrl(s) == Some(url)
  {
    LeftmostAt(s, i, ImageAt);
  }

  lemma ImageAtOf(a: string, sp1: string, sp2: string, url: string, b: string)
    requires AllSpaces(sp1) && AllSpaces(sp2)
    requires url != [] && '"' !in url
    ensures ImageAt(a + JsonEntry(JsonImage, sp1, sp2, url + ("\"" + b)), |a|) == Some(url)
  {
    var s := a + JsonEntry(JsonImage, sp1, sp2, url + ("\"" + b));
    var start := |a| + |JsonImage| + |sp1| + |sp2| + 2;
    JsonValueAtOf(a, JsonImage, sp1, sp2, url + ("\"" + b));
    forall m | start <= m < start + |url| ensures s[m] != '"' {
      assert s[m] == url[m - start] && url[m - start] in url;
    }
    assert s[start + |url|] == '"';
    assert CharFrom(s, '"', start) == start + |url|;
    assert s[start..start + |url|] == url;
  }

  /** The text between the quotes after the first `"image" : ` is the image
      URL, whatever keys come before it. */
  lemma ImageUrlOf(a: string, sp1: string, sp2: string, url: string, b: string)
    requires !Contains(a + JsonImage[..|JsonImage| - 1], JsonImage)
    requires AllSpaces(sp1) && AllSpaces(sp2)
    requires url != [] && '"' !in url
    ensures ImageUrl(a + JsonImage + sp1 + ":" + sp2 + "\"" + url + "\"" + b) == Some(url)
  {
    var rest := sp1 + (":" + (sp2 + ("\"" + (url + ("\"" + b)))));
    var s := a + JsonEntry(JsonImage, sp1, sp2, url + ("\"" + b));
    assert a + JsonImage + sp1 + ":" + sp2 + "\"" + url + "\"" + b == s == a + JsonImage + rest;
    ImageAtOf(a, sp1, sp2, url, b);
    FirstOccurrence(a, JsonImage, rest);
    forall j | 0 <= j < |a| ensures ImageAt(s, j).None? {
      assert !At(a + JsonImage + rest, JsonImage, j);
    }
    ImageFound(s, |a|, url);
  }

  lemma HeightFound(s: string, i: nat, d: string)
    requires HeightAt(s, i) == Some(d)
    requires forall k :: 0 <= k < i ==> HeightAt(s, k).None?
    ensures HeightCm(s) == if DigitsValue(d) == 0 then None else Some(DigitsValue(d))
  {
    LeftmostAt(s, i, HeightAt);
  }

  lemma HeightAtOf(a: string, sp1: string, sp2: string, d: string, b: string)
    requires AllSpaces(sp1) && AllSpaces(sp2)
    requires d != [] && AllDigits(d)
    requires b == [] || !IsDigit(b[0])
    ensures HeightAt(a + JsonEntry(JsonHeight, sp1, sp2, d + b), |a|) == Some(d)
  {
    JsonValueAtOf(a, JsonHeight, sp1, sp2, d + b);
    DigitRunOf(d, b);
  }

  /** The digits after the first `"height" : "` are the height, unless they
      read as 0. */
  lemma HeightCmOf(a: string, sp1: string, sp2: string, d: string, b: string)
    requires !Contains(a + JsonHeight[..|JsonHeight| - 1], JsonHeight)
    requires AllSpaces(sp1) && AllSpaces(sp2)
    requires d != [] && AllDigits(d)
    requires b == [] || !IsDigit(b[0])
    ensures HeightCm(a + JsonHeight + sp1 + ":" + sp2 + "\"" + d + b)
         == if DigitsValue(d) == 0 then None else Some(DigitsValue(d))
  {
    var rest := sp1 + (":" + (sp2 + ("\"" + (d + b))));
    var s := a + JsonEntry(JsonHeight, sp1, sp2, d + b);
    assert a + JsonHeight + sp1 + ":" + sp2 + "\"" + d + b == s == a + JsonHeight + rest;
    HeightAtOf(a, sp1, sp2, d, b);
    FirstOccurrence(a, JsonHeight, rest);
    forall j | 0 <= j < |a| ensures HeightAt(s, j).None? {
      assert !At(a + JsonHeight + rest, JsonHeight, j);
    }
    HeightFound(s, |a|, d);
  }

  /** A height written as a number is read back as that number, except 0. */
  lemma HeightRoundTrip(a: string, sp1: string, sp2: string, n: nat, b: string)
    requires !Contains(a + JsonHeight[..|JsonHeight| - 1], JsonHeight)
    requires AllSpaces(sp1) && AllSpaces(sp2)
    requires b == [] || !IsDigit(b[0])
    ensures HeightCm(a + JsonHeight + sp1 + ":" + sp2 + "\"" + Decimal(n) + b)
         == if n == 0 then None else Some(n)
  {
    DecimalValue(n);
    HeightCmOf(a, sp1, sp2, Decimal(n), b);
  }

  // ---------------------------------------------------------------- Instagram

  /** `https://www.instagram.com/` as a pattern at index `i`. Its two dots are
      not escaped, so each matches any character but a line break. */
  predicate InstagramAt(s: string, i: nat) {
    && i + 26 <= |s|
    && s[i..i + 11] == "https://www"
    && s[i + 11] != '\n'
    && s[i + 12..i + 21] == "instagram"
    && s[i + 21] != '\n'
    && s[i + 22..i + 26] == "com/"
  }

  /** The `href=re.compile(r'https://www.instagram.com/')` filter:
      BeautifulSoup searches the pattern anywhere in the attribute. */
  predicate InstagramHref(href: string): (ok: bool)
    ensures ok ==> |href| >= 26
  {
    exists i :: 0 <= i <= |href| && InstagramAt(href, i)
  }

  /** One attempt of `https://www.instagram.com/([^/]+)` at index `i`. */
  function HandleAt(s: string, i: nat): (r: Option<string>)
    ensures r.Some? ==> r.value != [] && '/' !in r.value && InstagramAt(s, i)
  {
    if InstagramAt(s, i) then
      var k := CharFrom(s, '/', i + 26);
      if k > i + 26 then
        Some(s[i + 26..k])
      else None
    else None
  }

  /** `"@" + re.search(r'https://www.instagram.com/([^/]+)', href).group(1)`.
      A handle is found only in a link the filter lets through. */
  function Handle(href: string): (r: Option<string>)
    ensures r.Some? ==> |r.value| >= 2 && r.value[0] == '@' && '/' !in r.value
    ensures r.Some? ==> InstagramHref(href)
  {
    LeftmostFound(href, 0, HandleAt);
    match Leftmost(href, 0, HandleAt)
    case None => None
    case Some(h) => Some("@" + h)
  }

  /** A text the Instagram pattern accepts, with `x` and `y` where the
      address has its dots. */
  function InstagramAddress(x: char, y: char): string {
    "https://www" + ([x] + ("instagram" + ([y] + "com/")))
  }

  lemma InstagramAddressAt(x: char, y: char, rest: string)
    requires x != '\n' && y != '\n'
    ensures |InstagramAddress(x, y)| == 26
    ensures InstagramAt(InstagramAddress(x, y) + rest, 0)
  {
    var s := InstagramAddress(x, y) + rest;
    assert s[..11] == "https://www";
    assert s[11] == x;
    assert s[12..21] == "instagram";
    assert s[21] == y;
    assert s[22..26] == "com/";
  }

  lemma HandleAtOf(x: char, y: char, h: string, rest: string)
    requires x != '\n' && y != '\n'
    requires h != [] && '/' !in h
    requires rest == [] || rest[0] == '/'
    ensures HandleAt(InstagramAddress(x, y) + (h + rest), 0) == Some(h)
  {
    var s := InstagramAddress(x, y) + (h + rest);
    InstagramAddressAt(x, y, h + rest);
    forall m | 26 <= m < 26 + |h| ensures s[m] != '/' {
      assert s[m] == h[m - 26] && h[m - 26] in h;
    }
    assert rest != [] ==> s[26 + |h|] == rest[0];
    assert CharFrom(s, '/', 26) == 26 + |h|;
    assert s[26..26 + |h|] == h;
  }

  /** The first path segment after the Instagram address is the handle, and
      the dots of the address match any character but a line break. */
  lemma HandleOf(x: char, y: char, h: string, rest: string)
    requires x != '\n' && y != '\n'
    requires h != [] && '/' !in h
    requires rest == [] || rest[0] == '/'
    ensures Handle(InstagramAddress(x, y) + h + rest) == Some("@" + h)
  {
    var s := InstagramAddress(x, y) + (h + rest);
    assert InstagramAddress(x, y) + h + rest == s;
    HandleAtOf(x, y, h, rest);
    LeftmostAt(s, 0, HandleAt);
  }

  /** The address itself, with the dots written as dots. */
  lemma HandleOfAddress(h: string)
    requires h != [] && '/' !in h
    ensures Handle("https://www.instagram.com/" + h) == Some("@" + h)
  {
    var none: string := [];
    assert InstagramAddress('.', '.') == "https://www.instagram.com/";
    assert InstagramAddress('.', '.') + h + none == "https://www.instagram.com/" + h;
    HandleOf('.', '.', h, none);
  }

  // ---------------------------------------------------------------- Foot

  const FootLabel := "Preferred foot"

  /** `text.split('Preferred foot')[1].strip().lower()`; `None` where the
      split has no second piece. */
  function FootText(text: string): (r: Option<string>)
    ensures r.None? <==> !Contains(text, FootLabel)
    ensures r.Some? ==> forall i :: 0 <= i < |r.value| ==> !('A' <= r.value[i] <= 'Z')
  {
    match SplitSecond(text, FootLabel)
    case None => None
    case Some(x) =>
      LowerShape(Trim(x));
      Some(Lower(Trim(x)))
  }

  /** The text after the only `Preferred foot`, trimmed and lower-cased, is
      the foot. */
  lemma FootTextOf(a: string, b: string)
    requires !Contains(a + FootLabel[..|FootLabel| - 1], FootLabel)
    requires !Contains(b + FootLabel[..|FootLabel| - 1], FootLabel)
    ensures FootText(a + FootLabel + b) == Some(Lower(Trim(b)))
  {
    SplitSecondOf(a, FootLabel, b, []);
    assert a + FootLabel + b + [] == a + FootLabel + b;
  }

  // ---------------------------------------------------------------- Market value

  /** The two characters ` \x80` the page leaves after the amount. */
  const Artefact := " \U{80}"

  /** `get_text(strip=True).replace(' \x80', '')`. */
  function MarketValue(text: string): (r: string)
    ensures |r| <= |text|
  {
    RemoveAll(Trim(text), Artefact)
  }

  lemma {:induction false} RemoveArtefact(v: string)
    requires '\U{80}' !in v
    ensures RemoveAll(v + Artefact, Artefact) == v
  {
    var s := v + Artefact;
    if v == [] {
      assert s[..2] == Artefact && s[2..] == [];
    } else {
      assert s[..2] != Artefact by {
        if |v| >= 2 {
          assert s[1] == v[1] && v[1] in v;
        } else {
          assert s[1] == ' ';
        }
      }
      assert s[1..] == v[1..] + Artefact;
      RemoveArtefact(v[1..]);
    }
  }

  /** The artefact after an amount is removed, and an amount without it is
      kept as it is. */
  lemma MarketValueOf(v: string)
    requires v != [] && !IsSpace(v[0]) && !IsSpace(v[|v| - 1])
    requires '\U{80}' !in v
    ensures MarketValue(v + Artefact) == v
    ensures MarketValue(v) == v
  {
    TrimExact([], v + Artefact, []);
    assert [] + (v + Artefact) + [] == v + Artefact;
    RemoveArtefact(v);
    TrimExact([], v, []);
    assert [] + v + [] == v;
    assert !Contains(v, Artefact) by {
      forall k | 0 <= k ensures !At(v, Artefact, k) {
        if k + 2 <= |v| {
          assert v[k..k + 2][1] == v[k + 1] && v[k + 1] in v;
        }
      }
    }
    RemoveAllUnchanged(v, Artefact);
  }
}
