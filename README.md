# PlaymakerStats player scraper, modelled in Dafny

The repository is a one-endpoint web service: `GET /player?player_page_link=…`
(`get_player_data` in `main.py`) takes the link of a player's profile page on
playmakerstats.com and answers with a dictionary of 19 keys about that player.
It works in three stages:

1. **Link validation.** It drops the query and the fragment from the link, then
   matches the result against `^https?://(www\.)?playmakerstats\.com/player/[^/]+/\d+`.
   A link that does not match is answered with HTTP 400 and is never fetched.
2. **Fetch.** It fetches the page once. A failed request is answered with
   HTTP 500.
3. **Extraction.** It seeds the dictionary with `None` for 18 keys and the
   normalised link for `PlaymakerStats Profile`. Then 17 rules each overwrite
   their own keys, in a fixed order. Every rule that fails leaves its key
   `None`. The order matters in one place: `Team img url` reads the `Team` key.

The model has seven modules:

- `Text`: the string primitives the rules rely on. This covers `str.strip()`
  (`Trim`), `lower()`, `split(x)[1]`, `replace(x, '')`, `\d+` runs and
  `int()` on them.
- `Search`: leftmost-match search (what `re.search` does) and a generic model
  of the "scan the blocks, stop at the first hit" loops (`Sweep`).
- `ProfileUrl`: link validation and the `Player ID` regular expression.
- `Patterns`: the other regular expressions. Each one is a scanner, and each
  has lemmas that say what it returns on a text of the shape the rule expects.
- `Page`: the fetched page, reduced to the answers of the `find` /
  `find_all` / `find_next_sibling` calls the rules make.
- `Rules`: the dictionary (`Record`) and one pure function per rule.
  `Extract` gives the dictionary an accepted link and its page produce. The
  module also holds lemmas about single rules and about the whole record.
- `Scraper`: the endpoint as a method. It validates, fetches, seeds the record
  and applies the rules in the source's order. Its four loops (Foot,
  Citizenship, Agent, Instagram) are `while` loops proved against the rule
  functions. `Respond` is the function that states what the endpoint
  answers.

`Patterns.TeamMayBeEmpty` records a behaviour of the code: a Team is not
always non-empty. The group `([^-]+)` of the title pattern may consist of
spaces only, and `.strip()` then turns it into `""`. The model follows the
code here.

## Model

| member | source | states |
|---|---|---|
| ProfileUrl.Normalize | main.py:22-24 | The normalised link is the raw link up to its first `?` or `#`. It keeps no `?` or `#`, and the character after it in the raw link is one of those two. |
| ProfileUrl.NormalizeIdempotent | main.py:22-24 | Normalising twice gives the same link as normalising once. A link with neither `?` nor `#` is unchanged. |
| ProfileUrl.NormalizeStrips | main.py:22-24 | Whatever follows a `?` or `#` separator is dropped. |
| ProfileUrl.IsProfileUrl | main.py:26 | A link the anchored pattern accepts starts with `https://` or `http://`. Its exact partner is `ValidatorMatchesShape`. |
| ProfileUrl.ValidatorMatchesShape | main.py:26 | The regex scanner accepts a link exactly when it has the shape `http(s)://` + optional `www.` + `playmakerstats.com/player/` + a non-empty slug without `/` + `/` + a digit + anything. Both directions are proved. |
| ProfileUrl.Validate | main.py:22-27 | The link is accepted exactly when its normalised form has the profile shape. An accepted link is returned in normalised form. Any other link is the 400 error. |
| ProfileUrl.QueryDropped | main.py:22-27 | A well-shaped profile link followed by `?` and any query is accepted and returned without the query. |
| ProfileUrl.RichardRiosAccepted | main.py:16-27 | The documented example link, given with a query, is accepted as the bare link. |
| ProfileUrl.ForeignLinkRejected | main.py:26-27 | A link to another host is rejected. |
| ProfileUrl.PlayerId | main.py:73 | A found Player ID is a non-empty digit string. |
| ProfileUrl.PlayerIdOfProfileLink | main.py:73 | On any link of the profile shape, `/player/[^/]+/(\d+)` captures the whole digit run after the slug. |
| ProfileUrl.PlayerIdRoundTrip | main.py:73 | A profile link built from an id followed by a non-digit yields that id back. |
| ProfileUrl.RichardRiosPlayerId | main.py:73 | The documented example link yields the id `744267`. |
| ProfileUrl.AcceptedHasPlayerId | main.py:73 | Every link the validator accepts has a Player ID. |
| Patterns.Age | main.py:114 | A captured age is a non-empty run of digits. |
| Patterns.AgeOf | main.py:114 | On a text with `(<digits> -yrs-old)` and no earlier `(`, the digits are captured. |
| Patterns.Team | main.py:154 | A captured team contains no `-` and is already stripped. |
| Patterns.TeamOf | main.py:154 | On `a - t - b`, with no ` - ` beginning inside `a` (hyphenated names allowed) and no `-` in `t`, the stripped `t` is captured. |
| Patterns.TeamAbsent | main.py:154 | A title without ` - ` gives no team. |
| Patterns.TeamMayBeEmpty | main.py:154 | A title whose group is only spaces gives the empty team `""`. |
| Patterns.FullName | main.py:160 | A captured full name contains no line break and is already stripped. |
| Patterns.FullNameOf | main.py:160 | On `name is a <digits>-year-old Football player…`, the stripped name is captured. It requires a non-empty name with no line break in which no ` is a ` begins, because the group is lazy and `.` does not cross a line break. |
| Patterns.ImageUrl | main.py:185 | A captured image URL is non-empty and contains no `"`. |
| Patterns.ImageUrlOf | main.py:185 | On `a "image"<spaces>:<spaces>"url"…`, `url` is captured, whatever keys `a` holds, as long as no `"image"` begins inside `a`. |
| Patterns.HeightCm | main.py:191-193 | A height is positive, and it is the value of a digit run that follows `"height"`. |
| Patterns.HeightCmOf | main.py:191-193 | On `a "height" : "<digits>…`, with no `"height"` beginning inside `a`, the value of the digits is returned, or no height when it is 0. |
| Patterns.HeightRoundTrip | main.py:191-193 | Writing `n` in decimal after the first `"height"` key of any text and reading it back gives `n`, except that 0 reads as no height. |
| Patterns.InstagramHref | main.py:255 | An href the `https://www.instagram.com/` filter accepts is at least as long as that address. |
| Patterns.Handle | main.py:255-256 | A handle is `@` followed by at least one character and no `/`, and its href passes the Instagram filter. |
| Patterns.HandleOf | main.py:255-256 | On an href that starts with the Instagram address, whatever non-newline characters stand in its two `.` wildcard positions, followed by a non-empty segment `h` without `/` and then nothing or a `/`, the handle is `@h`. |
| Patterns.HandleOfAddress | main.py:255-256 | `https://www.instagram.com/h` gives `@h`. |
| Patterns.FootText | main.py:104-105 | The split fails exactly when the text lacks `Preferred foot`. The result has no upper-case letter. |
| Patterns.FootTextOf | main.py:105 | On `a Preferred foot b`, with the label occurring once, the result is `b` stripped and lower-cased. |
| Patterns.MarketValue | main.py:217 | Removing the artefact never lengthens the text. |
| Patterns.MarketValueOf | main.py:217 | A stripped value followed by ` \x80` comes back without the artefact. A value without it comes back unchanged. |
| Rules.Seed | main.py:41-61 | The seeded record holds the link under `PlaymakerStats Profile` and `None` under every other key. |
| Rules.FieldCount | main.py:41-61 | The record has exactly 19 keys, and the key names are pairwise distinct. |
| Rules.PlayerIdRule | main.py:71-75 | Player ID is `None` or a non-empty string of digits. |
| Rules.ShortNameRule | main.py:77-83 | Short Name is `None` or a stripped string. |
| Rules.BirthDateRule | main.py:85-97 | Birth Date is `None` or a non-empty stripped string. |
| Rules.FootRule | main.py:99-108 | Foot is `None` or a string with no upper-case letter. |
| Rules.AgeRule | main.py:110-117 | Age is `None` or a non-empty string of digits. |
| Rules.NationalityRule | main.py:119-125 | Nationality is `None` or a non-empty stripped string. |
| Rules.CitizenshipRule | main.py:127-150 | Citizenship is `None` or a stripped string. |
| Rules.TeamRule | main.py:152-156 | Team is `None` or a stripped string without `-`. |
| Rules.FullNameRule | main.py:158-162 | Full Name is `None` or a stripped string without a line break. |
| Rules.PositionRule | main.py:164-168 | Position is `None` or a stripped string. |
| Rules.ContractRule | main.py:170-180 | Contract Expires is `None` or a stripped string. |
| Rules.PlayerImgRule | main.py:182-187 | Player img url is `None` or a non-empty string without `"`. |
| Rules.HeightRule | main.py:189-195 | Height (cm) is `None` or a positive integer, never 0. |
| Rules.TeamImgRule | main.py:197-202 | With a team, Team img url is `None` or a URL under `https://www.playmakerstats.com`. |
| Rules.MarketValueRule | main.py:204-219 | Market Value is `None` or a string. |
| Rules.AgentRule | main.py:221-248 | Player Agent and Player Agent Link are both `None` or both strings. |
| Rules.InstagramRule | main.py:250-261 | Instagram is `None` or a string starting with `@`. |
| Rules.Extract | main.py:41-261 | The extracted record keeps the normalised link under `PlaymakerStats Profile`. |
| Rules.AcceptedPlayerId | main.py:72-75 | For every accepted link, Player ID is a non-empty string of digits, whatever the page. |
| Rules.TeamImgNeedsTeam | main.py:197-202 | Team img url is `None` whenever Team is `None`. A present Team img url lies under the site root. |
| Rules.HeightNeverZero | main.py:191-193 | The record never holds the height 0. |
| Rules.AgentPaired | main.py:221-248 | In the record, Player Agent is `None` exactly when Player Agent Link is `None`. |
| Rules.TeamImgOf | main.py:199-200 | The first image whose title contains the team gives the URL: site root + `src`, or `None` without `src`. |
| Rules.TeamImgAbsent | main.py:199-202 | With no image titled for the team, Team img url is `None`. |
| Rules.AgentFirst | main.py:223-240 | The first `bio` block with an `Agent` label and a following link decides the pair. It gives the link's stripped text and the `urljoin` of its href, or `None` twice when the href is missing or `urljoin` refuses it. |
| Rules.AgentAbsent | main.py:242-244 | With no such block, both agent keys are `None`. |
| Rules.CitizenshipFirst | main.py:129-144 | The first `bio_half` with a `Dual Nationality` micrologo text gives Citizenship, stripped. |
| Rules.CitizenshipAbsent | main.py:146-147 | With no such block, Citizenship is `None`. |
| Rules.FootAbsent | main.py:101-106 | With no `bio_half` whose first span mentions `Preferred foot`, the loop never writes and Foot stays `None`. |
| Rules.FootFirst | main.py:101-106 | The first `bio_half` whose first span mentions `Preferred foot` decides Foot. |
| Rules.InstagramFirst | main.py:251-256 | The first `bio` block whose step finds a handle decides Instagram. |
| Rules.InstagramAbsent | main.py:251-258 | When no `bio` block yields a handle, blocks mentioning `Other connections` only reset the key, and Instagram ends `None`. |
| Rules.InstagramStepOf | main.py:253-256 | A block mentioning `Other connections` gives `@h` when its first Instagram link is `https://www.instagram.com/h`. |
| Rules.ProfileMissing | main.py:63-69 | Without the profile box, the six keys read from its blocks (Foot, Citizenship, Contract Expires, both agent keys, Instagram) are `None`. |
| Rules.TitleReach | main.py:152-202 | Changing the page title changes no key other than Team and Team img url. |
| Rules.LdJsonReach | main.py:182-195 | Changing the ld+json script changes no key other than Player img url and Height (cm). Without the script, both are `None`. |
| Scraper.Respond | main.py:22-36 | The answer is 400 exactly when the normalised link lacks the profile shape. A returned dictionary holds the normalised link and a digit Player ID. |
| Scraper.Fetcher.Get | main.py:31-34 | A request returns what the web answers for the URL and appends the URL to the request log. |
| Scraper.RespondAccepted | main.py:30-38 | For an accepted link, a failed request gives the 500 answer with its cause and no partial record. A fetched page gives the record the rules extract from it. |
| Scraper.RespondNeedsOnlyTheLink | main.py:22-38 | Two webs that agree on the normalised link give the same answer, and a rejected link gives the same answer whatever the web. |
| Scraper.GetPlayerData | main.py:11-263 | Running the rules one after another in the source's order gives what `Respond` states. The request log grows by the normalised link when the link is accepted and by nothing when it is rejected. |
| Scraper.ScanFoot | main.py:99-108 | The loop over `bio_half` blocks sets Foot to what `FootRule` gives and changes no other key. |
| Scraper.ScanCitizenship | main.py:127-150 | The loop with its `found` flag sets Citizenship to what `CitizenshipRule` gives and changes no other key. |
| Scraper.ScanAgent | main.py:221-248 | The loop sets the agent pair to what `AgentRule` gives, a missing href and a refused `urljoin` included, and changes no other key. |
| Scraper.ScanInstagram | main.py:250-261 | The loop sets Instagram to what `InstagramRule` gives. A failed block resets it and the loop goes on. No other key changes. |

## Left out

- HTTP and FastAPI are not modelled. The 400 and 500 answers are the
  `BadRequest` and `ServerError` constructors of `Scraper.Response`, and the
  response messages are left out.
- `requests.get` with `raise_for_status()` is `Scraper.Fetcher.Get`, over a
  fixed map from URL to answer. Timeouts, headers, the status code and a web
  that answers the same URL differently over time are not modelled.
- `requests.compat.urljoin` is the `join` parameter (`Rules.Join`). It either
  resolves the href or fails, and a failure resets both agent keys. Its
  resolution rules are not modelled.
- HTML parsing with BeautifulSoup is not modelled. `Page` holds what each
  `find` call returns.
- `get_text(strip=True)` is modelled as `strip()` of the element's whole text.
  BeautifulSoup strips each text piece before joining them, and that
  difference is not modelled.
- `Text.Lower` and the digit tests cover ASCII only: `A`–`Z` and `0`–`9`.
  Python's Unicode digits for `\d` and `int()` and Unicode case mapping are
  not modelled. `Text.IsSpace`, and with it `Text.Trim` and `\s`, covers the
  whole of `str.isspace`.
- Patterns.HeightCm reads a digit run of any length. Python's `int()`
  refuses strings of more than 4300 digits (its default
  `sys.set_int_max_str_digits` limit). The `ValueError` would make Height
  (cm) `None` (main.py:191, main.py:194), and the model does not capture
  that.
- ProfileUrl.Normalize models `urlunparse(urlparse(x)._replace(query='', fragment=''))`
  as "cut at the first `?` or `#`". It does not model the rest of `urlparse`:
  - scheme lower-casing;
  - removal of tab and newline characters;
  - `;params` handling;
  - removal of leading C0 control characters and spaces. Python 3.12 and
    the releases patched for CVE-2023-24329 do this, so they accept
    `" https://www.playmakerstats.com/player/x/1"`, which the model
    answers with 400.
  - the `ValueError("Invalid IPv6 URL")` that `urlsplit` raises on an
    unbalanced `[` in the host part, e.g. `https://[x/player/a/1`.
    main.py:22 is outside any `try`, so the service answers 500 there,
    while `Scraper.Respond` answers 400.
- The `print` in the profile box's `except` branch (main.py:69) is console
  output and is left out. The failure it reports is modelled by
  `Page.profile == None`.
- The unused variable `preferred_foot` (main.py:103) and the unused `pandas`
  and `StringIO` imports are left out.
- The record is a datatype with one field per key, so the key order of the
  JSON object is not modelled.
- Exceptions are not modelled as such. Each rule's `except` branch is the
  `None` its function returns on the failing path.
- `Patterns.FootText` cannot fail once the first span mentions the label,
  because the block's text contains that span's text. The page model does not
  tie the two texts together, so `Rules.FootStep` still models the failed
  split (IndexError leading to `None`).
