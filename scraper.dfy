/** `get_player_data` itself: validate the link, fetch the page, seed the
    dictionary and let each rule overwrite its own key, in the order the
    endpoint runs them. The web is a `Fetcher` object that records every
    request; `urljoin` is a parameter. */
module Scraper {
  import opened Text
  import opened Search
  import ProfileUrl
  import Patterns
  import opened Page
  import opened Rules

  /** What `requests.get(...)` followed by `raise_for_status()` gives: the
      parsed page, or the failure the request raised. */
  datatype Fetch = Fetched(page: Page) | FetchFailed(cause: string)

  /** The web as `requests.get` reaches it: what each URL answers, and the
      URLs requested so far, in order. */
  class Fetcher {
    const answers: string -> Fetch
    var log: seq<string>

    constructor(answers: string -> Fetch)
      ensures this.answers == answers && log == []
    {
      this.answers := answers;
      log := [];
    }

    /** One request: it is recorded, and the page or the failure comes back. */
    method Get(url: string) returns (f: Fetch)
      modifies this
      ensures f == answers(url)
      ensures log == old(log) + [url]
    {
      log := log + [url];
      f := answers(url);
    }
  }

  /** The endpoint's answer: the dictionary, a 400 for a rejected link, or a
      500 carrying the request's failure. */
  datatype Response = Found(record: Record) | BadRequest | ServerError(cause: string)

  /** What the endpoint answers for the link `raw`. */
  function Respond(raw: string, fetch: string -> Fetch, join: Join): (resp: Response)
    ensures resp.BadRequest? <==> !ProfileUrl.ProfileShaped(ProfileUrl.Normalize(raw))
    ensures resp.Found? ==> resp.record.profile == Str(ProfileUrl.Normalize(raw))
    ensures resp.Found? ==> resp.record.playerId.Str? && resp.record.playerId.s != [] && AllDigits(resp.record.playerId.s)
  {
    match ProfileUrl.Validate(raw)
    case Err(_) => BadRequest
    case Ok(link) =>
      ProfileUrl.AcceptedHasPlayerId(raw);
      match fetch(link)
      case FetchFailed(cause) => ServerError(cause)
      case Fetched(page) => Found(Extract(link, page, join))
  }

  /** For an accepted link, a failed request is the 500 answer with its cause
      and no record; a fetched page gives the record the rules extract. */
  lemma RespondAccepted(raw: string, fetch: string -> Fetch, join: Join)
    requires ProfileUrl.Validate(raw).Ok?
    ensures var link := ProfileUrl.Normalize(raw);
      && (fetch(link).FetchFailed? ==> Respond(raw, fetch, join) == ServerError(fetch(link).cause))
      && (fetch(link).Fetched? ==> Respond(raw, fetch, join) == Found(Extract(link, fetch(link).page, join)))
  {
  }

  /** The answer depends on the web only through the page of the normalised
      link, and not at all when the link is rejected. */
  lemma RespondNeedsOnlyTheLink(raw: string, fetch1: string -> Fetch, fetch2: string -> Fetch, join: Join)
    requires ProfileUrl.Validate(raw).Ok? ==> fetch1(ProfileUrl.Normalize(raw)) == fetch2(ProfileUrl.Normalize(raw))
    ensures Respond(raw, fetch1, join) == Respond(raw, fetch2, join)
  {
  }

  /** The endpoint, step by step: a rejected link is never requested, an
      accepted one is requested once, in its normalised form. */
  method GetPlayerData(raw: string, web: Fetcher, join: Join) returns (resp: Response)
    modifies web
    ensures resp == Respond(raw, web.answers, join)
    ensures web.log == old(web.log) + if ProfileUrl.Validate(raw).Ok? then [ProfileUrl.Normalize(raw)] else []
  {
    var checked := ProfileUrl.Validate(raw);
    if checked.Err? {
      return BadRequest;
    }
    var link := checked.value;
    var fetched := web.Get(link);
    if fetched.FetchFailed? {
      return ServerError(fetched.cause);
    }
    var page := fetched.page;
    var record := Seed(link);
    record := record.(playerId := PlayerIdRule(link));
    record := record.(shortName := ShortNameRule(page));
    record := record.(birthDate := BirthDateRule(page));
    record := ScanFoot(record, page);
    record := record.(age := AgeRule(page));
    record := record.(nationality := NationalityRule(page));
    record := ScanCitizenship(record, page);
    record := record.(team := TeamRule(page));
    record := record.(fullName := FullNameRule(page));
    record := record.(position := PositionRule(page));
    record := record.(contractExpires := ContractRule(page));
    record := record.(playerImgUrl := PlayerImgRule(page));
    record := record.(heightCm := HeightRule(page));
    record := record.(teamImgUrl := TeamImgRule(record.team, page.images));
    record := record.(marketValue := MarketValueRule(page));
    record := ScanAgent(record, link, page, join);
    record := ScanInstagram(record, page);
    resp := Found(record);
  }

  /** The Foot loop: the first `bio_half` whose first span mentions
      `Preferred foot` writes the key and ends the loop; a failed split
      leaves it `None`. Without the profile box the key stays `None`. */
  method ScanFoot(record: Record, page: Page) returns (r: Record)
    requires record.foot == Null
    ensures r == record.(foot := FootRule(page))
  {
    r := record;
    if page.profile.None? {
      r := r.(foot := Null);
      return;
    }
    var blocks := page.profile.value.bioHalves;
    var i := 0;
    while i < |blocks|
      invariant i <= |blocks|
      invariant r == record
      invariant FootRule(page) == Sweep(blocks[i..], FootStep, Null)
    {
      var b := blocks[i];
      SweepAt(blocks, i, FootStep, Null);
      if b.firstSpan.Some? && Contains(b.firstSpan.value, Patterns.FootLabel) {
        match Patterns.FootText(b.text) {
          case None => r := r.(foot := Null);
          case Some(f) => r := r.(foot := Str(f));
        }
        break;
      }
      i := i + 1;
    }
  }

  /** The Citizenship loop: the first `bio_half` with a `Dual Nationality`
      span, a micrologo after it and a text inside sets the key and the
      found-flag; without it the key is reset to `None`. */
  method ScanCitizenship(record: Record, page: Page) returns (r: Record)
    ensures r == record.(citizenship := CitizenshipRule(page))
  {
    r := record;
    if page.profile.None? {
      r := r.(citizenship := Null);
      return;
    }
    var blocks := page.profile.value.bioHalves;
    var found := false;
    var i := 0;
    while i < |blocks|
      invariant i <= |blocks|
      invariant !found
      invariant r == record
      invariant CitizenshipRule(page) == Sweep(blocks[i..], CitizenshipStep, Null)
    {
      SweepAt(blocks, i, CitizenshipStep, Null);
      match blocks[i].dualNationality {
        case Some(Labelled(Some(Micrologo(Some(t))))) =>
          r := r.(citizenship := StrippedText(t));
          found := true;
          break;
        case _ =>
      }
      i := i + 1;
    }
    if !found {
      r := r.(citizenship := Null);
    }
  }

  /** The Agent loop: the first `bio` block with an `Agent` span followed by
      a link writes the agent's name, then its link resolved against the
      profile link, and ends the loop. A link without `href`, or one `urljoin`
      refuses, raises after the name is written, and the handler resets both
      keys; so does a loop that finds nothing. */
  method ScanAgent(record: Record, link: string, page: Page, join: Join)
    returns (r: Record)
    ensures (r.playerAgent, r.playerAgentLink) == AgentRule(link, page, join)
    ensures r == record.(playerAgent := r.playerAgent, playerAgentLink := r.playerAgentLink)
  {
    r := record;
    if page.profile.None? {
      r := r.(playerAgent := Null, playerAgentLink := Null);
      return;
    }
    var blocks := page.profile.value.bios;
    ghost var step := (b: Block) => AgentStep(link, join, b);
    var found := false;
    var i := 0;
    while i < |blocks|
      invariant i <= |blocks|
      invariant !found
      invariant r == record
      invariant AgentRule(link, page, join) == Sweep(blocks[i..], step, (Null, Null))
    {
      SweepAt(blocks, i, step, (Null, Null));
      match blocks[i].agent {
        case Some(Labelled(Some(a))) =>
          r := r.(playerAgent := StrippedText(a.text));
          match a.href {
            case None =>
              r := r.(playerAgent := Null, playerAgentLink := Null);
            case Some(h) =>
              var resolved := join(link, h);
              if resolved.None? {
                r := r.(playerAgent := Null, playerAgentLink := Null);
              } else {
                r := r.(playerAgentLink := Str(resolved.value));
                assert step(blocks[i]) == Stop((r.playerAgent, r.playerAgentLink));
                found := true;
              }
          }
          break;
        case _ =>
          assert step(blocks[i]) == Pass;
      }
      i := i + 1;
    }
    if !found {
      r := r.(playerAgent := Null, playerAgentLink := Null);
    }
  }

  /** The Instagram loop: every `bio` block that mentions `Other connections`
      is tried; one whose first Instagram link yields a handle writes `@handle`
      and ends the loop, one that fails resets the key and the loop goes on. */
  method ScanInstagram(record: Record, page: Page) returns (r: Record)
    requires record.instagram == Null
    ensures r == record.(instagram := InstagramRule(page))
  {
    r := record;
    if page.profile.None? {
      r := r.(instagram := Null);
      return;
    }
    var blocks := page.profile.value.bios;
    var i := 0;
    while i < |blocks|
      invariant i <= |blocks|
      invariant r == record.(instagram := r.instagram)
      invariant InstagramRule(page) == Sweep(blocks[i..], InstagramStep, r.instagram)
    {
      var b := blocks[i];
      SweepAt(blocks, i, InstagramStep, r.instagram);
      if Contains(b.text, OtherConnections) {
        var found := First(b.links, InstagramLink);
        if found.None? {
          r := r.(instagram := Null);
        } else {
          match Patterns.Handle(found.value.href.value) {
            case None => r := r.(instagram := Null);
            case Some(h) =>
              r := r.(instagram := Str(h));
              break;
          }
        }
      }
      i := i + 1;
    }
  }
}
