/** The record `get_player_data` returns and, key by key, the rule that
    fills it. Each rule reads the normalised link or the page and yields the
    key's final value; `Null` stands for Python's `None`, whether the rule
    found nothing or raised and its `except` reset the key. */
module Rules {
  import opened Text
  import opened Search
  import ProfileUrl
  import Patterns
  import opened Page

  /** A value of the returned dictionary: `None`, a `str` or an `int`. */
  datatype Value = Null | Str(s: string) | Int(n: int)

  /** The keys of the returned dictionary. */
  datatype Field =
    | PlayerId | ShortName | FullName | Team | Age | BirthDate | Nationality
    | Citizenship | Position | Foot | HeightCm | MarketValue | ContractExpires
    | PlayerAgent | PlayerAgentLink | PlayerImgUrl | TeamImgUrl | Instagram
    | PlaymakerStatsProfile

  /** The dictionary key each field is written under. */
  function Key(f: Field): string {
    match f
    case PlayerId => "Player ID"
    case ShortName => "Short Name"
    case FullName => "Full Name"
    case Team => "Team"
    case Age => "Age"
    case BirthDate => "Birth Date"
    case Nationality => "Nationality"
    case Citizenship => "Citizenship"
    case Position => "Position"
    case Foot => "Foot"
    case HeightCm => "Height (cm)"
    case MarketValue => "Market Value"
    case ContractExpires => "Contract Expires"
    case PlayerAgent => "Player Agent"
    case PlayerAgentLink => "Player Agent Link"
    case PlayerImgUrl => "Player img url"
    case TeamImgUrl => "Team img url"
    case Instagram => "Instagram"
    case PlaymakerStatsProfile => "PlaymakerStats Profile"
  }

  /** The fields in the order the dictionary is seeded. */
  const Fields: seq<Field> := [
    PlayerId, ShortName, FullName, Team, Age, BirthDate, Nationality,
    Citizenship, Position, Foot, HeightCm, MarketValue, ContractExpires,
    PlayerAgent, PlayerAgentLink, PlayerImgUrl, TeamImgUrl, Instagram,
    PlaymakerStatsProfile]

  lemma Listed(f: Field)
    ensures f in Fields
  {
  }

  /** Every field is seeded. */
  lemma AllListed()
    ensures forall f: Field :: f in Fields
  {
    forall f: Field ensures f in Fields {
      Listed(f);
    }
  }

  /** The site root the team image path is appended to. */
  const SiteRoot := ProfileUrl.SchemeText(true) + ProfileUrl.SiteName(true)

  /** The label that marks the block holding the Instagram link. */
  const OtherConnections := "Other connections"

  /** A text that `strip()` leaves as it is. */
  predicate Stripped(s: string) {
    Trim(s) == s
  }

  /** The dictionary `get_player_data` fills: one entry per key, so no rule
      can remove a key, only overwrite its value. */
  datatype Record = Record(
    playerId: Value, shortName: Value, fullName: Value, team: Value, age: Value,
    birthDate: Value, nationality: Value, citizenship: Value, position: Value,
    foot: Value, heightCm: Value, marketValue: Value, contractExpires: Value,
    playerAgent: Value, playerAgentLink: Value, playerImgUrl: Value,
    teamImgUrl: Value, instagram: Value, profile: Value)

  /** The value stored under a key. */
  function Get(r: Record, f: Field): Value {
    match f
    case PlayerId => r.playerId
    case ShortName => r.shortName
    case FullName => r.fullName
    case Team => r.team
    case Age => r.age
    case BirthDate => r.birthDate
    case Nationality => r.nationality
    case Citizenship => r.citizenship
    case Position => r.position
    case Foot => r.foot
    case HeightCm => r.heightCm
    case MarketValue => r.marketValue
    case ContractExpires => r.contractExpires
    case PlayerAgent => r.playerAgent
    case PlayerAgentLink => r.playerAgentLink
    case PlayerImgUrl => r.playerImgUrl
    case TeamImgUrl => r.teamImgUrl
    case Instagram => r.instagram
    case PlaymakerStatsProfile => r.profile
  }

  /** The dictionary as seeded, before any rule runs: every key `None` except
      the profile link. */
  function Seed(link: string): (r: Record)
    ensures Get(r, PlaymakerStatsProfile) == Str(link)
    ensures forall f :: f != PlaymakerStatsProfile ==> Get(r, f) == Null
  {
    Record(Null, Null, Null, Null, Null, Null, Null, Null, Null, Null,
           Null, Null, Null, Null, Null, Null, Null, Null, Str(link))
  }

  /** `get_text(strip=True)` of a text that the rule keeps as found. */
  function StrippedText(t: string): (v: Value)
    ensures v.Str? && Stripped(v.s)
  {
    TrimIdempotent(t);
    Str(Trim(t))
  }

  // ---------------------------------------------------------------- one rule per key

  /** Player ID: the digits after `/player/<slug>/` in the link. */
  function PlayerIdRule(link: string): (v: Value)
    ensures v.Null? || (v.Str? && v.s != [] && AllDigits(v.s))
  {
    match ProfileUrl.PlayerId(link)
    case None => Null
    case Some(d) => Str(d)
  }

  /** Short Name: the stripped text of the first span of `div.player_name`. */
  function ShortNameRule(page: Page): (v: Value)
    ensures v.Null? || (v.Str? && Stripped(v.s))
  {
    match page.playerName
    case Some(Some(t)) => StrippedText(t)
    case _ => Null
  }

  /** Birth Date: the text after the `Born/Age` span of the first `bio_half`,
      stripped, when something is left. */
  function BirthDateRule(page: Page): (v: Value)
    ensures v.Null? || (v.Str? && v.s != [] && Stripped(v.s))
  {
    match page.firstBioHalf
    case None => Null
    case Some(b) =>
      match b.bornAge
      case Some(Labelled(Some(t))) => if Trim(t) != [] then StrippedText(t) else Null
      case _ => Null
  }

  /** What the Foot loop does with one `bio_half`: a block whose first span
      mentions `Preferred foot` ends the loop, with the text after the label,
      or with `None` when the split fails. */
  predicate FootLabelled(b: Block) {
    b.firstSpan.Some? && Contains(b.firstSpan.value, Patterns.FootLabel)
  }

  function FootStep(b: Block): Step<Value> {
    if FootLabelled(b) then
      Stop(match Patterns.FootText(b.text) case None => Null case Some(f) => Str(f))
    else Pass
  }

  /** Foot. Without a profile box the block list does not exist and the rule
      fails. */
  function FootRule(page: Page): (v: Value)
    ensures v.Null? || (v.Str? && forall i :: 0 <= i < |v.s| ==> !('A' <= v.s[i] <= 'Z'))
  {
    match page.profile
    case None => Null
    case Some(p) =>
      SweepKeeps(p.bioHalves, FootStep, Null,
        (v: Value) => v.Null? || (v.Str? && forall i :: 0 <= i < |v.s| ==> !('A' <= v.s[i] <= 'Z')));
      Sweep(p.bioHalves, FootStep, Null)
  }

  /** Age: the digits of `(<n> -yrs-old)` in the `span.small` of the first
      `bio_half`, kept as a string. */
  function AgeRule(page: Page): (v: Value)
    ensures v.Null? || (v.Str? && v.s != [] && AllDigits(v.s))
  {
    match page.firstBioHalf
    case None => Null
    case Some(b) =>
      match b.small
      case None => Null
      case Some(t) =>
        if Trim(t) == [] then Null
        else match Patterns.Age(Trim(t)) case None => Null case Some(d) => Str(d)
  }

  /** Nationality: the text of the first micrologo of the first `bio_half`,
      when it is not empty. */
  function NationalityRule(page: Page): (v: Value)
    ensures v.Null? || (v.Str? && v.s != [] && Stripped(v.s))
  {
    match page.firstBioHalf
    case None => Null
    case Some(b) =>
      match b.micrologo
      case Some(Micrologo(Some(t))) => if Trim(t) != [] then StrippedText(t) else Null
      case _ => Null
  }

  /** What the Citizenship loop does with one `bio_half`: a `Dual Nationality`
      span followed by a micrologo with a text ends the loop. */
  function CitizenshipStep(b: Block): Step<Value> {
    match b.dualNationality
    case Some(Labelled(Some(Micrologo(Some(t))))) => Stop(StrippedText(t))
    case _ => Pass
  }

  /** Citizenship; `None` when no block has it. */
  function CitizenshipRule(page: Page): (v: Value)
    ensures v.Null? || (v.Str? && Stripped(v.s))
  {
    match page.profile
    case None => Null
    case Some(p) =>
      SweepKeeps(p.bioHalves, CitizenshipStep, Null, (v: Value) => v.Null? || (v.Str? && Stripped(v.s)));
      Sweep(p.bioHalves, CitizenshipStep, Null)
  }

  /** Team: the ` - X - ` group of the stripped title. */
  function TeamRule(page: Page): (v: Value)
    ensures v.Null? || (v.Str? && '-' !in v.s && Stripped(v.s))
  {
    match page.title
    case None => Null
    case Some(t) =>
      match Patterns.Team(Trim(t))
      case None => Null
      case Some(x) => Str(x)
  }

  /** Full Name: the name at the start of the meta description. */
  function FullNameRule(page: Page): (v: Value)
    ensures v.Null? || (v.Str? && '\n' !in v.s && Stripped(v.s))
  {
    match page.metaDescription
    case None => Null
    case Some(m) =>
      match Patterns.FullName(m)
      case None => Null
      case Some(x) => Str(x)
  }

  /** Position: the second cell of the row after the `Position` span; the
      rule fails when the row has fewer than two cells. */
  function PositionRule(page: Page): (v: Value)
    ensures v.Null? || (v.Str? && Stripped(v.s))
  {
    match page.position
    case Some(Labelled(Some(cells))) => if |cells| >= 2 then StrippedText(cells[1]) else Null
    case _ => Null
  }

  /** Contract Expires: the non-empty text node right after the `Contract`
      label of the profile box, stripped. */
  function ContractRule(page: Page): (v: Value)
    ensures v.Null? || (v.Str? && Stripped(v.s))
  {
    match page.profile
    case None => Null
    case Some(p) =>
      match p.contract
      case Some(Labelled(Some(TextNode(t)))) => if t != [] then StrippedText(t) else Null
      case _ => Null
  }

  /** Player img url: the `"image"` entry of the ld+json text. */
  function PlayerImgRule(page: Page): (v: Value)
    ensures v.Null? || (v.Str? && v.s != [] && '"' !in v.s)
  {
    match page.ldJson
    case None => Null
    case Some(ld) =>
      match Patterns.ImageUrl(ld)
      case None => Null
      case Some(u) => Str(u)
  }

  /** Height (cm): the `"height"` entry of the ld+json text, as an integer. */
  function HeightRule(page: Page): (v: Value)
    ensures v.Null? || (v.Int? && v.n > 0)
  {
    match page.ldJson
    case None => Null
    case Some(ld) =>
      match Patterns.HeightCm(ld)
      case None => Null
      case Some(n) => Int(n)
  }

  /** An image whose title contains the team's name (`re.escape` makes the
      name a literal pattern, which `re.search` finds anywhere in the title). */
  predicate TitledFor(team: string, im: Img) {
    im.title.Some? && Contains(im.title.value, team)
  }

  /** Team img url: the site root followed by the `src` of the first image
      titled for the team; `None` without a team. */
  function TeamImgRule(team: Value, images: seq<Img>): (v: Value)
    ensures team.Str? ==> v.Null? || (v.Str? && StartsWith(v.s, SiteRoot))
  {
    match team
    case Str(t) =>
      var found := First(images, (im: Img) => TitledFor(t, im));
      if found.Some? && found.value.src.Some? then
        var src := found.value.src.value;
        assert (SiteRoot + src)[..|SiteRoot|] == SiteRoot;
        Str(SiteRoot + src)
      else Null
    case _ => Null
  }

  /** Market Value: the stripped span text of the market value rectangle, with
      the ` \x80` artefact removed. */
  function MarketValueRule(page: Page): (v: Value)
    ensures v.Null? || v.Str?
  {
    match page.marketValue
    case Some(Rectangle(Some(ValueDiv(Some(t))))) => Str(Patterns.MarketValue(t))
    case _ => Null
  }

  /** `requests.compat.urljoin(base, href)`: the href resolved against the
      profile link, or `None` when `urljoin` raises (it refuses, for
      instance, an href with an unbalanced `[` in its host, `http://[x`). */
  type Join = (string, string) -> Option<string>

  /** Agent and agent link are written, and reset, together. */
  predicate Paired(p: (Value, Value)) {
    (p.0 == Null <==> p.1 == Null) && (p.0.Null? || p.0.Str?) && (p.1.Null? || p.1.Str?)
  }

  /** What the Agent loop does with one `bio` block: an `Agent` span followed
      by a link ends the loop, with the link's text and its `href` resolved
      against the profile link; a link without `href` raises and resets both. */
  function AgentStep(link: string, join: Join, b: Block): (step: Step<(Value, Value)>)
    ensures step.Pass? || Paired(step.value)
  {
    match b.agent
    case Some(Labelled(Some(a))) =>
      (match a.href
       case None => Stop((Null, Null))
       case Some(h) =>
         match join(link, h)
         case None => Stop((Null, Null))
         case Some(u) => Stop((StrippedText(a.text), Str(u))))
    case _ => Pass
  }

  /** Player Agent and Player Agent Link, as a pair. */
  function AgentRule(link: string, page: Page, join: Join): (r: (Value, Value))
    ensures Paired(r)
  {
    match page.profile
    case None => (Null, Null)
    case Some(p) =>
      var step := (b: Block) => AgentStep(link, join, b);
      SweepKeeps(p.bios, step, (Null, Null), Paired);
      Sweep(p.bios, step, (Null, Null))
  }

  /** A link the Instagram filter lets through. */
  predicate InstagramLink(l: Link) {
    l.href.Some? && Patterns.InstagramHref(l.href.value)
  }

  /** What the Instagram loop does with one `bio` block: a block that mentions
      `Other connections` either ends the loop with `@handle` or, when it has
      no usable link, resets the field and lets the loop go on. */
  function InstagramStep(b: Block): (step: Step<Value>)
    ensures step.Pass? || step.value.Null? || (step.value.Str? && step.value.s != [] && step.value.s[0] == '@')
  {
    if Contains(b.text, OtherConnections) then
      match First(b.links, InstagramLink)
      case None => Reset(Null)
      case Some(l) =>
        match Patterns.Handle(l.href.value)
        case None => Reset(Null)
        case Some(h) => Stop(Str(h))
    else Pass
  }

  /** Instagram. */
  function InstagramRule(page: Page): (v: Value)
    ensures v.Null? || (v.Str? && v.s != [] && v.s[0] == '@')
  {
    match page.profile
    case None => Null
    case Some(p) =>
      SweepKeeps(p.bios, InstagramStep, Null, (v: Value) => v.Null? || (v.Str? && v.s != [] && v.s[0] == '@'));
      Sweep(p.bios, InstagramStep, Null)
  }

  /** The dictionary `get_player_data` returns for an accepted link and its
      fetched page: each key holds what its own rule yields, Team img url
      reads Team, and the profile key keeps the link. */
  function Extract(link: string, page: Page, join: Join): (r: Record)
    ensures Get(r, PlaymakerStatsProfile) == Str(link)
  {
    var team := TeamRule(page);
    var agent := AgentRule(link, page, join);
    Record(
      playerId := PlayerIdRule(link), shortName := ShortNameRule(page),
      fullName := FullNameRule(page), team := team, age := AgeRule(page),
      birthDate := BirthDateRule(page), nationality := NationalityRule(page),
      citizenship := CitizenshipRule(page), position := PositionRule(page),
      foot := FootRule(page), heightCm := HeightRule(page),
      marketValue := MarketValueRule(page), contractExpires := ContractRule(page),
      playerAgent := agent.0, playerAgentLink := agent.1,
      playerImgUrl := PlayerImgRule(page), teamImgUrl := TeamImgRule(team, page.images),
      instagram := InstagramRule(page), profile := Str(link))
  }

  // ---------------------------------------------------------------- properties of the record

  lemma {:induction false} DistinctCount(xs: seq<Field>)
    requires forall i, j :: 0 <= i < j < |xs| ==> xs[i] != xs[j]
    ensures |set f | f in xs| == |xs|
  {
    if xs != [] {
      DistinctCount(xs[1..]);
      assert (set f | f in xs) == {xs[0]} + (set f | f in xs[1..]);
      assert xs[0] !in (set f | f in xs[1..]);
    }
  }

  /** The record has exactly 19 keys, and no two of them share a dictionary
      key. */
  lemma FieldCount()
    ensures forall f: Field :: f in Fields
    ensures |set f | f in Fields| == 19
    ensures forall f, g :: Key(f) == Key(g) ==> f == g
  {
    DistinctCount(Fields);
    AllListed();
  }

  /** Every link the validator accepts yields a Player ID of digits. */
  lemma AcceptedPlayerId(raw: string, page: Page, join: Join)
    requires ProfileUrl.Validate(raw).Ok?
    ensures var v := Extract(ProfileUrl.Validate(raw).value, page, join).playerId;
      v.Str? && v.s != [] && AllDigits(v.s)
  {
    ProfileUrl.AcceptedHasPlayerId(raw);
  }

  /** Without a team there is no team image; with one, the image is a link
      under the site root or `None`. */
  lemma TeamImgNeedsTeam(link: string, page: Page, join: Join)
    ensures var r := Extract(link, page, join);
      && (r.team == Null ==> r.teamImgUrl == Null)
      && (r.team.Str? ==> r.teamImgUrl.Null? || (r.teamImgUrl.Str? && StartsWith(r.teamImgUrl.s, SiteRoot)))
  {
  }

  /** The height is never 0: a parsed 0 becomes `None`. */
  lemma HeightNeverZero(link: string, page: Page, join: Join)
    ensures var v := Extract(link, page, join).heightCm;
      v.Null? || (v.Int? && v.n > 0)
  {
  }

  /** The agent and its link are both set or both `None`. */
  lemma AgentPaired(link: string, page: Page, join: Join)
    ensures var r := Extract(link, page, join);
      (r.playerAgent == Null <==> r.playerAgentLink == Null)
  {
  }

  /** The team image comes from the first image whose title contains the
      team's name. */
  lemma TeamImgOf(team: string, images: seq<Img>, i: nat)
    requires i < |images| && TitledFor(team, images[i])
    requires forall j :: 0 <= j < i ==> !TitledFor(team, images[j])
    ensures TeamImgRule(Str(team), images)
         == if images[i].src.Some? then Str(SiteRoot + images[i].src.value) else Null
  {
    var p := (im: Img) => TitledFor(team, im);
    var found := First(images, p);
    assert found == Some(images[i]) by {
      var k :| 0 <= k < |images| && images[k] == found.value && p(images[k]) && forall j :: 0 <= j < k ==> !p(images[j]);
      assert !(k < i) && !(k > i);
    }
  }

  /** No image titled for the team: no team image. */
  lemma TeamImgAbsent(team: string, images: seq<Img>)
    requires forall j :: 0 <= j < |images| ==> !TitledFor(team, images[j])
    ensures TeamImgRule(Str(team), images) == Null
  {
  }

  predicate HasAgentLink(b: Block) {
    b.agent.Some? && b.agent.value.sibling.Some?
  }

  /** The first `bio` block with an `Agent` span followed by a link decides
      both agent fields; a link without `href`, or one `urljoin` refuses,
      leaves both `None`. */
  lemma AgentFirst(link: string, page: Page, join: Join, i: nat)
    requires page.profile.Some? && i < |page.profile.value.bios|
    requires HasAgentLink(page.profile.value.bios[i])
    requires forall j :: 0 <= j < i ==> !HasAgentLink(page.profile.value.bios[j])
    ensures var a := page.profile.value.bios[i].agent.value.sibling.value;
      AgentRule(link, page, join)
        == if a.href.Some? && join(link, a.href.value).Some?
           then (StrippedText(a.text), Str(join(link, a.href.value).value))
           else (Null, Null)
  {
    var bios := page.profile.value.bios;
    var step := (b: Block) => AgentStep(link, join, b);
    forall j | 0 <= j < i ensures !step(bios[j]).Stop? {
      assert !HasAgentLink(bios[j]);
    }
    SweepFirstStop(bios, step, (Null, Null), i);
  }

  /** No `bio` block with an `Agent` span followed by a link: both agent
      fields are `None`. */
  lemma AgentAbsent(link: string, page: Page, join: Join)
    requires page.profile.Some?
    requires forall j :: 0 <= j < |page.profile.value.bios| ==> !HasAgentLink(page.profile.value.bios[j])
    ensures AgentRule(link, page, join) == (Null, Null)
  {
    var bios := page.profile.value.bios;
    var step := (b: Block) => AgentStep(link, join, b);
    forall j | 0 <= j < |bios| ensures step(bios[j]) == Pass {
      assert !HasAgentLink(bios[j]);
    }
    SweepNoStop(bios, step, (Null, Null));
  }

  predicate HasCitizenship(b: Block) {
    CitizenshipStep(b).Stop?
  }

  /** The first `bio_half` with a `Dual Nationality` text decides the
      citizenship. */
  lemma CitizenshipFirst(page: Page, i: nat, t: string)
    requires page.profile.Some? && i < |page.profile.value.bioHalves|
    requires page.profile.value.bioHalves[i].dualNationality == Some(Labelled(Some(Micrologo(Some(t)))))
    requires forall j :: 0 <= j < i ==> !HasCitizenship(page.profile.value.bioHalves[j])
    ensures CitizenshipRule(page) == Str(Trim(t))
  {
    SweepFirstStop(page.profile.value.bioHalves, CitizenshipStep, Null, i);
  }

  /** No `bio_half` with a `Dual Nationality` text: no citizenship. */
  lemma CitizenshipAbsent(page: Page)
    requires page.profile.Some?
    requires forall j :: 0 <= j < |page.profile.value.bioHalves| ==> !HasCitizenship(page.profile.value.bioHalves[j])
    ensures CitizenshipRule(page) == Null
  {
    var blocks := page.profile.value.bioHalves;
    forall j | 0 <= j < |blocks| ensures CitizenshipStep(blocks[j]) == Pass {
      assert !HasCitizenship(blocks[j]);
    }
    SweepNoStop(blocks, CitizenshipStep, Null);
  }

  /** No `bio_half` whose first span mentions `Preferred foot`: no foot. */
  lemma FootAbsent(page: Page)
    requires page.profile.Some?
    requires forall j :: 0 <= j < |page.profile.value.bioHalves| ==> !FootLabelled(page.profile.value.bioHalves[j])
    ensures FootRule(page) == Null
  {
    var blocks := page.profile.value.bioHalves;
    forall j | 0 <= j < |blocks| ensures FootStep(blocks[j]) == Pass {
      assert !FootLabelled(blocks[j]);
    }
    SweepNoStop(blocks, FootStep, Null);
  }

  /** The first `bio_half` whose first span mentions `Preferred foot` decides
      the foot. */
  lemma FootFirst(page: Page, i: nat)
    requires page.profile.Some? && i < |page.profile.value.bioHalves|
    requires FootStep(page.profile.value.bioHalves[i]).Stop?
    requires forall j :: 0 <= j < i ==> !FootStep(page.profile.value.bioHalves[j]).Stop?
    ensures var f := Patterns.FootText(page.profile.value.bioHalves[i].text);
      FootRule(page) == if f.Some? then Str(f.value) else Null
  {
    SweepFirstStop(page.profile.value.bioHalves, FootStep, Null, i);
  }

  /** The first `bio` block that mentions `Other connections` and holds an
      Instagram link with a handle decides the field; blocks before it that
      mention the label but fail only reset it. */
  lemma InstagramFirst(page: Page, i: nat, h: string)
    requires page.profile.Some? && i < |page.profile.value.bios|
    requires InstagramStep(page.profile.value.bios[i]) == Stop(Str(h))
    requires forall j :: 0 <= j < i ==> !InstagramStep(page.profile.value.bios[j]).Stop?
    ensures InstagramRule(page) == Str(h)
  {
    SweepFirstStop(page.profile.value.bios, InstagramStep, Null, i);
  }

  /** No `bio` block yields a handle: blocks that mention `Other connections`
      only reset the field, so it ends `None`. */
  lemma InstagramAbsent(page: Page)
    requires page.profile.Some?
    requires forall j :: 0 <= j < |page.profile.value.bios| ==> !InstagramStep(page.profile.value.bios[j]).Stop?
    ensures InstagramRule(page) == Null
  {
    var blocks := page.profile.value.bios;
    forall j | 0 <= j < |blocks| ensures InstagramStep(blocks[j]) == Pass || InstagramStep(blocks[j]) == Reset(Null) {
      assert !InstagramStep(blocks[j]).Stop?;
    }
    SweepNoStop(blocks, InstagramStep, Null);
  }

  /** A block that mentions `Other connections` and whose first Instagram
      link is `https://www.instagram.com/<handle>` gives `@<handle>`. */
  lemma InstagramStepOf(b: Block, i: nat, h: string)
    requires Contains(b.text, OtherConnections)
    requires i < |b.links| && b.links[i].href == Some("https://www.instagram.com/" + h)
    requires h != [] && '/' !in h
    requires forall j :: 0 <= j < i ==> !InstagramLink(b.links[j])
    ensures InstagramStep(b) == Stop(Str("@" + h))
  {
    Patterns.HandleOfAddress(h);
    assert InstagramLink(b.links[i]);
    var found := First(b.links, InstagramLink);
    assert found == Some(b.links[i]) by {
      var k :| 0 <= k < |b.links| && b.links[k] == found.value && InstagramLink(b.links[k])
        && forall j :: 0 <= j < k ==> !InstagramLink(b.links[j]);
      assert !(k < i) && !(k > i);
    }
  }

  /** Without the profile box the block lists and the contract label do not
      exist: every rule that reads them leaves its key `None`. */
  lemma ProfileMissing(link: string, page: Page, join: Join)
    requires page.profile.None?
    ensures var r := Extract(link, page, join);
      && r.foot == Null && r.citizenship == Null && r.contractExpires == Null
      && r.playerAgent == Null && r.playerAgentLink == Null && r.instagram == Null
  {
  }

  /** The title reaches only Team and Team img url: any other title leaves
      every other key as it was. */
  lemma TitleReach(link: string, page: Page, join: Join, title: Option<string>)
    ensures forall k :: k != Team && k != TeamImgUrl ==>
      Get(Extract(link, page.(title := title), join), k) == Get(Extract(link, page, join), k)
  {
    var other := page.(title := title);
    var r := Extract(link, page, join);
    assert Extract(link, other, join) == r.(team := TeamRule(other), teamImgUrl := TeamImgRule(TeamRule(other), other.images)) by {
      assert ShortNameRule(other) == ShortNameRule(page);
      assert FullNameRule(other) == FullNameRule(page);
      assert AgeRule(other) == AgeRule(page);
      assert BirthDateRule(other) == BirthDateRule(page);
      assert NationalityRule(other) == NationalityRule(page);
      assert CitizenshipRule(other) == CitizenshipRule(page);
      assert PositionRule(other) == PositionRule(page);
      assert FootRule(other) == FootRule(page);
      assert HeightRule(other) == HeightRule(page);
      assert MarketValueRule(other) == MarketValueRule(page);
      assert ContractRule(other) == ContractRule(page);
      assert AgentRule(link, other, join) == AgentRule(link, page, join);
      assert PlayerImgRule(other) == PlayerImgRule(page);
      assert InstagramRule(other) == InstagramRule(page);
    }
  }

  /** The ld+json text reaches only the image and the height, and without it
      both are `None`. */
  lemma LdJsonReach(link: string, page: Page, join: Join, ld: Option<string>)
    ensures forall k :: k != PlayerImgUrl && k != HeightCm ==>
      Get(Extract(link, page.(ldJson := ld), join), k) == Get(Extract(link, page, join), k)
    ensures ld.None? ==> Extract(link, page.(ldJson := ld), join).playerImgUrl == Null
    ensures ld.None? ==> Extract(link, page.(ldJson := ld), join).heightCm == Null
  {
    var other := page.(ldJson := ld);
    var r := Extract(link, page, join);
    assert Extract(link, other, join) == r.(playerImgUrl := PlayerImgRule(other), heightCm := HeightRule(other)) by {
      assert ShortNameRule(other) == ShortNameRule(page);
      assert FullNameRule(other) == FullNameRule(page);
      assert TeamRule(other) == TeamRule(page);
      assert AgeRule(other) == AgeRule(page);
      assert BirthDateRule(other) == BirthDateRule(page);
      assert NationalityRule(other) == NationalityRule(page);
      assert CitizenshipRule(other) == CitizenshipRule(page);
      assert PositionRule(other) == PositionRule(page);
      assert FootRule(other) == FootRule(page);
      assert MarketValueRule(other) == MarketValueRule(page);
      assert ContractRule(other) == ContractRule(page);
      assert AgentRule(link, other, join) == AgentRule(link, page, join);
      assert InstagramRule(other) == InstagramRule(page);
    }
  }
}
