/** The fetched profile page, reduced to what the extraction rules look at.
    HTML parsing is not modelled: each field holds the answer that one of the
    rules' `find` / `find_all` / `find_next_sibling` calls gives on the page,
    and `None` where that call finds nothing. */
module Page {
  import opened Text

  /** An `<a>` element: its `href` attribute, if it has one, and its text. */
  datatype Link = Link(href: Option<string>, text: string)

  /** An `<img>` element: its `title` and `src` attributes, where present. */
  datatype Img = Img(title: Option<string>, src: Option<string>)

  /** The node that follows a span: a text node or some element. */
  datatype Node = TextNode(text: string) | Element

  /** A `div.micrologo_and_text`, with the text of its inner `div.text`. */
  datatype Micrologo = Micrologo(textDiv: Option<string>)

  /** A label `span` found in a block, with the sibling the rule looks for
      after it. */
  datatype Labelled<T> = Labelled(sibling: Option<T>)

  /** A `div.bio_half` or `div.bio` block of the profile. */
  datatype Block = Block(
    firstSpan: Option<string>,                // text of its first `span`
    text: string,                             // its whole text
    bornAge: Option<Labelled<string>>,        // span `Born/Age`, next text sibling
    small: Option<string>,                    // text of its `span.small`
    micrologo: Option<Micrologo>,             // its first `div.micrologo_and_text`
    dualNationality: Option<Labelled<Micrologo>>, // span `Dual Nationality`, next micrologo
    agent: Option<Labelled<Link>>,            // span `Agent`, next `<a>`
    links: seq<Link>)                         // its `<a>` elements, in document order

  /** The `div.rbbox nofooter` profile box. */
  datatype Profile = Profile(
    bioHalves: seq<Block>,                    // its `div.bio_half` blocks
    bios: seq<Block>,                         // its `div.bio` blocks
    contract: Option<Labelled<Node>>)         // span.label `Contract`, next sibling

  /** The `span` inside the `div.value` of the market value rectangle. */
  datatype ValueDiv = ValueDiv(span: Option<string>)

  /** The `div.rectangle` titled `Market value`. */
  datatype Rectangle = Rectangle(valueDiv: Option<ValueDiv>)

  datatype Page = Page(
    profile: Option<Profile>,
    playerName: Option<Option<string>>,       // `div.player_name`, text of its first span
    firstBioHalf: Option<Block>,              // the first `div.bio_half` of the page
    title: Option<string>,                    // text of `<title>`
    metaDescription: Option<string>,          // `content` of `meta[name=description]`
    position: Option<Labelled<seq<string>>>,  // span `Position`, cells of the next `tr`
    ldJson: Option<string>,                   // text of the ld+json script
    images: seq<Img>,                         // the page's `<img>` elements
    marketValue: Option<Rectangle>)
}
