/**
 * What the scraper reads from a rendered newspaper page, with the HTML library
 * (Cheerio in JavaScript, BeautifulSoup in Python) abstracted away: a page answers
 * a CSS selector with the elements it matches, in document order, and each matched
 * element is reduced to the parts the extraction looks at.
 */
module Dom {
  import opened Wrappers

  /** The attributes of one tag, by name. */
  type Attrs = map<string, string>

  /** A `<picture>` element: the attributes of its first `<source>`, when it has one. */
  datatype Picture = Picture(source: Option<Attrs>)

  /**
   * The first node matching `h2 a, .story__title a, h3 a, .story__link` inside an
   * article: its text as the HTML library extracts it, and its `href` attribute.
   */
  datatype TitleLink = TitleLink(text: string, href: Option<string>)

  /**
   * One matched article container: its first descendant `<img>` (by attributes),
   * its first `<picture>`, its title link, and the text of its first
   * `.story__excerpt, .story__text, p` node.
   */
  datatype Element = Element(
    img: Option<Attrs>,
    picture: Option<Picture>,
    title: Option<TitleLink>,
    summary: Option<string>)

  /** A rendered page: the elements each selector matches, in document order. */
  datatype Page = Page(matches: map<string, seq<Element>>)

  /** The article-container selectors, most specific first. */
  const Selectors: seq<string> := ["article.story", ".story", "article", ".box.story", ".story-list article"]

  /** `$(selector)` / `soup.select(selector)`: a selector the page does not answer matches nothing. */
  function Select(page: Page, selector: string): seq<Element> {
    if selector in page.matches then page.matches[selector] else []
  }

  /** `tag.attr(name)` / `tag.get(name)` on an optional tag. */
  function Attr(tag: Option<Attrs>, name: string): Option<string> {
    if tag.Some? && name in tag.value then Some(tag.value[name]) else None
  }

  /**
   * What CSS guarantees about the selectors' answers on any document: an element
   * with classes `box` and `story` has class `story`, and an `article` inside a
   * `.story-list` is an `article`.
   */
  ghost predicate CssConsistent(page: Page) {
    && (forall e :: e in Select(page, ".box.story") ==> e in Select(page, ".story"))
    && (forall e :: e in Select(page, ".story-list article") ==> e in Select(page, "article"))
  }
}
