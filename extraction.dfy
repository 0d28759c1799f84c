/**
 * Section parsing (`parseSection` in scrape.js, `parse_section` in main.py) as a
 * specification: which element yields which article, how duplicates are dropped,
 * and which selector's matches make up the result.
 */
module Extraction {
  import opened Wrappers
  import opened Text
  import opened Dom
  import opened ImageUrl

  /** One scraped article. `imageUrl` is None when no image was resolved. */
  datatype Article = Article(
    title: string,
    url: string,
    summary: string,
    imageUrl: Option<string>,
    section: string,
    date: string)

  /** What every collected article satisfies. */
  predicate WellFormed(a: Article, section: string, date: string) {
    && a.title != [] && !IsSpace(a.title[0]) && !IsSpace(a.title[|a.title| - 1])
    && StartsWith(a.url, "http")
    && (a.imageUrl.Some? ==> StartsWith(a.imageUrl.value, "http"))
    && a.section == section && a.date == date
  }

  /** The article's own link: absolute links pass, anything else gets the site's origin. */
  function NormalizeArticleUrl(href: string): (r: string)
    ensures StartsWith(r, "http") && EndsWith(r, href)
    ensures r == href <==> StartsWith(href, "http")
    ensures !StartsWith(href, "http") ==> r == BaseOrigin + href
  {
    if StartsWith(href, "http") then href
    else
      assert |BaseOrigin + href| > |href|;
      BaseOrigin + href
  }

  /** Normalising an already normalised article link changes nothing. */
  lemma NormalizeArticleUrlIdempotent(href: string)
    ensures NormalizeArticleUrl(NormalizeArticleUrl(href)) == NormalizeArticleUrl(href)
  {
  }

  /** The element has a title link with non-blank text and a non-empty `href`. */
  predicate HasLink(e: Element) {
    e.title.Some? && Trim(e.title.value.text) != [] && e.title.value.href.Some? && e.title.value.href.value != []
  }

  /** The trimmed summary text, or the empty string when the element has no summary node. */
  function SummaryText(e: Element): string {
    if e.summary.Some? then Trim(e.summary.value) else ""
  }

  /** The article an element yields, before deduplication; None for an element without a usable link. */
  function BuildArticle(e: Element, section: string, date: string): (r: Option<Article>)
    ensures r.Some? <==> HasLink(e)
    ensures r.Some? ==> WellFormed(r.value, section, date) && r.value.title == Trim(e.title.value.text)
    ensures r.Some? ==>
      && r.value.url == NormalizeArticleUrl(e.title.value.href.value)
      && r.value.summary == SummaryText(e)
      && r.value.imageUrl == NormalizeImageUrl(ResolveImageUrl(e))
  {
    if !HasLink(e) then None
    else
      var title := Trim(e.title.value.text);
      TrimEnds(e.title.value.text);
      Some(Article(
        title,
        NormalizeArticleUrl(e.title.value.href.value),
        SummaryText(e),
        NormalizeImageUrl(ResolveImageUrl(e)),
        section,
        date))
  }

  /** `articles.some(a => a.title === title)`. */
  predicate HasTitle(articles: seq<Article>, title: string) {
    exists i :: 0 <= i < |articles| && articles[i].title == title
  }

  predicate UniqueTitles(articles: seq<Article>) {
    forall i, j :: 0 <= i < j < |articles| ==> articles[i].title != articles[j].title
  }

  /** Processing one element's article: append it unless there is none or its title is taken. */
  function Step(articles: seq<Article>, b: Option<Article>): seq<Article> {
    if b.Some? && !HasTitle(articles, b.value.title) then articles + [b.value] else articles
  }

  /** Keeps the first article of every title, in order. */
  function Dedup(built: seq<Option<Article>>): (r: seq<Article>)
    ensures forall i :: 0 <= i < |r| ==> Some(r[i]) in built
    ensures UniqueTitles(r)
    ensures |r| <= |built|
    decreases |built|
  {
    if built == [] then []
    else Step(Dedup(built[..|built| - 1]), built[|built| - 1])
  }

  /** The article each element yields, element by element. */
  function Built(es: seq<Element>, section: string, date: string): (r: seq<Option<Article>>)
    ensures |r| == |es| && forall i :: 0 <= i < |es| ==> r[i] == BuildArticle(es[i], section, date)
  {
    seq(|es|, i requires 0 <= i < |es| => BuildArticle(es[i], section, date))
  }

  /** The articles that one selector's matches yield, in document order. */
  function Extract(es: seq<Element>, section: string, date: string): (r: seq<Article>)
    ensures forall i :: 0 <= i < |r| ==> WellFormed(r[i], section, date)
    ensures UniqueTitles(r)
    ensures |r| <= |es|
  {
    var built := Built(es, section, date);
    var r := Dedup(built);
    assert forall i :: 0 <= i < |r| ==> WellFormed(r[i], section, date) by {
      forall i | 0 <= i < |r| ensures WellFormed(r[i], section, date) {
        var j :| 0 <= j < |built| && built[j] == Some(r[i]);
        assert BuildArticle(es[j], section, date) == Some(r[i]);
      }
    }
    r
  }

  /** Extracting one more element is one more Step. */
  lemma DedupBuiltStep(es: seq<Element>, j: nat, section: string, date: string)
    requires j < |es|
    ensures Dedup(Built(es[..j + 1], section, date))
      == Step(Dedup(Built(es[..j], section, date)), BuildArticle(es[j], section, date))
  {
    var b := Built(es[..j + 1], section, date);
    assert b[..j] == Built(es[..j], section, date);
  }

  /** The built article carries this title. */
  predicate Titled(b: Option<Article>, title: string) {
    b.Some? && b.value.title == title
  }

  /** The articles of a prefix come first, unchanged: articles are only ever appended. */
  lemma {:induction false} DedupPrefix(built: seq<Option<Article>>, k: nat)
    requires k <= |built|
    ensures var p := Dedup(built[..k]);
      var r := Dedup(built);
      |p| <= |r| && r[..|p|] == p
    decreases |built|
  {
    if k < |built| {
      DedupPrefix(built[..|built| - 1], k);
      assert built[..|built| - 1][..k] == built[..k];
    } else {
      assert built[..k] == built;
    }
  }

  /** A title is taken after `built` exactly when some entry of `built` carries it. */
  lemma {:induction false} DedupTitles(built: seq<Option<Article>>)
    ensures forall t :: HasTitle(Dedup(built), t) <==>
      exists j :: 0 <= j < |built| && Titled(built[j], t)
    decreases |built|
  {
    if built != [] {
      var init := built[..|built| - 1];
      var b := built[|built| - 1];
      var prev := Dedup(init);
      DedupTitles(init);
      forall t
        ensures HasTitle(Dedup(built), t) <==> exists j :: 0 <= j < |built| && Titled(built[j], t)
      {
        if exists j :: 0 <= j < |init| && Titled(init[j], t) {
          var j :| 0 <= j < |init| && Titled(init[j], t);
          assert built[j] == init[j];
        }
        if exists j :: 0 <= j < |built| && Titled(built[j], t) {
          var j :| 0 <= j < |built| && Titled(built[j], t);
          if j < |init| { assert init[j] == built[j]; }
        }
        if b.Some? && !HasTitle(prev, b.value.title) {
          assert Dedup(built) == prev + [b.value];
          if b.value.title == t {
            assert (prev + [b.value])[|prev|].title == t;
          }
          if HasTitle(prev + [b.value], t) && b.value.title != t {
            var i :| 0 <= i < |prev| + 1 && (prev + [b.value])[i].title == t;
            assert prev[i].title == t;
          }
          if HasTitle(prev, t) {
            var i :| 0 <= i < |prev| && prev[i].title == t;
            assert (prev + [b.value])[i].title == t;
          }
        }
      }
    }
  }

  /** `built[j]` is the first entry carrying its article's title. */
  predicate FirstOfTitle(built: seq<Option<Article>>, j: int, a: Article) {
    && 0 <= j < |built| && built[j] == Some(a)
    && forall j' :: 0 <= j' < j ==> !Titled(built[j'], a.title)
  }

  /** An article is kept exactly when it is the first entry with its title. */
  lemma {:induction false} DedupKeepsFirstOccurrences(built: seq<Option<Article>>)
    ensures forall a :: a in Dedup(built) <==> exists j :: FirstOfTitle(built, j, a)
    decreases |built|
  {
    if built != [] {
      var init := built[..|built| - 1];
      var b := built[|built| - 1];
      var prev := Dedup(init);
      DedupKeepsFirstOccurrences(init);
      DedupTitles(init);
      forall a
        ensures a in Dedup(built) <==> exists j :: FirstOfTitle(built, j, a)
      {
        FirstOfTitleExtends(built, a);
        if b.Some? && !HasTitle(prev, b.value.title) {
          assert Dedup(built) == prev + [b.value];
          if a in prev {
            var i :| 0 <= i < |prev| && prev[i] == a;
            assert HasTitle(prev, a.title);
          }
        }
      }
    }
  }

  /** First occurrences in `built` are those of its initial part, plus possibly its last entry. */
  lemma FirstOfTitleExtends(built: seq<Option<Article>>, a: Article)
    requires built != []
    ensures var init := built[..|built| - 1];
      && ((exists j :: FirstOfTitle(init, j, a)) ==> (exists j :: FirstOfTitle(built, j, a)))
      && ((exists j :: FirstOfTitle(init, j, a)) ==> exists j :: 0 <= j < |init| && Titled(init[j], a.title))
      && ((exists j :: FirstOfTitle(built, j, a)) ==>
            (exists j :: FirstOfTitle(init, j, a)) ||
            (built[|built| - 1] == Some(a) && forall j :: 0 <= j < |init| ==> !Titled(init[j], a.title)))
      && (built[|built| - 1] == Some(a) && (forall j :: 0 <= j < |init| ==> !Titled(init[j], a.title)) ==>
            FirstOfTitle(built, |built| - 1, a))
  {
    var init := built[..|built| - 1];
    if exists j :: FirstOfTitle(init, j, a) {
      var j :| FirstOfTitle(init, j, a);
      assert forall j' :: 0 <= j' <= j ==> built[j'] == init[j'];
      assert FirstOfTitle(built, j, a);
      assert Titled(init[j], a.title);
    }
    if exists j :: FirstOfTitle(built, j, a) {
      var j :| FirstOfTitle(built, j, a);
      if j < |init| {
        assert forall j' :: 0 <= j' <= j ==> built[j'] == init[j'];
        assert FirstOfTitle(init, j, a);
      }
    }
    if built[|built| - 1] == Some(a) && (forall j :: 0 <= j < |init| ==> !Titled(init[j], a.title)) {
      assert forall j :: 0 <= j < |init| ==> built[j] == init[j];
    }
  }

  /**
   * Extracting a selector's matches keeps an article exactly when some element
   * yields it and no earlier element yields one with the same title.
   */
  lemma ExtractKeepsFirstOccurrences(es: seq<Element>, section: string, date: string)
    ensures forall a :: a in Extract(es, section, date) <==>
      exists j :: FirstOfTitle(Built(es, section, date), j, a)
  {
    DedupKeepsFirstOccurrences(Built(es, section, date));
  }

  /** An element that has a usable link makes its selector yield. */
  lemma LinkYields(es: seq<Element>, j: int, section: string, date: string)
    requires 0 <= j < |es| && HasLink(es[j])
    ensures Extract(es, section, date) != []
  {
    var built := Built(es, section, date);
    assert Extract(es, section, date) == Dedup(built);
    DedupTitles(built);
    assert built[j].Some?;
    var t := built[j].value.title;
    assert Titled(built[j], t);
    assert HasTitle(Dedup(built), t);
  }

  /** A selector that yields has a match with a usable link. */
  lemma YieldHasLink(es: seq<Element>, section: string, date: string) returns (j: int)
    requires Extract(es, section, date) != []
    ensures 0 <= j < |es| && HasLink(es[j])
  {
    var built := Built(es, section, date);
    var r := Dedup(built);
    assert r != [];
    var t := r[0].title;
    assert exists k :: 0 <= k < |built| && Titled(built[k], t) by {
      assert HasTitle(r, t);
      DedupTitles(built);
    }
    j :| 0 <= j < |built| && Titled(built[j], t);
    assert built[j] == BuildArticle(es[j], section, date);
  }

  /** If every match of one selector is a match of another, the other yields whenever the first does. */
  lemma WiderSelectorYields(narrow: seq<Element>, wide: seq<Element>, section: string, date: string)
    requires forall e :: e in narrow ==> e in wide
    requires Extract(narrow, section, date) != []
    ensures Extract(wide, section, date) != []
  {
    var j := YieldHasLink(narrow, section, date);
    assert narrow[j] in wide;
    var i :| 0 <= i < |wide| && wide[i] == narrow[j];
    LinkYields(wide, i, section, date);
  }

  /** The articles selector `k` yields on `page`. */
  function Yield(page: Page, k: nat, section: string, date: string): seq<Article>
    requires k < |Selectors|
  {
    Extract(Select(page, Selectors[k]), section, date)
  }

  /**
   * The first of the first `n` selectors that yields at least one article.
   * (Counting up to `n` rather than from a start index keeps the verifier from
   * unrolling the search over the literal selector list.)
   */
  function FirstYielding(page: Page, section: string, date: string, n: nat): (k: Option<nat>)
    requires n <= |Selectors|
    ensures k.Some? ==>
      && k.value < n && Yield(page, k.value, section, date) != []
      && forall k' :: 0 <= k' < k.value ==> Yield(page, k', section, date) == []
    ensures k.None? ==> forall k' :: 0 <= k' < n ==> Yield(page, k', section, date) == []
  {
    if n == 0 then None
    else
      match FirstYielding(page, section, date, n - 1)
      case Some(k) => Some(k)
      case None => if Yield(page, n - 1, section, date) != [] then Some(n - 1) else None
  }

  /**
   * The result of trying the first `n` selectors in order: the articles of the
   * first one that yields any, or nothing.
   */
  function ParseFrom(page: Page, section: string, date: string, n: nat): (r: seq<Article>)
    requires n <= |Selectors|
    ensures forall i :: 0 <= i < |r| ==> WellFormed(r[i], section, date)
    ensures UniqueTitles(r)
  {
    if n == 0 then []
    else
      var earlier := ParseFrom(page, section, date, n - 1);
      if earlier != [] then earlier else Yield(page, n - 1, section, date)
  }

  /** The result of parsing a section page: the articles of the first selector that yields any. */
  function ParseSpec(page: Page, section: string, date: string): (r: seq<Article>)
    ensures forall i :: 0 <= i < |r| ==> WellFormed(r[i], section, date)
    ensures UniqueTitles(r)
  {
    ParseFrom(page, section, date, |Selectors|)
  }

  /** Trying selectors in order gives what the first yielding selector yields. */
  lemma {:induction false} ParseFromFirstYielding(page: Page, section: string, date: string, n: nat)
    requires n <= |Selectors|
    ensures ParseFrom(page, section, date, n) ==
      match FirstYielding(page, section, date, n)
      case None => []
      case Some(k) => Yield(page, k, section, date)
  {
    if n > 0 {
      var earlier := ParseFrom(page, section, date, n - 1);
      var first := FirstYielding(page, section, date, n - 1);
      ParseFromFirstYielding(page, section, date, n - 1);
      if first.Some? {
        assert earlier == Yield(page, first.value, section, date) && earlier != [];
        assert FirstYielding(page, section, date, n) == first;
      } else {
        assert earlier == [];
      }
    }
  }

  /** Once some selector has yielded, trying further selectors changes nothing. */
  lemma {:induction false} ParseFromExtends(page: Page, section: string, date: string, n: nat, m: nat)
    requires n <= m <= |Selectors|
    requires ParseFrom(page, section, date, n) != []
    ensures ParseFrom(page, section, date, m) == ParseFrom(page, section, date, n)
    decreases m
  {
    if m > n {
      ParseFromExtends(page, section, date, n, m - 1);
    }
  }

  /**
   * The result is empty exactly when no selector yields an article, and otherwise
   * it is exactly what the first yielding selector yields: no merging across selectors.
   */
  lemma ParseUsesFirstYieldingSelector(page: Page, section: string, date: string)
    ensures var r := ParseSpec(page, section, date);
      && (r == [] <==> forall k :: 0 <= k < |Selectors| ==> Yield(page, k, section, date) == [])
      && (r != [] ==> exists k :: (0 <= k < |Selectors| && r == Yield(page, k, section, date)
            && forall k' :: 0 <= k' < k ==> Yield(page, k', section, date) == []))
  {
    ParseFromFirstYielding(page, section, date, |Selectors|);
  }

  /** A page on which no selector matches anything parses to no articles. */
  lemma NoMatchesParsesEmpty(page: Page, section: string, date: string)
    requires forall k :: 0 <= k < |Selectors| ==> Select(page, Selectors[k]) == []
    ensures ParseSpec(page, section, date) == []
  {
    ParseFromFirstYielding(page, section, date, |Selectors|);
    forall k | 0 <= k < |Selectors|
      ensures Yield(page, k, section, date) == []
    {
      assert Select(page, Selectors[k]) == [];
    }
  }

  /**
   * `.box.story` and `.story-list article` are never the selector that decides
   * the result: whatever they match, `.story` or `article` matches too, earlier.
   */
  lemma TrailingSelectorsNeverChosen(page: Page, section: string, date: string)
    requires CssConsistent(page)
    ensures var k := FirstYielding(page, section, date, |Selectors|); k.None? || k.value < 3
  {
    var k := FirstYielding(page, section, date, |Selectors|);
    if k.Some? && k.value == 3 {
      assert Yield(page, 3, section, date) == Extract(Select(page, ".box.story"), section, date);
      assert Yield(page, 1, section, date) == Extract(Select(page, ".story"), section, date);
      WiderSelectorYields(Select(page, ".box.story"), Select(page, ".story"), section, date);
    } else if k.Some? && k.value == 4 {
      assert Yield(page, 4, section, date) == Extract(Select(page, ".story-list article"), section, date);
      assert Yield(page, 2, section, date) == Extract(Select(page, "article"), section, date);
      WiderSelectorYields(Select(page, ".story-list article"), Select(page, "article"), section, date);
    }
  }
}
