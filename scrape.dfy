/**
 * The JavaScript scraper (src/utilities/scrape.js): section parsing as the nested
 * loops it is written as, and the `DawnScraper` object with its browser handle,
 * page fetch with one retry, day scrape and archive summary.
 */
module Scrape {
  import opened Wrappers
  import opened Text
  import opened Dom
  import opened ImageUrl
  import opened Extraction
  import opened Archive

  /** The pause after each successfully scraped section, in milliseconds. */
  const DelayMs: nat := 2000

  /**
   * The `elements.each` callback of `parseSection`: extract the title, link,
   * summary and image of one element and append its article unless it lacks a
   * title or link or its title is already collected.
   */
  method VisitElement(articles: seq<Article>, el: Element, section: string, date: string)
    returns (articles': seq<Article>)
    ensures articles' == Step(articles, BuildArticle(el, section, date))
  {
    var title := if el.title.Some? then Trim(el.title.value.text) else "";
    var url := if el.title.Some? then el.title.value.href else None;
    var summary := if el.summary.Some? then Trim(el.summary.value) else "";
    var rawImage := ResolveImageUrl(el);
    var imageUrl: Option<string> := None;
    if rawImage.Some? && rawImage.value != [] {
      if StartsWith(rawImage.value, "//") {
        imageUrl := Some("https:" + rawImage.value);
      } else if StartsWith(rawImage.value, "http") {
        imageUrl := rawImage;
      } else {
        imageUrl := Some(BaseOrigin + rawImage.value);
      }
    }
    assert imageUrl == NormalizeImageUrl(rawImage);
    articles' := articles;
    if title != [] && url.Some? && url.value != [] && !HasTitle(articles, title) {
      var article := Article(
        title,
        if StartsWith(url.value, "http") then url.value else BaseOrigin + url.value,
        summary,
        imageUrl,
        section,
        date);
      assert BuildArticle(el, section, date) == Some(article);
      articles' := articles + [article];
    }
  }

  /**
   * `parseSection`: try the selectors in order, collect the articles of each
   * matched element, and stop at the first selector that collected any.
   */
  method ParseSection(page: Page, section: string, date: string) returns (articles: seq<Article>)
    ensures articles == ParseSpec(page, section, date)
  {
    articles := [];
    var i := 0;
    while i < |Selectors|
      invariant 0 <= i <= |Selectors|
      invariant articles == []
      invariant ParseFrom(page, section, date, i) == []
    {
      var elements := Select(page, Selectors[i]);
      if |elements| == 0 {
        i := i + 1;
        continue;
      }
      var j := 0;
      while j < |elements|
        invariant 0 <= j <= |elements|
        invariant articles == Dedup(Built(elements[..j], section, date))
      {
        DedupBuiltStep(elements, j, section, date);
        articles := VisitElement(articles, elements[j], section, date);
        j := j + 1;
      }
      assert elements[..j] == elements;
      if |articles| > 0 {
        ParseFromExtends(page, section, date, i + 1, |Selectors|);
        break;
      }
      i := i + 1;
    }
  }

  class DawnScraper {
    /** The handle of the running headless browser, if one is held (`this.browser`). */
    var browser: Option<nat>
    /** How many browser processes have been launched. */
    var launches: nat
    /** How many browser processes have been closed. */
    var closes: nat
    /** Pages (tabs) currently open. */
    var openPages: nat
    /** Every navigation (`page.goto`) and every politeness delay (`sleep`), in order. */
    var trace: seq<Event>
    /** The archive file on disk: absent, unparseable, or a parsed archive. */
    var archiveFile: Option<Stored>

    constructor (disk: Option<Stored>)
      ensures browser == None && launches == 0 && closes == 0 && openPages == 0
      ensures trace == [] && archiveFile == disk
    {
      browser := None;
      launches := 0;
      closes := 0;
      openPages := 0;
      trace := [];
      archiveFile := disk;
    }

    /** `initBrowser`: launch only when no browser is held; return the held one. */
    method InitBrowser() returns (handle: nat)
      modifies this`browser, this`launches
      ensures browser == Some(handle)
      ensures old(browser).Some? ==> handle == old(browser).value && launches == old(launches)
      ensures old(browser).None? ==> launches == old(launches) + 1
    {
      if browser.None? {
        browser := Some(launches);
        launches := launches + 1;
      }
      handle := browser.value;
    }

    /** `closeBrowser`: close the held browser, if any, and forget the handle. */
    method CloseBrowser()
      modifies this`browser, this`closes
      ensures browser == None
      ensures closes == old(closes) + (if old(browser).Some? then 1 else 0)
    {
      if browser.Some? {
        closes := closes + 1;
        browser := None;
      }
    }

    /**
     * `fetchPage`: open a page, navigate, retry once on failure, and close the
     * page whether the fetch succeeds or fails; None stands for the thrown error.
     */
    method FetchPage(url: string, site: Site) returns (page: Option<Page>)
      modifies this`browser, this`launches, this`openPages, this`trace
      ensures page == FetchOutcome(site, url)
      ensures trace == old(trace) + Attempts(site, url)
      ensures openPages == old(openPages)
      ensures browser.Some?
      ensures old(browser).Some? ==> browser == old(browser) && launches == old(launches)
      ensures old(browser).None? ==> launches == old(launches) + 1
    {
      var handle := InitBrowser();
      openPages := openPages + 1;
      trace := trace + [Visit(url)];
      var nav := site(url, 1);
      if nav.NavError? {
        trace := trace + [Visit(url)];
        nav := site(url, 2);
        if nav.NavError? {
          openPages := openPages - 1;
          return None;
        }
      }
      page := Some(nav.page);
      openPages := openPages - 1;
    }

    /** `saveArchive`: the file is replaced by the archive. */
    method SaveArchive(day: DayArchive)
      modifies this`archiveFile
      ensures archiveFile == Some(Parsed(day))
    {
      archiveFile := Some(Parsed(day));
    }

    /**
     * One section of a day: fetch it, parse it into the archive entry, and pause
     * after a successful fetch; a failed fetch leaves the section empty.
     */
    method ScrapeSection(entries: seq<SectionEntry>, section: string, date: string, site: Site)
      returns (entries': seq<SectionEntry>)
      requires browser.Some?
      modifies this`browser, this`launches, this`openPages, this`trace
      ensures entries' == Put(entries, section, SectionResult(site, section, date))
      ensures trace == old(trace) + SectionEvents(site, section, date, DelayMs)
      ensures browser == old(browser) && launches == old(launches) && openPages == old(openPages)
    {
      var url := SectionUrl(section, date);
      var page := FetchPage(url, site);
      if page.Some? {
        var articles := ParseSection(page.value, section, date);
        entries' := Put(entries, section, articles);
        trace := trace + [Pause(DelayMs)];
      } else {
        entries' := Put(entries, section, []);
      }
    }

    /** The loop over the sections of a day, each scraped in turn on the open browser. */
    method ScrapeSections(names: seq<string>, date: string, site: Site) returns (entries: seq<SectionEntry>)
      requires browser.Some?
      modifies this`browser, this`launches, this`openPages, this`trace
      ensures entries == ScrapeEntries(site, date, names, |names|)
      ensures trace == old(trace) + DayTrace(site, date, names, |names|, DelayMs)
      ensures browser == old(browser) && launches == old(launches) && openPages == old(openPages)
    {
      entries := [];
      var i := 0;
      while i < |names|
        invariant 0 <= i <= |names|
        invariant entries == ScrapeEntries(site, date, names, i)
        invariant trace == old(trace) + DayTrace(site, date, names, i, DelayMs)
        invariant browser == old(browser) && launches == old(launches) && openPages == old(openPages)
      {
        ghost var before := trace;
        entries := ScrapeSection(entries, names[i], date, site);
        TraceStep(old(trace), before, trace, site, date, names, i, DelayMs);
        ScrapeEntriesStep(site, date, names, i);
        i := i + 1;
      }
    }

    /**
     * The body of `scrapeDay` over a list of sections: start the browser once,
     * scrape every section in order (a failed fetch files `[]`), close the
     * browser once, and save the archive.
     */
    method ScrapeDayOver(names: seq<string>, date: string, site: Site) returns (day: DayArchive)
      modifies this
      ensures day == DayArchive(date, ScrapeEntries(site, date, names, |names|))
      ensures archiveFile == Some(Parsed(day))
      ensures browser == None
      ensures launches == old(launches) + (if old(browser).None? then 1 else 0)
      ensures closes == old(closes) + 1
      ensures trace == old(trace) + DayTrace(site, date, names, |names|, DelayMs)
      ensures openPages == old(openPages)
    {
      var _ := InitBrowser();
      ghost var launched := launches;
      assert launched == old(launches) + (if old(browser).None? then 1 else 0);
      assert closes == old(closes) && trace == old(trace) && openPages == old(openPages);
      var entries := ScrapeSections(names, date, site);
      assert launches == launched && closes == old(closes) && openPages == old(openPages);
      ghost var scraped := trace;
      assert scraped == old(trace) + DayTrace(site, date, names, |names|, DelayMs);
      CloseBrowser();
      assert closes == old(closes) + 1 && launches == launched && trace == scraped && openPages == old(openPages);
      day := DayArchive(date, entries);
      SaveArchive(day);
    }

    /** `scrapeDay`: the day scrape over the five configured sections. */
    method ScrapeDay(date: string, site: Site) returns (day: DayArchive)
      modifies this
      ensures day == DayFromSite(site, date)
      ensures archiveFile == Some(Parsed(day))
      ensures browser == None
      ensures launches == old(launches) + (if old(browser).None? then 1 else 0)
      ensures closes == old(closes) + 1
      ensures trace == old(trace) + DayTrace(site, date, Sections, |Sections|, DelayMs)
      ensures openPages == old(openPages)
    {
      day := ScrapeDayOver(Sections, date, site);
    }

    /** `showArchive`: the total article count of the saved archive, None when it cannot be read. */
    method ShowArchive() returns (total: Option<nat>)
      ensures archiveFile.Some? && archiveFile.value.Parsed? ==>
        total == Some(TotalArticles(archiveFile.value.archive.sections))
      ensures archiveFile.None? || archiveFile.value.Unparseable? ==> total.None?
    {
      if archiveFile.None? || archiveFile.value.Unparseable? {
        return None;
      }
      var sections := archiveFile.value.archive.sections;
      var sum := 0;
      var i := 0;
      while i < |sections|
        invariant 0 <= i <= |sections|
        invariant sum == TotalArticles(sections[..i])
      {
        TotalArticlesAppend(sections[..i], sections[i]);
        assert sections[..i + 1] == sections[..i] + [sections[i]];
        sum := sum + |sections[i].articles|;
        i := i + 1;
      }
      assert sections[..i] == sections;
      total := Some(sum);
    }
  }
}
