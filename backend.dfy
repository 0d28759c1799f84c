/**
 * The Python backend (backend_fastapi/main.py): its `DawnScraper` object with
 * the Playwright handles, the in-memory archive cache and the data directory of
 * `<date>.json` files; image resolution and section parsing written as the
 * backend writes them and shown to agree with the shared specification; the
 * "twelve years ago" and "tomorrow" dates; and the pruning of old archive files.
 */
module Backend {
  import opened Wrappers
  import opened Text
  import opened Dom
  import opened ImageUrl
  import opened Extraction
  import opened Archive
  import opened Calendar

  /** `self.delay` is two seconds; as everywhere in the model, pauses are in milliseconds. */
  const DelayMs: nat := 2000

  /**
   * `resolve_image_url`: with an `<img>`, its `data-src` then `data-original`
   * (skipping placeholders), then the first candidate of its `srcset` unless a
   * placeholder; then the first candidate of the `srcset` of the picture's first
   * `<source>`, unfiltered; then the `<img>`'s `src` unless a placeholder.
   */
  method ResolveImageUrlPy(e: Element) returns (url: Option<string>)
    ensures url == ResolveImageUrl(e)
  {
    var img := e.img;
    if img.Some? {
      var names := ["data-src", "data-original"];
      for i := 0 to |names|
        invariant i >= 1 ==> !Usable(ImgAttr(e, "data-src"))
        invariant i >= 2 ==> !Usable(ImgAttr(e, "data-original"))
      {
        var v := Attr(img, names[i]);
        if Usable(v) {
          assert i == 0 ==> v == ImgAttr(e, "data-src");
          assert i == 1 ==> v == ImgAttr(e, "data-original");
          return v;
        }
      }
      var srcset := Attr(img, "srcset");
      if srcset.Some? && srcset.value != [] {
        var first := FirstCandidate(srcset.value);
        if !StartsWith(first, DataImage) {
          assert ImgSrcsetRule(e);
          return Some(first);
        }
      }
      assert !ImgSrcsetRule(e);
    }
    if e.picture.Some? {
      var source := e.picture.value.source;
      if source.Some? {
        var srcset := Attr(source, "srcset");
        if srcset.Some? && srcset.value != [] {
          assert PictureRule(e) && srcset == PictureSrcset(e);
          return Some(FirstCandidate(srcset.value));
        }
      }
    }
    assert !PictureRule(e);
    if img.Some? {
      var v := Attr(img, "src");
      if Usable(v) {
        return v;
      }
    }
    return None;
  }

  /**
   * The body of `parse_section`'s inner loop for one element: `continue` without
   * a title node, with an empty title or `href`, or with a title already
   * collected; otherwise build the article and append it.
   */
  method CollectElement(articles: seq<Article>, el: Element, section: string, date: string)
    returns (articles': seq<Article>)
    ensures articles' == Step(articles, BuildArticle(el, section, date))
  {
    articles' := articles;
    if el.title.None? {
      assert BuildArticle(el, section, date).None?;
      return;
    }
    var title := Trim(el.title.value.text);
    var url := el.title.value.href;
    var summary := if el.summary.Some? then Trim(el.summary.value) else "";
    if title == [] || url.None? || url.value == [] {
      assert !HasLink(el);
      return;
    }
    assert HasLink(el) && BuildArticle(el, section, date).value.title == title;
    if exists a :: a in articles && a.title == title {
      assert HasTitle(articles, title) by {
        var a :| a in articles && a.title == title;
        var i :| 0 <= i < |articles| && articles[i] == a;
      }
      return;
    }
    assert !HasTitle(articles, title) by {
      forall i | 0 <= i < |articles| ensures articles[i].title != title {
        assert articles[i] in articles;
      }
    }
    var rawImage := ResolveImageUrlPy(el);
    var imageUrl: Option<string> := None;
    if rawImage.Some? && rawImage.value != [] {
      if StartsWith(rawImage.value, "//") {
        imageUrl := Some("https:" + rawImage.value);
      } else if StartsWith(rawImage.value, "http") {
        imageUrl := rawImage;
      } else {
        imageUrl := Some(BaseOrigin + rawImage.value);
      }
    }
    assert imageUrl == NormalizeImageUrl(rawImage);
    var articleUrl := if StartsWith(url.value, "http") then url.value else BaseOrigin + url.value;
    var article := Article(title, articleUrl, summary, imageUrl, section, date);
    assert BuildArticle(el, section, date) == Some(article);
    articles' := articles + [article];
  }

  /**
   * `parse_section`: for each selector in order, skip it when it matches nothing;
   * otherwise go through its elements, skipping one without a title node, with an
   * empty title or `href`, or with a title already collected, and append the
   * article of every other; stop after the first selector that collected any.
   */
  method ParseSectionPy(page: Page, section: string, date: string) returns (articles: seq<Article>)
    ensures articles == ParseSpec(page, section, date)
  {
    articles := [];
    for i := 0 to |Selectors|
      invariant articles == []
      invariant ParseFrom(page, section, date, i) == []
    {
      var elements := Select(page, Selectors[i]);
      if elements == [] {
        continue;
      }
      for j := 0 to |elements|
        invariant articles == Dedup(Built(elements[..j], section, date))
      {
        DedupBuiltStep(elements, j, section, date);
        articles := CollectElement(articles, elements[j], section, date);
      }
      assert elements[..|elements|] == elements;
      if articles != [] {
        ParseFromExtends(page, section, date, i + 1, |Selectors|);
        return;
      }
    }
  }

  /** `f"{date}.json"`: the data-directory file holding a date's archive. */
  function FileName(date: string): (name: string)
    ensures |name| == |date| + 5 && EndsWith(name, ".json") && name[..|date|] == date
  {
    date + ".json"
  }

  /** `glob("*.json")` keeps the names that end in `.json`. */
  predicate IsJsonFile(name: string) {
    EndsWith(name, ".json")
  }

  /**
   * `Path(name).stem` for a name ending in `.json`: the name without that
   * suffix, except that `.json` alone has no suffix and is its own stem.
   */
  function Stem(name: string): (stem: string)
    requires IsJsonFile(name)
    ensures name == ".json" ==> stem == name
    ensures name != ".json" ==> stem + ".json" == name
  {
    if name == ".json" then name else name[..|name| - 5]
  }

  /** The data file of a date is named after it. */
  lemma StemOfFileName(date: string)
    requires date != []
    ensures IsJsonFile(FileName(date)) && Stem(FileName(date)) == date
  {
    assert FileName(date)[..|date|] == date;
  }

  /** The pruning loop unlinks this file: a `.json` file whose stem sorts before `today`, and unlinking works. */
  predicate Doomed(name: string, today: string, failing: set<string>) {
    IsJsonFile(name) && StrLess(Stem(name), today) && name !in failing
  }

  /** The data directory after pruning: every file except the doomed ones, contents unchanged. */
  function Pruned(files: map<string, Stored>, today: string, failing: set<string>): (r: map<string, Stored>)
    ensures forall f :: f in r <==> f in files && !Doomed(f, today, failing)
    ensures forall f :: f in r ==> r[f] == files[f]
  {
    map f | f in files && !Doomed(f, today, failing) :: files[f]
  }

  /**
   * The archive file of a date survives pruning against `today` exactly when
   * the date is not earlier than `today` (or its unlink fails).
   */
  lemma PruneByDate(files: map<string, Stored>, d: Date, today: Date, failing: set<string>)
    requires Valid(d) && Valid(today)
    requires FileName(FormatDate(d)) in files
    ensures FileName(FormatDate(d)) in Pruned(files, FormatDate(today), failing) <==>
      !Precedes(d, today) || FileName(FormatDate(d)) in failing
  {
    StemOfFileName(FormatDate(d));
    FormatOrder(d, today);
  }

  /** Pruning twice against the same date is pruning once. */
  lemma PrunedIdempotent(files: map<string, Stored>, today: string, failing: set<string>)
    ensures Pruned(Pruned(files, today, failing), today, failing) == Pruned(files, today, failing)
  {
  }

  /** `get_todays_date`: the date twelve years before `now`, written `%Y-%m-%d`; None when `replace` raises. */
  function TodaysDate(now: Date): (r: Option<string>)
    requires Valid(now)
    ensures r.Some? <==> YearsAgoDate(now).Some?
    ensures r.Some? ==> ParseDate(r.value) == YearsAgoDate(now)
  {
    match YearsAgoDate(now)
    case None => None
    case Some(past) =>
      ParseFormatRoundTrip(past);
      Some(FormatDate(past))
  }

  /**
   * `get_tomorrows_date` (the second definition, which is the one in effect):
   * read back today's date string, add one day, and write it again.
   */
  function TomorrowsDate(now: Date): (r: Option<string>)
    requires Valid(now)
    ensures r.Some? <==> YearsAgoDate(now).Some?
    ensures r.Some? ==> ParseDate(r.value) == NextDay(YearsAgoDate(now).value)
  {
    match TodaysDate(now)
    case None => None
    case Some(today) =>
      match ParseDate(today)
      case None => None
      case Some(t) =>
        match NextDay(t)
        case None => None
        case Some(next) =>
          ParseFormatRoundTrip(next);
          Some(FormatDate(next))
  }

  /**
   * Tomorrow is the calendar day after the date twelve years ago, it exists
   * whenever that date exists (the last representable day cannot be reached
   * twelve years back), and its string sorts after today's, so pruning against
   * today never removes tomorrow's file.
   */
  lemma TomorrowFollowsToday(now: Date)
    requires Valid(now)
    ensures TomorrowsDate(now).Some? <==> TodaysDate(now).Some?
    ensures TodaysDate(now).Some? ==>
      var past := YearsAgoDate(now).value;
      && NextDay(past).Some?
      && TomorrowsDate(now) == Some(FormatDate(NextDay(past).value))
      && StrLess(TodaysDate(now).value, TomorrowsDate(now).value)
  {
    if YearsAgoDate(now).Some? {
      var past := YearsAgoDate(now).value;
      ParseFormatRoundTrip(past);
      var next := NextDay(past).value;
      FormatOrder(past, next);
    }
  }

  /** The stem of the data file of today's date is not pruned against today. */
  lemma TodayNotPruned(files: map<string, Stored>, now: Date, failing: set<string>)
    requires Valid(now) && TodaysDate(now).Some?
    requires FileName(TodaysDate(now).value) in files
    ensures FileName(TodaysDate(now).value) in Pruned(files, TodaysDate(now).value, failing)
  {
    StemOfFileName(TodaysDate(now).value);
    StrLessIrreflexive(TodaysDate(now).value);
  }

  /** What the background precomputation of tomorrow's archive did. */
  datatype Precompute = AlreadyStored(date: string) | Scraped(day: DayArchive) | NoDate

  class DawnScraper {
    /** `self.browser`: the launched Chromium, if one is held. */
    var browser: Option<nat>
    /** `self.playwright`: the running Playwright driver, if one is held. */
    var playwright: Option<nat>
    /** How many Playwright drivers have been started (each start also launches a browser). */
    var launches: nat
    /** How many browsers have been closed. */
    var closes: nat
    /** Pages (tabs) currently open. */
    var openPages: nat
    /** Every navigation and every politeness delay, in order. */
    var trace: seq<Event>
    /** `self.cache`: archives by date. */
    var cache: map<string, DayArchive>
    /** The data directory: file name to content. */
    var files: map<string, Stored>

    constructor (disk: map<string, Stored>)
      ensures browser == None && playwright == None && launches == 0 && closes == 0 && openPages == 0
      ensures trace == [] && cache == map[] && files == disk
    {
      browser := None;
      playwright := None;
      launches := 0;
      closes := 0;
      openPages := 0;
      trace := [];
      cache := map[];
      files := disk;
    }

    /** `init_browser`: start Playwright and launch a browser only when no browser is held. */
    method InitBrowser() returns (handle: nat)
      modifies this`browser, this`playwright, this`launches
      ensures browser == Some(handle)
      ensures old(browser).Some? ==>
        handle == old(browser).value && playwright == old(playwright) && launches == old(launches)
      ensures old(browser).None? ==> playwright.Some? && launches == old(launches) + 1
    {
      if browser.None? {
        playwright := Some(launches);
        browser := Some(launches);
        launches := launches + 1;
      }
      handle := browser.value;
    }

    /** `close_browser`: close the browser if held, stop Playwright if held, and drop both handles. */
    method CloseBrowser()
      modifies this`browser, this`playwright, this`closes
      ensures browser == None && playwright == None
      ensures closes == old(closes) + (if old(browser).Some? then 1 else 0)
    {
      if browser.Some? {
        closes := closes + 1;
        browser := None;
      }
      if playwright.Some? {
        playwright := None;
      }
    }

    /**
     * `fetch_page`: open a page, navigate, retry once on failure, and close the
     * page on both outcomes; None stands for the error raised after two failures.
     */
    method FetchPage(url: string, site: Site) returns (page: Option<Page>)
      modifies this`browser, this`playwright, this`launches, this`openPages, this`trace
      ensures page == FetchOutcome(site, url)
      ensures trace == old(trace) + Attempts(site, url)
      ensures openPages == old(openPages) && browser.Some?
      ensures old(browser).Some? ==>
        browser == old(browser) && playwright == old(playwright) && launches == old(launches)
      ensures old(browser).None? ==> playwright.Some? && launches == old(launches) + 1
    {
      var _ := InitBrowser();
      openPages := openPages + 1;
      trace := trace + [Visit(url)];
      var nav := site(url, 1);
      if nav.NavError? {
        trace := trace + [Visit(url)];
        nav := site(url, 2);
        if nav.NavError? {
          openPages := openPages - 1;
          return None;
        }
      }
      openPages := openPages - 1;
      page := Some(nav.page);
    }

    /** `save_archive`: write the archive to `<date>.json`, replacing any earlier file. */
    method SaveArchive(day: DayArchive)
      modifies this`files
      ensures files == old(files)[FileName(day.date) := Parsed(day)]
    {
      files := files[FileName(day.date) := Parsed(day)];
    }

    /**
     * One pass of `scrape_day`'s loop: fetch the section, parse it into its
     * entry and pause; when the fetch raises, the entry is `[]` and there is no pause.
     */
    method ScrapeSection(entries: seq<SectionEntry>, section: string, date: string, site: Site)
      returns (entries': seq<SectionEntry>)
      requires browser.Some?
      modifies this`browser, this`playwright, this`launches, this`openPages, this`trace
      ensures entries' == Put(entries, section, SectionResult(site, section, date))
      ensures trace == old(trace) + SectionEvents(site, section, date, DelayMs)
      ensures browser == old(browser) && playwright == old(playwright)
      ensures launches == old(launches) && openPages == old(openPages)
    {
      var html := FetchPage(SectionUrl(section, date), site);
      if html.Some? {
        var articles := ParseSectionPy(html.value, section, date);
        entries' := Put(entries, section, articles);
        trace := trace + [Pause(DelayMs)];
      } else {
        entries' := Put(entries, section, []);
      }
    }

    /** `scrape_day`'s loop over the sections, each scraped in turn on the open browser. */
    method ScrapeSections(names: seq<string>, date: string, site: Site) returns (entries: seq<SectionEntry>)
      requires browser.Some?
      modifies this`browser, this`playwright, this`launches, this`openPages, this`trace
      ensures entries == ScrapeEntries(site, date, names, |names|)
      ensures trace == old(trace) + DayTrace(site, date, names, |names|, DelayMs)
      ensures browser == old(browser) && playwright == old(playwright)
      ensures launches == old(launches) && openPages == old(openPages)
    {
      entries := [];
      for i := 0 to |names|
        invariant entries == ScrapeEntries(site, date, names, i)
        invariant trace == old(trace) + DayTrace(site, date, names, i, DelayMs)
        invariant browser == old(browser) && playwright == old(playwright)
        invariant launches == old(launches) && openPages == old(openPages)
      {
        ghost var before := trace;
        entries := ScrapeSection(entries, names[i], date, site);
        TraceStep(old(trace), before, trace, site, date, names, i, DelayMs);
        ScrapeEntriesStep(site, date, names, i);
      }
    }

    /**
     * The body of `scrape_day` over a list of sections: start the browser,
     * scrape every section in order (a raised error files `[]`, a success is
     * followed by the delay), close the browser, save the archive to its file
     * and keep it in the cache under its date.
     */
    method ScrapeDayOver(names: seq<string>, date: string, site: Site) returns (day: DayArchive)
      modifies this
      ensures day == DayArchive(date, ScrapeEntries(site, date, names, |names|))
      ensures files == old(files)[FileName(date) := Parsed(day)]
      ensures cache == old(cache)[date := day]
      ensures browser == None && playwright == None
      ensures launches == old(launches) + (if old(browser).None? then 1 else 0)
      ensures closes == old(closes) + 1
      ensures trace == old(trace) + DayTrace(site, date, names, |names|, DelayMs)
      ensures openPages == old(openPages)
    {
      var _ := InitBrowser();
      ghost var launched := launches;
      assert launched == old(launches) + (if old(browser).None? then 1 else 0);
      assert closes == old(closes) && trace == old(trace) && openPages == old(openPages);
      var entries := ScrapeSections(names, date, site);
      assert launches == launched && closes == old(closes) && openPages == old(openPages);
      ghost var scraped := trace;
      assert scraped == old(trace) + DayTrace(site, date, names, |names|, DelayMs);
      CloseBrowser();
      assert closes == old(closes) + 1 && launches == launched && trace == scraped && openPages == old(openPages);
      day := DayArchive(date, entries);
      SaveArchive(day);
      cache := cache[date := day];
    }

    /** `scrape_day`: the day scrape over the five configured sections. */
    method ScrapeDay(date: string, site: Site) returns (day: DayArchive)
      modifies this
      ensures day == DayFromSite(site, date)
      ensures files == old(files)[FileName(date) := Parsed(day)]
      ensures cache == old(cache)[date := day]
      ensures browser == None && playwright == None
      ensures launches == old(launches) + (if old(browser).None? then 1 else 0)
      ensures closes == old(closes) + 1
      ensures trace == old(trace) + DayTrace(site, date, Sections, |Sections|, DelayMs)
      ensures openPages == old(openPages)
    {
      day := ScrapeDayOver(Sections, date, site);
    }

    /**
     * `load_archive`: a missing or unreadable file gives None and leaves the cache
     * alone; a readable one is returned and cached under the requested date.
     */
    method LoadArchive(date: string) returns (archive: Option<DayArchive>)
      modifies this`cache
      ensures FileName(date) !in files || files[FileName(date)].Unparseable? ==>
        archive.None? && cache == old(cache)
      ensures FileName(date) in files && files[FileName(date)].Parsed? ==>
        archive == Some(files[FileName(date)].archive) && cache == old(cache)[date := archive.value]
    {
      var name := FileName(date);
      if name !in files {
        return None;
      }
      match files[name]
      case Unparseable =>
        archive := None;
      case Parsed(data) =>
        cache := cache[date := data];
        archive := Some(data);
    }

    /**
     * The pruning loop of `get_today`: visit every `.json` file once and unlink
     * it when its stem sorts before `today`; an unlink that fails (one of
     * `failing`) is reported and the file stays.
     */
    method PruneOldFiles(today: string, failing: set<string>)
      modifies this`files
      ensures files == Pruned(old(files), today, failing)
    {
      var pending := files.Keys;
      while pending != {}
        invariant pending <= old(files).Keys
        invariant forall f :: f in files <==> f in old(files) && (f in pending || !Doomed(f, today, failing))
        invariant forall f :: f in files ==> files[f] == old(files)[f]
        decreases pending
      {
        var f :| f in pending;
        if IsJsonFile(f) && StrLess(Stem(f), today) && f !in failing {
          files := files - {f};
        }
        pending := pending - {f};
      }
    }

    /**
     * `ensure_tomorrow_exists`: compute tomorrow's date and scrape it unless its
     * file is already there; when the date cannot be computed nothing is done.
     */
    method EnsureTomorrowExists(now: Date, site: Site) returns (outcome: Precompute)
      requires Valid(now)
      modifies this
      ensures TomorrowsDate(now).None? ==> outcome == NoDate && unchanged(this)
      ensures TomorrowsDate(now).Some? && FileName(TomorrowsDate(now).value) in old(files) ==>
        outcome == AlreadyStored(TomorrowsDate(now).value) && unchanged(this)
      ensures TomorrowsDate(now).Some? && FileName(TomorrowsDate(now).value) !in old(files) ==>
        var tomorrow := TomorrowsDate(now).value;
        && outcome == Scraped(DayFromSite(site, tomorrow))
        && files == old(files)[FileName(tomorrow) := Parsed(outcome.day)]
        && cache == old(cache)[tomorrow := outcome.day]
        && browser == None && playwright == None
        && launches == old(launches) + (if old(browser).None? then 1 else 0)
        && closes == old(closes) + 1
        && trace == old(trace) + DayTrace(site, tomorrow, Sections, |Sections|, DelayMs)
        && openPages == old(openPages)
    {
      var tomorrow := TomorrowsDate(now);
      if tomorrow.None? {
        return NoDate;
      }
      if FileName(tomorrow.value) in files {
        return AlreadyStored(tomorrow.value);
      }
      var day := ScrapeDay(tomorrow.value, site);
      outcome := Scraped(day);
    }
  }
}
