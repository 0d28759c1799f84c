/**
 * A day's archive and how it follows from what the site serves: the fixed section
 * list, the per-section page URL, the fetch with one retry as an outcome, and the
 * archive that a scrape of one date assembles.
 */
module Archive {
  import opened Wrappers
  import opened Dom
  import opened Extraction

  /** The newspaper sections scraped for every date, in scraping order. */
  const Sections: seq<string> := ["front-page", "back-page", "national", "editorial", "business"]

  const NewspaperBase: string := "https://www.dawn.com/newspaper"

  /** `${baseUrl}/${section}/${date}`. */
  function SectionUrl(section: string, date: string): string {
    NewspaperBase + "/" + section + "/" + date
  }

  /** One key of the archive's `sections` object with its article list. */
  datatype SectionEntry = SectionEntry(name: string, articles: seq<Article>)

  /** A day's archive; `sections` keeps the keys in insertion order, as the JSON object does. */
  datatype DayArchive = DayArchive(date: string, sections: seq<SectionEntry>)

  function Names(entries: seq<SectionEntry>): (r: seq<string>)
    ensures |r| == |entries| && forall i :: 0 <= i < |entries| ==> r[i] == entries[i].name
  {
    if entries == [] then [] else [entries[0].name] + Names(entries[1..])
  }

  predicate Distinct(names: seq<string>) {
    forall i, j :: 0 <= i < j < |names| ==> names[i] != names[j]
  }

  /** `sections[name]`: the article list stored under a key, if the key is present. */
  function Lookup(entries: seq<SectionEntry>, name: string): (r: Option<seq<Article>>)
    ensures r.Some? <==> name in Names(entries)
  {
    if entries == [] then None
    else if entries[0].name == name then Some(entries[0].articles)
    else
      assert Names(entries) == [entries[0].name] + Names(entries[1..]);
      Lookup(entries[1..], name)
  }

  /** Looking up a key in a list that starts with `e` finds `e` first. */
  lemma LookupCons(e: SectionEntry, rest: seq<SectionEntry>)
    ensures Names([e] + rest) == [e.name] + Names(rest)
    ensures forall n :: Lookup([e] + rest, n) == if e.name == n then Some(e.articles) else Lookup(rest, n)
  {
    assert ([e] + rest)[1..] == rest;
  }

  /** `sections[name] = articles` on the list of entries (see `PutSpec`). */
  function Put(entries: seq<SectionEntry>, name: string, articles: seq<Article>): seq<SectionEntry> {
    if entries == [] then [SectionEntry(name, articles)]
    else if entries[0].name == name then [SectionEntry(name, articles)] + entries[1..]
    else [entries[0]] + Put(entries[1..], name, articles)
  }

  /**
   * `sections[name] = articles`: the key now maps to `articles`, every other key
   * keeps its list, and a new key goes after the existing ones.
   */
  lemma PutSpec(entries: seq<SectionEntry>, name: string, articles: seq<Article>)
    ensures Lookup(Put(entries, name, articles), name) == Some(articles)
    ensures forall n :: n != name ==> Lookup(Put(entries, name, articles), n) == Lookup(entries, n)
    ensures Names(Put(entries, name, articles)) ==
      if name in Names(entries) then Names(entries) else Names(entries) + [name]
  {
    PutLookup(entries, name, articles);
    PutNames(entries, name, articles);
  }

  lemma {:induction false} PutLookup(entries: seq<SectionEntry>, name: string, articles: seq<Article>)
    ensures forall n :: Lookup(Put(entries, name, articles), n) == if n == name then Some(articles) else Lookup(entries, n)
  {
    var added := SectionEntry(name, articles);
    if entries == [] {
      LookupCons(added, []);
    } else {
      var e := entries[0];
      var tail := entries[1..];
      assert entries == [e] + tail;
      LookupCons(e, tail);
      if e.name == name {
        LookupCons(added, tail);
      } else {
        PutLookup(tail, name, articles);
        LookupCons(e, Put(tail, name, articles));
      }
    }
  }

  lemma {:induction false} PutNames(entries: seq<SectionEntry>, name: string, articles: seq<Article>)
    ensures Names(Put(entries, name, articles)) ==
      if name in Names(entries) then Names(entries) else Names(entries) + [name]
  {
    if entries != [] {
      var e := entries[0];
      var tail := entries[1..];
      var rest := Put(tail, name, articles);
      PutNames(tail, name, articles);
      assert Names(entries) == [e.name] + Names(tail);
      if e.name == name {
        assert ([SectionEntry(name, articles)] + tail)[1..] == tail;
      } else {
        assert ([e] + rest)[1..] == rest;
        if name !in Names(tail) {
          assert [e.name] + (Names(tail) + [name]) == ([e.name] + Names(tail)) + [name];
        }
      }
    }
  }

  /** What one navigation attempt to a URL gives: the rendered page, or a timeout or navigation error. */
  datatype Nav = Loaded(page: Page) | NavError

  /** The site as the scraper sees it: the outcome of the first and of the second attempt on a URL. */
  type Site = (string, nat) -> Nav

  /** The page a fetch with one retry obtains, or None when both attempts fail. */
  function FetchOutcome(site: Site, url: string): (r: Option<Page>)
    ensures r.Some? <==> site(url, 1).Loaded? || site(url, 2).Loaded?
    ensures site(url, 1).Loaded? ==> r == Some(site(url, 1).page)
    ensures site(url, 1).NavError? && site(url, 2).Loaded? ==> r == Some(site(url, 2).page)
  {
    if site(url, 1).Loaded? then Some(site(url, 1).page)
    else if site(url, 2).Loaded? then Some(site(url, 2).page)
    else None
  }

  /** What the scraper does that the outside world can observe, in order. */
  datatype Event = Visit(url: string) | Pause(ms: nat)

  /** The navigations a fetch makes: the URL once, and again only when the first attempt fails. */
  function Attempts(site: Site, url: string): (r: seq<Event>)
    ensures 1 <= |r| <= 2 && forall i :: 0 <= i < |r| ==> r[i] == Visit(url)
    ensures |r| == 2 <==> site(url, 1).NavError?
  {
    if site(url, 1).Loaded? then [Visit(url)] else [Visit(url), Visit(url)]
  }

  /** A section's article list: the parsed page, or nothing when the fetch failed (see `SectionResultFacts`). */
  function SectionResult(site: Site, section: string, date: string): seq<Article> {
    match FetchOutcome(site, SectionUrl(section, date))
    case None => []
    case Some(page) => ParseSpec(page, section, date)
  }

  /** A failed fetch leaves the section empty; every article carries the section and date; titles are unique. */
  lemma SectionResultFacts(site: Site, section: string, date: string)
    ensures FetchOutcome(site, SectionUrl(section, date)).None? ==> SectionResult(site, section, date) == []
    ensures var r := SectionResult(site, section, date);
      && (forall i :: 0 <= i < |r| ==> WellFormed(r[i], section, date))
      && UniqueTitles(r)
  {
  }

  /**
   * The entries after storing `result(name)` under each of the first `n` of
   * `names`, in order. (The recursion counts names rather than shortening `names`,
   * so the verifier does not unroll it over the literal section list.)
   */
  function PutAll(names: seq<string>, result: string -> seq<Article>, n: nat): seq<SectionEntry>
    requires n <= |names|
  {
    if n == 0 then []
    else Put(PutAll(names, result, n - 1), names[n - 1], result(names[n - 1]))
  }

  /** The section entries after scraping the first `n` of `names` in order. */
  function ScrapeEntries(site: Site, date: string, names: seq<string>, n: nat): seq<SectionEntry>
    requires n <= |names|
  {
    PutAll(names, s => SectionResult(site, s, date), n)
  }

  /** Scraping one more section stores its result in the entries. */
  lemma ScrapeEntriesStep(site: Site, date: string, names: seq<string>, n: nat)
    requires n < |names|
    ensures ScrapeEntries(site, date, names, n + 1) ==
      Put(ScrapeEntries(site, date, names, n), names[n], SectionResult(site, names[n], date))
  {
  }

  /** The archive a scrape of `date` assembles from what the site serves. */
  function DayFromSite(site: Site, date: string): DayArchive {
    DayArchive(date, ScrapeEntries(site, date, Sections, |Sections|))
  }

  /**
   * What scraping one section shows: its navigations, then one pause of `delay`
   * if the page was fetched (the pause is skipped when the fetch fails).
   */
  function SectionEvents(site: Site, section: string, date: string, delay: nat): seq<Event> {
    var url := SectionUrl(section, date);
    Attempts(site, url) + if FetchOutcome(site, url).Some? then [Pause(delay)] else []
  }

  /** What scraping the first `n` of `names` shows, section after section. */
  function DayTrace(site: Site, date: string, names: seq<string>, n: nat, delay: nat): seq<Event>
    requires n <= |names|
  {
    if n == 0 then []
    else DayTrace(site, date, names, n - 1, delay) + SectionEvents(site, names[n - 1], date, delay)
  }

  /** Scraping one more section appends what it shows to the trace. */
  lemma TraceStep(start: seq<Event>, before: seq<Event>, after: seq<Event>,
                  site: Site, date: string, names: seq<string>, i: nat, delay: nat)
    requires i < |names|
    requires before == start + DayTrace(site, date, names, i, delay)
    requires after == before + SectionEvents(site, names[i], date, delay)
    ensures after == start + DayTrace(site, date, names, i + 1, delay)
  {
  }

  /** How many of the first `n` of `names` were fetched successfully (each is followed by the politeness delay). */
  function FetchedCount(site: Site, date: string, names: seq<string>, n: nat): (r: nat)
    requires n <= |names|
    ensures r <= n
  {
    if n == 0 then 0
    else
      FetchedCount(site, date, names, n - 1)
        + (if FetchOutcome(site, SectionUrl(names[n - 1], date)).Some? then 1 else 0)
  }

  /** The pauses of a trace, in order. */
  function PausesOf(trace: seq<Event>): seq<nat> {
    if trace == [] then []
    else PausesOf(trace[..|trace| - 1]) + if trace[|trace| - 1].Pause? then [trace[|trace| - 1].ms] else []
  }

  /** The URLs a trace navigates to, in order. */
  function VisitsOf(trace: seq<Event>): seq<string> {
    if trace == [] then []
    else VisitsOf(trace[..|trace| - 1]) + if trace[|trace| - 1].Visit? then [trace[|trace| - 1].url] else []
  }

  lemma {:induction false} PausesOfAppend(a: seq<Event>, b: seq<Event>)
    ensures PausesOf(a + b) == PausesOf(a) + PausesOf(b)
    decreases |b|
  {
    if b == [] {
      assert a + b == a;
    } else {
      assert (a + b)[..|a + b| - 1] == a + b[..|b| - 1];
      PausesOfAppend(a, b[..|b| - 1]);
    }
  }

  lemma {:induction false} VisitsOfAppend(a: seq<Event>, b: seq<Event>)
    ensures VisitsOf(a + b) == VisitsOf(a) + VisitsOf(b)
    decreases |b|
  {
    if b == [] {
      assert a + b == a;
    } else {
      assert (a + b)[..|a + b| - 1] == a + b[..|b| - 1];
      VisitsOfAppend(a, b[..|b| - 1]);
    }
  }

  /** One section shows a pause exactly when its page was fetched. */
  lemma SectionPauses(site: Site, section: string, date: string, delay: nat)
    ensures PausesOf(SectionEvents(site, section, date, delay)) ==
      if FetchOutcome(site, SectionUrl(section, date)).Some? then [delay] else []
  {
    var url := SectionUrl(section, date);
    var att := Attempts(site, url);
    var pause: seq<Event> := if FetchOutcome(site, url).Some? then [Pause(delay)] else [];
    PausesOfAppend(att, pause);
    assert att[..0] == [];
    if |att| == 2 {
      assert att[..1] == [Visit(url)];
    }
    if pause != [] {
      assert pause[..0] == [];
    }
  }

  /** One section navigates to its page once, or twice when the first attempt fails. */
  lemma SectionVisits(site: Site, section: string, date: string, delay: nat)
    ensures var url := SectionUrl(section, date);
      VisitsOf(SectionEvents(site, section, date, delay)) == if site(url, 1).Loaded? then [url] else [url, url]
  {
    var url := SectionUrl(section, date);
    var att := Attempts(site, url);
    var pause: seq<Event> := if FetchOutcome(site, url).Some? then [Pause(delay)] else [];
    VisitsOfAppend(att, pause);
    assert att[..0] == [];
    if |att| == 2 {
      assert att[..1] == [Visit(url)];
    }
    if pause != [] {
      assert pause[..0] == [];
    }
  }

  /** `k` copies of `v`. */
  function Repeat(v: nat, k: nat): (r: seq<nat>)
    ensures |r| == k
  {
    if k == 0 then [] else Repeat(v, k - 1) + [v]
  }

  /** One more section extends `k` pauses to `k + 1` when it was fetched and leaves them otherwise. */
  lemma RepeatStep(after: seq<nat>, before: seq<nat>, v: nat, k: nat, count: nat, more: bool)
    requires before == Repeat(v, k)
    requires after == before + if more then [v] else []
    requires count == k + if more then 1 else 0
    ensures after == Repeat(v, count)
  {
    if !more {
      assert before + [] == before;
    }
  }

  /**
   * The scrape pauses once per section it fetched and never otherwise, each pause
   * of the configured length.
   */
  lemma {:induction false} PausesPerFetchedSection(site: Site, date: string, names: seq<string>, n: nat, delay: nat)
    requires n <= |names|
    ensures PausesOf(DayTrace(site, date, names, n, delay)) == Repeat(delay, FetchedCount(site, date, names, n))
  {
    if n > 0 {
      PausesPerFetchedSection(site, date, names, n - 1, delay);
      PausesStep(site, date, names, n, delay);
      RepeatStep(PausesOf(DayTrace(site, date, names, n, delay)), PausesOf(DayTrace(site, date, names, n - 1, delay)),
        delay, FetchedCount(site, date, names, n - 1), FetchedCount(site, date, names, n),
        FetchOutcome(site, SectionUrl(names[n - 1], date)).Some?);
    }
  }

  /** The pauses after one more section: one more pause exactly when that section was fetched. */
  lemma PausesStep(site: Site, date: string, names: seq<string>, n: nat, delay: nat)
    requires 0 < n <= |names|
    ensures PausesOf(DayTrace(site, date, names, n, delay)) ==
      PausesOf(DayTrace(site, date, names, n - 1, delay))
        + if FetchOutcome(site, SectionUrl(names[n - 1], date)).Some? then [delay] else []
  {
    var prev := DayTrace(site, date, names, n - 1, delay);
    var last := SectionEvents(site, names[n - 1], date, delay);
    assert DayTrace(site, date, names, n, delay) == prev + last;
    PausesOfAppend(prev, last);
    SectionPauses(site, names[n - 1], date, delay);
  }

  /** The page URLs of the first `n` of `names`, in order. */
  function SectionUrls(names: seq<string>, date: string, n: nat): (r: seq<string>)
    requires n <= |names|
    ensures |r| == n && forall k :: 0 <= k < n ==> r[k] == SectionUrl(names[k], date)
  {
    if n == 0 then [] else SectionUrls(names, date, n - 1) + [SectionUrl(names[n - 1], date)]
  }

  /**
   * Each section's page is navigated to once, or twice when the first attempt
   * fails, and the scrape goes to no other URL.
   */
  lemma {:induction false} VisitsPerSection(site: Site, date: string, names: seq<string>, n: nat, delay: nat)
    requires n <= |names|
    ensures n <= |VisitsOf(DayTrace(site, date, names, n, delay))| <= 2 * n
    ensures forall u :: u in VisitsOf(DayTrace(site, date, names, n, delay)) ==> u in SectionUrls(names, date, n)
  {
    if n > 0 {
      VisitsPerSection(site, date, names, n - 1, delay);
      VisitsStep(site, date, names, n, delay);
      var prev := VisitsOf(DayTrace(site, date, names, n - 1, delay));
      var url := SectionUrl(names[n - 1], date);
      var extra: seq<string> := if site(url, 1).Loaded? then [url] else [url, url];
      assert VisitsOf(DayTrace(site, date, names, n, delay)) == prev + extra;
      assert SectionUrls(names, date, n) == SectionUrls(names, date, n - 1) + [url];
    }
  }

  /** The visits after one more section: its page once, or twice when the first attempt fails. */
  lemma VisitsStep(site: Site, date: string, names: seq<string>, n: nat, delay: nat)
    requires 0 < n <= |names|
    ensures var url := SectionUrl(names[n - 1], date);
      VisitsOf(DayTrace(site, date, names, n, delay)) ==
        VisitsOf(DayTrace(site, date, names, n - 1, delay)) + if site(url, 1).Loaded? then [url] else [url, url]
  {
    var prev := DayTrace(site, date, names, n - 1, delay);
    var last := SectionEvents(site, names[n - 1], date, delay);
    assert DayTrace(site, date, names, n, delay) == prev + last;
    VisitsOfAppend(prev, last);
    SectionVisits(site, names[n - 1], date, delay);
  }

  /** The number of articles over all sections, as `show` and `scrapeToday` report it. */
  function TotalArticles(entries: seq<SectionEntry>): nat
    decreases |entries|
  {
    if entries == [] then 0
    else TotalArticles(entries[..|entries| - 1]) + |entries[|entries| - 1].articles|
  }

  /** An archive file's content: a valid archive, or something that does not parse as one. */
  datatype Stored = Parsed(archive: DayArchive) | Unparseable

  /**
   * Scraping distinct section names gives exactly those keys, in that order, each
   * with its section's result.
   */
  lemma ScrapeEntriesSpec(site: Site, date: string, names: seq<string>, n: nat)
    requires Distinct(names) && n <= |names|
    ensures Names(ScrapeEntries(site, date, names, n)) == names[..n]
    ensures forall s :: s in names[..n] ==>
      Lookup(ScrapeEntries(site, date, names, n), s) == Some(SectionResult(site, s, date))
  {
    var result := s => SectionResult(site, s, date);
    PutAllNames(names, result, n);
    PutAllLookup(names, result, n);
    forall s | s in names[..n]
      ensures Lookup(ScrapeEntries(site, date, names, n), s) == Some(SectionResult(site, s, date))
    {
      var k :| 0 <= k < n && names[..n][k] == s;
      assert names[k] == s;
    }
  }

  /** Storing under distinct names gives exactly those keys, in that order. */
  lemma {:induction false} PutAllNames(names: seq<string>, result: string -> seq<Article>, n: nat)
    requires Distinct(names) && n <= |names|
    ensures Names(PutAll(names, result, n)) == names[..n]
  {
    if n > 0 {
      var prev := PutAll(names, result, n - 1);
      var last := names[n - 1];
      assert Names(prev) == names[..n - 1] by {
        PutAllNames(names, result, n - 1);
      }
      assert Names(PutAll(names, result, n)) == if last in Names(prev) then Names(prev) else Names(prev) + [last] by {
        PutNames(prev, last, result(last));
      }
      assert last !in names[..n - 1] by {
        DistinctLast(names, n);
      }
      NamesStep(Names(PutAll(names, result, n)), Names(prev), names, n);
    }
  }

  /** A name of a distinct list does not occur before it. */
  lemma DistinctLast(names: seq<string>, n: nat)
    requires Distinct(names) && 0 < n <= |names|
    ensures names[n - 1] !in names[..n - 1]
  {
    forall i | 0 <= i < n - 1 ensures names[i] != names[n - 1] { }
  }

  /** Appending a name not seen before extends the first `n - 1` names to the first `n`. */
  lemma NamesStep(after: seq<string>, before: seq<string>, names: seq<string>, n: nat)
    requires 0 < n <= |names| && names[n - 1] !in names[..n - 1]
    requires before == names[..n - 1]
    requires after == if names[n - 1] in before then before else before + [names[n - 1]]
    ensures after == names[..n]
  {
    assert names[..n] == names[..n - 1] + [names[n - 1]];
  }

  /** After storing under the first `n` names, each of them finds its result. */
  lemma {:induction false} PutAllLookup(names: seq<string>, result: string -> seq<Article>, n: nat)
    requires n <= |names|
    ensures forall k :: 0 <= k < n ==> Lookup(PutAll(names, result, n), names[k]) == Some(result(names[k]))
  {
    if n > 0 {
      var prev := PutAll(names, result, n - 1);
      var last := names[n - 1];
      PutAllLookup(names, result, n - 1);
      PutLookup(prev, last, result(last));
      assert PutAll(names, result, n) == Put(prev, last, result(last));
      forall k | 0 <= k < n
        ensures Lookup(Put(prev, last, result(last)), names[k]) == Some(result(names[k]))
      {
        if names[k] != last {
          assert k < n - 1;
          assert Lookup(prev, names[k]) == Some(result(names[k]));
        }
      }
    }
  }

  /**
   * Every configured section is a key of the day's archive, in the configured order,
   * mapped to its parsed articles, or to `[]` when its fetch failed; the date is
   * the requested one.
   */
  lemma DayFromSiteComplete(site: Site, date: string)
    ensures var day := DayFromSite(site, date);
      && day.date == date
      && Names(day.sections) == Sections
      && forall n :: n in Sections ==> Lookup(day.sections, n) == Some(SectionResult(site, n, date))
  {
    assert Distinct(Sections);
    ScrapeEntriesSpec(site, date, Sections, |Sections|);
    assert Sections[..|Sections|] == Sections;
  }

  /** A section whose fetch fails twice is present with an empty list; the others are unaffected. */
  lemma FailedSectionIsEmpty(site: Site, date: string, section: string)
    requires section in Sections
    requires site(SectionUrl(section, date), 1).NavError? && site(SectionUrl(section, date), 2).NavError?
    ensures Lookup(DayFromSite(site, date).sections, section) == Some([])
  {
    DayFromSiteComplete(site, date);
    SectionResultFacts(site, section, date);
  }

  /**
   * Every article filed under a section carries that section and the archive's
   * date, and titles within a section are unique.
   */
  lemma ArchivedArticlesTagged(site: Site, date: string, section: string)
    requires section in Sections
    ensures var arts := Lookup(DayFromSite(site, date).sections, section);
      && arts.Some? && UniqueTitles(arts.value)
      && forall i :: 0 <= i < |arts.value| ==> arts.value[i].section == section && arts.value[i].date == date
  {
    DayFromSiteComplete(site, date);
    SectionResultFacts(site, section, date);
  }

  /** Adding a section adds its count to the total. */
  lemma TotalArticlesAppend(entries: seq<SectionEntry>, e: SectionEntry)
    ensures TotalArticles(entries + [e]) == TotalArticles(entries) + |e.articles|
  {
    assert (entries + [e])[..|entries|] == entries;
  }

  /** The total is the length of all section lists laid end to end. */
  lemma {:induction false} TotalArticlesIsFlattenedLength(entries: seq<SectionEntry>)
    ensures TotalArticles(entries) == |Flatten(entries)|
    decreases |entries|
  {
    if entries != [] {
      TotalArticlesIsFlattenedLength(entries[..|entries| - 1]);
    }
  }

  /** All articles of all sections, section after section. */
  function Flatten(entries: seq<SectionEntry>): seq<Article>
    decreases |entries|
  {
    if entries == [] then [] else Flatten(entries[..|entries| - 1]) + entries[|entries| - 1].articles
  }
}
