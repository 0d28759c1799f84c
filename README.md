# Dawn archive scraper, modelled in Dafny

The Dawn archive scraper builds a "twelve years ago today" edition of the Dawn
newspaper. For a date it fetches five section pages (`front-page`, `back-page`,
`national`, `editorial`, `business`) with a headless browser and extracts
articles from each page. Each article has a title, a link, a summary, an
optional image, its section and its date. The scraper drops duplicate titles
and saves the day as a JSON archive. The scraper exists twice: a JavaScript
command-line tool (`src/utilities/scrape.js`) and a Python FastAPI backend
(`backend_fastapi/main.py`). The backend also caches archives, computes
"today twelve years ago" and "tomorrow", and prunes archive files older than
today.

This project models that extraction pipeline and proves what it promises:

- **Shared specification modules** (`text.dfy`, `dom.dfy`, `image.dfy`,
  `extraction.dfy`, `archive.dfy`, `calendar.dfy`). These are pure functions
  and lemmas.
  - The image-URL cascade and URL normalisation.
  - Per-element article building, and deduplication by title, where the first
    occurrence wins.
  - Selector priority: the first selector that yields any article decides the
    result.
  - Assembling a day's sections.
  - What a day scrape does that the outside world can observe: navigations
    and pauses.
  - Gregorian dates with `%Y-%m-%d` formatting and parsing.
- **`scrape.dfy`** (module `Scrape`) follows the JavaScript code.
  - `parseSection` is written as the nested loops it is.
  - The `DawnScraper` object is a class with the browser handle and the
    archive file as fields.
- **`backend.dfy`** (module `Backend`) follows the Python code.
  - `resolve_image_url` and `parse_section` are written as loops with early
    exits.
  - The `DawnScraper` object is a class with the Playwright handles, the
    in-memory `cache` and the data directory as fields.
  - It also holds the date helpers and the pruning loop of `get_today`.

Each loop method is proved equal to the shared specification function, e.g.
`ParseSection` and `ParseSectionPy` both return `ParseSpec`. The properties
are proved once, about the specification.

External parts are parameters:

- **The web site.** A `Site` maps a URL and an attempt number (1 or 2) to a
  loaded page or a navigation error.
- **A page.** A `Page` gives each CSS selector's matched elements, in document
  order.
- **An element.** An `Element` carries what the HTML library extracts: the
  `<img>` attributes, the first `<source>` of the first `<picture>`, the title
  link's text and `href`, and the summary text.
- **The clock.** `now` is a `Date` argument.

## Model

| member | source | states |
|---|---|---|
| Text.Trim | src/utilities/scrape.js:175 | `trim()` and `strip()`: leading and trailing whitespace removed. `TrimEnds`, `TrimSlice` and `TrimIdempotent` state its properties |
| Text.Before | src/utilities/scrape.js:19 | `split(sep)[0]`: the result is a prefix of the text without `sep`, and when it is shorter than the text the next character is `sep` |
| Text.StrLess | backend_fastapi/main.py:331 | Python's `<` on strings: the first differing character decides, and a proper prefix comes first. `FormatOrder` relates it to dates |
| Text.TrimEnds | src/utilities/scrape.js:175 | a trimmed title or summary has no whitespace at either end |
| Text.TrimIdempotent | src/utilities/scrape.js:175-177 | trimming an already trimmed text changes nothing |
| ImageUrl.ResolveImageUrl | src/utilities/scrape.js:5-35 | the rules are tried in order, and the first that applies gives the result: a usable `data-src`, then a usable `data-original`, then the first candidate of the `<img>` `srcset` when it is not a placeholder, then the first candidate of the picture's `srcset`, then a usable `src`. A `data:image` result is only possible on the picture path. The result is absent exactly when all five rules fail |
| ImageUrl.PlaceholderAttrIgnored | src/utilities/scrape.js:11-32 | a `data:image` value in `data-src`, `data-original` or `src` gives the same result as if that attribute were missing |
| ImageUrl.PlaceholderSrcsetIgnored | src/utilities/scrape.js:17-21 | an `<img>` `srcset` whose first candidate is a placeholder gives the same result as no `srcset` |
| ImageUrl.PicturePlaceholderReturned | src/utilities/scrape.js:23-29 | when rules 1-3 fail, a placeholder candidate of the picture's `srcset` is returned unfiltered |
| ImageUrl.FirstCandidate | src/utilities/scrape.js:19 | the first candidate contains no comma and no space, and does not start with whitespace |
| ImageUrl.FirstCandidateOf | src/utilities/scrape.js:19 | for a `srcset` of the form whitespace, then URL `u`, then nothing or `,…` or ` …`, the first candidate is exactly `u` |
| ImageUrl.NormalizeImageUrl | src/utilities/scrape.js:182-190 | there is an image exactly when the raw URL is set and non-empty. A `//…` URL gets `https:` in front, an `http…` URL is kept unchanged, and any other URL gets `https://www.dawn.com` in front |
| ImageUrl.NormalizeImageUrlIdempotent | src/utilities/scrape.js:182-190 | normalising a normalised image URL changes nothing |
| Extraction.NormalizeArticleUrl | src/utilities/scrape.js:195 | the link equals the `href` exactly when the `href` starts with `http`. Otherwise it is `https://www.dawn.com` followed by the `href` |
| Extraction.NormalizeArticleUrlIdempotent | src/utilities/scrape.js:195 | normalising a normalised article link changes nothing |
| Extraction.BuildArticle | src/utilities/scrape.js:170-203 | an element yields an article exactly when it has non-blank title text and a non-empty `href`. The article is well formed: trimmed non-empty title, `http` link and image, the given section and date. Its title is the trimmed link text, its `url` is the normalised `href`, its summary is the trimmed summary text (or empty), and its `imageUrl` is the normalised resolved image |
| Extraction.Step | src/utilities/scrape.js:192-203 | one element's article is appended unless it has none or an article with its title is already collected (`some` then `push`). `DedupKeepsFirstOccurrences` states its effect over a whole list |
| Extraction.Dedup | src/utilities/scrape.js:192-203 | every kept article was built from some element, titles are unique, and nothing is added |
| Extraction.Extract | src/utilities/scrape.js:169-205 | the articles of one selector's matches are well formed, have unique titles, and number at most the matches |
| Extraction.DedupPrefix | src/utilities/scrape.js:203 | the articles collected from a prefix of the matches stay, unchanged, at the front |
| Extraction.DedupTitles | src/utilities/scrape.js:192 | a title is collected exactly when some match yields an article with that title |
| Extraction.DedupKeepsFirstOccurrences | src/utilities/scrape.js:192-203 | an article is collected exactly when it is the first article with its title in document order |
| Extraction.ExtractKeepsFirstOccurrences | src/utilities/scrape.js:169-205 | the same, stated for a selector's matched elements |
| Extraction.LinkYields | src/utilities/scrape.js:192-203 | one match with a usable title link makes the selector yield |
| Extraction.YieldHasLink | src/utilities/scrape.js:192-203 | a selector that yields has a match with a usable title link |
| Extraction.WiderSelectorYields | src/utilities/scrape.js:164-208 | a selector whose matches include another's yields whenever the other does |
| Extraction.FirstYielding | src/utilities/scrape.js:164-208 | the chosen selector is the first in list order that yields any article, and none is chosen when none yields |
| Extraction.ParseFrom | src/utilities/scrape.js:164-208 | trying the first `n` selectors in order keeps the first non-empty result (the `break`). Every article is well formed and titles are unique. `ParseFromFirstYielding` ties it to `FirstYielding` |
| Extraction.ParseSpec | src/utilities/scrape.js:152-211 | every parsed article is well formed for the section and date, and titles are unique |
| Extraction.ParseFromFirstYielding | src/utilities/scrape.js:164-208 | trying the selectors in order gives the articles of the first yielding selector, or `[]` |
| Extraction.ParseFromExtends | src/utilities/scrape.js:207 | once a selector has yielded, later selectors change nothing (the `break`) |
| Extraction.ParseUsesFirstYieldingSelector | src/utilities/scrape.js:164-210 | the result is empty exactly when no selector yields. Otherwise it is exactly one selector's articles, and every earlier selector yields none |
| Extraction.NoMatchesParsesEmpty | src/utilities/scrape.js:164-210 | a page on which no selector matches parses to `[]` without error |
| Extraction.TrailingSelectorsNeverChosen | src/utilities/scrape.js:156-162 | on any page consistent with CSS, `.box.story` and `.story-list article` never decide the result |
| Archive.Put | src/utilities/scrape.js:132-142 | `sections[name] = articles` on the ordered list of section entries. `PutSpec` states its effect |
| Archive.PutSpec | src/utilities/scrape.js:132-142 | after `sections[name] = articles` the key maps to `articles` and every other key keeps its list. A new key goes last |
| Archive.FetchOutcome | src/utilities/scrape.js:88-107 | a fetch succeeds exactly when the first or the retried navigation loads. A first success gives that page, and a failed first attempt followed by a loaded retry gives the retry's page |
| Archive.Attempts | src/utilities/scrape.js:88-102 | a fetch navigates to its URL once, or twice exactly when the first attempt fails |
| Archive.SectionResult | src/utilities/scrape.js:126-143 | a section's list is the parsed page when the fetch succeeds and `[]` when it fails (the `catch`). `SectionResultFacts` states its properties |
| Archive.SectionResultFacts | src/utilities/scrape.js:126-143 | a section whose fetch fails gets `[]`. Every stored article carries the section and date, and titles are unique |
| Archive.ScrapeEntriesSpec | src/utilities/scrape.js:123-144 | scraping distinct names gives exactly those keys in that order, each mapped to its own section result |
| Archive.DayFromSite | src/utilities/scrape.js:114-150 | the archive `scrapeDay` builds: the date, and the five sections scraped in order. `DayFromSiteComplete` states its contents |
| Archive.DayFromSiteComplete | src/utilities/scrape.js:114-150 | the archive has the requested date, exactly the five section keys in order, and each key's parsed list or `[]` |
| Archive.FailedSectionIsEmpty | src/utilities/scrape.js:140-143 | a section whose two navigations both fail is stored as `[]` |
| Archive.ArchivedArticlesTagged | src/utilities/scrape.js:192-199 | every article filed under a section carries that section and the archive's date, and titles in a section are unique |
| Archive.PausesPerFetchedSection | src/utilities/scrape.js:126-143 | the scrape pauses once per successfully fetched section, never otherwise, and always for the configured delay |
| Archive.VisitsPerSection | src/utilities/scrape.js:123-144 | `n` sections cause between `n` and `2n` navigations, all to those sections' URLs |
| Archive.TotalArticles | src/utilities/scrape.js:239-245 | the running `total` over the sections: each section's list length added in turn. `TotalArticlesIsFlattenedLength` states what it counts |
| Archive.TotalArticlesIsFlattenedLength | src/utilities/scrape.js:239-245 | the running total is the number of articles over all sections |
| Scrape.VisitElement | src/utilities/scrape.js:169-205 | one element's callback appends its article exactly when it has a title and link and its title is new. Otherwise it leaves the list unchanged |
| Scrape.ParseSection | src/utilities/scrape.js:152-211 | the nested loops with `continue` and `break` compute exactly `ParseSpec` |
| Scrape.DawnScraper.constructor | src/utilities/scrape.js:38-44 | no browser is held and nothing has happened yet |
| Scrape.DawnScraper.InitBrowser | src/utilities/scrape.js:50-58 | a browser is launched only when none is held. The held handle is returned |
| Scrape.DawnScraper.CloseBrowser | src/utilities/scrape.js:60-65 | the handle is always cleared. A browser is closed only if one was held |
| Scrape.DawnScraper.FetchPage | src/utilities/scrape.js:77-112 | the result is the fetch outcome, with at most two navigations. The page is closed on both outcomes. A browser is launched only if none was held |
| Scrape.DawnScraper.SaveArchive | src/utilities/scrape.js:67-75 | the archive file now holds the day's archive |
| Scrape.DawnScraper.ScrapeSection | src/utilities/scrape.js:126-143 | a section's key gets its parsed list, or `[]` when the fetch fails. The delay follows only a successful fetch |
| Scrape.DawnScraper.ScrapeSections | src/utilities/scrape.js:123-144 | the loop assembles every section's entry in order, on the one open browser |
| Scrape.DawnScraper.ScrapeDayOver | src/utilities/scrape.js:114-150 | over any section list: one launch at most, exactly one close, the handle cleared, the navigation and pause trace, and the saved archive |
| Scrape.DawnScraper.ScrapeDay | src/utilities/scrape.js:114-150 | `scrapeDay` returns and saves `DayFromSite`. It launches the browser at most once and closes it exactly once |
| Scrape.DawnScraper.ShowArchive | src/utilities/scrape.js:231-250 | the total is the article count over all sections. It is absent when the file is missing or unreadable |
| Calendar.YearsAgoDate | backend_fastapi/main.py:246 | `replace(year=y-12)` keeps month and day and lowers the year by 12. It fails exactly for a year below 1 or for 29 February in a non-leap target year |
| Calendar.NextDay | backend_fastapi/main.py:256 | adding one day gives the least valid date after the given one. It fails only after 9999-12-31 |
| Calendar.FormatDate | backend_fastapi/main.py:247 | the written date has ten characters with dashes at positions 4 and 7 |
| Calendar.ParseDate | backend_fastapi/main.py:255 | a string that parses is a valid date, and writing that date back gives the string |
| Calendar.ParseFormatRoundTrip | backend_fastapi/main.py:247-255 | parsing a written date gives the date back |
| Calendar.FormatOrder | backend_fastapi/main.py:331 | written dates compare as strings exactly as the dates compare in time |
| Backend.ResolveImageUrlPy | backend_fastapi/main.py:66-95 | the Python cascade with its attribute loop computes exactly `ResolveImageUrl` |
| Backend.CollectElement | backend_fastapi/main.py:140-178 | one pass of the element loop appends an article exactly when the JavaScript callback would |
| Backend.ParseSectionPy | backend_fastapi/main.py:122-183 | `parse_section` computes exactly `ParseSpec` |
| Backend.FileName | backend_fastapi/main.py:222 | the file of a date is the date followed by `.json` |
| Backend.Stem | backend_fastapi/main.py:330 | the stem of a `.json` file is its name without `.json`. A file named only `.json` is its own stem |
| Backend.StemOfFileName | backend_fastapi/main.py:328-330 | the stem of a date's file is the date |
| Backend.Pruned | backend_fastapi/main.py:325-334 | a file remains exactly when it is not a `.json` file, or its stem is not less than today, or its unlink fails. Contents do not change |
| Backend.PruneByDate | backend_fastapi/main.py:325-334 | a date's archive file survives pruning exactly when the date is not earlier than today, or its unlink fails |
| Backend.PrunedIdempotent | backend_fastapi/main.py:325-334 | pruning again against the same day removes nothing more |
| Backend.TodaysDate | backend_fastapi/main.py:244-247 | today's date string exists exactly when `replace` succeeds, and it parses back to the date twelve years ago |
| Backend.TomorrowsDate | backend_fastapi/main.py:253-257 | tomorrow's string exists exactly when the date twelve years ago does, and it parses back to the calendar day after that date |
| Backend.TomorrowFollowsToday | backend_fastapi/main.py:253-257 | tomorrow exists exactly when today does. It is the calendar successor of today, and its string sorts after today's |
| Backend.TodayNotPruned | backend_fastapi/main.py:322-334 | today's own archive file is never pruned |
| Backend.DawnScraper.constructor | backend_fastapi/main.py:41-47 | no handles are held, the cache is empty, and the data directory is the given one |
| Backend.DawnScraper.InitBrowser | backend_fastapi/main.py:49-56 | Playwright is started and a browser launched only when no browser is held |
| Backend.DawnScraper.CloseBrowser | backend_fastapi/main.py:58-64 | both handles are cleared. A browser is closed only if one was held |
| Backend.DawnScraper.FetchPage | backend_fastapi/main.py:97-120 | the result is the fetch outcome, with at most two navigations. The page is closed on both outcomes |
| Backend.DawnScraper.SaveArchive | backend_fastapi/main.py:220-227 | `<date>.json` now holds the archive. The other files are unchanged |
| Backend.DawnScraper.ScrapeSection | backend_fastapi/main.py:195-208 | a section's key gets its parsed list, or `[]` when the fetch raises. The delay follows only a successful fetch |
| Backend.DawnScraper.ScrapeSections | backend_fastapi/main.py:195-208 | the loop assembles every section's entry in order, on the one open browser |
| Backend.DawnScraper.ScrapeDayOver | backend_fastapi/main.py:185-218 | over any section list: the archive, its file, `cache[date]`, one launch at most, one close, both handles cleared, and the trace |
| Backend.DawnScraper.ScrapeDay | backend_fastapi/main.py:185-218 | `scrape_day` returns `DayFromSite`, writes it to its file and caches it under its date |
| Backend.DawnScraper.LoadArchive | backend_fastapi/main.py:229-242 | a missing or invalid file gives None and leaves the cache alone. A valid one is returned and cached under the date |
| Backend.DawnScraper.PruneOldFiles | backend_fastapi/main.py:325-334 | the loop leaves exactly `Pruned` of the directory it started with |
| Backend.DawnScraper.EnsureTomorrowExists | backend_fastapi/main.py:259-272 | when tomorrow cannot be computed, or its file already exists, no field changes. Otherwise tomorrow is scraped, saved and cached as `scrape_day` does: both handles cleared, one launch at most, one close, and the day's trace |

## Left out

- Browser automation is left out: Puppeteer and Playwright, viewport, user agent, `networkidle` waits and `page.content()`. A navigation is an outcome read from `Site`, and page HTML is the `Page` it parses to. The 60-second timeout is part of what `Site` reports.
- HTML parsing is left out: Cheerio, BeautifulSoup and CSS selector matching. A `Page` maps each selector to its matches. `CssConsistent` states what CSS guarantees about two pairs of selectors.
- Title and summary text: `text()` and `get_text()` are inputs, and `Trim` models `trim()` and `strip=True`. Python's `get_text(strip=True)` strips each text fragment and joins them. The model strips the joined text instead, so whitespace between nested tags is not modelled.
- Text.Trim: `IsSpace` is the ASCII whitespace set (space, `\t`, `\n`, `\v`, `\f`, `\r`). Python's `strip` and `get_text(strip=True)` (`backend_fastapi/main.py:78`, `backend_fastapi/main.py:87`, `backend_fastapi/main.py:146-148`) also remove U+001C to U+001F, and both languages also remove Unicode spaces. On such input the Python results differ from the model: `"\x1fimg.jpg 2x"` gives `img.jpg` in Python and `\x1fimg.jpg` in the model.
- Files and serialisation are left out: `mkdir`, writes, `unlink`, `glob`, JSON and pydantic. Files are a map from name to `Parsed(archive)` or `Unparseable`. Write errors are not modelled.
- Console logging and the `sleep` itself are left out. A pause is only recorded in the trace, in milliseconds. Python's `self.delay = 2` seconds is 2000 here.
- The clock is a parameter: `datetime.now(PKT)` becomes the `now` argument, and the time zone is not modelled.
- `cached_at` (`backend_fastapi/main.py:37`, `backend_fastapi/main.py:190`) is a clock reading stored in the archive and in its file. The model's `DayArchive` has no such field.
- `scrapeToday` (`src/utilities/scrape.js:213-229`) is left out: it computes the date from the UTC clock with `setFullYear` and logs a count. The count is the same `TotalArticles` that `ShowArchive` proves.
- Concurrency is left out: the backend methods are modelled as calls that run alone. In the server one global `scraper` (`backend_fastapi/main.py:276`) is shared by request handlers that await `scrape_day` (`backend_fastapi/main.py:371`) and by background tasks (`backend_fastapi/main.py:346`, `backend_fastapi/main.py:388`). Such runs can interleave at every `await`: two can both launch a browser, and one can close the browser the other is still using. Backend.DawnScraper.ScrapeDay, Backend.DawnScraper.ScrapeDayOver and Backend.DawnScraper.EnsureTomorrowExists promise their launch, close, handle, cache and trace facts only for a call that runs alone.
- The CLI `main` is left out, and so is the FastAPI layer: routes, the API key, CORS, `lifespan`, `get_date` with its `strptime` check, `precompute_next_day` and `get_files_info`. `get_today` is covered only through its pruning loop and `load_archive`.
- Only the second `get_tomorrows_date` (`backend_fastapi/main.py:253-257`) is modelled. The first one (`backend_fastapi/main.py:249-251`) is shadowed by it and never runs.
- Calendar.FormatDate: years are always written with four digits. `strftime('%Y')` may not zero-pad years below 1000, and those years are far from any date the program handles.
- Calendar.ParseDate: only the canonical `YYYY-MM-DD` form is accepted. `strptime` also accepts numbers that are not zero-padded, which `strftime` never produces.
- Backend.DawnScraper.PruneOldFiles: files are visited in an arbitrary order (glob order is not modelled). An unlink that raises is given by the `failing` set.
- Exceptions inside parsing are not modelled: the model's parser always returns. Only a failed fetch sends a section to the error path. Any error sends a section to `[]`, and the model gives that same result for a failed fetch.
- Browser handles are counters. `launches`, `closes`, `openPages` and `trace` are fields that record what the program does to the outside world.
- Pauses: the pause sits inside the `try`, after the parse (`src/utilities/scrape.js:139`, `backend_fastapi/main.py:205`), so a failed fetch is not followed by one. The model follows the code.
