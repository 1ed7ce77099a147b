# Quote-Scraper decision logic in Dafny

This project models the sequential decision logic of the asynchronous quote scraper
(`QuoteScraper` in `scrape_quotes.py`, plus `Config.validate` in `config.py`), and proves
properties of the model. The network, the HTML parser, `urljoin` and the event loop become
abstract inputs:

- **Retry policy** (`fetcher.dfy`, module `Fetcher`). `fetch_html` is a pure function of an
  oracle that gives the outcome of each numbered attempt: a transport error, or a response with
  a status and a body. It returns the body (or None) and a trace of events: the rate-limit sleep,
  the attempt, and the backoff sleep of j seconds. A closed-form reference trace states the
  linear backoff exactly. `get_soup` is the fetch followed by a parse function.
- **Author cache** (`author_cache.dfy`, module `AuthorCache`). `get_author_info` is a state
  transition over the cache, the set of in-flight URLs and the log of fetches started (its
  length is the fetch count). The author page's parsed fields come from an oracle. Calls run one
  after another, and `asyncio.gather` is the calls in order.
- **Page assembly** (`quote_page.dfy`, module `QuotePage`). `scrape_quotes_page` works on
  pre-parsed quote blocks: optional text, optional author name, tag texts, optional author href.
  It filters the blocks, resolves the author infos, merges them by `zip`, and computes the next
  URL.
- **Crawl driver** (`crawl.dfy`, module `Crawl`). `scrape_all_quotes` is a fuel-bounded loop over
  a site, which gives the `get_soup` result of every URL.
- **CSV rows and configuration** (`csv_rows.dfy`, module `CsvRows`; `config.dfy`, module `Config`).
  A record becomes six cells in the header's order, with its tags joined by `", "`. The three
  checks of `Config.validate` are modelled with their messages and order.

`wrappers.dfy` holds `Option` and `NonEmpty`, which is Python's truthiness test on an
`Optional[str]`.

Author links are joined against `Config.BASE_URL` (scrape_quotes.py:163), not against the page's own URL. The next
link is joined against the page URL (scrape_quotes.py:183).

## Model

| member | source | states |
|---|---|---|
| Config.Validate | config.py:24-34 | validation succeeds iff the base URL is non-empty, the timeout is positive and the delay is non-negative; otherwise the message is that of the first failing check, in the order base URL, timeout, delay |
| Config.DefaultsAreValid | config.py:9-14 | the default settings (`https://quotes.toscrape.com/`, timeout 15, delay 0.5) pass validation |
| Config.ValidateBoundaries | config.py:30-34 | a timeout of exactly 0 is rejected with the timeout message; a delay of exactly 0 is accepted |
| Config.ValidateIgnoresUncheckedSettings | config.py:13-34 | the concurrency bound, user agent and output paths do not affect validation |
| Fetcher.FetchHtml | scrape_quotes.py:62-83 | every attempt in the trace is numbered between 1 and max_retries and comes right after a rate-limit sleep; a returned body is the body of a 200 response to some allowed attempt |
| Fetcher.StandardTraceShape | scrape_quotes.py:63-82 | a fetch that made n attempts has 3n-1 events; it starts with a rate-limit sleep and ends with attempt n, so there is no backoff after the last attempt; each backoff follows attempt j, lasts exactly j and comes before the next rate-limit sleep |
| Fetcher.FetchReturnsFirstSuccess | scrape_quotes.py:63-71 | if attempts 1..k-1 fail in transport and attempt k gets a 200, the result is exactly that body and the trace holds k attempts; no later outcome is consulted |
| Fetcher.FetchStopsOnBadStatus | scrape_quotes.py:67-70 | a non-200 status on attempt k returns None at once, with no further attempt and no backoff |
| Fetcher.FetchGivesUp | scrape_quotes.py:72-83 | when every allowed attempt fails in transport, exactly max_retries attempts are made and the result is None; with max_retries below 1 nothing is attempted |
| Fetcher.RetryThenSucceed | scrape_quotes.py:62-83 | with 3 attempts, two transport failures then a 200 yield the body, after backoffs of 1 and 2 |
| Fetcher.DefaultFetchDecided | scrape_quotes.py:62-83 | with three attempts allowed, the fetch returns a body exactly when some attempt is the first to answer and answers 200 after transport failures only, and the body is that attempt's |
| Fetcher.GetSoup | scrape_quotes.py:85-89 | a parsed page is present exactly when some attempt of the default three is the first success (every earlier attempt failed in transport, it answered 200), and it is the parse of that attempt's body; it is absent exactly when the fetch failed |
| AuthorCache.Enter | scrape_quotes.py:120-128 | a cached URL is a hit; otherwise the URL ends up in flight, and a fetch is registered and counted only when none was in flight |
| AuthorCache.Finish | scrape_quotes.py:130-137 | the URL leaves the in-flight set; `setdefault` adds the URL's value when it is absent and never changes an existing entry |
| AuthorCache.GetAuthorInfo | scrape_quotes.py:112-139 | an absent or empty URL returns the all-absent info and changes nothing; a cached URL returns the cached value and changes nothing; otherwise the fetched info is returned and the URL is cached with that info and not in flight; the cache only grows and no entry is overwritten; the fetch count grows by one exactly when the URL was neither cached nor in flight |
| AuthorCache.GetAuthorInfoConsistent | scrape_quotes.py:112-139 | from a consistent state (nothing in flight, no URL fetched twice, fetched URLs = cached URLs, cached values = page values), a call returns the info resolved for its URL and keeps the state consistent |
| AuthorCache.RepeatedLookupFetchesOnce | scrape_quotes.py:120-128 | two calls in a row for a new URL fetch it once; the second returns the first one's info and changes nothing |
| AuthorCache.FailedAuthorFetchIsCached | scrape_quotes.py:98-100 | a failed author fetch publishes the all-absent info, which is cached; a later call returns it with no fetch |
| AuthorCache.GatherConsistent | scrape_quotes.py:177 | gathering over a page's URLs keeps the state consistent and caches every non-empty URL; the fetch count grows by the number of distinct URLs not already cached |
| AuthorCache.GatherResolves | scrape_quotes.py:177 | from a consistent state, the i-th gathered info is the one resolved for the i-th URL |
| AuthorCache.GatherFromInitialFetchesEachUrlOnce | scrape_quotes.py:120-137 | from a fresh scraper, the fetch log holds each distinct non-empty URL exactly once and nothing else |
| QuotePage.KeptBlocks | scrape_quotes.py:149-154 | a block is kept iff it has both a text element and an author element |
| QuotePage.KeptBlocksAtPositions | scrape_quotes.py:149-175 | the kept blocks are the page's blocks at strictly increasing positions, so document order is preserved |
| QuotePage.KeptPositionsAreCompleteOnes | scrape_quotes.py:153-154 | a position is selected exactly when its block has both required elements |
| QuotePage.KeptBlocksAppend | scrape_quotes.py:149-175 | filtering distributes over concatenation of block lists |
| QuotePage.Merge | scrape_quotes.py:178-179 | each record keeps its text, name and tags; a record with an info takes that info's three author fields; a record past the end of the infos is unchanged |
| QuotePage.ScrapeQuotesPage | scrape_quotes.py:141-187 | a failed page fetch yields no records, no next URL and an unchanged state; otherwise the next URL is the page URL joined with a non-empty next href (None without one); there is one record per kept block, carrying that block's text, author name and tags in order |
| QuotePage.ScrapeQuotesPageRecords | scrape_quotes.py:149-179 | from a consistent cache the records are exactly the reference records: one per kept block, in order, with that block's fields and the info resolved for that block's author URL (href joined against the base URL) |
| QuotePage.SinglePageScenario | test_scrape_quotes.py:46-60 | the page of the repository's test yields one record with all six fields as given, and no next URL |
| Crawl.SiteOver | scrape_quotes.py:85-89 | a listing or author page is missing exactly when its fetch failed |
| Crawl.AuthorLookupOverFetch | scrape_quotes.py:91-110 | an author's info is the parse of the first successful attempt's body, and the all-absent info when none of the three attempts succeeds |
| Crawl.CrawlFrom | scrape_quotes.py:193-197 | an absent or empty URL ends the loop with nothing; otherwise the loop visits the current URL first, and at most fuel pages |
| Crawl.ScrapeAllQuotes | scrape_quotes.py:189-199 | the crawl starts at the base URL; an empty base URL visits nothing |
| Crawl.CrawlFollowsChain | scrape_quotes.py:189-199 | given enough fuel, the loop over a pagination chain visits exactly the chain's pages in order and returns their records concatenated in order |
| Crawl.CompleteCrawlIsChain | scrape_quotes.py:193-195 | a loop that ends by itself has visited a pagination chain starting at its first URL |
| Crawl.ProcessPageMeetsReference | scrape_quotes.py:141-187 | on a consistent cache the page step yields the page's reference records and next URL and keeps the cache consistent |
| Crawl.FailedFirstPageEndsCrawl | scrape_quotes.py:142-144 | a first page that fails to load ends the crawl after one visit with no records |
| Crawl.UnreachableSiteYieldsNothing | scrape_quotes.py:72-83 | when all three attempts on the base URL fail in transport, the crawl visits only the base URL, collects no record and leaves the author cache unchanged |
| Crawl.ScrapeAllQuotesOverChain | scrape_quotes.py:189-199 | from a fresh scraper, an N-page chain from the base URL is crawled in exactly N page loads; the records are those pages' records concatenated in order, and no author page is fetched twice |
| Crawl.CompleteScrapeFollowsPagination | scrape_quotes.py:189-199 | a crawl that ends by itself has followed the site's pagination from the base URL |
| CsvRows.ShapeRow | scrape_quotes.py:204-224 | the row has one cell per header column, and each cell is the dictionary's value under that column's name; a tag list becomes its `", "` join, another value its rendering, a missing entry the empty string; all other fields are copied unchanged |
| CsvRows.SplitJoinTags | scrape_quotes.py:219-221 | splitting the joined tags at `", "` gives the list back when no tag holds a comma, except for the list `[""]` |
| CsvRows.CsvRowRoundTrip | scrape_quotes.py:204-224 | a scraped record's row reads back as the same record when no tag holds a comma and the tag list is not `[""]` |
| CsvRows.JoinTestTags | scrape_quotes.py:221 | the test's tags `tag1`, `tag2` are written as `tag1, tag2` |

## Left out

- Session lifecycle (`__aenter__`, `__aexit__`, the `session` property), the client timeout and
  the request headers (scrape_quotes.py:29-60): network plumbing. Each attempt's outcome is an
  input instead, and a timeout is one kind of transport error.
- The concurrency semaphore (scrape_quotes.py:40, 66): it bounds in-flight requests, and the
  sequential model never has more than one.
- Exceptions other than `aiohttp.ClientError` and `asyncio.TimeoutError`: in the source they
  propagate out of `fetch_html`. The model has no such outcome.
- AuthorCache.GetAuthorInfo: the at-most-one-fetch-per-URL property is proved only for calls
  that run one after another, with `asyncio.gather` run as calls in order. Arbitrary
  interleavings of the lock sections are not modelled, including the gap between leaving the
  in-flight map and publishing to the cache (scrape_quotes.py:133-137). A call that finds its
  URL in flight takes the value that URL's fetch produces, and task handles are not modelled.
- BeautifulSoup selection and `get_text(strip=True)`: foreign. Pages arrive already parsed into
  blocks, a next href and author fields.
- `urllib.parse.urljoin`: foreign. It is an uninterpreted `join` function.
  QuotePage.SinglePageScenario assumes the joined author URL is non-empty, as any real join
  of the base URL is.
- `save_as_json`, the `csv.DictWriter` quoting and the UTF-8 byte-order mark, the choice of
  output path (`path or Config.OUTPUT_CSV`), and `open()`: output libraries and file I/O. Only
  the row shaping is modelled. Absent fields are kept as absent cells, and the writer renders
  them as empty cells. Record dictionaries have exactly the six typed fields, so the writer's
  handling of extra or missing keys is not modelled; a missing `tags` entry is.
- `str()` of a non-list `tags` value: it is an input (`OtherValue`), since Python's rendering is
  foreign.
- Environment reading, `dotenv`, and the `int`/`float` parsing of settings (config.py:1-22):
  I/O and foreign parsing. The delay is a real number, so floating-point rounding and NaN are
  not represented. In Python a NaN delay would pass the `< 0` check.
- `main` (scrape_quotes.py:232-257): logging, timing and printing.
- The log messages of `fetch_html` (scrape_quotes.py:69, 73-79) and `scrape_all_quotes`
  (scrape_quotes.py:194, 197): output only, they do not affect any result.
- Sleep durations: they are trace events that carry their argument. No time passes.
- Crawl.CrawlFrom: the loop carries a fuel bound and reports `complete = false` when the
  bound runs out. The source has no bound and never stops on a site whose next links form a
  cycle.
