/** `scrape_all_quotes`: the pagination loop, over a site given as the `get_soup` result of every
    URL. The loop carries a fuel bound, since a site whose next links form a cycle would keep the
    source crawling for ever; a run that exhausts its fuel is reported as not complete. */
module Crawl {
  import opened Wrappers
  import opened Config
  import opened Fetcher
  import opened AuthorCache
  import opened QuotePage

  /** What `get_soup` yields for each URL: a parsed listing page, and the parsed author fields. */
  datatype Site = Site(listing: string -> Option<ListingPage>, authorPage: string -> Option<AuthorInfo>)

  /** The site as seen through `fetch_html` (default retry count) and the HTML parser, where
      `net(u)` gives the outcome of each attempt to fetch `u`. */
  function SiteOver(net: string -> nat -> AttemptOutcome, delay: real,
                    parseListing: string -> ListingPage, parseAuthor: string -> AuthorInfo): (site: Site)
    ensures forall u :: site.listing(u).None? <==> FetchHtml(net(u), DefaultMaxRetries, delay).body.None?
    ensures forall u :: site.authorPage(u).None? <==> FetchHtml(net(u), DefaultMaxRetries, delay).body.None?
  {
    Site(u => GetSoup(net(u), delay, parseListing), u => GetSoup(net(u), delay, parseAuthor))
  }

  /** `_fetch_author_info` over the site. */
  function AuthorLookup(site: Site): string -> AuthorInfo {
    u => FetchAuthorInfo(site.authorPage(u))
  }

  /** Through the fetcher, `_fetch_author_info` yields the parsed fields of the first successful
      attempt's body, and the all-absent info when no attempt of the allowance succeeds. */
  lemma AuthorLookupOverFetch(net: string -> nat -> AttemptOutcome, delay: real,
                              parseListing: string -> ListingPage, parseAuthor: string -> AuthorInfo, u: string)
    ensures forall k :: FirstSuccessAt(net(u), k) ==>
      AuthorLookup(SiteOver(net, delay, parseListing, parseAuthor))(u) == parseAuthor(net(u)(k).body)
    ensures (forall k :: !FirstSuccessAt(net(u), k)) ==>
      AuthorLookup(SiteOver(net, delay, parseListing, parseAuthor))(u) == NoInfo
  {
    var page := GetSoup(net(u), delay, parseAuthor);
    assert SiteOver(net, delay, parseListing, parseAuthor).authorPage(u) == page;
  }

  /** The records gathered, the page URLs visited in order, the author-cache state at the end, and
      whether the loop ended by itself (rather than by running out of fuel). */
  datatype CrawlRun = CrawlRun(records: seq<Record>, visited: seq<string>, state: State, complete: bool)

  /** The `while next_page_url:` loop from `current` on, with at most `fuel` iterations, where
      `process(s, u)` is the page step (`scrape_quotes_page(u)` from author-cache state `s`). */
  function CrawlFrom(process: (State, string) -> PageRun, s: State, current: Option<string>, fuel: nat): (r: CrawlRun)
    ensures |r.visited| <= fuel
    ensures !NonEmpty(current) ==> r == CrawlRun([], [], s, true)
    ensures NonEmpty(current) && fuel > 0 ==> |r.visited| > 0 && r.visited[0] == current.value
    decreases fuel
  {
    if !NonEmpty(current) then CrawlRun([], [], s, true)
    else if fuel == 0 then CrawlRun([], [], s, false)
    else
      var page := process(s, current.value);
      var rest := CrawlFrom(process, page.state, page.next, fuel - 1);
      CrawlRun(page.records + rest.records, [current.value] + rest.visited, rest.state, rest.complete)
  }

  /** `scrape_quotes_page` over the site, author links being joined against `baseUrl`. */
  function ProcessPage(site: Site, baseUrl: string, join: (string, string) -> string): (State, string) -> PageRun {
    (s: State, u: string) => ScrapeQuotesPage(s, u, site.listing(u), baseUrl, join, AuthorLookup(site))
  }

  /** `scrape_all_quotes()`: the crawl starts at the configured base URL. */
  function ScrapeAllQuotes(cfg: Settings, site: Site, join: (string, string) -> string, s: State, fuel: nat): (r: CrawlRun)
    ensures cfg.baseUrl == "" ==> r == CrawlRun([], [], s, true)
    ensures cfg.baseUrl != "" && fuel > 0 ==> |r.visited| > 0 && r.visited[0] == cfg.baseUrl
  {
    CrawlFrom(ProcessPage(site, cfg.baseUrl, join), s, Some(cfg.baseUrl), fuel)
  }

  /** The next URL that processing page `u` produces. */
  function PageNext(site: Site, join: (string, string) -> string, u: string): Option<string> {
    match site.listing(u)
    case None => None
    case Some(p) => NextUrl(p, u, join)
  }

  /** The reference records of page `u`: none when it fails to load. */
  function PageRecordsAt(site: Site, baseUrl: string, join: (string, string) -> string, u: string): seq<Record> {
    match site.listing(u)
    case None => []
    case Some(p) => PageRecords(p, baseUrl, join, AuthorLookup(site))
  }

  /** `chain` is a pagination under `next`: each page's next URL is the following entry, and
      the last page (possibly one that failed to load) has no usable next URL. */
  ghost predicate IsChain(next: string -> Option<string>, chain: seq<string>) {
    && |chain| >= 1
    && (forall i :: 0 <= i < |chain| ==> chain[i] != "")
    && (forall i :: 0 <= i < |chain| - 1 ==> next(chain[i]) == Some(chain[i + 1]))
    && !NonEmpty(next(chain[|chain| - 1]))
  }

  /** The records of the pages of a chain, concatenated in order. */
  function ChainRecords(records: string -> seq<Record>, chain: seq<string>): seq<Record> {
    if chain == [] then [] else records(chain[0]) + ChainRecords(records, chain[1..])
  }

  /** A page step that, from any state satisfying `inv`, yields `records(u)` and `next(u)` and
      keeps `inv`. */
  ghost predicate StepMeets(process: (State, string) -> PageRun, inv: State -> bool,
                            records: string -> seq<Record>, next: string -> Option<string>) {
    forall s, u :: inv(s) ==>
      && process(s, u).records == records(u)
      && process(s, u).next == next(u)
      && inv(process(s, u).state)
  }

  lemma ChainTail(next: string -> Option<string>, chain: seq<string>)
    requires IsChain(next, chain) && |chain| > 1
    ensures IsChain(next, chain[1..])
    ensures next(chain[0]) == Some(chain[1..][0])
  {
    var tail := chain[1..];
    forall i | 0 <= i < |tail| - 1
      ensures next(tail[i]) == Some(tail[i + 1])
    {
      assert tail[i] == chain[i + 1] && tail[i + 1] == chain[i + 2];
    }
  }

  /** Given enough fuel, the loop over a chain visits exactly the chain's pages, once each and in
      order, returns the concatenation of their records, and keeps the step's invariant. */
  lemma {:induction false} CrawlFollowsChain(process: (State, string) -> PageRun, inv: State -> bool,
                                             records: string -> seq<Record>, next: string -> Option<string>,
                                             s: State, chain: seq<string>, fuel: nat)
    requires StepMeets(process, inv, records, next) && inv(s)
    requires IsChain(next, chain)
    requires fuel >= |chain|
    ensures CrawlFrom(process, s, Some(chain[0]), fuel).complete
    ensures CrawlFrom(process, s, Some(chain[0]), fuel).visited == chain
    ensures CrawlFrom(process, s, Some(chain[0]), fuel).records == ChainRecords(records, chain)
    ensures inv(CrawlFrom(process, s, Some(chain[0]), fuel).state)
    decreases |chain|
  {
    var u := chain[0];
    var page := process(s, u);
    assert page.records == records(u) && page.next == next(u) && inv(page.state);
    var rest := CrawlFrom(process, page.state, page.next, fuel - 1);
    var r := CrawlFrom(process, s, Some(u), fuel);
    assert r == CrawlRun(page.records + rest.records, [u] + rest.visited, rest.state, rest.complete);
    var tail := chain[1..];
    assert chain == [u] + tail;
    assert ChainRecords(records, chain) == records(u) + ChainRecords(records, tail);
    if |chain| > 1 {
      ChainTail(next, chain);
      CrawlFollowsChain(process, inv, records, next, page.state, tail, fuel - 1);
      assert rest == CrawlFrom(process, page.state, Some(tail[0]), fuel - 1);
    } else {
      assert rest == CrawlRun([], [], page.state, true);
    }
  }

  /** Conversely, a loop that ends by itself has walked a chain starting at its first URL. */
  lemma {:induction false} CompleteCrawlIsChain(process: (State, string) -> PageRun, next: string -> Option<string>,
                                                s: State, current: Option<string>, fuel: nat)
    requires forall s', u :: process(s', u).next == next(u)
    requires NonEmpty(current)
    requires CrawlFrom(process, s, current, fuel).complete
    ensures IsChain(next, CrawlFrom(process, s, current, fuel).visited)
    ensures CrawlFrom(process, s, current, fuel).visited[0] == current.value
    decreases fuel
  {
    var u := current.value;
    var page := process(s, u);
    var rest := CrawlFrom(process, page.state, page.next, fuel - 1);
    var visited := CrawlFrom(process, s, current, fuel).visited;
    assert visited == [u] + rest.visited;
    if NonEmpty(page.next) {
      CompleteCrawlIsChain(process, next, page.state, page.next, fuel - 1);
      forall i | 0 <= i < |visited| - 1
        ensures next(visited[i]) == Some(visited[i + 1])
      {
        if i > 0 {
          assert visited[i] == rest.visited[i - 1] && visited[i + 1] == rest.visited[i];
        }
      }
    } else {
      assert visited == [u];
    }
  }

  /** The scraper's page step meets its reference on a consistent author cache. */
  lemma ProcessPageMeetsReference(site: Site, baseUrl: string, join: (string, string) -> string)
    ensures StepMeets(ProcessPage(site, baseUrl, join), s => Consistent(s, AuthorLookup(site)),
                      u => PageRecordsAt(site, baseUrl, join, u), u => PageNext(site, join, u))
  {
    forall s, u | Consistent(s, AuthorLookup(site))
      ensures ProcessPage(site, baseUrl, join)(s, u).records == PageRecordsAt(site, baseUrl, join, u)
      ensures Consistent(ProcessPage(site, baseUrl, join)(s, u).state, AuthorLookup(site))
    {
      if site.listing(u).Some? {
        ScrapeQuotesPageRecords(s, u, site.listing(u).value, baseUrl, join, AuthorLookup(site));
      }
    }
  }

  /** A first page that fails to load ends the crawl at once with no records. */
  lemma FailedFirstPageEndsCrawl(cfg: Settings, site: Site, join: (string, string) -> string, s: State, fuel: nat)
    requires cfg.baseUrl != "" && fuel > 0
    requires site.listing(cfg.baseUrl).None?
    ensures ScrapeAllQuotes(cfg, site, join, s, fuel) == CrawlRun([], [cfg.baseUrl], s, true)
  {
  }

  /** When all three attempts to fetch the base URL fail in transport, the crawl visits that one
      URL, collects no record and leaves the author cache as it was. */
  lemma UnreachableSiteYieldsNothing(cfg: Settings, net: string -> nat -> AttemptOutcome, delay: real,
                                     parseListing: string -> ListingPage, parseAuthor: string -> AuthorInfo,
                                     join: (string, string) -> string, s: State, fuel: nat)
    requires cfg.baseUrl != "" && fuel > 0
    requires forall j :: 1 <= j <= DefaultMaxRetries ==> net(cfg.baseUrl)(j).TransportError?
    ensures ScrapeAllQuotes(cfg, SiteOver(net, delay, parseListing, parseAuthor), join, s, fuel)
         == CrawlRun([], [cfg.baseUrl], s, true)
  {
    FetchGivesUp(net(cfg.baseUrl), DefaultMaxRetries, delay);
    FailedFirstPageEndsCrawl(cfg, SiteOver(net, delay, parseListing, parseAuthor), join, s, fuel);
  }

  /** A fresh scraper over an N-page chain starting at the base URL yields the pages' records in
      order after exactly N page loads, and fetches each author page at most once in the whole
      crawl. */
  lemma ScrapeAllQuotesOverChain(cfg: Settings, site: Site, join: (string, string) -> string, chain: seq<string>, fuel: nat)
    requires IsChain(u => PageNext(site, join, u), chain) && chain[0] == cfg.baseUrl
    requires fuel >= |chain|
    ensures ScrapeAllQuotes(cfg, site, join, Initial, fuel).complete
    ensures ScrapeAllQuotes(cfg, site, join, Initial, fuel).visited == chain
    ensures ScrapeAllQuotes(cfg, site, join, Initial, fuel).records
         == ChainRecords(u => PageRecordsAt(site, cfg.baseUrl, join, u), chain)
    ensures NoRepeats(ScrapeAllQuotes(cfg, site, join, Initial, fuel).state.fetched)
  {
    var inv := s => Consistent(s, AuthorLookup(site));
    InitialConsistent(AuthorLookup(site));
    ProcessPageMeetsReference(site, cfg.baseUrl, join);
    CrawlFollowsChain(ProcessPage(site, cfg.baseUrl, join), inv,
                      u => PageRecordsAt(site, cfg.baseUrl, join, u), u => PageNext(site, join, u),
                      Initial, chain, fuel);
  }

  /** Conversely, a crawl of the scraper that ends by itself has followed the site's pagination
      from the base URL. */
  lemma CompleteScrapeFollowsPagination(cfg: Settings, site: Site, join: (string, string) -> string, s: State, fuel: nat)
    requires cfg.baseUrl != ""
    requires ScrapeAllQuotes(cfg, site, join, s, fuel).complete
    ensures IsChain(u => PageNext(site, join, u), ScrapeAllQuotes(cfg, site, join, s, fuel).visited)
    ensures ScrapeAllQuotes(cfg, site, join, s, fuel).visited[0] == cfg.baseUrl
  {
    CompleteCrawlIsChain(ProcessPage(site, cfg.baseUrl, join), u => PageNext(site, join, u), s, Some(cfg.baseUrl), fuel);
  }
}
