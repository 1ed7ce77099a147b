/** The author cache of `get_author_info` / `_fetch_author_info`, for calls that run one after
    another. The in-flight map keeps its role (a URL registered there is not fetched again) but
    its task handles are not modelled: a call that finds its URL in flight takes the value the
    running fetch produces. */
module AuthorCache {
  import opened Wrappers

  /** The three biography fields; each is absent when the author page lacks its element. */
  datatype AuthorInfo = AuthorInfo(fullName: Option<string>, bornDate: Option<string>, bornLocation: Option<string>)

  /** The all-absent info, returned for a missing URL and published for a failed fetch. */
  const NoInfo: AuthorInfo := AuthorInfo(None, None, None)

  /** `_fetch_author_info`, given what `get_soup` produced for the author page: the parsed
      fields, or None when the page could not be fetched. */
  function FetchAuthorInfo(page: Option<AuthorInfo>): (info: AuthorInfo)
    ensures page.None? ==> info == NoInfo
    ensures page.Some? ==> info == page.value
  {
    page.GetOr(NoInfo)
  }

  /** The scraper's shared state: the cache, the in-flight URLs and the log of fetches started,
      in order (its length is the fetch count). */
  datatype State = State(cache: map<string, AuthorInfo>, inflight: set<string>, fetched: seq<string>)

  /** The state of a freshly constructed scraper. */
  const Initial: State := State(map[], {}, [])

  /** What the first locked section decides: a cache hit, or a wait on a fetch for the URL,
      which it registers (and counts) when none is running. */
  datatype Entry = Hit(info: AuthorInfo) | Wait(state: State)

  function Enter(s: State, url: string): (e: Entry)
    ensures url in s.cache ==> e == Hit(s.cache[url])
    ensures url !in s.cache ==> e.Wait? && e.state.cache == s.cache && url in e.state.inflight
    ensures url !in s.cache && url in s.inflight ==> e == Wait(s)
    ensures url !in s.cache && url !in s.inflight ==>
      e.state.fetched == s.fetched + [url] && e.state.inflight - {url} == s.inflight
  {
    if url in s.cache then Hit(s.cache[url])
    else if url in s.inflight then Wait(s)
    else Wait(s.(inflight := s.inflight + {url}, fetched := s.fetched + [url]))
  }

  /** The two locked sections after the fetch: the URL leaves the in-flight map, then the
      result is published with `setdefault`, which never replaces an existing entry. */
  function Finish(s: State, url: string, info: AuthorInfo): (s': State)
    ensures s'.inflight == s.inflight - {url}
    ensures s'.fetched == s.fetched
    ensures s'.cache.Keys == s.cache.Keys + {url}
    ensures forall u :: u in s.cache ==> s'.cache[u] == s.cache[u]
    ensures url !in s.cache ==> s'.cache[url] == info
  {
    var popped := s.(inflight := s.inflight - {url});
    if url in popped.cache then popped else popped.(cache := popped.cache[url := info])
  }

  /** The info a call returns together with the state it leaves. */
  datatype Lookup = Lookup(info: AuthorInfo, state: State)

  /** `get_author_info(url)`, where `fetchInfo(u)` is what `_fetch_author_info(u)` produces. */
  function GetAuthorInfo(s: State, url: Option<string>, fetchInfo: string -> AuthorInfo): (r: Lookup)
    ensures !NonEmpty(url) ==> r == Lookup(NoInfo, s)
    ensures NonEmpty(url) && url.value in s.cache ==> r == Lookup(s.cache[url.value], s)
    ensures NonEmpty(url) && url.value !in s.cache ==> r.info == fetchInfo(url.value)
    ensures NonEmpty(url) ==> url.value in r.state.cache
    ensures NonEmpty(url) && url.value !in s.cache ==> r.state.cache[url.value] == r.info
    ensures NonEmpty(url) && url.value !in s.cache ==> r.state.inflight == s.inflight - {url.value}
    ensures r.state.cache.Keys == s.cache.Keys + (if NonEmpty(url) then {url.value} else {})
    ensures forall u :: u in s.cache ==> r.state.cache[u] == s.cache[u]
    ensures r.state.fetched == s.fetched || r.state.fetched == s.fetched + [url.value]
    ensures r.state.fetched != s.fetched <==> NonEmpty(url) && url.value !in s.cache && url.value !in s.inflight
  {
    match url
    case None => Lookup(NoInfo, s)
    case Some(u) =>
      if u == "" then Lookup(NoInfo, s)
      else
        match Enter(s, u)
        case Hit(info) => Lookup(info, s)
        case Wait(s1) =>
          var info := fetchInfo(u);
          Lookup(info, Finish(s1, u, info))
  }

  /** What a call for `url` resolves to when author pages are given by `fetchInfo`. */
  function Resolved(url: Option<string>, fetchInfo: string -> AuthorInfo): AuthorInfo {
    if NonEmpty(url) then fetchInfo(url.value) else NoInfo
  }

  /** The state between calls: nothing in flight, each URL fetched at most once, exactly the
      fetched URLs cached, and every cached value the one its page yields. */
  ghost predicate Consistent(s: State, fetchInfo: string -> AuthorInfo) {
    && s.inflight == {}
    && NoRepeats(s.fetched)
    && LogMatchesCache(s)
    && CacheCoherent(s, fetchInfo)
  }

  /** No URL occurs twice in a fetch log. */
  ghost predicate NoRepeats(log: seq<string>) {
    forall i, j :: 0 <= i < j < |log| ==> log[i] != log[j]
  }

  /** The fetch log holds exactly the cached URLs, once each. */
  ghost predicate LogMatchesCache(s: State) {
    && (forall u :: u in s.fetched <==> u in s.cache)
    && |s.fetched| == |s.cache|
  }

  /** Every cached value is the one the author page yields. */
  ghost predicate CacheCoherent(s: State, fetchInfo: string -> AuthorInfo) {
    forall u :: u in s.cache ==> s.cache[u] == fetchInfo(u)
  }

  lemma InitialConsistent(fetchInfo: string -> AuthorInfo)
    ensures Consistent(Initial, fetchInfo)
  {
  }

  /** A call from a consistent state returns the resolved info and keeps the state consistent;
      in particular no URL is ever fetched twice, and a failed fetch's `NoInfo` stays cached. */
  lemma GetAuthorInfoConsistent(s: State, url: Option<string>, fetchInfo: string -> AuthorInfo)
    requires Consistent(s, fetchInfo)
    ensures Consistent(GetAuthorInfo(s, url, fetchInfo).state, fetchInfo)
    ensures GetAuthorInfo(s, url, fetchInfo).info == Resolved(url, fetchInfo)
  {
    var r := GetAuthorInfo(s, url, fetchInfo);
    if NonEmpty(url) && url.value !in s.cache {
      var u := url.value;
      assert u !in s.fetched;
      assert r.state == State(s.cache[u := fetchInfo(u)], {}, s.fetched + [u]);
      forall i, j | 0 <= i < j < |r.state.fetched|
        ensures r.state.fetched[i] != r.state.fetched[j]
      {
        if j == |s.fetched| {
          assert s.fetched[i] in s.fetched;
        }
      }
      forall v
        ensures v in r.state.fetched <==> v in r.state.cache
      {
        assert v in r.state.fetched <==> v in s.fetched || v == u;
      }
    } else {
      assert r.state == s;
    }
  }

  /** Two calls in a row for the same URL fetch it once: the second is a cache hit that returns
      the first call's info and changes nothing. */
  lemma RepeatedLookupFetchesOnce(s: State, url: string, fetchInfo: string -> AuthorInfo)
    requires url != "" && url !in s.cache && url !in s.inflight
    ensures GetAuthorInfo(s, Some(url), fetchInfo).state.fetched == s.fetched + [url]
    ensures GetAuthorInfo(GetAuthorInfo(s, Some(url), fetchInfo).state, Some(url), fetchInfo)
         == Lookup(GetAuthorInfo(s, Some(url), fetchInfo).info, GetAuthorInfo(s, Some(url), fetchInfo).state)
  {
  }

  /** An author page that cannot be fetched publishes `NoInfo`, which is cached like a success:
      a later call returns it without fetching again. */
  lemma FailedAuthorFetchIsCached(s: State, url: string, authorPage: string -> Option<AuthorInfo>)
    requires url != "" && url !in s.cache && url !in s.inflight
    requires authorPage(url).None?
    ensures var first := GetAuthorInfo(s, Some(url), u => FetchAuthorInfo(authorPage(u)));
      && first.info == NoInfo
      && first.state.cache[url] == NoInfo
      && url !in first.state.inflight
      && GetAuthorInfo(first.state, Some(url), u => FetchAuthorInfo(authorPage(u))) == Lookup(NoInfo, first.state)
  {
  }

  /** The non-empty URLs among `urls`. */
  function PresentUrls(urls: seq<Option<string>>): set<string> {
    set i | 0 <= i < |urls| && NonEmpty(urls[i]) :: urls[i].value
  }

  /** The infos of a `gather` over several calls, and the state after the last. */
  datatype GatherRun = GatherRun(infos: seq<AuthorInfo>, state: State)

  /** `asyncio.gather(get_author_info(u) for u in urls)`, with the calls run in order. */
  function Gather(s: State, urls: seq<Option<string>>, fetchInfo: string -> AuthorInfo): (r: GatherRun)
    ensures |r.infos| == |urls|
    ensures forall u :: u in s.cache ==> u in r.state.cache && r.state.cache[u] == s.cache[u]
    decreases |urls|
  {
    if urls == [] then GatherRun([], s)
    else
      var first := GetAuthorInfo(s, urls[0], fetchInfo);
      var rest := Gather(first.state, urls[1..], fetchInfo);
      GatherRun([first.info] + rest.infos, rest.state)
  }

  /** From a consistent state, gathering keeps the state consistent, caches every non-empty
      URL, and grows the fetch count by exactly the number of distinct new URLs: one fetch per
      author page, however many quotes cite it. */
  lemma {:induction false} GatherConsistent(s: State, urls: seq<Option<string>>, fetchInfo: string -> AuthorInfo)
    requires Consistent(s, fetchInfo)
    ensures Consistent(Gather(s, urls, fetchInfo).state, fetchInfo)
    ensures Gather(s, urls, fetchInfo).state.cache.Keys == s.cache.Keys + PresentUrls(urls)
    ensures |Gather(s, urls, fetchInfo).state.fetched| == |s.fetched| + |PresentUrls(urls) - s.cache.Keys|
    decreases |urls|
  {
    if urls != [] {
      var first := GetAuthorInfo(s, urls[0], fetchInfo);
      GetAuthorInfoConsistent(s, urls[0], fetchInfo);
      GatherConsistent(first.state, urls[1..], fetchInfo);
      var r := Gather(s, urls, fetchInfo);
      assert r.state == Gather(first.state, urls[1..], fetchInfo).state;
      PresentUrlsCons(urls);
      UnionStep(s.cache.Keys, first.state.cache.Keys, r.state.cache.Keys,
                if NonEmpty(urls[0]) then {urls[0].value} else {}, PresentUrls(urls[1..]));
      ConsistentSizes(s, r.state, fetchInfo);
    }
  }

  /** From a consistent state, the i-th info gathered is the one resolved for the i-th URL, so
      the result does not depend on which quote first asked for an author. */
  lemma {:induction false} GatherResolves(s: State, urls: seq<Option<string>>, fetchInfo: string -> AuthorInfo)
    requires Consistent(s, fetchInfo)
    ensures forall i :: 0 <= i < |urls| ==> Gather(s, urls, fetchInfo).infos[i] == Resolved(urls[i], fetchInfo)
    decreases |urls|
  {
    if urls != [] {
      var first := GetAuthorInfo(s, urls[0], fetchInfo);
      GetAuthorInfoConsistent(s, urls[0], fetchInfo);
      GatherResolves(first.state, urls[1..], fetchInfo);
      var rest := Gather(first.state, urls[1..], fetchInfo);
      assert Gather(s, urls, fetchInfo).infos == [first.info] + rest.infos;
      ResolvedCons(urls, first.info, rest.infos, fetchInfo);
    }
  }

  lemma UnionStep(k0: set<string>, k1: set<string>, k2: set<string>, head: set<string>, tail: set<string>)
    requires k1 == k0 + head && k2 == k1 + tail
    ensures k2 == k0 + (head + tail)
    ensures k2 - k0 == (head + tail) - k0
  {
  }

  lemma ResolvedCons(urls: seq<Option<string>>, head: AuthorInfo, tail: seq<AuthorInfo>, fetchInfo: string -> AuthorInfo)
    requires urls != [] && |tail| == |urls| - 1
    requires head == Resolved(urls[0], fetchInfo)
    requires forall i :: 0 <= i < |tail| ==> tail[i] == Resolved(urls[1..][i], fetchInfo)
    ensures forall i :: 0 <= i < |urls| ==> ([head] + tail)[i] == Resolved(urls[i], fetchInfo)
  {
    forall i | 0 < i < |urls|
      ensures ([head] + tail)[i] == Resolved(urls[i], fetchInfo)
    {
      assert urls[1..][i - 1] == urls[i];
    }
  }

  lemma PresentUrlsCons(urls: seq<Option<string>>)
    requires urls != []
    ensures PresentUrls(urls) == (if NonEmpty(urls[0]) then {urls[0].value} else {}) + PresentUrls(urls[1..])
  {
    forall v | v in PresentUrls(urls)
      ensures v in (if NonEmpty(urls[0]) then {urls[0].value} else {}) + PresentUrls(urls[1..])
    {
      var i :| 0 <= i < |urls| && NonEmpty(urls[i]) && urls[i].value == v;
      if i > 0 {
        assert urls[1..][i - 1] == urls[i];
      }
    }
    forall v | v in PresentUrls(urls[1..])
      ensures v in PresentUrls(urls)
    {
      var i :| 0 <= i < |urls[1..]| && NonEmpty(urls[1..][i]) && urls[1..][i].value == v;
      assert urls[i + 1] == urls[1..][i];
    }
  }

  /** Between two consistent states whose caches are nested, the fetch log grows by the number
      of newly cached URLs. */
  lemma ConsistentSizes(s: State, t: State, fetchInfo: string -> AuthorInfo)
    requires Consistent(s, fetchInfo) && Consistent(t, fetchInfo)
    requires s.cache.Keys <= t.cache.Keys
    ensures |t.fetched| == |s.fetched| + |t.cache.Keys - s.cache.Keys|
  {
    assert t.cache.Keys == s.cache.Keys + (t.cache.Keys - s.cache.Keys);
    assert |t.cache.Keys| == |s.cache.Keys| + |t.cache.Keys - s.cache.Keys|;
  }

  /** From a fresh scraper, gathering the infos of `urls` fetches each distinct non-empty URL
      exactly once and nothing else. */
  lemma GatherFromInitialFetchesEachUrlOnce(urls: seq<Option<string>>, fetchInfo: string -> AuthorInfo)
    ensures |Gather(Initial, urls, fetchInfo).state.fetched| == |PresentUrls(urls)|
    ensures forall u :: u in Gather(Initial, urls, fetchInfo).state.fetched <==> u in PresentUrls(urls)
    ensures forall i, j :: 0 <= i < j < |Gather(Initial, urls, fetchInfo).state.fetched| ==>
      Gather(Initial, urls, fetchInfo).state.fetched[i] != Gather(Initial, urls, fetchInfo).state.fetched[j]
  {
    InitialConsistent(fetchInfo);
    GatherConsistent(Initial, urls, fetchInfo);
  }
}
