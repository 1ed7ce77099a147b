/** `scrape_quotes_page`: one listing page turned into records. The HTML parser is replaced by
    pre-parsed blocks, and `urljoin` by an uninterpreted `join` function. */
module QuotePage {
  import opened Wrappers
  import opened AuthorCache

  /** One `div.quote` as the parser sees it: the text of its `span.text` and `small.author`
      elements (None when the element is missing), its tag texts in document order, and the
      `href` of its author link (None when there is no link or no attribute). */
  datatype QuoteBlock = QuoteBlock(
    text: Option<string>,
    authorName: Option<string>,
    tags: seq<string>,
    authorHref: Option<string>)

  /** A parsed listing page: its quote blocks in document order and the `href` of `li.next a`. */
  datatype ListingPage = ListingPage(blocks: seq<QuoteBlock>, nextHref: Option<string>)

  /** One output record with its six fields. */
  datatype Record = Record(
    quoteText: string,
    authorName: string,
    tags: seq<string>,
    authorFullName: Option<string>,
    authorBornDate: Option<string>,
    authorBornLocation: Option<string>)

  /** A block is kept when both its text and its author-name elements exist (an element with
      empty text still counts as present). */
  predicate IsComplete(b: QuoteBlock) {
    b.text.Some? && b.authorName.Some?
  }

  /** The blocks the page loop keeps, in the order it appends them. */
  function KeptBlocks(blocks: seq<QuoteBlock>): (kept: seq<QuoteBlock>)
    ensures |kept| <= |blocks|
    ensures forall b :: b in kept <==> b in blocks && IsComplete(b)
    ensures forall i :: 0 <= i < |kept| ==> IsComplete(kept[i])
  {
    if blocks == [] then []
    else
      var init := KeptBlocks(blocks[..|blocks| - 1]);
      var last := blocks[|blocks| - 1];
      assert blocks == blocks[..|blocks| - 1] + [last];
      if IsComplete(last) then init + [last] else init
  }

  /** The positions of the kept blocks in the page. */
  function KeptPositions(blocks: seq<QuoteBlock>): seq<nat> {
    if blocks == [] then []
    else
      var init := KeptPositions(blocks[..|blocks| - 1]);
      if IsComplete(blocks[|blocks| - 1]) then init + [|blocks| - 1] else init
  }

  /** Filtering is an order-preserving selection: the kept blocks are the blocks at the
      strictly increasing positions `KeptPositions`. */
  lemma {:induction false} KeptBlocksAtPositions(blocks: seq<QuoteBlock>)
    ensures |KeptPositions(blocks)| == |KeptBlocks(blocks)|
    ensures forall k :: 0 <= k < |KeptPositions(blocks)| ==>
      KeptPositions(blocks)[k] < |blocks| && KeptBlocks(blocks)[k] == blocks[KeptPositions(blocks)[k]]
    ensures forall k, l :: 0 <= k < l < |KeptPositions(blocks)| ==> KeptPositions(blocks)[k] < KeptPositions(blocks)[l]
  {
    if blocks != [] {
      var init := blocks[..|blocks| - 1];
      var last := blocks[|blocks| - 1];
      KeptBlocksAtPositions(init);
      var pos, kept := KeptPositions(blocks), KeptBlocks(blocks);
      var pos0, kept0 := KeptPositions(init), KeptBlocks(init);
      assert pos == (if IsComplete(last) then pos0 + [|blocks| - 1] else pos0);
      assert kept == (if IsComplete(last) then kept0 + [last] else kept0);
      forall k | 0 <= k < |pos|
        ensures pos[k] < |blocks| && kept[k] == blocks[pos[k]]
      {
        if k < |pos0| {
          assert pos[k] == pos0[k] && kept[k] == kept0[k];
          assert init[pos0[k]] == blocks[pos0[k]];
        }
      }
    }
  }

  /** The selected positions are exactly those of the complete blocks. */
  lemma {:induction false} KeptPositionsAreCompleteOnes(blocks: seq<QuoteBlock>)
    ensures forall j :: 0 <= j < |blocks| ==> (IsComplete(blocks[j]) <==> j in KeptPositions(blocks))
  {
    if blocks != [] {
      var init := blocks[..|blocks| - 1];
      KeptPositionsAreCompleteOnes(init);
      KeptPositionsBelow(init);
      var pos, pos0 := KeptPositions(blocks), KeptPositions(init);
      assert pos == (if IsComplete(blocks[|blocks| - 1]) then pos0 + [|blocks| - 1] else pos0);
      forall j | 0 <= j < |blocks|
        ensures IsComplete(blocks[j]) <==> j in pos
      {
        if j < |blocks| - 1 {
          assert blocks[j] == init[j];
          assert j in pos <==> j in pos0;
        }
      }
    }
  }

  lemma {:induction false} KeptPositionsBelow(blocks: seq<QuoteBlock>)
    ensures forall p :: p in KeptPositions(blocks) ==> p < |blocks|
  {
    if blocks != [] {
      KeptPositionsBelow(blocks[..|blocks| - 1]);
    }
  }

  /** Filtering a page split in two keeps each part's blocks, first part first. */
  lemma {:induction false} KeptBlocksAppend(a: seq<QuoteBlock>, b: seq<QuoteBlock>)
    ensures KeptBlocks(a + b) == KeptBlocks(a) + KeptBlocks(b)
    decreases |b|
  {
    if b == [] {
      assert a + b == a;
    } else {
      var b' := b[..|b| - 1];
      var x := b[|b| - 1];
      assert (a + b)[..|a + b| - 1] == a + b';
      assert (a + b)[|a + b| - 1] == x;
      KeptBlocksAppend(a, b');
    }
  }

  /** The author URL of a block: its non-empty link joined against the configured base URL. */
  function AuthorUrl(b: QuoteBlock, baseUrl: string, join: (string, string) -> string): Option<string> {
    if NonEmpty(b.authorHref) then Some(join(baseUrl, b.authorHref.value)) else None
  }

  /** The record appended for a kept block, before its author fields are filled in. */
  function Draft(b: QuoteBlock): Record
    requires IsComplete(b)
  {
    Record(b.text.value, b.authorName.value, b.tags, None, None, None)
  }

  /** The drafts of the kept blocks, in order. */
  function Drafts(kept: seq<QuoteBlock>): (drafts: seq<Record>)
    requires forall i :: 0 <= i < |kept| ==> IsComplete(kept[i])
    ensures |drafts| == |kept|
    ensures forall i :: 0 <= i < |kept| ==> drafts[i] == Draft(kept[i])
  {
    seq(|kept|, i requires 0 <= i < |kept| => Draft(kept[i]))
  }

  /** The author URLs of the kept blocks, in order. */
  function AuthorUrls(kept: seq<QuoteBlock>, baseUrl: string, join: (string, string) -> string): (urls: seq<Option<string>>)
    ensures |urls| == |kept|
    ensures forall i :: 0 <= i < |kept| ==> urls[i] == AuthorUrl(kept[i], baseUrl, join)
  {
    seq(|kept|, i requires 0 <= i < |kept| => AuthorUrl(kept[i], baseUrl, join))
  }

  /** `quote.update(info)`: the three author fields are replaced, the rest kept. */
  function WithAuthor(r: Record, info: AuthorInfo): Record {
    r.(authorFullName := info.fullName, authorBornDate := info.bornDate, authorBornLocation := info.bornLocation)
  }

  /** `for quote, info in zip(quotes, infos): quote.update(info)`: records past the shorter
      list stay as they are. */
  function Merge(drafts: seq<Record>, infos: seq<AuthorInfo>): (merged: seq<Record>)
    ensures |merged| == |drafts|
    ensures forall i :: 0 <= i < |drafts| ==>
      merged[i].quoteText == drafts[i].quoteText && merged[i].authorName == drafts[i].authorName
      && merged[i].tags == drafts[i].tags
    ensures forall i :: 0 <= i < |drafts| && i < |infos| ==>
      merged[i].authorFullName == infos[i].fullName && merged[i].authorBornDate == infos[i].bornDate
      && merged[i].authorBornLocation == infos[i].bornLocation
    ensures forall i :: |infos| <= i < |drafts| ==> merged[i] == drafts[i]
  {
    seq(|drafts|, i requires 0 <= i < |drafts| => if i < |infos| then WithAuthor(drafts[i], infos[i]) else drafts[i])
  }

  /** The next page: a non-empty `li.next a` href joined against the page's own URL. */
  function NextUrl(page: ListingPage, pageUrl: string, join: (string, string) -> string): Option<string> {
    if NonEmpty(page.nextHref) then Some(join(pageUrl, page.nextHref.value)) else None
  }

  /** The records of one page, its next URL, and the author-cache state afterwards. */
  datatype PageRun = PageRun(records: seq<Record>, next: Option<string>, state: State)

  /** `scrape_quotes_page(pageUrl)` where `soup` is what `get_soup(pageUrl)` produced and
      `fetchInfo(u)` what `_fetch_author_info(u)` produces. */
  function ScrapeQuotesPage(
    s: State, pageUrl: string, soup: Option<ListingPage>, baseUrl: string,
    join: (string, string) -> string, fetchInfo: string -> AuthorInfo): (r: PageRun)
    ensures soup.None? ==> r == PageRun([], None, s)
    ensures soup.Some? && NonEmpty(soup.value.nextHref) ==> r.next == Some(join(pageUrl, soup.value.nextHref.value))
    ensures soup.Some? && !NonEmpty(soup.value.nextHref) ==> r.next == None
    ensures soup.Some? ==> |r.records| == |KeptBlocks(soup.value.blocks)|
    ensures soup.Some? ==> forall i :: 0 <= i < |r.records| ==>
      var b := KeptBlocks(soup.value.blocks)[i];
      b.text == Some(r.records[i].quoteText) && b.authorName == Some(r.records[i].authorName)
      && r.records[i].tags == b.tags
    ensures forall u :: u in s.cache ==> u in r.state.cache && r.state.cache[u] == s.cache[u]
  {
    match soup
    case None => PageRun([], None, s)
    case Some(page) =>
      var kept := KeptBlocks(page.blocks);
      var gathered := Gather(s, AuthorUrls(kept, baseUrl, join), fetchInfo);
      PageRun(Merge(Drafts(kept), gathered.infos), NextUrl(page, pageUrl, join), gathered.state)
  }

  /** Reference meaning of a fetched page: one record per kept block, in order, carrying that
      block's text, author name and tags and the info resolved for that block's author URL. */
  function PageRecords(page: ListingPage, baseUrl: string, join: (string, string) -> string,
                       fetchInfo: string -> AuthorInfo): seq<Record>
  {
    RecordsOf(KeptBlocks(page.blocks), baseUrl, join, fetchInfo)
  }

  function RecordsOf(kept: seq<QuoteBlock>, baseUrl: string, join: (string, string) -> string,
                     fetchInfo: string -> AuthorInfo): seq<Record>
    requires forall i :: 0 <= i < |kept| ==> IsComplete(kept[i])
  {
    seq(|kept|, i requires 0 <= i < |kept| && IsComplete(kept[i]) =>
      var info := Resolved(AuthorUrl(kept[i], baseUrl, join), fetchInfo);
      Record(kept[i].text.value, kept[i].authorName.value, kept[i].tags,
             info.fullName, info.bornDate, info.bornLocation))
  }

  lemma MergeMatchesReference(kept: seq<QuoteBlock>, infos: seq<AuthorInfo>, baseUrl: string,
                              join: (string, string) -> string, fetchInfo: string -> AuthorInfo)
    requires forall i :: 0 <= i < |kept| ==> IsComplete(kept[i])
    requires |infos| == |kept|
    requires forall i :: 0 <= i < |kept| ==> infos[i] == Resolved(AuthorUrl(kept[i], baseUrl, join), fetchInfo)
    ensures Merge(Drafts(kept), infos) == RecordsOf(kept, baseUrl, join, fetchInfo)
  {
  }

  /** From a consistent author cache, a fetched page yields exactly its reference records, so the
      zip pairs every record with the info of its own block, and the cache stays consistent. */
  lemma ScrapeQuotesPageRecords(
    s: State, pageUrl: string, page: ListingPage, baseUrl: string,
    join: (string, string) -> string, fetchInfo: string -> AuthorInfo)
    requires Consistent(s, fetchInfo)
    ensures ScrapeQuotesPage(s, pageUrl, Some(page), baseUrl, join, fetchInfo).records
         == PageRecords(page, baseUrl, join, fetchInfo)
    ensures Consistent(ScrapeQuotesPage(s, pageUrl, Some(page), baseUrl, join, fetchInfo).state, fetchInfo)
  {
    var kept := KeptBlocks(page.blocks);
    var urls := AuthorUrls(kept, baseUrl, join);
    GatherResolves(s, urls, fetchInfo);
    GatherConsistent(s, urls, fetchInfo);
    MergeMatchesReference(kept, Gather(s, urls, fetchInfo).infos, baseUrl, join, fetchInfo);
  }

  /** The page of the repository's own test: one complete quote with two tags and an author
      link, no next link, and an author page with all three fields. */
  lemma SinglePageScenario(pageUrl: string, baseUrl: string, join: (string, string) -> string)
    requires join(baseUrl, "/author/test-author") != ""
    ensures
      var block := QuoteBlock(Some("“Test quote.”"), Some("Test Author"), ["tag1", "tag2"], Some("/author/test-author"));
      var info := AuthorInfo(Some("Test Author"), Some("January 1, 1900"), Some("in Test City, Test Country"));
      var r := ScrapeQuotesPage(Initial, pageUrl, Some(ListingPage([block], None)), baseUrl, join, u => info);
      r.next == None
      && r.records == [Record("“Test quote.”", "Test Author", ["tag1", "tag2"],
                              Some("Test Author"), Some("January 1, 1900"), Some("in Test City, Test Country"))]
  {
    var block := QuoteBlock(Some("“Test quote.”"), Some("Test Author"), ["tag1", "tag2"], Some("/author/test-author"));
    var info := AuthorInfo(Some("Test Author"), Some("January 1, 1900"), Some("in Test City, Test Country"));
    var fetchInfo: string -> AuthorInfo := u => info;
    assert [block][..0] == [];
    assert KeptBlocks([block]) == [block];
    InitialConsistent(fetchInfo);
    ScrapeQuotesPageRecords(Initial, pageUrl, ListingPage([block], None), baseUrl, join, fetchInfo);
    assert Resolved(AuthorUrl(block, baseUrl, join), fetchInfo) == info;
  }
}
