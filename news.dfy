/**
 * The news service (news.py): building article items from the search API and the RSS feeds,
 * merging and de-duplicating them by URL, and saving them to the store.
 *
 * The network is not modelled: the API's decoded answer, the parsed feed and the clock readings
 * used as default publication times are inputs (`Sources`), and `FetchNews` reports which
 * requests it would have sent.
 */
module News {
  import opened Wrappers
  import opened Seqs
  import opened Store

  /** The dict fetch_news builds per article. The API may give a null title or url. */
  datatype NewsItem = NewsItem(title: Option<string>, url: Option<string>, topic: string, publishedAt: Option<string>)

  /** One element of the API's `articles` array (JSON null stands as None). */
  datatype ApiArticle = ApiArticle(title: Option<string>, url: Option<string>, publishedAt: Option<string>)

  /** The API call: a `requests.RequestException`, or the `articles` list of the answer (`[]` when absent). */
  datatype ApiResponse = ApiFailed | ApiArticles(articles: seq<ApiArticle>)

  /** One entry of a parsed feed; `title` and `link` are None when the entry lacks the attribute. */
  datatype FeedEntry = FeedEntry(title: Option<string>, link: Option<string>, published: Option<string>)

  /** Parsing the feed: an exception, or the feed's entries. */
  datatype FeedResponse = FeedFailed | FeedEntries(entries: seq<FeedEntry>)

  /**
   * What the network and the clock answer when articles on one topic are fetched. The clock is read
   * once per feed entry: `clock(i)` is the reading taken while the `i`-th entry is converted.
   */
  datatype Sources = Sources(api: ApiResponse, feed: FeedResponse, clock: nat -> string)

  /** A request sent over the network: an API search, or a feed download. */
  datatype Request = NewsApiRequest(query: string, pageSize: int) | FeedRequest(feedUrl: string)

  /** The three configured feeds (news.py:19-23). */
  const RssFeeds: map<string, string> := map[
    "tecnologia" := "http://feeds.bbci.co.uk/news/technology/rss.xml",
    "games" := "https://www.engadget.com/rss.xml",
    "ciberseguranca" := "https://www.darkreading.com/rss.xml"
  ]

  /** `self.rss_feeds.get(topic, "")`. */
  function FeedUrl(topic: string): string {
    if topic in RssFeeds then RssFeeds[topic] else ""
  }

  /** Python truthiness of the configured API key: neither None nor the empty string. */
  predicate Truthy(key: Option<string>) {
    key.Some? && key.value != ""
  }

  /** `fetch_news_api`: one item per returned article, tagged with the topic; a request failure gives `[]`. */
  function FetchNewsApi(topic: string, response: ApiResponse): (r: seq<NewsItem>)
    ensures response.ApiFailed? ==> r == []
    ensures response.ApiArticles? ==> |r| == |response.articles|
    ensures response.ApiArticles? ==> forall i :: 0 <= i < |r| ==>
      && r[i].topic == topic
      && r[i].title == response.articles[i].title
      && r[i].url == response.articles[i].url
      && r[i].publishedAt == response.articles[i].publishedAt
  {
    match response
    case ApiFailed => []
    case ApiArticles(articles) =>
      ApiItems(topic, articles)
  }

  /** The item for one returned article. */
  function ArticleItem(a: ApiArticle, topic: string): NewsItem {
    NewsItem(a.title, a.url, topic, a.publishedAt)
  }

  /** The items of the articles, in order. */
  function ApiItems(topic: string, articles: seq<ApiArticle>): (r: seq<NewsItem>)
    ensures |r| == |articles| && forall i :: 0 <= i < |r| ==> r[i] == ArticleItem(articles[i], topic)
  {
    if articles == [] then []
    else ApiItems(topic, articles[..|articles| - 1]) + [ArticleItem(articles[|articles| - 1], topic)]
  }

  /** The item for a feed entry: the clock reading stands in for a missing `published`. */
  function EntryItem(e: FeedEntry, topic: string, now: string): NewsItem {
    NewsItem(e.title, e.link, topic, Some(if e.published.Some? then e.published.value else now))
  }

  /** The items of the entries, in order; entry `i` is dated by the `i`-th clock reading when it has no date. */
  function EntryItems(entries: seq<FeedEntry>, topic: string, clock: nat -> string): (r: seq<NewsItem>)
    ensures |r| == |entries| && forall i :: 0 <= i < |r| ==> r[i] == EntryItem(entries[i], topic, clock(i))
  {
    if entries == [] then []
    else EntryItems(entries[..|entries| - 1], topic, clock) + [EntryItem(entries[|entries| - 1], topic, clock(|entries| - 1))]
  }

  /** Every entry has the attributes the comprehension reads; otherwise AttributeError is raised. */
  predicate Readable(entries: seq<FeedEntry>) {
    forall e :: e in entries ==> e.title.Some? && e.link.Some?
  }

  /**
   * `fetch_rss_feed`: nothing for a topic without a feed; otherwise one item per entry of
   * `entries[:limit]`, in order, carrying the entry's title and link, tagged with the topic and
   * dated by the entry or, lacking a date, by the clock. Any exception while parsing, or a taken
   * entry without a title or link (AttributeError), gives `[]`.
   */
  function FetchRssFeed(topic: string, limit: int, feed: FeedResponse, clock: nat -> string): (r: seq<NewsItem>)
    ensures FeedUrl(topic) == "" ==> r == []
    ensures feed.FeedFailed? ==> r == []
    ensures limit >= 0 ==> |r| <= limit
    ensures FeedUrl(topic) != "" && feed.FeedEntries? && !Readable(PyPrefix(feed.entries, limit)) ==> r == []
    ensures FeedUrl(topic) != "" && feed.FeedEntries? && Readable(PyPrefix(feed.entries, limit)) ==>
      && |r| == |PyPrefix(feed.entries, limit)|
      && forall i :: 0 <= i < |r| ==>
        && r[i].topic == topic
        && r[i].title == feed.entries[i].title
        && r[i].url == feed.entries[i].link
        && r[i].publishedAt == Some(if feed.entries[i].published.Some? then feed.entries[i].published.value else clock(i))
    ensures forall i :: 0 <= i < |r| ==> r[i].title.Some? && r[i].url.Some?
  {
    if FeedUrl(topic) == "" then []
    else match feed
      case FeedFailed => []
      case FeedEntries(entries) =>
        var taken := PyPrefix(entries, limit);
        if Readable(taken) then EntryItems(taken, topic, clock) else []
  }

  // ---------------------------------------------------------------------------------------------
  // De-duplication by URL, first occurrence kept (news.py:84-88).

  function Urls(s: seq<NewsItem>): set<Option<string>> {
    set x | x in s :: x.url
  }

  predicate DistinctUrls(s: seq<NewsItem>) {
    forall i, j :: 0 <= i < j < |s| ==> s[i].url != s[j].url
  }

  /** `r` is `s` with some elements left out, the rest in their original order. */
  predicate SubsequenceOf(r: seq<NewsItem>, s: seq<NewsItem>)
    decreases |s|
  {
    if r == [] then true
    else if s == [] then false
    else (r[|r| - 1] == s[|s| - 1] && SubsequenceOf(r[..|r| - 1], s[..|s| - 1])) || SubsequenceOf(r, s[..|s| - 1])
  }

  /** The elements of `s` whose url does not occur earlier in `s`, in order. */
  function FirstOccurrences(s: seq<NewsItem>): seq<NewsItem> {
    if s == [] then []
    else
      var init := s[..|s| - 1];
      FirstOccurrences(init) + (if s[|s| - 1].url in Urls(init) then [] else [s[|s| - 1]])
  }

  /** The url set of a list grown by one element. */
  lemma UrlsSnoc(s: seq<NewsItem>, x: NewsItem)
    ensures Urls(s + [x]) == Urls(s) + {x.url}
  {
    assert forall y :: y in s + [x] <==> y in s || y == x;
  }

  /** Keeping first occurrences loses no url and never lengthens the list. */
  lemma {:induction false} FirstOccurrencesUrls(s: seq<NewsItem>)
    ensures Urls(FirstOccurrences(s)) == Urls(s)
    ensures |FirstOccurrences(s)| <= |s|
  {
    if s != [] {
      var init := s[..|s| - 1];
      var last := s[|s| - 1];
      FirstOccurrencesUrls(init);
      assert s == init + [last];
      UrlsSnoc(init, last);
      if last.url !in Urls(init) {
        UrlsSnoc(FirstOccurrences(init), last);
      }
    }
  }

  /** The urls left after keeping first occurrences are pairwise distinct. */
  lemma {:induction false} FirstOccurrencesDistinct(s: seq<NewsItem>)
    ensures DistinctUrls(FirstOccurrences(s))
  {
    if s != [] {
      var init := s[..|s| - 1];
      var last := s[|s| - 1];
      FirstOccurrencesDistinct(init);
      FirstOccurrencesUrls(init);
      var f := FirstOccurrences(init);
      if last.url !in Urls(init) {
        var r := f + [last];
        forall i, j | 0 <= i < j < |r| ensures r[i].url != r[j].url {
          if j == |r| - 1 {
            assert r[i] == f[i];
            assert f[i].url in Urls(f);
          } else {
            assert r[i] == f[i] && r[j] == f[j];
          }
        }
      }
    }
  }

  /** Keeping first occurrences keeps the relative order. */
  lemma {:induction false} FirstOccurrencesSubsequence(s: seq<NewsItem>)
    ensures SubsequenceOf(FirstOccurrences(s), s)
  {
    if s != [] {
      var init := s[..|s| - 1];
      var last := s[|s| - 1];
      FirstOccurrencesSubsequence(init);
      var f := FirstOccurrences(init);
      if last.url !in Urls(init) {
        var r := f + [last];
        assert r[..|r| - 1] == f;
      } else {
        assert FirstOccurrences(s) == f;
        SubsequenceDropLast(f, s);
      }
    }
  }

  /** A subsequence of `s` without its last element is a subsequence of `s`. */
  lemma SubsequenceDropLast(r: seq<NewsItem>, s: seq<NewsItem>)
    requires s != [] && SubsequenceOf(r, s[..|s| - 1])
    ensures SubsequenceOf(r, s)
  {
  }

  /** With no repeated url nothing is dropped, so de-duplicating twice changes nothing more. */
  lemma {:induction false} FirstOccurrencesOfDistinct(s: seq<NewsItem>)
    requires DistinctUrls(s)
    ensures FirstOccurrences(s) == s
  {
    if s != [] {
      var init := s[..|s| - 1];
      var last := s[|s| - 1];
      assert s == init + [last];
      assert DistinctUrls(init) by {
        forall i, j | 0 <= i < j < |init| ensures init[i].url != init[j].url {
          assert init[i] == s[i] && init[j] == s[j];
        }
      }
      FirstOccurrencesOfDistinct(init);
      assert forall y :: y in init ==> y.url != last.url by {
        forall y | y in init ensures y.url != last.url {
          var k :| 0 <= k < |init| && init[k] == y;
          assert s[k] == y;
        }
      }
      assert last.url !in Urls(init);
    }
  }

  lemma FirstOccurrencesIdempotent(s: seq<NewsItem>)
    ensures FirstOccurrences(FirstOccurrences(s)) == FirstOccurrences(s)
  {
    FirstOccurrencesDistinct(s);
    FirstOccurrencesOfDistinct(FirstOccurrences(s));
  }

  /** What the first list contributes comes first: de-duplicating `a + b` starts with that of `a`. */
  lemma {:induction false} FirstOccurrencesPrefix(a: seq<NewsItem>, b: seq<NewsItem>)
    ensures FirstOccurrences(a) <= FirstOccurrences(a + b)
    decreases |b|
  {
    if b == [] {
      assert a + b == a;
    } else {
      var b' := b[..|b| - 1];
      FirstOccurrencesPrefix(a, b');
      assert (a + b)[..|a + b| - 1] == a + b';
    }
  }

  /** The list comprehension with its `seen_urls` set, as a loop. */
  method Dedup(items: seq<NewsItem>) returns (unique: seq<NewsItem>)
    ensures unique == FirstOccurrences(items)
  {
    var seen: set<Option<string>> := {};
    unique := [];
    var i := 0;
    while i < |items|
      invariant 0 <= i <= |items|
      invariant seen == Urls(items[..i])
      invariant unique == FirstOccurrences(items[..i])
    {
      var item := items[i];
      assert items[..i + 1][..i] == items[..i];
      assert items[..i + 1] == items[..i] + [item];
      assert Urls(items[..i + 1]) == Urls(items[..i]) + {item.url};
      if item.url !in seen {
        seen := seen + {item.url};
        unique := unique + [item];
      }
      i := i + 1;
    }
    assert items[..|items|] == items;
  }

  // ---------------------------------------------------------------------------------------------
  // fetch_news (news.py:77-89).

  /** The API contributes only when a key is configured. */
  function ApiPart(apiKey: Option<string>, topic: string, src: Sources): seq<NewsItem> {
    if Truthy(apiKey) then FetchNewsApi(topic, src.api) else []
  }

  /** The feed is asked only while fewer than `limit` items were collected, and for the shortfall. */
  function RssPart(apiKey: Option<string>, topic: string, limit: int, src: Sources): seq<NewsItem> {
    var first := ApiPart(apiKey, topic, src);
    if |first| < limit then FetchRssFeed(topic, limit - |first|, src.feed, src.clock) else []
  }

  /** `news_list` before de-duplication: the API items, then the feed items. */
  function Collected(apiKey: Option<string>, topic: string, limit: int, src: Sources): seq<NewsItem> {
    ApiPart(apiKey, topic, src) + RssPart(apiKey, topic, limit, src)
  }

  /** The value `fetch_news(topic, limit)` returns. */
  function FetchNewsResult(apiKey: Option<string>, topic: string, limit: int, src: Sources): (r: seq<NewsItem>)
    ensures limit >= 0 ==> |r| <= limit
  {
    PyPrefix(FirstOccurrences(Collected(apiKey, topic, limit, src)), limit)
  }

  /** The sources' shares: with a non-negative limit together they never exceed it, and a failing source adds nothing. */
  lemma CollectedFacts(apiKey: Option<string>, topic: string, limit: int, src: Sources)
    ensures !Truthy(apiKey) || src.api.ApiFailed? ==> ApiPart(apiKey, topic, src) == []
    ensures src.feed.FeedFailed? || FeedUrl(topic) == "" ==> RssPart(apiKey, topic, limit, src) == []
    ensures |ApiPart(apiKey, topic, src)| >= limit ==> RssPart(apiKey, topic, limit, src) == []
    ensures |ApiPart(apiKey, topic, src)| < limit ==>
      |RssPart(apiKey, topic, limit, src)| <= limit - |ApiPart(apiKey, topic, src)|
    ensures forall x :: x in Collected(apiKey, topic, limit, src) ==> x.topic == topic
  {
    CollectedTopics(ApiPart(apiKey, topic, src), RssPart(apiKey, topic, limit, src), topic);
  }

  /** Both sources tag every item with the requested topic, so their concatenation is tagged too. */
  lemma CollectedTopics(api: seq<NewsItem>, rss: seq<NewsItem>, topic: string)
    requires forall i :: 0 <= i < |api| ==> api[i].topic == topic
    requires forall i :: 0 <= i < |rss| ==> rss[i].topic == topic
    ensures forall x :: x in api + rss ==> x.topic == topic
  {
    forall x | x in api + rss ensures x.topic == topic {
      var k :| 0 <= k < |api + rss| && (api + rss)[k] == x;
      if k >= |api| {
        assert x == rss[k - |api|];
      }
    }
  }

  /**
   * The result has pairwise-distinct urls; it is a prefix of the first-occurrence subsequence of
   * the API items followed by the feed items; every item carries the topic; and with a
   * non-negative limit it has at most `limit` items.
   */
  lemma FetchNewsFacts(apiKey: Option<string>, topic: string, limit: int, src: Sources)
    ensures var r := FetchNewsResult(apiKey, topic, limit, src);
      && DistinctUrls(r)
      && r <= FirstOccurrences(Collected(apiKey, topic, limit, src))
      && SubsequenceOf(FirstOccurrences(Collected(apiKey, topic, limit, src)), Collected(apiKey, topic, limit, src))
      && (forall x :: x in r ==> x.topic == topic)
      && (limit >= 0 ==> |r| <= limit)
  {
    var c := Collected(apiKey, topic, limit, src);
    var f := FirstOccurrences(c);
    var r := FetchNewsResult(apiKey, topic, limit, src);
    FirstOccurrencesDistinct(c);
    FirstOccurrencesSubsequence(c);
    CollectedFacts(apiKey, topic, limit, src);
    forall i, j | 0 <= i < j < |r| ensures r[i].url != r[j].url {
      assert r[i] == f[i] && r[j] == f[j];
    }
    forall x | x in r ensures x.topic == topic {
      var k :| 0 <= k < |r| && r[k] == x;
      assert f[k] == x;
      assert x in f;
      assert SubsequenceOf(f, c);
      SubsequenceElements(f, c, x);
    }
  }

  lemma {:induction false} SubsequenceElements(r: seq<NewsItem>, s: seq<NewsItem>, x: NewsItem)
    requires SubsequenceOf(r, s) && x in r
    ensures x in s
    decreases |s|
  {
    assert r != [] && s != [];
    if r[|r| - 1] == s[|s| - 1] && SubsequenceOf(r[..|r| - 1], s[..|s| - 1]) {
      if x != r[|r| - 1] {
        assert r == r[..|r| - 1] + [r[|r| - 1]];
        SubsequenceElements(r[..|r| - 1], s[..|s| - 1], x);
      }
    } else {
      SubsequenceElements(r, s[..|s| - 1], x);
    }
  }

  /** The requests `fetch_news` sends, in order: the API when a key is set, then the feed for the shortfall. */
  function Requests(apiKey: Option<string>, topic: string, limit: int, src: Sources): seq<Request> {
    (if Truthy(apiKey) then [NewsApiRequest(topic, limit)] else [])
    + (if FeedUrl(topic) != "" && |ApiPart(apiKey, topic, src)| < limit then [FeedRequest(FeedUrl(topic))] else [])
  }

  /**
   * The API is asked exactly when a key is set; the feed exactly when the topic has one and the API
   * gave fewer than `limit` items; nothing else is asked, and nothing twice.
   */
  lemma RequestsFacts(apiKey: Option<string>, topic: string, limit: int, src: Sources)
    ensures var q := Requests(apiKey, topic, limit, src);
      && (NewsApiRequest(topic, limit) in q <==> Truthy(apiKey))
      && (FeedRequest(FeedUrl(topic)) in q <==> FeedUrl(topic) != "" && |ApiPart(apiKey, topic, src)| < limit)
      && (forall x :: x in q ==> x == NewsApiRequest(topic, limit) || x == FeedRequest(FeedUrl(topic)))
      && Distinct(q)
  {
  }

  /**
   * `fetch_news(topic, limit)`: the article list, and the requests sent to get it. The API is
   * searched (with page size `limit`) exactly when a key is configured; the feed is downloaded
   * exactly when the topic has one and fewer than `limit` items were collected.
   */
  method FetchNews(apiKey: Option<string>, topic: string, limit: int, src: Sources)
    returns (r: seq<NewsItem>, requests: seq<Request>)
    ensures r == FetchNewsResult(apiKey, topic, limit, src)
    ensures requests == Requests(apiKey, topic, limit, src)
  {
    var newsList;
    newsList, requests := CollectSources(apiKey, topic, limit, src);
    var unique := Dedup(newsList);
    r := PyPrefix(unique, limit);
  }

  /** The first half of `fetch_news`: `news_list` from the API, then from the feed for the shortfall. */
  method CollectSources(apiKey: Option<string>, topic: string, limit: int, src: Sources)
    returns (newsList: seq<NewsItem>, requests: seq<Request>)
    ensures newsList == Collected(apiKey, topic, limit, src)
    ensures requests == Requests(apiKey, topic, limit, src)
  {
    newsList, requests := [], [];
    if Truthy(apiKey) {
      requests := requests + [NewsApiRequest(topic, limit)];
      newsList := newsList + FetchNewsApi(topic, src.api);
    }
    assert newsList == ApiPart(apiKey, topic, src);
    if |newsList| < limit {
      if FeedUrl(topic) != "" {
        requests := requests + [FeedRequest(FeedUrl(topic))];
      }
      var rss := FetchRssFeed(topic, limit - |newsList|, src.feed, src.clock);
      assert rss == RssPart(apiKey, topic, limit, src);
      newsList := newsList + rss;
    } else {
      assert RssPart(apiKey, topic, limit, src) == [];
    }
  }

  // ---------------------------------------------------------------------------------------------
  // save_news (news.py:91-117).

  /**
   * `INSERT OR IGNORE` skips a row only on a constraint violation; `news` has no UNIQUE column,
   * so only a NULL title or url (both NOT NULL) is skipped.
   */
  predicate Insertable(item: NewsItem) {
    item.title.Some? && item.url.Some?
  }

  function RowOf(item: NewsItem): NewsRow
    requires Insertable(item)
  {
    NewsRow(item.title.value, item.url.value, item.topic, item.publishedAt, None)
  }

  /** The rows a batch inserts, in order: one per insertable item. */
  function NewRows(items: seq<NewsItem>): seq<NewsRow> {
    if items == [] then []
    else NewRows(items[..|items| - 1])
         + (if Insertable(items[|items| - 1]) then [RowOf(items[|items| - 1])] else [])
  }

  lemma NewRowsSnoc(items: seq<NewsItem>, x: NewsItem)
    ensures NewRows(items + [x]) == NewRows(items) + (if Insertable(x) then [RowOf(x)] else [])
  {
    assert (items + [x])[..|items|] == items;
  }

  lemma {:induction false} NewRowsLength(items: seq<NewsItem>)
    ensures |NewRows(items)| <= |items|
    ensures (forall x :: x in items ==> Insertable(x)) ==> |NewRows(items)| == |items|
  {
    if items != [] {
      NewRowsLength(items[..|items| - 1]);
    }
  }

  /**
   * AUTOINCREMENT (database.py:48) hands out ids that only increase: `rowIds` lies in
   * `[start, next)`, in increasing order. Ids may be passed over (an ignored insert can use one
   * up), so they need not be consecutive.
   */
  predicate Allocated(start: int, rowIds: seq<int>, next: int) {
    && start <= next
    && (forall j :: 0 <= j < |rowIds| ==> start <= rowIds[j] < next)
    && (forall i, j :: 0 <= i < j < |rowIds| ==> rowIds[i] < rowIds[j])
  }

  /** `table` is `before` with `rows[j]` stored under `rowIds[j]`, and nothing else. */
  ghost predicate Extends(before: NewsTable, rowIds: seq<int>, rows: seq<NewsRow>, table: NewsTable) {
    && |rowIds| == |rows|
    && (forall k :: k in table <==> k in before || k in rowIds)
    && (forall k :: k in before ==> k in table && table[k] == before[k])
    && (forall j :: 0 <= j < |rows| ==> rowIds[j] in table && table[rowIds[j]] == rows[j])
  }

  /** The url of row `j` occurs neither in the table before the batch nor in an earlier row of it. */
  predicate FreshUrl(before: NewsTable, rows: seq<NewsRow>, j: int)
    requires 0 <= j < |rows|
  {
    && (forall k :: k in before ==> before[k].url != rows[j].url)
    && (forall j' :: 0 <= j' < j ==> rows[j'].url != rows[j].url)
  }

  /**
   * What the returned ids mean: one per inserted row; each names a stored row with that row's url,
   * found by `SELECT news_id ... WHERE url = ?`, so it is the id allocated for the row when the url
   * was new and may be an older row's id otherwise; it is never above the id allocated for the row.
   */
  ghost predicate IdsMatch(before: NewsTable, rowIds: seq<int>, rows: seq<NewsRow>, ids: seq<int>, after: NewsTable) {
    && |ids| == |rows| == |rowIds|
    && (forall j :: 0 <= j < |ids| ==> ids[j] in after && after[ids[j]].url == rows[j].url && ids[j] <= rowIds[j])
    && (forall j :: 0 <= j < |ids| && FreshUrl(before, rows, j) ==> ids[j] == rowIds[j])
  }

  /**
   * `save_news`: one transaction. `failAt` stands for a `sqlite3.Error` raised by the statements for
   * item `failAt` (or by the commit, when it equals `|items|`): the connection is closed without a
   * commit, so the tables and the AUTOINCREMENT counter are as before, and the error is re-raised.
   * Otherwise every insertable item becomes a row under a fresh id (`rowIds`, increasing and above
   * every id handed out before), and the ids found for them are returned.
   */
  method SaveNews(db: Database, items: seq<NewsItem>, failAt: Option<nat>)
    returns (r: Result<seq<int>, StorageError>, ghost rowIds: seq<int>)
    requires db.Valid()
    modifies db`news, db`nextId
    ensures db.Valid()
    ensures r.Err? <==> failAt.Some? && failAt.value <= |items|
    ensures r.Err? ==> r.error == OperationalError && db.news == old(db.news) && db.nextId == old(db.nextId)
    ensures r.Ok? ==> && Allocated(old(db.nextId), rowIds, db.nextId)
                      && Extends(old(db.news), rowIds, NewRows(items), db.news)
                      && IdsMatch(old(db.news), rowIds, NewRows(items), r.value, db.news)
  {
    // the statements run for the items before the failing one (for all items when none fails)
    var stop := if failAt.Some? && failAt.value < |items| then failAt.value else |items|;
    assert stop == |items| ==> items[..stop] == items;
    var pending, next, ids;
    pending, next, ids, rowIds := InsertBatch(db.news, db.nextId, items[..stop]);
    if failAt.Some? && failAt.value <= |items| {
      // the connection closes without a commit: nothing of the batch is kept
      r := Err(OperationalError);
      return;
    }
    StoredBelowCounter(db.news, db.nextId, rowIds, NewRows(items), pending, next);
    db.news, db.nextId := pending, next;
    r := Ok(ids);
  }

  /** Every id of the extended table lies below the counter. */
  lemma StoredBelowCounter(before: NewsTable, start: int, rowIds: seq<int>, rows: seq<NewsRow>, table: NewsTable, next: int)
    requires forall k :: k in before ==> k < start
    requires Allocated(start, rowIds, next) && Extends(before, rowIds, rows, table)
    ensures forall k :: k in table ==> k < next
  {
    forall k | k in table ensures k < next {
      if k !in before {
        var j :| 0 <= j < |rowIds| && rowIds[j] == k;
      }
    }
  }

  /**
   * The statements of `save_news` inside its open transaction: each item is inserted into a pending
   * copy of the table, which only the commit makes the stored one.
   */
  method InsertBatch(before: NewsTable, start: int, items: seq<NewsItem>)
    returns (pending: NewsTable, next: int, ids: seq<int>, ghost rowIds: seq<int>)
    requires forall k :: k in before ==> k < start
    ensures Inserted(before, start, NewRows(items), pending, next, ids, rowIds)
  {
    pending, next := before, start;
    ids, rowIds := [], [];
    ghost var done: seq<NewsItem> := [];
    ghost var rows: seq<NewsRow> := [];
    var i := 0;
    while i < |items|
      invariant 0 <= i <= |items|
      invariant done == items[..i] && rows == NewRows(done)
      invariant Inserted(before, start, rows, pending, next, ids, rowIds)
    {
      assert items[..i + 1] == items[..i] + [items[i]];
      NewRowsSnoc(done, items[i]);
      pending, next, ids, rowIds := InsertItem(before, start, rows, rowIds, pending, next, ids, items[i]);
      done := done + [items[i]];
      rows := NewRows(done);
      i := i + 1;
    }
    assert done == items;
  }

  /** After the statements that inserted `rows`: the pending table, the counter, the ids found and the ids allocated. */
  ghost predicate Inserted(before: NewsTable, start: int, rows: seq<NewsRow>, pending: NewsTable, next: int,
                           ids: seq<int>, rowIds: seq<int>) {
    && Allocated(start, rowIds, next)
    && Extends(before, rowIds, rows, pending)
    && IdsMatch(before, rowIds, rows, ids, pending)
  }

  /**
   * The statements for one item: `INSERT OR IGNORE`, then the `SELECT` of an id with its url.
   * AUTOINCREMENT picks an id above every id handed out; an ignored insert may still use ids up.
   */
  method InsertItem(ghost before: NewsTable, ghost start: int, ghost rows: seq<NewsRow>, ghost rowIds: seq<int>,
                    pending: NewsTable, next: int, ids: seq<int>, item: NewsItem)
    returns (pending': NewsTable, next': int, ids': seq<int>, ghost rowIds': seq<int>)
    requires forall k :: k in before ==> k < start
    requires Inserted(before, start, rows, pending, next, ids, rowIds)
    ensures Inserted(before, start, rows + (if Insertable(item) then [RowOf(item)] else []), pending', next', ids', rowIds')
  {
    ghost var grown := rows + (if Insertable(item) then [RowOf(item)] else []);
    if Insertable(item) {
      var row := RowOf(item);
      assert grown == rows + [row];
      var id :| id >= next;
      pending' := pending[id := row];
      next' := id + 1;
      assert id in pending' && pending'[id].url == row.url;
      // SELECT news_id FROM news WHERE url = ?; fetchone(): some row with that url
      var found :| found in pending' && pending'[found].url == row.url;
      ids' := ids + [found];
      rowIds' := rowIds + [id];
      InsertStep(before, start, rows, rowIds, pending, next, ids, row, id, found);
    } else {
      assert grown == rows;
      next' :| next' >= next;
      pending', ids', rowIds' := pending, ids, rowIds;
    }
  }

  /** One inserted row keeps the allocation, the table shape and the meaning of the collected ids. */
  lemma InsertStep(before: NewsTable, start: int, rows: seq<NewsRow>, rowIds: seq<int>, pending: NewsTable,
                   next: int, ids: seq<int>, row: NewsRow, id: int, found: int)
    requires forall k :: k in before ==> k < start
    requires Inserted(before, start, rows, pending, next, ids, rowIds)
    requires id >= next
    requires found in pending[id := row] && pending[id := row][found].url == row.url
    ensures Inserted(before, start, rows + [row], pending[id := row], id + 1, ids + [found], rowIds + [id])
  {
    StoredBelowCounter(before, start, rowIds, rows, pending, next);
    ExtendsStep(before, start, rowIds, rows, pending, next, row, id);
    IdsFound(before, start, rows, rowIds, pending, next, ids, row, id, found);
    IdsFresh(before, start, rows, rowIds, pending, next, ids, row, id, found);
  }

  lemma ExtendsStep(before: NewsTable, start: int, rowIds: seq<int>, rows: seq<NewsRow>, table: NewsTable,
                    next: int, row: NewsRow, id: int)
    requires forall k :: k in before ==> k < start
    requires Allocated(start, rowIds, next) && Extends(before, rowIds, rows, table)
    requires id >= next
    ensures Extends(before, rowIds + [id], rows + [row], table[id := row])
  {
    var rowIds', rows' := rowIds + [id], rows + [row];
    assert forall j :: 0 <= j < |rows| ==> rows'[j] == rows[j] && rowIds'[j] == rowIds[j];
    assert forall k :: k in rowIds' <==> k in rowIds || k == id;
  }

  /** Each id of the extended list names a row with that row's url, allocated no later than it. */
  lemma IdsFound(before: NewsTable, start: int, rows: seq<NewsRow>, rowIds: seq<int>, pending: NewsTable,
                 next: int, ids: seq<int>, row: NewsRow, id: int, found: int)
    requires forall k :: k in pending ==> k < next
    requires Inserted(before, start, rows, pending, next, ids, rowIds)
    requires id >= next
    requires found in pending[id := row] && pending[id := row][found].url == row.url
    ensures var rows', ids', rowIds', after := rows + [row], ids + [found], rowIds + [id], pending[id := row];
      && |ids'| == |rows'| == |rowIds'|
      && forall j :: 0 <= j < |ids'| ==> ids'[j] in after && after[ids'[j]].url == rows'[j].url && ids'[j] <= rowIds'[j]
  {
    var rows', ids', rowIds', after := rows + [row], ids + [found], rowIds + [id], pending[id := row];
    forall j | 0 <= j < |ids'| ensures ids'[j] in after && after[ids'[j]].url == rows'[j].url && ids'[j] <= rowIds'[j] {
      if j < |ids| {
        assert ids'[j] == ids[j] && rows'[j] == rows[j] && rowIds'[j] == rowIds[j];
        assert ids[j] != id;
      } else {
        assert ids'[j] == found && rows'[j] == row && rowIds'[j] == id;
      }
    }
  }

  /** An id found for a row whose url was new is the id allocated for that row. */
  lemma IdsFresh(before: NewsTable, start: int, rows: seq<NewsRow>, rowIds: seq<int>, pending: NewsTable,
                 next: int, ids: seq<int>, row: NewsRow, id: int, found: int)
    requires forall k :: k in before ==> k < start
    requires Inserted(before, start, rows, pending, next, ids, rowIds)
    requires found in pending[id := row] && pending[id := row][found].url == row.url
    ensures var rows', ids', rowIds' := rows + [row], ids + [found], rowIds + [id];
      forall j :: 0 <= j < |ids'| && FreshUrl(before, rows', j) ==> ids'[j] == rowIds'[j]
  {
    var rows', ids', rowIds' := rows + [row], ids + [found], rowIds + [id];
    assert forall j :: 0 <= j < |rows| ==> rows'[j] == rows[j] && rowIds'[j] == rowIds[j];
    if found in pending {
      var w := PendingRowOrigin(before, rowIds, rows, pending, found);
    }
    forall j | 0 <= j < |ids'| && FreshUrl(before, rows', j) ensures ids'[j] == rowIds'[j] {
      if j < |ids| {
        assert FreshUrl(before, rows, j);
      }
    }
  }

  /**
   * A row of the pending table was there before the batch (`w` is -1), or is row `w` of the batch.
   */
  lemma PendingRowOrigin(before: NewsTable, rowIds: seq<int>, rows: seq<NewsRow>, pending: NewsTable, k: int)
    returns (w: int)
    requires Extends(before, rowIds, rows, pending) && k in pending
    ensures || (w == -1 && k in before && before[k] == pending[k])
            || (0 <= w < |rows| && rowIds[w] == k && rows[w] == pending[k])
  {
    if k in before {
      w := -1;
    } else {
      w :| 0 <= w < |rowIds| && rowIds[w] == k;
    }
  }

  /**
   * With no UNIQUE constraint on `url`, `save_news([a, a])` for one insertable article stores two
   * rows with its url under two ids, and returns two ids: the url is not a natural key.
   */
  lemma DuplicateUrlGetsSecondRow(before: NewsTable, start: int, item: NewsItem, rowIds: seq<int>,
                                  ids: seq<int>, table: NewsTable, next: int)
    requires Insertable(item)
    requires Allocated(start, rowIds, next)
    requires Extends(before, rowIds, NewRows([item, item]), table)
    requires IdsMatch(before, rowIds, NewRows([item, item]), ids, table)
    ensures |rowIds| == 2 && rowIds[0] != rowIds[1]
    ensures table[rowIds[0]].url == table[rowIds[1]].url == item.url.value
    ensures |ids| == 2
  {
    NewRowsSnoc([], item);
    assert [] + [item] == [item];
    NewRowsSnoc([item], item);
    assert [item] + [item] == [item, item];
    assert NewRows([item, item]) == [RowOf(item), RowOf(item)];
  }

  // ---------------------------------------------------------------------------------------------
  // save_news as its `INSERT OR IGNORE` and its rowcount test intend it: with `url` UNIQUE.

  /** The urls stored in a table. */
  function StoredUrls(t: NewsTable): set<string> {
    set k | k in t :: t[k].url
  }

  /** No two rows share a url: what a UNIQUE `url` column would keep. */
  predicate UniqueUrls(t: NewsTable) {
    forall a, b :: a in t && b in t && t[a].url == t[b].url ==> a == b
  }

  /** The urls of the items that can be inserted. */
  function InsertableUrls(items: seq<NewsItem>): set<string> {
    set x | x in items && Insertable(x) :: x.url.value
  }

  /** The urls of a batch that the table does not hold yet. */
  function NewUrls(news: NewsTable, items: seq<NewsItem>): set<string> {
    InsertableUrls(items) - StoredUrls(news)
  }

  /** The table, the AUTOINCREMENT counter and the ids after a committed batch. */
  datatype Saved = Saved(news: NewsTable, next: int, ids: seq<int>)

  /**
   * `save_news` with `url` UNIQUE: `INSERT OR IGNORE` also skips an item whose url is stored, so
   * `rowcount` is positive only for a new url, and the SELECT by url then finds the row just made.
   * `gap(k)` is how many ids AUTOINCREMENT passes over before the insert of item `k` (ids an
   * ignored insert used up, say): ids increase but need not be consecutive.
   */
  function SaveUnique(news: NewsTable, next: int, items: seq<NewsItem>, gap: nat -> nat): Saved {
    if items == [] then Saved(news, next, [])
    else
      var s := SaveUnique(news, next, items[..|items| - 1], gap);
      var x := items[|items| - 1];
      var id := s.next + gap(|items| - 1);
      if Insertable(x) && x.url.value !in StoredUrls(s.news)
      then Saved(s.news[id := RowOf(x)], id + 1, s.ids + [id])
      else Saved(s.news, id, s.ids)
  }

  lemma InsertableUrlsSnoc(items: seq<NewsItem>, x: NewsItem)
    ensures InsertableUrls(items + [x]) == InsertableUrls(items) + (if Insertable(x) then {x.url.value} else {})
  {
    assert forall y :: y in items + [x] <==> y in items || y == x;
  }

  /** Storing a row under a new id and a new url keeps urls unique and adds that url. */
  lemma StoreNewRow(t: NewsTable, k: int, row: NewsRow)
    requires k !in t && row.url !in StoredUrls(t) && UniqueUrls(t)
    ensures UniqueUrls(t[k := row])
    ensures StoredUrls(t[k := row]) == StoredUrls(t) + {row.url}
  {
    var t' := t[k := row];
    forall u | u in StoredUrls(t') ensures u in StoredUrls(t) + {row.url} {
      var k' :| k' in t' && t'[k'].url == u;
      if k' != k {
        assert t[k'].url == u;
      }
    }
    forall u | u in StoredUrls(t) ensures u in StoredUrls(t') {
      var k' :| k' in t && t[k'].url == u;
      assert t'[k'] == t[k'];
    }
    assert t'[k].url == row.url;
    assert forall a :: a in t ==> t[a].url in StoredUrls(t);
    forall a, b | a in t' && b in t' && t'[a].url == t'[b].url ensures a == b {
      if a != k && b != k {
        assert t[a].url == t[b].url;
      }
    }
  }

  /**
   * The rows stored before a batch are untouched, and the batch's rows take fresh ids, increasing
   * and above every earlier id, which are the ids it returns.
   */
  lemma {:induction false} SaveUniqueShape(news: NewsTable, next: int, items: seq<NewsItem>, gap: nat -> nat)
    requires forall k :: k in news ==> k < next
    ensures var s := SaveUnique(news, next, items, gap);
      && (forall k :: k in news ==> k in s.news && s.news[k] == news[k])
      && (forall k :: k in s.news <==> k in news || k in s.ids)
      && (forall k :: k in s.news ==> k < s.next)
      && Allocated(next, s.ids, s.next) && |s.ids| <= |items|
  {
    if items != [] {
      var init := items[..|items| - 1];
      SaveUniqueShape(news, next, init, gap);
      var s := SaveUnique(news, next, init, gap);
      var id := s.next + gap(|items| - 1);
      var t := SaveUnique(news, next, items, gap);
      if t.ids != s.ids {
        assert t.ids == s.ids + [id];
        assert forall k :: k in t.ids <==> k in s.ids || k == id;
      }
    }
  }

  /**
   * With a UNIQUE url the store keeps one row per url, and a batch adds exactly the urls it
   * carries that were not stored.
   */
  lemma {:induction false} SaveUniqueUrls(news: NewsTable, next: int, items: seq<NewsItem>, gap: nat -> nat)
    requires forall k :: k in news ==> k < next
    requires UniqueUrls(news)
    ensures var s := SaveUnique(news, next, items, gap);
      && UniqueUrls(s.news)
      && StoredUrls(s.news) == StoredUrls(news) + InsertableUrls(items)
  {
    if items != [] {
      var init, x := items[..|items| - 1], items[|items| - 1];
      assert items == init + [x];
      SaveUniqueUrls(news, next, init, gap);
      SaveUniqueShape(news, next, init, gap);
      InsertableUrlsSnoc(init, x);
      var s := SaveUnique(news, next, init, gap);
      var id := s.next + gap(|items| - 1);
      var t := SaveUnique(news, next, items, gap);
      if Insertable(x) && x.url.value !in StoredUrls(s.news) {
        assert t.news == s.news[id := RowOf(x)];
        StoreNewRow(s.news, id, RowOf(x));
      } else {
        assert t.news == s.news;
      }
    }
  }

  /** One more item adds its url to the new ones exactly when it is neither stored nor earlier in the batch. */
  lemma NewUrlsSnoc(news: NewsTable, init: seq<NewsItem>, x: NewsItem)
    ensures var added := Insertable(x) && x.url.value !in StoredUrls(news) + InsertableUrls(init);
      && NewUrls(news, init + [x]) == NewUrls(news, init) + (if added then {x.url.value} else {})
      && (added ==> x.url.value !in NewUrls(news, init))
  {
    InsertableUrlsSnoc(init, x);
  }

  /** One id per url the table did not hold. */
  lemma {:induction false} SaveUniqueCount(news: NewsTable, next: int, items: seq<NewsItem>, gap: nat -> nat)
    requires forall k :: k in news ==> k < next
    requires UniqueUrls(news)
    ensures |SaveUnique(news, next, items, gap).ids| == |NewUrls(news, items)|
  {
    if items != [] {
      var init, x := items[..|items| - 1], items[|items| - 1];
      assert items == init + [x];
      SaveUniqueCount(news, next, init, gap);
      SaveUniqueUrls(news, next, init, gap);
      NewUrlsSnoc(news, init, x);
    }
  }

  /** Each id returned names the row of a url the table did not hold. */
  lemma {:induction false} SaveUniqueIdsNew(news: NewsTable, next: int, items: seq<NewsItem>, gap: nat -> nat)
    requires forall k :: k in news ==> k < next
    requires UniqueUrls(news)
    ensures var s := SaveUnique(news, next, items, gap);
      forall j :: 0 <= j < |s.ids| ==> s.ids[j] in s.news && s.news[s.ids[j]].url in NewUrls(news, items)
  {
    if items != [] {
      var init, x := items[..|items| - 1], items[|items| - 1];
      assert items == init + [x];
      SaveUniqueIdsNew(news, next, init, gap);
      SaveUniqueUrls(news, next, init, gap);
      SaveUniqueShape(news, next, init, gap);
      NewUrlsSnoc(news, init, x);
      var s := SaveUnique(news, next, init, gap);
      var id := s.next + gap(|items| - 1);
      if Insertable(x) && x.url.value !in StoredUrls(s.news) {
        var t := SaveUnique(news, next, items, gap);
        assert t.news == s.news[id := RowOf(x)] && t.ids == s.ids + [id];
        forall j | 0 <= j < |t.ids| ensures t.ids[j] in t.news && t.news[t.ids[j]].url in NewUrls(news, items) {
          if j < |s.ids| {
            assert t.ids[j] == s.ids[j] && s.ids[j] != id;
          }
        }
      }
    }
  }

  /** A batch whose urls are all stored already changes no row and returns no id. */
  lemma {:induction false} SaveUniqueStored(news: NewsTable, next: int, items: seq<NewsItem>, gap: nat -> nat)
    requires InsertableUrls(items) <= StoredUrls(news)
    ensures SaveUnique(news, next, items, gap).news == news
    ensures SaveUnique(news, next, items, gap).ids == []
  {
    if items != [] {
      var init, x := items[..|items| - 1], items[|items| - 1];
      assert items == init + [x];
      InsertableUrlsSnoc(init, x);
      SaveUniqueStored(news, next, init, gap);
    }
  }

  /**
   * Saving the same batch twice with a UNIQUE url: the second call returns no id and leaves the
   * rows as the first call left them, however often a url repeats within or across the calls.
   */
  lemma SaveUniqueTwice(news: NewsTable, next: int, items: seq<NewsItem>, gap1: nat -> nat, gap2: nat -> nat)
    requires forall k :: k in news ==> k < next
    requires UniqueUrls(news)
    ensures var once := SaveUnique(news, next, items, gap1);
      var twice := SaveUnique(once.news, once.next, items, gap2);
      twice.news == once.news && twice.ids == []
  {
    SaveUniqueUrls(news, next, items, gap1);
    var once := SaveUnique(news, next, items, gap1);
    SaveUniqueStored(once.news, once.next, items, gap2);
  }
}
