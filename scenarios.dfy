/**
 * Short call sequences a user of the bot goes through, stated over the model: repeated
 * subscriptions, repeated votes, the topic order of the ranking query and one merge of sources.
 */
module Scenarios {
  import opened Wrappers
  import opened Seqs
  import opened Store
  import opened News

  /** Subscribing to "games" twice: the second INSERT meets the primary key and raises. */
  method SubscribeTwice(db: Database, userId: int) returns (first: Outcome<StorageError>, second: Outcome<StorageError>)
    requires (userId, "games") !in db.subscriptions
    modifies db`subscriptions
    ensures first == Pass && second == Fail(IntegrityError)
    ensures db.subscriptions == old(db.subscriptions) + {(userId, "games")}
  {
    first := db.AddSubscription(userId, "games");
    second := db.AddSubscription(userId, "games");
  }

  /** Removing "games" twice: both DELETEs succeed, the second matches nothing. */
  method RemoveTwice(db: Database, userId: int)
    modifies db`subscriptions
    ensures db.subscriptions == old(db.subscriptions) - {(userId, "games")}
    ensures (userId, "games") !in db.subscriptions
  {
    db.RemoveSubscription(userId, "games");
    ghost var once := db.subscriptions;
    db.RemoveSubscription(userId, "games");
    assert db.subscriptions == once;
  }

  /** Two votes by one user on one article: one vote row, of the later kind, counted once. */
  method VoteTwice(db: Database, newsId: int, userId: int)
    modifies db`votes
    ensures db.votes == old(db.votes)[(newsId, userId) := "star"]
    ensures VoteCount(db.votes, newsId) == VoteCount(old(db.votes), newsId) + (if (newsId, userId) in old(db.votes) then 0 else 1)
  {
    db.AddVote(newsId, userId, "upvote");
    ghost var once := db.votes;
    db.AddVote(newsId, userId, "star");
    assert db.votes == old(db.votes)[(newsId, userId) := "star"];
    VoteCountAfterVote(old(db.votes), newsId, userId, "upvote", newsId);
    VoteCountAfterVote(once, newsId, userId, "star", newsId);
  }

  /** The ranking query depends on which topics are listed, not on their order or repetition. */
  lemma TopicOrderIrrelevant(db: Database, topics1: seq<string>, topics2: seq<string>, limit: int)
    requires db.Valid()
    requires forall t :: t in topics1 <==> t in topics2
    ensures db.GetTopVotedNews(topics1, limit) == db.GetTopVotedNews(topics2, limit)
  {
    assert (set t | t in topics1) == (set t | t in topics2);
  }

  /**
   * Three API articles and a feed of four whose first entry repeats an API url, with `limit` 5:
   * the feed is asked only for the two missing entries, the first of them is the repeat, so four
   * distinct articles come back, the API's three and then the second feed entry.
   */
  lemma FeedAskedOnlyForShortfall(key: Option<string>, topic: string, articles: seq<ApiArticle>,
                                  entries: seq<FeedEntry>, clock: nat -> string)
    requires Truthy(key) && FeedUrl(topic) != ""
    requires |articles| == 3 && forall i, j :: 0 <= i < j < 3 ==> articles[i].url != articles[j].url
    requires |entries| == 4 && forall e :: e in entries ==> e.title.Some? && e.link.Some?
    requires entries[0].link == articles[0].url
    requires forall i :: 0 <= i < 3 ==> articles[i].url != entries[1].link
    ensures var src := Sources(ApiArticles(articles), FeedEntries(entries), clock);
      FetchNewsResult(key, topic, 5, src) == FetchNewsApi(topic, src.api) + [EntryItem(entries[1], topic, clock(1))]
  {
    var src := Sources(ApiArticles(articles), FeedEntries(entries), clock);
    var api := FetchNewsApi(topic, src.api);
    var x, y := EntryItem(entries[0], topic, clock(0)), EntryItem(entries[1], topic, clock(1));
    ShortfallCollected(key, topic, articles, entries, clock);
    assert x.url in Urls(api) by {
      assert api[0].url == articles[0].url;
    }
    assert y.url !in Urls(api) by {
      forall z | z in api ensures z.url != y.url {
        var k :| 0 <= k < 3 && api[k] == z;
      }
    }
    FirstOccurrencesRepeatThenNew(api, x, y);
  }

  /** What is collected before de-duplication: the three API items, then the first two feed entries. */
  lemma ShortfallCollected(key: Option<string>, topic: string, articles: seq<ApiArticle>,
                           entries: seq<FeedEntry>, clock: nat -> string)
    requires Truthy(key) && FeedUrl(topic) != ""
    requires |articles| == 3 && forall i, j :: 0 <= i < j < 3 ==> articles[i].url != articles[j].url
    requires |entries| == 4 && forall e :: e in entries ==> e.title.Some? && e.link.Some?
    ensures var src := Sources(ApiArticles(articles), FeedEntries(entries), clock);
      && DistinctUrls(FetchNewsApi(topic, src.api))
      && Collected(key, topic, 5, src)
         == FetchNewsApi(topic, src.api) + [EntryItem(entries[0], topic, clock(0)), EntryItem(entries[1], topic, clock(1))]
  {
    var src := Sources(ApiArticles(articles), FeedEntries(entries), clock);
    var api := FetchNewsApi(topic, src.api);
    assert ApiPart(key, topic, src) == api;
    var taken := PyPrefix(entries, 2);
    assert taken == [entries[0], entries[1]];
    assert Readable(taken);
  }

  /** After distinct items, a repeated url is dropped and a new one is kept. */
  lemma FirstOccurrencesRepeatThenNew(s: seq<NewsItem>, x: NewsItem, y: NewsItem)
    requires DistinctUrls(s) && x.url in Urls(s) && y.url !in Urls(s)
    ensures FirstOccurrences(s + [x, y]) == s + [y]
  {
    var s1 := s + [x];
    var s2 := s1 + [y];
    assert s2 == s + [x, y];
    FirstOccurrencesOfDistinct(s);
    FirstOccurrencesSnoc(s, x);
    assert FirstOccurrences(s1) == s;
    UrlsSnoc(s, x);
    assert Urls(s1) == Urls(s);
    FirstOccurrencesSnoc(s1, y);
    assert FirstOccurrences(s2) == s + [y];
  }

  /** One more item is kept exactly when its url is new. */
  lemma FirstOccurrencesSnoc(s: seq<NewsItem>, x: NewsItem)
    ensures FirstOccurrences(s + [x]) == FirstOccurrences(s) + (if x.url in Urls(s) then [] else [x])
  {
    assert (s + [x])[..|s|] == s;
  }
}
