/**
 * The decision logic of the slash command and the two menu callbacks (commands.py), with every
 * Discord reply reduced to the text it would send.
 */
module Commands {
  import opened Wrappers
  import opened Seqs
  import opened Text
  import opened Store
  import opened News

  /** `NewsCog.topics`: the values the topic menu offers, and so the only ones a selection can carry. */
  const MenuTopics: seq<string> := ["tecnologia", "games", "ciberseguranca"]

  const Welcome: string := "Bem-vindo ao News Bot! Escolha uma ação:"
  const NoSubscriptions: string := "Você não assinou nenhum tópico!"
  const NothingFound: string := "Nenhuma notícia encontrada para seus tópicos."
  const NewsHeader: string := "Notícias para seus tópicos:\n"

  /** The page size `view_news_button_callback` asks `fetch_news` for, per topic. */
  const PerTopic: int := 2

  // ---------------------------------------------------------------------------------------------
  // /news (commands.py:23-34).

  /** `/news`: the invoking user is stored (or renamed) before the menu is shown. */
  method NewsCommand(db: Database, userId: int, userName: string) returns (reply: string)
    modifies db`users
    ensures db.users == old(db.users)[userId := userName]
    ensures reply == Welcome
  {
    db.AddUser(userId, userName);
    reply := Welcome;
  }

  // ---------------------------------------------------------------------------------------------
  // The topic toggle (commands.py:107-121).

  /** A set with one pair's membership flipped. */
  function Toggled(s: set<(int, string)>, p: (int, string)): (r: set<(int, string)>)
    ensures p in r <==> p !in s
    ensures forall q :: q != p ==> (q in r <==> q in s)
  {
    if p in s then s - {p} else s + {p}
  }

  /** Selecting the same topic twice gives back the subscriptions one started with. */
  lemma ToggleTwice(s: set<(int, string)>, p: (int, string))
    ensures Toggled(Toggled(s, p), p) == s
  {
    var t := Toggled(s, p);
    forall q ensures q in Toggled(t, p) <==> q in s {
      if q == p {
        assert p in t <==> p !in s;
      }
    }
  }

  /** Every subscribed topic is one of the menu's. */
  predicate MenuTopicsOnly(subscriptions: set<(int, string)>) {
    forall p :: p in subscriptions ==> p.1 in MenuTopics
  }

  /** The confirmation `select_callback` sends. */
  function ToggleReply(topic: string, wasSubscribed: bool): string {
    if wasSubscribed then "Você desassinou o tópico '" + topic + "'!"
    else "Você assinou o tópico '" + topic + "'!"
  }

  /**
   * `select_callback`: the user's topics are read first, so the pair is removed when present and
   * added when absent; `r` is `Pass` because the add therefore never meets the primary key.
   * Only the selected pair changes, and a menu selection keeps every topic a menu topic.
   */
  method SelectCallback(db: Database, userId: int, topic: string) returns (reply: string, r: Outcome<StorageError>)
    modifies db`subscriptions
    ensures db.subscriptions == Toggled(old(db.subscriptions), (userId, topic))
    ensures reply == ToggleReply(topic, (userId, topic) in old(db.subscriptions))
    ensures r == Pass
    ensures MenuTopicsOnly(old(db.subscriptions)) && topic in MenuTopics ==> MenuTopicsOnly(db.subscriptions)
  {
    var subscriptions := db.GetSubscriptions(userId);
    if topic in subscriptions {
      db.RemoveSubscription(userId, topic);
      reply := ToggleReply(topic, true);
      r := Pass;
    } else {
      r := db.AddSubscription(userId, topic);
      reply := ToggleReply(topic, false);
    }
  }

  // ---------------------------------------------------------------------------------------------
  // "Ver Notícias" (commands.py:68-83).

  /** What `fetch_news(topic, 2)` returns for each topic in turn, concatenated. */
  function Collect(apiKey: Option<string>, topics: seq<string>, net: string -> Sources): seq<NewsItem> {
    if topics == [] then []
    else
      var t := topics[|topics| - 1];
      Collect(apiKey, topics[..|topics| - 1], net) + FetchNewsResult(apiKey, t, PerTopic, net(t))
  }

  /** One more topic appends what `fetch_news` returns for it. */
  lemma CollectSnoc(apiKey: Option<string>, topics: seq<string>, net: string -> Sources, t: string)
    ensures Collect(apiKey, topics + [t], net) == Collect(apiKey, topics, net) + FetchNewsResult(apiKey, t, PerTopic, net(t))
  {
    assert (topics + [t])[..|topics|] == topics;
  }

  /** At most two articles per subscribed topic, each tagged with one of those topics. */
  lemma {:induction false} CollectFacts(apiKey: Option<string>, topics: seq<string>, net: string -> Sources)
    ensures |Collect(apiKey, topics, net)| <= PerTopic * |topics|
    ensures forall x :: x in Collect(apiKey, topics, net) ==> x.topic in topics
  {
    if topics != [] {
      var init, t := topics[..|topics| - 1], topics[|topics| - 1];
      assert topics == init + [t];
      CollectFacts(apiKey, init, net);
      FetchNewsFacts(apiKey, t, PerTopic, net(t));
      var front, back := Collect(apiKey, init, net), FetchNewsResult(apiKey, t, PerTopic, net(t));
      forall x: NewsItem | x in front + back ensures x.topic in topics {
        if x in front {
          assert x.topic in init;
        }
      }
    }
  }

  /** The requests `fetch_news(topic, 2)` sends for each topic in turn, concatenated. */
  function CollectRequests(apiKey: Option<string>, topics: seq<string>, net: string -> Sources): seq<Request> {
    if topics == [] then []
    else
      var t := topics[|topics| - 1];
      CollectRequests(apiKey, topics[..|topics| - 1], net) + Requests(apiKey, t, PerTopic, net(t))
  }

  lemma CollectRequestsSnoc(apiKey: Option<string>, topics: seq<string>, net: string -> Sources, t: string)
    ensures CollectRequests(apiKey, topics + [t], net) == CollectRequests(apiKey, topics, net) + Requests(apiKey, t, PerTopic, net(t))
  {
    assert (topics + [t])[..|topics|] == topics;
  }

  /**
   * At most two requests per subscribed topic: an API search for that topic with page size 2, or
   * the download of one of the configured feeds.
   */
  lemma {:induction false} CollectRequestsFacts(apiKey: Option<string>, topics: seq<string>, net: string -> Sources)
    ensures |CollectRequests(apiKey, topics, net)| <= 2 * |topics|
    ensures forall q :: q in CollectRequests(apiKey, topics, net) ==>
      || (q.NewsApiRequest? && q.query in topics && q.pageSize == PerTopic)
      || (q.FeedRequest? && q.feedUrl in RssFeeds.Values)
  {
    if topics != [] {
      var init, t := topics[..|topics| - 1], topics[|topics| - 1];
      assert topics == init + [t];
      CollectRequestsFacts(apiKey, init, net);
      RequestsFacts(apiKey, t, PerTopic, net(t));
      var front, back := CollectRequests(apiKey, init, net), Requests(apiKey, t, PerTopic, net(t));
      forall q: Request | q in front + back
        ensures || (q.NewsApiRequest? && q.query in topics && q.pageSize == PerTopic)
                || (q.FeedRequest? && q.feedUrl in RssFeeds.Values)
      {
        if q in front {
          assert q.NewsApiRequest? ==> q.query in init;
        } else if q.FeedRequest? {
          assert q == FeedRequest(FeedUrl(t)) && FeedUrl(t) != "";
          assert RssFeeds[t] in RssFeeds.Values;
        }
      }
    }
  }

  /** One line of the reply: `- {title} ({url})`, where a missing value prints as `None`. */
  function NewsLine(item: NewsItem): string {
    "- " + ShowOpt(item.title) + " (" + ShowOpt(item.url) + ")"
  }

  function NewsLines(items: seq<NewsItem>): (r: seq<string>)
    ensures |r| == |items| && forall i :: 0 <= i < |items| ==> r[i] == NewsLine(items[i])
  {
    seq(|items|, i requires 0 <= i < |items| => NewsLine(items[i]))
  }

  /** The reply once something was collected: a header, then one line per article in collection order. */
  function NewsReply(items: seq<NewsItem>): string {
    NewsHeader + Join(NewsLines(items), "\n")
  }

  /**
   * `view_news_button_callback`. `net(t)` stands for what the API and the feed answer for topic `t`,
   * `saveFailAt` for a storage failure inside `save_news`. With no subscriptions nothing is fetched
   * or saved; with nothing collected nothing is saved; otherwise the reply lists the collected
   * articles and exactly that list is handed to `save_news`, whose result is `saved`.
   */
  method ViewNews(db: Database, apiKey: Option<string>, userId: int, net: string -> Sources, saveFailAt: Option<nat>)
    returns (topics: seq<string>, requests: seq<Request>, collected: seq<NewsItem>, reply: string,
             saved: Option<Result<seq<int>, StorageError>>, ghost rowIds: seq<int>)
    requires db.Valid()
    modifies db`news, db`nextId
    ensures db.Valid()
    ensures Distinct(topics) && forall t :: t in topics <==> (userId, t) in db.subscriptions
    ensures collected == Collect(apiKey, topics, net)
    ensures requests == CollectRequests(apiKey, topics, net)
    ensures topics == [] ==> requests == [] && reply == NoSubscriptions
    ensures topics != [] && collected == [] ==> reply == NothingFound
    ensures collected == [] ==> saved == None && db.news == old(db.news) && db.nextId == old(db.nextId)
    ensures collected != [] ==> && reply == NewsReply(collected)
                                && saved.Some?
                                && (saved.value.Err? <==> saveFailAt.Some? && saveFailAt.value <= |collected|)
    ensures saved.Some? && saved.value.Err? ==> db.news == old(db.news) && db.nextId == old(db.nextId)
    ensures saved.Some? && saved.value.Ok? ==>
      && Allocated(old(db.nextId), rowIds, db.nextId)
      && Extends(old(db.news), rowIds, NewRows(collected), db.news)
      && IdsMatch(old(db.news), rowIds, NewRows(collected), saved.value.value, db.news)
  {
    topics := db.GetSubscriptions(userId);
    saved, rowIds := None, [];
    if topics == [] {
      requests, collected, reply := [], [], NoSubscriptions;
      return;
    }
    collected, requests := CollectNews(apiKey, topics, net);
    if collected == [] {
      reply := NothingFound;
      return;
    }
    reply := NewsReply(collected);
    var r;
    r, rowIds := SaveNews(db, collected, saveFailAt);
    saved := Some(r);
  }

  /** The loop of `view_news_button_callback` that extends `news_list` topic by topic. */
  method CollectNews(apiKey: Option<string>, topics: seq<string>, net: string -> Sources)
    returns (collected: seq<NewsItem>, requests: seq<Request>)
    ensures collected == Collect(apiKey, topics, net)
    ensures requests == CollectRequests(apiKey, topics, net)
  {
    collected, requests := [], [];
    ghost var done: seq<string> := [];
    var i := 0;
    while i < |topics|
      invariant 0 <= i <= |topics|
      invariant done == topics[..i]
      invariant collected == Collect(apiKey, done, net)
      invariant requests == CollectRequests(apiKey, done, net)
    {
      var t := topics[i];
      var items, asked := FetchNews(apiKey, t, PerTopic, net(t));
      assert topics[..i + 1] == done + [t];
      CollectSnoc(apiKey, done, net, t);
      CollectRequestsSnoc(apiKey, done, net, t);
      collected := collected + items;
      requests := requests + asked;
      done := done + [t];
      i := i + 1;
    }
    assert done == topics;
  }
}
