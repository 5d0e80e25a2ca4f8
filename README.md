# Discord news bot: store, aggregation, toggle and digest

This project models the news pipeline of a Discord bot that lets users subscribe to topics
("tecnologia", "games", "ciberseguranca"). The bot fetches articles for those topics from a news
search API and from RSS feeds, keeps them in SQLite with the users' votes, and sends each
subscriber a daily digest of the most voted articles. The model covers four parts and leaves out
the Discord and HTTP edges:

- `database.dfy` (module `Store`): the SQLite store as a class `Database` whose fields are the four
  tables. `users` and `votes` are maps on their primary keys. `subscriptions` is a set of
  `(user_id, topic)` pairs. `news` is a map from `news_id` to its row, and `nextId` is the
  AUTOINCREMENT counter. The write methods update these fields. The read-only queries are
  functions, or methods that only read when SQL leaves the row order undefined. The ranking
  query `get_top_voted_news` is a function specified by its filter, its vote counts, its order
  and its bound.
- `collation.dfy` (module `Collation`): SQLite's BINARY text order and the NULL-last rule of
  `ORDER BY published_at DESC`. `published_at` is TEXT, so it is compared as a string.
- `news.dfy` (module `News`): the item building of `fetch_news_api` and `fetch_rss_feed`, and the
  merge, de-duplication by URL and truncation of `fetch_news`. It also holds the insert loop of
  `save_news` over the store, and the save that a UNIQUE `url` column would give (see Findings).
  The decoded API answer, the parsed feed and the clock readings are inputs. `FetchNews` also
  returns the requests it would send, so "the API is queried only when a key is set" can be stated.
- `commands.dfy` (module `Commands`): the `/news` command, the subscription toggle
  `select_callback` and the "Ver Notícias" button. Each Discord reply is reduced to the text it would send.
- `digest.dfy` (module `Digest`): `send_daily_summary`. It covers which users are visited, the
  top-3 ranking per user, the body text and the routing. Per user, `fetch_user` and `send` are
  abstract outcomes: ok, `Forbidden`, or another failure. Another failure ends the whole run. So
  does reading the `SUMMARY_CHANNEL_ID` setting while `config.py` does not define it.
- `scenarios.dfy` (module `Scenarios`): short call sequences stated over the model. They cover
  subscribing twice, removing twice, voting twice, the topic order of the ranking query and one
  merge of the two sources.
- `wrappers.dfy`, `seqs.dfy`, `text.dfy`: Option/Result values, sequence helpers (distinctness,
  Python's `[:n]` slice, listing a set in an unspecified order) and Python's `str.join` and `str(int)`.

The documented design of the bot describes some things differently from the code. The model
follows the code in each case:

- The design calls the article URL a unique key, and says a repeated URL is not inserted again.
  The `news` table has no UNIQUE constraint (database.py:50), so a repeated URL gets a new row
  and a new id.
- The design's example merges 3 API articles with 4 feed entries (one repeating an API URL) at
  limit 5 and expects 5 articles. The code asks the feed only for the 2 missing entries. So it
  returns only 4 articles when the repeated entry is one of those 2
  (`Scenarios.FeedAskedOnlyForShortfall`).
- The design skips a digest user with "zero matching articles with votes". The ranking query's
  LEFT JOIN also lists articles nobody voted on. So a user is skipped only when no stored article
  has one of their topics (`Digest.SkippedExactlyWithoutArticles`).

## Model

| member | source | states |
|---|---|---|
| `Store.Database.constructor` | database.py:27-65 | `init_db` on a new file gives four empty tables, with the AUTOINCREMENT counter at 1 |
| `Store.Database.AddUser` | database.py:72-85 | `INSERT OR REPLACE` is an upsert on `user_id`: afterwards the user has the new name and every other user is unchanged |
| `Store.Database.AddSubscription` | database.py:87-100 | adds exactly the pair when it is absent; when it is present the composite primary key makes the INSERT fail with an integrity error and the table is unchanged |
| `Store.Database.GetSubscriptions` | database.py:102-116 | returns exactly the user's topics, each once, possibly none, in no defined order |
| `Store.Database.RemoveSubscription` | database.py:118-131 | deletes exactly that pair, silently when it is absent; every other pair stays |
| `Store.Database.UpdateNewsMessageId` | database.py:133-146 | sets only the `message_id` of that article; an unknown id changes nothing and raises nothing |
| `Store.Database.AddVote` | database.py:148-161 | `INSERT OR REPLACE` keeps one vote per (article, user), and the last vote type wins |
| `Store.Database.GetVotes` | database.py:163-177 | one entry per voter on the article, each with that voter's stored vote type, and every stored vote is listed |
| `Store.Database.GetTopVotedNews` | database.py:179-210 | at most `limit` rows; each is a distinct stored article on one of the topics, with its vote count; rows are ordered by count descending, then `published_at` descending with NULL last; an eligible article that is left out was cut by the LIMIT and ranks no higher than every row kept; no topics give no rows |
| `Store.VoteCountAfterVote` | database.py:186-188 | a vote adds one to its article's count only when that user had not voted on it; a replaced vote is not counted twice, and other articles' counts stay the same |
| `Store.RanksAtLeastTotal` | database.py:191 | any two candidate rows are comparable under the ORDER BY |
| `Store.RanksAtLeastTransitive` | database.py:191 | the ORDER BY relation is transitive |
| `Store.CandidatesFacts` | database.py:187-190 | the rows the FROM/LEFT JOIN/WHERE/GROUP BY produce are exactly the stored articles on the topics, one per article, each with its vote count |
| `Store.SortFacts` | database.py:191 | sorting keeps exactly the candidate rows and puts them in ORDER BY order |
| `Store.Limit` | database.py:192 | SQLite `LIMIT n` keeps a prefix of at most `n` rows, and a negative `n` keeps all |
| `Store.RankingFacts` | database.py:184-191 | the ranked list before the LIMIT is duplicate-free, sorted, and holds every eligible article and nothing else |
| `Store.TopVotedBound` | database.py:189-195 | at most `limit` rows, and an empty topic list (`IN ()`) matches nothing |
| `Store.TopVotedSound` | database.py:185-190 | every row is a distinct stored article on one of the topics, with its vote count |
| `Store.TopVotedOrdered` | database.py:191 | rows come by vote count descending, then `published_at` descending with NULL last |
| `Store.TopVotedComplete` | database.py:188-192 | zero-vote articles are not dropped by the LEFT JOIN: an eligible article that is missing was cut by the LIMIT and ranks no higher than every row kept |
| `Store.NoTopicsNoNews` | database.py:189-194 | with no topics the WHERE clause selects no article |
| `Collation.PublishedNoLaterTotal` | database.py:191 | `published_at DESC` with NULL last orders any two values |
| `Collation.PublishedNoLaterTransitive` | database.py:191 | that order is transitive |
| `Collation.LetterDatesSortAboveDigitDates` | database.py:52 | since `published_at` is TEXT, an RSS date starting with a weekday letter outranks every ISO date from the API, whatever the instants |
| `News.FetchNewsApi` | news.py:25-52 | one item per returned article, in order, tagged with the requested topic and carrying the article's title, url and date; a request failure gives no items |
| `News.FetchRssFeed` | news.py:54-75 | no items for a topic outside the feed table or when the feed fails, and none when a taken entry lacks a title or link; otherwise one item per entry of `entries[:limit]`, in order, with that entry's title and link, the topic, and the entry's date or else the clock reading taken for that entry |
| `News.FirstOccurrencesUrls` | news.py:84-88 | de-duplication loses no url and never lengthens the list |
| `News.FirstOccurrencesDistinct` | news.py:84-88 | after de-duplication urls are pairwise distinct |
| `News.FirstOccurrencesSubsequence` | news.py:84-88 | de-duplication keeps the items in their original relative order |
| `News.FirstOccurrencesOfDistinct` | news.py:84-88 | a list without repeated urls is left as it is |
| `News.FirstOccurrencesIdempotent` | news.py:84-88 | de-duplicating twice gives the same list as once |
| `News.FirstOccurrencesPrefix` | news.py:79-88 | the de-duplicated API items come first, unchanged by what the feed adds |
| `News.Dedup` | news.py:84-88 | the comprehension with its `seen_urls` set keeps exactly the first item for each url |
| `News.FetchNewsResult` | news.py:89 | `fetch_news` never returns more than `limit` items |
| `News.CollectedFacts` | news.py:79-83 | a missing key or a failing source contributes nothing; the feed adds nothing once the API gave `limit` items, and at most the shortfall otherwise; every item has the topic |
| `News.FetchNewsFacts` | news.py:77-89 | the result has distinct urls, is a prefix of the first-occurrence subsequence of API items then feed items, has the topic on every item, and has at most `limit` items |
| `News.RequestsFacts` | news.py:80-83 | the API is asked (page size `limit`) exactly when the key is truthy; the feed is asked exactly when the topic has one and fewer than `limit` items were collected; nothing else is asked |
| `News.FetchNews` | news.py:77-89 | the method returns the specified result and sends exactly the specified requests |
| `News.CollectSources` | news.py:79-83 | `news_list` is the API items followed by the feed items for the shortfall |
| `News.NewRowsLength` | news.py:97-104 | a batch inserts at most one row per item, and one per item when every item has a title and url |
| `News.SaveNews` | news.py:91-117 | on success every insertable item becomes a row and the older rows are untouched. The new rows take ids that increase in insertion order and lie above every id handed out before (database.py:48), and one id per inserted row is returned. Each id names a stored row with that url and is the freshly allocated one when the url was new. A storage error in the batch or the commit leaves the tables and the counter unchanged, and the error is re-raised |
| `News.InsertBatch` | news.py:97-111 | the insert loop keeps the pending table, the counter, the allocated ids and the collected ids in step with the rows inserted so far |
| `News.InsertItem` | news.py:98-111 | one `INSERT OR IGNORE` plus the `SELECT ... fetchone()` by url. The new row takes an id above every id handed out, an ignored insert may still use ids up, and the id found may belong to an older row with that url |
| `News.DuplicateUrlGetsSecondRow` | database.py:47-55 | with no UNIQUE url, saving one article twice in a batch stores two rows with its url under two distinct ids and returns two ids |
| `News.SaveUniqueShape` | news.py:97-111 | with a UNIQUE url, older rows are untouched, and the new rows take fresh ids that increase and lie above every earlier id; those are the ids returned |
| `News.SaveUniqueUrls` | news.py:97-111 | with a UNIQUE url, the store keeps one row per url, and a batch adds exactly the urls it carries that were not stored |
| `News.SaveUniqueCount` | news.py:97-111 | with a UNIQUE url, one id is returned per url the table did not hold |
| `News.SaveUniqueIdsNew` | news.py:105-110 | with a UNIQUE url, each id returned names the row of a url the table did not hold |
| `News.SaveUniqueStored` | news.py:100-105 | with a UNIQUE url, a batch whose urls are all stored changes nothing and returns no id |
| `News.SaveUniqueTwice` | news.py:91-117 | with a UNIQUE url, saving the same batch twice leaves the table as the first call left it, and the second call returns no id |
| `Commands.NewsCommand` | commands.py:24-34 | `/news` stores (or renames) the invoking user before the menu is shown |
| `Commands.Toggled` | commands.py:110-117 | the toggle flips the membership of the selected pair and of no other pair |
| `Commands.ToggleTwice` | commands.py:107-121 | selecting the same topic twice restores the original subscriptions |
| `Commands.SelectCallback` | commands.py:107-121 | a selected topic is removed when subscribed and added otherwise. Only that pair changes, and the add never meets the primary key because membership is checked first. The reply says which happened, and the subscriptions stay within the three menu topics |
| `Commands.CollectFacts` | commands.py:74-76 | the collected list has at most 2 items per subscribed topic, each tagged with one of those topics |
| `Commands.CollectRequestsFacts` | commands.py:74-76 | the loop sends at most 2 requests per subscribed topic: API searches for those topics with page size 2, and downloads of the configured feeds |
| `Commands.CollectNews` | commands.py:74-76 | the loop collects `fetch_news(topic, 2)` for each subscription, concatenated in order, and sends the requests of those calls in the same order |
| `Commands.ViewNews` | commands.py:68-83 | with no subscriptions the reply is "Você não assinou nenhum tópico!" and nothing is fetched or saved; with nothing collected the reply is "Nenhuma notícia encontrada…" and nothing is saved; otherwise the reply lists `- {title} ({url})` lines in collection order, and exactly that list is saved; the requests are those of `fetch_news(topic, 2)` per subscription, in order |
| `Digest.Route` | main.py:64-72 | the summary channel is used when configured and found; a missing channel falls back to a direct message with a warning; no setting means a direct message |
| `Digest.SummaryTurn` | main.py:55-75 | one user's turn. The ranking uses the user's own subscriptions with limit 3, and an empty result or a falsy user is skipped. The body is sent to the routed destination. A `Forbidden` send is caught, and any other failure escapes |
| `Digest.SendDailySummary` | main.py:43-77 | visits exactly the distinct subscribed users, does nothing when there are none, stops the run at the first escaping failure, and only reads the store |
| `Digest.AbortedStays` | main.py:44-77 | once an exception reaches the outer handler, later users are not visited |
| `Digest.TurnFacts` | main.py:55-75 | a turn sends at most one summary, of at most 3 articles on the user's own topics; an empty ranking or a falsy user sends nothing and stops nothing; a `Forbidden` or successful send never ends the run |
| `Digest.RunFacts` | main.py:54-77 | a run sends at most one summary per visited user, only to visited users, never twice to one user when the users are distinct, and an aborted run names a visited user whose own turn raised |
| `Digest.SkippedExactlyWithoutArticles` | main.py:56-58 | a user is skipped exactly when no stored article has one of the user's topics, whatever the votes |
| `Digest.UndefinedSettingTurn` | main.py:63-64 | with the setting undefined a turn sends nothing, and raises exactly when the user has ranked news and `fetch_user` returns or raises |
| `Digest.AsWrittenSettingAbortsRun` | main.py:63-77 | as written, nobody ever receives a summary; the run is aborted at the first user who has ranked news and for whom `fetch_user` returns or raises, and completes only when there is no such user |
| `Digest.DefinedSettingCompletesRun` | main.py:54-77 | with the setting defined and only `Forbidden` failures, the run completes and every visited user with ranked news who is found is sent a summary at the routed destination, which arrives unless the send meets `Forbidden` |
| `Scenarios.SubscribeTwice` | database.py:87-100 | subscribing to "games" twice: the first call succeeds and the second fails with an integrity error |
| `Scenarios.RemoveTwice` | database.py:118-131 | removing "games" twice is a silent no-op the second time |
| `Scenarios.VoteTwice` | database.py:148-161 | two votes by one user on one article leave one vote row, of the later kind, counted once |
| `Scenarios.TopicOrderIrrelevant` | database.py:189-195 | the ranking depends on which topics are listed, not on their order or repetition |
| `Scenarios.ShortfallCollected` | news.py:79-83 | with 3 API articles and limit 5 the feed is asked for 2 entries only |
| `Scenarios.FirstOccurrencesRepeatThenNew` | news.py:84-88 | after distinct items, a repeated url is dropped and a new one is kept |
| `Scenarios.FeedAskedOnlyForShortfall` | news.py:77-89 | 3 API articles and a 4-entry feed whose first entry repeats an API url give, at limit 5, the API's 3 and then the second feed entry |

## Left out

- Discord client and UI: views, buttons, the select menu and its 60-second timeout, `send_message`/`followup`, command registration, `on_ready` and `/ping`. The model keeps their decisions, and each reply is reduced to its text.
- HTTP and feed fetching (`requests.get`, `raise_for_status`, `.json()`, `feedparser.parse`): these are network calls, so their results are inputs. The API's page size is not imposed on its answer, because the model takes the answer as given.
- The clock: `datetime.now().isoformat()` is read once per feed entry (news.py:67). The readings are an input, one per entry index. The model does not require them to increase or to be ISO strings.
- SQLite mechanics: connections, `row_factory`, the context manager and `CREATE TABLE`. Each call is atomic on the tables. A `sqlite3.Error` other than the primary-key failure of `add_subscription` (for example a locked or unreadable file) is modelled only in `save_news`, as an abstract failure point. The single-statement methods are modelled as succeeding.
- Foreign keys: the schema declares them, but the connection never enables them, so votes and subscriptions are not checked against their parent rows. The model keeps the tables independent.
- `fetch_news_api` on an article object that lacks `title`, `url` or `publishedAt`: Python raises `KeyError`, which the handler for request errors does not catch. The model reads a JSON null as an absent value and does not model a missing key.
- Scheduling and concurrency: the APScheduler cron trigger, async interleaving between commands and the digest, and two saves racing. Everything runs sequentially.
- Logging setup and `.env` loading.
- `discord.fetch_user`, `get_channel` and `send` are abstract outcomes, given per user as inputs.
- `Store.Database.GetTopVotedNews`: rows tied on both vote count and `published_at` come by ascending `news_id` in the model. SQLite leaves that order undefined, so the contract says nothing about it.
- AUTOINCREMENT gaps: SQLite promises only ids above every id handed out. How many ids a save passes over is left open: any number in `SaveNews`, and an input `gap` in `SaveUnique`.
- `News.SaveNews`: the row that `fetchone()` returns among several with the same url is left unspecified, since SQLite picks it. The contract bounds it instead: it has that url, and its id is no later than the row just inserted.

## Findings

| source | as written | input that shows it | evidently intended | confidence | as-written member | corrected member |
|---|---|---|---|---|---|---|
| database.py:50 | `url` has no UNIQUE constraint, so `INSERT OR IGNORE` in `save_news` never ignores a repeated url. `rowcount` is then 1 for it, and the "new article" branch runs | saving the same article twice, in two calls or twice in one list | one row per url, and an id returned only for a url not yet stored | not executed; high | `News.DuplicateUrlGetsSecondRow` | `News.SaveUniqueTwice` |
| main.py:64 | `config.SUMMARY_CHANNEL_ID` is read, but config.py defines only `DISCORD_TOKEN` and `NEWS_API_KEY`. The `AttributeError` reaches the outer handler at main.py:76 and ends the run | any run in which a subscribed user has ranked news and `fetch_user` returns that user | a defined setting (None meaning "send a direct message"), so every found user with ranked news is sent a summary, which arrives unless the send meets `Forbidden` | not executed; high | `Digest.AsWrittenSettingAbortsRun` | `Digest.DefinedSettingCompletesRun` |
