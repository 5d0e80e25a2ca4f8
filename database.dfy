/**
 * The SQLite store of the bot (database.py) as a class whose fields are its four tables.
 *
 * - `users`: `user_id INTEGER PRIMARY KEY` to `username`.
 * - `subscriptions`: rows `(user_id, topic)` under the composite primary key, hence a set.
 * - `news`: `news_id INTEGER PRIMARY KEY AUTOINCREMENT` to the rest of the row; `nextId` is the
 *   AUTOINCREMENT counter, one more than the largest id ever handed out.
 * - `votes`: the composite key `(news_id, user_id)` to `vote_type`.
 *
 * The schema declares foreign keys but the connection never enables them, so nothing ties a vote
 * or a subscription to an existing article or user; the model keeps the tables independent.
 * `url` carries no UNIQUE constraint: several rows may share one.
 */
module Store {
  import opened Wrappers
  import opened Seqs
  import opened Collation

  /** A row of `news` without its key. `message_id` is NULL until a delivery is recorded. */
  datatype NewsRow = NewsRow(title: string, url: string, topic: string, publishedAt: Option<string>, messageId: Option<int>)

  /** One entry of `get_votes`. */
  datatype Vote = Vote(userId: int, voteType: string)

  /** One entry of `get_top_voted_news`: `published_at` orders the result but is not returned. */
  datatype TopNews = TopNews(newsId: int, title: string, url: string, topic: string, voteCount: nat)

  /** `sqlite3.IntegrityError` (a key already present) and every other `sqlite3.Error`. */
  datatype StorageError = IntegrityError | OperationalError

  type NewsTable = map<int, NewsRow>
  type VoteTable = map<(int, int), string>

  // ---------------------------------------------------------------------------------------------
  // Vote counting: `COUNT(v.vote_type)` over the LEFT JOIN counts the vote rows of an article,
  // every kind alike (vote_type is NOT NULL, so no row is skipped).

  /** The keys of the vote rows on one article. */
  function VoteKeysOf(votes: VoteTable, newsId: int): set<(int, int)> {
    set k | k in votes && k.0 == newsId
  }

  function VoteCount(votes: VoteTable, newsId: int): nat {
    |VoteKeysOf(votes, newsId)|
  }

  /** The users who voted on an article. */
  function VoterIds(votes: VoteTable, newsId: int): set<int> {
    set k | k in votes && k.0 == newsId :: k.1
  }

  /**
   * An `INSERT OR REPLACE` into `votes` adds one to the count of its article when the user had not
   * voted on it yet and leaves every count unchanged otherwise: a replaced vote is not counted twice.
   */
  lemma VoteCountAfterVote(votes: VoteTable, newsId: int, userId: int, voteType: string, id: int)
    ensures VoteCount(votes[(newsId, userId) := voteType], id)
         == VoteCount(votes, id) + (if id == newsId && (newsId, userId) !in votes then 1 else 0)
  {
    var k := (newsId, userId);
    var before := VoteKeysOf(votes, id);
    var after := VoteKeysOf(votes[k := voteType], id);
    if id == newsId {
      assert after == before + {k};
      if k !in votes {
        assert k !in before;
      } else {
        assert before + {k} == before;
      }
    } else {
      assert after == before;
    }
  }

  // ---------------------------------------------------------------------------------------------
  // Ranking: `ORDER BY vote_count DESC, n.published_at DESC LIMIT ?`.

  /** A candidate row of the ranking query together with the column it is ordered by. */
  datatype Ranked = Ranked(row: TopNews, publishedAt: Option<string>)

  function RankedRow(news: NewsTable, votes: VoteTable, id: int): Ranked
    requires id in news
  {
    var n := news[id];
    Ranked(TopNews(id, n.title, n.url, n.topic, VoteCount(votes, id)), n.publishedAt)
  }

  /** The row the ranking query produces for article `id`. */
  function TopNewsOf(news: NewsTable, votes: VoteTable, id: int): TopNews
    requires id in news
  {
    RankedRow(news, votes, id).row
  }

  /** `a` may precede `b` in the ORDER BY: more votes first, then later `published_at`, NULL last. */
  predicate RanksAtLeast(a: Ranked, b: Ranked) {
    || a.row.voteCount > b.row.voteCount
    || (a.row.voteCount == b.row.voteCount && PublishedNoLater(a.publishedAt, b.publishedAt))
  }

  /** The same order stated on result rows, looking `published_at` up in the table. */
  predicate NewsRanksAtLeast(news: NewsTable, a: TopNews, b: TopNews) {
    && a.newsId in news && b.newsId in news
    && (|| a.voteCount > b.voteCount
        || (a.voteCount == b.voteCount && PublishedNoLater(news[a.newsId].publishedAt, news[b.newsId].publishedAt)))
  }

  lemma RanksAtLeastTotal(a: Ranked, b: Ranked)
    ensures RanksAtLeast(a, b) || RanksAtLeast(b, a)
  {
    PublishedNoLaterTotal(a.publishedAt, b.publishedAt);
  }

  lemma RanksAtLeastTransitive(a: Ranked, b: Ranked, c: Ranked)
    requires RanksAtLeast(a, b) && RanksAtLeast(b, c)
    ensures RanksAtLeast(a, c)
  {
    if a.row.voteCount == b.row.voteCount == c.row.voteCount {
      PublishedNoLaterTransitive(a.publishedAt, b.publishedAt, c.publishedAt);
    }
  }

  predicate SortedByRank(s: seq<Ranked>) {
    forall i, j :: 0 <= i < j < |s| ==> RanksAtLeast(s[i], s[j])
  }

  /** The articles with ids in `[lo, hi)` whose topic is in `topics`, by ascending id. */
  function Candidates(news: NewsTable, votes: VoteTable, topics: set<string>, lo: int, hi: int): seq<Ranked>
    decreases hi - lo
  {
    if lo >= hi then []
    else (if lo in news && news[lo].topic in topics then [RankedRow(news, votes, lo)] else [])
         + Candidates(news, votes, topics, lo + 1, hi)
  }

  lemma {:induction false} CandidatesFacts(news: NewsTable, votes: VoteTable, topics: set<string>, lo: int, hi: int)
    ensures forall c :: c in Candidates(news, votes, topics, lo, hi) ==>
      && lo <= c.row.newsId < hi && c.row.newsId in news && news[c.row.newsId].topic in topics
      && c == RankedRow(news, votes, c.row.newsId)
    ensures forall id :: lo <= id < hi && id in news && news[id].topic in topics ==>
      RankedRow(news, votes, id) in Candidates(news, votes, topics, lo, hi)
    ensures Distinct(Candidates(news, votes, topics, lo, hi))
    decreases hi - lo
  {
    if lo < hi {
      CandidatesFacts(news, votes, topics, lo + 1, hi);
      var tail := Candidates(news, votes, topics, lo + 1, hi);
      if lo in news && news[lo].topic in topics {
        var head := RankedRow(news, votes, lo);
        assert head !in tail;
        var all := [head] + tail;
        forall i, j | 0 <= i < j < |all| ensures all[i] != all[j] {
          if i > 0 {
            assert all[i] == tail[i - 1] && all[j] == tail[j - 1];
          } else {
            assert all[j] == tail[j - 1];
          }
        }
      }
    }
  }

  /** Places `x` before the first element it ranks at least as high as. */
  function Insert(x: Ranked, s: seq<Ranked>): seq<Ranked> {
    if s == [] then [x]
    else if RanksAtLeast(x, s[0]) then [x] + s
    else [s[0]] + Insert(x, s[1..])
  }

  /** Insertion sort under `RanksAtLeast`; among equal keys the earlier (lower id) comes first. */
  function Sort(s: seq<Ranked>): seq<Ranked> {
    if s == [] then [] else Insert(s[0], Sort(s[1..]))
  }

  lemma {:induction false} InsertElements(x: Ranked, s: seq<Ranked>)
    ensures |Insert(x, s)| == |s| + 1
    ensures forall e :: e in Insert(x, s) <==> e == x || e in s
  {
    if s != [] && !RanksAtLeast(x, s[0]) {
      InsertElements(x, s[1..]);
      assert s == [s[0]] + s[1..];
    }
  }

  lemma {:induction false} InsertSorted(x: Ranked, s: seq<Ranked>)
    requires SortedByRank(s)
    ensures SortedByRank(Insert(x, s))
  {
    if s == [] {
    } else if RanksAtLeast(x, s[0]) {
      var r := [x] + s;
      forall i, j | 0 <= i < j < |r| ensures RanksAtLeast(r[i], r[j]) {
        if i == 0 && j > 1 {
          RanksAtLeastTransitive(x, s[0], s[j - 1]);
        }
      }
    } else {
      RanksAtLeastTotal(x, s[0]);
      InsertSorted(x, s[1..]);
      InsertElements(x, s[1..]);
      var t := Insert(x, s[1..]);
      var r := [s[0]] + t;
      forall i, j | 0 <= i < j < |r| ensures RanksAtLeast(r[i], r[j]) {
        if i == 0 {
          assert r[j] in t;
          if r[j] != x {
            var k :| 0 <= k < |s[1..]| && s[1..][k] == r[j];
            assert s[k + 1] == r[j];
          }
        } else {
          assert r[i] == t[i - 1] && r[j] == t[j - 1];
        }
      }
    }
  }

  lemma {:induction false} InsertDistinct(x: Ranked, s: seq<Ranked>)
    requires Distinct(s) && x !in s
    ensures Distinct(Insert(x, s))
  {
    var r := Insert(x, s);
    if s == [] {
    } else if RanksAtLeast(x, s[0]) {
      forall i, j | 0 <= i < j < |r| ensures r[i] != r[j] {
        if i > 0 {
          assert r[i] == s[i - 1] && r[j] == s[j - 1];
        } else {
          assert r[j] == s[j - 1];
        }
      }
    } else {
      assert s == [s[0]] + s[1..];
      InsertDistinct(x, s[1..]);
      InsertElements(x, s[1..]);
      var t := Insert(x, s[1..]);
      assert s[0] !in s[1..];
      assert s[0] !in t;
      forall i, j | 0 <= i < j < |r| ensures r[i] != r[j] {
        if i > 0 {
          assert r[i] == t[i - 1] && r[j] == t[j - 1];
        } else {
          assert r[j] == t[j - 1];
        }
      }
    }
  }

  lemma {:induction false} SortFacts(s: seq<Ranked>)
    ensures |Sort(s)| == |s|
    ensures forall e :: e in Sort(s) <==> e in s
    ensures SortedByRank(Sort(s))
    ensures Distinct(s) ==> Distinct(Sort(s))
  {
    if s != [] {
      assert s == [s[0]] + s[1..];
      SortFacts(s[1..]);
      InsertElements(s[0], Sort(s[1..]));
      InsertSorted(s[0], Sort(s[1..]));
      if Distinct(s) {
        assert s[0] !in s[1..];
        assert Distinct(s[1..]) by {
          forall i, j | 0 <= i < j < |s[1..]| ensures s[1..][i] != s[1..][j] {
            assert s[1..][i] == s[i + 1] && s[1..][j] == s[j + 1];
          }
        }
        InsertDistinct(s[0], Sort(s[1..]));
      }
    }
  }

  /** SQLite's `LIMIT n`: at most `n` rows, and no bound at all when `n` is negative. */
  function Limit<T>(s: seq<T>, n: int): (r: seq<T>)
    ensures |r| <= |s| && r == s[..|r|]
    ensures n >= 0 ==> |r| <= n
    ensures |r| < |s| ==> |r| == n
  {
    if 0 <= n < |s| then s[..n] else s
  }

  function RowsOf(s: seq<Ranked>): (r: seq<TopNews>)
    ensures |r| == |s| && forall i :: 0 <= i < |s| ==> r[i] == s[i].row
  {
    seq(|s|, i requires 0 <= i < |s| => s[i].row)
  }

  /** The ranking query of `get_top_voted_news` over the table contents, article ids below `nextId`. */
  function TopVoted(news: NewsTable, votes: VoteTable, nextId: int, topics: set<string>, limit: int): seq<TopNews> {
    RowsOf(Limit(Ranking(news, votes, nextId, topics), limit))
  }

  /** The eligible articles, ranked, before the LIMIT. */
  function Ranking(news: NewsTable, votes: VoteTable, nextId: int, topics: set<string>): seq<Ranked> {
    Sort(Candidates(news, votes, topics, 1, nextId))
  }

  lemma RankingFacts(news: NewsTable, votes: VoteTable, nextId: int, topics: set<string>)
    ensures var l := Ranking(news, votes, nextId, topics);
      && Distinct(l)
      && SortedByRank(l)
      && (forall i :: 0 <= i < |l| ==>
            && l[i].row.newsId in news && news[l[i].row.newsId].topic in topics
            && l[i] == RankedRow(news, votes, l[i].row.newsId))
      && (forall id :: 1 <= id < nextId && id in news && news[id].topic in topics ==> RankedRow(news, votes, id) in l)
  {
    var c := Candidates(news, votes, topics, 1, nextId);
    CandidatesFacts(news, votes, topics, 1, nextId);
    SortFacts(c);
    var l := Ranking(news, votes, nextId, topics);
    forall i | 0 <= i < |l|
      ensures l[i].row.newsId in news && news[l[i].row.newsId].topic in topics
      ensures l[i] == RankedRow(news, votes, l[i].row.newsId)
    {
      assert l[i] in c;
    }
  }

  /** At most `limit` rows; an empty topic set matches nothing. */
  lemma TopVotedBound(news: NewsTable, votes: VoteTable, nextId: int, topics: set<string>, limit: int)
    ensures limit >= 0 ==> |TopVoted(news, votes, nextId, topics, limit)| <= limit
    ensures topics == {} ==> TopVoted(news, votes, nextId, topics, limit) == []
  {
    if topics == {} {
      NoTopicsNoNews(news, votes, 1, nextId);
    }
  }

  /** Every row is the row of a distinct stored article on one of the topics, with its vote count. */
  lemma TopVotedSound(news: NewsTable, votes: VoteTable, nextId: int, topics: set<string>, limit: int)
    ensures var r := TopVoted(news, votes, nextId, topics, limit);
      && (forall i :: 0 <= i < |r| ==>
            r[i].newsId in news && news[r[i].newsId].topic in topics && r[i] == TopNewsOf(news, votes, r[i].newsId))
      && (forall i, j :: 0 <= i < j < |r| ==> r[i].newsId != r[j].newsId)
  {
    var l := Ranking(news, votes, nextId, topics);
    RankingFacts(news, votes, nextId, topics);
    var r := TopVoted(news, votes, nextId, topics, limit);
    assert forall i :: 0 <= i < |r| ==> r[i] == l[i].row;
    forall i, j | 0 <= i < j < |r| ensures r[i].newsId != r[j].newsId {
      assert l[i] != l[j];
    }
  }

  /** Rows come by vote count descending, then `published_at` descending with NULL last. */
  lemma TopVotedOrdered(news: NewsTable, votes: VoteTable, nextId: int, topics: set<string>, limit: int)
    ensures var r := TopVoted(news, votes, nextId, topics, limit);
      forall i, j :: 0 <= i < j < |r| ==> NewsRanksAtLeast(news, r[i], r[j])
  {
    var l := Ranking(news, votes, nextId, topics);
    RankingFacts(news, votes, nextId, topics);
    var r := TopVoted(news, votes, nextId, topics, limit);
    forall i, j | 0 <= i < j < |r| ensures NewsRanksAtLeast(news, r[i], r[j]) {
      assert r[i] == l[i].row && r[j] == l[j].row;
      assert RanksAtLeast(l[i], l[j]);
    }
  }

  /**
   * The LEFT JOIN keeps articles without votes: an eligible article that is missing from the
   * result was cut by the LIMIT, and ranks no higher than any row that was kept.
   */
  lemma TopVotedComplete(news: NewsTable, votes: VoteTable, nextId: int, topics: set<string>, limit: int, id: int)
    requires 1 <= id < nextId && id in news && news[id].topic in topics
    requires TopNewsOf(news, votes, id) !in TopVoted(news, votes, nextId, topics, limit)
    ensures var r := TopVoted(news, votes, nextId, topics, limit);
      && |r| == limit
      && forall i :: 0 <= i < |r| ==> NewsRanksAtLeast(news, r[i], TopNewsOf(news, votes, id))
  {
    var l := Ranking(news, votes, nextId, topics);
    RankingFacts(news, votes, nextId, topics);
    var r := TopVoted(news, votes, nextId, topics, limit);
    var x := RankedRow(news, votes, id);
    var k :| 0 <= k < |l| && l[k] == x;
    forall i | 0 <= i < |r| ensures NewsRanksAtLeast(news, r[i], TopNewsOf(news, votes, id)) {
      assert r[i] == l[i].row;
      assert RanksAtLeast(l[i], l[k]);
    }
  }

  /** `IN ()` matches nothing: an empty topic list gives an empty ranking. */
  lemma {:induction false} NoTopicsNoNews(news: NewsTable, votes: VoteTable, lo: int, hi: int)
    ensures Candidates(news, votes, {}, lo, hi) == []
    decreases hi - lo
  {
    if lo < hi {
      NoTopicsNoNews(news, votes, lo + 1, hi);
    }
  }

  // ---------------------------------------------------------------------------------------------

  /** The topics one user is subscribed to. */
  function TopicsOf(subscriptions: set<(int, string)>, userId: int): set<string> {
    set p | p in subscriptions && p.0 == userId :: p.1
  }

  /** The four tables of the database file. */
  class Database {
    var users: map<int, string>
    var subscriptions: set<(int, string)>
    var news: NewsTable
    var nextId: int
    var votes: VoteTable

    /** AUTOINCREMENT starts at 1 and every stored id lies below the counter. */
    ghost predicate Valid()
      reads this`news, this`nextId
    {
      nextId >= 1 && forall id :: id in news ==> 1 <= id < nextId
    }

    /** `init_db` on a new database file: four empty tables. */
    constructor ()
      ensures Valid()
      ensures users == map[] && subscriptions == {} && news == map[] && votes == map[] && nextId == 1
    {
      users := map[];
      subscriptions := {};
      news := map[];
      nextId := 1;
      votes := map[];
    }

    /** `INSERT OR REPLACE INTO users`: an upsert on `user_id`. */
    method AddUser(userId: int, username: string)
      modifies this`users
      ensures users == old(users)[userId := username]
    {
      users := users[userId := username];
    }

    /** A plain `INSERT`: the composite primary key rejects a pair that is already there. */
    method AddSubscription(userId: int, topic: string) returns (r: Outcome<StorageError>)
      modifies this`subscriptions
      ensures r == if (userId, topic) in old(subscriptions) then Fail(IntegrityError) else Pass
      ensures r.Pass? ==> subscriptions == old(subscriptions) + {(userId, topic)}
      ensures r.Fail? ==> subscriptions == old(subscriptions)
    {
      if (userId, topic) in subscriptions {
        r := Fail(IntegrityError);
      } else {
        subscriptions := subscriptions + {(userId, topic)};
        r := Pass;
      }
    }

    /** `SELECT topic FROM subscriptions WHERE user_id = ?`: each topic once, in no defined order. */
    method GetSubscriptions(userId: int) returns (topics: seq<string>)
      ensures Distinct(topics)
      ensures forall t :: t in topics <==> (userId, t) in subscriptions
      ensures |topics| == |TopicsOf(subscriptions, userId)|
    {
      topics := Enumerate(TopicsOf(subscriptions, userId));
    }

    /** `DELETE ... WHERE user_id = ? AND topic = ?`: removes that one pair, silently if it is absent. */
    method RemoveSubscription(userId: int, topic: string)
      modifies this`subscriptions
      ensures subscriptions == old(subscriptions) - {(userId, topic)}
    {
      subscriptions := subscriptions - {(userId, topic)};
    }

    /** `UPDATE news SET message_id = ? WHERE news_id = ?`: an unknown id matches no row. */
    method UpdateNewsMessageId(newsId: int, messageId: int)
      modifies this`news
      ensures news.Keys == old(news).Keys
      ensures news == if newsId in old(news) then old(news)[newsId := old(news)[newsId].(messageId := Some(messageId))]
                      else old(news)
    {
      if newsId in news {
        news := news[newsId := news[newsId].(messageId := Some(messageId))];
      }
    }

    /** `INSERT OR REPLACE INTO votes`: one vote per (article, user), the latest kind wins. */
    method AddVote(newsId: int, userId: int, voteType: string)
      modifies this`votes
      ensures votes == old(votes)[(newsId, userId) := voteType]
    {
      votes := votes[(newsId, userId) := voteType];
    }

    /** `SELECT user_id, vote_type FROM votes WHERE news_id = ?`: one entry per voter, in no defined order. */
    method GetVotes(newsId: int) returns (r: seq<Vote>)
      ensures forall i :: 0 <= i < |r| ==> (newsId, r[i].userId) in votes && votes[(newsId, r[i].userId)] == r[i].voteType
      ensures forall i, j :: 0 <= i < j < |r| ==> r[i].userId != r[j].userId
      ensures forall u :: (newsId, u) in votes ==> Vote(u, votes[(newsId, u)]) in r
    {
      var vs := votes;
      var voters := Enumerate(VoterIds(vs, newsId));
      assert forall u :: u in voters ==> (newsId, u) in vs;
      r := seq(|voters|, i requires 0 <= i < |voters| => Vote(voters[i], vs[(newsId, voters[i])]));
      forall u | (newsId, u) in vs ensures Vote(u, vs[(newsId, u)]) in r {
        assert u in VoterIds(vs, newsId);
        var i :| 0 <= i < |voters| && voters[i] == u;
        assert r[i] == Vote(u, vs[(newsId, u)]);
      }
    }

    /**
     * `get_top_voted_news(topics, limit)`. `WHERE n.topic IN (...)` tests membership only, so the
     * result depends on the set of the listed topics, not on their order or repetitions.
     */
    function GetTopVotedNews(topics: seq<string>, limit: int): (r: seq<TopNews>)
      reads this`news, this`votes, this`nextId
      requires Valid()
      ensures limit >= 0 ==> |r| <= limit
      ensures topics == [] ==> r == []
      ensures forall i :: 0 <= i < |r| ==>
        r[i].newsId in news && news[r[i].newsId].topic in topics && r[i] == TopNewsOf(news, votes, r[i].newsId)
      ensures forall i, j :: 0 <= i < j < |r| ==> r[i].newsId != r[j].newsId
      ensures forall i, j :: 0 <= i < j < |r| ==> NewsRanksAtLeast(news, r[i], r[j])
      ensures forall id :: id in news && news[id].topic in topics && TopNewsOf(news, votes, id) !in r ==>
        && |r| == limit
        && forall i :: 0 <= i < |r| ==> NewsRanksAtLeast(news, r[i], TopNewsOf(news, votes, id))
    {
      var ts := set t | t in topics;
      TopVotedBound(news, votes, nextId, ts, limit);
      TopVotedSound(news, votes, nextId, ts, limit);
      TopVotedOrdered(news, votes, nextId, ts, limit);
      var r := TopVoted(news, votes, nextId, ts, limit);
      assert forall id :: id in news && news[id].topic in topics && TopNewsOf(news, votes, id) !in r ==>
        && |r| == limit
        && forall i :: 0 <= i < |r| ==> NewsRanksAtLeast(news, r[i], TopNewsOf(news, votes, id))
      by {
        forall id | id in news && news[id].topic in topics && TopNewsOf(news, votes, id) !in r
          ensures |r| == limit && forall i :: 0 <= i < |r| ==> NewsRanksAtLeast(news, r[i], TopNewsOf(news, votes, id))
        {
          TopVotedComplete(news, votes, nextId, ts, limit, id);
        }
      }
      r
    }
  }
}
