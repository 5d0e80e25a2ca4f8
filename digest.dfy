/**
 * The scheduled daily summary (main.py, `NewsBot.send_daily_summary`): which users are visited,
 * what each is sent and where, and which failures end the whole run. The Discord calls are
 * reduced to outcomes given as inputs.
 */
module Digest {
  import opened Wrappers
  import opened Seqs
  import opened Text
  import opened Store

  /** The number of articles each summary lists. */
  const PerUser: int := 3

  /**
   * `config.SUMMARY_CHANNEL_ID`: either the attribute does not exist on the `config` module
   * (reading it raises `AttributeError`), or it holds a channel id or `None`.
   */
  datatype ChannelSetting = Undefined | Configured(channelId: Option<int>)

  /** `if config.SUMMARY_CHANNEL_ID:` for a defined setting: `None` and `0` are falsy. */
  predicate ChannelWanted(c: Option<int>) {
    c.Some? && c.value != 0
  }

  /** What `await self.fetch_user(user_id)` does: return a user, return something falsy, or raise. */
  datatype Lookup = Found | NotReturned | LookupFailed

  /** What a `send` does: deliver, raise `discord.errors.Forbidden`, or raise anything else. */
  datatype SendOutcome = Sent | Forbidden | SendFailed

  /** What Discord does for one user during the run. */
  datatype UserEnv = UserEnv(lookup: Lookup, send: SendOutcome)

  /** Where a summary goes; a direct message may follow the warning that the channel was not found. */
  datatype Destination = SummaryChannel(channelId: int) | DirectMessage(channelMissing: bool)

  /** One send, with its text and what came of it. */
  datatype Attempt = Attempt(userId: int, destination: Destination, text: string, outcome: SendOutcome)

  /** Whether the loop ran to its end or an exception reached the outer handler at one user. */
  datatype RunEnd = Completed | Aborted(userId: int)

  /** What a run did: the sends it attempted, in order, and how it ended. */
  datatype Run = Run(attempts: seq<Attempt>, end: RunEnd)

  /** The store as the summary reads it. */
  datatype Snapshot = Snapshot(subscriptions: set<(int, string)>, news: NewsTable, votes: VoteTable, nextId: int)

  /** The setting, whether `get_channel` finds the channel, and what happens for each user. */
  datatype Platform = Platform(setting: ChannelSetting, channelFound: bool, env: int -> UserEnv)

  /** `SELECT DISTINCT user_id FROM subscriptions`, as a set. */
  function Subscribers(subscriptions: set<(int, string)>): set<int> {
    set p | p in subscriptions :: p.0
  }

  /** `get_top_voted_news(get_subscriptions(user_id), limit=3)`. */
  function TopFor(snap: Snapshot, userId: int): seq<TopNews> {
    TopVoted(snap.news, snap.votes, snap.nextId, TopicsOf(snap.subscriptions, userId), PerUser)
  }

  /** `- {title} ({url}) [{vote_count} votos]`. */
  function SummaryLine(n: TopNews): string {
    "- " + n.title + " (" + n.url + ") [" + NatToString(n.voteCount) + " votos]"
  }

  function SummaryLines(top: seq<TopNews>): (r: seq<string>)
    ensures |r| == |top| && forall i :: 0 <= i < |top| ==> r[i] == SummaryLine(top[i])
  {
    seq(|top|, i requires 0 <= i < |top| => SummaryLine(top[i]))
  }

  /** The body: one line per ranked article, in ranking order, joined by newlines. */
  function Body(top: seq<TopNews>): string {
    Join(SummaryLines(top), "\n")
  }

  /** `user.mention`. */
  function Mention(userId: int): string {
    "<@" + IntToString(userId) + ">"
  }

  /** The routing of main.py:64-72 for a defined setting. */
  function Route(c: Option<int>, channelFound: bool): (d: Destination)
    ensures d.SummaryChannel? <==> ChannelWanted(c) && channelFound
    ensures d.SummaryChannel? ==> d.channelId == c.value
    ensures d.DirectMessage? ==> (d.channelMissing <==> ChannelWanted(c))
  {
    if ChannelWanted(c) then (if channelFound then SummaryChannel(c.value) else DirectMessage(true))
    else DirectMessage(false)
  }

  /** The text sent to a destination: the channel message names the user, the direct one does not. */
  function SummaryText(d: Destination, userId: int, body: string): string {
    match d
    case SummaryChannel(_) => "Resumo diário para " + Mention(userId) + ":\n" + body
    case DirectMessage(_) => "Resumo diário:\n" + body
  }

  /**
   * One turn of the loop for `userId`: the sends it attempts and whether an exception escaped to
   * the outer handler. An empty top list or a falsy user skips the user; a `Forbidden` send is
   * caught inside the loop; every other exception (from `fetch_user`, from reading an undefined
   * setting, from any other send failure) ends the run.
   */
  function Turn(snap: Snapshot, p: Platform, userId: int): (seq<Attempt>, bool) {
    var top := TopFor(snap, userId);
    if top == [] then ([], false)
    else
      match p.env(userId).lookup
      case NotReturned => ([], false)
      case LookupFailed => ([], true)
      case Found =>
        match p.setting
        case Undefined => ([], true)
        case Configured(c) =>
          var d := Route(c, p.channelFound);
          var outcome := p.env(userId).send;
          ([Attempt(userId, d, SummaryText(d, userId, Body(top)), outcome)], outcome == SendFailed)
  }

  /** The run over `users` in order, stopping at the first turn whose exception escapes. */
  function RunOver(snap: Snapshot, p: Platform, users: seq<int>): Run {
    if users == [] then Run([], Completed)
    else
      var before := RunOver(snap, p, users[..|users| - 1]);
      if before.end.Aborted? then before
      else
        var u := users[|users| - 1];
        var (sent, stop) := Turn(snap, p, u);
        Run(before.attempts + sent, if stop then Aborted(u) else Completed)
  }

  /**
   * `send_daily_summary`: the distinct subscribed users in the order the SELECT lists them, and
   * the run over them. It only reads the store.
   */
  method SendDailySummary(db: Database, p: Platform) returns (userIds: seq<int>, run: Run)
    requires db.Valid()
    ensures Distinct(userIds) && forall u :: u in userIds <==> u in Subscribers(db.subscriptions)
    ensures run == RunOver(Snapshot(db.subscriptions, db.news, db.votes, db.nextId), p, userIds)
    ensures db.subscriptions == {} ==> userIds == [] && run == Run([], Completed)
  {
    ghost var snap := Snapshot(db.subscriptions, db.news, db.votes, db.nextId);
    var subscribed := db.subscriptions;
    userIds := Enumerate(Subscribers(subscribed));
    run := Run([], Completed);
    if userIds == [] {
      return;
    }
    var i := 0;
    while i < |userIds|
      invariant 0 <= i <= |userIds|
      invariant RunOver(snap, p, userIds[..i]) == run
      invariant run.end.Completed?
    {
      var u := userIds[i];
      var sent, stop := SummaryTurn(db, p, u);
      RunOverSnoc(snap, p, userIds, i);
      run := Run(run.attempts + sent, if stop then Aborted(u) else Completed);
      if stop {
        assert userIds[..|userIds|] == userIds;
        AbortedStays(snap, p, userIds, i + 1);
        return;
      }
      i := i + 1;
    }
    assert userIds[..|userIds|] == userIds;
  }

  /**
   * The body of the loop for one user (main.py:55-75): `stop` says that an exception escaped to
   * the outer handler at main.py:76.
   */
  method SummaryTurn(db: Database, p: Platform, u: int) returns (sent: seq<Attempt>, stop: bool)
    requires db.Valid()
    ensures (sent, stop) == Turn(Snapshot(db.subscriptions, db.news, db.votes, db.nextId), p, u)
  {
    ghost var snap := Snapshot(db.subscriptions, db.news, db.votes, db.nextId);
    sent, stop := [], false;
    var subscriptions := db.GetSubscriptions(u);
    assert (set t | t in subscriptions) == TopicsOf(snap.subscriptions, u);
    var top := db.GetTopVotedNews(subscriptions, PerUser);
    assert top == TopFor(snap, u);
    if top == [] {
      return;
    }
    var response := Body(top);
    var env := p.env(u);
    if env.lookup == NotReturned {
      return;
    }
    if env.lookup == LookupFailed || p.setting.Undefined? {
      stop := true;
      return;
    }
    var d := Route(p.setting.channelId, p.channelFound);
    sent := [Attempt(u, d, SummaryText(d, u, response), env.send)];
    stop := env.send == SendFailed;
  }

  /** One more visited user, while the run has not ended: that user's turn is appended. */
  lemma RunOverSnoc(snap: Snapshot, p: Platform, users: seq<int>, i: nat)
    requires i < |users| && RunOver(snap, p, users[..i]).end.Completed?
    ensures var (sent, stop) := Turn(snap, p, users[i]);
      RunOver(snap, p, users[..i + 1])
      == Run(RunOver(snap, p, users[..i]).attempts + sent, if stop then Aborted(users[i]) else Completed)
  {
    assert users[..i + 1][..i] == users[..i];
  }

  /** Once a prefix of the users has ended the run, the later users change nothing. */
  lemma {:induction false} AbortedStays(snap: Snapshot, p: Platform, users: seq<int>, k: nat)
    requires k <= |users|
    requires RunOver(snap, p, users[..k]).end.Aborted?
    ensures RunOver(snap, p, users) == RunOver(snap, p, users[..k])
    decreases |users| - k
  {
    if k < |users| {
      assert users[..k + 1][..k] == users[..k];
      assert RunOver(snap, p, users[..k + 1]) == RunOver(snap, p, users[..k]);
      AbortedStays(snap, p, users, k + 1);
    } else {
      assert users[..k] == users;
    }
  }

  /**
   * One turn sends at most one summary, to that user, listing at most three ranked articles of the
   * user's own topics; a user with nothing ranked gets nothing and stops nothing; a `Forbidden`
   * send never ends the run, and neither does a successful one.
   */
  lemma TurnFacts(snap: Snapshot, p: Platform, u: int)
    ensures var (sent, stop) := Turn(snap, p, u);
      && |sent| <= 1
      && (forall a :: a in sent ==> a.userId == u && a.outcome == p.env(u).send)
      && (TopFor(snap, u) == [] ==> sent == [] && !stop)
      && (p.env(u).lookup == NotReturned ==> sent == [] && !stop)
      && (p.env(u).send != SendFailed && p.env(u).lookup != LookupFailed && p.setting.Configured? ==> !stop)
      && (sent != [] <==> TopFor(snap, u) != [] && p.env(u).lookup == Found && p.setting.Configured?)
    ensures |TopFor(snap, u)| <= PerUser
    ensures forall i :: 0 <= i < |TopFor(snap, u)| ==>
      var n := TopFor(snap, u)[i];
      n.newsId in snap.news && snap.news[n.newsId].topic in TopicsOf(snap.subscriptions, u)
  {
    var topics := TopicsOf(snap.subscriptions, u);
    TopVotedBound(snap.news, snap.votes, snap.nextId, topics, PerUser);
    TopVotedSound(snap.news, snap.votes, snap.nextId, topics, PerUser);
  }

  /**
   * A run attempts at most one send per visited user, only to visited users and, when the SELECT
   * lists each user once, never twice to the same user; an aborted run names the user at which it
   * stopped: a visited user whose own turn raised.
   */
  lemma {:induction false} RunFacts(snap: Snapshot, p: Platform, users: seq<int>)
    ensures var run := RunOver(snap, p, users);
      && |run.attempts| <= |users|
      && (forall a :: a in run.attempts ==> a.userId in users)
      && (Distinct(users) ==> forall i, j :: 0 <= i < j < |run.attempts| ==> run.attempts[i].userId != run.attempts[j].userId)
      && (run.end.Aborted? ==> run.end.userId in users && Turn(snap, p, run.end.userId).1)
  {
    if users != [] {
      var init, u := users[..|users| - 1], users[|users| - 1];
      assert users == init + [u];
      RunFacts(snap, p, init);
      TurnFacts(snap, p, u);
      var before, run := RunOver(snap, p, init), RunOver(snap, p, users);
      if Distinct(users) && !before.end.Aborted? {
        assert Distinct(init) && u !in init;
        var sent := Turn(snap, p, u).0;
        assert run.attempts == before.attempts + sent;
        forall i, j | 0 <= i < j < |run.attempts| ensures run.attempts[i].userId != run.attempts[j].userId {
          if j >= |before.attempts| {
            assert run.attempts[j] in sent;
            assert run.attempts[i] == before.attempts[i] && before.attempts[i] in before.attempts;
          }
        }
      }
    }
  }

  /**
   * A user is skipped for an empty ranking exactly when no stored article is on one of the user's
   * topics: the LEFT JOIN lists articles nobody voted on, so votes play no part in the skip.
   */
  lemma SkippedExactlyWithoutArticles(snap: Snapshot, u: int)
    requires forall id :: id in snap.news ==> 1 <= id < snap.nextId
    ensures TopFor(snap, u) == [] <==>
      forall id :: id in snap.news ==> snap.news[id].topic !in TopicsOf(snap.subscriptions, u)
  {
    var topics := TopicsOf(snap.subscriptions, u);
    var r := TopFor(snap, u);
    assert r == TopVoted(snap.news, snap.votes, snap.nextId, topics, PerUser);
    TopVotedSound(snap.news, snap.votes, snap.nextId, topics, PerUser);
    if r != [] {
      assert r[0].newsId in snap.news && snap.news[r[0].newsId].topic in topics;
    }
    forall id | id in snap.news && snap.news[id].topic in topics ensures r != [] {
      if TopNewsOf(snap.news, snap.votes, id) !in r {
        TopVotedComplete(snap.news, snap.votes, snap.nextId, topics, PerUser, id);
      }
    }
  }

  /**
   * The turn for `u` gets past its two skips (nothing ranked, `fetch_user` returning None) and
   * reads `SUMMARY_CHANNEL_ID`, or raises from `fetch_user` just before.
   */
  predicate ReachesSetting(snap: Snapshot, p: Platform, u: int) {
    TopFor(snap, u) != [] && p.env(u).lookup != NotReturned
  }

  /** A turn with the setting undefined sends nothing, and raises exactly when it reaches the setting. */
  lemma UndefinedSettingTurn(snap: Snapshot, p: Platform, u: int)
    requires p.setting == Undefined
    ensures Turn(snap, p, u).0 == []
    ensures Turn(snap, p, u).1 <==> ReachesSetting(snap, p, u)
  {
  }

  /**
   * As written, `config` has no `SUMMARY_CHANNEL_ID`: nobody is ever sent a summary; the run ends
   * at the first user who has something ranked and who is returned, or not found, by `fetch_user`,
   * and completes only when there is no such user.
   */
  lemma {:induction false} AsWrittenSettingAbortsRun(snap: Snapshot, p: Platform, users: seq<int>)
    requires p.setting == Undefined
    ensures RunOver(snap, p, users).attempts == []
    ensures (forall k :: 0 <= k < |users| ==> !ReachesSetting(snap, p, users[k])) ==>
      RunOver(snap, p, users).end == Completed
    ensures forall k :: 0 <= k < |users| && ReachesSetting(snap, p, users[k])
                        && (forall j :: 0 <= j < k ==> !ReachesSetting(snap, p, users[j])) ==>
      RunOver(snap, p, users).end == Aborted(users[k])
  {
    if users != [] {
      var init, u := users[..|users| - 1], users[|users| - 1];
      assert users == init + [u];
      AsWrittenSettingAbortsRun(snap, p, init);
      UndefinedSettingStep(snap, p, users);
      forall k | 0 <= k < |init| ensures init[k] == users[k] { }
      forall k | 0 <= k < |users| && ReachesSetting(snap, p, users[k])
                 && (forall j :: 0 <= j < k ==> !ReachesSetting(snap, p, users[j]))
        ensures RunOver(snap, p, users).end == Aborted(users[k])
      {
        if k < |init| {
          assert ReachesSetting(snap, p, init[k]);
          assert forall j :: 0 <= j < k ==> !ReachesSetting(snap, p, init[j]);
        } else {
          assert forall j :: 0 <= j < |init| ==> !ReachesSetting(snap, p, init[j]);
        }
      }
    }
  }

  /** With the setting undefined, one more user either finds the run over or ends it exactly when reaching the setting. */
  lemma UndefinedSettingStep(snap: Snapshot, p: Platform, users: seq<int>)
    requires p.setting == Undefined && users != []
    ensures var before, u := RunOver(snap, p, users[..|users| - 1]), users[|users| - 1];
      RunOver(snap, p, users)
      == if before.end.Aborted? then before
         else Run(before.attempts, if ReachesSetting(snap, p, u) then Aborted(u) else Completed)
  {
    UndefinedSettingTurn(snap, p, users[|users| - 1]);
  }

  /**
   * With the setting defined, and no lookup or send failing other than by `Forbidden`, the run
   * completes and every visited user who has something ranked and is returned is sent a summary
   * at the routed destination, which arrives unless the send meets `Forbidden`.
   */
  lemma {:induction false} DefinedSettingCompletesRun(snap: Snapshot, p: Platform, users: seq<int>)
    requires p.setting.Configured?
    requires forall u :: u in users ==> p.env(u).lookup != LookupFailed && p.env(u).send != SendFailed
    ensures RunOver(snap, p, users).end == Completed
    ensures forall u :: u in users && TopFor(snap, u) != [] && p.env(u).lookup == Found ==>
      exists a :: && a in RunOver(snap, p, users).attempts && a.userId == u
                  && a.destination == Route(p.setting.channelId, p.channelFound) && a.outcome == p.env(u).send
  {
    if users != [] {
      var init, u := users[..|users| - 1], users[|users| - 1];
      assert users == init + [u];
      DefinedSettingCompletesRun(snap, p, init);
      TurnFacts(snap, p, u);
      var run := RunOver(snap, p, users);
      var (sent, stop) := Turn(snap, p, u);
      assert run.attempts == RunOver(snap, p, init).attempts + sent;
      forall v | v in users && TopFor(snap, v) != [] && p.env(v).lookup == Found
        ensures exists a :: && a in run.attempts && a.userId == v
                            && a.destination == Route(p.setting.channelId, p.channelFound) && a.outcome == p.env(v).send
      {
        if v == u {
          assert sent[0] in run.attempts;
        } else {
          assert v in init;
          var a :| && a in RunOver(snap, p, init).attempts && a.userId == v
                   && a.destination == Route(p.setting.channelId, p.channelFound) && a.outcome == p.env(v).send;
          assert a in run.attempts;
        }
      }
    }
  }
}
