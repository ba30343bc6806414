/**
 * The campaign scheduling state machine of server/scheduler.js.
 *
 * Each operation is first a pure function from the store's tables (`World`)
 * to the new tables, which is where its properties are proved; the
 * `Scheduler` class then carries it out step by step against the database.
 * The clock, the random source and the two collaborators (text generation,
 * publishing) are parameters: each collaborator either returns a value or
 * fails with an error message.
 */
module Scheduler {
  import opened Wrappers
  import opened Store
  import opened Compose
  import Gemini

  /** The injected collaborators and random draws of one operation. */
  datatype Oracles = Oracles(
    /** The language model behind tweet generation. */
    model: Gemini.Model,
    /** The remote id of the published message, or an error message. */
    publish: string -> Result<string, string>,
    /** The random shuffle of the hashtags. */
    picks: seq<nat>,
    /** The `Math.random()` value behind the next interval. */
    draw: Unit)

  /** Clock readings: when the operation starts, and once its post attempt is over. */
  datatype Clock = Clock(now: int, after: int)

  /** What one tick did. */
  datatype TickOutcome =
    | Skipped
    | NoActiveCampaign
    | Expired(id: int)
    | Attempted(id: int, posted: bool)
    | NotDue(id: int)

  datatype SchedulerError = CampaignNotFound

  /** The text recorded for a failed attempt. */
  const FailedText := "Failed to generate/post"

  /** `startedAt + durationDays` days, reading a missing start as time 0 as `new Date(null)` does. */
  function ExpiresAt(c: Campaign): (r: int)
    ensures c.startedAt.Some? ==> r - c.startedAt.value == c.durationDays * DayMs
    ensures c.startedAt.None? ==> r == c.durationDays * DayMs
    ensures c.startedAt.Some? && c.durationDays >= 1 ==> r >= c.startedAt.value + DayMs
  {
    c.startedAt.GetOr(0) + c.durationDays * DayMs
  }

  // ----- one post attempt (postTweet) -----

  /** The message built from the generated text and the selected hashtags. */
  function Message(content: string, selected: seq<string>): (r: string)
    ensures EndsWith(r, HashtagString(selected))
    ensures |HashtagString(selected)| <= TweetLimit - 4 ==> |r| <= TweetLimit
    ensures |content| + 1 + |HashtagString(selected)| <= TweetLimit ==> r == content + " " + HashtagString(selected)
  {
    ComposeTweet(content, HashtagString(selected))
  }

  /** The generation step of an attempt for `c`, with the campaign's recent posted texts as avoid-list. */
  function Generated(c: Campaign, history: seq<TweetRecord>, o: Oracles): Result<string, string> {
    Gemini.GenerateTweet(o.model, c.subject, c.extraInfo, RecentTweetTexts(history, c.id))
  }

  /**
   * The history entry of one post attempt for campaign `c`: generate, select,
   * compose, publish; an error from either collaborator gives a `failed` entry.
   */
  function Attempt(c: Campaign, history: seq<TweetRecord>, o: Oracles): (t: NewTweet)
    ensures t.campaignId == c.id
    ensures t.status == Posted <==>
              && Generated(c, history, o).Success?
              && o.publish(Message(Generated(c, history, o).value,
                                   SelectRandomHashtags(c.hashtags, HashtagsPerPost, o.picks))).Success?
    ensures t.status == Failed ==>
              && t.tweetText == FailedText && t.hashtagsUsed == [] && t.twitterTweetId.None?
              && t.errorMessage.Some?
              && (Generated(c, history, o).Failure? ==> t.errorMessage.value == Generated(c, history, o).error)
    ensures Generated(c, history, o).Success? ==>
              var m := Message(Generated(c, history, o).value, SelectRandomHashtags(c.hashtags, HashtagsPerPost, o.picks));
              o.publish(m).Failure? ==> t.status == Failed && t.errorMessage == Some(o.publish(m).error)
    ensures t.status == Posted ==>
              && t.errorMessage.None?
              && t.tweetText == Message(Generated(c, history, o).value, t.hashtagsUsed)
              && t.hashtagsUsed == SelectRandomHashtags(c.hashtags, HashtagsPerPost, o.picks)
              && t.twitterTweetId == Some(o.publish(Message(Generated(c, history, o).value, t.hashtagsUsed)).value)
  {
    match Generated(c, history, o)
    case Failure(e) => NewTweet(c.id, FailedText, [], None, Failed, Some(e))
    case Success(content) =>
      var selected := SelectRandomHashtags(c.hashtags, HashtagsPerPost, o.picks);
      var message := Message(content, selected);
      match o.publish(message)
      case Failure(e) => NewTweet(c.id, FailedText, [], None, Failed, Some(e))
      case Success(tweetId) => NewTweet(c.id, message, selected, Some(tweetId), Posted, None)
  }

  predicate EndsWith(s: string, suffix: string) {
    |suffix| <= |s| && s[|s| - |suffix|..] == suffix
  }

  /**
   * A posted entry carries at most three of the campaign's hashtags, and its
   * text ends with them.
   */
  lemma PostedHashtags(c: Campaign, history: seq<TweetRecord>, o: Oracles)
    requires Attempt(c, history, o).status == Posted
    ensures var t := Attempt(c, history, o);
            && |t.hashtagsUsed| <= HashtagsPerPost
            && multiset(t.hashtagsUsed) <= multiset(c.hashtags)
            && EndsWith(t.tweetText, HashtagString(t.hashtagsUsed))
  {
  }

  /** A posted message fits in 280 characters whenever its hashtag block is at most 276 long. */
  lemma PostedMessageFits(c: Campaign, history: seq<TweetRecord>, o: Oracles)
    requires Attempt(c, history, o).status == Posted
    requires |HashtagString(Attempt(c, history, o).hashtagsUsed)| <= TweetLimit - 4
    ensures |Attempt(c, history, o).tweetText| <= TweetLimit
  {
  }

  /**
   * The generated text (at most 200 characters) is posted uncut, followed by
   * one space and the hashtags, when the hashtag block is at most 79 long.
   */
  lemma PostedTextKeepsGenerated(c: Campaign, history: seq<TweetRecord>, o: Oracles)
    requires Attempt(c, history, o).status == Posted
    requires |HashtagString(Attempt(c, history, o).hashtagsUsed)| <= TweetLimit - Gemini.MaxTweetLength - 1
    ensures Attempt(c, history, o).tweetText ==
              Generated(c, history, o).value + " " + HashtagString(Attempt(c, history, o).hashtagsUsed)
  {
  }

  /** The store after appending one history entry at time `at`. */
  function Append(w: World, t: NewTweet, at: int): (r: World)
    ensures r.campaigns == w.campaigns && r.nextCampaignId == w.nextCampaignId
    ensures r.history == w.history + [ToRecord(|w.history| + 1, t, at)]
  {
    w.(history := w.history + [ToRecord(|w.history| + 1, t, at)])
  }

  /** Appending keeps the store consistent. */
  lemma AppendConsistent(w: World, t: NewTweet, at: int)
    requires Consistent(w)
    ensures Consistent(Append(w, t, at))
  {
  }

  // ----- the minute tick (checkScheduledTweets) -----

  /** The tables after one tick, and what the tick did. */
  function Tick(w: World, clock: Clock, o: Oracles): (r: (World, TickOutcome))
    ensures r.0.nextCampaignId == w.nextCampaignId
    ensures r.1 == NoActiveCampaign <==> Active(w).None?
    ensures r.1.Attempted? || r.0.history == w.history
    ensures r.1.NotDue? || r.1 == NoActiveCampaign ==> r.0 == w
    ensures r.1.Expired? ==> r.0.campaigns == StopRow(w.campaigns, r.1.id)
  {
    match Active(w)
    case None => (w, NoActiveCampaign)
    case Some(c) =>
      if clock.now > ExpiresAt(c) then
        (w.(campaigns := StopRow(w.campaigns, c.id)), Expired(c.id))
      else if c.nextTweetAt.Some? && clock.now >= c.nextTweetAt.value then
        var t := Attempt(c, w.history, o);
        var posted := Append(w, t, clock.after);
        var next := NextTweetTime(clock.after, c.minIntervalMs, c.maxIntervalMs, o.draw);
        (posted.(campaigns := SetNextRow(posted.campaigns, c.id, next)), Attempted(c.id, t.status == Posted))
      else
        (w, NotDue(c.id))
  }

  /** With no running campaign a tick changes nothing. */
  lemma TickIdle(w: World, clock: Clock, o: Oracles)
    requires Consistent(w) && RunningIds(w.campaigns) == {}
    ensures Tick(w, clock, o) == (w, NoActiveCampaign)
  {
  }

  /**
   * An expired campaign is stopped and nothing is posted, even when it is due;
   * no other row and no history changes.
   */
  lemma TickExpires(w: World, clock: Clock, o: Oracles)
    requires Consistent(w) && Active(w).Some? && clock.now > ExpiresAt(Active(w).value)
    ensures var (w', out) := Tick(w, clock, o);
            var id := Active(w).value.id;
            && out == Expired(id)
            && w'.history == w.history
            && w'.campaigns[id].status == Stopped && w'.campaigns[id].nextTweetAt.None?
            && OnlyRowChanged(w.campaigns, w'.campaigns, id)
  {
  }

  /**
   * A due, unexpired campaign gets exactly one post attempt, recorded as one
   * new history entry, and is rescheduled from the clock reading after the
   * attempt, whatever its outcome.
   */
  lemma TickPostsOnceAndReschedules(w: World, clock: Clock, o: Oracles)
    requires Consistent(w) && Active(w).Some?
    requires var c := Active(w).value;
             clock.now <= ExpiresAt(c) && c.nextTweetAt.Some? && clock.now >= c.nextTweetAt.value
    ensures var c := Active(w).value;
            var (w', out) := Tick(w, clock, o);
            && out.Attempted? && out.id == c.id
            && |w'.history| == |w.history| + 1 && w'.history[..|w.history|] == w.history
            && w'.history[|w.history|] == ToRecord(|w.history| + 1, Attempt(c, w.history, o), clock.after)
            && w'.history[|w.history|].campaignId == c.id
            && (out.posted <==> w'.history[|w.history|].status == Posted)
            && OnlyRowChanged(w.campaigns, w'.campaigns, c.id)
            && w'.campaigns[c.id].status == Running
            && w'.campaigns[c.id].nextTweetAt.Some?
            && (c.minIntervalMs <= c.maxIntervalMs ==>
                  clock.after + c.minIntervalMs <= w'.campaigns[c.id].nextTweetAt.value <= clock.after + c.maxIntervalMs)
  {
    var c := Active(w).value;
    var (w', out) := Tick(w, clock, o);
    assert w'.history == w.history + [ToRecord(|w.history| + 1, Attempt(c, w.history, o), clock.after)];
  }

  /** A campaign that is neither expired nor due is left alone. */
  lemma TickNotDue(w: World, clock: Clock, o: Oracles)
    requires Consistent(w) && Active(w).Some?
    requires var c := Active(w).value;
             clock.now <= ExpiresAt(c) && (c.nextTweetAt.None? || clock.now < c.nextTweetAt.value)
    ensures Tick(w, clock, o) == (w, NotDue(Active(w).value.id))
  {
  }

  /** A tick keeps the store consistent and never starts a campaign. */
  lemma {:induction false} TickInvariant(w: World, clock: Clock, o: Oracles)
    requires Consistent(w)
    ensures Consistent(Tick(w, clock, o).0)
    ensures RunningIds(Tick(w, clock, o).0.campaigns) <= RunningIds(w.campaigns)
    ensures AtMostOneRunning(w.campaigns) ==> AtMostOneRunning(Tick(w, clock, o).0.campaigns)
  {
    var (w', out) := Tick(w, clock, o);
    match Active(w)
    case None =>
    case Some(c) =>
      if clock.now > ExpiresAt(c) {
        StopRunning(w.campaigns, c.id);
      } else if c.nextTweetAt.Some? && clock.now >= c.nextTweetAt.value {
        var posted := Append(w, Attempt(c, w.history, o), clock.after);
        AppendConsistent(w, Attempt(c, w.history, o), clock.after);
        var next := NextTweetTime(clock.after, c.minIntervalMs, c.maxIntervalMs, o.draw);
        SetNextRunning(posted.campaigns, c.id, next);
      }
  }

  /** Setting a due time changes no row's status. */
  lemma SetNextRunning(m: Table, id: int, next: int)
    ensures RunningIds(SetNextRow(m, id, next)) == RunningIds(m)
  {
    var r := SetNextRow(m, id, next);
    forall k ensures k in RunningIds(r) <==> k in RunningIds(m) {
      if k in m && k != id { assert r[k] == m[k]; }
    }
  }

  /** The history only grows, by at most one entry per tick. */
  lemma {:induction false} TickAppendsAtMostOne(w: World, clock: Clock, o: Oracles)
    ensures var w' := Tick(w, clock, o).0;
            && w.history <= w'.history
            && |w'.history| <= |w.history| + 1
            && (|w'.history| == |w.history| + 1 <==> Tick(w, clock, o).1.Attempted?)
  {
    var (w', out) := Tick(w, clock, o);
    match Active(w)
    case None =>
    case Some(c) =>
      if clock.now <= ExpiresAt(c) && c.nextTweetAt.Some? && clock.now >= c.nextTweetAt.value {
        assert w'.history == w.history + [ToRecord(|w.history| + 1, Attempt(c, w.history, o), clock.after)];
      }
  }

  // ----- startCampaign / stopCampaign / postNow -----

  /**
   * `startCampaign(id)`: stops the active campaign when it is another one,
   * then runs `id` from `now` with its first post one random interval away.
   * Returns the new tables and the first due time.
   */
  function Start(w: World, id: int, now: int, draw: Unit): (r: Result<(World, int), SchedulerError>)
    ensures r.Failure? <==> id !in w.campaigns
    ensures r.Failure? ==> r.error == CampaignNotFound
    ensures r.Success? ==> r.value.0.history == w.history && r.value.0.nextCampaignId == w.nextCampaignId
    ensures r.Success? ==>
              var c := w.campaigns[id];
              c.minIntervalMs <= c.maxIntervalMs ==> now + c.minIntervalMs <= r.value.1 <= now + c.maxIntervalMs
  {
    if id !in w.campaigns then Failure(CampaignNotFound)
    else
      var c := w.campaigns[id];
      var next := NextTweetTime(now, c.minIntervalMs, c.maxIntervalMs, draw);
      Success((w.(campaigns := StartRow(StopOther(w, id), id, next, now)), next))
  }

  /** The campaigns table once the active campaign, when it is not `id`, has been stopped. */
  function StopOther(w: World, id: int): Table {
    match Active(w)
    case Some(a) => if a.id != id then StopRow(w.campaigns, a.id) else w.campaigns
    case None => w.campaigns
  }

  /**
   * With at most one campaign running, stopping the other one leaves nothing
   * but `id` running; the displaced runner is stopped with its due time
   * cleared, and every other row is untouched.
   */
  lemma StopOtherFacts(w: World, id: int)
    requires Consistent(w) && AtMostOneRunning(w.campaigns)
    ensures var t := StopOther(w, id);
            && RunningIds(t) <= {id}
            && OnlyRowChanged(w.campaigns, t, if Active(w).Some? then Active(w).value.id else id)
            && (forall k :: k in w.campaigns ==> SameContent(t[k], w.campaigns[k]))
            && (forall k :: k in RunningIds(w.campaigns) && k != id ==>
                  t[k].status == Stopped && t[k].nextTweetAt.None? && t[k].startedAt == w.campaigns[k].startedAt)
            && (forall k :: k in w.campaigns && k !in RunningIds(w.campaigns) ==> t[k] == w.campaigns[k])
  {
    match Active(w)
    case None =>
    case Some(a) =>
      forall k | k in RunningIds(w.campaigns) ensures k == a.id { }
      if a.id != id { StopRunning(w.campaigns, a.id); }
  }

  /** An unknown id fails and changes nothing. */
  lemma StartUnknown(w: World, id: int, now: int, draw: Unit)
    requires id !in w.campaigns
    ensures Start(w, id, now, draw) == Failure(CampaignNotFound)
  {
  }

  /**
   * Starting a known campaign while at most one runs leaves exactly that
   * campaign running, started now, first due within [now + min, now + max].
   */
  lemma {:induction false} StartTakesOver(w: World, id: int, now: int, draw: Unit)
    requires Consistent(w) && AtMostOneRunning(w.campaigns) && id in w.campaigns
    ensures Start(w, id, now, draw).Success?
    ensures var (w', next) := Start(w, id, now, draw).value;
            var c := w.campaigns[id];
            && Consistent(w')
            && RunningIds(w'.campaigns) == {id}
            && w'.campaigns[id].startedAt == Some(now) && w'.campaigns[id].nextTweetAt == Some(next)
            && (c.minIntervalMs <= c.maxIntervalMs ==> now + c.minIntervalMs <= next <= now + c.maxIntervalMs)
  {
    var c := w.campaigns[id];
    var next := NextTweetTime(now, c.minIntervalMs, c.maxIntervalMs, draw);
    var table := StopOther(w, id);
    StopOtherFacts(w, id);
    StartRunning(table, id, next, now);
    assert Start(w, id, now, draw) == Success((w.(campaigns := StartRow(table, id, next, now)), next));
  }

  /**
   * What starting leaves alone: the history, the set of rows and every row's
   * editable columns; the displaced runner is stopped with its due time
   * cleared and its start kept; every other stopped row is untouched.
   */
  lemma {:induction false} StartKeepsOthers(w: World, id: int, now: int, draw: Unit)
    requires Consistent(w) && AtMostOneRunning(w.campaigns) && id in w.campaigns
    ensures Start(w, id, now, draw).Success?
    ensures var w' := Start(w, id, now, draw).value.0;
            && w'.history == w.history && w'.campaigns.Keys == w.campaigns.Keys
            && (forall k :: k in w.campaigns ==> SameContent(w'.campaigns[k], w.campaigns[k]))
            && (forall k :: k in RunningIds(w.campaigns) && k != id ==>
                  && w'.campaigns[k].status == Stopped && w'.campaigns[k].nextTweetAt.None?
                  && w'.campaigns[k].startedAt == w.campaigns[k].startedAt)
            && (forall k :: k in w.campaigns && k != id && k !in RunningIds(w.campaigns) ==>
                  w'.campaigns[k] == w.campaigns[k])
  {
    var c := w.campaigns[id];
    var next := NextTweetTime(now, c.minIntervalMs, c.maxIntervalMs, draw);
    var table := StopOther(w, id);
    StopOtherFacts(w, id);
    var t := StartRow(table, id, next, now);
    assert Start(w, id, now, draw) == Success((w.(campaigns := t), next));
    assert forall k :: k in w.campaigns && k != id ==> t[k] == table[k];
  }

  /** `stopCampaign(id)`: the store after stopping row `id`. */
  function Stop(w: World, id: int): (r: World)
    ensures r.history == w.history && r.nextCampaignId == w.nextCampaignId
    ensures r.campaigns == StopRow(w.campaigns, id)
  {
    w.(campaigns := StopRow(w.campaigns, id))
  }

  /** Stopping keeps the invariants, and stopping twice is stopping once. */
  lemma StopInvariant(w: World, id: int)
    requires Consistent(w)
    ensures Consistent(Stop(w, id))
    ensures RunningIds(Stop(w, id).campaigns) == RunningIds(w.campaigns) - {id}
    ensures AtMostOneRunning(w.campaigns) ==> AtMostOneRunning(Stop(w, id).campaigns)
    ensures Stop(Stop(w, id), id) == Stop(w, id)
  {
    StopRunning(w.campaigns, id);
    StopIdempotent(w.campaigns, id);
  }

  /**
   * `postNow(id)`: one post attempt for any known campaign, whatever its
   * status and due time; the campaigns table is not touched.
   */
  function PostNowResult(w: World, id: int, o: Oracles, at: int): (r: Result<(World, bool), SchedulerError>)
    ensures id !in w.campaigns <==> r == Failure(CampaignNotFound)
    ensures r.Success? ==>
              && r.value.0 == Append(w, Attempt(w.campaigns[id], w.history, o), at)
              && (r.value.1 <==> Attempt(w.campaigns[id], w.history, o).status == Posted)
  {
    if id !in w.campaigns then Failure(CampaignNotFound)
    else
      var t := Attempt(w.campaigns[id], w.history, o);
      Success((Append(w, t, at), t.status == Posted))
  }

  /** A post-now on a stopped campaign still appends one history entry. */
  lemma PostNowIgnoresStatus(w: World, id: int, o: Oracles, at: int)
    requires id in w.campaigns && w.campaigns[id].status == Stopped
    ensures PostNowResult(w, id, o, at).Success?
    ensures |PostNowResult(w, id, o, at).value.0.history| == |w.history| + 1
    ensures PostNowResult(w, id, o, at).value.0.campaigns == w.campaigns
  {
  }

  /**
   * Starting a campaign at `t0` and ticking before its shortest interval has
   * passed posts nothing: the first post is at least `min` after the start.
   */
  lemma {:induction false} NoPostBeforeFirstInterval(w: World, id: int, t0: int, draw: Unit, clock: Clock, o: Oracles)
    requires Consistent(w) && AtMostOneRunning(w.campaigns) && id in w.campaigns
    requires w.campaigns[id].minIntervalMs <= w.campaigns[id].maxIntervalMs
    requires t0 <= clock.now < t0 + w.campaigns[id].minIntervalMs
    requires clock.now <= t0 + w.campaigns[id].durationDays * DayMs
    ensures var w1 := Start(w, id, t0, draw).value.0;
            Tick(w1, clock, o) == (w1, NotDue(id))
  {
    StartTakesOver(w, id, t0, draw);
    var w1 := Start(w, id, t0, draw).value.0;
    ActiveIsTheRunningOne(w1, id);
  }

  // ----- getStatus -----

  /** The active campaign as `getStatus` reports it. */
  datatype ActiveReport = ActiveReport(
    id: int, subject: string, status: Status,
    startedAt: Option<int>, nextTweetAt: Option<int>, expiresAt: Option<int>)

  datatype StatusReport = StatusReport(isSchedulerRunning: bool, activeCampaign: Option<ActiveReport>)

  /** `getStatus`: whether the timer is installed and, when a campaign runs, its times. */
  function Report(installed: bool, w: World): (r: StatusReport)
    ensures r.isSchedulerRunning == installed
    ensures Consistent(w) ==> (r.activeCampaign.None? <==> RunningIds(w.campaigns) == {})
    ensures r.activeCampaign.Some? ==>
              (r.activeCampaign.value.expiresAt.Some? <==> r.activeCampaign.value.startedAt.Some?)
    ensures Consistent(w) && r.activeCampaign.Some? ==>
              var a := r.activeCampaign.value;
              && a.id in RunningIds(w.campaigns)
              && a.nextTweetAt == w.campaigns[a.id].nextTweetAt
              && a.startedAt == w.campaigns[a.id].startedAt
              && a.subject == w.campaigns[a.id].subject && a.status == Running
              && (a.startedAt.Some? ==> a.expiresAt.value == a.startedAt.value + w.campaigns[a.id].durationDays * DayMs)
  {
    match Active(w)
    case None => StatusReport(installed, None)
    case Some(c) =>
      var expires := if c.startedAt.Some? then Some(ExpiresAt(c)) else None;
      StatusReport(installed, Some(ActiveReport(c.id, c.subject, c.status, c.startedAt, c.nextTweetAt, expires)))
  }

  /**
   * The body of `postTweet` up to the history write: generate, select the
   * hashtags, build the message (cut to 280 characters), publish.
   */
  method AttemptPost(campaign: Campaign, ghost history: seq<TweetRecord>, recent: seq<string>, o: Oracles)
    returns (t: NewTweet)
    requires recent == RecentTweetTexts(history, campaign.id)
    ensures t == Attempt(campaign, history, o)
  {
    match Gemini.GenerateTweet(o.model, campaign.subject, campaign.extraInfo, recent) {
    case Failure(e) =>
      t := NewTweet(campaign.id, FailedText, [], None, Failed, Some(e));
    case Success(content) =>
      var selected := SelectRandomHashtags(campaign.hashtags, HashtagsPerPost, o.picks);
      var hashtagString := HashtagString(selected);
      var fullTweet := content + " " + hashtagString;
      if |fullTweet| > TweetLimit {
        var maxContentLength := TweetLimit - |hashtagString| - 4;
        fullTweet := content[..Max0(maxContentLength)] + "... " + hashtagString;
      }
      assert fullTweet == Message(content, selected);
      match o.publish(fullTweet) {
      case Failure(e) =>
        t := NewTweet(campaign.id, FailedText, [], None, Failed, Some(e));
      case Success(tweetId) =>
        t := NewTweet(campaign.id, fullTweet, selected, Some(tweetId), Posted, None);
      }
    }
  }

  // ----- the imperative scheduler -----

  /**
   * The scheduler module's state: the database it drives, whether the
   * minute timer is installed (`schedulerTask`) and the `isRunning` guard.
   */
  class Scheduler {
    const db: Database
    var installed: bool
    var isRunning: bool

    /** The store invariant, and at most one running campaign. */
    ghost predicate Valid()
      reads this, db
    {
      db.Valid() && AtMostOneRunning(db.campaigns)
    }

    constructor (db: Database)
      requires db.Valid() && AtMostOneRunning(db.campaigns)
      ensures this.db == db && Valid() && !installed && !isRunning
    {
      this.db := db;
      installed := false;
      isRunning := false;
    }

    /** `initializeScheduler`: installs the timer once; a second call does nothing. */
    method Initialize()
      modifies this
      ensures installed && isRunning == old(isRunning)
    {
      if installed {
        return;
      }
      installed := true;
    }

    /** `postTweet`: one attempt, recorded as exactly one history entry; never fails. */
    method PostTweet(campaign: Campaign, o: Oracles, at: int) returns (ok: bool)
      requires Valid()
      modifies db
      ensures Valid()
      ensures db.State() == Append(old(db.State()), Attempt(campaign, old(db.history), o), at)
      ensures ok <==> Attempt(campaign, old(db.history), o).status == Posted
      ensures db.credentials == old(db.credentials)
    {
      var recent := RecentTexts(campaign.id);
      var t := AttemptPost(campaign, db.history, recent, o);
      var _ := db.AddTweetHistory(t, at);
      ok := t.status == Posted;
    }

    /** `getRecentTweetTexts(campaignId)`: the posted texts among the campaign's 10 newest records. */
    method RecentTexts(campaignId: int) returns (recent: seq<string>)
      requires Valid()
      ensures recent == RecentTweetTexts(db.history, campaignId)
    {
      var history := db.TweetHistoryByCampaign(campaignId, RecentWindow);
      recent := PostedTexts(history);
    }

    /** `checkScheduledTweets`: one tick against the database. */
    method CheckScheduledTweets(clock: Clock, o: Oracles) returns (outcome: TickOutcome)
      requires Valid()
      modifies db
      ensures Valid()
      ensures (db.State(), outcome) == Tick(old(db.State()), clock, o)
      ensures db.credentials == old(db.credentials)
    {
      ghost var w := db.State();
      TickInvariant(w, clock, o);
      var campaign := db.GetActiveCampaign();
      if campaign.None? {
        return NoActiveCampaign;
      }
      var c := campaign.value;
      var expiresAt := c.startedAt.GetOr(0) + c.durationDays * DayMs;
      if clock.now > expiresAt {
        db.StopCampaign(c.id);
        return Expired(c.id);
      }
      if c.nextTweetAt.Some? {
        if clock.now >= c.nextTweetAt.value {
          var ok := PostTweet(c, o, clock.after);
          var nextTime := NextTweetTime(clock.after, c.minIntervalMs, c.maxIntervalMs, o.draw);
          db.UpdateNextTweetTime(c.id, nextTime);
          return Attempted(c.id, ok);
        }
      }
      outcome := NotDue(c.id);
    }

    /**
     * The timer callback: skipped while a previous check is still running,
     * otherwise one check with the guard held and released around it.
     */
    method TimerFired(clock: Clock, o: Oracles) returns (outcome: TickOutcome)
      requires Valid() && installed
      modifies this, db
      ensures Valid() && isRunning == old(isRunning) && installed
      ensures old(isRunning) ==> outcome == Skipped && db.State() == old(db.State())
      ensures !old(isRunning) ==> (db.State(), outcome) == Tick(old(db.State()), clock, o)
      ensures db.credentials == old(db.credentials)
    {
      if isRunning {
        return Skipped;
      }
      isRunning := true;
      outcome := CheckScheduledTweets(clock, o);
      isRunning := false;
    }

    /** `startCampaign(id)`. */
    method StartCampaign(id: int, now: int, draw: Unit) returns (r: Result<int, SchedulerError>)
      requires Valid()
      modifies db
      ensures Valid()
      ensures match Start(old(db.State()), id, now, draw)
              case Failure(e) => r == Failure(e) && db.State() == old(db.State())
              case Success((w', next)) => r == Success(next) && db.State() == w'
      ensures db.credentials == old(db.credentials)
    {
      if id in db.campaigns {
        StartTakesOver(db.State(), id, now, draw);
      }
      var campaign := db.GetCampaign(id);
      if campaign.None? {
        return Failure(CampaignNotFound);
      }
      var c := campaign.value;
      var active := db.GetActiveCampaign();
      if active.Some? && active.value.id != id {
        db.StopCampaign(active.value.id);
      }
      var nextTweetTime := NextTweetTime(now, c.minIntervalMs, c.maxIntervalMs, draw);
      db.StartCampaign(id, nextTweetTime, now);
      r := Success(nextTweetTime);
    }

    /** `stopCampaign(id)`: always succeeds. */
    method StopCampaign(id: int)
      requires Valid()
      modifies db
      ensures Valid()
      ensures db.State() == Stop(old(db.State()), id)
      ensures db.credentials == old(db.credentials)
    {
      StopInvariant(db.State(), id);
      db.StopCampaign(id);
    }

    /** `postNow(id)`: no status check, no due-time check and no `isRunning` guard. */
    method PostNow(id: int, o: Oracles, at: int) returns (r: Result<bool, SchedulerError>)
      requires Valid()
      modifies db
      ensures Valid()
      ensures match PostNowResult(old(db.State()), id, o, at)
              case Failure(e) => r == Failure(e) && db.State() == old(db.State())
              case Success((w', ok)) => r == Success(ok) && db.State() == w'
      ensures db.credentials == old(db.credentials)
    {
      var campaign := db.GetCampaign(id);
      if campaign.None? {
        return Failure(CampaignNotFound);
      }
      var ok := PostTweet(campaign.value, o, at);
      r := Success(ok);
    }

    /** `getStatus`. */
    function GetStatus(): (r: StatusReport)
      reads this, db
      ensures r == Report(installed, db.State())
    {
      Report(installed, db.State())
    }
  }
}
