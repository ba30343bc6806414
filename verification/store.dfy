/**
 * The persistent store of server/database.js: the campaigns table, the
 * append-only tweet history and the single credentials row, kept in memory as
 * a map from campaign id to row and a sequence of history records.
 *
 * Each UPDATE statement is a pure function on the campaigns map whose
 * contract says which row and which columns it touches; the `Database` class
 * applies them in place, as the module-level `db` handle of the source does.
 * Times are integer milliseconds.
 */
module Store {
  import opened Wrappers

  /** Status of a campaign row. */
  datatype Status = Stopped | Running

  /** A row of the campaigns table; the intervals are in milliseconds. */
  datatype Campaign = Campaign(
    id: int,
    subject: string,
    extraInfo: string,
    hashtags: seq<string>,
    minIntervalMs: int,
    maxIntervalMs: int,
    durationDays: int,
    status: Status,
    startedAt: Option<int>,
    nextTweetAt: Option<int>)

  /** The columns written by `createCampaign` and `updateCampaign`. */
  datatype CampaignSpec = CampaignSpec(
    subject: string,
    extraInfo: Option<string>,
    hashtags: seq<string>,
    minIntervalMs: int,
    maxIntervalMs: int,
    durationDays: int)

  /** Outcome stored with each post attempt. */
  datatype PostStatus = Posted | Failed

  /** A row of the tweet history table. */
  datatype TweetRecord = TweetRecord(
    id: int,
    campaignId: int,
    tweetText: string,
    hashtagsUsed: seq<string>,
    twitterTweetId: Option<string>,
    status: PostStatus,
    errorMessage: Option<string>,
    postedAt: int)

  /** What a caller hands to `addTweetHistory`. */
  datatype NewTweet = NewTweet(
    campaignId: int,
    tweetText: string,
    hashtagsUsed: seq<string>,
    twitterTweetId: Option<string>,
    status: PostStatus,
    errorMessage: Option<string>)

  /** The decrypted credentials row; an unset column is `None`. */
  datatype Credentials = Credentials(
    twitterApiKey: Option<string>,
    twitterApiSecret: Option<string>,
    twitterAccessToken: Option<string>,
    twitterAccessSecret: Option<string>,
    geminiApiKey: Option<string>)

  /** The credentials row as the database creates it: every column NULL. */
  const NoCredentials := Credentials(None, None, None, None, None)

  /** JavaScript truthiness of an optional string: present and non-empty. */
  predicate Truthy(s: Option<string>) {
    s.Some? && s.value != ""
  }

  /** `x || null` on an optional string. */
  function OrNull(s: Option<string>): (r: Option<string>)
    ensures r.Some? <==> Truthy(s)
    ensures r.Some? ==> r == s
  {
    if Truthy(s) then s else None
  }

  /** `hasCredentials`: the Twitter API key and the Gemini API key are both set. */
  predicate HasCredentials(c: Credentials) {
    Truthy(c.twitterApiKey) && Truthy(c.geminiApiKey)
  }

  // ----- the campaigns table -----

  type Table = map<int, Campaign>

  /** `a` was started no later than `b`, ordering NULL before every time as SQL does. */
  predicate StartedNoLater(a: Option<int>, b: Option<int>) {
    a.None? || (b.Some? && a.value <= b.value)
  }

  /** Rows `a` and `b` have the same id and the same editable columns. */
  predicate SameContent(a: Campaign, b: Campaign) {
    && a.id == b.id && a.subject == b.subject && a.extraInfo == b.extraInfo
    && a.hashtags == b.hashtags && a.minIntervalMs == b.minIntervalMs
    && a.maxIntervalMs == b.maxIntervalMs && a.durationDays == b.durationDays
  }

  /** Rows `a` and `b` have the same id and the same lifecycle columns. */
  predicate SameLifecycle(a: Campaign, b: Campaign) {
    a.id == b.id && a.status == b.status && a.startedAt == b.startedAt && a.nextTweetAt == b.nextTweetAt
  }

  /** The editable columns of `c` hold what `spec` asks for (`extraInfo || ''`). */
  predicate Carries(c: Campaign, spec: CampaignSpec) {
    && c.subject == spec.subject && c.extraInfo == spec.extraInfo.GetOr("")
    && c.hashtags == spec.hashtags && c.minIntervalMs == spec.minIntervalMs
    && c.maxIntervalMs == spec.maxIntervalMs && c.durationDays == spec.durationDays
  }

  /** `r` has the same keys as `m` and differs from it at most in row `id`. */
  predicate OnlyRowChanged(m: Table, r: Table, id: int) {
    r.Keys == m.Keys && forall k :: k in m && k != id ==> r[k] == m[k]
  }

  /** The ids of the rows whose status is `running`. */
  function RunningIds(m: Table): set<int> {
    set k | k in m && m[k].status == Running
  }

  /** The single-running-campaign invariant. */
  predicate AtMostOneRunning(m: Table) {
    forall a, b :: a in RunningIds(m) && b in RunningIds(m) ==> a == b
  }

  /** The row INSERTed by `createCampaign`. */
  function NewRow(id: int, spec: CampaignSpec): (c: Campaign)
    ensures c.id == id && Carries(c, spec)
    ensures c.status == Stopped && c.startedAt.None? && c.nextTweetAt.None?
  {
    Campaign(id, spec.subject, spec.extraInfo.GetOr(""), spec.hashtags,
             spec.minIntervalMs, spec.maxIntervalMs, spec.durationDays, Stopped, None, None)
  }

  /** The UPDATE of `updateCampaign`: the editable columns of row `id`, nothing else. */
  function EditRow(m: Table, id: int, spec: CampaignSpec): (r: Table)
    ensures OnlyRowChanged(m, r, id)
    ensures id in m ==> Carries(r[id], spec) && SameLifecycle(r[id], m[id])
    ensures id !in m ==> r == m
  {
    if id in m then
      m[id := m[id].(subject := spec.subject, extraInfo := spec.extraInfo.GetOr(""),
                     hashtags := spec.hashtags, minIntervalMs := spec.minIntervalMs,
                     maxIntervalMs := spec.maxIntervalMs, durationDays := spec.durationDays)]
    else m
  }

  /** The UPDATE of `startCampaign`: row `id` becomes running, started now, due at `next`. */
  function StartRow(m: Table, id: int, next: int, now: int): (r: Table)
    ensures OnlyRowChanged(m, r, id)
    ensures id in m ==> SameContent(r[id], m[id])
    ensures id in m ==> r[id].status == Running && r[id].startedAt == Some(now) && r[id].nextTweetAt == Some(next)
    ensures id !in m ==> r == m
  {
    if id in m then m[id := m[id].(status := Running, startedAt := Some(now), nextTweetAt := Some(next))]
    else m
  }

  /** The UPDATE of `stopCampaign`: row `id` becomes stopped with no due time; startedAt is kept. */
  function StopRow(m: Table, id: int): (r: Table)
    ensures OnlyRowChanged(m, r, id)
    ensures id in m ==> SameContent(r[id], m[id]) && r[id].startedAt == m[id].startedAt
    ensures id in m ==> r[id].status == Stopped && r[id].nextTweetAt.None?
    ensures id !in m ==> r == m
  {
    if id in m then m[id := m[id].(status := Stopped, nextTweetAt := None)] else m
  }

  /** The UPDATE of `updateNextTweetTime`: only the due time of row `id`. */
  function SetNextRow(m: Table, id: int, next: int): (r: Table)
    ensures OnlyRowChanged(m, r, id)
    ensures id in m ==> SameContent(r[id], m[id]) && r[id].status == m[id].status
    ensures id in m ==> r[id].startedAt == m[id].startedAt && r[id].nextTweetAt == Some(next)
    ensures id !in m ==> r == m
  {
    if id in m then m[id := m[id].(nextTweetAt := Some(next))] else m
  }

  /** Stopping is idempotent. */
  lemma StopIdempotent(m: Table, id: int)
    ensures StopRow(StopRow(m, id), id) == StopRow(m, id)
  {
  }

  /** Stopping a row never adds a running row. */
  lemma StopRunning(m: Table, id: int)
    ensures RunningIds(StopRow(m, id)) == RunningIds(m) - {id}
  {
    var r := StopRow(m, id);
    forall k ensures k in RunningIds(r) <==> k in RunningIds(m) - {id} {
      if k in m && k != id { assert r[k] == m[k]; }
    }
  }

  /** Starting row `id` makes it running and leaves every other row's status alone. */
  lemma StartRunning(m: Table, id: int, next: int, now: int)
    requires id in m
    ensures RunningIds(StartRow(m, id, next, now)) == RunningIds(m) + {id}
  {
    var r := StartRow(m, id, next, now);
    forall k ensures k in RunningIds(r) <==> k in RunningIds(m) + {id} {
      if k in m && k != id { assert r[k] == m[k]; }
    }
  }

  /** Inserting a new row never adds a running row: a new campaign is stopped. */
  lemma NewRowNotRunning(m: Table, id: int, spec: CampaignSpec)
    requires id !in m
    ensures RunningIds(m[id := NewRow(id, spec)]) == RunningIds(m)
  {
    var r := m[id := NewRow(id, spec)];
    forall k ensures k in RunningIds(r) <==> k in RunningIds(m) {
      if k in m { assert r[k] == m[k]; }
    }
  }

  /** Editing a row leaves every row's status alone. */
  lemma EditKeepsRunning(m: Table, id: int, spec: CampaignSpec)
    ensures RunningIds(EditRow(m, id, spec)) == RunningIds(m)
  {
    var r := EditRow(m, id, spec);
    forall k ensures k in RunningIds(r) <==> k in RunningIds(m) {
      if k in m && k != id { assert r[k] == m[k]; }
    }
  }

  /**
   * `getActiveCampaign` scans the rows with ids 1..n and picks a running row
   * with the greatest startedAt (ORDER BY started_at DESC LIMIT 1); of rows
   * started at the same time the lowest id is kept.
   */
  function LatestRunning(m: Table, n: int): (r: Option<int>)
    decreases n
    ensures r.None? <==> forall k :: 1 <= k <= n && k in m ==> m[k].status != Running
    ensures r.Some? ==> 1 <= r.value <= n && r.value in m && m[r.value].status == Running
    ensures r.Some? ==> forall k :: 1 <= k <= n && k in m && m[k].status == Running ==>
                          StartedNoLater(m[k].startedAt, m[r.value].startedAt)
  {
    if n < 1 then None
    else
      var prev := LatestRunning(m, n - 1);
      if n in m && m[n].status == Running
         && (prev.None? || !StartedNoLater(m[n].startedAt, m[prev.value].startedAt))
      then Some(n)
      else prev
  }

  /** When the scan covers every key, it finds nothing exactly when no row runs. */
  lemma NoneWhenNoneRunning(m: Table, n: int)
    ensures (forall k :: k in m ==> 1 <= k <= n) ==>
              (LatestRunning(m, n).None? <==> RunningIds(m) == {})
  {
    if (forall k :: k in m ==> 1 <= k <= n) && LatestRunning(m, n).Some? {
      assert LatestRunning(m, n).value in RunningIds(m);
    }
  }

  /** The store's tables as one value: the campaigns, the next AUTOINCREMENT id, the history. */
  datatype World = World(campaigns: Table, nextCampaignId: int, history: seq<TweetRecord>)

  /** Campaign ids are 1..nextCampaignId-1, each row knows its id, history ids are 1, 2, ... */
  ghost predicate Consistent(w: World) {
    && w.nextCampaignId >= 1
    && (forall id :: id in w.campaigns <==> 1 <= id < w.nextCampaignId)
    && (forall id :: id in w.campaigns ==> w.campaigns[id].id == id)
    && (forall i :: 0 <= i < |w.history| ==> w.history[i].id == i + 1)
  }

  /** `getActiveCampaign` over a consistent store: a running row with the latest start, or none. */
  function Active(w: World): (r: Option<Campaign>)
    ensures Consistent(w) ==> (r.None? <==> RunningIds(w.campaigns) == {})
    ensures Consistent(w) && r.Some? ==>
              r.value.id in RunningIds(w.campaigns) && w.campaigns[r.value.id] == r.value
    ensures Consistent(w) && r.Some? ==>
              forall k :: k in RunningIds(w.campaigns) ==>
                StartedNoLater(w.campaigns[k].startedAt, r.value.startedAt)
  {
    NoneWhenNoneRunning(w.campaigns, w.nextCampaignId - 1);
    match LatestRunning(w.campaigns, w.nextCampaignId - 1)
    case None => None
    case Some(id) => Some(w.campaigns[id])
  }

  /** With at most one running row, the active campaign is that row. */
  lemma ActiveIsTheRunningOne(w: World, id: int)
    requires Consistent(w) && RunningIds(w.campaigns) == {id}
    ensures Active(w) == Some(w.campaigns[id])
  {
  }

  // ----- the tweet history -----

  /** Whether a history record passes the `WHERE campaign_id = ?` filter, if any. */
  predicate Matches(t: TweetRecord, campaign: Option<int>) {
    campaign.None? || t.campaignId == campaign.value
  }

  /** The records of `h` that pass the filter, newest (last appended) first. */
  function NewestFirst(h: seq<TweetRecord>, campaign: Option<int>): (r: seq<TweetRecord>)
    ensures |r| <= |h|
    ensures forall x :: x in r ==> x in h && Matches(x, campaign)
    ensures forall x :: x in h && Matches(x, campaign) ==> x in r
  {
    if h == [] then []
    else NewestFirst(h[1..], campaign) + (if Matches(h[0], campaign) then [h[0]] else [])
  }

  /** SQL `LIMIT n`: a negative limit means no limit. */
  function Limit<T>(s: seq<T>, n: int): (r: seq<T>)
    ensures n >= 0 ==> |r| <= n
    ensures r <= s
    ensures (n < 0 || |s| <= n) ==> r == s
  {
    if n < 0 || |s| <= n then s else s[..n]
  }

  /** History ids increase along the sequence (AUTOINCREMENT, no deletes). */
  predicate IdsIncreasing(h: seq<TweetRecord>) {
    forall i, j :: 0 <= i < j < |h| ==> h[i].id < h[j].id
  }

  /** Ids decrease along the sequence: newest first. */
  predicate IdsDecreasing(r: seq<TweetRecord>) {
    forall i, j :: 0 <= i < j < |r| ==> r[i].id > r[j].id
  }

  /** Over a history with increasing ids, `NewestFirst` lists strictly decreasing ids. */
  lemma {:induction false} NewestFirstDescending(h: seq<TweetRecord>, campaign: Option<int>)
    requires IdsIncreasing(h)
    ensures IdsDecreasing(NewestFirst(h, campaign))
  {
    if h != [] {
      assert IdsIncreasing(h[1..]) by {
        forall i, j | 0 <= i < j < |h| - 1 ensures h[1..][i].id < h[1..][j].id {
          assert h[1..][i] == h[i + 1] && h[1..][j] == h[j + 1];
        }
      }
      NewestFirstDescending(h[1..], campaign);
      var rest := NewestFirst(h[1..], campaign);
      forall x | x in rest ensures x.id > h[0].id {
        var k :| 0 <= k < |h[1..]| && h[1..][k] == x;
        assert h[k + 1] == x;
      }
      var r := NewestFirst(h, campaign);
      assert r == rest + (if Matches(h[0], campaign) then [h[0]] else []);
      forall i, j | 0 <= i < j < |r| ensures r[i].id > r[j].id {
        if j < |rest| {
          assert r[i] == rest[i] && r[j] == rest[j];
          assert rest[i].id > rest[j].id;
        } else {
          assert r[i] == rest[i] && rest[i] in rest && r[j] == h[0];
          assert rest[i].id > h[0].id;
        }
      }
    }
  }

  /** A limited newest-first listing of a history with increasing ids has decreasing ids. */
  lemma LimitedNewestFirstDescending(h: seq<TweetRecord>, campaign: Option<int>, n: int)
    requires forall i :: 0 <= i < |h| ==> h[i].id == i + 1
    ensures IdsDecreasing(Limit(NewestFirst(h, campaign), n))
  {
    NewestFirstDescending(h, campaign);
  }

  /** A record appended to the history comes first in the newest-first listing when it matches. */
  lemma {:induction false} NewestFirstAppend(h: seq<TweetRecord>, x: TweetRecord, campaign: Option<int>)
    ensures NewestFirst(h + [x], campaign) == (if Matches(x, campaign) then [x] else []) + NewestFirst(h, campaign)
  {
    if h == [] {
      assert [x][1..] == [];
    } else {
      assert (h + [x])[0] == h[0];
      assert (h + [x])[1..] == h[1..] + [x];
      NewestFirstAppend(h[1..], x, campaign);
    }
  }

  /** The records selected from a suffix of the history are a prefix of those selected from all of it. */
  lemma {:induction false} NewestFirstSuffix(h: seq<TweetRecord>, i: nat, campaign: Option<int>)
    requires i <= |h|
    ensures NewestFirst(h[i..], campaign) <= NewestFirst(h, campaign)
  {
    if i > 0 {
      NewestFirstSuffix(h, i - 1, campaign);
      assert h[i - 1..][1..] == h[i..];
    } else {
      assert h[0..] == h;
    }
  }

  /** The record `addTweetHistory` inserts: falsy ids and messages become NULL. */
  function ToRecord(id: int, t: NewTweet, now: int): (r: TweetRecord)
    ensures r.id == id && r.campaignId == t.campaignId && r.tweetText == t.tweetText
    ensures r.hashtagsUsed == t.hashtagsUsed && r.status == t.status && r.postedAt == now
    ensures r.twitterTweetId == OrNull(t.twitterTweetId) && r.errorMessage == OrNull(t.errorMessage)
  {
    TweetRecord(id, t.campaignId, t.tweetText, t.hashtagsUsed, OrNull(t.twitterTweetId),
                t.status, OrNull(t.errorMessage), now)
  }

  /** The database handle: every mutator changes it in place. */
  class Database {
    var campaigns: Table
    var nextCampaignId: int
    var history: seq<TweetRecord>
    var credentials: Credentials

    /** The tables as one value. */
    function State(): World
      reads this
    {
      World(campaigns, nextCampaignId, history)
    }

    ghost predicate Valid()
      reads this
    {
      Consistent(State())
    }

    /** A database created from scratch: empty tables and an all-NULL credentials row. */
    constructor ()
      ensures Valid()
      ensures campaigns == map[] && history == [] && credentials == NoCredentials
    {
      campaigns := map[];
      nextCampaignId := 1;
      history := [];
      credentials := NoCredentials;
    }

    /** `createCampaign`: inserts a stopped row under a fresh id and returns that id. */
    method CreateCampaign(spec: CampaignSpec) returns (id: int)
      requires Valid()
      modifies this
      ensures Valid()
      ensures id == old(nextCampaignId) && id !in old(campaigns)
      ensures campaigns == old(campaigns)[id := NewRow(id, spec)]
      ensures history == old(history) && credentials == old(credentials)
      ensures RunningIds(campaigns) == RunningIds(old(campaigns))
    {
      id := nextCampaignId;
      NewRowNotRunning(campaigns, id, spec);
      campaigns := campaigns[id := NewRow(id, spec)];
      nextCampaignId := nextCampaignId + 1;
    }

    /** `updateCampaign`: rewrites the editable columns of row `id`. */
    method UpdateCampaign(id: int, spec: CampaignSpec)
      requires Valid()
      modifies this
      ensures Valid()
      ensures campaigns == EditRow(old(campaigns), id, spec)
      ensures unchanged(this`nextCampaignId, this`history, this`credentials)
      ensures RunningIds(campaigns) == RunningIds(old(campaigns))
    {
      EditKeepsRunning(campaigns, id, spec);
      campaigns := EditRow(campaigns, id, spec);
    }

    /** `getCampaign`: the row stored under `id`, or none. */
    function GetCampaign(id: int): (r: Option<Campaign>)
      reads this
      ensures r.Some? <==> id in campaigns
      ensures r.Some? ==> r.value == campaigns[id]
    {
      if id in campaigns then Some(campaigns[id]) else None
    }

    /** `getActiveCampaign`: a running row with the latest start, or none when no row runs. */
    function GetActiveCampaign(): (r: Option<Campaign>)
      reads this
      ensures r == Active(State())
    {
      Active(State())
    }

    /** `startCampaign(id, next)`: row `id` runs from `now`, first due at `next`. */
    method StartCampaign(id: int, next: int, now: int)
      requires Valid()
      modifies this
      ensures Valid()
      ensures campaigns == StartRow(old(campaigns), id, next, now)
      ensures unchanged(this`nextCampaignId, this`history, this`credentials)
    {
      campaigns := StartRow(campaigns, id, next, now);
    }

    /** `stopCampaign(id)`: row `id` is stopped and has no due time. */
    method StopCampaign(id: int)
      requires Valid()
      modifies this
      ensures Valid()
      ensures campaigns == StopRow(old(campaigns), id)
      ensures unchanged(this`nextCampaignId, this`history, this`credentials)
    {
      campaigns := StopRow(campaigns, id);
    }

    /** `updateNextTweetTime(id, next)`: only the due time of row `id` changes. */
    method UpdateNextTweetTime(id: int, next: int)
      requires Valid()
      modifies this
      ensures Valid()
      ensures campaigns == SetNextRow(old(campaigns), id, next)
      ensures unchanged(this`nextCampaignId, this`history, this`credentials)
    {
      campaigns := SetNextRow(campaigns, id, next);
    }

    /** `addTweetHistory`: appends one record under the next id and returns that id. */
    method AddTweetHistory(t: NewTweet, now: int) returns (id: int)
      requires Valid()
      modifies this
      ensures Valid()
      ensures id == |old(history)| + 1
      ensures history == old(history) + [ToRecord(id, t, now)]
      ensures unchanged(this`campaigns, this`nextCampaignId, this`credentials)
    {
      id := |history| + 1;
      history := history + [ToRecord(id, t, now)];
    }

    /**
     * The history query behind `getTweetHistory` and `getTweetHistoryByCampaign`:
     * the matching records, newest first, at most `limit` of them, collected
     * row by row as `getAll` pushes them.
     */
    method QueryHistory(campaign: Option<int>, limit: int) returns (rows: seq<TweetRecord>)
      ensures rows == Limit(NewestFirst(history, campaign), limit)
    {
      rows := [];
      var i := |history|;
      while i > 0 && (limit < 0 || |rows| < limit)
        invariant 0 <= i <= |history|
        invariant rows == NewestFirst(history[i..], campaign)
        invariant limit >= 0 ==> |rows| <= limit
      {
        i := i - 1;
        assert history[i..][1..] == history[i + 1..];
        if Matches(history[i], campaign) {
          rows := rows + [history[i]];
        }
      }
      NewestFirstSuffix(history, i, campaign);
      if i == 0 {
        assert history[0..] == history;
      }
    }

    /** `getTweetHistory(limit)`: all records, newest first, at most `limit`. */
    method TweetHistory(limit: int) returns (rows: seq<TweetRecord>)
      ensures rows == Limit(NewestFirst(history, None), limit)
      ensures Valid() ==> IdsDecreasing(rows)
    {
      rows := QueryHistory(None, limit);
      if Valid() {
        LimitedNewestFirstDescending(history, None, limit);
      }
    }

    /** `getTweetHistoryByCampaign(c, limit)`: the records of campaign `c`, newest first, at most `limit`. */
    method TweetHistoryByCampaign(c: int, limit: int) returns (rows: seq<TweetRecord>)
      ensures rows == Limit(NewestFirst(history, Some(c)), limit)
      ensures limit >= 0 ==> |rows| <= limit
      ensures forall x :: x in rows ==> x in history && x.campaignId == c
      ensures Valid() ==> IdsDecreasing(rows)
    {
      rows := QueryHistory(Some(c), limit);
      if Valid() {
        LimitedNewestFirstDescending(history, Some(c), limit);
      }
      forall x | x in rows ensures x in history && x.campaignId == c {
        var k :| 0 <= k < |rows| && rows[k] == x;
        assert x in NewestFirst(history, Some(c));
      }
    }

    /** `hasCredentials` on the stored row. */
    function CredentialsPresent(): (r: bool)
      reads this
      ensures r <==> Truthy(credentials.twitterApiKey) && Truthy(credentials.geminiApiKey)
    {
      HasCredentials(credentials)
    }
  }
}
