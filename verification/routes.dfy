/**
 * The campaign endpoints of server/routes/campaigns.js: the validation chain
 * of create and update, hashtag cleaning, the refusal to edit a running
 * campaign and the credentials gate in front of start and post-now.
 *
 * A request body is a record of optional fields: `None` is a field that is
 * missing or `null`. Interval fields are already in milliseconds (hours
 * times 3600000). A handler answers with the value it sends as JSON or with
 * an HTTP error.
 */
module Routes {
  import opened Wrappers
  import opened Text
  import opened Store
  import Compose
  import Scheduler

  /** The body of a create or update request. */
  datatype CampaignRequest = CampaignRequest(
    subject: Option<string>,
    extraInfo: Option<string>,
    hashtags: Option<seq<string>>,
    minIntervalMs: Option<int>,
    maxIntervalMs: Option<int>,
    durationDays: Option<int>)

  /** An error answer: 400, 404 or 500 with its message. */
  datatype HttpError =
    | BadRequest(message: string)
    | NotFound(message: string)
    | ServerError(message: string)
  {
    function Code(): int {
      match this
      case BadRequest(_) => 400
      case NotFound(_) => 404
      case ServerError(_) => 500
    }
  }

  const SubjectRequired := "Subject is required"
  const HashtagRequired := "At least one hashtag is required"
  const TooManyHashtags := "Maximum 5 hashtags allowed"
  const MinIntervalTooShort := "Minimum interval must be at least 0.5 hours"
  const MaxBelowMin := "Maximum interval must be greater than minimum"
  const DurationTooShort := "Duration must be at least 1 day"
  const CampaignNotFound := "Campaign not found"
  const CannotEditRunning := "Cannot edit a running campaign. Stop it first."
  const CredentialsMissing := "Please set up your Twitter and Gemini API credentials first"
  const PostedMessage := "Tweet posted successfully!"
  const NotPostedMessage := "Failed to post tweet"

  /** Hashtags a campaign may carry. */
  const MaxHashtags := 5
  /** Half an hour, the shortest interval create accepts. */
  const MinIntervalMs := 1800000

  // ----- hashtag cleaning -----

  /** `replace(/^#/, '')`: one leading `#` removed. */
  function StripHash(h: string): (r: string)
    ensures h == r || h == "#" + r
    ensures r == h <==> !StartsWith(h, "#")
  {
    if StartsWith(h, "#") then h[1..] else h
  }

  /** One tag as stored: `#` stripped first, then white space trimmed. */
  function CleanTag(h: string): (r: string)
    ensures StartsWith(h, "#") ==> r == Trim(h[1..])
    ensures !StartsWith(h, "#") ==> r == Trim(h)
    ensures |r| <= |h|
    ensures Trimmed(r)
  {
    Trim(StripHash(h))
  }

  /** `hashtags.map(CleanTag)`. */
  function CleanEach(hs: seq<string>): (r: seq<string>)
    ensures |r| == |hs|
    ensures forall i :: 0 <= i < |hs| ==> r[i] == CleanTag(hs[i])
  {
    seq(|hs|, i requires 0 <= i < |hs| => CleanTag(hs[i]))
  }

  /** `filter(h => h)`: the non-empty strings, in their order. */
  function NonEmpty(xs: seq<string>): (r: seq<string>)
    ensures |r| <= |xs|
    ensures forall i :: 0 <= i < |r| ==> r[i] != []
    ensures (forall j :: 0 <= j < |xs| ==> Trimmed(xs[j])) ==> forall i :: 0 <= i < |r| ==> Trimmed(r[i])
  {
    if xs == [] then []
    else (if xs[0] != [] then [xs[0]] else []) + NonEmpty(xs[1..])
  }

  /** Every non-empty string survives the filter. */
  lemma {:induction false} NonEmptyKeeps(xs: seq<string>, i: int)
    requires 0 <= i < |xs| && xs[i] != []
    ensures xs[i] in NonEmpty(xs)
  {
    var x := if xs[0] != [] then [xs[0]] else [];
    assert NonEmpty(xs) == x + NonEmpty(xs[1..]);
    if i > 0 {
      assert xs[1..][i - 1] == xs[i];
      NonEmptyKeeps(xs[1..], i - 1);
      var k :| 0 <= k < |NonEmpty(xs[1..])| && NonEmpty(xs[1..])[k] == xs[i];
      assert NonEmpty(xs)[|x| + k] == xs[i];
    } else {
      assert NonEmpty(xs)[0] == xs[0];
    }
  }

  /** The filter adds nothing. */
  lemma {:induction false} NonEmptyOnly(xs: seq<string>, t: string)
    requires t in NonEmpty(xs)
    ensures t in xs
  {
    var x := if xs[0] != [] then [xs[0]] else [];
    assert NonEmpty(xs) == x + NonEmpty(xs[1..]);
    if t !in x {
      NonEmptyOnly(xs[1..], t);
    }
  }

  /** The filter distributes over concatenation. */
  lemma {:induction false} NonEmptyAppend(a: seq<string>, b: seq<string>)
    ensures NonEmpty(a + b) == NonEmpty(a) + NonEmpty(b)
  {
    if a == [] {
      assert a + b == b;
    } else {
      var x := if a[0] != [] then [a[0]] else [];
      assert (a + b)[0] == a[0];
      assert (a + b)[1..] == a[1..] + b;
      NonEmptyAppend(a[1..], b);
      calc {
        NonEmpty(a + b);
        x + NonEmpty(a[1..] + b);
        x + (NonEmpty(a[1..]) + NonEmpty(b));
        (x + NonEmpty(a[1..])) + NonEmpty(b);
        NonEmpty(a) + NonEmpty(b);
      }
    }
  }

  /** `hashtags.map(CleanTag).filter(h => h)`: the tags as stored. */
  function CleanHashtags(hs: seq<string>): (r: seq<string>)
    ensures |r| <= |hs|
    ensures forall i :: 0 <= i < |r| ==> r[i] != [] && Trimmed(r[i])
  {
    NonEmpty(CleanEach(hs))
  }

  /** Every tag that is not empty once cleaned is kept, cleaned. */
  lemma CleanKeepsEveryTag(hs: seq<string>, i: int)
    requires 0 <= i < |hs| && CleanTag(hs[i]) != []
    ensures CleanTag(hs[i]) in CleanHashtags(hs)
  {
    NonEmptyKeeps(CleanEach(hs), i);
  }

  /** Every kept tag is the cleaned form of an input tag. */
  lemma CleanKeepsOnlyInputTags(hs: seq<string>, t: string)
    requires t in CleanHashtags(hs)
    ensures exists i :: 0 <= i < |hs| && CleanTag(hs[i]) == t
  {
    NonEmptyOnly(CleanEach(hs), t);
  }

  /** Cleaning keeps the order: it distributes over concatenation. */
  lemma CleanHashtagsAppend(a: seq<string>, b: seq<string>)
    ensures CleanHashtags(a + b) == CleanHashtags(a) + CleanHashtags(b)
  {
    assert CleanEach(a + b) == CleanEach(a) + CleanEach(b);
    NonEmptyAppend(CleanEach(a), CleanEach(b));
  }

  /** A cleaned tag that does not start with `#` cleans to itself. */
  lemma CleanTagIdempotent(h: string)
    requires !StartsWith(CleanTag(h), "#")
    ensures CleanTag(CleanTag(h)) == CleanTag(h)
  {
    var t := CleanTag(h);
    assert StripHash(t) == t;
    TrimKeepsTrimmed(t);
  }

  /** A one-tag list cleans to its cleaned tag, or to nothing when that is empty. */
  lemma CleanOne(h: string)
    ensures CleanHashtags([h]) == if CleanTag(h) != [] then [CleanTag(h)] else []
  {
    assert CleanEach([h]) == [CleanTag(h)];
    assert NonEmpty([CleanTag(h)]) == (if CleanTag(h) != [] then [CleanTag(h)] else []) + NonEmpty([]);
  }

  /**
   * Only one `#` goes per cleaning: a stored `#a` (sent as `##a`) loses its
   * remaining `#` when the same list is cleaned again by an update.
   */
  lemma CleaningTwiceStripsAgain()
    ensures CleanHashtags(["##a"]) == ["#a"]
    ensures CleanHashtags(["#a"]) == ["a"]
  {
    assert "##a" == "#" + "#a";
    assert "#a" == "#" + "a";
    CleanTagStripsOneHash("#a");
    CleanTagStripsOneHash("a");
    assert CleanTag("##a") == "#a";
    assert CleanTag("#a") == "a";
    CleanOne("##a");
    CleanOne("#a");
  }

  /** A trimmed, non-empty tag behind one `#` cleans to the tag itself. */
  lemma CleanTagStripsOneHash(t: string)
    requires t != [] && Trimmed(t)
    ensures CleanTag("#" + t) == t
  {
    assert StripHash("#" + t) == t by {
      assert ("#" + t)[1..] == t;
    }
    TrimKeepsTrimmed(t);
  }

  /** Tags that are a lone `#` or all white space vanish: a non-empty list can clean to an empty one. */
  lemma CleaningCanEmpty()
    ensures CleanHashtags(["#", " "]) == []
  {
    assert CleanTag("#") == [] by {
      assert StartsWith("#", "#");
      assert "#"[1..] == [];
      assert IsBlank([]);
    }
    assert CleanTag(" ") == [] by {
      assert !StartsWith(" ", "#") by { assert " "[0] != '#'; }
      assert IsSpace(" "[0]);
      assert IsBlank(" ");
    }
    CleanOne("#");
    CleanOne(" ");
    CleanHashtagsAppend(["#"], [" "]);
    assert ["#"] + [" "] == ["#", " "];
  }

  // ----- the validation chain -----

  /** The checks create and update share: subject, then the hashtag count. */
  function CheckSubjectAndHashtags(req: CampaignRequest): (r: Option<HttpError>)
    ensures r.None? <==>
              && req.subject.Some? && !IsBlank(req.subject.value)
              && req.hashtags.Some? && 1 <= |req.hashtags.value| <= MaxHashtags
    ensures req.subject.None? || IsBlank(req.subject.value) ==> r == Some(BadRequest(SubjectRequired))
    ensures r.Some? ==> r.value.BadRequest?
  {
    if req.subject.None? || IsBlank(req.subject.value) then Some(BadRequest(SubjectRequired))
    else if req.hashtags.None? || |req.hashtags.value| == 0 then Some(BadRequest(HashtagRequired))
    else if |req.hashtags.value| > MaxHashtags then Some(BadRequest(TooManyHashtags))
    else None
  }

  /** `extraInfo?.trim() || ''`. */
  function ExtraInfo(e: Option<string>): (r: Option<string>)
    ensures r.Some?
    ensures e.None? ==> r == Some("")
    ensures e.Some? ==> r == Some(Trim(e.value))
  {
    match e
    case None => Some("")
    case Some(s) => Some(Trim(s))
  }

  /** The columns written once the checks pass; the numbers must be present. */
  function SpecOf(req: CampaignRequest): CampaignSpec
    requires req.subject.Some? && req.hashtags.Some?
    requires req.minIntervalMs.Some? && req.maxIntervalMs.Some? && req.durationDays.Some?
  {
    CampaignSpec(Trim(req.subject.value), ExtraInfo(req.extraInfo), CleanHashtags(req.hashtags.value),
                 req.minIntervalMs.value, req.maxIntervalMs.value, req.durationDays.value)
  }

  /**
   * The create checks in order: subject, hashtags, minimum interval, maximum
   * interval (equal to the minimum is accepted), duration.
   */
  function ValidateCreate(req: CampaignRequest): (r: Result<CampaignSpec, HttpError>)
    ensures r.Success? <==>
              && req.subject.Some? && !IsBlank(req.subject.value)
              && req.hashtags.Some? && 1 <= |req.hashtags.value| <= MaxHashtags
              && req.minIntervalMs.Some? && req.minIntervalMs.value >= MinIntervalMs
              && req.maxIntervalMs.Some? && req.maxIntervalMs.value >= req.minIntervalMs.value
              && req.durationDays.Some? && req.durationDays.value >= 1
    ensures r.Failure? ==> r.error.BadRequest?
    ensures CheckSubjectAndHashtags(req).Some? ==> r == Failure(CheckSubjectAndHashtags(req).value)
    ensures r.Success? ==>
              && r.value.subject == Trim(req.subject.value) && r.value.subject != []
              && r.value.hashtags == CleanHashtags(req.hashtags.value)
              && r.value.extraInfo == ExtraInfo(req.extraInfo)
              && r.value.minIntervalMs == req.minIntervalMs.value
              && r.value.maxIntervalMs == req.maxIntervalMs.value
              && r.value.durationDays == req.durationDays.value
              && MinIntervalMs <= r.value.minIntervalMs <= r.value.maxIntervalMs
              && r.value.durationDays >= 1
  {
    match CheckSubjectAndHashtags(req)
    case Some(e) => Failure(e)
    case None =>
      if req.minIntervalMs.None? || req.minIntervalMs.value < MinIntervalMs then
        Failure(BadRequest(MinIntervalTooShort))
      else if req.maxIntervalMs.None? || req.maxIntervalMs.value < req.minIntervalMs.value then
        Failure(BadRequest(MaxBelowMin))
      else if req.durationDays.None? || req.durationDays.value < 1 then
        Failure(BadRequest(DurationTooShort))
      else
        Success(SpecOf(req))
  }

  /** Create accepts a maximum equal to the minimum. */
  lemma CreateAcceptsEqualBounds(req: CampaignRequest)
    requires CheckSubjectAndHashtags(req).None?
    requires req.minIntervalMs == req.maxIntervalMs == Some(MinIntervalMs)
    requires req.durationDays == Some(1)
    ensures ValidateCreate(req).Success?
    ensures ValidateCreate(req).value.minIntervalMs == ValidateCreate(req).value.maxIntervalMs
  {
  }

  /**
   * The message SQLite gives when a NOT NULL column receives NULL, as a
   * missing number does once `parseFloat`/`parseInt` turn it into NaN.
   */
  function NotNull(column: string): string {
    "NOT NULL constraint failed: campaigns." + column
  }

  /**
   * The update checks: only subject and hashtags. A missing number reaches
   * the UPDATE as NULL and fails there with a server error.
   */
  function ValidateUpdate(req: CampaignRequest): (r: Result<CampaignSpec, HttpError>)
    ensures r.Success? <==>
              && CheckSubjectAndHashtags(req).None?
              && req.minIntervalMs.Some? && req.maxIntervalMs.Some? && req.durationDays.Some?
    ensures CheckSubjectAndHashtags(req).Some? ==> r == Failure(CheckSubjectAndHashtags(req).value)
    ensures CheckSubjectAndHashtags(req).None? && r.Failure? ==> r.error.ServerError?
    ensures r.Success? ==>
              && r.value.subject == Trim(req.subject.value) && r.value.subject != []
              && r.value.hashtags == CleanHashtags(req.hashtags.value)
              && r.value.minIntervalMs == req.minIntervalMs.value
              && r.value.maxIntervalMs == req.maxIntervalMs.value
              && r.value.durationDays == req.durationDays.value
  {
    match CheckSubjectAndHashtags(req)
    case Some(e) => Failure(e)
    case None =>
      if req.minIntervalMs.None? then Failure(ServerError(NotNull("min_interval_hours")))
      else if req.maxIntervalMs.None? then Failure(ServerError(NotNull("max_interval_hours")))
      else if req.durationDays.None? then Failure(ServerError(NotNull("duration_days")))
      else Success(SpecOf(req))
  }

  /** Everything create accepts, update accepts too, with the same columns. */
  lemma UpdateAcceptsWhatCreateAccepts(req: CampaignRequest)
    requires ValidateCreate(req).Success?
    ensures ValidateUpdate(req) == ValidateCreate(req)
  {
  }

  /**
   * Update does not check the intervals or the duration: a zero minimum, a
   * maximum below it and a zero duration are written as given.
   */
  lemma UpdateSkipsIntervalChecks(req: CampaignRequest)
    requires CheckSubjectAndHashtags(req).None?
    requires req.minIntervalMs == Some(0) && req.maxIntervalMs == Some(-1) && req.durationDays == Some(0)
    ensures ValidateCreate(req).Failure?
    ensures ValidateUpdate(req).Success?
    ensures ValidateUpdate(req).value.maxIntervalMs < ValidateUpdate(req).value.minIntervalMs
  {
  }

  // ----- the handlers -----

  /** `GET /:id`. */
  function GetCampaign(w: World, id: int): (r: Result<Campaign, HttpError>)
    ensures r.Success? <==> id in w.campaigns
    ensures r.Success? ==> r.value == w.campaigns[id]
    ensures r.Failure? ==> r.error == NotFound(CampaignNotFound)
  {
    if id in w.campaigns then Success(w.campaigns[id]) else Failure(NotFound(CampaignNotFound))
  }

  /** `POST /`: validates, inserts under the next id and answers with the new row. */
  method Create(db: Database, req: CampaignRequest) returns (r: Result<Campaign, HttpError>)
    requires db.Valid()
    modifies db
    ensures db.Valid()
    ensures ValidateCreate(req).Failure? ==>
              r == Failure(ValidateCreate(req).error) && db.State() == old(db.State())
    ensures ValidateCreate(req).Success? ==>
              var id := old(db.nextCampaignId);
              && r == Success(NewRow(id, ValidateCreate(req).value))
              && db.campaigns == old(db.campaigns)[id := NewRow(id, ValidateCreate(req).value)]
              && db.history == old(db.history)
    ensures db.credentials == old(db.credentials)
    ensures RunningIds(db.campaigns) == RunningIds(old(db.campaigns))
  {
    var spec := ValidateCreate(req);
    if spec.Failure? {
      return Failure(spec.error);
    }
    var id := db.CreateCampaign(spec.value);
    var campaign := db.GetCampaign(id);
    r := Success(campaign.value);
  }

  /**
   * `PUT /:id`: 404 for an unknown id, 400 for a running campaign, then the
   * update checks; only a request that passes them all writes anything.
   */
  method Update(db: Database, id: int, req: CampaignRequest) returns (r: Result<Campaign, HttpError>)
    requires db.Valid()
    modifies db
    ensures db.Valid()
    ensures id !in old(db.campaigns) ==>
              r == Failure(NotFound(CampaignNotFound)) && db.State() == old(db.State())
    ensures id in old(db.campaigns) && old(db.campaigns)[id].status == Running ==>
              r == Failure(BadRequest(CannotEditRunning)) && db.State() == old(db.State())
    ensures id in old(db.campaigns) && old(db.campaigns)[id].status == Stopped && ValidateUpdate(req).Failure? ==>
              r == Failure(ValidateUpdate(req).error) && db.State() == old(db.State())
    ensures id in old(db.campaigns) && old(db.campaigns)[id].status == Stopped && ValidateUpdate(req).Success? ==>
              && db.campaigns == EditRow(old(db.campaigns), id, ValidateUpdate(req).value)
              && db.history == old(db.history)
              && r == Success(db.campaigns[id])
    ensures r.Failure? ==> db.State() == old(db.State())
    ensures db.credentials == old(db.credentials)
    ensures RunningIds(db.campaigns) == RunningIds(old(db.campaigns))
  {
    var campaign := db.GetCampaign(id);
    if campaign.None? {
      return Failure(NotFound(CampaignNotFound));
    }
    if campaign.value.status == Running {
      return Failure(BadRequest(CannotEditRunning));
    }
    var spec := ValidateUpdate(req);
    if spec.Failure? {
      return Failure(spec.error);
    }
    db.UpdateCampaign(id, spec.value);
    var updated := db.GetCampaign(id);
    r := Success(updated.value);
  }

  /** `POST /:id/start`: the credentials gate, then the scheduler's start; answers with the first due time. */
  method Start(s: Scheduler.Scheduler, id: int, now: int, draw: Compose.Unit) returns (r: Result<int, HttpError>)
    requires s.Valid()
    modifies s.db
    ensures s.Valid()
    ensures !HasCredentials(old(s.db.credentials)) ==>
              r == Failure(BadRequest(CredentialsMissing)) && s.db.State() == old(s.db.State())
    ensures HasCredentials(old(s.db.credentials)) ==>
              match Scheduler.Start(old(s.db.State()), id, now, draw)
              case Failure(_) => r == Failure(ServerError(CampaignNotFound)) && s.db.State() == old(s.db.State())
              case Success((w', next)) => r == Success(next) && s.db.State() == w'
    ensures s.db.credentials == old(s.db.credentials)
  {
    if !s.db.CredentialsPresent() {
      return Failure(BadRequest(CredentialsMissing));
    }
    var result := s.StartCampaign(id, now, draw);
    match result {
      case Failure(_) => r := Failure(ServerError(CampaignNotFound));
      case Success(next) => r := Success(next);
    }
  }

  /** `POST /:id/stop`: always answers success. */
  method Stop(s: Scheduler.Scheduler, id: int) returns (success: bool)
    requires s.Valid()
    modifies s.db
    ensures s.Valid()
    ensures success && s.db.State() == Scheduler.Stop(old(s.db.State()), id)
    ensures s.db.credentials == old(s.db.credentials)
  {
    s.StopCampaign(id);
    success := true;
  }

  /** The body of a post-now answer. */
  datatype PostNowReply = PostNowReply(success: bool, message: string)

  /** `POST /:id/post-now`: the credentials gate, then one post attempt. */
  method PostNow(s: Scheduler.Scheduler, id: int, o: Scheduler.Oracles, at: int) returns (r: Result<PostNowReply, HttpError>)
    requires s.Valid()
    modifies s.db
    ensures s.Valid()
    ensures !HasCredentials(old(s.db.credentials)) ==>
              r == Failure(BadRequest(CredentialsMissing)) && s.db.State() == old(s.db.State())
    ensures HasCredentials(old(s.db.credentials)) ==>
              match Scheduler.PostNowResult(old(s.db.State()), id, o, at)
              case Failure(_) => r == Failure(ServerError(CampaignNotFound)) && s.db.State() == old(s.db.State())
              case Success((w', ok)) =>
                && s.db.State() == w'
                && r == Success(PostNowReply(ok, if ok then PostedMessage else NotPostedMessage))
    ensures s.db.credentials == old(s.db.credentials)
  {
    if !s.db.CredentialsPresent() {
      return Failure(BadRequest(CredentialsMissing));
    }
    var result := s.PostNow(id, o, at);
    match result {
      case Failure(_) => r := Failure(ServerError(CampaignNotFound));
      case Success(ok) => r := Success(PostNowReply(ok, if ok then PostedMessage else NotPostedMessage));
    }
  }
}
