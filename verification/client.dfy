/**
 * The browser-side logic of public/js/app.js that the server relies on: the
 * hashtag list being edited (`currentHashtags`), the countdown shown for the
 * next post and the checks `saveCampaign` runs before sending a campaign.
 */
module Client {
  import opened Wrappers
  import opened Text
  import Compose
  import Routes

  // ----- the hashtag list -----

  /** Tags the form accepts. */
  const MaxTags := 5

  /** `tag.trim().replace(/^#/, '')`: trimmed first, then one `#` removed. */
  function NormalizeTag(tag: string): (r: string)
    ensures Trim(tag) == r || Trim(tag) == "#" + r
    ensures r == Trim(tag) <==> !StartsWith(Trim(tag), "#")
  {
    Routes.StripHash(Trim(tag))
  }

  /** No tag occurs twice. */
  predicate Distinct(tags: seq<string>) {
    forall i, j :: 0 <= i < j < |tags| ==> tags[i] != tags[j]
  }

  /** At most five tags, none empty, no tag twice. */
  predicate WellFormed(tags: seq<string>) {
    && |tags| <= MaxTags
    && (forall i :: 0 <= i < |tags| ==> tags[i] != [])
    && Distinct(tags)
  }

  /** Why `addHashtag` did or did not add. */
  datatype AddOutcome = Added | EmptyTag | LimitReached | Duplicate

  /**
   * `addHashtag`: the normalised tag is appended unless it is empty, the list
   * is full or already holds it, in that order of checks.
   */
  function AddTag(tags: seq<string>, tag: string): (r: (AddOutcome, seq<string>))
    ensures r.0 == Added <==> NormalizeTag(tag) != [] && |tags| < MaxTags && NormalizeTag(tag) !in tags
    ensures r.0 == EmptyTag <==> NormalizeTag(tag) == []
    ensures r.0 == LimitReached <==> NormalizeTag(tag) != [] && |tags| >= MaxTags
    ensures r.0 == Added ==> r.1 == tags + [NormalizeTag(tag)]
    ensures r.0 != Added ==> r.1 == tags
  {
    var t := NormalizeTag(tag);
    if t == [] then (EmptyTag, tags)
    else if |tags| >= MaxTags then (LimitReached, tags)
    else if t in tags then (Duplicate, tags)
    else (Added, tags + [t])
  }

  /** `filter(h => h !== tag)`: every occurrence of `tag` removed, the rest kept in order. */
  function Without(tags: seq<string>, tag: string): (r: seq<string>)
    ensures |r| <= |tags|
    ensures tag !in r
    ensures forall h :: h in r <==> h in tags && h != tag
    ensures tag !in tags ==> r == tags
  {
    if tags == [] then []
    else (if tags[0] != tag then [tags[0]] else []) + Without(tags[1..], tag)
  }

  /** Removal keeps the order: it distributes over concatenation. */
  lemma {:induction false} WithoutAppend(a: seq<string>, b: seq<string>, tag: string)
    ensures Without(a + b, tag) == Without(a, tag) + Without(b, tag)
  {
    if a == [] {
      assert a + b == b;
    } else {
      var x := if a[0] != tag then [a[0]] else [];
      assert (a + b)[0] == a[0];
      assert (a + b)[1..] == a[1..] + b;
      WithoutAppend(a[1..], b, tag);
      calc {
        Without(a + b, tag);
        x + Without(a[1..] + b, tag);
        x + (Without(a[1..], tag) + Without(b, tag));
        (x + Without(a[1..], tag)) + Without(b, tag);
        Without(a, tag) + Without(b, tag);
      }
    }
  }

  /** Adding keeps the list well formed. */
  lemma AddKeepsWellFormed(tags: seq<string>, tag: string)
    requires WellFormed(tags)
    ensures WellFormed(AddTag(tags, tag).1)
  {
  }

  /** Removal keeps the list well formed. */
  lemma {:induction false} RemoveKeepsWellFormed(tags: seq<string>, tag: string)
    requires WellFormed(tags)
    ensures WellFormed(Without(tags, tag))
  {
    var r := Without(tags, tag);
    WithoutKeepsDistinct(tags, tag);
    forall i | 0 <= i < |r| ensures r[i] != [] {
      assert r[i] in tags;
    }
  }

  lemma {:induction false} WithoutKeepsDistinct(tags: seq<string>, tag: string)
    requires Distinct(tags)
    ensures Distinct(Without(tags, tag))
  {
    if tags != [] {
      assert Distinct(tags[1..]) by {
        forall i, j | 0 <= i < j < |tags| - 1 ensures tags[1..][i] != tags[1..][j] {
          assert tags[1..][i] == tags[i + 1] && tags[1..][j] == tags[j + 1];
        }
      }
      WithoutKeepsDistinct(tags[1..], tag);
      var rest := Without(tags[1..], tag);
      assert tags[0] !in tags[1..] by {
        forall k | 0 <= k < |tags| - 1 ensures tags[1..][k] != tags[0] {
          assert tags[1..][k] == tags[k + 1];
        }
      }
      if tags[0] != tag {
        assert tags[0] !in rest;
        ConsDistinct(tags[0], rest);
      }
    }
  }

  /** Putting a new tag in front of distinct tags keeps them distinct. */
  lemma ConsDistinct(x: string, rest: seq<string>)
    requires Distinct(rest) && x !in rest
    ensures Distinct([x] + rest)
  {
    var r := [x] + rest;
    forall i, j | 0 <= i < j < |r| ensures r[i] != r[j] {
      assert r[j] == rest[j - 1];
      if i > 0 {
        assert r[i] == rest[i - 1];
      }
    }
  }

  /** Adding a tag twice is adding it once. */
  lemma AddIdempotent(tags: seq<string>, tag: string)
    ensures AddTag(AddTag(tags, tag).1, tag).1 == AddTag(tags, tag).1
  {
  }

  /** Removing a tag just added restores a list that did not hold it. */
  lemma RemoveUndoesAdd(tags: seq<string>, tag: string)
    requires AddTag(tags, tag).0 == Added
    ensures Without(AddTag(tags, tag).1, NormalizeTag(tag)) == tags
  {
    var t := NormalizeTag(tag);
    WithoutAppend(tags, [t], t);
    assert Without([t], t) == [];
  }

  /** The form's hashtag list (`currentHashtags`), changed in place by the add and remove buttons. */
  class HashtagEditor {
    var currentHashtags: seq<string>

    /** The list a fresh form starts with (and `resetCampaignForm` restores). */
    constructor ()
      ensures currentHashtags == []
    {
      currentHashtags := [];
    }

    method AddHashtag(tag: string) returns (outcome: AddOutcome)
      modifies this
      ensures (outcome, currentHashtags) == AddTag(old(currentHashtags), tag)
    {
      var t := Trim(tag);
      t := Routes.StripHash(t);
      if t == [] {
        return EmptyTag;
      }
      if |currentHashtags| >= MaxTags {
        return LimitReached;
      }
      if t in currentHashtags {
        return Duplicate;
      }
      currentHashtags := currentHashtags + [t];
      outcome := Added;
    }

    method RemoveHashtag(tag: string)
      modifies this
      ensures currentHashtags == Without(old(currentHashtags), tag)
    {
      currentHashtags := Without(currentHashtags, tag);
    }
  }

  // ----- formatTimeUntil -----

  const MinuteMs := 60000

  /** What the countdown shows: no date, `Now`, or hours and minutes left. */
  datatype Countdown = NoDate | Now | Remaining(hours: nat, minutes: nat)

  /** The countdown from `now` to `target`, in whole hours and minutes, rounded down. */
  function TimeUntil(target: Option<int>, now: int): (c: Countdown)
    ensures c.NoDate? <==> target.None?
    ensures c.Now? <==> target.Some? && target.value < now
    ensures c.Remaining? ==>
              && c.minutes < 60
              && Compose.HourMs * c.hours + MinuteMs * c.minutes <= target.value - now
              && target.value - now < Compose.HourMs * c.hours + MinuteMs * (c.minutes + 1)
  {
    match target
    case None => NoDate
    case Some(date) =>
      var diff := date - now;
      if diff < 0 then Now
      else Remaining(diff / Compose.HourMs, diff % Compose.HourMs / MinuteMs)
  }

  /** Hours and minutes together count the whole minutes left. */
  lemma TotalMinutes(target: int, now: int)
    requires target >= now
    ensures var c := TimeUntil(Some(target), now);
            c.Remaining? && 60 * c.hours + c.minutes == (target - now) / MinuteMs
  {
    var c := TimeUntil(Some(target), now);
    var diff := target - now;
    var m := 60 * c.hours + c.minutes;
    assert MinuteMs * m <= diff < MinuteMs * (m + 1);
    DivFromBounds(diff, MinuteMs, m);
  }

  lemma DivFromBounds(a: int, d: int, q: int)
    requires d > 0 && d * q <= a < d * (q + 1)
    ensures a / d == q
  {
    var k := a / d;
    assert d * k <= a < d * k + d;
    assert d * (k + 1 - q) == d * k + d - d * q;
    assert d * (q + 1 - k) == d * q + d - d * k;
    Compose.PositiveFactor(d, k + 1 - q);
    Compose.PositiveFactor(d, q + 1 - k);
  }

  /** `formatTimeUntil`: `--`, `Now`, `Hh Mm` from one hour on, else `Mm`. */
  function FormatTimeUntil(target: Option<int>, now: int): (r: string)
    ensures target.Some? && target.value >= now ==> |r| >= 2 && r[|r| - 1] == 'm'
    ensures target.None? <==> r == "--"
    ensures target.Some? && target.value < now <==> r == "Now"
  {
    match TimeUntil(target, now)
    case NoDate => "--"
    case Now => "Now"
    case Remaining(h, m) => if h > 0 then Decimal(h) + "h " + Decimal(m) + "m" else Decimal(m) + "m"
  }

  /** The hours appear exactly when at least an hour is left. */
  lemma HoursShownFromOneHour(target: int, now: int)
    requires target >= now
    ensures 'h' in FormatTimeUntil(Some(target), now) <==> target - now >= Compose.HourMs
  {
    var c := TimeUntil(Some(target), now);
    var r := FormatTimeUntil(Some(target), now);
    NoLetterInDecimal(c.minutes);
    if c.hours > 0 {
      assert r[|Decimal(c.hours)|] == 'h';
    } else {
      assert r == Decimal(c.minutes) + "m";
    }
  }

  lemma NoLetterInDecimal(n: nat)
    ensures 'h' !in Decimal(n)
  {
  }

  // ----- saveCampaign checks -----

  /**
   * The form as `saveCampaign` reads it. A number field that does not parse
   * (NaN) is `None`; it compares false against anything and is sent as null.
   */
  datatype CampaignForm = CampaignForm(
    subject: string,
    extraInfo: string,
    minIntervalMs: Option<int>,
    maxIntervalMs: Option<int>,
    durationDays: Option<int>)

  const SubjectRequired := "Subject is required"
  const HashtagRequired := "At least one hashtag is required"
  const MaxNotAboveMin := "Max interval must be greater than min interval"

  /** The client checks in order: subject, a hashtag, min strictly below max; the error shown, if any. */
  function CheckForm(form: CampaignForm, tags: seq<string>): (r: Option<string>)
    ensures r.None? <==>
              && !IsBlank(form.subject) && |tags| > 0
              && !(form.minIntervalMs.Some? && form.maxIntervalMs.Some? && form.minIntervalMs.value >= form.maxIntervalMs.value)
    ensures IsBlank(form.subject) ==> r == Some(SubjectRequired)
  {
    if Trim(form.subject) == [] then Some(SubjectRequired)
    else if |tags| == 0 then Some(HashtagRequired)
    else if form.minIntervalMs.Some? && form.maxIntervalMs.Some? && form.minIntervalMs.value >= form.maxIntervalMs.value
    then Some(MaxNotAboveMin)
    else None
  }

  /** The body `saveCampaign` sends. */
  function RequestOf(form: CampaignForm, tags: seq<string>): (req: Routes.CampaignRequest)
    ensures req.subject == Some(Trim(form.subject)) && req.hashtags == Some(tags)
    ensures req.extraInfo == Some(Trim(form.extraInfo))
    ensures req.minIntervalMs == form.minIntervalMs && req.maxIntervalMs == form.maxIntervalMs
    ensures req.durationDays == form.durationDays
  {
    Routes.CampaignRequest(Some(Trim(form.subject)), Some(Trim(form.extraInfo)), Some(tags),
                           form.minIntervalMs, form.maxIntervalMs, form.durationDays)
  }

  /** The client refuses equal bounds that the server's create accepts. */
  lemma ClientRejectsEqualBounds()
    ensures var form := CampaignForm("a", "", Some(Routes.MinIntervalMs), Some(Routes.MinIntervalMs), Some(1));
            && CheckForm(form, ["a"]) == Some(MaxNotAboveMin)
            && Routes.ValidateCreate(RequestOf(form, ["a"])).Success?
  {
    var form := CampaignForm("a", "", Some(Routes.MinIntervalMs), Some(Routes.MinIntervalMs), Some(1));
    assert !IsBlank(form.subject) by { assert !IsSpace(form.subject[0]); }
    var req := RequestOf(form, ["a"]);
    SubjectAPasses(req);
    Routes.CreateAcceptsEqualBounds(req);
  }

  /** A request with subject `a` and one hashtag passes the checks create and update share. */
  lemma SubjectAPasses(req: Routes.CampaignRequest)
    requires req.subject == Some(Trim("a")) && req.hashtags == Some(["a"])
    ensures Routes.CheckSubjectAndHashtags(req).None?
  {
    TrimKeepsTrimmed("a");
    assert req.subject.value == "a";
    assert !IsBlank(req.subject.value) by { assert !IsSpace(req.subject.value[0]); }
    assert 1 <= |req.hashtags.value| <= Routes.MaxHashtags;
  }

  /** The client lets an unparsable minimum through; the server's create refuses it. */
  lemma ClientPassesMissingMinimum()
    ensures var form := CampaignForm("a", "", None, Some(Routes.MinIntervalMs), Some(1));
            && CheckForm(form, ["a"]).None?
            && Routes.ValidateCreate(RequestOf(form, ["a"])) == Failure(Routes.BadRequest(Routes.MinIntervalTooShort))
  {
    var form := CampaignForm("a", "", None, Some(Routes.MinIntervalMs), Some(1));
    assert !IsBlank(form.subject) by { assert !IsSpace(form.subject[0]); }
    var req := RequestOf(form, ["a"]);
    SubjectAPasses(req);
    assert req.minIntervalMs.None?;
  }

  /** Whenever both bounds are numbers, a form the client accepts has min strictly below max. */
  lemma ClientStrictBounds(form: CampaignForm, tags: seq<string>)
    requires CheckForm(form, tags).None?
    requires form.minIntervalMs.Some? && form.maxIntervalMs.Some?
    ensures form.minIntervalMs.value < form.maxIntervalMs.value
  {
  }
}
