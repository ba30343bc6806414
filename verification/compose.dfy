/**
 * The pure helpers of server/scheduler.js: hashtag selection, the random
 * interval, the 280-character message and the recent-text hint.
 *
 * Randomness is injected: `Math.random()` becomes a `Unit` fraction and the
 * random shuffle becomes a sequence of picks.
 */
module Compose {
  import opened Text
  import opened Wrappers
  import Store

  /** The platform's message length limit. */
  const TweetLimit := 280
  /** Hashtags kept per post. */
  const HashtagsPerPost := 3
  const HourMs := 3600000
  const DayMs := 86400000

  /** One value of `Math.random()`, the fraction num/den in [0, 1). */
  datatype Fraction = Fraction(num: nat, den: nat)
  type Unit = u: Fraction | u.num < u.den witness Fraction(0, 1)

  // ----- getRandomInterval / getNextTweetTime -----

  /**
   * `Math.floor(Math.random() * (maxMs - minMs + 1)) + minMs`. For a positive
   * divisor Dafny's `/` rounds down, as `Math.floor` does, also when the
   * span is negative (a campaign whose maximum is below its minimum).
   */
  function RandomInterval(minMs: int, maxMs: int, u: Unit): (r: int)
    ensures minMs <= maxMs ==> minMs <= r <= maxMs
  {
    var span := maxMs - minMs + 1;
    ScaledDraw(u, span);
    u.num * span / u.den + minMs
  }

  /** floor(num/den * span) lies in [0, span) for a fraction in [0, 1). */
  lemma ScaledDraw(u: Unit, span: int)
    ensures span > 0 ==> 0 <= u.num * span / u.den < span
  {
    if span > 0 {
      ScaledDrawBelow(u, span);
    }
  }

  lemma ScaledDrawBelow(u: Unit, span: int)
    requires span > 0
    ensures 0 <= u.num * span / u.den < span
  {
    assert u.num * span <= (u.den - 1) * span by {
      assert (u.den - 1 - u.num) * span >= 0;
    }
    assert u.num * span < u.den * span;
    DivBelow(u.num * span, u.den, span);
  }

  lemma DivBelow(a: int, d: int, n: int)
    requires 0 <= a < d * n && d > 0
    ensures 0 <= a / d < n
  {
    var q := a / d;
    assert d * q <= a;
    assert d * (n - q) > 0;
    PositiveFactor(d, n - q);
  }

  lemma PositiveFactor(d: int, x: int)
    requires d > 0 && d * x > 0
    ensures x > 0
  {
  }

  lemma MulDivCancel(a: nat, b: int)
    requires b > 0
    ensures a * b / b == a
  {
    var q := a * b / b;
    var x := a - q;
    assert b * x == a * b - b * q;
    assert 0 <= b * x < b;
    assert b * (x + 1) == b * x + b;
    assert b * (1 - x) == b - b * x;
    PositiveFactor(b, x + 1);
    PositiveFactor(b, 1 - x);
  }

  /** Every millisecond in [minMs, maxMs] is the interval for some draw. */
  lemma {:induction false} EveryIntervalReachable(minMs: int, maxMs: int, v: int)
    requires minMs <= v <= maxMs
    ensures exists u: Unit :: RandomInterval(minMs, maxMs, u) == v
  {
    var span := maxMs - minMs + 1;
    var u: Unit := Fraction(v - minMs, span);
    MulDivCancel(v - minMs, span);
    assert RandomInterval(minMs, maxMs, u) == v;
  }

  /** `getNextTweetTime`: the clock reading plus a random interval. */
  function NextTweetTime(now: int, minMs: int, maxMs: int, u: Unit): (r: int)
    ensures minMs <= maxMs ==> now + minMs <= r <= now + maxMs
  {
    now + RandomInterval(minMs, maxMs, u)
  }

  // ----- selectRandomHashtags -----

  /**
   * A shuffle driven by random picks: each pick chooses, modulo the number
   * left, the next element among those not yet taken. Missing picks choose 0.
   */
  function Shuffle<T>(xs: seq<T>, picks: seq<nat>): (r: seq<T>)
    ensures |r| == |xs|
    ensures multiset(r) == multiset(xs)
    decreases |xs|
  {
    if xs == [] then []
    else
      var k := (if picks == [] then 0 else picks[0]) % |xs|;
      var rest := xs[..k] + xs[k + 1..];
      assert xs == xs[..k] + [xs[k]] + xs[k + 1..];
      [xs[k]] + Shuffle(rest, if picks == [] then [] else picks[1..])
  }

  /**
   * `selectRandomHashtags(hashtags, count)`: a copy of all of them when there
   * are at most `count`, otherwise the first `count` of a random permutation.
   */
  function SelectRandomHashtags(hashtags: seq<string>, count: nat, picks: seq<nat>): (r: seq<string>)
    ensures |hashtags| <= count ==> r == hashtags
    ensures |hashtags| > count ==> |r| == count
    ensures multiset(r) <= multiset(hashtags)
    ensures |hashtags| > count ==> r == Shuffle(hashtags, picks)[..count]
  {
    if |hashtags| <= count then hashtags
    else
      var shuffled := Shuffle(hashtags, picks);
      assert shuffled == shuffled[..count] + shuffled[count..];
      shuffled[..count]
  }

  /** Every selected hashtag is one of the campaign's. */
  lemma {:induction false} SelectedFromInput(hashtags: seq<string>, count: nat, picks: seq<nat>)
    ensures forall h :: h in SelectRandomHashtags(hashtags, count, picks) ==> h in hashtags
  {
    var r := SelectRandomHashtags(hashtags, count, picks);
    forall h | h in r ensures h in hashtags {
      assert h in multiset(r);
    }
  }

  /** Without repeated hashtags in the input, none is selected twice. */
  lemma {:induction false} SelectedDistinct(hashtags: seq<string>, count: nat, picks: seq<nat>)
    requires forall i, j :: 0 <= i < j < |hashtags| ==> hashtags[i] != hashtags[j]
    ensures var r := SelectRandomHashtags(hashtags, count, picks);
            forall i, j :: 0 <= i < j < |r| ==> r[i] != r[j]
  {
    var r := SelectRandomHashtags(hashtags, count, picks);
    forall i, j | 0 <= i < j < |r| ensures r[i] != r[j] {
      if r[i] == r[j] {
        RepeatCountsTwice(r, i, j);
        DistinctCountOne(hashtags, r[i]);
        assert false;
      }
    }
  }

  /** An element found at two positions occurs at least twice. */
  lemma RepeatCountsTwice<T>(r: seq<T>, i: int, j: int)
    requires 0 <= i < j < |r| && r[i] == r[j]
    ensures multiset(r)[r[i]] >= 2
  {
    assert r == r[..j] + r[j..];
    assert r[..j][i] == r[i];
    assert r[j..][0] == r[i];
  }

  /** In a sequence without repeats, an element occurs at most once. */
  lemma {:induction false} DistinctCountOne<T>(xs: seq<T>, x: T)
    requires forall i, j :: 0 <= i < j < |xs| ==> xs[i] != xs[j]
    ensures multiset(xs)[x] <= 1
  {
    if xs != [] {
      assert xs == [xs[0]] + xs[1..];
      DistinctCountOne(xs[1..], x);
      if xs[0] == x {
        assert x !in xs[1..];
      }
    }
  }

  // ----- message composition -----

  /** A tag with `#` prefixed only when it lacks one. */
  function WithHash(h: string): (r: string)
    ensures StartsWith(r, "#")
    ensures StartsWith(h, "#") ==> r == h
    ensures !StartsWith(h, "#") ==> r == "#" + h
  {
    if StartsWith(h, "#") then h else "#" + h
  }

  function MapWithHash(tags: seq<string>): (r: seq<string>)
    ensures |r| == |tags|
    ensures forall i :: 0 <= i < |tags| ==> r[i] == WithHash(tags[i])
  {
    if tags == [] then [] else [WithHash(tags[0])] + MapWithHash(tags[1..])
  }

  /** The selected tags, each `#`-prefixed, joined with single spaces. */
  function HashtagString(tags: seq<string>): (r: string)
    ensures tags == [] ==> r == ""
    ensures |tags| == 1 ==> r == WithHash(tags[0])
  {
    Join(MapWithHash(tags), " ")
  }

  /**
   * Splitting the hashtag block at spaces gives back each selected tag,
   * `#`-prefixed and in order, when no tag contains a space.
   */
  lemma {:induction false} HashtagStringSplits(tags: seq<string>)
    requires tags != []
    requires forall k :: 0 <= k < |tags| ==> ' ' !in tags[k]
    ensures Split(HashtagString(tags), ' ') == MapWithHash(tags)
  {
    var m := MapWithHash(tags);
    forall k | 0 <= k < |m| ensures ' ' !in m[k] {
      if !StartsWith(tags[k], "#") {
        assert m[k] == "#" + tags[k];
        assert m[k][1..] == tags[k];
      }
    }
    assert " " == [' '];
    SplitJoin(m, ' ');
  }

  function Max0(n: int): nat { if n < 0 then 0 else n }

  /**
   * The posted message: body, one space, tags when that fits in 280
   * characters; otherwise the body cut to `280 - |tags| - 4` characters
   * (`substring` clamps a negative length to 0), `"... "`, and the tags.
   */
  function ComposeTweet(content: string, tags: string): (r: string)
    ensures |content| + 1 + |tags| <= TweetLimit ==> r == content + " " + tags
    ensures |content| + 1 + |tags| > TweetLimit ==>
              r == content[..Max0(TweetLimit - |tags| - 4)] + "... " + tags
    ensures |tags| <= |r| && r[|r| - |tags|..] == tags
    ensures |tags| <= TweetLimit - 4 ==> |r| <= TweetLimit
    ensures |content| + 1 + |tags| > TweetLimit && |tags| <= TweetLimit - 4 ==> |r| == TweetLimit
  {
    var full := content + " " + tags;
    if |full| > TweetLimit then
      var cut := Max0(TweetLimit - |tags| - 4);
      content[..cut] + "... " + tags
    else full
  }

  // ----- getRecentTweetTexts -----

  /** The texts of the `posted` records among `rows`, in their order. */
  function PostedTexts(rows: seq<Store.TweetRecord>): (r: seq<string>)
    ensures |r| <= |rows|
    ensures forall t :: t in r ==> exists x :: x in rows && x.status == Store.Posted && x.tweetText == t
    ensures forall x :: x in rows && x.status == Store.Posted ==> x.tweetText in r
  {
    if rows == [] then []
    else (if rows[0].status == Store.Posted then [rows[0].tweetText] else []) + PostedTexts(rows[1..])
  }

  /** The posted texts of two runs of records, one after the other, are those of each run in turn. */
  lemma {:induction false} PostedTextsAppend(a: seq<Store.TweetRecord>, b: seq<Store.TweetRecord>)
    ensures PostedTexts(a + b) == PostedTexts(a) + PostedTexts(b)
  {
    if a != [] {
      assert (a + b)[0] == a[0];
      assert (a + b)[1..] == a[1..] + b;
      PostedTextsAppend(a[1..], b);
    } else {
      assert a + b == b;
    }
  }

  /** One record contributes its text exactly when it was posted. */
  lemma PostedTextsOne(x: Store.TweetRecord)
    ensures PostedTexts([x]) == if x.status == Store.Posted then [x.tweetText] else []
  {
    assert [x][1..] == [];
  }

  /** How many records the recent-text hint looks at. */
  const RecentWindow := 10

  /** `getRecentTweetTexts`: the posted texts among the campaign's 10 newest records. */
  function RecentTweetTexts(history: seq<Store.TweetRecord>, campaignId: int): (r: seq<string>)
    ensures |r| <= RecentWindow
    ensures r == PostedTexts(Store.Limit(Store.NewestFirst(history, Some(campaignId)), RecentWindow))
    ensures var window := Store.Limit(Store.NewestFirst(history, Some(campaignId)), RecentWindow);
            forall t :: t in r <==> exists x :: x in window && x.status == Store.Posted && x.tweetText == t
    ensures forall t :: t in r ==>
              exists x :: x in history && x.campaignId == campaignId && x.status == Store.Posted && x.tweetText == t
  {
    var newest := Store.NewestFirst(history, Some(campaignId));
    var window := Store.Limit(newest, RecentWindow);
    PrefixMembers(window, newest);
    PostedTexts(window)
  }

  /**
   * The text just posted for a campaign leads its next hint, so it is among
   * the first five the prompt shows.
   */
  lemma LatestPostLeadsHint(history: seq<Store.TweetRecord>, x: Store.TweetRecord)
    requires x.status == Store.Posted
    ensures var r := RecentTweetTexts(history + [x], x.campaignId);
            |r| >= 1 && r[0] == x.tweetText
  {
    var c := Some(x.campaignId);
    Store.NewestFirstAppend(history, x, c);
    var rest := Store.NewestFirst(history, c);
    var window := Store.Limit([x] + rest, RecentWindow);
    assert window == [x] + window[1..];
    PostedTextsAppend([x], window[1..]);
    PostedTextsOne(x);
  }

  /** Every element of a prefix is an element of the whole. */
  lemma PrefixMembers<T>(p: seq<T>, s: seq<T>)
    requires p <= s
    ensures forall x :: x in p ==> x in s
  {
    forall x | x in p ensures x in s {
      var i :| 0 <= i < |p| && p[i] == x;
      assert s[i] == x;
    }
  }

  /**
   * The hint filters to `posted` after taking the 10 newest records: ten
   * newer failures hide an older posted text.
   */
  lemma RecentHidesOlderPosts(older: Store.TweetRecord, failure: Store.TweetRecord)
    requires older.status == Store.Posted && failure.status == Store.Failed
    requires older.campaignId == failure.campaignId
    ensures var h := [older] + seq(RecentWindow, _ => failure);
            older.tweetText in PostedTexts(h) && RecentTweetTexts(h, failure.campaignId) == []
  {
    var fs := seq(RecentWindow, _ => failure);
    var h := [older] + fs;
    assert h[1..] == fs;
    assert older in h;
    ConstantNewestFirst(fs, failure);
    var newest := Store.NewestFirst(h, Some(failure.campaignId));
    assert newest == fs + [older];
    assert Store.Limit(newest, RecentWindow) == fs;
    ConstantFailedNoTexts(fs, failure);
  }

  /** A run of copies of one matching record comes back unchanged, newest first. */
  lemma {:induction false} ConstantNewestFirst(xs: seq<Store.TweetRecord>, x: Store.TweetRecord)
    requires forall i :: 0 <= i < |xs| ==> xs[i] == x
    ensures Store.NewestFirst(xs, Some(x.campaignId)) == xs
  {
    if xs != [] {
      ConstantNewestFirst(xs[1..], x);
      assert xs[1..] + [x] == xs;
    }
  }

  /** Failed records contribute no text. */
  lemma {:induction false} ConstantFailedNoTexts(xs: seq<Store.TweetRecord>, x: Store.TweetRecord)
    requires x.status == Store.Failed
    requires forall i :: 0 <= i < |xs| ==> xs[i] == x
    ensures PostedTexts(xs) == []
  {
    if xs != [] {
      ConstantFailedNoTexts(xs[1..], x);
    }
  }
}
