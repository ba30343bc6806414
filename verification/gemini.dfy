/**
 * The deterministic parts of server/gemini.js: `cleanTweet`, which tidies the
 * generated text, and the avoid-list context added to the prompt. The model
 * is a parameter: given the subject, the extra information and the avoid-list
 * context it answers with raw text or fails with an error message.
 */
module Gemini {
  import opened Text
  import opened Wrappers

  /** Generated text is cut to this many characters. */
  const MaxTweetLength := 200
  /** How many previous tweets the prompt lists. */
  const AvoidListSize := 5
  const AvoidHeader := "\n\nAvoid repeating these recent tweets:\n"

  predicate IsQuote(c: char) {
    c == '"' || c == '\''
  }

  /**
   * `replace(/^["']|["']$/g, '')`: one leading quote and one trailing quote are
   * removed; a lone quote character is removed once.
   */
  function StripQuotes(t: string): (r: string)
    ensures var lead := if |t| > 0 && IsQuote(t[0]) then 1 else 0;
            var trail := if |t| > lead && IsQuote(t[|t| - 1]) then 1 else 0;
            r == t[lead..|t| - trail]
  {
    var a := if |t| > 0 && IsQuote(t[0]) then t[1..] else t;
    if |a| > 0 && IsQuote(a[|a| - 1]) then a[..|a| - 1] else a
  }

  /** `cleanTweet`: trim, strip the quotes, then cut to 197 characters plus `...` when over 200. */
  function CleanTweet(text: string): (r: string)
    ensures |r| <= MaxTweetLength
    ensures var t := StripQuotes(Trim(text));
            |t| <= MaxTweetLength ==> r == t
    ensures var t := StripQuotes(Trim(text));
            |t| > MaxTweetLength ==> |r| == MaxTweetLength && r == t[..MaxTweetLength - 3] + "..."
  {
    var tweet := Trim(text);
    var tweet := StripQuotes(tweet);
    if |tweet| > MaxTweetLength then tweet[..MaxTweetLength - 3] + "..." else tweet
  }

  /** Text without surrounding white space or quotes that fits in 200 characters comes back unchanged. */
  lemma CleanTweetKeepsPlainText(t: string)
    requires |t| <= MaxTweetLength
    requires Trimmed(t)
    requires t != [] ==> !IsQuote(t[0]) && !IsQuote(t[|t| - 1])
    ensures CleanTweet(t) == t
  {
    TrimKeepsTrimmed(t);
    UnquotedKept(t);
  }

  lemma UnquotedKept(t: string)
    requires t != [] ==> !IsQuote(t[0]) && !IsQuote(t[|t| - 1])
    ensures StripQuotes(t) == t
  {
  }

  /** The first five previous tweets (`slice(0, 5)`), each as a `- ` bullet. */
  function Bullets(prev: seq<string>): (r: seq<string>)
    ensures |r| == if |prev| < AvoidListSize then |prev| else AvoidListSize
    ensures forall i :: 0 <= i < |r| ==> r[i] == "- " + prev[i]
  {
    var first := if |prev| < AvoidListSize then prev else prev[..AvoidListSize];
    seq(|first|, i requires 0 <= i < |first| => "- " + first[i])
  }

  /** `previousContext`: empty without previous tweets, else the header and the bullets, one per line. */
  function PreviousContext(prev: seq<string>): (r: string)
    ensures prev == [] <==> r == ""
    ensures prev != [] ==> StartsWith(r, AvoidHeader)
  {
    if |prev| > 0 then AvoidHeader + Join(Bullets(prev), "\n") else ""
  }

  /** Only the first five previous tweets affect the context. */
  lemma ContextUsesFirstFive(prev: seq<string>, other: seq<string>)
    requires |prev| >= AvoidListSize && |other| >= AvoidListSize
    requires prev[..AvoidListSize] == other[..AvoidListSize]
    ensures PreviousContext(prev) == PreviousContext(other)
  {
    assert Bullets(prev) == Bullets(other);
  }

  /** The language model: raw text for (subject, extra information, avoid-list context), or an error. */
  type Model = (string, string, string) -> Result<string, string>

  /**
   * `generateTweet`: asks the model with the avoid-list built from the
   * previous tweets and cleans its answer; a model error is passed on.
   */
  function GenerateTweet(model: Model, subject: string, extraInfo: string, prev: seq<string>): (r: Result<string, string>)
    ensures model(subject, extraInfo, PreviousContext(prev)).Failure? <==> r.Failure?
    ensures r.Failure? ==> r.error == model(subject, extraInfo, PreviousContext(prev)).error
    ensures r.Success? ==> |r.value| <= MaxTweetLength
    ensures r.Success? ==> r.value == CleanTweet(model(subject, extraInfo, PreviousContext(prev)).value)
  {
    match model(subject, extraInfo, PreviousContext(prev))
    case Failure(e) => Failure(e)
    case Success(raw) => Success(CleanTweet(raw))
  }

  /** The generated text depends on the previous tweets only through the first five. */
  lemma GenerationSeesFirstFive(model: Model, subject: string, extraInfo: string, prev: seq<string>, other: seq<string>)
    requires |prev| >= AvoidListSize && |other| >= AvoidListSize
    requires prev[..AvoidListSize] == other[..AvoidListSize]
    ensures GenerateTweet(model, subject, extraInfo, prev) == GenerateTweet(model, subject, extraInfo, other)
  {
    ContextUsesFirstFive(prev, other);
  }
}
