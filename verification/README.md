# twitter-auto-poster: a Dafny model of the campaign scheduler

twitter-auto-poster runs one "campaign" at a time. A campaign has a subject, up
to five hashtags, a minimum and maximum posting interval and a duration in
days. While it runs, a timer checks once a minute whether a post is due. When
one is, the server asks a language model for a short text, adds up to three of
the campaign's hashtags, publishes the message and records the attempt in an
append-only history. The next post is then scheduled a random interval later.
A campaign stops when its duration has passed or when the user stops it.
Starting one campaign stops whichever other campaign is running.

This project models the core of that system in Dafny:

- `wrappers.dfy`: `Option` and `Result`.
- `text.dfy`: the JavaScript string operations the core relies on (`trim`, `join`, decimal rendering).
- `store.dfy`: the SQLite store of `server/database.js`.
  - The campaigns table is a map from id to row; the tweet history is a sequence; the credentials are one row.
  - Every UPDATE is a function whose contract names the one row and the columns it touches.
  - The `Database` class applies those functions in place.
  - The history query is the row-by-row collection loop of `getAll`.
- `compose.dfy`: the pure helpers of `server/scheduler.js`.
  - hashtag selection, driven by an injected sequence of random picks;
  - the random interval, driven by an injected `Math.random()` fraction;
  - the 280-character message;
  - the recent-text hint.
- `gemini.dfy`: `cleanTweet` and the avoid-list context of `server/gemini.js`. The language model is an oracle that returns text or an error.
- `scheduler.dfy`: the scheduling state machine of `server/scheduler.js`.
  - Each operation is a function on the store's tables (`World`), and its properties are proved there: the one-minute tick, start, stop, post-now and status.
  - The `Scheduler` class carries each operation out against the `Database`, together with the `isRunning` guard and the installed-timer flag.
  - Each method's postcondition ties the new database state to the function.
- `routes.dfy`: the campaign endpoints of `server/routes/campaigns.js`: the create and update validation chains, hashtag cleaning, the refusal to edit a running campaign and the credentials gate on start and post-now.
- `client.dfy`: the browser logic of `public/js/app.js`: the hashtag list edited in place, the countdown text and the checks `saveCampaign` runs before sending.

Conventions:

- Times are integer milliseconds. Interval fields are milliseconds, i.e. hours times 3600000.
- A request field that is missing or `null` is `None`.
- Text generation and publishing are parameters that either return a value or fail with an error message.
- The clock readings are parameters too (`Clock.now` when a tick starts, `Clock.after` once its post attempt is over).

Where the code departs from its own messages and comments, the model follows the code:

- Create answers "Maximum interval must be greater than minimum" (server/routes/campaigns.js:51) but accepts a maximum equal to the minimum (`Routes.CreateAcceptsEqualBounds`).
- Update is commented "Validation (same as create)" (server/routes/campaigns.js:95) but checks only the subject and the hashtags (`Routes.UpdateSkipsIntervalChecks`).
- Post-now posts for a stopped campaign and bypasses the `isRunning` guard (`Scheduler.PostNowIgnoresStatus`, `Scheduler.Scheduler.PostNow`).
- The recent-text hint keeps the posted texts among the ten newest records, not the ten newest posted texts (`Compose.RecentHidesOlderPosts`).
- The server removes `#` before trimming, while the client trims first. Cleaning removes only one `#` per save (`Routes.CleaningTwiceStripsAgain`).

## Model

| member | source | states |
|---|---|---|
| Text.Trim | server/gemini.js:77 | `trim` keeps the slice of the input between its leading and trailing white space: the result is a slice `s[i..j]` with only white space before `i` and after `j`, has no white space at either end, and is empty exactly when the input is all white space |
| Text.Join | server/scheduler.js:57 | `join`: no items give the empty string, one item gives itself, and the length is the items' lengths plus one separator between neighbours |
| Text.Split | server/scheduler.js:57 | the pieces of a text between occurrences of a character: at least one piece, none containing that character |
| Text.JoinSnoc | server/scheduler.js:57 | joining one more piece appends the separator and that piece; with the one-item case this fixes the content of every join, for any pieces |
| Text.SplitJoin | server/scheduler.js:57 | joining pieces that do not contain `c` with `c` and splitting at `c` gives back exactly those pieces, in order |
| Text.Decimal | public/js/app.js:62-65 | `${n}` of a non-negative integer: a non-empty string of decimal digits with no leading zero |
| Text.DecimalRoundTrip | public/js/app.js:62-65 | reading the printed digits back gives the number |
| Store.OrNull | server/database.js:285-287 | `x \|\| null`: present exactly when the input is a non-empty string, and then equal to it |
| Store.NewRow | server/database.js:173-190 | the inserted row has the new id and the requested columns, `extra_info` defaulting to `''`, and is stopped with no start and no due time |
| Store.EditRow | server/database.js:192-213 | only row `id` changes; it gets the requested editable columns and keeps its status, start and due time; an unknown id changes nothing |
| Store.StartRow | server/database.js:243-253 | only row `id` changes; it becomes running, started now and due at `next`, with its editable columns kept |
| Store.StopRow | server/database.js:255-264 | only row `id` changes; it becomes stopped with no due time and keeps its start time and editable columns |
| Store.SetNextRow | server/database.js:266-274 | only the due time of row `id` changes |
| Store.StopIdempotent | server/database.js:255-264 | stopping twice is stopping once |
| Store.StopRunning | server/database.js:255-264 | after a stop, the running ids are the previous ones minus `id` |
| Store.StartRunning | server/database.js:243-253 | after a start, the running ids are the previous ones plus `id` |
| Store.NewRowNotRunning | server/database.js:173-190 | inserting a new campaign never adds a running row |
| Store.EditKeepsRunning | server/database.js:192-213 | editing a campaign leaves every row's status alone |
| Store.LatestRunning | server/database.js:225-233 | the scan finds no row exactly when no scanned row runs; a found row runs and no running row started later |
| Store.NoneWhenNoneRunning | server/database.js:225-233 | when the scan covers every id, it finds nothing exactly when no row is running |
| Store.Active | server/database.js:225-233 | over a consistent store: none exactly when no row runs, else a running row with the greatest start time |
| Store.ActiveIsTheRunningOne | server/database.js:225-233 | when exactly one row runs, it is the active campaign |
| Store.NewestFirstAppend | server/database.js:310-322 | a record appended to the history comes first in the newest-first listing when it matches the filter, ahead of the earlier listing |
| Store.NewestFirst | server/database.js:310-322 | the selected records are exactly the history records of the requested campaign (or all of them), no more than the history holds |
| Store.Limit | server/database.js:310-322 | `LIMIT n` keeps a prefix of at most `n` rows, and all of them when `n` is negative or large enough |
| Store.NewestFirstDescending | server/database.js:310-322 | over a history with increasing ids, the listing has strictly decreasing ids (newest first) |
| Store.LimitedNewestFirstDescending | server/database.js:295-322 | a limited listing of a history numbered 1, 2, ... has strictly decreasing ids |
| Store.ToRecord | server/database.js:277-293 | the stored record copies the fields of the new tweet, stores a falsy tweet id or error message as NULL, and is stamped with the insertion time |
| Store.Database.constructor | server/database.js:50-65 | a fresh database has empty tables, no credentials and satisfies the store invariant |
| Store.Database.CreateCampaign | server/database.js:173-190 | inserts `NewRow` under the next AUTOINCREMENT id, which was free, and returns it; other rows, the history and the credentials are unchanged; the running set is unchanged; the invariant is kept |
| Store.Database.UpdateCampaign | server/database.js:192-213 | the table becomes `EditRow` of the old one and the running set is unchanged; nothing else changes |
| Store.Database.GetCampaign | server/database.js:215-223 | the row stored under `id`, or none exactly when there is no such row |
| Store.Database.GetActiveCampaign | server/database.js:225-233 | the active campaign of the current tables |
| Store.Database.StartCampaign | server/database.js:243-253 | the table becomes `StartRow` of the old one; nothing else changes |
| Store.Database.StopCampaign | server/database.js:255-264 | the table becomes `StopRow` of the old one; nothing else changes |
| Store.Database.UpdateNextTweetTime | server/database.js:266-274 | the table becomes `SetNextRow` of the old one; nothing else changes |
| Store.Database.AddTweetHistory | server/database.js:277-293 | appends exactly one record with the next id and returns that id; earlier records and the campaigns are unchanged |
| Store.Database.QueryHistory | server/database.js:122-131 | the row-by-row loop returns the matching records newest first, cut to the limit |
| Store.Database.TweetHistory | server/database.js:295-308 | all records newest first, at most `limit`, with strictly decreasing ids over a consistent store |
| Store.Database.TweetHistoryByCampaign | server/database.js:310-322 | at most `limit` records, each a history record of campaign `c`, newest first with strictly decreasing ids |
| Store.Database.CredentialsPresent | server/database.js:167-170 | `hasCredentials` holds exactly when the Twitter API key and the Gemini API key are both non-empty |
| Compose.RandomInterval | server/scheduler.js:20-24 | with min ≤ max the interval lies in [min, max] |
| Compose.EveryIntervalReachable | server/scheduler.js:20-24 | every value of [min, max] is the interval for some draw of `Math.random()` |
| Compose.NextTweetTime | server/scheduler.js:27-30 | the next tweet time lies in [now + min, now + max] |
| Compose.Shuffle | server/scheduler.js:15 | the shuffle is a permutation of its input |
| Compose.SelectRandomHashtags | server/scheduler.js:10-17 | at most `count` tags come back unchanged; otherwise exactly `count` taken from the front of a permutation; never more of a tag than the input holds |
| Compose.SelectedFromInput | server/scheduler.js:15-16 | every selected tag is one of the campaign's |
| Compose.SelectedDistinct | server/scheduler.js:15-16 | without repeated input tags, no tag is selected twice |
| Compose.WithHash | server/scheduler.js:57 | a tag is prefixed with `#` only when it lacks one |
| Compose.MapWithHash | server/scheduler.js:57 | every selected tag is `#`-prefixed, in order |
| Compose.HashtagString | server/scheduler.js:57 | no tags give the empty string; a single tag gives that tag `#`-prefixed |
| Compose.HashtagStringSplits | server/scheduler.js:57 | for tags without spaces, splitting the tag block at spaces gives back each selected tag, `#`-prefixed, in order |
| Compose.ComposeTweet | server/scheduler.js:60-66 | body, space and tags when they fit in 280; else the body cut to 280 − \|tags\| − 4, `"... "` and the tags, exactly 280 long when \|tags\| ≤ 276; always ends with the tags |
| Compose.PostedTexts | server/scheduler.js:35-37 | at most one text per row; every text comes from a posted row and every posted row's text is present |
| Compose.PostedTextsAppend | server/scheduler.js:35-37 | the filter-then-map keeps order: the texts of two runs of rows are the texts of the first run followed by those of the second |
| Compose.PostedTextsOne | server/scheduler.js:35-37 | one row contributes its text exactly when it was posted, so with `PostedTextsAppend` the result is the posted texts in order, one per posted row |
| Compose.RecentTweetTexts | server/scheduler.js:33-38 | the posted texts, in order, of the campaign's 10 newest records listed newest first (`PostedTexts` of that window); at most 10 texts; a text is in the hint exactly when a `posted` record of the window carries it; every hint text is a posted text of this campaign |
| Compose.LatestPostLeadsHint | server/scheduler.js:33-38 | after a posted record is appended, its text is the first of the campaign's next hint, so it is among the five the prompt lists |
| Compose.RecentHidesOlderPosts | server/scheduler.js:33-38 | ten newer failures hide an older posted text from the hint |
| Gemini.StripQuotes | server/gemini.js:79 | exactly one leading and one trailing quote character are removed, each only if present |
| Gemini.CleanTweet | server/gemini.js:76-85 | never longer than 200; trimmed and unquoted text of at most 200 is returned as is; longer text becomes its first 197 characters and `...`, exactly 200 long |
| Gemini.CleanTweetKeepsPlainText | server/gemini.js:76-85 | text of at most 200 characters with no surrounding white space or quotes comes back unchanged |
| Gemini.Bullets | server/gemini.js:35 | the first five previous tweets, each as a `- ` bullet |
| Gemini.PreviousContext | server/gemini.js:34-36 | empty exactly when there are no previous tweets, else it starts with the avoid-list header |
| Gemini.ContextUsesFirstFive | server/gemini.js:34-36 | two lists that agree on their first five tweets give the same context |
| Gemini.GenerateTweet | server/gemini.js:28-74 | fails exactly when the model fails, with its error; otherwise the model's answer cleaned, at most 200 characters |
| Gemini.GenerationSeesFirstFive | server/gemini.js:34-36 | generation depends on the previous tweets only through the first five |
| Scheduler.Attempt | server/scheduler.js:41-99 | generation (`Generated`: the model called with the subject, extra info and the campaign's recent posted texts) and the entry: `posted` exactly when generation and publishing both succeed, carrying the composed message, the selected tags and the remote id; otherwise `failed` with the fixed text, no tags and no remote id, recording the generator's error when generation failed and the publisher's error when publishing failed |
| Scheduler.ExpiresAt | server/scheduler.js:110-111 | the expiry is the start plus the duration in days, a missing start counting as time 0; with a duration of at least one day it is at least a day after the start |
| Scheduler.Message | server/scheduler.js:57-66 | the message ends with the tag block, fits in 280 characters when the block is at most 276 long, and is the text, a space and the block when they fit |
| Scheduler.PostedHashtags | server/scheduler.js:55-66 | a posted entry carries at most three of the campaign's tags and its text ends with them |
| Scheduler.PostedMessageFits | server/scheduler.js:62-66 | a posted message fits in 280 characters when the tag block is at most 276 long |
| Scheduler.PostedTextKeepsGenerated | server/scheduler.js:59-66 | with a tag block of at most 79 characters the generated text is posted uncut |
| Scheduler.Append | server/scheduler.js:74-95 | one record is appended under the next id; the campaigns are unchanged |
| Scheduler.AppendConsistent | server/database.js:277-293 | appending keeps the store invariant |
| Scheduler.Tick | server/scheduler.js:102-134 | a tick never changes the next campaign id; it reports no active campaign exactly when there is none; only an attempt touches the history; an idle or not-due tick changes nothing; an expiry applies `StopRow` to that campaign |
| Scheduler.TickIdle | server/scheduler.js:103-108 | with no running campaign a tick changes nothing |
| Scheduler.TickExpires | server/scheduler.js:110-118 | an expired campaign is stopped and nothing is posted, even when due; no other row and no history changes |
| Scheduler.TickPostsOnceAndReschedules | server/scheduler.js:121-133 | a due campaign gets exactly one new history entry, the record of `Attempt` for it stamped with the clock reading after the attempt, and is rescheduled within [after + min, after + max] whatever the outcome; only its row changes and it keeps running |
| Scheduler.TickNotDue | server/scheduler.js:120-133 | a campaign neither expired nor due is left alone |
| Scheduler.TickInvariant | server/scheduler.js:102-134 | a tick keeps the store invariant, never starts a campaign and keeps at most one running |
| Scheduler.SetNextRunning | server/scheduler.js:129-130 | rescheduling changes no row's status |
| Scheduler.TickAppendsAtMostOne | server/scheduler.js:102-134 | the history only grows, by one entry exactly when a post was attempted |
| Scheduler.StartUnknown | server/scheduler.js:165-168 | starting an unknown id fails |
| Scheduler.Start | server/scheduler.js:164-186 | fails exactly for an unknown id, with "not found"; otherwise it stops the other running campaign (`StopOther`) and starts this one; a start never touches the history or the next campaign id, and its first due time lies in [now + min, now + max] |
| Scheduler.StopOtherFacts | server/scheduler.js:170-174 | with at most one running, `StopOther` (stopping the active campaign when it is another one) leaves no running row but `id`, stops the displaced runner with its due time cleared and start kept, and leaves every other row alone |
| Scheduler.StartTakesOver | server/scheduler.js:164-186 | starting leaves exactly that campaign running, started now, first due in [now + min, now + max]; the invariant is kept |
| Scheduler.StartKeepsOthers | server/scheduler.js:170-178 | starting leaves the history, the set of rows and all editable columns alone; the displaced runner is stopped with its due time cleared and its start kept; every other stopped row is untouched |
| Scheduler.NoPostBeforeFirstInterval | server/scheduler.js:176-178 | a tick sooner than the minimum interval after a start posts nothing |
| Scheduler.Stop | server/scheduler.js:189-194 | stopping changes only the campaigns table, by `StopRow` |
| Scheduler.StopInvariant | server/scheduler.js:189-194 | stopping keeps the invariant, removes `id` from the running ids and is idempotent |
| Scheduler.PostNowResult | server/scheduler.js:197-204 | an unknown id fails; otherwise exactly one attempt is appended, reporting whether it was posted |
| Scheduler.PostNowIgnoresStatus | server/scheduler.js:197-204 | a stopped campaign still gets a post and its row is untouched |
| Scheduler.Report | server/scheduler.js:207-223 | reports whether the timer is installed; an active campaign exactly when one runs, with that row's subject, running status, start and due time, and an expiry exactly when it has a start, start plus duration |
| Scheduler.AttemptPost | server/scheduler.js:44-97 | the step-by-step attempt (with `fullTweet` reassigned) produces the entry `Attempt` specifies |
| Scheduler.Scheduler.constructor | server/scheduler.js:6-7 | over a store with at most one running campaign: no timer installed, the guard released, the scheduler invariant established |
| Scheduler.Scheduler.Initialize | server/scheduler.js:137-161 | the timer is installed and the guard is untouched |
| Scheduler.Scheduler.PostTweet | server/scheduler.js:41-99 | appends exactly the entry `Attempt` gives and returns whether it was posted; the campaigns and the credentials are unchanged; at most one campaign keeps running |
| Scheduler.Scheduler.RecentTexts | server/scheduler.js:33-38 | reading the campaign's ten newest records through the database gives `RecentTweetTexts` |
| Scheduler.Scheduler.CheckScheduledTweets | server/scheduler.js:102-134 | the database and the outcome are those of `Tick`; the credentials are unchanged; at most one campaign keeps running |
| Scheduler.Scheduler.TimerFired | server/scheduler.js:144-158 | skipped with no change to the tables or the credentials while a check runs; otherwise the database and outcome are those of one `Tick`, with the credentials unchanged and the guard back to its previous value |
| Scheduler.Scheduler.StartCampaign | server/scheduler.js:164-186 | fails with no change to the tables or the credentials on an unknown id; otherwise the database becomes `Start`'s tables and the first due time is returned; the credentials are unchanged and at most one campaign runs |
| Scheduler.Scheduler.StopCampaign | server/scheduler.js:189-194 | the database becomes `Stop`'s tables; the credentials are unchanged |
| Scheduler.Scheduler.PostNow | server/scheduler.js:197-204 | the database and the result are those of `PostNowResult`; the credentials are unchanged |
| Scheduler.Scheduler.GetStatus | server/scheduler.js:207-223 | the report of the current tables |
| Routes.StripHash | server/routes/campaigns.js:60 | one leading `#` is removed, only when present |
| Routes.CleanTag | server/routes/campaigns.js:60 | a tag starting with `#` is stored as the rest of it trimmed, any other tag as itself trimmed; the result is no longer than the input and has no white space at either end |
| Routes.CleanHashtags | server/routes/campaigns.js:60 | no more tags than given; none empty and none with white space at either end |
| Routes.CleanKeepsEveryTag | server/routes/campaigns.js:60 | every tag that is non-empty once cleaned is kept, cleaned |
| Routes.CleanKeepsOnlyInputTags | server/routes/campaigns.js:60 | every kept tag is the cleaned form of an input tag |
| Routes.CleanHashtagsAppend | server/routes/campaigns.js:60 | cleaning keeps the order: it distributes over concatenation |
| Routes.CleanOne | server/routes/campaigns.js:60 | a one-tag list cleans to its cleaned tag, or to nothing |
| Routes.CleanTagStripsOneHash | server/routes/campaigns.js:60 | `#` in front of a trimmed tag is removed |
| Routes.CleanTagIdempotent | server/routes/campaigns.js:108 | a cleaned tag that does not start with `#` cleans to itself |
| Routes.CleaningTwiceStripsAgain | server/routes/campaigns.js:108 | `##a` is stored as `#a`, and saving it again stores `a` |
| Routes.CleaningCanEmpty | server/routes/campaigns.js:60 | a non-empty list can clean to an empty one |
| Routes.CheckSubjectAndHashtags | server/routes/campaigns.js:35-45 | no error exactly when the subject is non-blank and there are 1 to 5 hashtags; a blank subject is reported first |
| Routes.ExtraInfo | server/routes/campaigns.js:64 | the trimmed extra information, or `''` when missing |
| Routes.ValidateCreate | server/routes/campaigns.js:35-57 | accepted exactly when the subject and hashtag checks pass, min ≥ 0.5 h, max ≥ min and duration ≥ 1; errors are 400s, the subject and hashtag errors first; an accepted request yields `SpecOf` of it: the trimmed subject, the extra info as `ExtraInfo` gives it, the cleaned hashtags and the three numbers as sent |
| Routes.CreateAcceptsEqualBounds | server/routes/campaigns.js:51-53 | equal minimum and maximum are accepted |
| Routes.ValidateUpdate | server/routes/campaigns.js:96-117 | only the subject and hashtag checks give 400s; a missing number fails as a 500 at the UPDATE; any present numbers are written as given |
| Routes.UpdateAcceptsWhatCreateAccepts | server/routes/campaigns.js:95-117 | every request create accepts, update accepts with the same columns |
| Routes.UpdateSkipsIntervalChecks | server/routes/campaigns.js:95-106 | a zero minimum, a maximum below it and a zero duration are refused by create and written by update |
| Routes.GetCampaign | server/routes/campaigns.js:17-27 | the row, or 404 exactly when the id is unknown |
| Routes.Create | server/routes/campaigns.js:30-77 | a refused request writes nothing and returns its 400; an accepted one inserts the new row under the next id and returns it; the credentials and the running set are unchanged |
| Routes.Update | server/routes/campaigns.js:80-125 | 404 for an unknown id and 400 for a running campaign, writing nothing; then the update checks; only a request that passes them all rewrites the row's editable columns; the credentials and the running set are unchanged |
| Routes.Start | server/routes/campaigns.js:128-144 | without credentials a 400 and no change; otherwise the scheduler's start, an unknown id giving a 500; the credentials are never changed |
| Routes.Stop | server/routes/campaigns.js:147-156 | always succeeds, with the scheduler's stop applied and the credentials unchanged |
| Routes.PostNow | server/routes/campaigns.js:159-178 | without credentials a 400 and no change; an unknown id a 500; otherwise the database becomes `PostNowResult`'s and the reply carries its success flag and the matching message; the credentials are never changed |
| Client.NormalizeTag | public/js/app.js:397 | the input is trimmed, then one leading `#` is removed |
| Client.AddTag | public/js/app.js:396-410 | a tag is appended exactly when it is non-empty, the list has fewer than 5 and does not hold it; otherwise the list is unchanged and the reason is reported |
| Client.Without | public/js/app.js:413 | every occurrence of the tag is removed and only those |
| Client.WithoutAppend | public/js/app.js:413 | removal keeps the order of the other tags |
| Client.AddKeepsWellFormed | public/js/app.js:396-410 | adding keeps at most 5 tags, none empty, none twice |
| Client.RemoveKeepsWellFormed | public/js/app.js:412-415 | removing keeps the list well formed |
| Client.WithoutKeepsDistinct | public/js/app.js:413 | removal keeps the tags distinct |
| Client.AddIdempotent | public/js/app.js:403-406 | adding the same tag twice is adding it once |
| Client.RemoveUndoesAdd | public/js/app.js:396-415 | removing a tag just added restores the list |
| Client.HashtagEditor.constructor | public/js/app.js:482 | the list starts empty |
| Client.HashtagEditor.AddHashtag | public/js/app.js:396-410 | the list and the outcome are those of `AddTag` |
| Client.HashtagEditor.RemoveHashtag | public/js/app.js:412-415 | the list becomes `Without` of the old one |
| Client.TimeUntil | public/js/app.js:51-61 | no date, `Now` exactly when the target is past, else whole hours and minutes (minutes below 60) rounded down |
| Client.TotalMinutes | public/js/app.js:59-60 | hours and minutes together count the whole minutes left |
| Client.FormatTimeUntil | public/js/app.js:51-66 | `--` exactly without a date, `Now` exactly for a past target, otherwise text ending in `m` |
| Client.HoursShownFromOneHour | public/js/app.js:62-65 | the hours appear exactly when at least one hour is left |
| Client.CheckForm | public/js/app.js:443-457 | no error exactly when the subject is non-blank, a tag is present and min is not at or above max; a blank subject is reported first |
| Client.RequestOf | public/js/app.js:434-441 | the request carries the trimmed subject and extra information, the current tags, the parsed bounds and the parsed duration |
| Client.ClientRejectsEqualBounds | public/js/app.js:454-457 | the client refuses equal bounds that the server's create accepts |
| Client.ClientPassesMissingMinimum | public/js/app.js:454-457 | an unparsable minimum passes the client and is refused by the server |
| Client.ClientStrictBounds | public/js/app.js:454-457 | whenever both bounds are numbers, an accepted form has min strictly below max |

## Left out

- The node-cron timer and async scheduling. The timer callback is the method `TimerFired`, and the model has no real concurrency.
- Date objects, ISO strings and time zones. Every time is an integer in milliseconds, and the clock is a parameter. Each tick reads its clock once at the start: both the expiry check and the due check use that reading, whereas the source reads `new Date()` for each.
- `started_at` is written as SQLite `datetime('now')`, a UTC time at one-second resolution, and read back by `new Date` as local time. The model stores the start time exactly.
- Floating-point hours and `parseFloat`/`parseInt`. Interval fields are integer milliseconds and the duration is a whole number of days. A value that does not parse is a missing field.
- `parseInt` of the route id. Ids are integers.
- Bodies whose `hashtags` is not an array or whose `subject` is not a string. The request fields are typed.
- String lengths count characters, not UTF-16 code units.
- sql.js, `saveDatabase`/`initDatabase` file persistence and the JSON encoding of hashtag lists. The tables live in memory.
- Exceptions thrown by the database. The try/catch paths that only turn them into a 500 or a failed history entry are not modelled.
- The `created_at`/`updated_at` columns, `getAllCampaigns` (ordered by `created_at`) and the `campaign_subject` join of `getTweetHistory`.
- `posted_at` ordering: newest first is reverse insertion order. This agrees with `posted_at` when the clock does not go backwards. Ties are left unordered by SQL.
- `getActiveCampaign` ties on `started_at`: SQL leaves the order open, and the model picks the lowest id.
- Credential storage, encryption and decryption (CryptoJS). The credentials row is given already decrypted.
- The Gemini and Twitter SDK calls are oracles.
  - Model fallback, the combined error text and the prompt wording other than the avoid-list context are not modelled.
  - server/twitter.js is not part of this model.
- The random shuffle is an injected sequence of picks, and `Math.random()` is an injected fraction num/den in [0, 1).
- DOM rendering, toasts, `fetch`, and the load of a campaign's tags into `currentHashtags` when it is edited (public/js/app.js:499).
- server/index.js, server/routes/tweets.js and server/routes/credentials.js.
- Scheduler.Attempt: does not model an exception from the history query at the start of the `try`, which would also give a failed entry.
- Store.Database.TweetHistory: orders by insertion rather than by the `posted_at` column. The ids decrease along the result.
- Client.FormatTimeUntil: states the shape of the text (`--`, `Now`, ending in `m`, hours present from one hour on) rather than the exact digits. The digits are those of `Text.Decimal`.
- Routes.CleanTagIdempotent: holds only for cleaned tags that do not start with `#`. In general cleaning is not idempotent (`Routes.CleaningTwiceStripsAgain`).
- Store.Database.StartCampaign: states only its own UPDATE. `startCampaign` in server/database.js:243-253 does not stop other rows, so "at most one campaign running" is not an invariant of the store. It is part of `Scheduler.Scheduler.Valid`: every scheduler method and route handler keeps it, and `Store.Database.CreateCampaign` and `Store.Database.UpdateCampaign` leave the running set unchanged.
- Text.Join: its own contract gives the length and the zero- and one-item cases; the content for any pieces follows from the lemma `Text.JoinSnoc`, and the round trip `Text.SplitJoin` holds only for pieces without the separator (a cleaned tag may keep an inner space, so a tag block need not split back into its tags).
- Scheduler.Clock: `after` is not required to be at or past `now`, because no stated property needs a clock that moves forward. Rescheduling is bounded relative to `after` (`Scheduler.TickPostsOnceAndReschedules`).
