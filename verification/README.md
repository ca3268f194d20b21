# Birthday Challenge Zone — a Dafny model of its pure logic

The Birthday Challenge Zone is a browser app for a birthday party. Guests get
challenges to complete (some "with" or "vs" Brian), judge cocktails, sign a
guestbook, RSVP to events and collect achievements. Two small servers stand
in front of the static files and rewrite extensionless URLs to `.html` pages:
a Python one (`serve.py`) and an Express one (`server.js`). A few Express
routes serve and update user profiles.

Most of the JavaScript wires the DOM to Supabase and Firebase. Inside that
wiring sits a good deal of pure logic, and this project models that logic in
Dafny and proves what it promises:

- **Clean-URL path resolution** in `serve.py` and `server.js` (`CleanUrls`,
  `ExpressClean`), and where the two rules disagree (`CleanUrlContrast`).
- **String codecs and validators:** US phone formatting and E.164 conversion
  (`PhoneFormat`), the second phone normaliser in the Firebase service
  (`FirebaseAuth`), `formatAndEscapeText` (`TextFormat`), the UUID shape check
  and the profile lookup (`UserProfileRoute`), the 401/403/400 chain of the
  profile API (`ApiUsersRoute`), and the server helpers (`ServerUtils`).
- **Game and scoring rules:** cocktail scores and the single favorite
  (`CocktailJudging`), contest points (`ContestPlacement`), the dashboard's
  reveal/lock rules and card reconciliation (`Dashboard`, `ChallengeCard`),
  Brian outcomes and the scoreboard (`BasePage`), achievements
  (`Achievements`), the assignment version hash and its optimistic lock
  (`Sorting`, `Base64`, `AssignmentService`), and admin change detection
  (`AdminApprovals`).
- **Small state machines:** the GIF stepper (`GifStepper`), the music player
  (`MusicPlayer`), the feature-flag cache (`FeatureFlags`), the audio manager
  (`Audio`), the navigation bar and bottom menu (`Navigation`, `BottomMenu`),
  the login steps (`LoginPage`), the guestbook (`Guestbook`) and challenge
  submission (`ChallengesSubmit`).
- **Formatting:** day ordinals, 12-hour times and RSVP buttons on event cards
  (`EventCard`), and the RSVP list and tally (`UserEvents`).

Every handler is a pure transition on an immutable record. What the app gets
from outside — database replies, SDK outcomes, file existence, the clock,
`localStorage` — is a parameter: a `Result`, an `Option`, a `bool`, a
function or a finite `map`. JavaScript truthiness of an optional string is
"present and non-empty". `Strings` holds the shared string helpers (ASCII
digits, JavaScript `trim`, joining). `JsMath` holds JavaScript's `%` and
`parseInt` without a radix: decimal digits, or hexadecimal digits after a
`0x` prefix.

## Model

| member | source | states |
|---|---|---|
| TextFormat.ReplaceChar | js/utils/text-format.js:16-19 | one `split(c).join(rep)` step: no effect when `c` is absent, removes `c` when `rep` lacks it, introduces nothing but input characters and `rep` |
| TextFormat.ReplaceAppend | js/utils/text-format.js:16-19 | a split/join step distributes over concatenation, so it works character by character |
| TextFormat.EscapedIsOnePass | js/utils/text-format.js:16-21 | the five chained replacements equal a one-pass escaper: each `&` becomes exactly `&amp;`, and the entities that later steps introduce are never escaped again |
| TextFormat.CollapseSpaces | js/utils/text-format.js:23 | the space-run rewrite keeps a leading non-space character and maps only `""` to `""` |
| TextFormat.FormatAndEscapeText | js/utils/text-format.js:11-24 | a falsy input gives `""` and any other input a non-empty result; the output has no `"` and no newline, has `<` and `>` only inside `<br>`, and never has two adjacent spaces |
| TextFormat.FormatIsOnePass | js/utils/text-format.js:14-23 | the whole pipeline is the one-pass escaper followed by the space-run rewrite |
| TextFormat.EscapeAllSafe | js/utils/text-format.js:16-21 | the escaped text is safe HTML: no quote or newline, and angle brackets only in `<br>` |
| TextFormat.CollapseKeepsSafe | js/utils/text-format.js:23 | the space-run rewrite keeps text safe |
| TextFormat.CollapseNoDoubleSpace | js/utils/text-format.js:23 | after the space-run rewrite no two spaces are adjacent |
| TextFormat.SpaceRunRendered | js/utils/text-format.js:23 | a run of k ≥ 1 spaces becomes k-1 `&nbsp;` and one space, and the rest is rewritten independently |
| PhoneFormat.FormatPhoneInput | js/utils/phone-format.js:11-24 | the output length follows the digit count (none, `(`+1-3, `(ddd) `+1-3, `(ddd) ddd-`+1-4), it is at most 14 characters, it is empty iff the input has no digit, and otherwise it starts with `(` |
| PhoneFormat.ToE164 | js/utils/phone-format.js:32-40 | the error is "Phone number must be exactly 10 digits"; a success is `+1` followed by exactly the input's digits |
| PhoneFormat.GroupedDigits | js/utils/phone-format.js:15-23 | the layout adds punctuation only: the digits read back are the digits laid out |
| PhoneFormat.FormatKeepsDigits | js/utils/phone-format.js:12-23 | the formatted text carries exactly the input's first ten digits, in order |
| PhoneFormat.FormatIdempotent | js/utils/phone-format.js:11-24 | formatting twice is formatting once |
| PhoneFormat.ValidIffConverts | js/utils/phone-format.js:32-50 | `isValidUSPhone` holds exactly when `toE164Format` does not throw |
| PhoneFormat.E164OfFormatted | js/utils/phone-format.js:11-40 | with ten or more digits, converting the formatted text gives `+1` and the first ten digits, so an eleventh digit is lost |
| FirebaseAuth.NormalizeForOtp | js/services/firebase-auth.js:111-123 | fewer than ten digits is the format error; exactly ten give `+1`+digits; more than ten give `+`+digits whatever the first digit, because `startsWith("")` always holds |
| FirebaseAuth.NormalizeE164Fixed | js/services/firebase-auth.js:111-118 | normalising any `toE164Format` result leaves it unchanged |
| FirebaseAuth.SendOtp | js/services/firebase-auth.js:105-187 | every failure surfaces as the one generic message; success iff the number normalises, a verifier is set, reCAPTCHA renders and verifies, and the SDK confirms; success stores the confirmation; without a verifier nothing changes and no SMS is requested; a failed SDK call drops the verifier |
| FirebaseAuth.VerifyOtp | js/services/firebase-auth.js:194-209 | without a stored confirmation the result is "No confirmation result"; otherwise it is the SDK's check of the code against that confirmation |
| FirebaseAuth.SignOut | js/services/firebase-auth.js:222-231 | a successful sign-out clears the confirmation and keeps the verifier; a failed one changes nothing and is rethrown |
| FirebaseAuth.VerifyAfterSignOut | js/services/firebase-auth.js:194-231 | after a successful sign-out every verification fails until a new code is sent |
| FirebaseAuth.VerifyAfterSend | js/services/firebase-auth.js:162-204 | after a successful send, verification consults exactly the confirmation that send returned |
| FeatureFlags.Collect | js/utils/feature-flags.js:27-30 | the settings map has a key exactly when some row carries that key |
| FeatureFlags.CollectKeepsLast | js/utils/feature-flags.js:27-30 | each key maps to the value of the last row carrying it, so later rows overwrite earlier ones |
| FeatureFlags.GetSettings | js/utils/feature-flags.js:13-38 | the table is queried iff a refresh is forced, there is no cache, or the cache has expired; otherwise the cache is returned and nothing changes; a successful read caches its map for 60000 ms from now; a failed read returns `{}` and keeps the old cache and expiry |
| FeatureFlags.IsEventStarted | js/utils/feature-flags.js:43-47 | the event has started iff the settings `getSettings` yields have `event_started.enabled` equal to `true`, and the cache evolves as in `getSettings` |
| FeatureFlags.TruthyIsNotTrue | js/utils/feature-flags.js:46 | a truthy `enabled` that is not `true`, or a bare `true` setting, does not start the event |
| FeatureFlags.FailedReadNotStarted | js/utils/feature-flags.js:34-37 | when the cache is stale and the read fails, the event reads as not started |
| FeatureFlags.InvalidateCache | js/utils/feature-flags.js:52-55 | the cache is dropped and its expiry reset |
| FeatureFlags.InvalidateForcesQuery | js/utils/feature-flags.js:52-55 | after `invalidateCache` the next `getSettings` queries, whatever the time |
| FeatureFlags.ForceAlwaysQueries | js/utils/feature-flags.js:16 | `forceRefresh` always queries |
| FeatureFlags.CachedForOneMinute | js/utils/feature-flags.js:16-32 | after a successful read, calls in the next minute get the cached map without a query, and later calls query again |
| ServerUtils.RequireSignedUser | js/utils/server-utils.js:19-21 | the result is null iff the request, its signed cookies or their `user_id` is missing or empty; otherwise it is that `user_id` unchanged |
| ServerUtils.GetSupabase | js/utils/server-utils.js:6-17 | an existing client is returned and the slot is left alone; a client is created only into an empty slot; the slot always ends holding the client returned |
| ServerUtils.SameClientEveryTime | js/utils/server-utils.js:7-8 | once a client exists, any number of later calls return that same client and never replace it |
| ServerUtils.EnsureFirebaseAdmin | js/utils/server-utils.js:28-47 | nothing is initialised when an app exists; an empty or non-`{` service account initialises with defaults; a certificate is used iff there is no app, the trimmed text starts with `{`, parses to a truthy value and `cert` accepts it; nothing is initialised iff an app exists or the parse or `cert` throws; the app count rises by one exactly when an app is initialised |
| ServerUtils.EnsureOnce | js/utils/server-utils.js:28-47 | a call made with the app count an initialising call leaves initialises nothing, whatever the environment then holds |
| ServerUtils.FailedSetupRetries | js/utils/server-utils.js:29-44 | a `{` service account whose parse or certificate throws leaves no app, so the next call initialises exactly when its own setup does not throw |
| ServerUtils.EmptyObjectInitialisesNothing | js/utils/server-utils.js:33-44 | an example: `{}` parses to a truthy object that `cert` refuses, so no app is initialised |
| ServerUtils.InitialisedAtMostOnce | js/utils/server-utils.js:28-47 | across any sequence of calls Firebase Admin is initialised at most once, and never when an app already exists |
| UserProfileRoute.UuidIgnoresCase | routes/users.js:23 | the UUID pattern carries the `i` flag: an identifier matches iff its lower-case form does |
| UserProfileRoute.UuidIsGroups | routes/users.js:23 | a matching identifier is five hex groups of lengths 8, 4, 4, 4 and 12 joined by hyphens |
| UserProfileRoute.Normalize | routes/users.js:64-75 | `id` is `user_id` or else `id`; `profile_bg_mode` defaults to "cover" and is never empty; `favorite_track` is the track url, else the track, else null, and never an empty string; `profile_bg_url` is copied |
| UserProfileRoute.GetProfile | routes/users.js:19-84 | a UUID-shaped identifier is looked up by `user_id` first and a failing lookup there gives 500; the username lookup runs only for other identifiers or when the first lookup found nothing; the answer is 404 exactly when neither lookup found a row; a found row is rendered normalised, with `editMode` from the cookie |
| UserProfileRoute.UsernameErrorsAreNotFound | routes/users.js:40-62 | for an identifier that is not UUID-shaped only the username is queried, and an error there is skipped and ends as 404, not 500 |
| ApiUsersRoute.PostProfile | routes/api-users.js:9-47 | no signed user gives 401, another user's id gives 403, a non-string `profile_html` gives 400, in that order; a throwing sanitiser then gives the catch-all 500 "Internal server error" with no upsert; otherwise the upsert is sent with the signed user's id, the sanitised HTML and the current time; an `error` reply gives 500 "Database error", a rejected upsert the catch-all 500, and a stored row 200 with that row |
| ApiUsersRoute.StatusesAreExact | routes/api-users.js:9-47 | the answer is always 200, 400, 401, 403 or 500; 200 exactly when the upsert was sent and stored; 500 exactly when the three checks pass and then sanitising throws or the upsert does not store |
| ApiUsersRoute.OnlyOwnerWrites | routes/api-users.js:12-29 | every upsert is for the signed-in user, and a 400, 401 or 403 never writes |
| ApiUsersRoute.AuthenticationFirst | routes/api-users.js:12-18 | without a session (or with an empty `user_id`) the answer is 401 even when the body is also invalid |
| CleanUrls.Unquote | serve.py:15 | decoding never lengthens the path |
| CleanUrls.UnquotePlainPrefix | serve.py:15 | text before the first `%` is copied unchanged, and decoding continues on the rest |
| CleanUrls.UnquoteWithoutPercent | serve.py:15 | a path with no `%` decodes to itself |
| CleanUrls.EncodedSpaceDecoded | serve.py:15 | `%20` decodes to a space, so `/my%20page` is handled as `/my page` |
| CleanUrls.StripQuery | serve.py:17-19 | the result is a prefix of the path with no `?`, and a path without `?` is kept whole |
| CleanUrls.EncodedQuestionMarkTruncates | serve.py:15-19 | the query is cut after decoding, so an encoded `%3F` truncates like a literal `?` |
| CleanUrls.ResolvePath | serve.py:21-31 | at most two existence checks; a trailing `/` gives `index.html` and an empty path `/index.html`, with no check; a basename with a dot is kept with no check; an extensionless path becomes path + `.html` iff `.`+path+`.html` exists and `.`+path does not, checking the `.html` file first and the original only when the first exists |
| CleanUrls.IndexHtmlHasDot | serve.py:22-28 | both index rewrites leave a dotted basename, so neither is followed by an existence check |
| CleanUrls.WellKnownUnchanged | serve.py:28 | a leading dot counts as an extension: `/.well-known` is kept with no check |
| CleanUrls.ResolvesToRooted | serve.py:21-31 | a rooted or empty path resolves to a non-empty rooted path |
| CleanUrls.DoGet | serve.py:13-37 | only the request path is replaced; it never holds `?`; it is the decoded, query-free path `q`, or `q` + `index.html`, `q` + `.html`, or `/index.html`; at most two existence checks are made |
| ExpressClean.Middleware | server.js:7-12 | `next()` is called exactly once; `.html` is appended to `req.url` iff `req.path` has no dot anywhere and is not `/`; otherwise the url is unchanged; no existence check is made |
| ExpressClean.QuerySuffixed | server.js:8-9 | the suffix lands after the query string: `/dashboard?x=1` becomes `/dashboard?x=1.html` |
| ExpressClean.TrailingSlashSuffixed | server.js:8-9 | a trailing-slash path other than `/` gets the suffix too: `/blog/` becomes `/blog/.html` |
| CleanUrlContrast.AgreeOnPlainPath | serve.py:28-31 | for a plain extensionless path, Express always appends `.html`, and Python does so exactly when the `.html` file exists and the path itself does not |
| CleanUrlContrast.DottedDirectoryRewritten | serve.py:28-31 | Python tests only the basename, so a dot in a directory does not stop the rewrite |
| CleanUrlContrast.DisagreeOnDottedDirectory | server.js:8 | a dot in a directory makes Express keep the url while Python may rewrite it |
| CleanUrlContrast.DisagreeOnTrailingSlash | serve.py:22-23 | for a trailing-slash path Python serves the directory index and Express asks for `<dir>/.html` |
| ContestPlacement.DefaultPoints | js/components/contest-placement-form.js:70-80 | place 1 earns 10, places 2 to 8 earn `10 - place`, every other place (0, negatives, above 8) earns 1, so the points lie in 1..10 |
| ContestPlacement.DefaultPointsNonIncreasing | js/components/contest-placement-form.js:70-80 | a better (smaller) place never earns fewer default points |
| ContestPlacement.SubmitPlacement | js/components/contest-placement-form.js:50-65 | event, user and place are passed through; an empty or missing points field gives the default for the place, any other entry its numeric value |
| ContestPlacement.EmptyOverrideInRange | js/components/contest-placement-form.js:54-58 | with the field left empty the submitted points lie in 1..10 |
| CocktailJudging.GetEntryStatus | js/pages/cocktail-judging.js:131-146 | "not-started" iff there is no judgment; "completed" iff there is one with all four scores truthy (present and non-zero); "in-progress" otherwise |
| CocktailJudging.WeightedTotal | js/pages/cocktail-judging.js:154-160 | no judgment totals 0 |
| CocktailJudging.MissingCountsAsZero | js/pages/cocktail-judging.js:155-159 | a missing score weighs the same as 0, and the remaining scores weigh 10 for taste and 3 for workmanship |
| CocktailJudging.TotalWithinHundred | js/pages/cocktail-judging.js:155-160 | with all four scores from the 1-5 selects, the judgment is complete and its total lies in 20..100 |
| CocktailJudging.TotalMonotoneInTaste | js/pages/cocktail-judging.js:155-160 | raising the taste score never lowers the total |
| CocktailJudging.MarkFavorite | js/pages/cocktail-judging.js:587-648 | the current favorite is cleared by one delete; any other entry deletes an old favorite only if there is one, then inserts, and becomes the sole favorite on success; a failed insert leaves `myFavorite` as it was |
| CocktailJudging.MarkFavoriteTwice | js/pages/cocktail-judging.js:590-624 | two successful clicks of the modal button toggle twice |
| CocktailJudging.MarkFavoriteFromCard | js/pages/cocktail-judging.js:650-698 | the entry is shown as favorite at once; the old favorite is deleted only when it is another entry; the insert comes last; a failed insert restores and re-renders the previous favorite |
| CocktailJudging.Unfavorite | js/pages/cocktail-judging.js:700-737 | the favorite is cleared at once and that entry's favorite is deleted; a failed delete restores and re-renders the previous favorite |
| CocktailJudging.CardFavoriteClick | js/pages/cocktail-judging.js:380-390 | a card click on the current favorite unfavorites it and any other click marks that entry; a failed backend call leaves the favorite as before the click |
| CocktailJudging.CardClickRollsBack | js/pages/cocktail-judging.js:652-732 | every failed card click ends with the favorite from before the click |
| CocktailJudging.CardClickTwice | js/pages/cocktail-judging.js:385-389 | two successful clicks on one card restore its favorite state |
| CocktailJudging.SubmitJudgment | js/pages/cocktail-judging.js:523-538 | the submitted scores are written unchanged; the write updates iff the judge already judged the entry, and then targets that judgment's id; otherwise it inserts |
| CocktailJudging.NotStartedInserts | js/pages/cocktail-judging.js:523-538 | a not-started entry always gets a new judgment row |
| ChallengeCard.CardClasses | js/components/challenge-card.js:18-34 | class precedence is completed > locked > revealed > unrevealed (only when revealable): each class is present exactly when every earlier one is absent and its own flag holds; a completed card carries exactly `challenge-card`, `completed` and its outcome's token (`success`, `failure` or `null`), and any other card carries no class beyond `challenge-card` and the three state classes |
| ChallengeCard.BrianBadge | js/components/challenge-card.js:44-46 | "VS BRIAN" iff the badge is shown and the mode is "vs"; "WITH BRIAN" iff it is shown and the mode is any other non-empty text; nothing when hidden or without a mode |
| ChallengeCard.DisplayTitle | js/components/challenge-card.js:61-71 | the real title with its Brian badge shows iff the card is completed or revealed; otherwise "Challenge {index+1}" when indices are shown, else "Hidden Challenge" |
| ChallengeCard.DisplayDescription | js/components/challenge-card.js:73-83 | a description shows iff the card is completed or revealed, with "No description" standing in for a missing or empty one |
| ChallengeCard.GetStatusBadge | js/components/challenge-card.js:108-124 | the outcome badge iff completed, reading success iff the outcome is success; the reveal prompt iff not completed, revealable, not revealed and revealing is allowed; the locked badge only on locked cards |
| ChallengeCard.GetActions | js/components/challenge-card.js:85-106 | the SUCCESS/FAILURE buttons render iff actions are shown and the card is revealed but not completed; otherwise the status badge |
| ChallengeCard.RevealPromptMatchesListener | js/components/challenge-card.js:117-135 | the CLICK TO REVEAL prompt and the click-to-reveal listener use the same condition |
| ChallengeCard.Create | js/components/challenge-card.js:18-39 | the card carries the state's classes; it reveals on click iff it shows the reveal prompt; a revealing card that is not locked is marked unrevealed; cards with outcome buttons are marked revealed or locked |
| ChallengeCard.CreatedCardMatches | js/components/challenge-card.js:24-32 | a freshly built card passes `isSameCardState` against its own state iff at most one of completed, revealed and locked holds |
| Dashboard.FirstIncomplete | js/pages/dashboard.js:466 | the index of the first assignment without `completed_at`, or -1 when every assignment is completed |
| Dashboard.StateAt | js/pages/dashboard.js:471-486 | a card is completed iff its assignment is and revealed iff it is the revealed id; it is never both revealable and locked; completed cards are neither; only the first incomplete card is revealable without being revealed; a locked card lies after the first incomplete one, and every other unrevealed incomplete card is locked |
| Dashboard.NewCard | js/components/challenge-card.js:18-39 | a built card carries its state's classes, and an assignment id only when ids are tagged |
| Dashboard.IndexById | js/pages/dashboard.js:454-463 | `existingCardMap` maps each id carried by a card to the position of the last card carrying it, and every tagged card's id is mapped |
| Dashboard.Step | js/pages/dashboard.js:488-532 | one assignment of the loop: its id leaves the map; an unchanged card stays as it is; a changed card is replaced in place by the new one; an unknown id appends a new card |
| Dashboard.Walk | js/pages/dashboard.js:471-533 | the loop never drops a card, and the map it leaves holds exactly the earlier cards whose ids are not in the data, at their original positions |
| Dashboard.SurvivesIffInData | js/pages/dashboard.js:535-540 | a card found in the map is removed exactly when its id is not in the new data |
| Dashboard.RenderFromEmpty | js/pages/dashboard.js:452-544 | a render into an empty list shows one card per assignment, in order, each with the classes of its computed state |
| Dashboard.UntaggedRenderDuplicates | js/pages/dashboard.js:457-463 | `renderChallenges` alone, given a list of its own untagged cards (a list `loadChallenges` never passes, since it always renders into an emptied list) with the listener call fixed: a second render of the same data appends a second copy of every card, because cards carry no `data-assignment-id` |
| Dashboard.UntaggedSecondRenderHasTwoCards | js/pages/dashboard.js:457-463 | an example of `renderChallenges` alone on a list `loadChallenges` never passes: with the listener call fixed, one assignment rendered over its own untagged card leaves two cards |
| Dashboard.TaggedRenderStable | js/pages/dashboard.js:488-492 | with ids tagged on the cards and distinct assignment ids, re-rendering the same data leaves the list exactly as it was |
| Dashboard.WalkAsWritten | js/pages/dashboard.js:488-528 | as written, a loop that does not throw kept every card unchanged, and an assignment with no existing card throws at `challengeCard.addEventListener` |
| Dashboard.RenderAsWritten | js/pages/dashboard.js:452-544 | as written, a render that does not throw never adds a card |
| Dashboard.ListenerCallAborts | js/pages/dashboard.js:515-528 | as written, starting from a list with no tagged card, any non-empty data makes the render throw |
| Dashboard.UpdateStatsOptimistically | js/pages/dashboard.js:288-302 | the completed counter, when present, is written as one more than the number its text starts with, for any outcome; the points counter is written, likewise one higher, only when present and the outcome is success |
| Dashboard.CounterReadsBack | js/pages/dashboard.js:294-302 | a counter whose text is the decimal form of a number reads back exactly that number |
| Dashboard.StatsCountUp | js/pages/dashboard.js:293-302 | counters showing numbers count up by one: completed always, points exactly on success and otherwise left unwritten |
| Dashboard.UnlockNext | js/pages/dashboard.js:368-379 | only the card right after the completed one can change, and only when it is a locked challenge card: it loses `locked` and gains `unrevealed`; every other card is unchanged |
| Dashboard.UnlockAgreesWithRerender | js/pages/dashboard.js:368-379 | when the first incomplete card is completed, the next card's recomputed state is revealable and no longer locked, and its classes are exactly what the optimistic unlock produces |
| Dashboard.LockedToUnrevealed | js/pages/dashboard.js:376-378 | the classes a card draws once it is revealable differ from its locked classes by exactly removing `locked` and adding `unrevealed` |
| Dashboard.UnlockRevealClick | js/pages/dashboard.js:388-408 | the reveal listener emits the card's `dataset.assignmentId` when it is present and non-empty, and nothing otherwise |
| Dashboard.UnlockedRevealSilent | js/pages/dashboard.js:388-408 | as written, with cards built without an assignment id, no card of the list, the unlocked one included, emits a reveal when clicked |
| Dashboard.UnlockedRevealEmits | js/pages/dashboard.js:388-408 | with each card tagged with its assignment id, clicking the card just unlocked emits a reveal for that card's own assignment |
| Dashboard.LoadChallenges | js/pages/dashboard.js:414-446 | `loadChallenges` empties the list before its only render, so the list shows one card per assignment, in order, each with the classes of its computed state, carrying an assignment id exactly when ids are tagged |
| Dashboard.LoadChallengesAsWritten | js/pages/dashboard.js:436-446 | as written, loading any non-empty assignment list fails (the render throws into the catch), and an empty one shows no card |
| JsMath.ParseIntOfNat | js/components/guestbook.js:111 | `parseInt` reads back the decimal text of any natural number as that number |
| JsMath.HexPrefixRead | js/pages/dashboard.js:295 | `parseInt` without a radix reads a `0x`-prefixed text in base 16: `"0x1f"` is 31 |
| JsMath.HexPrefixAlone | js/pages/dashboard.js:295 | a `0x` prefix with no hexadecimal digit after it is `NaN`, not 0 |
| BasePage.PageTitle | js/pages/base-page.js:94-98 | the title always ends in " - Birthday Challenge Zone"; it is led by "<display_name>'s " only for "Dashboard" with a user, and otherwise by the page title alone |
| BasePage.AdminUsernames | js/pages/base-page.js:112-116 | `isAdmin` holds iff there is a user whose username is "brianc" or "admin" |
| BasePage.BrianOutcome | js/pages/base-page.js:153-158 | mode "with" copies the player's outcome; mode "vs" gives "failure" exactly when the player succeeded and "success" otherwise; any other mode leaves Brian's outcome undefined |
| BasePage.VsIsInvolution | js/pages/base-page.js:157 | on success and failure, mirroring twice in "vs" mode gives back the player's outcome |
| BasePage.VsLosesUnknownOutcome | js/pages/base-page.js:157 | an outcome other than the two known ones is not recovered by mirroring twice |
| BasePage.MarkChallengeComplete | js/pages/base-page.js:119-177 | the assignment update comes first and a failed update stops there; Brian's assignment is upserted, with the mirrored outcome, only for a truthy Brian mode and only after a successful brianc lookup; the call succeeds iff every write it attempts succeeds |
| BasePage.SuccessCount | js/pages/base-page.js:189-194 | a user's successful completions never exceed the number of rows |
| BasePage.CompletionCountsAgree | js/pages/base-page.js:188-199 | the `completionCounts` object built row by row gives each user the number of their assignments with `completed_at` set and outcome "success", and holds only positive counts |
| BasePage.EnrichScoreboard | js/pages/base-page.js:179-201 | a failed query fails the call; otherwise rows keep their count, order and other fields, and each row's `challenges_completed` becomes its user's successful completions |
| BasePage.NoSuccessScoresZero | js/pages/base-page.js:199 | a user with no successful completed assignment gets 0 |
| BasePage.FindRow | js/pages/base-page.js:218 | the index of the first scoreboard row for the user, or -1 when there is none |
| BasePage.CompletedCount | js/pages/base-page.js:222 | the completed count never exceeds the assigned count |
| BasePage.AllCompletedIff | js/pages/base-page.js:221-222 | the two totals agree exactly when every assignment has a truthy `completed_at` |
| BasePage.LoadUserStats | js/pages/base-page.js:203-237 | the scoreboard error is reported first, then the assignment error; `totalCompleted` ≤ `totalAssigned`, which is the number of rows or 0 for null data; the rank is the position of the user's first row plus one, 0 when the user has no row, and undefined without scoreboard data; `userStats` is that row exactly when the rank is positive |
| AdminApprovals.WithStatus | js/pages/admin-approvals.js:151-153 | a status filter keeps exactly the rows with that status |
| AdminApprovals.SplitByStatus | js/pages/admin-approvals.js:150-153 | the pending, approved and denied lists are disjoint, and a row appears in one of them iff its status is one of the three |
| AdminApprovals.SectionsCount | js/pages/admin-approvals.js:150-153 | the three lists together never hold more rows than there are, and hold them all exactly when every status is known |
| AdminApprovals.LabelOf | js/pages/admin-approvals.js:111-114 | the entry keeps the username, and the display name falls back to the username when missing or empty |
| AdminApprovals.Select | js/pages/admin-approvals.js:106-115 | the reference grouping: the labels of one challenge's rows in row order, never more than the rows |
| AdminApprovals.GroupsAreSelections | js/pages/admin-approvals.js:106-115 | `assignmentsByChallenge` has a key exactly for the challenges that have rows, and each group holds that challenge's rows in order |
| AdminApprovals.GroupsCoverRows | js/pages/admin-approvals.js:106-115 | over distinct challenge ids covering every row, the group sizes add up to the number of rows, so each row lands in exactly one group |
| AdminApprovals.HasChangesIffSetsDiffer | js/pages/admin-approvals.js:467-471 | `hasChanges` is false exactly when the current ids and the selected ids are equal as sets |
| AdminApprovals.ValidateSelection | js/pages/admin-approvals.js:467-488 | "No changes detected" exactly when the two id sets are equal, so it is checked before emptiness; an empty changed selection is refused in both modes, with the approval wording when approving; otherwise the submit goes ahead, carrying `isApproval` (approval mode on a pending challenge) |
| AdminApprovals.EmptyToEmptyIsNoChange | js/pages/admin-approvals.js:473-488 | an empty selection reports no change exactly when the challenge had no users, and otherwise the empty-selection message of its mode |
| AdminApprovals.Count | js/pages/admin-approvals.js:571-575 | an operation count never exceeds the number of operations |
| AdminApprovals.CountAppend | js/pages/admin-approvals.js:571-575 | counting distributes over concatenated reports |
| AdminApprovals.Plural | js/pages/admin-approvals.js:578 | the plural "s" appears exactly when the count is not 1 |
| AdminApprovals.Phrases | js/pages/admin-approvals.js:577-590 | there is one phrase per recognised operation kind with a positive count, in the order created, reactivated, deactivated |
| AdminApprovals.ActionMessage | js/pages/admin-approvals.js:592-595 | with no recognised operation (or no reply) the message falls back to "assigned to N user(s)" for the final assignment count |
| AdminApprovals.SuccessMessage | js/pages/admin-approvals.js:561-600 | the prefix is "Challenge approved and " when approving and "Challenge assignments updated - " otherwise, and depends on nothing else |
| AdminApprovals.UnknownOperationIgnored | js/pages/admin-approvals.js:571-575 | an operation with any other name leaves the message unchanged |
| AdminApprovals.ReportOrderIrrelevant | js/pages/admin-approvals.js:564-595 | the message does not depend on the order in which operations are reported |
| AdminApprovals.SingleCreation | js/pages/admin-approvals.js:577-579 | an example: one created assignment reads "assigned to 1 new user", in the singular |
| AdminApprovals.SubmitAssignments | js/pages/admin-approvals.js:452-554 | a refused selection writes nothing and shows its message; the challenge is approved, with the first selected user as `suggested_for`, exactly when approving a valid selection; assignments are updated only after a successful approval; success shows the generated message and a version conflict the conflict message |
| Sorting.InsertBy | js/components/user-events-section.js:57-61 | inserting into a sequence in key order keeps it in key order and adds exactly the one element |
| Sorting.SortBy | js/components/user-events-section.js:57-61 | the sort by a key yields a permutation of its input in ascending key order |
| Sorting.Sort | js/services/assignment-service.js:56 | `sort()` yields a sorted permutation of the timestamps |
| Sorting.SortedUnique | js/services/assignment-service.js:56 | two sorted lists holding the same strings are the same list |
| Sorting.SortPermutationInvariant | js/services/assignment-service.js:56 | sorting forgets the order of its input |
| Base64.Encode | js/services/assignment-service.js:57 | every three bytes give four characters, so the encoding is about four thirds the input's length |
| Base64.EncodeLength | js/services/assignment-service.js:57 | the encoding has exactly four characters per started group of three bytes |
| Base64.DecodeEncode | js/services/assignment-service.js:57 | decoding (section 4 of RFC 4648) undoes encoding, padding included |
| AssignmentService.Btoa | js/services/assignment-service.js:57 | `btoa` succeeds iff every code unit is below 256, and then its output decodes back to the input and has 4·⌈n/3⌉ characters |
| AssignmentService.CalculateVersion | js/services/assignment-service.js:55-58 | the version exists iff the joined timestamps are Latin-1, and is then a prefix of at most 8 characters of the `btoa` of the sorted timestamps joined with a vertical bar |
| AssignmentService.VersionPermutationInvariant | js/services/assignment-service.js:56 | the version does not depend on the order of the rows |
| AssignmentService.EmptyVersion | js/services/assignment-service.js:55-58 | no active assignment gives the empty version `""` |
| AssignmentService.VersionLength | js/services/assignment-service.js:57 | once the joined timestamps span 6 bytes the version has exactly 8 characters |
| AssignmentService.GetCurrentAssignments | js/services/assignment-service.js:14-27 | a query error is rethrown; otherwise the user ids keep row order and the version is that of the rows' `updated_at` values |
| AssignmentService.UpdateAssignments | js/services/assignment-service.js:32-50 | `ConflictError` iff the expected version is truthy and differs from the current one, and then no RPC is made; a falsy expected version skips the check; the RPC gets the challenge, the stringified user ids in order and the service's user; its error is rethrown and its data returned |
| AssignmentService.UnchangedVersionPasses | js/services/assignment-service.js:34-39 | passing the version just read, with nothing changed since, never conflicts and reaches the RPC |
| Achievements.WithKey | js/services/achievement-service.js:244-248 | the key query keeps exactly the achievements with that key |
| Achievements.LookupByKey | js/services/achievement-service.js:244-250 | `maybeSingle` gives null iff no achievement has the key, an error iff more than one has it, and otherwise the achievement with that key |
| Achievements.AwardByKey | js/services/achievement-service.js:238-296 | with no user, an unknown key, an award already held, or any query error, the result is null and nothing changes; otherwise exactly one `user_achievements` row with the given details is inserted and returned, and one `achievement:awarded` event is emitted |
| Achievements.AwardIdempotent | js/services/achievement-service.js:252-261 | awarding the same key again returns null, inserts nothing and emits nothing |
| Achievements.AwardKeepsUnique | js/services/achievement-service.js:252-275 | awarding never gives a user the same achievement twice |
| Achievements.AwardAll | js/services/achievement-service.js:166-171 | awarding a list of keys adds at most one row per key, never touches the achievements table, and emits one event per row added |
| Achievements.AwardAllKeepsUnique | js/services/achievement-service.js:166-171 | however often a key is listed, every (user, achievement) pair stays held at most once |
| Achievements.SubmittedKeys | js/services/achievement-service.js:142-175 | a configured achievement is awarded iff its threshold is truthy and the submitted count reaches it |
| Achievements.ZeroThresholdNeverAwards | js/services/achievement-service.js:167-168 | a threshold of 0 never awards, whatever the count |
| Achievements.CountBasedKeys | js/services/achievement-service.js:188-220 | a key is awarded exactly when it belongs to a configured achievement whose truthy threshold is reached, or it is the non-empty fallback, something was completed and some achievement has no truthy threshold |
| Achievements.UnmetThresholdNoFallback | js/services/achievement-service.js:208-215 | when every configured threshold is set but not reached, nothing is awarded, not even the fallback |
| Achievements.FallbackAwardedOnce | js/services/achievement-service.js:208-215 | even when several achievements without a threshold name the fallback, it ends up held once |
| Achievements.GuestbookSign | js/services/achievement-service.js:75-122 | without a user nothing happens; a server-side award inserts nothing on the client and emits the found achievement with the reply's `comment_count` as details, or nothing when the lookup finds none; when the call fails or awards nothing, `first_comment` is awarded with the comment id |
| Achievements.GuestbookSignEvents | js/services/achievement-service.js:75-122 | for any reply, awards stay unique, the client inserts only when the server did not award, and the at most one event is either `first_comment` with the comment id or the server's award with its comment count |
| Achievements.GifCompleted | js/services/achievement-service.js:177-186 | `gif_master` is awarded, with the GIF's source as details, exactly when it is awardable and no query fails |
| Achievements.Init | js/services/achievement-service.js:9-36 | the first call registers the six bus and two window listeners; every later call changes nothing |
| Achievements.InitIdempotent | js/services/achievement-service.js:10-11 | a second `init` registers nothing more |
| Audio.CheckPreferences | js/utils/audio.js:22-30 | sound is enabled iff reduced motion is not preferred and the stored mute flag is not the text `true`; the sounds are untouched |
| Audio.Create | js/utils/audio.js:7-20 | a new manager has no sounds, is not initialized, and is enabled exactly as the preferences allow |
| Audio.Preload | js/utils/audio.js:38-45 | an already registered name is never replaced; a new name gets its source, `none` or `auto` preload as asked, and volume 0.3 |
| Audio.PreloadKeepsFirst | js/utils/audio.js:39-44 | preloading a name a second time keeps the first source |
| Audio.Play | js/utils/audio.js:51-69 | a copy is played iff sound is enabled and the name was preloaded, and it has the preloaded source and volume |
| Audio.Clamp | js/utils/audio.js:77 | the volume lies in [0, 1], keeps values already inside, and sends values below or above to 0 or 1 |
| Audio.SetVolume | js/utils/audio.js:75-79 | every preloaded sound, and nothing else, gets the clamped volume |
| Audio.VolumesInRange | js/utils/audio.js:75-79 | after any volume change every sound's volume lies in [0, 1] |
| Audio.Toggle | js/utils/audio.js:84-89 | the enabled flag flips, the returned value is the new state, and the stored mute flag is its opposite |
| Audio.ToggleTwice | js/utils/audio.js:84-89 | toggling twice restores the manager and leaves the stored flag consistent with it |
| Audio.ToggleSurvivesReload | js/utils/audio.js:22-30 | after a toggle, re-reading the preferences without reduced motion gives the toggled state back |
| Audio.Initialize | js/utils/audio.js:94-104 | the first call loads every sound exactly once and marks the manager initialized; later calls change nothing |
| Audio.InitializeIdempotent | js/utils/audio.js:95 | initializing twice is the same as once |
| Audio.ClickSoundName | js/utils/audio.js:115-127 | no sound for a missing or disabled target or one marked `data-no-sound`; otherwise a non-empty `data-sound` wins over the default name |
| Audio.OnClick | js/utils/audio.js:115-127 | a delegated click plays a sound iff a sound name is chosen, sound is enabled and that name was preloaded |
| Audio.OnElementClick | js/utils/audio.js:134-140 | a click on a bound element plays iff the element is enabled, sound is enabled and the name was preloaded |
| ChallengesSubmit.FindOption | js/pages/challenges-submit.js:215 | the index found is that of the first option whose value equals the typed text, and none means no option has it |
| ChallengesSubmit.ResolveAssignee | js/pages/challenges-submit.js:208-226 | an empty assignee resolves to nobody; otherwise the result is the user id of the first matching option when it is non-empty, and the "not found" message in every other case |
| ChallengesSubmit.FirstMatchDecides | js/pages/challenges-submit.js:215-224 | a later option with the same text and a user id cannot rescue a first match without one |
| ChallengesSubmit.Row | js/pages/challenges-submit.js:232-249 | the row is a pending `assigned` challenge by the current user with escaped trimmed title and description; the metric is present iff non-empty and Brian mode iff non-empty and the user is an admin |
| ChallengesSubmit.Submit | js/pages/challenges-submit.js:183-284 | missing name or description is refused with the required-fields message; a row is sent iff both are present and the assignee resolves; success, with one `challenge:submitted` event, iff the insert succeeds; the button is re-enabled on every path |
| ChallengesSubmit.EmptyAssigneeSuggestsNobody | js/pages/challenges-submit.js:209-226 | with no assignee the challenge is sent suggested for nobody |
| ChallengesSubmit.UnknownAssigneeRefused | js/pages/challenges-submit.js:210-224 | an assignee no option matches is refused with the "not found" message and nothing is sent |
| ChallengesSubmit.NonAdminNoBrianMode | js/pages/challenges-submit.js:247-249 | a non-admin's row never carries Brian mode |
| EventCard.Ordinal | js/components/event-card.js:90-102 | the suffix is one of st, nd, rd, th, and always th from 4 to 20 |
| EventCard.OrdinalMatchesCalendar | js/components/event-card.js:90-102 | for every day 1 to 31 the suffix is the English calendar's: 1, 21, 31 st; 2, 22 nd; 3, 23 rd; the rest th |
| EventCard.NegativeIsTh | js/components/event-card.js:92-100 | a negative number always gets th, because the remainder of a negative number is negative |
| EventCard.Hour12 | js/components/event-card.js:111 | the 12-hour hour lies in 1..12 and agrees with the 24-hour hour modulo 12 |
| EventCard.Meridiem | js/components/event-card.js:111 | the marker is AM exactly before noon |
| EventCard.ClockTail | js/components/event-card.js:110-111 | the part after the hour holds the two-digit minutes and ends in the AM/PM marker |
| EventCard.FormatClock | js/components/event-card.js:109-111 | the formatted time ends in AM iff the hour is before 12 |
| EventCard.Pad2Exact | js/components/event-card.js:110 | padding a number below 100 gives exactly two digits that read back as the number |
| EventCard.TailMinutes | js/components/event-card.js:110-111 | the first two characters after the colon are the padded minutes |
| EventCard.HourDigits | js/components/event-card.js:111 | the hour text has no colon, so the first colon ends it |
| EventCard.ReadClockOf | js/components/event-card.js:111 | a digit hour, a colon, two digit minutes and a marker read back as that hour and those minutes |
| EventCard.HourBack | js/components/event-card.js:111 | the 12-hour hour and the marker together recover the 24-hour hour |
| EventCard.ReadFormatClock | js/components/event-card.js:109-111 | reading a formatted valid time gives back its hour and minutes |
| EventCard.ClockInjective | js/components/event-card.js:109-111 | two valid times with the same text have the same hour and minutes |
| EventCard.MidnightAndNoon | js/components/event-card.js:111 | two examples at the boundaries: 00:00 shows as `12:00 AM` and 12:30:00 as `12:30 PM` |
| EventCard.TimeString | js/components/event-card.js:104-118 | a non-empty time label wins; otherwise the start time, followed by `" - "` and the end only when an end is present; empty without both |
| EventCard.DateTimeLine | js/components/event-card.js:103-120 | the line is the date with its ordinal, extended by `" • time"` exactly when the time is non-empty |
| EventCard.CountSpans | js/components/event-card.js:56-63 | at most two spans, none iff neither going nor interested is positive, and the going span comes first |
| EventCard.CreatedCounts | js/components/event-card.js:187-200 | the counts block is drawn iff the counts object has a key, and then holds the count spans |
| EventCard.NotGoingNeverCounted | js/components/event-card.js:191-198 | a not-going count never shows, however large |
| EventCard.ActiveButtons | js/components/event-card.js:29-32 | a button is active exactly when its status equals the new status |
| EventCard.OneActiveAtMost | js/components/event-card.js:29-32 | at most one button is active, and one is iff the status is one of the three |
| EventCard.ActiveIdentifiesStatus | js/components/event-card.js:29-32 | the active buttons determine which status was chosen |
| EventCard.CreatedAvatar | js/components/event-card.js:173-182 | `create` always sets `data-headshot`, to the user's or to `user-default` |
| EventCard.UpdatedAvatar | js/components/event-card.js:38-49 | the update sets `data-headshot` only for a user with an id |
| EventCard.Avatars | js/components/event-card.js:38-50 | only going users get an avatar, so there are no more avatars than rows and none without a going user |
| EventCard.UpdateMovesHeadshot | js/components/event-card.js:42 | for a user with a headshot the update draws a different `src` than `create`, because it adds the `images/` prefix |
| EventCard.UpdateRsvpState | js/components/event-card.js:23-65 | after an update the active buttons follow the new status, with at most one avatar per row and at most two count spans |
| UserEvents.UserRsvps | js/components/user-events-section.js:46-50 | exactly the user's rows with status going or interested are kept |
| UserEvents.SortByDate | js/components/user-events-section.js:57-61 | the sorted rows are in ascending date order, with a missing event or date as the empty text, and are a permutation of the input |
| Sorting.InsertSmallest | js/components/user-events-section.js:57-61 | an element whose key is no larger than the first goes in front, so equal dates keep their order |
| Sorting.SortKeepsSorted | js/components/user-events-section.js:57-61 | rows already in date order are left exactly as they are |
| Sorting.SortIdempotent | js/components/user-events-section.js:57-61 | sorting twice is sorting once |
| UserEvents.StatusCount | js/components/user-events-section.js:73-74 | a status is counted at most once per row |
| UserEvents.Tally | js/components/user-events-section.js:70-80 | the tally has exactly the four keys going, maybe, interested and not_going, each holding the number of rows with that status |
| UserEvents.TallyBounded | js/components/user-events-section.js:70-80 | the tally total never exceeds the rows, and equals their number iff every status is one of the four |
| UserEvents.MaybeNotShown | js/components/event-card.js:191-198 | the card built from a tally shows one span per positive going or interested count, and never a maybe span |
| UserEvents.CardsFor | js/components/user-events-section.js:63-94 | every card comes from a sorted row with that event and status; rows without an event are skipped, so with every event present there is one card per row |
| UserEvents.Render | js/components/user-events-section.js:39-98 | a query error shows the error text, no rows show the empty note, and otherwise at most one card per row is drawn, in ascending date order |
| UserEvents.CardsInDateOrder | js/components/user-events-section.js:57-94 | cards drawn from date-sorted rows are in ascending date order |
| GifStepper.StepsAsWritten | js/components/gif-stepper.js:32 | an explicit option wins; with neither option nor attribute the step is `NaN`, since `NaN` is not nullish and the final `?? 1` never applies |
| GifStepper.Steps | js/components/gif-stepper.js:32 | the step is always a number: the option, else a readable attribute, else 1; it agrees with the code whenever the code's step is a number |
| GifStepper.Initial | js/components/gif-stepper.js:33-38 | a new stepper is not started, not done, has sent no event and sits before frame 0 |
| GifStepper.MinOrNaN | js/components/gif-stepper.js:154 | the minimum is `NaN` iff its operand is, and otherwise the smaller of the two |
| GifStepper.AddOrNaN | js/components/gif-stepper.js:154 | the sum is a number iff both operands are, and then their sum |
| GifStepper.Advance | js/components/gif-stepper.js:145-187 | a click without frames or after completion changes nothing; otherwise the stepper is started, and the event count grows by one exactly when the completion flag is first set |
| GifStepper.AdvanceStaysOnFrame | js/components/gif-stepper.js:148-165 | with a non-negative step the frame becomes the smaller of the current frame (0 on the first click) plus the step and the last frame, and done holds exactly on the last frame |
| GifStepper.Reset | js/components/gif-stepper.js:189-201 | reset does nothing without frames; otherwise frame 0, started, not done, and the emitted flag untouched |
| GifStepper.RunEmitsOnce | js/components/gif-stepper.js:167-169 | whatever sequence of clicks, resets and step changes, `gif:completed` is sent at most once per instance |
| GifStepper.ResetActsLikeStart | js/components/gif-stepper.js:148-155 | the click after a reset lands on the frame, done state and started state of a fresh stepper's first click |
| GifStepper.Clicks | js/components/gif-stepper.js:145-187 | clicking never changes the frame count or the step |
| GifStepper.ClicksReach | js/components/gif-stepper.js:154-155 | from a frame, n clicks move n steps, stopping at the last frame |
| GifStepper.FreshStepperCompletes | js/components/gif-stepper.js:145-187 | with a step of at least one, a fresh stepper is done after one click per frame and has sent exactly one event |
| GifStepper.EmittedOnDone | js/components/gif-stepper.js:163-169 | whenever clicking reaches the last frame the event has been sent, exactly once |
| GifStepper.MissingAttributeIsNaN | js/components/gif-stepper.js:32 | without an option, any attribute that does not parse as a number (a missing one included) gives the step `NaN` as written, where the intended fallback gives 1 |
| GifStepper.NaNStepperNeverCompletes | js/components/gif-stepper.js:32 | with the step as written and no attribute, no number of clicks finishes the stepper or sends the event |
| GifStepper.NaNClicks | js/components/gif-stepper.js:145-165 | a `NaN` step keeps the stepper unfinished and silent through any number of clicks |
| GifStepper.DefaultStepCompletes | js/components/gif-stepper.js:32 | with the intended fallback of 1, an image without a step attribute completes after one click per frame |
| MusicPlayer.PlaySong | js/components/music-player.js:81-102 | without songs nothing changes; otherwise the index is set, and a song at that index is loaded, playing and handed to the select callback, while an index with no song leaves no element behind |
| MusicPlayer.NextSong | js/components/music-player.js:142-146 | from a valid index the next song is one forward, wrapping from the last to the first, and it plays |
| MusicPlayer.PrevSong | js/components/music-player.js:148-152 | from a valid index the previous song is one back, wrapping from the first to the last, and it plays |
| MusicPlayer.PrevUndoesNext | js/components/music-player.js:142-152 | back after forward, and forward after back, return to the same index |
| MusicPlayer.NextTimes | js/components/music-player.js:142-146 | repeated forward presses keep the index on a song and the list unchanged |
| MusicPlayer.NextCycles | js/components/music-player.js:142-146 | k forward presses, for k up to the list length, move k songs on and wrap at most once |
| MusicPlayer.FullCircle | js/components/music-player.js:142-146 | one press per song comes back to the starting song |
| MusicPlayer.PauseSong | js/components/music-player.js:122-128 | without an element nothing changes; with one it is paused and the playing flag cleared |
| MusicPlayer.TogglePlayPause | js/components/music-player.js:130-140 | without an element the current song plays; while playing it pauses; while paused it resumes the same element, never changing the index or reselecting |
| MusicPlayer.ToggleTwice | js/components/music-player.js:130-140 | with an element whose state matches the flag, toggling twice restores the player |
| MusicPlayer.OnEnded | js/components/music-player.js:160-173 | the end of a track stops playback, pauses the same element and keeps the index: no auto-advance |
| MusicPlayer.SetSongs | js/components/music-player.js:71-75 | the new list is installed, an index past its end goes back to 0, and playback is untouched |
| MusicPlayer.SetSongsInRange | js/components/music-player.js:73 | a non-negative index lies on a song of any non-empty new list |
| MusicPlayer.TransitionsKeepConsistent | js/components/music-player.js:71-230 | every operation keeps the playing flag in step with the element's paused state |
| MusicPlayer.FindUrl | js/components/music-player.js:178 | the index is that of the first song with the url, and -1 iff there is none |
| MusicPlayer.GetFavoriteSongIdx | js/components/music-player.js:175-179 | null iff there is no stored url or no songs; otherwise the first index with the stored url, or -1 |
| MusicPlayer.SetFavoriteSongIdx | js/components/music-player.js:181-219 | with no song at the index nothing changes; otherwise its url is stored, and a favourite row is upserted iff a user is signed in |
| MusicPlayer.FavoriteRoundTrip | js/components/music-player.js:175-188 | a song just marked favourite reads back as the favourite, or as an earlier song with the same url |
| Guestbook.MessagesDistinct | js/components/guestbook.js:118-131 | the three validation messages are pairwise different, so the message shown names the failed rule |
| Guestbook.LastSubmit | js/components/guestbook.js:110-111 | an absent or empty stored time means there was no earlier submission |
| Guestbook.CeilSeconds | js/components/guestbook.js:112 | the whole seconds are the least number whose thousand milliseconds cover the wait |
| Guestbook.WaitSeconds | js/components/guestbook.js:110-115 | a wait is demanded iff a stored time lies less than 15000 ms back, and then it is the rounded-up seconds left, between 1 and 15 unless the clock went backwards |
| Guestbook.Validate | js/components/guestbook.js:117-132 | the fields pass iff both are non-empty, the name has at most 50 and the message at most 500 characters; otherwise the first failing rule, in that order, gives the message |
| Guestbook.AddComment | js/components/guestbook.js:176-194 | the row carries only name, message and user id as given, with `created_at` taken from the data when non-empty and the current time otherwise |
| Guestbook.ExtraFieldsDropped | js/components/guestbook.js:178-184 | fields outside the whitelist, such as an event id, never reach the row |
| Guestbook.Merge | js/components/guestbook.js:197-198 | in the legacy call, a name or message in the options overrides the positional one, and the other options pass through |
| Guestbook.LegacySignKeepsArguments | js/components/guestbook.js:196-199 | without a name or message in the options, the legacy call inserts exactly the given name and message |
| Guestbook.SignForm | js/components/guestbook.js:99-162 | a running rate limit answers with the wait message, then invalid trimmed fields with their message, and only then is the trimmed entry inserted; the time is stored and the sign event sent iff the insert succeeds, and a failed insert shows `Error:` with its message |
| Guestbook.RateLimitBeforeValidation | js/components/guestbook.js:110-121 | while the limit runs even empty fields get the wait message |
| Guestbook.SignedThenLimited | js/components/guestbook.js:110-146 | after a successful entry, any later submission within 15 seconds must wait 1 to 15 seconds, and one from 15 seconds on passes the limit |
| LoginPage.SendCode | js/pages/login.js:26-69 | reCAPTCHA is set up iff it was not ready, and becomes ready iff it was or the setup succeeds; a code is sent iff the page is ready and the trimmed phone is non-empty and converts, and then to its E.164 form; only a successful send moves to the code step and drops the phone requirement; storage, redirect and code field are untouched |
| LoginPage.NoSendWithoutNumber | js/pages/login.js:44-54 | an empty phone gets "Please enter a phone number" and an invalid one the conversion's message, and no code is sent |
| LoginPage.Back | js/pages/login.js:70-79 | back returns to the phone step with the phone required, the code field and error line cleared and the send button usable, keeping reCAPTCHA, storage and earlier errors |
| LoginPage.BackUndoesSend | js/pages/login.js:55-79 | after a successful send, back restores the phone step and requirement with an empty code and a usable send button |
| LoginPage.OtpMessage | js/pages/login.js:95-105 | the three known Firebase codes get their fixed messages, any other non-empty code gets `Verification error:` with the error's message, and no code gets the generic message |
| LoginPage.FixedMessagesDistinct | js/pages/login.js:96-102 | the four fixed verification messages are pairwise different |
| LoginPage.VerifyCode | js/pages/login.js:80-135 | the code reaches Firebase iff its trimmed length is 6; only a credential with a uid stores the uid and phone number, and only then with a confirmed session does the page go to the dashboard; a Firebase error shows its mapped message; the step and reCAPTCHA state never change |
| LoginPage.CredentialWithoutUid | js/pages/login.js:111-116 | a credential without a uid stores nothing, stays on the page and shows the verification-failed message |
| LoginPage.LettersReachFirebase | js/pages/login.js:84-88 | any six characters without white space at either end, letters included, are sent as the code unchanged, since only the length is checked |
| LoginPage.SetupAtMostOnce | js/pages/login.js:29-43 | once reCAPTCHA is ready no handler sets it up again or makes it unready |
| LoginPage.ClearStale | js/pages/login.js:156-179 | a stored uid without an SDK user removes both session keys and replaces the error line with the cleared notice; afterwards the session is never stale; suppressed redirects append the debug note after a separator only when there is text before it |
| LoginPage.AlreadySignedIn | js/pages/login.js:187-195 | the page goes to the dashboard on load iff the SDK has a user with a uid and a profile with an id is loaded |
| Navigation.FirstMatch | js/components/navigation.js:112-122 | the page of the first fragment the path contains, and none iff the path contains no fragment |
| Navigation.CurrentPage | js/components/navigation.js:112-122 | the page is always a known one: the first fragment found, with `cocktail-rubric` giving `rubric`, and the dashboard when none matches |
| Navigation.PageTitle | js/components/navigation.js:124-135 | a known page gets its title and any other page "Dashboard", so the title is never empty |
| Navigation.TitleForEveryPage | js/components/navigation.js:112-135 | every page read off a path has its own entry in the title table |
| Navigation.UnknownPathIsDashboard | js/components/navigation.js:121-134 | a path with no known fragment is the dashboard, titled "Dashboard" |
| Navigation.UpdateMenuOptions | js/components/navigation.js:143-168 | signed in, every tab and the logout button are shown and the admin link is left alone; signed out, only the dashboard, home and index tabs are shown and the admin link and logout button are hidden |
| Navigation.UpdateAdminVisibility | js/components/navigation.js:177-186 | the admin link is shown iff a signed-in admin is the current user, and nothing else changes |
| Navigation.UpdatePageTitle | js/components/navigation.js:170-175 | the title becomes the current page's title and nothing else changes |
| Navigation.SetCurrentUser | js/components/navigation.js:137-142 | after a sign-in every tab and the logout button are shown and the admin link iff the user is an admin |
| Navigation.SetNoUser | js/components/navigation.js:189-194 | without a user only the public tabs are shown and the admin link and logout button are hidden |
| Navigation.OnLogout | js/components/navigation.js:32-36 | a logout event clears the user, retitles and hides the admin link, but leaves tabs and logout button as they were |
| Navigation.AdminLinkIffAdmin | js/components/navigation.js:137-194 | after any user transition the admin link is shown exactly for an admin user |
| Navigation.LogoutKeepsSignedInMenu | js/components/navigation.js:32-36 | after a sign-in then a logout event, every tab and the logout button stay shown |
| Navigation.UpdateActiveTab | js/components/navigation.js:196-206 | a tab is active exactly when its page is the current page, and nothing else changes |
| Navigation.HandlePageChange | js/components/navigation.js:97-104 | the current page changes nothing; another page becomes current, retitles, and is the only page whose tabs are active; the user and admin link stay |
| Navigation.OneActiveTab | js/components/navigation.js:97-104 | with tabs for distinct pages, at most one tab is active after a page change |
| BottomMenu.CurrentPage | js/components/bottom-menu.js:82-89 | the page is one of the four items, found as the first fragment the path contains, and null iff it contains none |
| BottomMenu.ActiveItems | js/components/bottom-menu.js:70-80 | an item is active exactly when its page is the current one |
| BottomMenu.AtMostOneActive | js/components/bottom-menu.js:70-89 | at most one item is active, and none on a page outside the menu |
| BottomMenu.Connect | js/components/bottom-menu.js:14-24 | once connected, the active item follows the path, the cocktail item is shown iff the latest-competition query returns a row, and the menu is revealed whatever the query did |
| BottomMenu.FailedCheckStillRevealed | js/components/bottom-menu.js:91-109 | a failed competition query hides the cocktail item but still reveals the menu |
| BottomMenu.GetAttribute | js/components/bottom-menu.js:63 | an attribute read gives null iff the attribute is absent, and never `undefined` |
| BottomMenu.MenuSoundNeverSet | js/components/bottom-menu.js:61-67 | as written, the click listener never changes the item, so an item without `data-sound` never gets the menu sound |
| BottomMenu.ItemClick | js/components/bottom-menu.js:61-67 | with the intended test the item always ends with a `data-sound`, `menu` when it had none and its own otherwise |
| BottomMenu.ItemClickFixesOnlyMissing | js/components/bottom-menu.js:61-67 | the intended listener differs from the one as written exactly on items without `data-sound`, and a second click changes nothing more |

## Left out

- `serve.py` server plumbing (serve.py:39-53) and the file serving of `SimpleHTTPRequestHandler`: socket and filesystem I/O; file existence is a `string -> bool` parameter.
- CleanUrls.Unquote: Python's `unquote` is modelled on ASCII escapes only. An escape of a byte 0x80 or above stays encoded, and a malformed escape is kept as is, so non-ASCII UTF-8 decoding and its replacement characters are not modelled.
- `express.static` in `server.js`: file serving; only the rewrite of `req.url` is modelled, with `req.path` taken as the URL up to its first `?`.
- Supabase queries, RPCs, upserts and storage uploads, and the Firebase and reCAPTCHA SDK calls: each becomes an outcome parameter (`Result`, `Option` or `bool`) supplied by the caller.
- `localStorage` and `sessionStorage` are finite maps passed in and returned; storage exceptions are not modelled.
- Timers (`setTimeout`, the delayed modal close and message hiding) and the interleaving of `async` handlers: each handler is one sequential transition.
- Concurrency: races between optimistic UI updates and backend replies, and the race the assignment version lock guards against; only the version comparison is modelled.
- HTML escaping through the browser (`escapeHTML`, js/utils/text-format.js:31-35, and the `escapeHtml` copies) relies on the DOM serializer and is an uninterpreted `string -> string` parameter wherever it is called; the four-character rewrite that `formatAndEscapeText` performs itself is modelled in `TextFormat`.
- Floating point: the success-rate `Math.round` (js/pages/dashboard.js:305-311), GIF progress percentages, music time, seek and player volume. Audio volumes are reals and `NaN` volumes are not modelled; JSON setting numbers are integers.
- Locale: weekday and month names from `toLocaleDateString` enter as text; `localeCompare` in the RSVP sort is modelled as plain lexicographic order on characters.
- JavaScript strings are sequences of UTF-16 code units while the model's strings are sequences of characters: `sort()` order, `length` limits (guestbook, OTP length) and `btoa` agree only for text in the Basic Multilingual Plane.
- Randomness: the challenge id (js/pages/challenges-submit.js:229) is a parameter; random guestbook and award images are not modelled.
- AssignmentService.CalculateVersion: that different timestamp sets give different versions is not claimed, since 8 Base64 characters cover only the first 6 bytes of the joined text and collisions are normal.
- Base64.Decode is a reference inverse used to state what `btoa` computes; it is not app code.
- Pure-UI components with no rule to state: favorite-button.js, submission.js, challenge-assignment.js, leaderboard.js, contest-placement-table.js, event-info.js, cocktail-entry-modal.js, headshot-upload.js.
- Session plumbing: app.js, auth-manager.js, event-bus.js, routes/auth.js, utils/auth.js and the Firebase token edge function; the event bus is modelled only as the list of events emitted.
- js/login.js and js/navigation-init.js are stale files the app does not load.
- The browser-console test scripts are not modelled.
- Console logging and `console.warn` branches whose only effect is a log line.
- FirebaseAuth: `init`, `setupRecaptcha`, `getIdToken` and `onAuthStateChanged` are SDK wiring and are left out.
- Achievements: `onChallengeCompleted` only relays a server-side RPC's verdict as an event, `onFavoriteToggled` and `onEventRsvp` do nothing, and `hasAwarded` is not called by the modelled handlers.
- ChallengesSubmit: `loadSubmissions` and its username enrichment are display code; the success path's reload of the list is not modelled.
- LoginPage: the phone input's as-you-type formatting is `PhoneFormat.FormatPhoneInput`; the `auth:redirect` JSON message on load and `appState.init` throwing are left out.
- Optional DOM elements that the code tests for (`if (titleElement)`, `if (adminLink)`) are taken to be present.
- Reloads after a judgment or a submission, and navigation side effects other than the target page, are not modelled.
- Object-prototype keys such as `constructor` in `pageTitles` lookups: the model's title table holds only the listed pages.
- CocktailJudging.WeightedTotal: its own contract states only the case without a judgment; the weighted sum is characterised by MissingCountsAsZero, TotalWithinHundred and TotalMonotoneInTaste.
- BasePage.EnrichScoreboard: a `null` completions reply is treated as an empty list.
- BottomMenu: the `data-sound` an item carries is not connected to a sound. The click-sound listeners registered at js/pages/base-page.js:292-294 match `button`, `a.btn` and `.action-button`, none of which is an `a.bottom-menu-item`. They also run in the capture phase (js/utils/audio.js:126), before the item's own listener sets the attribute. So even the corrected listener does not make a menu click play `menu`.
- Dashboard.UnlockNext: the reveal-prompt markup that replaces the locked badge (js/pages/dashboard.js:381-385) and the `once` option of the reveal listener are not modelled; what a click on the unlocked card emits is UnlockRevealClick.
- Dashboard.Render: modelled from any starting list, while `loadChallenges` always renders into a list it has just emptied (js/pages/dashboard.js:436, 444). UntaggedRenderDuplicates, UntaggedSecondRenderHasTwoCards and TaggedRenderStable describe `renderChallenges` alone; no call in the app re-renders over existing cards.
- ServerUtils.EnsureFirebaseAdmin: `initializeApp()` with the default credentials is taken to succeed; only the certificate path can fail.
- JsMath.ParseInt: leading white space is the set `Strings` recognises, and only the `0x` prefix switches base (no legacy octal), as in current JavaScript engines; numbers beyond 2^53 keep full precision.
- GifStepper: the bitmap decoding, canvas drawing and the `ImageDecoder` support check are left out; a stepper without frames is one with `frameCount` 0.

## Findings

| source | as written | input that shows it | evidently intended | confidence | as-written member | corrected member |
|---|---|---|---|---|---|---|
| js/pages/dashboard.js:514-532 | a new card's listeners are attached with `challengeCard.addEventListener`, but `ChallengeCard` is not an `EventTarget`, so the call throws | any non-empty assignment list rendered into a list with no tagged card | the new card is appended with its reveal and complete handlers | high (not executed) | Dashboard.ListenerCallAborts | Dashboard.RenderFromEmpty |
| js/pages/dashboard.js:388-408 | the reveal listener that `unlockNextChallenge` adds reads `nextCard.dataset.assignmentId`, which `ChallengeCard.create` never sets, so the test `if (assignmentId)` never holds | with the first row fixed, two assignments loaded, the first completed, then the unlocked second card clicked | the click emits a reveal for the second card's assignment | high (not executed) | Dashboard.UnlockedRevealSilent | Dashboard.UnlockedRevealEmits |
| js/components/gif-stepper.js:32 | `parseInt(undefined) ?? 1` is `NaN`, which is not nullish, so the fallback 1 never applies | an image with no `data-steps-per-click` and no option | a missing step size means one frame per click | high (not executed) | GifStepper.NaNStepperNeverCompletes | GifStepper.DefaultStepCompletes |
| js/components/bottom-menu.js:63 | `getAttribute` returns `null` for a missing attribute, never `undefined`, so the test never holds | a menu item without `data-sound` | a menu item without its own sound carries `data-sound="menu"` after its first click | high (not executed) | BottomMenu.MenuSoundNeverSet | BottomMenu.ItemClick |
