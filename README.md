# ClimaCode core in Dafny

ClimaCode is a web app about the carbon footprint of websites. This project
models four of its parts:

- **ClimaScan** (`climascan.dfy`) is the `climascan` edge function. It answers the
  CORS preflight and validates the posted URL. It measures the page as the larger
  of the body length and a readable `Content-Length`, or 2,000,000 bytes when the
  fetch fails. It rounds the per-view CO2 figure to hundredths and derives the
  yearly figure and the four-band sustainability score. It gathers
  recommendations from the AI reply (the bracketed JSON array, or the long lines
  of the reply when that does not parse), falling back to four fixed tips.
  A failed page fetch or a failed AI call does not fail the request, because the
  fallbacks above take over. Only a rejected request (a missing, empty or
  unparsable URL, or a body that is not JSON) gets a 500 response carrying the
  error's message.
- **EcoDevProgress** (`eco_progress.dfy`) is the progress hook. A
  `ProgressStore` class holds the signed-in user's per-module records. `Load`
  runs when the user changes and builds the map from the query rows in a loop. `SaveProgress` upserts one
  record, and the in-memory map changes only when the write succeeds.
- **EcoDevSchool** (`eco_school.dfy`) is the course page. It holds the five-module
  lesson catalogue (only which lessons carry a quiz and the quiz's right answer),
  the unlock gate, the completion and lesson totals, and the eight achievement
  flags. A `School` class holds the page state, and its methods are the
  handlers: start a module, next, previous, pick an answer, submit a quiz, and
  back to modules.
- **Profile** (`profile.dfy`) holds what the profile page derives from its data:
  - the CO2 total and the rounded average score (its EcoDev lesson and module
    counters are the course page's `TotalLessonsCompleted` and
    `TotalModulesCompleted`, the same expressions);
  - the Green Champion test and the score colours;
  - the distinct scanned URLs and the eight profile achievements;
  - the avatar upload rule (2 MiB limit, `<user id>/avatar.<ext>` path);
  - the username save rule (trimmed, blank saved as null).

Shared pieces model JavaScript behaviour the core relies on:

- `js_text.dfy` holds `trim` with the ECMAScript white-space set, `split` on one
  character, `split(".").pop()`, `${n}` for a non-negative integer, and
  `parseInt` without a radix, including sign and `0x` handling.
- `js_number.dfy` holds `parseFloat(x.toFixed(2))` on exact reals, as `Round2`.
- `js_collections.dfy` holds a JavaScript `Set` of numbers as an
  insertion-ordered sequence without repetitions.
- `wrappers.dfy` holds `Option`.

Some of what the code does is easy to miss. The model follows the code:

- A wrong quiz answer leaves the stored scores as they were. Nothing writes a
  0 score.
- The saved `completed` flag needs both conditions: Next was pressed on the last
  lesson, and every lesson has been completed. Because the flag is recomputed on
  every Next, reviewing a completed module and pressing Next on an earlier lesson
  saves `completed = false` and relocks the module after it (`ReviewRelocks`).
- The 0.95 score band is a constant and is not rounded.
- The catalogue card of module 5 says 7 lessons, but the module has 6
  (`CourseShape`).
- The Carbon Cutter achievement is always false.
- When the user signs out, `Load` only clears the loading flag. The map loaded
  for the previous user stays in place.

## Model

| member | source | states |
|---|---|---|
| `EcoDevProgress.FromRow` | src/hooks/useEcoDevProgress.ts:27-32 | a row becomes a record with the same module id and flag; a null lesson list reads as empty and null scores as none |
| `EcoDevProgress.FromRowsKeys` | src/hooks/useEcoDevProgress.ts:25-33 | the loaded map has a key exactly for each module id that occurs in the rows |
| `EcoDevProgress.FromRowsLastWins` | src/hooks/useEcoDevProgress.ts:26-33 | for repeated module ids the record built from the last such row is kept |
| `EcoDevProgress.FromRows` | src/hooks/useEcoDevProgress.ts:25-33 | whatever the rows, every loaded record is filed under its own module id |
| `EcoDevProgress.Upsert` | src/hooks/useEcoDevProgress.ts:52-56 | after the update the keys are the old keys plus the module id, that key holds the new record and every other key is unchanged |
| `EcoDevProgress.UpsertIdempotent` | src/hooks/useEcoDevProgress.ts:42-56 | saving the same record twice gives the same map as saving it once (upsert on user and module) |
| `EcoDevProgress.UpsertKeyedById` | src/hooks/useEcoDevProgress.ts:52-56 | an update keeps every record filed under its own module id |
| `EcoDevProgress.ProgressStore.constructor` | src/hooks/useEcoDevProgress.ts:13-15 | the store starts with an empty map and the loading flag set |
| `EcoDevProgress.ProgressStore.Load` | src/hooks/useEcoDevProgress.ts:17-38 | the store takes the new user; without a user only the loading flag clears and the previous map stays; with one the map becomes one record per row with the last row winning (null data reads as no rows), and loading ends |
| `EcoDevProgress.ProgressStore.SaveProgress` | src/hooks/useEcoDevProgress.ts:40-58 | without a user nothing changes; a successful write upserts the record at its module id; a failed write leaves the map as it was |
| `EcoDevSchool.Lessons` | src/pages/EcoDevSchool.tsx:19-149 | exactly modules 1 to 5 have lessons, and every quiz's right answer is one of its options |
| `EcoDevSchool.LessonCount` | src/pages/EcoDevSchool.tsx:19-149 | the count is the length of the module's lesson list, 0 for a module without one |
| `EcoDevSchool.CourseShape` | src/pages/EcoDevSchool.tsx:19-157 | every module has at least four lessons, and the catalogue count matches the real one except module 5 (card 7, real 6) |
| `EcoDevSchool.IsModuleUnlocked` | src/pages/EcoDevSchool.tsx:186-190 | module 1 is always unlocked; any other module is unlocked exactly when the one before it is completed |
| `EcoDevSchool.IsModuleCompleted` | src/pages/EcoDevSchool.tsx:192 | a module without a record is not completed; one with a record is completed exactly when its flag says so |
| `EcoDevSchool.TotalLessonsCompleted` | src/pages/EcoDevSchool.tsx:194 | the lesson total is at least every single record's count of completed lessons |
| `EcoDevSchool.TotalModulesCompleted` | src/pages/EcoDevSchool.tsx:195 | the module total (also the profile page's completed-modules counter) is at most the number of records |
| `EcoDevSchool.TotalLessonsRemove` | src/pages/EcoDevSchool.tsx:194 | the lesson total over the map is one record's lesson count plus the total over the rest, for any record |
| `EcoDevSchool.SomeLessonCompleted` | src/pages/EcoDevSchool.tsx:194 | the lesson total is at least 1 exactly when some record lists a completed lesson |
| `EcoDevSchool.CompletedModules` | src/pages/EcoDevSchool.tsx:195 | for a map of course modules, the completed modules are the records whose flag is set; their number is the module total, and none lies outside 1 to 5 |
| `EcoDevSchool.CourseModules` | src/pages/EcoDevSchool.tsx:151-157 | the course's module ids are exactly 1 to 5, five of them |
| `EcoDevSchool.AllModulesCompleted` | src/pages/EcoDevSchool.tsx:195 | for a map of course modules, five completed records means every one of modules 1 to 5 is completed, and the converse |
| `EcoDevSchool.EarnedAchievements` | src/pages/EcoDevSchool.tsx:248-257 | there are eight flags, one per achievement card; what each means is stated by `AchievementsMeaning` |
| `EcoDevSchool.AchievementsMeaning` | src/pages/EcoDevSchool.tsx:248-257 | the meaning of the eight flags: First Lesson iff some lesson is recorded, module badge m iff module m is completed, Carbon Cutter never, and, for a map of course modules, Eco Developer iff all five modules are completed |
| `EcoDevSchool.QuizKey` | src/pages/EcoDevSchool.tsx:244 | the key `${module}-${lesson}`, split at '-', gives back the decimal text of the module and of the lesson |
| `EcoDevSchool.QuizKeyInjective` | src/pages/EcoDevSchool.tsx:244 | different (module, lesson) pairs give different score keys `${module}-${lesson}` |
| `EcoDevSchool.NextRecord` | src/pages/EcoDevSchool.tsx:211-219 | the record Next saves has the module id, the unchanged scores, and the completed lessons with the current one added |
| `EcoDevSchool.CompletedFlagMeaning` | src/pages/EcoDevSchool.tsx:214-216 | for stored lessons that are lessons of the module and a current lesson of the module, the saved completed flag is set exactly when Next is pressed on the last lesson and every lesson of the module is among the completed ones |
| `EcoDevSchool.ReviewRelocks` | src/pages/EcoDevSchool.tsx:214-219 | Next on any lesson before the last saves completed = false, which locks the following module again |
| `EcoDevSchool.ModuleOneCompletesOnFourth` | src/pages/EcoDevSchool.tsx:211-216 | in module 1, Next on lesson 2 after lessons 0 and 1 saves not completed; Next on lesson 3 after 0, 1 and 2 saves completed with lessons [0, 1, 2, 3] |
| `EcoDevSchool.School.StartEnabled` | src/pages/EcoDevSchool.tsx:413 | the Start/Review button is enabled exactly when the module has lessons and is module 1 or follows a completed module; only modules 1 to 5 qualify |
| `EcoDevSchool.School.NextEnabled` | src/pages/EcoDevSchool.tsx:330 | the Next button is enabled exactly when a lesson is open and its quiz, if it has one, is submitted |
| `EcoDevSchool.School.constructor` | src/pages/EcoDevSchool.tsx:179-184 | the page starts with no open module, lesson 0, no completed lessons, no answer, not submitted, no scores |
| `EcoDevSchool.School.StartModule` | src/pages/EcoDevSchool.tsx:197-206 | a module without lessons changes nothing; otherwise it opens at lesson 0 with its stored lessons (deduplicated) and scores, or empty ones, the quiz cleared; Next is enabled exactly when lesson 0 has no quiz; opened from an enabled Start/Review button, the open module is one the unlock gate lets through |
| `EcoDevSchool.School.NextLesson` | src/pages/EcoDevSchool.tsx:208-229 | with no open module nothing changes; otherwise the current lesson joins the completed ones, the record is upserted when a user is signed in and the write succeeds, and the cursor moves on or, on the last lesson, the module closes; Next is enabled on the new lesson exactly when it has no quiz; an open module that the unlock gate lets through stays so |
| `EcoDevSchool.School.PrevLesson` | src/pages/EcoDevSchool.tsx:231-237 | on lesson 0 nothing changes; otherwise the cursor steps back and the quiz state clears, everything else kept; an open module that the unlock gate lets through stays so |
| `EcoDevSchool.School.SelectAnswer` | src/pages/EcoDevSchool.tsx:299 | an option click sets the answer only while the quiz is not submitted; an open module that the unlock gate lets through stays so |
| `EcoDevSchool.School.SubmitQuiz` | src/pages/EcoDevSchool.tsx:239-246 | with an open module the quiz becomes submitted; a score of 1 is stored under the lesson's key exactly when the lesson has a quiz and the answer is its right one, otherwise the scores stay; Next is then enabled; an open module that the unlock gate lets through stays so |
| `EcoDevSchool.School.BackToModules` | src/pages/EcoDevSchool.tsx:267 | the lesson view closes; an open module that the unlock gate lets through stays so |
| `JsCollections.Insert` | src/pages/EcoDevSchool.tsx:211 | adding to a Set keeps it without repetitions, adds exactly the new element, and keeps the old order as a prefix |
| `JsCollections.InsertPresent` | src/pages/EcoDevSchool.tsx:211 | adding an element already present changes nothing |
| `JsCollections.Dedup` | src/pages/EcoDevSchool.tsx:202 | `new Set(list)` has no repetitions, the same elements, is no longer than the list, and keeps the listing of the list without its last element in front |
| `JsCollections.CoversRange` | src/pages/EcoDevSchool.tsx:216 | a repetition-free list of lesson indices below n is at least n long exactly when it holds every index below n |
| `JsText.Trim` | src/pages/Profile.tsx:79 | `trim` cuts exactly the white characters at both ends: the result is a slice of the input with only white space before and after it, empty exactly when the input is all white, and with non-white ends otherwise |
| `JsText.TrimIdempotent` | src/pages/Profile.tsx:79 | trimming twice is trimming once |
| `JsText.Split` | supabase/functions/climascan/index.ts:93 | splitting gives at least one piece and no piece holds the separator |
| `JsText.JoinSplit` | supabase/functions/climascan/index.ts:93 | joining the pieces of a split with the separator gives the string back |
| `JsText.AfterLast` | src/pages/Profile.tsx:65 | `split(".").pop()` has no dot; it is the whole name when there is no dot, and otherwise the suffix right after the last dot |
| `JsText.AfterLastSuffix` | src/pages/Profile.tsx:65 | whatever precedes the last dot, the text after it is what `split(".").pop()` returns |
| `JsText.NatToString` | src/pages/EcoDevSchool.tsx:244 | a non-negative number prints as a non-empty string of decimal digits |
| `JsText.NatToStringInjective` | src/pages/EcoDevSchool.tsx:244 | different numbers print differently |
| `JsText.ParseInt` | supabase/functions/climascan/index.ts:29-30 | a blank string gives NaN, and a negative result needs a '-' as the first non-white character |
| `JsText.ParseIntDecimal` | supabase/functions/climascan/index.ts:29-30 | `parseInt` of a number printed in decimal gives the number back |
| `JsNumber.Round2` | supabase/functions/climascan/index.ts:39 | `parseFloat(x.toFixed(2))` is within 0.005 of x, a whole number of hundredths, and not negative for x not negative |
| `JsNumber.Round2Monotone` | supabase/functions/climascan/index.ts:47-49 | rounding to hundredths keeps order |
| `JsNumber.Round2Exact` | supabase/functions/climascan/index.ts:39-40 | a whole number of hundredths rounds to itself |
| `ClimaScan.CheckRequest` | supabase/functions/climascan/index.ts:13-15 | the URL is accepted exactly when it is a non-empty string the URL parser accepts; a missing, empty or non-string URL gives "URL is required", an unparsable one "Invalid URL format", an unreadable body its own message |
| `ClimaScan.HeaderBytes` | supabase/functions/climascan/index.ts:28-29 | a missing or empty Content-Length header is not read |
| `ClimaScan.PageBytes` | supabase/functions/climascan/index.ts:17-35 | a failed fetch counts 2,000,000 bytes; otherwise the size is at least the body length and any readable header value, and is one of the two |
| `ClimaScan.MeasurePage` | supabase/functions/climascan/index.ts:17-35 | the step-by-step measurement gives the page size and is never negative |
| `ClimaScan.DecimalHeader` | supabase/functions/climascan/index.ts:26-31 | a decimal Content-Length n gives the larger of n and the body length |
| `ClimaScan.NoHeader` | supabase/functions/climascan/index.ts:28-29 | without a readable header the size is the body length |
| `ClimaScan.YearlyFigure` | supabase/functions/climascan/index.ts:40 | the yearly figure is within 0.005 of ten times the per-view figure and is a whole number of hundredths |
| `ClimaScan.YearlyIsTenfold` | supabase/functions/climascan/index.ts:39-40 | for a per-view figure already rounded to hundredths, the yearly figure is exactly ten times it |
| `ClimaScan.SustainabilityScore` | supabase/functions/climascan/index.ts:44-49 | every score is a whole number of hundredths |
| `ClimaScan.ScoreBands` | supabase/functions/climascan/index.ts:44-49 | up to 0.1 g the score is 0.95; up to the 0.5 g median it lies in [0.7, 0.9]; up to 1.5 g in [0.3, 0.7]; beyond that in [0.05, 0.3] |
| `ClimaScan.ScoreBounds` | supabase/functions/climascan/index.ts:44-49 | every score lies in [0.05, 0.95], and only a page of at most 0.1 g gets more than 0.9 |
| `ClimaScan.ScoreNonIncreasing` | supabase/functions/climascan/index.ts:44-49 | a heavier page never scores higher |
| `ClimaScan.ScoreJoins` | supabase/functions/climascan/index.ts:47-49 | the bands meet at 0.5 g (0.70) and at 1.5 g (0.30), and from 4 g on the score is the 0.05 floor |
| `ClimaScan.ScanBreakdown` | supabase/functions/climascan/index.ts:42 | the fixed breakdown's parts add up to 100 |
| `ClimaScan.BracketSpan` | supabase/functions/climascan/index.ts:89-90 | the greedy `\[[\s\S]*\]` match exists exactly when a ']' follows the first '['; it runs from that '[' to the last ']' and has no ']' after it |
| `ClimaScan.LongLines` | supabase/functions/climascan/index.ts:94 | the filter keeps only lines of the input whose trimmed length exceeds 10 |
| `ClimaScan.LongLinesKeep` | supabase/functions/climascan/index.ts:94 | a line survives the filter exactly when it is in the input and its trimmed length exceeds 10 |
| `ClimaScan.LongLinesAppend` | supabase/functions/climascan/index.ts:94 | the filter keeps order: filtering a concatenation concatenates the filtered parts |
| `ClimaScan.LineFallback` | supabase/functions/climascan/index.ts:91-96 | the fallback yields exactly the first four long lines of the reply in order, or all of them when there are fewer; each has no newline and is longer than 10 once trimmed |
| `ClimaScan.AiRecommendations` | supabase/functions/climascan/index.ts:54-103 | no key, a failed call or an error status gives nothing; a reply without a bracketed span gives nothing; a parsed span gives its items; a span that does not parse gives the line fallback |
| `ClimaScan.DefaultRecommendations` | supabase/functions/climascan/index.ts:106-112 | the fallback list has four tips |
| `ClimaScan.Recommendations` | supabase/functions/climascan/index.ts:106-113 | the list sent is never empty: the AI's list when it has items, the fallback list otherwise |
| `ClimaScan.NoReplyDefaults` | supabase/functions/climascan/index.ts:97-113 | without a usable reply the fallback list is sent |
| `ClimaScan.UnparsableReply` | supabase/functions/climascan/index.ts:88-113 | when the span does not parse, at most four items are sent: exactly the line fallback (the reply's first four long lines) when it has long lines, and the fallback list when it has none |
| `ClimaScan.EstimateFor` | supabase/functions/climascan/index.ts:37-49 | the estimate keeps the page size; its per-view figure is the formula's value to the nearest hundredth; the yearly figure is ten times it; the score lies in [0.05, 0.95]; the breakdown adds up to 100; the list is not empty |
| `ClimaScan.Scan` | supabase/functions/climascan/index.ts:9-126 | a preflight gets the CORS answer and nothing else does; a rejected request gets a 500 with the error's message; an accepted one gets the estimate for the measured page, whose score lies in [0.05, 0.95], whose yearly figure is ten times the per-view figure, whose size is not negative and whose list is not empty |
| `Profile.TotalCo2` | src/pages/Profile.tsx:93 | with no negative figures the CO2 total is not negative |
| `Profile.TotalCo2Append` | src/pages/Profile.tsx:93 | the total over two lists is the sum of their totals |
| `Profile.TotalCo2SkipsMissing` | src/pages/Profile.tsx:93 | a scan without a CO2 figure does not change the total, wherever it stands |
| `Profile.ScoreSumAtLeast` | src/pages/Profile.tsx:95 | a lower bound on every score (a missing one read as 0) bounds the sum from below |
| `Profile.ScoreSumAtMost` | src/pages/Profile.tsx:95 | an upper bound on every score bounds the sum from above |
| `Profile.AvgScore` | src/pages/Profile.tsx:94-96 | there is an average exactly when there are scans; it is within 0.005 of the mean score and a whole number of hundredths |
| `Profile.RoundsToSeventy` | src/pages/Profile.tsx:95 | a value rounded to hundredths reaches 0.70 exactly when it is at least 0.695 |
| `Profile.GreenChampion` | src/pages/Profile.tsx:111 | Green Champion is earned exactly when there are scans and the unrounded mean score is at least 0.695 |
| `Profile.ChampionByScores` | src/pages/Profile.tsx:111 | non-empty scans that all score at least 0.7 earn Green Champion; non-empty scans that all score at most 0.69 do not |
| `Profile.ScoreColor` | src/pages/Profile.tsx:98-103 | null and 0 are muted; a present non-zero score is success at 0.7 or more, warning from 0.4 below 0.7, and danger below 0.4 |
| `Profile.ColorMonotone` | src/pages/Profile.tsx:98-103 | present non-zero scores are coloured, a higher one never worse, a negative one as danger |
| `Profile.ScannerScoresColoured` | src/pages/Profile.tsx:98-103 | every score the scanner produces gets a colour, and success exactly at 0.7 or more |
| `Profile.DistinctUrls` | src/pages/Profile.tsx:112 | the distinct URLs are exactly the URLs of the scans, and there are no more of them than scans |
| `Profile.RepeatScan` | src/pages/Profile.tsx:112 | scanning a URL already scanned leaves the distinct URLs unchanged |
| `Profile.NewUrlScan` | src/pages/Profile.tsx:112 | scanning a new URL adds one distinct URL |
| `Profile.ProfileAchievements` | src/pages/Profile.tsx:108-117 | there are eight profile flags, one per achievement card; their relations are stated by `ProfileAchievementsMeaning` |
| `Profile.ProfileAchievementsMeaning` | src/pages/Profile.tsx:108-117 | Eco Explorer implies Carbon Tracker, which implies First Scan, as does Green Champion; First Lesson iff some lesson is recorded; the four EcoDev badges are the course page's first four |
| `Profile.AvatarUpload` | src/pages/Profile.tsx:60-66 | without a user or a file nothing happens; with both, a file over 2 MiB is refused, and only a file within the limit is uploaded |
| `Profile.AvatarPathParts` | src/pages/Profile.tsx:65-66 | for a user id without '/' and a file within the 2 MiB limit, the upload path starts with the user's folder before its first '/', and its text after the last '.' is the file's extension |
| `Profile.AvatarFolder` | src/pages/Profile.tsx:66 | the text before the first '/' of `<id>/avatar.<ext>` is the id, for an id without '/' |
| `Profile.AvatarExtension` | src/pages/Profile.tsx:65-66 | the text after the last '.' of `<id>/avatar.<ext>` is the extension, for an extension without '.' |
| `Profile.SaveUsername` | src/pages/Profile.tsx:77-80 | without a user nothing is saved; otherwise null exactly when the input is all white space, and else a non-empty name that trimming leaves unchanged |
| `Profile.StoredNameIsSlice` | src/pages/Profile.tsx:79-80 | the stored name is the input with its leading and trailing white space cut off, and nothing else |

## Left out

- The carbon formula of the `@tgwf/co2` library (`perVisit`) is a parameter of `Scan`. The network fetches, the AI call, the URL constructor, `req.json()` and `JSON.parse` are parameters or datatypes of outcomes.
- `JSON.parse` is modelled as yielding an array of strings or throwing. A reply that parses to something else (an object, numbers) is not modelled.
- Inside the handler's `try`, only the request checks are modelled as failing. A throw from the carbon formula, and the "Unknown error" message for a thrown value that is not an `Error`, are not modelled: `perVisit` is a total function.
- The 15-second fetch timeout is part of `FetchFailed`. The `country` field and the prompt text only feed the AI call, which is a parameter. The console logging and the response headers are not modelled.
- Floating point: figures are exact reals. `toFixed(2)` is modelled as rounding half away from zero on the exact value, so the 0.695 threshold in `GreenChampion` holds of reals, not of binary doubles. The exponent form that `toFixed` uses for values of 1e21 or more is not modelled.
- `parseInt` of a number too large for a double, and strings as UTF-16 code units (the model works on Unicode scalar values), are not modelled.
- React's asynchronous state updates and effect ordering, and concurrent saves, are not modelled. Each handler runs to completion on the current state.
- The scans query (newest first, limit 50), the profile fetch, the avatar's public URL with its `Date.now()` cache-buster, and the toasts are not modelled. `AvatarUpload` and `SaveUsername` state what is written, not the storage calls.
- The page rendering, the lesson texts and titles, and the quiz option texts are not modelled. A lesson is reduced to its quiz's right answer and option count.
- The other pages and functions of the repository are not part of this model: the scanner page, the login page, the offset page, the report generator, and the presentational components.
- `DefaultRecommendations`: states only that there are four tips. The four texts appear in its body, but no property of their wording is proved.
- `EcoDevSchool.TotalLessonsCompleted` is a ghost sum that picks keys in an arbitrary order. This matches `reduce` over the map's values because addition does not depend on order.
