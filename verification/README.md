# FlashSquadMemo progress engine and practice screens, in Dafny

This project models the answer-recording core of FlashSquadMemo, a team quiz and
flash-card web application, and the client-side screens that feed it.

- **Progress table** (`schema.dfy`, module `Schema`). The `member_question_progress`
  table holds one learning record per (member, question). The model covers its column
  defaults and nullability, the `progress_status` enum, the composite primary key and the
  two cascading foreign keys, the `uuid` key columns (which compare ids by value, so the
  case of their hexadecimal letters does not matter) and the range of instants a `timestamp`
  column accepts from the driver. It also covers the two statements the progress route issues
  against the table: find the first keyed row and update every keyed row. `Schema.Insert`
  models how the table treats an insert (defaults, NOT NULL, keys) of a record created
  elsewhere; no file modelled here inserts into it.
- **Scheduler** (`scheduler.dfy`, module `Scheduler`). This is `calculateSpacedRepetition`, a
  simplified SM-2. A miss sets the interval to 0, makes the card due now, and lowers the ease
  by 0.2, never below 1.3. A hit moves the interval 0 → 1 → 6 → round(interval × ease),
  adds 0.1 to the ease, and makes the card due that many days from now. A due date more than
  1e8 days (8.64e15 ms) from the epoch is an Invalid Date. The ease is held in integer tenths
  (2.5 is `25`), so every step is exact. Instants are integer milliseconds.
- **Progress route** (`progress_route.dfy`, module `ProgressRoute`). This is `PATCH /api/progress`.
  It authenticates the caller, validates the body (`updateProgressSchema`), loads the record,
  calls the scheduler, and writes status, review stamps, interval and ease back to the keyed row.
  The driver sends a timestamp as `toISOString()`. An Invalid Date makes that throw, and a
  date after 9999-12-31 comes out with a signed six-digit year (`+YYYYYY-MM-DDT…`), which
  PostgreSQL's timestamp input rejects. Either way the answer ends in the handler's catch
  with 500 and writes nothing. The model writes an answer only when both its review stamp
  and its due date lie from 0001-01-01 to 9999-12-31 (UTC).
- **Practice screens** (`client.dfy`, `buzzer.dfy`, `familiarize.dfy`, `poetry.dfy`,
  `poetry_card.dfy`, `quiz_client.dfy`). These model the buzzer round with its typewriter, the
  flash-card round, the poem-pairing round and the poem card layout. They also model the quiz
  page's list loading, screen choice, review badge and background refresh. `Math.random` is
  replaced by an explicit index `pick` (and a `coin` for the poem side). Timer ticks and
  fetch completions are explicit events. Local-storage reads are `Option<string>` values.

`wrappers.dfy` (Option, Result) and `json.dfy` (parsed JSON values, JavaScript truthiness)
are shared helpers.

Facts about the route that the model keeps:
- A miss lowers the ease by 0.2, with a floor of 1.3.
- The status is `correct` or `incorrect` after the answer just given, and nothing else.
- `correctStreak` is never written.

Two components read `question.content`, but the `Question` type declares `question`
(`types/question.ts:5`): the buzzer typewriter (`components/BuzzerMode.tsx:22-23`) and the
flash card (`components/FamiliarizeMode.tsx:98`). The model uses the declared `question` text.
The buzzer typewriter counts UTF-16 code units, as JavaScript's `length` and `substring` do.

## Model

| member | source | states |
|---|---|---|
| Schema.ParseStatus | lib/schema.ts:58 | a stored status label is accepted exactly when it is one of unanswered, correct, incorrect, and it reads back to the status that prints as that label |
| Schema.Insert | lib/schema.ts:59-68 | an insert succeeds exactly when the NOT NULL columns are not null, the (member, question) key is new and both referenced ids exist; on success it appends one keyed row and keeps the primary key and foreign keys valid; a duplicate key gives a unique violation |
| Schema.FreshRecordDefaults | lib/schema.ts:62-67 | a record inserted with only its key is unanswered, with interval 0, ease 2.5, streak 0 and null review timestamps |
| Schema.NullabilityOfColumns | lib/schema.ts:62-67 | explicit NULL is refused for status and correct_streak, and kept for interval and ease_factor |
| Schema.AtMostOneRowPerKey | lib/schema.ts:68 | under the composite primary key, two rows with the same (member, question) are the same row |
| Schema.CanonicalUuid | lib/schema.ts:60-61 | an id and its canonical spelling agree everywhere except that each upper-case hexadecimal letter becomes the lower-case one; the canonical spelling has no upper-case hexadecimal letter |
| Schema.CanonicalUuidIsIdempotent | lib/schema.ts:60-61 | the canonical spelling of a canonical id is the id itself |
| Schema.FindFirst | app/api/progress/route.ts:66-71 | the lookup finds a row exactly when some row has the key; the row found carries the key and is the first such row |
| Schema.UpdateWhere | app/api/progress/route.ts:87-98 | the update rewrites the written columns of every keyed row, and keeps every other row and the row order |
| Schema.UpdateWhereIsPointUpdate | app/api/progress/route.ts:95-98 | with the primary key in force, the keyed update changes exactly one position of the table |
| Schema.UpdateWhereKeepsValid | lib/schema.ts:60-68 | an update keeps the primary key and both foreign keys valid |
| Schema.FilterKeepsUniqueKeys | lib/schema.ts:68 | removing rows keeps the primary key valid |
| Schema.DeleteMember | lib/schema.ts:60 | deleting a member removes exactly that member's progress records, and keeps the table valid |
| Schema.DeleteQuestion | lib/schema.ts:61 | deleting a question removes exactly that question's progress records, and keeps the table valid |
| Scheduler.RoundProduct | app/api/progress/route.ts:39 | the rounded product is the nearest integer to interval × ease, with halves rounded up as in `Math.round` |
| Scheduler.ProductBounds | app/api/progress/route.ts:39 | the rounded product is not negative for non-negative inputs, and exceeds any interval of 2 or more when the ease is at least 1.3 |
| Scheduler.AddDays | app/api/progress/route.ts:42-43 | adding days to a clock reading gives that instant when it lies within the `Date` range (±8.64e15 ms), and an Invalid Date otherwise |
| Scheduler.Next | app/api/progress/route.ts:17-46 | a miss gives interval 0, due now, and ease max(1.3, ease − 0.2); a hit gives intervals 0→1, 1→6, else round(i·e), ease + 0.1 exactly, due now + interval days, or an Invalid Date exactly when that leaves the `Date` range; with a healthy start the interval is never negative, a due date is never before now, and a hit strictly lengthens the interval |
| Scheduler.ValidDueDateKeepsIntervalInt4 | lib/schema.ts:65 | whenever the due date is valid, the new interval fits the 32-bit `integer` column, so the Date limit is always reached before the column would overflow |
| Scheduler.ReplayStaysHealthy | app/api/progress/route.ts:26-45 | over any sequence of answers, the interval stays non-negative and the ease stays at least 1.3 |
| Scheduler.MissesLowerEaseToFloor | app/api/progress/route.ts:26-33 | n misses in a row leave interval 0 and ease max(1.3, e − 0.2n) |
| Scheduler.HitsRaiseEaseAndInterval | app/api/progress/route.ts:35-45 | n hits in a row raise the ease by exactly 0.1n (no upper bound) and lengthen the interval by at least n days |
| Scheduler.FreshRecordHitSequence | app/api/progress/route.ts:37-41 | from the defaults, three hits give intervals 1, 6, 16 and eases 2.6, 2.7, 2.8 |
| Scheduler.ThirteenHitsFromDefaults | app/api/progress/route.ts:35-45 | from the defaults, thirteen hits in a row reach interval 2 038 878 days and ease 3.8 |
| Scheduler.FourteenthHitIsNotStorable | app/api/progress/route.ts:39-43 | the next hit, at any time after 1970, asks for interval 7 747 736 days, whose due date lies after year 9999 (or outside the `Date` range) and cannot be stored |
| Scheduler.FifteenHitsFromDefaults | app/api/progress/route.ts:35-45 | from the defaults, fifteen hits in a row reach interval 30 216 170 days and ease 4.0 |
| Scheduler.SixteenthHitLeavesDateRange | app/api/progress/route.ts:39-43 | a hit from interval 30 216 170 and ease 4.0, at any time after 1970, asks for interval 120 864 680 days and yields an Invalid Date |
| Scheduler.ClampedNext | app/api/progress/route.ts:35-45 | corrected scheduler: whenever the clock reading is storable, the due date exists and lies within the storable range (years 0001 to 9999); it equals `Next` whenever `Next`'s due date is storable; the ease is `Next`'s; for non-negative inputs the interval is between 0 and `Next`'s |
| ProgressRoute.Validate | app/api/progress/route.ts:10-14 | a body validates exactly when it is an object with uuid `memberId` and `questionId` and a boolean `isCorrect`; the request carries those values; a rejection names exactly the faulty fields |
| ProgressRoute.IsUuid | app/api/progress/route.ts:11 | a uuid is five hex groups of 8, 4, 4, 4 and 12 digits joined by hyphens, exactly when it is 36 characters with hyphens at 8, 13, 18, 23 and hex digits elsewhere |
| ProgressRoute.RequestBody | components/FamiliarizeMode.tsx:65 | the body the screens send validates exactly when both ids are uuids, and then back to the same request; otherwise `isCorrect` is never among the faulty fields |
| ProgressRoute.CanonicalUuidKeepsShape | app/api/progress/route.ts:11 | an id is a well-formed uuid exactly when its lower-case spelling is |
| ProgressRoute.ValidateRequestBody | app/api/progress/route.ts:10-14 | the body a client builds from uuid ids validates back to the same request |
| ProgressRoute.ValidateRejectsMalformedId | app/api/progress/route.ts:11 | a non-uuid member id is rejected and named |
| ProgressRoute.ValidateIgnoresExtraKeys | app/api/progress/route.ts:10-14 | keys other than the three schema keys do not change the validation result |
| ProgressRoute.StatusCode | app/api/progress/route.ts:53-104 | only the success response has status 200 |
| ProgressRoute.StoredInterval | app/api/progress/route.ts:83 | a NULL stored interval is read as 0 and any stored value as itself |
| ProgressRoute.StoredEase | app/api/progress/route.ts:84 | a NULL stored ease is read as 2.5 and any stored value as itself |
| ProgressRoute.AnswerWrite | app/api/progress/route.ts:78-94 | nothing can be written exactly when the review stamp or the scheduler's due date is an Invalid Date or lies outside years 0001 to 9999; with a storable clock reading only a hit can cause that; otherwise the written status is correct iff the answer was, the record is stamped reviewed now, interval, ease and due date are the scheduler's output on the stored values, and the interval fits the int4 column |
| ProgressRoute.Patch | app/api/progress/route.ts:50-106 | error exits come in order: 401 without auth, whatever the body; 500 for an unparsable body; 400 for an invalid one; 404 when no record has the key, ids compared as uuids; 500 when a timestamp cannot be stored. None of them writes. The update happens exactly when all checks pass and both timestamps can be stored, and it keeps the table valid |
| ProgressRoute.PatchWritesOnlyKeyedRow | app/api/progress/route.ts:79-104 | an answer to an existing record (its key matched as uuids) answers 500 and changes nothing when the review stamp or the due date cannot be stored (an Invalid Date, or a date outside years 0001 to 9999). Otherwise it changes only the keyed row: the status becomes correct iff the answer was, lastReviewedAt becomes now, interval, ease and due date follow the scheduler, and the key and correctStreak stay unchanged |
| ProgressRoute.PatchKeepsRecordsHealthy | app/api/progress/route.ts:81-94 | after any request, every record's interval is still non-negative and its ease still at least 1.3 |
| ProgressRoute.RepeatedCorrectAnswerAdvancesTwice | app/api/progress/route.ts:87-104 | the route is not idempotent: when both are recorded, resending the same correct answer lengthens the interval again; an answer that is not recorded leaves the table as it was |
| ProgressRoute.LongStreakRecordIsStuck | app/api/progress/route.ts:81-104 | a record at interval 2 038 878 and ease 3.8 (thirteen hits from the defaults) answers every correct answer after 1970 with 500 and never changes |
| ProgressRoute.PatchIgnoresLetterCase | app/api/progress/route.ts:66-98 | two requests whose ids differ only in the case of their hexadecimal letters leave the table in the same state and get the same status code |
| Client.RemoveId | components/FamiliarizeMode.tsx:37 | filtering by id keeps exactly the questions with another id, as a sub-multiset, and strictly shrinks the list when the id is present |
| Client.RemoveListedIdDropsOne | components/BuzzerMode.tsx:21 | with distinct ids, removing a listed question's id removes exactly one question |
| Client.RemoveAbsentIdKeepsAll | components/FamiliarizeMode.tsx:37 | removing an id that no question carries changes nothing |
| Client.ProgressRequest | components/PoetryMode.tsx:54-61 | a progress request exists exactly when member id and token are both present and non-empty; it carries the question's id and the answer |
| Buzzer.CharUnits | components/BuzzerMode.tsx:23 | a character inside the Basic Multilingual Plane is one code unit, its own code; one outside is a high and a low surrogate that decode back to it |
| Buzzer.Utf16 | components/BuzzerMode.tsx:23 | a string has at least as many code units as characters, and starts with the units of its first character |
| Buzzer.BmpTextIsOneUnitPerChar | components/BuzzerMode.tsx:23 | text inside the Basic Multilingual Plane has one code unit per character, each the character's own code |
| Buzzer.Mount | components/BuzzerMode.tsx:15-20 | the first load idles with the whole list remaining and no question shown |
| Buzzer.QuestionsChanged | components/BuzzerMode.tsx:20 | a new list refills the remaining questions and idles, keeping the last question and its text, and keeps the round invariant |
| Buzzer.NextQuestion | components/BuzzerMode.tsx:21 | with none left the round finishes with no current question. Otherwise the picked question becomes current and every question with its id leaves the remaining list, which shrinks. The text is cleared and typing starts. The round invariant holds |
| Buzzer.Buzz | components/BuzzerMode.tsx:22 | while typing with a current question, buzzing shows the full content and answers; otherwise it does nothing |
| Buzzer.Tick | components/BuzzerMode.tsx:23 | a tick extends the text by one code unit as a prefix of the content. Once the text is complete the tick answers and leaves the text alone. Outside typing it does nothing |
| Buzzer.Reset | components/BuzzerMode.tsx:24 | reset is the fresh round over the whole list, with nothing completed |
| Buzzer.CompletedInRange | components/BuzzerMode.tsx:32 | the completed count lies between 0 and the list length |
| Buzzer.NextQuestionCompletesOne | components/BuzzerMode.tsx:21 | with distinct ids each draw raises the completed count by exactly one |
| Buzzer.TicksRevealPrefix | components/BuzzerMode.tsx:23 | from the first k code units, n ticks show the first k + n code units |
| Buzzer.UnbuzzedQuestionIsAnswered | components/BuzzerMode.tsx:23 | left alone, a question is typed out in full after as many ticks as it has UTF-16 code units, and answered one tick later |
| Buzzer.AstralCharacterTakesTwoTicks | components/BuzzerMode.tsx:23 | a leading character outside the Basic Multilingual Plane shows as a lone high surrogate after one tick and in full after two |
| Familiarize.Mount | components/FamiliarizeMode.tsx:16-19 | before the load effect the round is empty with no card, the answer hidden and nothing loading, so no button can be pressed |
| Familiarize.QuestionsChanged | components/FamiliarizeMode.tsx:21-31 | a new list becomes the round; the current question is drawn from it and is null iff it is empty |
| Familiarize.ShowNextQuestion | components/FamiliarizeMode.tsx:33-46 | advancing hides the answer and removes every question with the answered id, so the list never grows. The next question comes from what is left and is null iff nothing is left |
| Familiarize.BeginFeedback | components/FamiliarizeMode.tsx:48-66 | feedback does nothing without a current question or while loading. Missing credentials send nothing, do not advance, and clear loading. Otherwise exactly one request for the current question is sent, and the screen waits |
| Familiarize.FinishFeedback | components/FamiliarizeMode.tsx:61-80 | any HTTP response refreshes the review list and removes the answered question, right or wrong; a network failure only clears loading |
| Familiarize.Enabled | components/FamiliarizeMode.tsx:113-115 | a button is enabled exactly when there is a card, nothing is loading, and the answer is hidden for the reveal button or shown for the two feedback buttons |
| Familiarize.Press | components/FamiliarizeMode.tsx:113-115 | a disabled button does nothing; the reveal shows the answer and sends nothing; a feedback button starts feedback with "mastered" as the correct answer; a request only ever goes out for the shown card with its answer revealed |
| Familiarize.FeedbackNeedsRevealedAnswer | components/FamiliarizeMode.tsx:113-115 | the feedback buttons do nothing before the answer is shown |
| Familiarize.OneRequestAtATime | components/FamiliarizeMode.tsx:49 | while a request is in flight, no button sends another |
| Familiarize.NextCardStartsHidden | components/FamiliarizeMode.tsx:34 | after the round moves on, feedback is disabled until the next answer is shown |
| Familiarize.AnswerShrinksRoundByOne | components/FamiliarizeMode.tsx:68-72 | with distinct ids a completed answer removes exactly the answered card, and that card is not drawn again |
| Poetry.Mount | components/PoetryMode.tsx:16-19 | before the effect runs there is no round and no card, the answer is hidden, and the question text is the prompt side |
| Poetry.ShowNextQuestion | components/PoetryMode.tsx:21-30 | drawing yields a member of the list, or null iff the list is empty; the answer is always hidden |
| Poetry.StartRound | components/PoetryMode.tsx:32-36 | a round starts over the full list with a card drawn from it |
| Poetry.ShowAnswer | components/PoetryMode.tsx:40 | revealing shows the answer and keeps the card, its side and the round |
| Poetry.Feedback | components/PoetryMode.tsx:43-73 | with no card, feedback does nothing. Otherwise the card's id leaves the round and the next card is drawn. A request goes out iff both credentials are present |
| Poetry.Refreshes | components/PoetryMode.tsx:62-67 | the review list is refreshed only after a 2xx response |
| Poetry.FeedbackAdvancesRegardless | components/PoetryMode.tsx:48-56 | the next screen depends neither on the answer given nor on the credentials |
| Poetry.FeedbackShrinksRoundByOne | components/PoetryMode.tsx:49-51 | with distinct ids each answered card shrinks the round by exactly one |
| PoetryCard.MetadataField | components/PoetryPairCard.tsx:20 | a metadata field is read exactly when the metadata is an object holding that key; missing or non-object metadata yields nothing |
| PoetryCard.OrDefault | components/PoetryPairCard.tsx:47 | a missing or falsy author/title falls back to the given text, otherwise it is shown as stored |
| PoetryCard.Layout | components/PoetryPairCard.tsx:15-20 | the prompt and answer lines are a permutation of the question and the answer, unswapped iff the question text is the prompt. The labels are 上句 and 下句 in some order. Author and title fall back to 佚名 and 无题 |
| PoetryCard.LabelsFollowLines | components/PoetryPairCard.tsx:15-18 | the line labelled 上句 is always the question text and the line labelled 下句 the answer text |
| PoetryCard.FlipSwapsSides | components/PoetryPairCard.tsx:15-18 | turning the card over swaps lines and labels together |
| PoetryCard.MissingMetadataDefaults | components/PoetryPairCard.tsx:20-47 | without metadata the card reads 佚名《无题》; an empty author reads 佚名 |
| QuizClient.Mount | app/QuizClient.tsx:18-24 | the page starts in practice mode over all questions of a standard bank with empty lists and no error, showing only the spinner and no badge |
| QuizClient.BeginLoad | app/QuizClient.tsx:26-35 | loading starts with no error; a missing token or member id fails the page at once, and nothing is fetched |
| QuizClient.FailureMessage | app/QuizClient.tsx:41-55 | an error status reports the body's non-empty `error` text or else the generic message, so it is never blank; a rejected fetch reports its own message |
| QuizClient.FinishLoad | app/QuizClient.tsx:36-56 | both lists and the bank mode are stored exactly when both replies succeed. Otherwise the page fails and keeps its lists: a rejected fetch's message comes first (the full list's when both reject), then an error status of the full list, then of the review list |
| QuizClient.CurrentQuestions | app/QuizClient.tsx:76 | the practice list is the full list in 'all' and the review list in 'review' |
| QuizClient.Render | app/QuizClient.tsx:78-97 | screens take precedence in this order: loading, error, then in practice an empty review, an empty list, then the poem or flash-card screen by bank mode. In buzzer mode it is an empty bank or the buzzer over the full list |
| QuizClient.BuzzerIgnoresSubMode | app/QuizClient.tsx:93-95 | the buzzer screen is the same whatever the practice sub-mode and review list |
| QuizClient.LoadingHidesEverything | app/QuizClient.tsx:79 | while loading, only the spinner shows |
| QuizClient.BadgeText | app/QuizClient.tsx:116-117 | the badge is hidden at 0, shows the digit for 1-9, and shows '9+' above 9; a shown badge is one or two characters |
| QuizClient.ReviewBadge | app/QuizClient.tsx:111-117 | the badge shows only in practice mode and only with reviews due |
| QuizClient.BadgeDistinguishesSmallCounts | app/QuizClient.tsx:117 | different counts from 1 to 9 show different badges, and none of them shows the badge of any count above 9 |
| QuizClient.BeginRefresh | app/QuizClient.tsx:61-64 | the background refresh is requested iff both credentials are present |
| QuizClient.RefreshAsWritten | app/QuizClient.tsx:65-71 | as written, the refresh assigns the reply body's `questions`: the new list on success, unchanged on a network failure |
| QuizClient.RefreshAsWrittenLosesReviewList | app/QuizClient.tsx:69-71 | as written, an error reply sets the review list to undefined |
| QuizClient.FinishRefresh | app/QuizClient.tsx:65-73 | the refresh replaces only the review list, never the bank mode or anything else, and only on a successful reply |
| QuizClient.RefreshTriggersDiffer | components/PoetryMode.tsx:62-67 | flash cards refresh the review list after any HTTP response, poem cards only after a 2xx one |

## Findings

| source | as written | input that shows it | evidently intended | confidence | as-written member | corrected member |
|---|---|---|---|---|---|---|
| app/api/progress/route.ts:39-43 | a hit sets the due date with `setDate(getDate() + newInterval)` for any interval, and the update then serialises that date | the 14th correct answer in a row to a record at the defaults: after thirteen hits the record holds interval 2 038 878 days and ease 3.8, so the next hit asks for 7 747 736 days, a due date some 21 200 years after the answer that serialises with a signed six-digit year and is rejected by the timestamp column; every later correct answer answers 500 and the record never changes again (from interval 30 216 170 the date even leaves the `Date` range) | every answer to an existing record is recorded, with the due date kept within the storable range | medium, not executed | ProgressRoute.Patch (shown by ProgressRoute.LongStreakRecordIsStuck, Scheduler.ThirteenHitsFromDefaults and Scheduler.FourteenthHitIsNotStorable) | Scheduler.ClampedNext |
| app/QuizClient.tsx:65-71 | the background refresh calls `setReviewQuestions(data.questions)` on any reply, without checking `res.ok` | an expired token: the review request answers 401 with body `{ error: ... }`, so `data.questions` is `undefined` and the next render reads `reviewQuestions.length` | as in the initial load (app/QuizClient.tsx:41), only a successful reply replaces the review list | medium, not executed | QuizClient.RefreshAsWritten (shown by QuizClient.RefreshAsWrittenLosesReviewList) | QuizClient.FinishRefresh |

## Left out

- Scheduler.Next: the ease column is a `real` (float4) and JavaScript arithmetic is binary floating point. The model keeps the ease exact in tenths, so rounding drift (e.g. 2.5 − 0.2 × k) is not modelled.
- Scheduler.Next: `setDate(getDate() + n)` adds n calendar days in local time. The model adds n × 86 400 000 ms, so daylight-saving shifts are not modelled.
- ProgressRoute.Patch: the two `new Date()` readings (scheduler and `lastReviewedAt`) are taken as one instant `now`.
- ProgressRoute.Patch: database failures (connection loss, write errors) also reach the 500 exit through the handler's catch. The model has no failing store.
- ProgressRoute.Patch: concurrent or duplicate submissions to one record are not modelled. The code takes no lock, so this is a concurrency concern outside a sequential model.
- ProgressRoute.Patch: token verification (`lib/auth.ts`, JWT) is a foreign cryptographic check and is an input boolean. The 401 message text is not modelled.
- ProgressRoute.IsUuid follows zod 3's `uuid()` pattern: 8-4-4-4-12 hex digits in any case. The zod version is not pinned in the sources shown, and stricter later patterns are not modelled.
- Json: numbers are integers. No validated field is numeric, so fractions never matter.
- The due-for-review query (`/api/get-questions`) is not part of this model. The quiz page treats its reply as a given list.
- QuizClient.FinishLoad: when both fetches reject, `Promise.all` fails with whichever rejects first in time. The model reports the full-list one. A body that is not JSON, and a successful body without `mode` or `questions`, are not modelled.
- ProgressRoute.RepeatedCorrectAnswerAdvancesTwice: the second lengthening is promised only when both answers are recorded. When a timestamp cannot be stored the route answers 500 and writes nothing (see Findings).
- ProgressRoute.Patch: the route model keeps the code as written. The corrected scheduler `Scheduler.ClampedNext` is not wired into it, because the corrected route would no longer describe the deployed handler.
- Buzzer.Buzz: the source shows `currentQuestion.content`, a field the `Question` type does not declare. As written a buzz would show `undefined`. The model shows the declared `question` text.
- Buzzer.Tick: the source reads `currentQuestion.content.length`, which would throw on the first tick for a declared `Question`. The model types out the declared `question` text.
- ProgressRoute.AnswerWrite: the storable range rests on two facts outside the sources: the driver serialises a `Date` with `toISOString()`, and PostgreSQL's timestamp input rejects year 0 and the signed six-digit years `toISOString()` prints outside years 0000 to 9999. Both are taken as given.
- ProgressRoute.Patch: the model assumes a database handle that knows the schema. `lib/db.ts:8` builds `drizzle(sql)` without passing `{ schema }`, and then `db.query.memberQuestionProgress` would be undefined, so every valid request would fail in the catch with 500. The model describes the handler as if the relational query API were configured.
- Schema.Insert: ids are taken as already in canonical lower-case spelling. The column would canonicalise an upper-case id on insert; the model does not.
- Schema.Insert: the order of the constraint checks (NOT NULL, then primary key, then foreign keys) follows PostgreSQL's usual order, which the schema file does not state.
- The teams, members, question banks and questions tables appear only as the id sets the foreign keys point to. Their other columns, login, seat selection, seeding and layout pages carry no logic modelled here.
- React scheduling is not modelled. Each handler reads the state of the render it was created in, and `Familiarize.InFlight` keeps the captured list. Double clicks that land before a re-render (poem feedback has no loading guard) are not modelled.
- `setInterval` timing (150 ms) is replaced by explicit tick events. `alert`, console logging and all presentation (colours, animation, icons, button texts) are left out.
- PoetryCard.MetadataField: non-object metadata is read as having no author or title. React's rendering of non-string author/title values is not modelled.
