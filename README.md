# Driving-theory learning-state engine, in Dafny

This project models the on-device learning state of a driving-theory exam app. It also
models two of the app's server routes. Everything else in the app is left out.

**The stores.** Each store keeps one JSON document in the browser's storage:

- **Progress** keeps per-question answer counters and derives statistics from them:
  overall and per-topic stats, the currently wrong questions, the most often wrong
  questions, accuracy and the last study time.
- **Review** is an "SM-2 lite" spaced-repetition schedule over the questions answered
  wrongly. Items graduate out after five correct repetitions.
- **Streak** is a consecutive-day counter.
- **Mock** is a log of the last 20 mock tests. Each finished test carries a per-topic
  breakdown. The log also yields the weak topics of the last five finished tests.
- **Daily** builds the daily ten-question session (due reviews, then weak-topic
  questions, then a random fill). It keeps a week of sessions and reports a completed
  session to the CRM.
- **Sync** is the outbox of items bound for the CRM, and the flush pass that delivers
  them with at most five retries.
- **CrmAuth** reads the CRM student's JWT from a cookie or from the stored link.
- **Bookmarks**, **Comments** and **Settings** are small keyed stores.

**The routes.** `GET /api/questions` filters and pages the question bank.
`GET`/`PUT /api/ai/settings` reports and replaces the OpenAI key, behind an admin PIN.

**Form of the model.** One Dafny module per source file:

- A store whose document is read, changed in place and written back is a `class`. The
  document is a field of the class.
- Each change to the document is a `method`. Its `ensures` ties the new document to a
  specification function of the old one.
- The properties the code promises are proved as lemmas about those functions.
- Loops in the source are loops here: the daily selection, the pruning of old sessions,
  the statistics counters and the mock-result aggregation. Each carries its invariants.
- The routes and the pure pipelines (filters, sorts, JWT decoding) are functions.

**Inputs that become parameters.** Time, randomness and the outside world are passed in
as parameters:

- "today" is a whole day number, and yesterday is `today - 1`;
- `Date.now()` is `now`, in milliseconds;
- generated ids and ISO timestamps are arguments;
- each random shuffle is an arbitrary permutation, constrained by a `multiset` requires;
- each delivery's outcome in a flush is a boolean;
- `atob` plus `JSON.parse` is a function `decode`;
- decryption, and whether the key file could be written, are arguments.

**JavaScript objects.** A JavaScript object used as a dictionary is `Dicts.Dict`: a map
plus the insertion order of its keys, so that `Object.keys`/`Object.values` have an order.

**Where the specification and the code disagree, the model follows the code:**

- For a correct answer the SM-2 ease adjustment `0.1 - (5-4)*(0.08 + (5-4)*0.02)` is 0,
  not +0.02. Ease only changes on a wrong answer (`Review.CorrectKeepsEase`).
- markCompleted pushes the DAILY_COMPLETED event and a snapshot on every call that
  leaves the session completed, not once on the transition (`Daily.DailyStore.MarkCompleted`).
- A review item falls due `addDays(today, interval)`, which the code computes as today +
  interval − 1, not today + interval: a new or lapsed item is due the same day. The model
  takes the day count as a parameter (`Review.DateCount`): `UtcDate` is the code's count and
  `LocalDate` the intended one. The discrepancy is recorded under Findings.
- saveOutbox and saveBookmarks do not swallow storage errors, unlike the other stores.
  The model does not model storage failure at all.

## Model

| member | source | states |
|---|---|---|
| Progress.Upsert | src/lib/progressStore.ts:137-156 | An unseen id gets a record with correct + wrong = 1 matching the answer. A seen id gets exactly one counter bumped. Last answer, time and topic are overwritten. Every other record is unchanged. A new key goes last in key order. |
| Progress.ApplyAll | src/lib/progressStore.ts:171-191 | The batch keeps the document well formed. |
| Progress.ApplyAllAppend | src/lib/progressStore.ts:171-191 | A batch of a + b is the batch a followed by the batch b. So a batch is saveAnswer applied to each result in order. |
| Progress.ApplyAllFrame | src/lib/progressStore.ts:171-191 | A batch leaves every record it does not mention unchanged. |
| Progress.CountAnswerSplit | src/lib/progressStore.ts:204-210 | Every record is last-correct or last-wrong, so the two counts add up to the number of records. |
| Progress.WrongQuestionIds | src/lib/progressStore.ts:244-249 | Exactly the ids whose last answer was wrong, without repeats. |
| Progress.WrongCount | src/lib/progressStore.ts:262-264 | The length of the wrong-id list, which equals the number of records last answered wrongly. |
| Progress.WrongFilterCount | src/lib/progressStore.ts:244-249 | Filtering the keys by a wrong last answer keeps as many keys as there are records last answered wrongly. |
| Progress.TopWrongIds | src/lib/progressStore.ts:252-259 | At most n ids, all with wrong > 0, without repeats. Ordered by non-increasing wrong count. No id left out has more wrong answers than an id taken. The exact length follows `slice(0, n)`, including negative n. |
| Progress.TopWrongIgnoresLastAnswer | src/lib/progressStore.ts:254-256 | The list depends only on the keys and wrong counts, not on the last answers. |
| Progress.TopWrongOutlivesCurrentWrong | src/lib/progressStore.ts:244-259 | Three wrong answers then one right: the id is still the top wrong question but no longer currently wrong. |
| Progress.UpsertOnly | src/lib/progressStore.ts:137-156 | On a store holding only that id (or nothing), an answer leaves a store holding only that id. |
| Progress.DefaultTopWrongBound | src/lib/progressStore.ts:252 | With the default n of 50, the top-wrong list holds at most 50 ids. |
| Progress.OnlyRecordTop | src/lib/progressStore.ts:252-259 | When the only record has wrong > 0, the top-1 list is that id. |
| Progress.OnlyRecordRight | src/lib/progressStore.ts:244-249 | When the only record was last answered correctly, there are no wrong ids. |
| Progress.AccuracyRate | src/lib/progressStore.ts:285-291 | 0 for an empty store. Otherwise the nearest integer to 100·correct/answered (halves up). Always within 0..100. |
| Progress.MaxLastAt | src/lib/progressStore.ts:281 | The value is some record's time, and no record's time is later. |
| Progress.LastStudyDate | src/lib/progressStore.ts:277-282 | null exactly for an empty store. Otherwise the latest answer time among the records. |
| Progress.ProgressStore.SaveAnswer | src/lib/progressStore.ts:131-159 | The document becomes `Upsert` of the old one, and a CRM push is scheduled. |
| Progress.ProgressStore.SaveAnswersBatch | src/lib/progressStore.ts:162-194 | The loop applies each result in turn: the document becomes `ApplyAll` of the old one. |
| Progress.ProgressStore.OverallStats | src/lib/progressStore.ts:197-218 | total is 600, answered is the number of records, and correct/wrong count the last answers. correct + wrong = answered. |
| Progress.ProgressStore.TopicStats | src/lib/progressStore.ts:221-241 | total comes from the fixed topic table (0 for unknown topics). answered counts the topic's records, and correct + wrong = answered ≤ all records. |
| Progress.ProgressStore.ResetProgress | src/lib/progressStore.ts:267-274 | The document is empty: no wrong ids, accuracy 0, no last study date. |
| Review.CorrectKeepsEase | src/lib/reviewStore.ts:66-71 | With quality fixed at 4 the SM-2 ease adjustment is exactly 0. |
| Review.AtLeastMinEase | src/lib/reviewStore.ts:68-76 | `Math.max(1.3, e)`: at least 1.3 and at least e, and one of the two. |
| Review.AddDays | src/lib/reviewStore.ts:29-33 | d + n − 1 under `UtcDate`, as the code computes it; d + n under `LocalDate`, the count on the Vietnamese calendar. |
| Review.ComputeNextReview | src/lib/reviewStore.ts:50-81 | Correct: repetitions + 1, interval 1 then 3, then interval·ease rounded, ease unchanged but at least 1.3. Wrong: a lapse, repetitions 0, interval 1, ease lowered by 0.2 but not below 1.3. Due on `addDays(today, interval)`: today + interval − 1 as the code counts (`UtcDate`), today + interval on the Vietnamese calendar (`LocalDate`). Ids and creation time kept. |
| Review.NextReviewHealthy | src/lib/reviewStore.ts:50-81 | An item with ease ≥ 1.3 and interval ≥ 1 stays so and is never due before today. Counting on the Vietnamese calendar it is due after today. |
| Review.CorrectNeverShortens | src/lib/reviewStore.ts:63-65 | From the third correct repetition on, a correct answer never shortens the interval. |
| Review.Added | src/lib/reviewStore.ts:86-109 | A new id gets interval 1, repetitions 0, ease 2.5, one lapse, due `addDays(today, 1)`. An existing id gets exactly a wrong-answer update. Other items are unchanged. |
| Review.Reviewed | src/lib/reviewStore.ts:112-125 | An absent id changes nothing. Otherwise the item is rescheduled by `ComputeNextReview` with the same day count, or deleted when a correct answer brings it to 5 repetitions. Other items are unchanged. |
| Review.GraduatesAfterFiveCorrect | src/lib/reviewStore.ts:112-125 | After a lapse, five correct answers in a row remove the item; the first four keep it. |
| Review.WrongAnswerKeepsItem | src/lib/reviewStore.ts:112-125 | A wrong answer never removes an item. |
| Review.AllItems | src/lib/reviewStore.ts:140-142 | One entry per stored item, and nothing else. |
| Review.DueItems | src/lib/reviewStore.ts:128-132 | Exactly the stored items with dueAt ≤ today. |
| Review.DueCount | src/lib/reviewStore.ts:135-137 | The number of due items, at most the number stored. |
| Review.ItemsByTopic | src/lib/reviewStore.ts:145-147 | Exactly the stored items of that topic. |
| Review.ReviewedLeavesDueList | src/lib/reviewStore.ts:112-125 | Counting on the Vietnamese calendar, a reviewed item is no longer due today. |
| Review.AddedDueToday | src/lib/reviewStore.ts:29-33 | As the code counts, a question added on a wrong answer, new or lapsed, is due again the same day. |
| Review.LapseDueToday | src/lib/reviewStore.ts:112-125 | As the code counts, a wrong answer to a review item leaves it due the same day. |
| Review.AddedDueTomorrow | src/lib/reviewStore.ts:86-109 | Counting on the Vietnamese calendar, a question added on a wrong answer is due tomorrow and not today. |
| Review.ReviewStore.AddToReview | src/lib/reviewStore.ts:86-109 | The items become `Added` of the old ones, under the given day count (`UtcDate` is the code's). |
| Review.ReviewStore.UpdateReview | src/lib/reviewStore.ts:112-125 | The items become `Reviewed` of the old ones, under the given day count (`UtcDate` is the code's). |
| Review.ReviewStore.RemoveFromReview | src/lib/reviewStore.ts:150-154 | Only that key is deleted. |
| Review.ReviewStore.ResetReview | src/lib/reviewStore.ts:157-160 | The items are empty. |
| Streak.Recorded | src/lib/streakStore.ts:38-61 | Same day: nothing changes. After yesterday: streak + 1. After a gap or the first time: 1. The longest is max(longest, current), and today becomes the last day. |
| Streak.RecordIdempotent | src/lib/streakStore.ts:42-45 | Recording twice on one day is recording once. |
| Streak.RecordKeepsLongest | src/lib/streakStore.ts:58 | The longest streak never decreases and covers the current one. |
| Streak.Reported | src/lib/streakStore.ts:64-75 | The current streak reads 0 unless the last day is today or yesterday. Longest and date are as stored. |
| Streak.ConsecutiveDays | src/lib/streakStore.ts:38-61 | n consecutive days from a fresh start give current = longest = n. |
| Streak.GapResets | src/lib/streakStore.ts:47-58 | After a gap the streak reads 0 and the next activity restarts it at 1; the longest is kept. |
| Streak.StreakStore.RecordActivity | src/lib/streakStore.ts:38-61 | The record becomes `Recorded` of the old one. |
| Streak.StreakStore.GetStreak | src/lib/streakStore.ts:64-75 | Reads `Reported`, writing nothing. |
| Streak.StreakStore.ResetStreak | src/lib/streakStore.ts:78-81 | The record is the initial one. |
| Mock.Created | src/lib/mockStore.ts:67-79 | The new attempt goes last. The log has min(n + 1, 20) attempts, so the oldest is dropped only when the log was full, and the rest are the newest of the old log, in order. |
| Mock.FindTopic | src/lib/mockStore.ts:96 | The row of a topic, or -1 when there is none. |
| Mock.AddTo | src/lib/mockStore.ts:96-98 | Adding to a topic's tally adds to the totals, and keeps topics distinct and tallies sane. |
| Mock.AddToTopic | src/lib/mockStore.ts:96-98 | The entry of the added topic gains exactly c and n and exists afterwards. Every other topic's entry, or its absence, is unchanged. |
| Mock.CountCorrect | src/lib/mockStore.ts:109 | At most the number of responses. |
| Mock.Tallies | src/lib/mockStore.ts:94-99 | Per-topic totals sum to the number of responses and corrects to the correct count. One row per topic. |
| Mock.TalliesPerTopic | src/lib/mockStore.ts:94-99 | A topic's entry counts exactly the responses on that topic and the correct ones among them. A topic has an entry iff some response is on it. |
| Mock.TallyTopics | src/lib/mockStore.ts:94-99 | The loop over the responses builds exactly `Tallies` of them. |
| Mock.TopicName | src/lib/mockStore.ts:56-64 | The seven topics of `TOPIC_NAMES` get their own non-empty display name; any other id is shown as itself. |
| Mock.RowOf | src/lib/mockStore.ts:101-107 | A row's accuracy is the rounded percentage, at most 100. |
| Mock.Rows | src/lib/mockStore.ts:101-107 | One row per tally, with the same totals. |
| Mock.RowsAccuracy | src/lib/mockStore.ts:101-107 | Every breakdown row's accuracy is at most 100. |
| Mock.BreakdownSums | src/lib/mockStore.ts:101-116 | The sorted breakdown has the tallies' total and correct sums, and every accuracy is at most 100. |
| Seqs.SortByStable | src/lib/mockStore.ts:116 | The sort is stable: for every key, the elements with that key keep their input order. |
| Mock.ResultOf | src/lib/mockStore.ts:94-117 | total = responses, correct + wrong = total, passed iff correct ≥ threshold, score is the rounded percentage in 0..100. The breakdown is sorted ascending by accuracy, is a permutation of the tallied rows, and its totals match. |
| Mock.BreakdownPerTopic | src/lib/mockStore.ts:94-117 | The breakdown has a row for a topic iff some response is on it. That row holds the topic's name, its correct and total response counts and their rounded percentage. |
| Mock.FindAttempt | src/lib/mockStore.ts:87 | The first attempt with that id, or -1 when there is none. |
| Mock.SummaryOf | src/lib/mockStore.ts:124-137 | Mode is "MOCK" for class B, else the class. Times, score, total and accuracy come from the attempt and result. Row i of the breakdown carries row i's topic, total, correct and accuracy. |
| Mock.FinishedEvent | src/lib/mockStore.ts:138-142 | The MOCK_FINISHED payload holds the score, total and pass flag. |
| Mock.LatestResult | src/lib/mockStore.ts:154-157 | null iff no attempt is finished; otherwise the result of the last finished attempt, since every attempt after it is unfinished. |
| Mock.LatestWitness | src/lib/mockStore.ts:155-156 | The last finished attempt is an attempt of the log. |
| Mock.LastFinished | src/lib/mockStore.ts:155-156 | The position of the last finished attempt: it is the last of the filtered list and every later attempt is unfinished. |
| Mock.AddBreakdown | src/lib/mockStore.ts:166-170 | Adding a breakdown keeps topics distinct and adds its total and correct sums. |
| Mock.AddBreakdownPerTopic | src/lib/mockStore.ts:166-170 | Each topic's entry gains the total and correct sums of that topic's rows. A topic has an entry afterwards iff it had one or has a row. |
| Mock.AddRows | src/lib/mockStore.ts:166-170 | The loop over one attempt's breakdown builds exactly `AddBreakdown`. |
| Mock.Combined | src/lib/mockStore.ts:162-171 | One row per topic. |
| Mock.CombinedPerTopic | src/lib/mockStore.ts:162-171 | A topic's combined entry sums that topic's rows over all the attempts read. A topic has an entry iff some attempt has a row for it. |
| Mock.Recent | src/lib/mockStore.ts:161 | The last min(5, n) of the n finished attempts, in log order. |
| Mock.WeakTopics | src/lib/mockStore.ts:160-183 | Exactly the combined rows below 70% accuracy, each topic once, sorted ascending by accuracy. |
| Mock.WeakTopicOf | src/lib/mockStore.ts:160-183 | A topic is reported iff the last five finished attempts have rows for it whose summed accuracy is below 70%. It is reported with those sums and their rounded percentage. |
| Mock.OlderAttemptIgnored | src/lib/mockStore.ts:161 | With five finished attempts after it, an older attempt has no effect on the weak topics. |
| Mock.MockStore.CreateAttempt | src/lib/mockStore.ts:67-79 | Returns the id. The log becomes `Created` with an unfinished attempt that has no responses. |
| Mock.MockStore.FinishAttempt | src/lib/mockStore.ts:82-146 | An unknown id returns null and changes nothing. Otherwise the first attempt with that id gets its finish time, responses and `ResultOf`, and the attempt summary and MOCK_FINISHED event are pushed in that order. |
| Mock.MockStore.GetAttempts | src/lib/mockStore.ts:149-151 | The log reversed, newest first. |
| Mock.MockStore.GetLatestResult | src/lib/mockStore.ts:154-157 | `LatestResult` of the log. |
| Mock.MockStore.WeakTopicsFromMocks | src/lib/mockStore.ts:160-183 | The nested loops compute `WeakTopics` of the log. |
| Daily.Dedup | src/lib/dailyStore.ts:51-56 | No repeats, the same elements, no longer than the input. |
| Daily.DedupPrefix | src/lib/dailyStore.ts:54-70 | Deduplicating more input only extends the result. |
| Daily.DedupSnoc | src/lib/dailyStore.ts:56 | A new id is appended and a seen one skipped. |
| Daily.DedupCount | src/lib/dailyStore.ts:54-70 | The result has one entry per distinct id. |
| Daily.Cut | src/lib/dailyStore.ts:55 | A prefix of length min(count, length), 0 for count ≤ 0. |
| Daily.Fill | src/lib/dailyStore.ts:54-57 | One selection loop with its early break: the selection grows to the first `count` distinct ids of everything seen so far, and `used` stays its set. |
| Daily.FillStep | src/lib/dailyStore.ts:54-57 | One loop step below the count keeps the selection equal to the first `count` distinct ids seen and `used` its set. |
| Daily.FillFull | src/lib/dailyStore.ts:54-57 | Once the selection holds `count` ids, further input does not change it. |
| Daily.SuffixKept | src/lib/dailyStore.ts:93-96 | Keeping a suffix of the sorted dates keeps that many, every dropped date precedes every kept one, and the latest is kept. |
| Daily.BuildDailySession | src/lib/dailyStore.ts:44-73 | The result is the first `count` distinct ids of due ++ weak ++ shuffled(all). |
| Daily.SelectionFacts | src/lib/dailyStore.ts:50-72 | No repeats, at most `count`, every id from an input, and exactly `count` when the inputs hold that many distinct ids. |
| Daily.DueFirst | src/lib/dailyStore.ts:54-57 | The distinct due ids come first, in their order. |
| Daily.Marked | src/lib/dailyStore.ts:107-110 | The id is recorded once. completed holds iff at least as many ids are recorded as the session has. No repeats are introduced. |
| Daily.MarkedIdempotent | src/lib/dailyStore.ts:107-110 | Marking an id twice is marking it once. |
| Daily.MarkAllCompletes | src/lib/dailyStore.ts:107-110 | Marking every question of a session, with at least one call, completes it. |
| Daily.MarkAllRecords | src/lib/dailyStore.ts:107-110 | Every marked id is recorded. After at least one call completion follows the counts; with no call the flag is unchanged. |
| Daily.MarkAllDistinct | src/lib/dailyStore.ts:107-109 | Marking never introduces repeats. |
| Numeric.PercentRounds | src/lib/progressStore.ts:290 | `Math.round(c / t * 100)`: the result is within half a point of 100·c/t, with halves rounded up. |
| Daily.CompletedEvent | src/lib/dailyStore.ts:116-119 | The DAILY_COMPLETED payload holds the question and completed counts. |
| Daily.SnapshotOf | src/lib/dailyStore.ts:121-136 | Five minutes, the overall stats, accuracy, streak and due count. The first three weak topics, with topic id and accuracy. |
| Daily.SortedKeys | src/lib/dailyStore.ts:93 | The stored date keys, strictly increasing. |
| Daily.CollectKeys | src/lib/dailyStore.ts:93 | `Object.keys`: every stored date once, and nothing else. |
| Daily.SortedStrictly | src/lib/dailyStore.ts:93 | Sorting distinct dates gives a strictly increasing list of the same dates. |
| Daily.KeepLatest | src/lib/dailyStore.ts:93-96 | The pruning loop keeps min(size, 7) sessions unchanged. Every dropped date precedes every kept one, and the latest date is kept. |
| Daily.SortedCount | src/lib/dailyStore.ts:93 | One key per session. |
| Daily.DailyStore.GetTodaySession | src/lib/dailyStore.ts:76-80 | Today's session, or null. |
| Daily.DailyStore.IsTodayComplete | src/lib/dailyStore.ts:142-145 | True iff today's session exists and is completed. |
| Daily.DailyStore.SaveTodaySession | src/lib/dailyStore.ts:83-98 | Writes a fresh session for today, then prunes to the seven latest dates. When no stored date is later than today, today's session survives. |
| Daily.DailyStore.MarkCompleted | src/lib/dailyStore.ts:101-139 | No session: nothing changes. Otherwise the session becomes `Marked`, and exactly when it is completed the event and the snapshot are pushed in order. |
| Sync.NewItem | src/lib/syncEngine.ts:55-61 | Zero retries, and the payload with `studentId` added; other fields kept. |
| Sync.Begin | src/lib/syncEngine.ts:77-83 | A running pass or an empty outbox: nothing happens. Otherwise a pass starts on a copy of the outbox. |
| Sync.Pushed | src/lib/syncEngine.ts:63-70 | The item goes last, earlier items untouched. Offline, no pass starts. |
| Sync.AfterPush | src/lib/syncEngine.ts:51-71 | No student id (or an empty one): nothing at all changes. Otherwise exactly one new item is appended. |
| Sync.Remaining | src/lib/syncEngine.ts:85-111 | No longer than the items read. |
| Sync.RemainingOrigins | src/lib/syncEngine.ts:85-111 | Every survivor is a failed item with fewer than five retries, with one more. |
| Sync.RemainingAppend | src/lib/syncEngine.ts:87-111 | Survivors keep their original relative order. |
| Sync.DeliveredLeave | src/lib/syncEngine.ts:95-98 | A delivered item is absent from what the pass saves. |
| Sync.FailedStays | src/lib/syncEngine.ts:101-109 | A failed item with retries < 5 survives with retries + 1. |
| Sync.ExhaustedDropped | src/lib/syncEngine.ts:101-109 | A failed item with five retries is dropped. |
| Sync.FailingItemLifetime | src/lib/syncEngine.ts:101-109 | A new item that keeps failing survives five passes and is gone after the sixth. |
| Sync.EndAsWritten | src/lib/syncEngine.ts:113-116 | As written, the end of a pass clears the flag and the outbox becomes exactly `Remaining` of the copy the pass read. |
| Sync.End | src/lib/syncEngine.ts:113-116 | Intended end of a pass: the survivors of the copy, then the items pushed meanwhile. The flag is cleared, the outbox gets no longer, and every item has at most five retries. |
| Sync.PushedInv | src/lib/syncEngine.ts:60-65 | A push keeps every item at ≤ 5 retries and a running pass's copy a prefix of the outbox. |
| Sync.PushDuringFlushLost | src/lib/syncEngine.ts:68-70 | As written, a second push while the first one's pass is awaiting is lost without being sent. |
| Sync.PushDuringFlushKept | src/lib/syncEngine.ts:68-70 | With the intended end, that second item is still in the outbox. |
| Sync.PushedDuringPassSurvive | src/lib/syncEngine.ts:85-113 | With the intended end, every item pushed during a pass survives it. |
| Sync.SyncEngine.BeginFlush | src/lib/syncEngine.ts:77-83 | The state becomes `Begin` of the old one, and reports whether a pass started. |
| Sync.SyncEngine.Push | src/lib/syncEngine.ts:51-71 | The state becomes `AfterPush` of the old one. |
| Sync.SyncEngine.SyncEvent | src/lib/syncEngine.ts:212-220 | Pushes an "events" item with the `evt_` payload. |
| Sync.SyncEngine.SyncAttemptSummary | src/lib/syncEngine.ts:181-192 | Pushes an "attempt" item with the `att_` payload. |
| Sync.SyncEngine.SyncDailySnapshot | src/lib/syncEngine.ts:159-176 | Pushes a "daily" item with the snapshot payload. |
| Sync.SyncEngine.SyncAiSummary | src/lib/syncEngine.ts:197-207 | Pushes an "ai-summary" item. |
| Sync.SyncEngine.EndFlush | src/lib/syncEngine.ts:85-116 | The corrected end recorded under Findings: the state becomes `End` of the old one, keeping items pushed during the pass. |
| Sync.SyncEngine.EndFlushAsWritten | src/lib/syncEngine.ts:85-116 | The code's end of a pass: the state becomes `EndAsWritten` of the old one. |
| Sync.Survivors | src/lib/syncEngine.ts:87-111 | The loop over the items read builds exactly `Remaining`. |
| Sync.SyncEngine.OutboxCount | src/lib/syncEngine.ts:120-122 | The outbox length. |
| Sync.WeakTopicsJson | src/lib/syncEngine.ts:167 | One `{topicId, accuracy}` object per weak topic. |
| Sync.DailyPayload | src/lib/syncEngine.ts:169-175 | The snapshot's fields plus dateKey and lastActiveAt. |
| Sync.AttemptPayload | src/lib/syncEngine.ts:190-191 | `att_`-prefixed id plus the summary's fields. Element i of topicBreakdown is row i as JSON. |
| Sync.TopicRowJson | src/lib/mockStore.ts:131-136 | A row as a JSON object with exactly its topicId, total, correct and accuracy. |
| Sync.EventPayload | src/lib/syncEngine.ts:213-219 | `evt_`-prefixed id, type, time, and the payload or `{}`. |
| Sync.Strs | src/lib/syncEngine.ts:199-201 | A string list as JSON strings. |
| Sync.AiSummaryPayload | src/lib/syncEngine.ts:203-206 | The summary's fields plus generatedAt. |
| CrmAuth.Normalised | src/lib/crmAuth.ts:32 | Same length; each `-` becomes `+`, each `_` becomes `/`, every other character is unchanged, so no `-` or `_` is left. |
| CrmAuth.NormalisedIdempotent | src/lib/crmAuth.ts:32 | Normalising twice is normalising once. |
| CrmAuth.StandardUnchanged | src/lib/crmAuth.ts:32 | Plain base64 is left alone. |
| CrmAuth.Equals | src/lib/crmAuth.ts:33 | n `=` characters. |
| CrmAuth.Padded | src/lib/crmAuth.ts:33 | A multiple of 4 long, at most 3 `=` added after the unchanged input, and the shortest such. |
| CrmAuth.PaddedIdempotent | src/lib/crmAuth.ts:33 | Padding twice is padding once. |
| CrmAuth.PayloadSegment | src/lib/crmAuth.ts:30-33 | None iff the token has no dot. |
| CrmAuth.DecodeJwtPayload | src/lib/crmAuth.ts:28-40 | None for a token with no dot, an undecodable segment, or a payload with exp·1000 < now; otherwise the decoded payload. |
| CrmAuth.DecodesPayloadPiece | src/lib/crmAuth.ts:30-33 | Of `header.payload.signature` only the payload piece reaches the decoder. |
| CrmAuth.ThreePieces | src/lib/crmAuth.ts:30 | Splitting such a token gives its three pieces. |
| CrmAuth.NoExpiryAlwaysAccepted | src/lib/crmAuth.ts:35 | A payload without exp is accepted at any time. |
| CrmAuth.AcceptedEarlier | src/lib/crmAuth.ts:35 | A payload accepted now was accepted at every earlier time. |
| CrmAuth.StoredToken | src/lib/crmAuth.ts:48-58 | A token iff the slot holds a parsed link, and then the link's token; an empty or unparsable slot gives null. |
| CrmAuth.CrmToken | src/lib/crmAuth.ts:63-65 | A non-empty cookie token wins over the stored link's. |
| CrmAuth.StudentId | src/lib/crmAuth.ts:68-72 | A non-empty studentId of an accepted token; null without a token or without a studentId. |
| CrmAuth.CookieWins | src/lib/crmAuth.ts:63-72 | With a cookie token the stored link makes no difference. |
| CrmAuth.NoTokenNoStudent | src/lib/crmAuth.ts:68-70 | No cookie and no stored link: no student. |
| CrmAuth.LinkOf | src/lib/crmAuth.ts:75-91 | The stored link iff its token is still accepted. |
| CrmAuth.Checked | src/lib/crmAuth.ts:82-86 | A link whose token is rejected is removed; anything else stays. |
| CrmAuth.CheckIdempotent | src/lib/crmAuth.ts:75-91 | Checking twice removes nothing more and finds the same link. |
| CrmAuth.StudentName | src/lib/crmAuth.ts:150-158 | The link's name, else the cookie payload's phone, else its studentId, else null. |
| CrmAuth.CrmStore.GetCrmToken | src/lib/crmAuth.ts:63-65 | `CrmToken` of the stored slot. |
| CrmAuth.CrmStore.GetCrmStudentId | src/lib/crmAuth.ts:68-72 | `StudentId` of the stored slot. |
| CrmAuth.CrmStore.GetCrmLink | src/lib/crmAuth.ts:75-91 | Returns `LinkOf` and leaves the slot `Checked`. |
| CrmAuth.CrmStore.GetCrmUrl | src/lib/crmAuth.ts:94-98 | The link's URL when it has one, else the configured URL. |
| CrmAuth.CrmStore.IsLinkedToCrm | src/lib/crmAuth.ts:145-147 | True iff a stored link's token is accepted. |
| CrmAuth.CrmStore.GetCrmStudentName | src/lib/crmAuth.ts:150-158 | `StudentName`, leaving the slot `Checked`. |
| CrmAuth.CrmStore.UnlinkCrm | src/lib/crmAuth.ts:139-142 | The slot is empty. |
| Bookmarks.IndexOf | src/lib/bookmarkStore.ts:27 | -1 iff absent, otherwise the first position of the id. |
| Bookmarks.Toggled | src/lib/bookmarkStore.ts:25-37 | An absent id is appended; otherwise its first occurrence is cut out. |
| Bookmarks.ToggleDistinct | src/lib/bookmarkStore.ts:25-37 | Toggling keeps the list free of repeats, flips the id's membership and keeps everything else. |
| Bookmarks.ToggleTwiceRestores | src/lib/bookmarkStore.ts:25-37 | Toggling an absent id twice restores the list. |
| Bookmarks.ToggleTwiceMovesToEnd | src/lib/bookmarkStore.ts:25-37 | Toggling a present id twice moves it to the end. |
| Bookmarks.BookmarkStore.IsBookmarked | src/lib/bookmarkStore.ts:21-23 | True iff the id is in the list. |
| Bookmarks.BookmarkStore.BookmarkCount | src/lib/bookmarkStore.ts:43-45 | The list length. |
| Bookmarks.BookmarkStore.ToggleBookmark | src/lib/bookmarkStore.ts:25-37 | The list becomes `Toggled`, and the result is true iff the id was absent. |
| Comments.CommentOf | src/lib/commentStore.ts:33-36 | "" for an id without a note, otherwise its text. |
| Comments.Saved | src/lib/commentStore.ts:39-47 | Blank text deletes the note; other text is stored trimmed. Other notes are unchanged. |
| Comments.SaveThenGet | src/lib/commentStore.ts:33-47 | Reading back gives the trimmed text. |
| Comments.SaveReadBack | src/lib/commentStore.ts:33-47 | Saving what was read back changes only the time. |
| Comments.CommentStore.GetComment | src/lib/commentStore.ts:33-36 | `CommentOf` the stored notes. |
| Comments.CommentStore.SaveComment | src/lib/commentStore.ts:39-47 | The notes become `Saved` of the old ones. |
| Comments.CommentStore.DeleteComment | src/lib/commentStore.ts:50-54 | Only that note goes. |
| Comments.CommentStore.CommentCount | src/lib/commentStore.ts:62-64 | The number of stored notes. |
| Settings.Merged | src/lib/settingsStore.ts:16-30 | Nothing stored gives class B and theme auto. Each stored field overrides its default. |
| Settings.Written | src/lib/settingsStore.ts:32-39 | What is written reads back as written. |
| Settings.WrittenRoundTrip | src/lib/settingsStore.ts:21-39 | Writing what was read changes nothing that can be read. |
| Settings.Code | src/lib/settingsStore.ts:8 | A class code starts with B, C or D. |
| Settings.CodeInjective | src/lib/settingsStore.ts:8 | Different classes have different codes. |
| Settings.Info | src/lib/settingsStore.ts:74-84 | Every class has an entry named "Hạng " plus its code, with a description and an icon. |
| Settings.InfoNamesDistinct | src/lib/settingsStore.ts:74-84 | The nine display names are all different. |
| Settings.SettingsStore.GetLicenseType | src/lib/settingsStore.ts:42-44 | The merged class. |
| Settings.SettingsStore.GetTheme | src/lib/settingsStore.ts:54-56 | The merged theme. |
| Settings.SettingsStore.SetLicenseType | src/lib/settingsStore.ts:47-51 | Afterwards the class reads back as set and the theme is unchanged. |
| Settings.SettingsStore.SetTheme | src/lib/settingsStore.ts:59-64 | Afterwards the theme reads back as set and the class is unchanged. |
| QuestionsRoute.ParseInt | src/app/api/questions/route.ts:7-8 | `parseInt`: NaN exactly when no digit follows the whitespace and sign. |
| QuestionsRoute.ParseSigned | src/app/api/questions/route.ts:7-8 | After the whitespace: NaN exactly when no digit follows an optional sign. |
| QuestionsRoute.SignedDigits | src/app/api/questions/route.ts:7-8 | A digit string, with or without a leading minus, reads as its value or its negation. |
| QuestionsRoute.Decimal | src/app/api/questions/route.ts:7-8 | A non-empty string of digits. |
| QuestionsRoute.DecimalValue | src/app/api/questions/route.ts:7-8 | A decimal spelling has its number's value. |
| QuestionsRoute.ParseDecimal | src/app/api/questions/route.ts:7-8 | parseInt reads back every decimal number, with or without a minus sign. |
| QuestionsRoute.Defaults | src/app/api/questions/route.ts:7-8 | The defaults are page 1 and 600 per page. |
| QuestionsRoute.ById | src/app/api/questions/route.ts:15-18 | Without ids everything stays. Otherwise exactly the questions whose id is in the comma-separated list. |
| QuestionsRoute.ByTopic | src/app/api/questions/route.ts:21-28 | "t-diem-liet" selects by the critical flag, any other topic by equality, no topic keeps everything. |
| QuestionsRoute.Filtered | src/app/api/questions/route.ts:12-28 | Never more than the bank. |
| QuestionsRoute.FilteredKeepsOrder | src/app/api/questions/route.ts:15-28 | Filtering keeps the bank's order. |
| QuestionsRoute.FiltersCombine | src/app/api/questions/route.ts:15-28 | With ids and an ordinary topic, a question is returned iff it passes both. |
| QuestionsRoute.Slice | src/app/api/questions/route.ts:39 | `slice`: no longer than the span, and the exact subsequence within range. |
| QuestionsRoute.Position | src/app/api/questions/route.ts:39 | A slice position is clamped, and is unchanged within range. |
| QuestionsRoute.PositionSpan | src/app/api/questions/route.ts:39 | Clamping never widens a span. |
| QuestionsRoute.TotalPages | src/app/api/questions/route.ts:47 | `Math.ceil(total / pageSize)`: null for size 0 (Infinity/NaN). For positive size the smallest page count covering the total. |
| QuestionsRoute.PageOf | src/app/api/questions/route.ts:38-39 | Empty for a NaN page or size; at most pageSize items. |
| QuestionsRoute.NegativePageSize | src/app/api/questions/route.ts:38-47 | A size of -1 returns every question but the last, and totalPages -total. |
| QuestionsRoute.PageContents | src/app/api/questions/route.ts:38-39 | Page n of size k is the items from (n-1)k, at most k of them. |
| QuestionsRoute.FirstPagesPrefix | src/app/api/questions/route.ts:38-39 | Pages 1..n together are the first n·k items. |
| QuestionsRoute.PagesCoverAll | src/app/api/questions/route.ts:38-47 | Pages 1..totalPages give every question once, in order. |
| QuestionsRoute.Get | src/app/api/questions/route.ts:4-50 | total is the filtered count before paging. Page and size are the parsed parameters, and totalPages follows them. The questions are that page of the filtered list, in bank order for practice and shuffled otherwise. |
| QuestionsRoute.DefaultsReturnAll | src/app/api/questions/route.ts:7-8 | Without paging parameters, up to 600 filtered questions all come back. |
| QuestionsRoute.FirstPageHoldsAll | src/app/api/questions/route.ts:38-39 | With page 1 and a size at least the filtered count, the response holds exactly the filtered questions. |
| QuestionsRoute.WholeFirstPage | src/app/api/questions/route.ts:38-39 | Page 1 of a size at least the length is the whole list. |
| AiSettingsRoute.AdminPin | src/app/api/ai/settings/route.ts:13 | The configured PIN, or "1234"; never empty. |
| AiSettingsRoute.CheckAdmin | src/app/api/ai/settings/route.ts:42-45 | The request is an admin's iff its `x-admin-pin` header is present and equals the admin PIN; a missing header never passes, since the PIN is never empty. |
| AiSettingsRoute.MissingHeaderRejected | src/app/api/ai/settings/route.ts:42-45 | A missing or empty header is never the admin. |
| AiSettingsRoute.OnlyThePin | src/app/api/ai/settings/route.ts:42-45 | The check passes iff the header equals the PIN. |
| AiSettingsRoute.MaskKey | src/app/api/ai/settings/route.ts:47-50 | "****" under 8 characters; otherwise the first 5, "..." and the last 4. |
| AiSettingsRoute.MaskHidesMiddle | src/app/api/ai/settings/route.ts:47-50 | Keys agreeing in the first 5 and last 4 characters mask alike. |
| AiSettingsRoute.MaskIdempotent | src/app/api/ai/settings/route.ts:47-50 | Masking a mask changes nothing. |
| AiSettingsRoute.Get | src/app/api/ai/settings/route.ts:69-96 | 401 iff the PIN check fails. The environment key wins. Otherwise the file key, decrypted, configured iff it decrypts; otherwise not configured. |
| AiSettingsRoute.GetUnauthorizedFirst | src/app/api/ai/settings/route.ts:70-72 | A rejected request learns nothing about the key. |
| AiSettingsRoute.EnvWins | src/app/api/ai/settings/route.ts:75-82 | With an environment key the file is never consulted. |
| AiSettingsRoute.Put | src/app/api/ai/settings/route.ts:98-124 | 401 iff the PIN check fails. 400 for a missing, non-string or not "sk-"-prefixed key in a JSON object. 500 when destructuring the body throws (not JSON, or the JSON `null`, whose missing key therefore gives 500 and not 400) or the write fails. Otherwise saved, returning the mask. |
| AiSettingsRoute.EnvAfterPut | src/app/api/ai/settings/route.ts:114 | The environment key changes exactly when PUT saves. |
| AiSettingsRoute.PutThenGet | src/app/api/ai/settings/route.ts:98-124 | After a successful PUT, GET reports the new key from the environment with the same mask. |

## Left out

- Storage and JSON. localStorage, `JSON.parse`/`stringify` and the `typeof window` guards are not modelled: each store's document is a field. Corrupt stored data is modelled only where the code branches on it: the CRM link slot (`Unparsable`) and the settings merge. Elsewhere a parse failure gives the empty default, which is the model's initial state.
- Fields of the wrong JSON type in a stored document are not modelled (e.g. a non-string comment text).
- Storage write failures are not modelled, whether swallowed or, in saveOutbox and saveBookmarks, thrown.
- Dates. `todayVN` and `yesterdayVN` become whole day numbers, and yesterday is `today - 1`. `addDays(d, n)` is `Review.AddDays`: d + n − 1 as the code computes it, or d + n on the Vietnamese calendar (see Findings). Date keys compare as numbers, which matches how ISO date strings sort. Daylight-saving shifts of the host clock are not modelled.
- ISO timestamps (`toISOString`) are string arguments.
- Review.ComputeNextReview: ease is kept in exact hundredths (2.5 is 250) and `Math.round` is integer rounding with halves up. Binary floating-point drift of repeated `-0.2` steps is not modelled.
- Percentages (`Math.round(c / t * 100)`) are computed exactly; floating-point error at exact halves is not modelled.
- The debounced CRM progress push (scheduleCrmSync, pushProgressToCrm) is network and timer code. The model keeps only the flag saying a push was scheduled.
- initSyncEngine (event listeners, interval and initial timeout) is not modelled. Flush passes are started explicitly.
- The `fetch` in flushOutbox is not modelled: each item's outcome is a boolean, and a thrown request counts as a failure.
- generateId and the other random ids are arguments.
- The random `sort` shuffles are an arbitrary permutation argument.
- Key order of JavaScript objects whose keys look like integers is not modelled. Question ids and topic ids are assumed to be non-numeric strings, so keys are in insertion order.
- loginToCrm and getCrmProfile are network calls and are not modelled.
- The cookie regex and `decodeURIComponent` are not modelled: the cookie token is an argument, and a malformed percent-escape, which would throw, is not modelled.
- `atob` and `JSON.parse` of the JWT payload are the `decode` argument.
- encrypt, decrypt, readConfig and writeConfig (AES-GCM and the file system) are not modelled. decrypt's result and whether the write succeeded are arguments.
- A JSON `apiKey` that is a number, object or boolean is `NotText` in the model.
- applyTheme sets a DOM attribute and is not modelled.
- getBookmarkedIds and getAllComments return the stored document unchanged. In the model they are the fields `BookmarkStore.ids` and `CommentStore.comments`.
- QuestionsRoute.ParseInt: digits are read as an exact integer. The precision loss of very long digit strings and `parseInt`'s handling of non-ASCII whitespace beyond the characters `Strings.TrimStart` skips are not modelled.
- The question bank is a parameter, and questions carry only the fields the route reads (id, topicId, isCritical).
- Daily.DailyStore.MarkCompleted: the stats, accuracy, streak, due count and weak topics in the snapshot are arguments, not reads of the other stores.
- Sync.SyncEngine.EndFlush: the engine offers both ends of a pass. `EndFlushAsWritten` is what the code does; `EndFlush` is the corrected end from Findings, which the other stores' contracts do not depend on.
- Progress.ProgressStore.SaveAnswersBatch: one `now` stands for every `Date.now()` in the batch, whereas the code reads the clock once per result (milliseconds apart).
- Sync.SyncEngine.SyncEvent: the stamp's one time is both the item's `createdAt` and the payload's `occurredAt`, whereas the code reads the clock twice.
- Sync.SyncEngine.SyncAiSummary: the stamp's one time is both the item's `createdAt` and the payload's `generatedAt`, whereas the code reads the clock twice.
- Mock.MockStore.FinishAttempt: the summary and event are pushed with the sync engine's `Push` contract; a thrown sync error (which the code swallows) is not modelled.

## Findings

| source | as written | input that shows it | evidently intended | confidence | as-written member | corrected member |
|---|---|---|---|---|---|---|
| src/lib/syncEngine.ts:82-113 | A flush pass reads the outbox, awaits one `fetch` per item, then saves only the survivors of what it read. Items pushed during the awaits are overwritten. | Online, push item a (its pass starts and awaits a's delivery), then push item b before that await returns (the second flush is a no-op since `flushing` is set); a is delivered. The pass saves `[]`, so b is never sent. finishAttempt and markCompleted push two items back to back, so with a student id online the second of the two is lost whenever the first starts a pass. | The saved outbox is the survivors followed by every item pushed since the pass read the outbox. | not executed | Sync.EndAsWritten, Sync.PushDuringFlushLost | Sync.End, Sync.PushDuringFlushKept, Sync.PushedDuringPassSurvive |
| src/lib/reviewStore.ts:29-33 | `addDays` parses the date as midnight in Vietnam (17:00 UTC the day before), adds days on the host's calendar and keeps UTC's date, so it returns d + n − 1. | addToReview on day d: the new item gets `addDays(d, 1)` = d, so it is due the same day; a wrong answer in updateReview likewise gives interval 1 and due d, and interval 3 gives d + 2. | d + n: a new or lapsed item due tomorrow, as the one-day interval says. | not executed | Review.ComputeNextReview, Review.AddedDueToday, Review.LapseDueToday | Review.AddedDueTomorrow, Review.ReviewedLeavesDueList, Review.NextReviewHealthy |
