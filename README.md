# Raffle contest engine — a Dafny model

This project models the core of a raffle web app. An admin opens a contest
with a prize amount and one of two end rules:

- a duration contest ends at an end time;
- a participant contest ends when a participant cap is reached.

Participants complete the contest's required tasks, then submit an EVM
address. The admin can stop submissions, stop the contest, or draw winners.
A reconciliation pass closes submissions for contests that ran out of time
or reached their cap.

Modules, one per source file:

- `Records` (`records.dfy`): the table rows of `lib/database.ts`, and the
  JavaScript `x || null` used when a row is written.
- `SeqUtil` (`seq_util.dfy`): the `WHERE` filter, `reverse()` and the two
  `slice` forms, each with its lemmas.
- `Database` (`database.dfy`): the store.
  - Class `Store` holds the five tables as sequences. Its methods reassign
    them as the `INSERT`/`UPDATE` statements do.
  - Each method is specified by a function on the tables before the call:
    `AfterSubmit`, `AfterCreate`, `AfterDraw`, `Reconciled`, and so on.
  - Every method keeps the table invariant `WellFormed`. It states:
    - contest ids are serial, and so are submission, task and winner ids
      (`SerialRowIds`), so each of those tables is in id order;
    - the unique keys of submissions and task completions hold;
    - at most one contest is active;
    - a manually stopped contest is not active;
    - no stored limit is 0;
    - every submission belongs to a stored contest.
  - Lemmas about the specification functions state what each operation
    promises.
- `Actions` (`actions.dfy`): the server actions of `app/actions.ts`. These
  are the address check, the contest-parameter check, and delegation to the
  store. The helpers `Hex` (bytes to lower-case hex) and `AccountBytes` (hex
  digits back to bytes) exist only to characterise the address check: the
  source never converts between bytes and text.
- `ContestView` (`contest_view.dfy`): the participant view,
  `components/contest-interface.tsx`. It covers:
  - the ended rule `checkContestEnd`, written as a method;
  - the countdown;
  - the closed-form flag and the banner priority;
  - the recent-participants list and the short address;
  - the submit handler, as a class over the form state.
- `AdminView` (`admin_view.dfy`): the admin dashboard,
  `components/admin-interface.tsx`. It covers the admin's copy of the ended
  rule, the badge and button conditions, and the create-form checks.
- `HomePage` (`home_page.dfy`): the view that `app/page.tsx` chooses, and
  its expiry flag.
- `EndRules` (`end_rules.dfy`): relates the four copies of the "has ended"
  rule to each other and to what the server admits.

Conventions:

- Time is an integer number of milliseconds passed in as `now` (or `dbNow`
  for the database clock). One call reads one clock value. Lemmas that
  compare copies of the ended rule living on different clocks (server,
  browser, database) compare them at the same clock reading, except
  `EndRules.ViewAndSweepAcrossClocks`, which takes two.
- The shuffle of `selectWinners` is a parameter `perm`, any permutation of
  the pool's positions.
- `ORDER BY created_at` (and `submitted_at`, `won_at`) is insertion order.
- Ids are assigned serially from 1, without gaps. A Postgres sequence also
  consumes a value on an insert refused by a unique constraint or skipped by
  `ON CONFLICT DO NOTHING`, so the source's ids can have gaps; only their
  increase is relied on.

## Model

| member | source | states |
|---|---|---|
| Records.OrNull | lib/database.ts:280-282 | `x \|\| null` keeps a non-zero value, turns 0 and absent into null, so a stored limit is never 0 and keeps its truthiness |
| Database.ContestById | lib/database.ts:163-168 | the lookup by id finds a row exactly when some contest has that id, and the row it finds has it |
| Database.ContestByIdAt | lib/database.ts:163-166 | with serial ids the row found for id k is the k-th row, and none is found outside 1..n |
| Database.NewestIndex | lib/database.ts:77-83 | the position found holds a row with the status and every later row has another status; -1 when no row has it |
| Database.NewestWithStatus | lib/database.ts:77-83 | `status = s ORDER BY created_at DESC LIMIT 1` is null exactly when no row has status s, and otherwise the newest such row |
| Database.CurrentContestIsTheActiveOne | lib/database.ts:75-88 | in a well-formed store getCurrentContest returns c exactly when c is a stored active contest |
| Database.CurrentContest | lib/database.ts:75-88 | getCurrentContest is null exactly when no contest is active, and otherwise the newest active contest |
| Database.LastCompletedContest | lib/database.ts:90-103 | getLastCompletedContest is null exactly when no contest is completed, and otherwise the newest completed contest |
| Database.SubmissionsOf | lib/database.ts:105-117 | getContestSubmissions returns exactly the contest's submissions, in table order (ids increasing when the table's do) |
| Database.TasksOf | lib/database.ts:119-131 | getContestTasks returns exactly the contest's tasks, in table order (ids increasing when the table's do) |
| Database.WinnersByContest | lib/database.ts:425-432 | getWinnersByContest returns exactly the winner rows of that contest, newest first (ids decreasing when the table's increase) |
| Database.QueriesInIdOrder | lib/database.ts:105-131 | in a well-formed store getContestSubmissions and getContestTasks return oldest first and getWinnersByContest newest first, since the store's serial ids increase |
| Database.EndActive | lib/database.ts:224-229 | the first UPDATE of createContest moves every active row to 'ended' and changes no other row and no other field |
| Database.CeilHours | lib/database.ts:246 | duration_hours is the ceiling of minutes / 60: 60(h-1) < minutes <= 60h |
| Database.DrawCount | lib/database.ts:382-387 | the number drawn never exceeds the pool and is positive for a non-negative winner_count and a non-empty pool |
| Database.SweepIds | lib/database.ts:442-472 | each SELECT of the reconciliation pass returns the id of a row exactly when the row is active, not manually stopped, and past end_time (`<`) or at the cap (`>=`) |
| Database.Store.MarkTaskCompleted | lib/database.ts:146-158 | inserts the completion unless the triple exists, always succeeds, and the triple is then recorded |
| Database.Store.SubmitAddress | lib/database.ts:160-206 | the answer is SubmitVerdict (checks in source order) and the tables become AfterSubmit, keeping the invariant |
| Database.Store.CreateContest | lib/database.ts:208-321 | the result is CreateOutcome and the tables become AfterCreate (active contests ended even when it then throws) |
| Database.Store.AddContestTask | lib/database.ts:323-341 | appends exactly the row (next id, contest, type, description, URL with "" stored as null, required flag, now) and returns it; an absent flag makes the task required (`isRequired = true`); no other table changes |
| Database.NewRequiredTaskGatesSubmission | lib/database.ts:177-192 | a required task added to an open contest makes submitAddress refuse every address without a completion for it, with the tasks error |
| Database.OptionalTaskKeepsVerdicts | lib/database.ts:177-192 | an optional task added to any contest changes no answer of submitAddress |
| Database.Store.StopSubmissions | lib/database.ts:343-356 | sets submissions_stopped on the rows with that id only, succeeds, keeps the invariant |
| Database.Store.StopContest | lib/database.ts:358-371 | marks the contest manually stopped and ended, then returns and applies the draw on that state |
| Database.Store.SelectWinners | lib/database.ts:373-408 | returns Drawn; the insert loop appends one winner row per drawn submission and the contest is marked completed (AfterDraw) |
| Database.Store.InsertWinners | lib/database.ts:389-395 | the insert loop appends exactly WinnerRows of the selected entries, in order, and changes no other table |
| Database.Store.CheckAndProcessExpiredContests | lib/database.ts:439-488 | the two select-then-update loops together yield Reconciled, keeping the invariant |
| Database.Store.StopEach | lib/database.ts:452-460 | the per-row UPDATE loop flags exactly the listed ids and changes no other table |
| Database.RowUpdateKeepsWellFormed | lib/database.ts:360-364 | a row update that keeps ids and limits and moves no row into 'active' keeps the table invariant |
| Database.CreateKeepsWellFormed | lib/database.ts:224-321 | ending the active contests and inserting the new one with its follow task keeps the table invariant, on the error path too |
| Database.MarkCompletedKeepsWellFormed | lib/database.ts:390-401 | inserting winners with serial ids and marking a contest completed keeps the table invariant |
| Database.ReconciledKeepsWellFormed | lib/database.ts:452-484 | the reconciliation pass keeps the table invariant |
| Database.SubmitRejectsInactiveContest | lib/database.ts:163-170 | a missing or non-active contest yields "Contest is not active" and no insert |
| Database.SubmitRejectsStoppedContest | lib/database.ts:172-174 | an active contest with submissions stopped yields "Submissions have been stopped by admin" and no insert |
| Database.SubmitGatedByRequiredTasks | lib/database.ts:177-192 | on an open contest the tasks error occurs exactly when some required task of the contest lacks a completion by this address; success exactly when all are done and the address is new |
| Database.SubmitAddsExactlyOne | lib/database.ts:194-198 | a successful submit appends exactly one row for (contest, address), raising the contest's count by one; other tables untouched; a refusal changes nothing |
| Database.SecondSubmitIsDuplicate | lib/database.ts:194-203 | submitting the same (contest, address) again yields "Address already submitted" and changes nothing |
| Database.OtherAddressStillAdmitted | lib/database.ts:194-198 | the duplicate check is exact: admitting one address leaves any different address admissible |
| Database.MarkTaskIdempotent | lib/database.ts:146-153 | a second markTaskCompleted with the same triple changes nothing |
| Database.MarkTaskLeavesOneCompletion | lib/database.ts:148-152 | in a well-formed store exactly one completion row exists for the triple afterwards |
| Database.CreateLeavesExactlyOneActive | lib/database.ts:224-304 | on success every previously active contest is ended, one active contest with both stop flags clear is appended, exactly it is active, and one required follow task for it is added |
| Database.CreateTiming | lib/database.ts:231-262 | a positive duration gives end_time = dbNow + minutes*60000 and duration_hours = ceil(minutes/60); a zero or absent one gives no end time and 24 hours; a negative one throws after the active contests were ended |
| Database.DrawEmptyPool | lib/database.ts:375-376 | with no submissions the draw is empty and nothing changes |
| Database.PoolHasContest | lib/database.ts:378-380 | in a well-formed store a non-empty pool's contest row exists |
| Database.DrawUnfolds | lib/database.ts:378-401 | for a non-empty pool in a well-formed store: the contest row exists, the draw is the first DrawCount entries of the pool in the order the shuffle gives, the tables become the old ones plus those winner rows with the contest marked completed, and the store stays well formed |
| Database.DrawSizeIsMin | lib/database.ts:382-387 | the draw has min(winner_count \|\| 1, n) members, at least one, for a non-negative winner_count |
| Database.DrawnAreDistinctSubmissions | lib/database.ts:374-387 | every drawn entry is a stored submission of the contest, and no address is drawn twice |
| Database.DrawRecordsWinners | lib/database.ts:389-401 | the winner rows are appended after the existing ones, one per drawn entry with the contest id, its address and the contest's amount; the contest becomes completed and no other row or table changes |
| Database.RedrawAddsMoreWinners | lib/database.ts:373-408 | a second selectWinners on the same contest inserts the same number of winner rows again |
| Database.ReconcileOnlyStopsSubmissions | lib/database.ts:442-484 | the pass sets submissions_stopped exactly on rows either SELECT picks, changes no status or other table, and is idempotent |
| Database.StopSubmissionsIdempotent | lib/database.ts:343-351 | stopSubmissions sets only the flag of that contest, and repeating it changes nothing |
| Database.StopContestEmptyPool | lib/database.ts:358-376 | stopping a contest without submissions returns no winners and leaves it manually stopped with status 'ended', not 'completed' |
| Actions.AddressCheckIsAccountInHex | app/actions.ts:19 | IsEvmAddress, the model of `/^0x[a-fA-F0-9]{40}$/`, accepts exactly "0x" followed by some 20-byte account written in hex, with its letters in either case |
| Actions.MixedCaseAddressesBothAdmitted | app/actions.ts:19-23 | the same account in lower and upper case passes the check twice and is admitted twice by the store |
| Actions.CreateRejection | app/actions.ts:52-58 | nothing is rejected exactly when the duration (duration contest) or the cap (participant contest) is present and positive; each error occurs exactly for its own type |
| Actions.AcceptedContestIsCreated | app/actions.ts:52-68 | for integer parameters that pass the server check, createContest returns a contest: a duration contest ends after now and a participant contest keeps its positive cap |
| Actions.SubmitEvmAddress | app/actions.ts:17-26 | a malformed address gets "Invalid EVM address format" and no store change; otherwise the answer and tables are exactly submitAddress's |
| Actions.MarkUserTaskCompleted | app/actions.ts:28-32 | returns markTaskCompleted's success and its effect |
| Actions.CreateNewContest | app/actions.ts:34-75 | a rejected parameter set throws before any store change; otherwise reconciliation runs first and then createContest, which succeeds |
| Actions.AddNewContestTask | app/actions.ts:77-88 | appends exactly the row addContestTask builds from the given contest, type, description, URL and required flag, and returns it; an absent flag makes the task required (`isRequired = true`) |
| Actions.StopContestSubmissions | app/actions.ts:90-95 | returns and applies stopSubmissions |
| Actions.SelectContestWinners | app/actions.ts:97-103 | returns the winners selectWinners draws, with its effect |
| Actions.StopContestManually | app/actions.ts:105-111 | returns the winners stopContest draws, with its effect |
| Actions.ProcessExpiredContests | app/actions.ts:114-118 | applies the reconciliation pass |
| ContestView.CheckContestEnd | components/contest-interface.tsx:44-79 | the step-by-step `ended` equals NaturallyEnded: a running duration contest at or past its end time, or a participant contest at its truthy cap |
| ContestView.DurationEndsAtEndTime | components/contest-interface.tsx:48-52 | for a duration contest with an end time and no manual stop, ended exactly when now >= end |
| ContestView.ParticipantEndIgnoresManualStop | components/contest-interface.tsx:70-76 | a participant contest is ended exactly at its truthy cap, whatever manually_stopped says |
| ContestView.Countdown | components/contest-interface.tsx:83-95 | "Contest Ended" exactly when the difference d <= 0; otherwise minutes and seconds are below 60 and 3600000h + 60000m + 1000s <= d < that + 1000 |
| ContestView.SplitBounds | components/contest-interface.tsx:88-92 | the three floor divisions of a positive difference give minutes and seconds below 60 that bracket the difference to the second |
| ContestView.CountdownIsTheOnlySplit | components/contest-interface.tsx:88-92 | any split with those bounds is the one the countdown shows |
| ContestView.BlockedMatchesServerRefusal | components/contest-interface.tsx:179 | for a stored contest the form is closed exactly when submitAddress would refuse as not active or stopped, or the contest has ended by itself |
| ContestView.BannerFor | components/contest-interface.tsx:297-328 | a banner appears exactly when submissions are blocked; "Completed" exactly for a completed contest, "Submissions Stopped" exactly for a flagged one that is not completed, the time/limit banner exactly otherwise, worded by contest type |
| ContestView.RecentParticipants | components/contest-interface.tsx:514-517 | the list has min(8, n) entries and entry i is the (i+1)-th newest submission |
| ContestView.RecentNewestFirst | components/contest-interface.tsx:514-517 | fed a well-formed store's submissions of a contest, the list runs newest first, ids strictly decreasing |
| ContestView.ShortAddress | components/contest-interface.tsx:523-525 | the short form is the first 8 characters (the whole string when shorter), "..." and the last 6 (the whole string when shorter), for strings of any length |
| ContestView.ShortFormOfValidAddress | components/contest-interface.tsx:523-525 | a valid address is shown as 17 characters starting with "0x" |
| ContestView.MessageFor | components/contest-interface.tsx:130-135 | success shows the success message; a failure shows its error or "Failed to submit address" when the error is empty |
| ContestView.ContestForm.ConfirmFollow | components/contest-interface.tsx:108-111 | records the follow and closes the prompt |
| ContestView.ContestForm.HandleSubmit | components/contest-interface.tsx:117-138 | before the follow is confirmed only the prompt opens and the store is untouched; afterwards the server's answer is shown, the field is cleared on success, the prompt is left as it was, and the store changes as submitEVMAddress does |
| AdminView.IsContestNaturallyEnded | components/admin-interface.tsx:156-180 | false without a contest; otherwise the same answer as the participant view's rule |
| AdminView.StoppedShownMatchesParticipantView | components/admin-interface.tsx:188-190 | the admin's "stopped" implies the participant view is closed, and for an active contest the two agree |
| AdminView.StopButtonGoneAfterStop | components/admin-interface.tsx:493 | once stopSubmissions has flagged a contest the Stop button is hidden |
| AdminView.DrawOfferedExactlyWhenDrawActs | components/admin-interface.tsx:191-192 | for the current contest the draw button is offered exactly when selectWinners would change the store |
| AdminView.BadgeLabel | components/admin-interface.tsx:463-467 | "Completed" exactly for a completed contest, else "Submissions Stopped" exactly when stopped is shown, else "Active" |
| AdminView.StopButtonMatchesBadge | components/admin-interface.tsx:489-508 | the Stop button shows exactly for an active contest whose badge reads "Active"; the draw button ignores the stop flag |
| AdminView.OfferedDrawSelectsSomeone | components/admin-interface.tsx:191-192 | when the draw button is offered for the current contest, the draw picks someone and completes the contest |
| AdminView.FormCheck | components/admin-interface.tsx:73-100 | the form passes exactly when the field of its type, the winner count and the amount are positive; otherwise the alert is the first failing check in the order duration or participants, winners, amount |
| AdminView.FormAcceptanceImpliesServerAcceptance | components/admin-interface.tsx:63-117 | what the form sends passes the server check and createContest succeeds on it |
| HomePage.PageSubmissions | app/page.tsx:12-13 | no submissions without an active contest; otherwise getContestSubmissions of the current contest, so exactly its submissions in table order |
| HomePage.Page | app/page.tsx:11-44 | with no active contest: the newest completed contest and getWinnersByContest of it (none without one); otherwise the newest active contest, getContestSubmissions and getContestTasks of it, and the flag isExpired or the contest's real participant count reaching its cap |
| HomePage.PageListsInIdOrder | app/page.tsx:12-22 | in a well-formed store the page's submissions and tasks run oldest first and the last contest's winners newest first |
| HomePage.PageShowsTheActiveContest | app/page.tsx:12-35 | in a well-formed store the page shows the stored active contest |
| EndRules.PageAndViewAgreeAwayFromEndInstant | app/page.tsx:27-40 | at the same clock reading and without a manual stop, the page flag and the view's rule agree except when now equals end_time |
| EndRules.EndInstantSplitsPageAndView | app/page.tsx:27 | at the end instant the view says ended (`>=`) and the page does not (`>`) |
| EndRules.PageIgnoresManualStop | app/page.tsx:27 | a manually stopped duration contest past its end is expired for the page but not for the view |
| EndRules.PageFlagsMatchSweep | app/page.tsx:27-31 | for the active contest of a well-formed store and at the same clock reading, isExpired is exactly the sweep's duration SELECT, isParticipantLimitReached exactly its participant SELECT, and the flag the page renders is exactly whether the pass picks the contest |
| EndRules.SweepImpliesViewEnded | lib/database.ts:442-472 | at the same clock reading, every stored contest the reconciliation pass picks is already shown as ended by the view and the page |
| EndRules.ViewEndedButNotSwept | lib/database.ts:442-448 | at the same clock reading, for the active contest the view and the pass differ only for a duration contest at exactly its end time |
| EndRules.ViewAndSweepAcrossClocks | lib/database.ts:442-448 | with the browser and the database reading different clocks, the view and the pass differ exactly for a duration contest whose end time lies between the two readings |
| EndRules.SweepClosesContest | lib/database.ts:452-460 | after the pass the server refuses every address for a contest it picked, with the stopped error |
| EndRules.LateSubmissionAdmittedUntilSwept | lib/database.ts:160-198 | submitAddress never reads end_time: an expired, unswept contest admits an address that the pass then refuses |

## Left out

- SQL driver, environment lookup and error handling: catch blocks that return `[]`, `null` or the generic messages "Failed to mark task as completed" / "Failed to submit address" on infrastructure faults are not modelled.
- The duplicate answer of submitAddress comes from the unique constraint (`error.code === "23505"`). The model makes it an explicit last check at the same point, which gives the same answer for sequential calls.
- Concurrency: the check-then-insert of submitAddress and an unguarded second `selectWinners` racing with the first. Only sequential calls are modelled.
- The shuffle `sort(() => Math.random() - 0.5)` is any permutation `perm`. Uniformity and bias are not modelled.
- Floating point: `parseFloat` of amounts, `formatMonadAmount`, the total prize pool. `monad_amount` is opaque text copied into winner rows. The create form's amount is an `Option<real>`.
- Dates and time zones: `toISOString`, `toLocaleString("id-ID", Asia/Jakarta)`. Times are integer milliseconds. Timestamps are taken to increase with insertion, so `ORDER BY ... ASC` is insertion order and `DESC` its reverse; ties between equal timestamps are not modelled.
- Actions.AcceptedContestIsCreated: numbers are unbounded integers. A JavaScript `Date` holds at most 8.64e15 ms, so a duration above about 1.44e11 minutes makes `new Date(...)` invalid and `toISOString()` throw a RangeError after the active contests were ended; the model returns the contest instead. The same applies to Actions.CreateNewContest's `Ok` result.
- Actions.CreateNewContest: a server action called directly can receive fractional or non-numeric durations, caps and winner counts. The model takes integers, so `Math.ceil` of a fraction and NaN comparisons are not covered.
- Clock skew: app/page.tsx reads the server's clock, the participant view the browser's, and the reconciliation pass the database's `NOW()`. The four-copy comparisons in EndRules hold at the same clock reading; only EndRules.ViewAndSweepAcrossClocks takes two readings, and no bound on the skew between them is modelled.
- ContestView.Countdown: the `"${h}h ${m}m ${s}s"` text and the one-second `setInterval` are not modelled, only the numbers.
- `getUserTaskCompletions` and `getAllWinners`: read-only queries outside the modelled operations. submitAddress's own completion lookup is `CompletedTaskIds`.
- `loginAction` and `logoutAction`, and lib/auth.ts: authentication and sessions are not part of this model.
- Display-only parts: the history, login and no-active-contest components, layouts, Twitter share URLs, `window.open`, `revalidatePath`, `redirect`, `console.log`. React state other than the submit form is not modelled.
- Argument order of createNewContest: the source takes a leading `contestName` and forwards every argument one slot later into createContest. The admin form calls it with five arguments, which shifts them back into place. On that path the server checks see the duration in the contest-type slot and never fire. The model passes each argument under its createContest name. AdminView.FormAcceptanceImpliesServerAcceptance shows that the form's own checks are at least as strict.
- app/page.tsx passes `tasks` and `userTaskCompletions`, which the contest view does not declare, and the view never reads `isExpired`. The page's flag is modelled for comparison only.
- Database.AfterDraw: a non-empty pool whose contest row is missing makes the source throw. The model leaves the tables unchanged in that case, which cannot arise in a well-formed store.

## Code versus design intent

Where the intended behaviour of the system and its code differ, the model follows the code:

- createContest ends the active contests before it validates. A negative duration throws after that UPDATE, and nothing restores the contests (Database.CreateTiming). It does not check the winner count or the amount.
- selectWinners has no guard against a second call: it draws and inserts again (Database.RedrawAddsMoreWinners). It can draw from a contest that is still active, and the admin view offers exactly that (AdminView.OfferedDrawSelectsSomeone).
- The draw size is `min(winner_count || 1, n)`, so a winner_count of 0 draws one. A negative count follows `slice(0, k)` with a negative end.
- stopContest on a contest without submissions leaves it 'ended' with no drawing (Database.StopContestEmptyPool).
- The participant branch of the view's rule ignores `manually_stopped`. The page's duration check uses `>` where the view uses `>=`, and ignores the manual stop (EndRules).
- submitAddress never reads end_time. Closing an expired contest is left to the reconciliation pass, which only runs from createNewContest and processExpiredContests (EndRules.LateSubmissionAdmittedUntilSwept).
- Address deduplication is case-sensitive (Actions.MixedCaseAddressesBothAdmitted).
