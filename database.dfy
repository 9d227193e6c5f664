/** The contest store of lib/database.ts. The five SQL tables become
    sequences in insertion order; every exported operation is a method of
    `Store` that reassigns them, specified by a function on the `Db` value
    of the tables before the call. Queries (`SELECT ... WHERE`) are filters,
    and `UPDATE ... WHERE id = k` rewrites every row whose id is k. */
module Database {
  import opened Records
  import opened SeqUtil

  /** The tables as one value. */
  datatype Db = Db(
    contests: seq<Contest>,
    submissions: seq<Submission>,
    tasks: seq<ContestTask>,
    completions: seq<TaskCompletion>,
    winners: seq<Winner>)

  const NotActiveError := "Contest is not active"
  const StoppedError := "Submissions have been stopped by admin"
  const TasksIncompleteError := "Please complete all required tasks before submitting"
  const DuplicateError := "Address already submitted"

  const FollowTaskType := "follow_twitter"
  const FollowTaskDescription := "Follow @agungfathul on X (Twitter)"
  const FollowTaskUrl := "https://x.com/agungfathul"

  const MinuteMs := 60 * 1000
  /** duration_hours written for a contest without an end time */
  const DefaultDurationHours := 24

  // ---------------------------------------------------------------------
  // Invariants of the tables

  /** Contest ids are serial keys: the row at position i has id i + 1. */
  predicate IdsArePositions(cs: seq<Contest>) {
    forall i :: 0 <= i < |cs| ==> cs[i].id == i + 1
  }

  function EntryKey(s: Submission): (int, string) {
    (s.contestId, s.evmAddress)
  }

  function CompletionKey(c: TaskCompletion): (int, string, int) {
    (c.contestId, c.evmAddress, c.taskId)
  }

  /** The unique constraint on submissions (contest_id, evm_address). */
  ghost predicate UniqueSubmissions(subs: seq<Submission>) {
    forall i, j :: 0 <= i < j < |subs| ==> EntryKey(subs[i]) != EntryKey(subs[j])
  }

  /** The unique constraint on user_task_completions (contest_id, evm_address, task_id). */
  ghost predicate UniqueCompletions(cs: seq<TaskCompletion>) {
    forall i, j :: 0 <= i < j < |cs| ==> CompletionKey(cs[i]) != CompletionKey(cs[j])
  }

  ghost predicate AtMostOneActive(cs: seq<Contest>) {
    forall i, j :: 0 <= i < |cs| && 0 <= j < |cs| && cs[i].status == Active && cs[j].status == Active ==> i == j
  }

  /** A manually stopped contest has been moved out of 'active' in the same UPDATE. */
  ghost predicate StoppedAreInactive(cs: seq<Contest>) {
    forall i :: 0 <= i < |cs| && cs[i].manuallyStopped ==> cs[i].status != Active
  }

  /** `x || null` never stores 0 in the nullable limits. */
  ghost predicate NoZeroLimits(cs: seq<Contest>) {
    forall i :: 0 <= i < |cs| ==> cs[i].maxParticipants != Some(0) && cs[i].durationMinutes != Some(0)
  }

  /** Every submission belongs to a stored contest (submitAddress only inserts after finding it). */
  ghost predicate SubmissionsHaveContests(db: Db) {
    forall s :: s in db.submissions ==> 1 <= s.contestId <= |db.contests|
  }

  /** Submission, task and winner ids are serial keys too, so each table's ids increase. */
  predicate SerialRowIds(db: Db) {
    && NumberedFromOne(db.submissions, SubmissionId)
    && NumberedFromOne(db.tasks, TaskId)
    && NumberedFromOne(db.winners, WinnerId)
  }

  ghost predicate WellFormed(db: Db) {
    && IdsArePositions(db.contests)
    && SerialRowIds(db)
    && UniqueSubmissions(db.submissions)
    && UniqueCompletions(db.completions)
    && AtMostOneActive(db.contests)
    && StoppedAreInactive(db.contests)
    && NoZeroLimits(db.contests)
    && SubmissionsHaveContests(db)
  }

  // ---------------------------------------------------------------------
  // Queries

  function ContestRows(cs: seq<Contest>, id: int): seq<Contest> {
    Filter(cs, (c: Contest) => c.id == id)
  }

  /** `SELECT * FROM contests WHERE id = ${id}`, first row. */
  function ContestById(cs: seq<Contest>, id: int): (r: Option<Contest>)
    ensures r.Some? <==> exists c :: c in cs && c.id == id
    ensures r.Some? ==> r.value in cs && r.value.id == id
  {
    var rows := ContestRows(cs, id);
    if rows == [] then None
    else
      assert rows[0] in rows;
      Some(rows[0])
  }

  /** With serial ids the row found by id is the row at position id - 1. */
  lemma ContestByIdAt(cs: seq<Contest>, id: int)
    requires IdsArePositions(cs)
    ensures ContestById(cs, id) == if 1 <= id <= |cs| then Some(cs[id - 1]) else None
  {
    if 1 <= id <= |cs| {
      assert cs[id - 1] in cs;
      var c := ContestById(cs, id).value;
      var i :| 0 <= i < |cs| && cs[i] == c;
    }
  }

  /** `getContestSubmissions`: the contest's submissions, oldest first. */
  function SubmissionsOf(subs: seq<Submission>, contestId: int): (r: seq<Submission>)
    ensures forall s :: s in r <==> s in subs && s.contestId == contestId
    ensures IncreasingBy(subs, SubmissionId) ==> IncreasingBy(r, SubmissionId)
  {
    var p := (s: Submission) => s.contestId == contestId;
    FilterKeepsOrder(subs, p, SubmissionId);
    Filter(subs, p)
  }

  function SubmissionId(s: Submission): int { s.id }

  /** `COUNT(s.id)` of the contest's submissions. */
  function ParticipantCount(subs: seq<Submission>, contestId: int): nat {
    |SubmissionsOf(subs, contestId)|
  }

  /** `getContestTasks` */
  function TasksOf(tasks: seq<ContestTask>, contestId: int): (r: seq<ContestTask>)
    ensures forall t :: t in r <==> t in tasks && t.contestId == contestId
    ensures IncreasingBy(tasks, TaskId) ==> IncreasingBy(r, TaskId)
  {
    var p := (t: ContestTask) => t.contestId == contestId;
    FilterKeepsOrder(tasks, p, TaskId);
    Filter(tasks, p)
  }

  function TaskId(t: ContestTask): int { t.id }

  /** `getWinnersByContest`: ORDER BY won_at DESC, the newest row first. */
  function WinnersByContest(ws: seq<Winner>, contestId: int): (r: seq<Winner>)
    ensures forall w :: w in r <==> w in ws && w.contestId == contestId
    ensures IncreasingBy(ws, WinnerId) ==> forall i, j :: 0 <= i < j < |r| ==> r[i].id > r[j].id
  {
    var p := (w: Winner) => w.contestId == contestId;
    var rows := Filter(ws, p);
    forall w ensures w in Reversed(rows) <==> w in rows {
      ReversedSameElements(rows, w);
    }
    FilterKeepsOrder(ws, p, WinnerId);
    forall i, j | 0 <= i < j < |rows| && IncreasingBy(ws, WinnerId) ensures Reversed(rows)[i].id > Reversed(rows)[j].id {
      ReversedAt(rows, i);
      ReversedAt(rows, j);
      assert WinnerId(rows[|rows| - 1 - j]) < WinnerId(rows[|rows| - 1 - i]);
    }
    Reversed(rows)
  }

  function WinnerId(w: Winner): int { w.id }

  lemma ReversedSameElements<T>(s: seq<T>, x: T)
    ensures x in Reversed(s) <==> x in s
  {
    if x in s {
      var i :| 0 <= i < |s| && s[i] == x;
      ReversedAt(s, |s| - 1 - i);
    }
    if x in Reversed(s) {
      var k :| 0 <= k < |s| && Reversed(s)[k] == x;
      ReversedAt(s, k);
    }
  }

  /** The position of the last row with the given status, or -1 when there is none. */
  function NewestIndex(cs: seq<Contest>, st: Status): (k: int)
    ensures -1 <= k < |cs|
    ensures k >= 0 ==> cs[k].status == st
    ensures forall j :: k < j < |cs| ==> cs[j].status != st
  {
    if cs == [] then -1
    else if cs[|cs| - 1].status == st then |cs| - 1
    else NewestIndex(cs[..|cs| - 1], st)
  }

  /** The newest row with the given status (`ORDER BY created_at DESC LIMIT 1`). */
  function NewestWithStatus(cs: seq<Contest>, st: Status): (r: Option<Contest>)
    ensures r.None? <==> forall i :: 0 <= i < |cs| ==> cs[i].status != st
    ensures r.Some? ==> exists i :: 0 <= i < |cs| && cs[i] == r.value && r.value.status == st
                                    && forall j :: i < j < |cs| ==> cs[j].status != st
  {
    var k := NewestIndex(cs, st);
    if k < 0 then None else Some(cs[k])
  }

  /** `getCurrentContest` */
  function CurrentContest(db: Db): (r: Option<Contest>)
    ensures r.None? <==> forall c :: c in db.contests ==> c.status != Active
    ensures r.Some? ==> exists i :: 0 <= i < |db.contests| && db.contests[i] == r.value && r.value.status == Active
                                    && forall j :: i < j < |db.contests| ==> db.contests[j].status != Active
  {
    NewestWithStatus(db.contests, Active)
  }

  /** `getLastCompletedContest` */
  function LastCompletedContest(db: Db): (r: Option<Contest>)
    ensures r.None? <==> forall c :: c in db.contests ==> c.status != Completed
    ensures r.Some? ==> exists i :: 0 <= i < |db.contests| && db.contests[i] == r.value && r.value.status == Completed
                                    && forall j :: i < j < |db.contests| ==> db.contests[j].status != Completed
  {
    NewestWithStatus(db.contests, Completed)
  }

  /** With at most one active contest, `getCurrentContest` returns exactly it. */
  lemma CurrentContestIsTheActiveOne(db: Db, c: Contest)
    requires WellFormed(db)
    ensures CurrentContest(db) == Some(c) <==> c in db.contests && c.status == Active
  {
    if c in db.contests && c.status == Active {
      var i :| 0 <= i < |db.contests| && db.contests[i] == c;
      var r := CurrentContest(db);
      assert r.Some?;
      var k :| 0 <= k < |db.contests| && db.contests[k] == r.value && r.value.status == Active;
      assert k == i;
    }
  }

  // ---------------------------------------------------------------------
  // submitAddress and markTaskCompleted

  function RequiredTaskIds(db: Db, contestId: int): set<int> {
    set t | t in db.tasks && t.contestId == contestId && t.isRequired :: t.id
  }

  function CompletedTaskIds(db: Db, contestId: int, address: string): set<int> {
    set c | c in db.completions && c.contestId == contestId && c.evmAddress == address :: c.taskId
  }

  predicate HasSubmission(subs: seq<Submission>, contestId: int, address: string) {
    exists s :: s in subs && EntryKey(s) == (contestId, address)
  }

  /** What submitAddress returns, checks in source order. */
  function SubmitVerdict(db: Db, contestId: int, address: string): Outcome {
    match ContestById(db.contests, contestId)
    case None => Failure(NotActiveError)
    case Some(c) =>
      if c.status != Active then Failure(NotActiveError)
      else if c.submissionsStopped then Failure(StoppedError)
      else if !(RequiredTaskIds(db, contestId) <= CompletedTaskIds(db, contestId, address)) then Failure(TasksIncompleteError)
      else if HasSubmission(db.submissions, contestId, address) then Failure(DuplicateError)
      else Success
  }

  /** The tables after submitAddress. */
  function AfterSubmit(db: Db, contestId: int, address: string, now: int): Db {
    if SubmitVerdict(db, contestId, address) == Success
    then db.(submissions := db.submissions + [Submission(|db.submissions| + 1, contestId, address, now)])
    else db
  }

  predicate HasCompletion(cs: seq<TaskCompletion>, contestId: int, address: string, taskId: int) {
    exists c :: c in cs && CompletionKey(c) == (contestId, address, taskId)
  }

  /** The tables after markTaskCompleted: INSERT ... ON CONFLICT DO NOTHING. */
  function AfterMarkTask(db: Db, contestId: int, address: string, taskId: int, now: int): Db {
    if HasCompletion(db.completions, contestId, address, taskId) then db
    else db.(completions := db.completions + [TaskCompletion(|db.completions| + 1, contestId, address, taskId, now)])
  }

  function CompletionsFor(cs: seq<TaskCompletion>, contestId: int, address: string, taskId: int): seq<TaskCompletion> {
    Filter(cs, (c: TaskCompletion) => CompletionKey(c) == (contestId, address, taskId))
  }

  // ---------------------------------------------------------------------
  // createContest

  /** `UPDATE contests SET status = 'ended' WHERE status = 'active'` */
  function EndActive(cs: seq<Contest>): (r: seq<Contest>)
    ensures |r| == |cs|
    ensures forall i :: 0 <= i < |r| ==> r[i].status != Active
    ensures forall i :: 0 <= i < |r| ==>
      && r[i].status == (if cs[i].status == Active then Ended else cs[i].status)
      && r[i].(status := cs[i].status) == cs[i]
  {
    seq(|cs|, i requires 0 <= i < |cs| => if cs[i].status == Active then cs[i].(status := Ended) else cs[i])
  }

  /** `Math.ceil(minutes / 60)` for positive minutes. */
  function CeilHours(minutes: int): (h: int)
    requires minutes > 0
    ensures 60 * (h - 1) < minutes <= 60 * h
  {
    (minutes + 59) / 60
  }

  datatype Timing = Timing(endTime: Option<int>, durationHours: int)

  /** end_time and duration_hours of a new contest, or the throw for a negative duration. */
  function ContestTiming(contestType: ContestType, durationMinutes: Option<int>, dbNow: int): Result<Timing, ContestError> {
    if contestType == Duration && Truthy(durationMinutes) then
      var d := durationMinutes.value;
      if d <= 0 then Err(InvalidDuration(d))
      else Ok(Timing(Some(dbNow + d * MinuteMs), CeilHours(d)))
    else Ok(Timing(None, DefaultDurationHours))
  }

  function FollowTask(id: int, contestId: int, now: int): ContestTask {
    ContestTask(id, contestId, FollowTaskType, FollowTaskDescription, Some(FollowTaskUrl), true, now)
  }

  /** What createContest returns (the inserted row) or throws. */
  function CreateOutcome(db: Db, monadAmount: Amount, contestType: ContestType, durationMinutes: Option<int>,
                         maxParticipants: Option<int>, winnerCount: int, dbNow: int): Result<Contest, ContestError>
  {
    match ContestTiming(contestType, durationMinutes, dbNow)
    case Err(e) => Err(e)
    case Ok(t) =>
      Ok(Contest(|db.contests| + 1, monadAmount, t.durationHours, OrNull(durationMinutes), dbNow, t.endTime,
                 Active, dbNow, contestType, OrNull(maxParticipants), false, false, winnerCount))
  }

  /** The tables after createContest: the active contests are ended first, even when it then throws. */
  function AfterCreate(db: Db, monadAmount: Amount, contestType: ContestType, durationMinutes: Option<int>,
                       maxParticipants: Option<int>, winnerCount: int, dbNow: int): Db
  {
    var ended := db.(contests := EndActive(db.contests));
    match CreateOutcome(db, monadAmount, contestType, durationMinutes, maxParticipants, winnerCount, dbNow)
    case Err(_) => ended
    case Ok(c) => ended.(contests := ended.contests + [c], tasks := db.tasks + [FollowTask(|db.tasks| + 1, c.id, dbNow)])
  }

  /** `isRequired = true`: a task added without the flag is required. */
  function RequiredArg(isRequired: Option<bool>): bool {
    if isRequired.Some? then isRequired.value else true
  }

  // ---------------------------------------------------------------------
  // stopSubmissions, stopContest

  /** `UPDATE contests SET submissions_stopped = TRUE WHERE id = ${id}` */
  function FlagStopped(cs: seq<Contest>, id: int): (r: seq<Contest>)
    ensures |r| == |cs|
  {
    seq(|cs|, i requires 0 <= i < |cs| => if cs[i].id == id then cs[i].(submissionsStopped := true) else cs[i])
  }

  /** `UPDATE contests SET manually_stopped = TRUE, status = 'ended' WHERE id = ${id}` */
  function MarkManuallyStopped(cs: seq<Contest>, id: int): (r: seq<Contest>)
    ensures |r| == |cs|
  {
    seq(|cs|, i requires 0 <= i < |cs| => if cs[i].id == id then cs[i].(manuallyStopped := true, status := Ended) else cs[i])
  }

  /** `UPDATE contests SET status = 'completed' WHERE id = ${id}` */
  function MarkCompleted(cs: seq<Contest>, id: int): (r: seq<Contest>)
    ensures |r| == |cs|
  {
    seq(|cs|, i requires 0 <= i < |cs| => if cs[i].id == id then cs[i].(status := Completed) else cs[i])
  }

  // ---------------------------------------------------------------------
  // selectWinners

  /** The shuffle is an arbitrary permutation of the pool's positions. */
  ghost predicate IsPermutation(perm: seq<nat>, n: nat) {
    && |perm| == n
    && (forall i :: 0 <= i < n ==> perm[i] < n)
    && (forall i, j :: 0 <= i < j < n ==> perm[i] != perm[j])
  }

  /** `shuffled.slice(0, Math.min(winner_count || 1, n))` as a count, with
      JavaScript's reading of a negative end index (counted from the back). */
  function DrawCount(winnerCount: int, n: nat): (k: nat)
    ensures k <= n
    ensures winnerCount >= 0 && n > 0 ==> k > 0
  {
    var w := if winnerCount == 0 then 1 else winnerCount;
    var m := if w < n then w else n;
    if m >= 0 then m else if n + m >= 0 then n + m else 0
  }

  /** The submissions selectWinners draws and returns. */
  function Drawn(db: Db, contestId: int, perm: seq<nat>): seq<Submission>
    requires IsPermutation(perm, ParticipantCount(db.submissions, contestId))
  {
    var pool := SubmissionsOf(db.submissions, contestId);
    match ContestById(db.contests, contestId)
    case None => []
    case Some(c) =>
      var k := DrawCount(c.winnerCount, |pool|);
      seq(k, i requires 0 <= i < k => pool[perm[i]])
  }

  /** The winner rows inserted for `sel`, ids continuing after `base`. */
  function WinnerRows(sel: seq<Submission>, contestId: int, amount: Amount, base: int, now: int): (r: seq<Winner>)
    ensures |r| == |sel|
  {
    seq(|sel|, i requires 0 <= i < |sel| => Winner(base + i + 1, contestId, sel[i].evmAddress, amount, now))
  }

  /** One more drawn entry adds one more winner row. */
  lemma WinnerRowsSnoc(sel: seq<Submission>, i: nat, contestId: int, amount: Amount, base: int, now: int)
    requires i < |sel|
    ensures WinnerRows(sel[..i + 1], contestId, amount, base, now)
         == WinnerRows(sel[..i], contestId, amount, base, now) + [Winner(base + i + 1, contestId, sel[i].evmAddress, amount, now)]
  {
  }

  /** The winner rows of a draw continue the serial ids of the table. */
  lemma WinnerRowsContinueNumbering(ws: seq<Winner>, sel: seq<Submission>, contestId: int, amount: Amount, now: int)
    requires NumberedFromOne(ws, WinnerId)
    ensures NumberedFromOne(ws + WinnerRows(sel, contestId, amount, |ws|, now), WinnerId)
  {
  }

  /** The tables after selectWinners. An empty pool changes nothing; a pool
      without its contest row cannot occur in a well-formed store (the source
      would throw reading `contest[0]`) and is mapped to no change. */
  function AfterDraw(db: Db, contestId: int, perm: seq<nat>, now: int): Db
    requires IsPermutation(perm, ParticipantCount(db.submissions, contestId))
  {
    if SubmissionsOf(db.submissions, contestId) == [] then db
    else
      match ContestById(db.contests, contestId)
      case None => db
      case Some(c) =>
        db.(winners := db.winners + WinnerRows(Drawn(db, contestId, perm), contestId, c.monadAmount, |db.winners|, now),
            contests := MarkCompleted(db.contests, contestId))
  }

  // ---------------------------------------------------------------------
  // checkAndProcessExpiredContests

  /** The two SELECTs of the reconciliation pass. */
  datatype Sweep = DurationSweep | ParticipantSweep

  /** Row test of each SELECT. A NULL end_time or max_participants never compares true. */
  predicate SweepHit(sweep: Sweep, c: Contest, count: int, now: int) {
    && c.status == Active
    && !c.manuallyStopped
    && match sweep
       case DurationSweep => c.contestType == Duration && c.endTime.Some? && c.endTime.value < now
       case ParticipantSweep => c.contestType == Participants && c.maxParticipants.Some? && count >= c.maxParticipants.value
  }

  /** A row either SELECT picks. */
  predicate ReconcileHits(c: Contest, count: int, now: int) {
    SweepHit(DurationSweep, c, count, now) || SweepHit(ParticipantSweep, c, count, now)
  }

  /** The ids one SELECT returns. */
  function SweepIds(cs: seq<Contest>, subs: seq<Submission>, sweep: Sweep, now: int): (ids: seq<int>)
    requires IdsArePositions(cs)
    ensures forall k :: k in ids ==> 1 <= k <= |cs|
    ensures forall i :: 0 <= i < |cs| ==> (cs[i].id in ids <==> SweepHit(sweep, cs[i], ParticipantCount(subs, cs[i].id), now))
    decreases |cs|
  {
    if cs == [] then []
    else
      var n := |cs|;
      var last := cs[n - 1];
      var init := cs[..n - 1];
      assert forall i :: 0 <= i < n - 1 ==> init[i] == cs[i] && cs[i].id != last.id;
      SweepIds(init, subs, sweep, now) + (if SweepHit(sweep, last, ParticipantCount(subs, last.id), now) then [last.id] else [])
  }

  /** The contests after every id in `ids` has had submissions_stopped set. */
  function FlagAll(cs: seq<Contest>, ids: seq<int>): (r: seq<Contest>)
    ensures |r| == |cs|
  {
    seq(|cs|, i requires 0 <= i < |cs| => if cs[i].id in ids then cs[i].(submissionsStopped := true) else cs[i])
  }

  /** The tables after checkAndProcessExpiredContests. */
  function Reconciled(db: Db, now: int): Db {
    db.(contests := seq(|db.contests|, i requires 0 <= i < |db.contests| =>
          var c := db.contests[i];
          if ReconcileHits(c, ParticipantCount(db.submissions, c.id), now) then c.(submissionsStopped := true) else c))
  }

  // ---------------------------------------------------------------------
  // The store

  class Store {
    var contests: seq<Contest>
    var submissions: seq<Submission>
    var tasks: seq<ContestTask>
    var completions: seq<TaskCompletion>
    var winners: seq<Winner>

    function State(): Db
      reads this
    {
      Db(contests, submissions, tasks, completions, winners)
    }

    ghost predicate Valid()
      reads this
    {
      WellFormed(State())
    }

    constructor ()
      ensures Valid()
      ensures State() == Db([], [], [], [], [])
    {
      contests, submissions, tasks, completions, winners := [], [], [], [], [];
    }

    method MarkTaskCompleted(contestId: int, address: string, taskId: int, now: int) returns (r: Outcome)
      requires Valid()
      modifies this
      ensures Valid()
      ensures r == Success
      ensures State() == AfterMarkTask(old(State()), contestId, address, taskId, now)
      ensures HasCompletion(completions, contestId, address, taskId)
    {
      if !HasCompletion(completions, contestId, address, taskId) {
        var row := TaskCompletion(|completions| + 1, contestId, address, taskId, now);
        completions := completions + [row];
        assert row in completions;
      }
      r := Success;
    }

    method SubmitAddress(contestId: int, address: string, now: int) returns (r: Outcome)
      requires Valid()
      modifies this
      ensures Valid()
      ensures r == SubmitVerdict(old(State()), contestId, address)
      ensures State() == AfterSubmit(old(State()), contestId, address, now)
    {
      var found := ContestById(contests, contestId);
      if found.None? || found.value.status != Active {
        return Failure(NotActiveError);
      }
      if found.value.submissionsStopped {
        return Failure(StoppedError);
      }
      var required := RequiredTaskIds(State(), contestId);
      var completed := CompletedTaskIds(State(), contestId, address);
      if !(required <= completed) {
        return Failure(TasksIncompleteError);
      }
      if HasSubmission(submissions, contestId, address) {
        return Failure(DuplicateError);
      }
      submissions := submissions + [Submission(|submissions| + 1, contestId, address, now)];
      r := Success;
    }

    method CreateContest(monadAmount: Amount, contestType: ContestType, durationMinutes: Option<int>,
                         maxParticipants: Option<int>, winnerCount: int, dbNow: int)
      returns (r: Result<Contest, ContestError>)
      requires Valid()
      modifies this
      ensures Valid()
      ensures r == CreateOutcome(old(State()), monadAmount, contestType, durationMinutes, maxParticipants, winnerCount, dbNow)
      ensures State() == AfterCreate(old(State()), monadAmount, contestType, durationMinutes, maxParticipants, winnerCount, dbNow)
    {
      CreateKeepsWellFormed(State(), monadAmount, contestType, durationMinutes, maxParticipants, winnerCount, dbNow);
      contests := EndActive(contests);
      var endTime: Option<int> := None;
      var durationHours: int;
      if contestType == Duration && Truthy(durationMinutes) {
        if durationMinutes.value <= 0 {
          return Err(InvalidDuration(durationMinutes.value));
        }
        endTime := Some(dbNow + durationMinutes.value * MinuteMs);
        durationHours := CeilHours(durationMinutes.value);
      } else {
        durationHours := DefaultDurationHours;
      }
      var created := Contest(|contests| + 1, monadAmount, durationHours, OrNull(durationMinutes), dbNow, endTime,
                             Active, dbNow, contestType, OrNull(maxParticipants), false, false, winnerCount);
      contests := contests + [created];
      tasks := tasks + [FollowTask(|tasks| + 1, created.id, dbNow)];
      r := Ok(created);
    }

    method AddContestTask(contestId: int, taskType: string, taskDescription: string, taskUrl: Option<string>,
                          isRequired: Option<bool>, now: int) returns (t: ContestTask)
      requires Valid()
      modifies this
      ensures Valid()
      ensures t == ContestTask(|old(tasks)| + 1, contestId, taskType, taskDescription,
                               if taskUrl == Some("") then None else taskUrl, RequiredArg(isRequired), now)
      ensures isRequired.None? ==> t.isRequired
      ensures tasks == old(tasks) + [t]
      ensures State() == old(State()).(tasks := tasks)
    {
      var url := if taskUrl == Some("") then None else taskUrl;
      t := ContestTask(|tasks| + 1, contestId, taskType, taskDescription, url, RequiredArg(isRequired), now);
      tasks := tasks + [t];
    }

    method StopSubmissions(contestId: int) returns (r: Outcome)
      requires Valid()
      modifies this
      ensures Valid()
      ensures r == Success
      ensures State() == old(State()).(contests := FlagStopped(old(contests), contestId))
    {
      contests := FlagStopped(contests, contestId);
      r := Success;
    }

    method SelectWinners(contestId: int, perm: seq<nat>, now: int) returns (selected: seq<Submission>)
      requires Valid()
      requires IsPermutation(perm, ParticipantCount(submissions, contestId))
      modifies this
      ensures Valid()
      ensures selected == Drawn(old(State()), contestId, perm)
      ensures State() == AfterDraw(old(State()), contestId, perm, now)
    {
      var pool := SubmissionsOf(submissions, contestId);
      if |pool| == 0 {
        return [];
      }
      ghost var before := State();
      DrawUnfolds(before, contestId, perm, now);
      ContestByIdAt(contests, contestId);
      var contest := ContestById(contests, contestId).value;
      var k := DrawCount(contest.winnerCount, |pool|);
      var shuffled := seq(|pool|, i requires 0 <= i < |pool| => pool[perm[i]]);
      selected := shuffled[..k];
      assert selected == Drawn(before, contestId, perm);
      InsertWinners(selected, contestId, contest.monadAmount, now);
      contests := MarkCompleted(contests, contestId);
    }

    /** The insert loop of selectWinners: one winner row per selected submission. */
    method InsertWinners(selected: seq<Submission>, contestId: int, amount: Amount, now: int)
      modifies this
      ensures winners == old(winners) + WinnerRows(selected, contestId, amount, |old(winners)|, now)
      ensures contests == old(contests) && submissions == old(submissions)
      ensures tasks == old(tasks) && completions == old(completions)
    {
      var i := 0;
      while i < |selected|
        invariant 0 <= i <= |selected|
        invariant winners == old(winners) + WinnerRows(selected[..i], contestId, amount, |old(winners)|, now)
        invariant contests == old(contests) && submissions == old(submissions)
        invariant tasks == old(tasks) && completions == old(completions)
      {
        WinnerRowsSnoc(selected, i, contestId, amount, |old(winners)|, now);
        winners := winners + [Winner(|winners| + 1, contestId, selected[i].evmAddress, amount, now)];
        i := i + 1;
      }
      assert selected[..i] == selected;
    }

    method StopContest(contestId: int, perm: seq<nat>, now: int) returns (selected: seq<Submission>)
      requires Valid()
      requires IsPermutation(perm, ParticipantCount(submissions, contestId))
      modifies this
      ensures Valid()
      ensures selected == Drawn(old(State()).(contests := MarkManuallyStopped(old(contests), contestId)), contestId, perm)
      ensures State() == AfterDraw(old(State()).(contests := MarkManuallyStopped(old(contests), contestId)), contestId, perm, now)
    {
      contests := MarkManuallyStopped(contests, contestId);
      RowUpdateKeepsWellFormed(old(State()), contests);
      selected := SelectWinners(contestId, perm, now);
    }

    method CheckAndProcessExpiredContests(dbNow: int)
      requires Valid()
      modifies this
      ensures Valid()
      ensures State() == Reconciled(old(State()), dbNow)
    {
      var expired := SweepIds(contests, submissions, DurationSweep, dbNow);
      StopEach(expired);
      var full := SweepIds(contests, submissions, ParticipantSweep, dbNow);
      StopEach(full);
      ghost var was := old(State());
      assert contests == Reconciled(was, dbNow).contests;
      ReconciledKeepsWellFormed(was, dbNow);
    }

    /** The per-row UPDATE loop of the reconciliation pass. */
    method StopEach(ids: seq<int>)
      modifies this
      ensures contests == FlagAll(old(contests), ids)
      ensures submissions == old(submissions) && tasks == old(tasks)
      ensures completions == old(completions) && winners == old(winners)
    {
      var i := 0;
      while i < |ids|
        invariant 0 <= i <= |ids|
        invariant contests == FlagAll(old(contests), ids[..i])
        invariant submissions == old(submissions) && tasks == old(tasks)
        invariant completions == old(completions) && winners == old(winners)
      {
        assert ids[..i + 1] == ids[..i] + [ids[i]];
        contests := FlagStopped(contests, ids[i]);
        i := i + 1;
      }
      assert ids[..i] == ids;
    }
  }

  // ---------------------------------------------------------------------
  // The operations keep the tables well formed

  /** Rewriting rows without touching ids, statuses of inactive rows or limits keeps the invariant. */
  lemma RowUpdateKeepsWellFormed(db: Db, cs: seq<Contest>)
    requires WellFormed(db)
    requires |cs| == |db.contests|
    requires forall i :: 0 <= i < |cs| ==> cs[i].id == db.contests[i].id
    requires forall i :: 0 <= i < |cs| ==>
               cs[i].maxParticipants == db.contests[i].maxParticipants && cs[i].durationMinutes == db.contests[i].durationMinutes
    requires forall i :: 0 <= i < |cs| && cs[i].status == Active ==> db.contests[i].status == Active
    requires forall i :: 0 <= i < |cs| && cs[i].manuallyStopped ==> db.contests[i].manuallyStopped || cs[i].status != Active
    ensures WellFormed(db.(contests := cs))
  {
  }

  lemma CreateKeepsWellFormed(db: Db, monadAmount: Amount, contestType: ContestType, durationMinutes: Option<int>,
                              maxParticipants: Option<int>, winnerCount: int, dbNow: int)
    requires WellFormed(db)
    ensures WellFormed(AfterCreate(db, monadAmount, contestType, durationMinutes, maxParticipants, winnerCount, dbNow))
  {
    var ended := db.(contests := EndActive(db.contests));
    RowUpdateKeepsWellFormed(db, ended.contests);
  }

  lemma MarkCompletedKeepsWellFormed(db: Db, id: int, ws: seq<Winner>)
    requires WellFormed(db)
    requires NumberedFromOne(ws, WinnerId)
    ensures WellFormed(db.(contests := MarkCompleted(db.contests, id), winners := ws))
  {
    RowUpdateKeepsWellFormed(db.(winners := ws), MarkCompleted(db.contests, id));
  }

  lemma ReconciledKeepsWellFormed(db: Db, now: int)
    requires WellFormed(db)
    ensures WellFormed(Reconciled(db, now))
  {
    RowUpdateKeepsWellFormed(db, Reconciled(db, now).contests);
  }

  // ---------------------------------------------------------------------
  // Properties of the operations

  /** In a well-formed store the per-contest queries return their rows in the order the
      source asks for: submissions and tasks oldest first, winners newest first. */
  lemma {:induction false} QueriesInIdOrder(db: Db, contestId: int)
    requires WellFormed(db)
    ensures IncreasingBy(SubmissionsOf(db.submissions, contestId), SubmissionId)
    ensures IncreasingBy(TasksOf(db.tasks, contestId), TaskId)
    ensures var r := WinnersByContest(db.winners, contestId);
      forall i, j :: 0 <= i < j < |r| ==> r[i].id > r[j].id
  {
    NumberedIncreasing(db.submissions, SubmissionId);
    NumberedIncreasing(db.tasks, TaskId);
    NumberedIncreasing(db.winners, WinnerId);
  }

  /** A required task added to an open contest gates it: every address that has no
      completion recorded for the new task's id is refused with the tasks error. */
  lemma NewRequiredTaskGatesSubmission(db: Db, t: ContestTask, address: string)
    requires t.isRequired
    requires ContestById(db.contests, t.contestId).Some?
    requires ContestById(db.contests, t.contestId).value.status == Active
    requires !ContestById(db.contests, t.contestId).value.submissionsStopped
    requires !HasCompletion(db.completions, t.contestId, address, t.id)
    ensures SubmitVerdict(db.(tasks := db.tasks + [t]), t.contestId, address) == Failure(TasksIncompleteError)
  {
    var after := db.(tasks := db.tasks + [t]);
    assert t.id in RequiredTaskIds(after, t.contestId);
    forall c | c in db.completions && c.contestId == t.contestId && c.evmAddress == address
      ensures c.taskId != t.id
    {
      assert CompletionKey(c) == (c.contestId, c.evmAddress, c.taskId);
    }
    assert t.id !in CompletedTaskIds(after, t.contestId, address);
  }

  /** An optional task changes no answer of submitAddress. */
  lemma OptionalTaskKeepsVerdicts(db: Db, t: ContestTask, contestId: int, address: string)
    requires !t.isRequired
    ensures SubmitVerdict(db.(tasks := db.tasks + [t]), contestId, address) == SubmitVerdict(db, contestId, address)
  {
    assert RequiredTaskIds(db.(tasks := db.tasks + [t]), contestId) == RequiredTaskIds(db, contestId);
  }

  /** submitAddress on a missing or non-active contest reports it and inserts nothing. */
  lemma SubmitRejectsInactiveContest(db: Db, contestId: int, address: string, now: int)
    requires ContestById(db.contests, contestId).None? || ContestById(db.contests, contestId).value.status != Active
    ensures SubmitVerdict(db, contestId, address) == Failure(NotActiveError)
    ensures AfterSubmit(db, contestId, address, now) == db
  {
  }

  /** submitAddress on an active contest whose submissions were stopped reports it and inserts nothing. */
  lemma SubmitRejectsStoppedContest(db: Db, contestId: int, address: string, now: int)
    requires ContestById(db.contests, contestId).Some?
    requires ContestById(db.contests, contestId).value.status == Active
    requires ContestById(db.contests, contestId).value.submissionsStopped
    ensures SubmitVerdict(db, contestId, address) == Failure(StoppedError)
    ensures AfterSubmit(db, contestId, address, now) == db
  {
  }

  /** Task gating: on an open contest, submitAddress refuses exactly when some
      required task of the contest has no completion by this address; once
      all are done and the address is new, exactly one row is added. */
  lemma SubmitGatedByRequiredTasks(db: Db, contestId: int, address: string, now: int)
    requires ContestById(db.contests, contestId).Some?
    requires ContestById(db.contests, contestId).value.status == Active
    requires !ContestById(db.contests, contestId).value.submissionsStopped
    ensures (exists t :: t in db.tasks && t.contestId == contestId && t.isRequired
                         && !HasCompletion(db.completions, contestId, address, t.id))
            <==> SubmitVerdict(db, contestId, address) == Failure(TasksIncompleteError)
    ensures SubmitVerdict(db, contestId, address) == Success
            <==> (forall t :: t in db.tasks && t.contestId == contestId && t.isRequired
                              ==> HasCompletion(db.completions, contestId, address, t.id))
                 && !HasSubmission(db.submissions, contestId, address)
  {
    var required := RequiredTaskIds(db, contestId);
    var completed := CompletedTaskIds(db, contestId, address);
    forall t | t in db.tasks && t.contestId == contestId && t.isRequired
      ensures t.id in completed <==> HasCompletion(db.completions, contestId, address, t.id)
    {
      if t.id in completed {
        var c :| c in db.completions && c.contestId == contestId && c.evmAddress == address && c.taskId == t.id;
        assert CompletionKey(c) == (contestId, address, t.id);
      }
    }
    if !(required <= completed) {
      var id :| id in required && id !in completed;
      var t :| t in db.tasks && t.contestId == contestId && t.isRequired && t.id == id;
    }
  }

  /** An admitted submission adds exactly its own row and changes nothing else;
      a refused one changes nothing. */
  lemma SubmitAddsExactlyOne(db: Db, contestId: int, address: string, now: int)
    ensures var after := AfterSubmit(db, contestId, address, now);
      && after.contests == db.contests && after.tasks == db.tasks
      && after.completions == db.completions && after.winners == db.winners
      && (SubmitVerdict(db, contestId, address) == Success ==>
            && |after.submissions| == |db.submissions| + 1
            && after.submissions[..|db.submissions|] == db.submissions
            && EntryKey(after.submissions[|db.submissions|]) == (contestId, address)
            && ParticipantCount(after.submissions, contestId) == ParticipantCount(db.submissions, contestId) + 1)
      && (SubmitVerdict(db, contestId, address) != Success ==> after == db)
  {
    var after := AfterSubmit(db, contestId, address, now);
    if SubmitVerdict(db, contestId, address) == Success {
      var row := Submission(|db.submissions| + 1, contestId, address, now);
      FilterSnoc(db.submissions, row, (s: Submission) => s.contestId == contestId);
      assert after.submissions[..|db.submissions|] == db.submissions;
    }
  }

  /** A second submitAddress for the same (contest, address) reports the duplicate and inserts nothing. */
  lemma SecondSubmitIsDuplicate(db: Db, contestId: int, address: string, now: int, later: int)
    requires SubmitVerdict(db, contestId, address) == Success
    ensures var once := AfterSubmit(db, contestId, address, now);
      && SubmitVerdict(once, contestId, address) == Failure(DuplicateError)
      && AfterSubmit(once, contestId, address, later) == once
  {
    var once := AfterSubmit(db, contestId, address, now);
    var row := Submission(|db.submissions| + 1, contestId, address, now);
    assert row in once.submissions && EntryKey(row) == (contestId, address);
  }

  /** The duplicate check compares addresses exactly: admitting one address leaves any
      different address, including a case variant of it, admissible. */
  lemma OtherAddressStillAdmitted(db: Db, contestId: int, address: string, other: string, now: int)
    requires address != other
    requires SubmitVerdict(db, contestId, other) == Success
    ensures SubmitVerdict(AfterSubmit(db, contestId, address, now), contestId, other) == Success
  {
    var after := AfterSubmit(db, contestId, address, now);
    if HasSubmission(after.submissions, contestId, other) {
      var s :| s in after.submissions && EntryKey(s) == (contestId, other);
      assert s in db.submissions;
    }
  }

  /** markTaskCompleted is idempotent. */
  lemma MarkTaskIdempotent(db: Db, contestId: int, address: string, taskId: int, now: int, later: int)
    ensures var once := AfterMarkTask(db, contestId, address, taskId, now);
      AfterMarkTask(once, contestId, address, taskId, later) == once
  {
    var once := AfterMarkTask(db, contestId, address, taskId, now);
    if !HasCompletion(db.completions, contestId, address, taskId) {
      var row := TaskCompletion(|db.completions| + 1, contestId, address, taskId, now);
      assert row in once.completions;
    }
  }

  /** In a well-formed store, after markTaskCompleted exactly one completion row exists for the triple. */
  lemma MarkTaskLeavesOneCompletion(db: Db, contestId: int, address: string, taskId: int, now: int)
    requires WellFormed(db)
    ensures |CompletionsFor(AfterMarkTask(db, contestId, address, taskId, now).completions, contestId, address, taskId)| == 1
  {
    var after := AfterMarkTask(db, contestId, address, taskId, now).completions;
    var key := (contestId, address, taskId);
    var p := (c: TaskCompletion) => CompletionKey(c) == key;
    assert UniqueCompletions(after);
    if !HasCompletion(db.completions, contestId, address, taskId) {
      var row := TaskCompletion(|db.completions| + 1, contestId, address, taskId, now);
      assert row in after && CompletionKey(row) == key;
    }
    FilterOneKey(after, p, CompletionKey, key);
    assert CompletionsFor(after, contestId, address, taskId) == Filter(after, p);
  }

  /** createContest ends every active contest, then adds one active contest with both
      stop flags clear and its one required follow task; afterwards exactly that contest is active. */
  lemma CreateLeavesExactlyOneActive(db: Db, monadAmount: Amount, contestType: ContestType, durationMinutes: Option<int>,
                                     maxParticipants: Option<int>, winnerCount: int, dbNow: int)
    requires CreateOutcome(db, monadAmount, contestType, durationMinutes, maxParticipants, winnerCount, dbNow).Ok?
    ensures var c := CreateOutcome(db, monadAmount, contestType, durationMinutes, maxParticipants, winnerCount, dbNow).value;
      var after := AfterCreate(db, monadAmount, contestType, durationMinutes, maxParticipants, winnerCount, dbNow);
      && c.status == Active && !c.manuallyStopped && !c.submissionsStopped
      && c.monadAmount == monadAmount && c.contestType == contestType && c.winnerCount == winnerCount
      && |after.contests| == |db.contests| + 1 && after.contests[|db.contests|] == c
      && (forall i :: 0 <= i < |after.contests| ==> (after.contests[i].status == Active <==> i == |db.contests|))
      && (forall i :: 0 <= i < |db.contests| ==>
            after.contests[i] == if db.contests[i].status == Active then db.contests[i].(status := Ended) else db.contests[i])
      && after.tasks == db.tasks + [FollowTask(|db.tasks| + 1, c.id, dbNow)]
      && FollowTask(|db.tasks| + 1, c.id, dbNow).isRequired
      && after.submissions == db.submissions && after.completions == db.completions && after.winners == db.winners
  {
  }

  /** The timing of a new contest: a positive duration sets end_time = dbNow + minutes * 60000 and
      duration_hours = ceil(minutes / 60); a zero or absent duration falls to the 24-hour branch
      without end_time; a negative one throws, after the active contests have already been ended. */
  lemma CreateTiming(db: Db, monadAmount: Amount, durationMinutes: Option<int>, maxParticipants: Option<int>,
                     winnerCount: int, dbNow: int)
    ensures var r := CreateOutcome(db, monadAmount, Duration, durationMinutes, maxParticipants, winnerCount, dbNow);
      var after := AfterCreate(db, monadAmount, Duration, durationMinutes, maxParticipants, winnerCount, dbNow);
      && (durationMinutes.Some? && durationMinutes.value > 0 ==>
            && r.Ok? && r.value.endTime == Some(dbNow + durationMinutes.value * 60000)
            && 60 * (r.value.durationHours - 1) < durationMinutes.value <= 60 * r.value.durationHours
            && r.value.durationMinutes == durationMinutes)
      && (!Truthy(durationMinutes) ==>
            r.Ok? && r.value.endTime.None? && r.value.durationHours == 24 && r.value.durationMinutes.None?)
      && (durationMinutes.Some? && durationMinutes.value < 0 ==>
            && r == Err(InvalidDuration(durationMinutes.value))
            && after == db.(contests := EndActive(db.contests)))
  {
  }

  /** selectWinners on a contest with no submissions returns [] and changes nothing. */
  lemma DrawEmptyPool(db: Db, contestId: int, perm: seq<nat>, now: int)
    requires IsPermutation(perm, ParticipantCount(db.submissions, contestId))
    requires SubmissionsOf(db.submissions, contestId) == []
    ensures Drawn(db, contestId, perm) == []
    ensures AfterDraw(db, contestId, perm, now) == db
  {
  }

  /** The contest of a non-empty pool exists in a well-formed store. */
  lemma PoolHasContest(db: Db, contestId: int)
    requires WellFormed(db)
    requires SubmissionsOf(db.submissions, contestId) != []
    ensures 1 <= contestId <= |db.contests|
    ensures ContestById(db.contests, contestId) == Some(db.contests[contestId - 1])
  {
    var pool := SubmissionsOf(db.submissions, contestId);
    assert pool[0] in pool;
    ContestByIdAt(db.contests, contestId);
  }

  /** selectWinners on a non-empty pool of a well-formed store: the draw is the first
      DrawCount entries of the shuffled pool, the tables gain one winner row per drawn
      entry with the contest's amount, the contest is marked completed, and the
      invariant still holds. */
  lemma DrawUnfolds(db: Db, contestId: int, perm: seq<nat>, now: int)
    requires WellFormed(db)
    requires IsPermutation(perm, ParticipantCount(db.submissions, contestId))
    requires SubmissionsOf(db.submissions, contestId) != []
    ensures 1 <= contestId <= |db.contests|
    ensures var pool := SubmissionsOf(db.submissions, contestId);
      var sel := Drawn(db, contestId, perm);
      && |sel| == DrawCount(db.contests[contestId - 1].winnerCount, |pool|)
      && forall i :: 0 <= i < |sel| ==> sel[i] == pool[perm[i]]
    ensures AfterDraw(db, contestId, perm, now)
         == db.(winners := db.winners + WinnerRows(Drawn(db, contestId, perm), contestId,
                                                   db.contests[contestId - 1].monadAmount, |db.winners|, now),
                contests := MarkCompleted(db.contests, contestId))
    ensures WellFormed(AfterDraw(db, contestId, perm, now))
  {
    PoolHasContest(db, contestId);
    var c := db.contests[contestId - 1];
    WinnerRowsContinueNumbering(db.winners, Drawn(db, contestId, perm), contestId, c.monadAmount, now);
    MarkCompletedKeepsWellFormed(db, contestId, AfterDraw(db, contestId, perm, now).winners);
  }

  /** The number drawn is min(winner_count || 1, n) for a non-negative winner_count. */
  lemma DrawSizeIsMin(db: Db, contestId: int, perm: seq<nat>)
    requires WellFormed(db)
    requires IsPermutation(perm, ParticipantCount(db.submissions, contestId))
    requires SubmissionsOf(db.submissions, contestId) != []
    requires 1 <= contestId <= |db.contests|
    requires db.contests[contestId - 1].winnerCount >= 0
    ensures var w := if db.contests[contestId - 1].winnerCount == 0 then 1 else db.contests[contestId - 1].winnerCount;
      var n := ParticipantCount(db.submissions, contestId);
      |Drawn(db, contestId, perm)| == if w < n then w else n
    ensures |Drawn(db, contestId, perm)| > 0
  {
    DrawUnfolds(db, contestId, perm, 0);
  }

  /** The drawn entries are stored submissions of the contest, with pairwise distinct addresses. */
  lemma DrawnAreDistinctSubmissions(db: Db, contestId: int, perm: seq<nat>)
    requires WellFormed(db)
    requires IsPermutation(perm, ParticipantCount(db.submissions, contestId))
    ensures var sel := Drawn(db, contestId, perm);
      && (forall i :: 0 <= i < |sel| ==> sel[i] in db.submissions && sel[i].contestId == contestId)
      && (forall i, j :: 0 <= i < j < |sel| ==> sel[i].evmAddress != sel[j].evmAddress)
  {
    var pool := SubmissionsOf(db.submissions, contestId);
    if pool != [] {
      DrawUnfolds(db, contestId, perm, 0);
      var sel := Drawn(db, contestId, perm);
      var p := (s: Submission) => s.contestId == contestId;
      assert pool == Filter(db.submissions, p);
      FilterKeepsKeysDistinct(db.submissions, p, EntryKey);
      forall i | 0 <= i < |sel| ensures sel[i] in db.submissions && sel[i].contestId == contestId {
        assert pool[perm[i]] in pool;
      }
      forall i, j | 0 <= i < j < |sel| ensures sel[i].evmAddress != sel[j].evmAddress {
        var a, b := perm[i], perm[j];
        assert pool[a] in pool && pool[b] in pool;
        if a < b {
          assert EntryKey(pool[a]) != EntryKey(pool[b]);
        } else {
          assert EntryKey(pool[b]) != EntryKey(pool[a]);
        }
      }
    }
  }

  /** The winner rows a draw inserts: appended after the existing ones, one per drawn entry,
      each with the contest id, the entry's address and the contest's amount; the contest
      becomes completed and no other row or table changes. */
  lemma DrawRecordsWinners(db: Db, contestId: int, perm: seq<nat>, now: int)
    requires WellFormed(db)
    requires IsPermutation(perm, ParticipantCount(db.submissions, contestId))
    requires SubmissionsOf(db.submissions, contestId) != []
    requires 1 <= contestId <= |db.contests|
    ensures var c := db.contests[contestId - 1];
      var sel := Drawn(db, contestId, perm);
      var after := AfterDraw(db, contestId, perm, now);
      && |after.winners| == |db.winners| + |sel|
      && after.winners[..|db.winners|] == db.winners
      && (forall i :: 0 <= i < |sel| ==>
            var w := after.winners[|db.winners| + i];
            w.contestId == contestId && w.evmAddress == sel[i].evmAddress && w.monadAmount == c.monadAmount)
      && after.contests[contestId - 1].status == Completed
      && (forall i :: 0 <= i < |db.contests| && i != contestId - 1 ==> after.contests[i] == db.contests[i])
      && after.submissions == db.submissions && after.tasks == db.tasks && after.completions == db.completions
  {
    DrawUnfolds(db, contestId, perm, now);
    var after := AfterDraw(db, contestId, perm, now);
    assert after.winners[..|db.winners|] == db.winners;
  }

  /** selectWinners is not guarded against a second call: drawing again from the
      same pool inserts a further DrawCount winner rows. */
  lemma RedrawAddsMoreWinners(db: Db, contestId: int, perm: seq<nat>, now: int, later: int)
    requires WellFormed(db)
    requires IsPermutation(perm, ParticipantCount(db.submissions, contestId))
    requires SubmissionsOf(db.submissions, contestId) != []
    requires 1 <= contestId <= |db.contests|
    ensures var once := AfterDraw(db, contestId, perm, now);
      var twice := AfterDraw(once, contestId, perm, later);
      var k := DrawCount(db.contests[contestId - 1].winnerCount, ParticipantCount(db.submissions, contestId));
      |twice.winners| == |db.winners| + 2 * k
  {
    DrawUnfolds(db, contestId, perm, now);
    var once := AfterDraw(db, contestId, perm, now);
    DrawUnfolds(once, contestId, perm, later);
  }

  /** checkAndProcessExpiredContests only sets submissions_stopped, exactly on the rows either
      SELECT picks (active, not manually stopped, and past end_time or at the participant cap);
      it never changes a status, never touches another table, and is idempotent. */
  lemma ReconcileOnlyStopsSubmissions(db: Db, now: int)
    ensures var after := Reconciled(db, now);
      && |after.contests| == |db.contests|
      && (forall i :: 0 <= i < |db.contests| ==>
            var c := db.contests[i];
            after.contests[i] == c.(submissionsStopped := c.submissionsStopped || ReconcileHits(c, ParticipantCount(db.submissions, c.id), now)))
      && (forall i :: 0 <= i < |db.contests| ==> after.contests[i].status == db.contests[i].status)
      && after.submissions == db.submissions && after.tasks == db.tasks
      && after.completions == db.completions && after.winners == db.winners
      && Reconciled(after, now) == after
  {
    var after := Reconciled(db, now);
    assert Reconciled(after, now).contests == after.contests;
  }

  /** stopSubmissions only sets submissions_stopped on that contest, and is idempotent. */
  lemma StopSubmissionsIdempotent(db: Db, contestId: int)
    ensures var once := FlagStopped(db.contests, contestId);
      && FlagStopped(once, contestId) == once
      && (forall i :: 0 <= i < |db.contests| ==>
            once[i] == if db.contests[i].id == contestId then db.contests[i].(submissionsStopped := true) else db.contests[i])
  {
  }

  /** stopContest on a contest without submissions marks it manually stopped and ended, returns no
      winners and leaves it 'ended' rather than 'completed'. */
  lemma StopContestEmptyPool(db: Db, contestId: int, perm: seq<nat>, now: int)
    requires WellFormed(db)
    requires 1 <= contestId <= |db.contests|
    requires SubmissionsOf(db.submissions, contestId) == []
    requires IsPermutation(perm, 0)
    ensures var stopped := db.(contests := MarkManuallyStopped(db.contests, contestId));
      && Drawn(stopped, contestId, perm) == []
      && AfterDraw(stopped, contestId, perm, now) == stopped
      && stopped.contests[contestId - 1].status == Ended
      && stopped.contests[contestId - 1].manuallyStopped
  {
    var stopped := db.(contests := MarkManuallyStopped(db.contests, contestId));
    DrawEmptyPool(stopped, contestId, perm, now);
  }
}
