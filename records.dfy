/** The rows of the contest store: one datatype per table, as the record
    interfaces of lib/database.ts declare them. Timestamps are integer
    milliseconds; `monad_amount` is kept as the decimal text the database
    returns and is only ever copied. */
module Records {

  datatype Option<T> = None | Some(value: T)

  datatype Result<T, E> = Ok(value: T) | Err(error: E)

  /** The `{ success, error }` objects returned by the store operations. */
  datatype Outcome = Success | Failure(error: string)

  /** `contest_type`: "duration" | "participants" */
  datatype ContestType = Duration | Participants

  /** `status`: the three values the engine ever writes. */
  datatype Status = Active | Ended | Completed

  /** `monad_amount`, opaque decimal text. */
  type Amount = string

  datatype Contest = Contest(
    id: int,
    monadAmount: Amount,
    durationHours: int,
    durationMinutes: Option<int>,
    startTime: int,
    endTime: Option<int>,
    status: Status,
    createdAt: int,
    contestType: ContestType,
    maxParticipants: Option<int>,
    manuallyStopped: bool,
    submissionsStopped: bool,
    winnerCount: int)

  datatype Submission = Submission(id: int, contestId: int, evmAddress: string, submittedAt: int)

  datatype Winner = Winner(id: int, contestId: int, evmAddress: string, monadAmount: Amount, wonAt: int)

  datatype ContestTask = ContestTask(
    id: int,
    contestId: int,
    taskType: string,
    taskDescription: string,
    taskUrl: Option<string>,
    isRequired: bool,
    createdAt: int)

  datatype TaskCompletion = TaskCompletion(id: int, contestId: int, evmAddress: string, taskId: int, completedAt: int)

  /** The errors contest creation throws. */
  datatype ContestError =
    | InvalidDuration(minutes: int)   // createContest: `Invalid duration: ${durationMinutes} minutes`
    | DurationNotPositive             // createNewContest: "Invalid duration: must be greater than 0 minutes"
    | ParticipantCountNotPositive     // createNewContest: "Invalid participant count: must be greater than 0"

  /** JavaScript truthiness of a nullable integer column: null and 0 are falsy. */
  predicate Truthy(n: Option<int>) {
    n.Some? && n.value != 0
  }

  /** A number that is present and above zero. */
  predicate Positive(n: Option<int>) {
    n.Some? && n.value > 0
  }

  /** `n || null` as written into a nullable integer column: a falsy value
      becomes null, so a stored value is never 0. */
  function OrNull(n: Option<int>): (r: Option<int>)
    ensures r != Some(0)
    ensures Truthy(r) == Truthy(n)
    ensures r.Some? ==> r == n
  {
    if Truthy(n) then n else None
  }
}
