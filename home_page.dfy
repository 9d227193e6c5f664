/** The server-rendered home page of app/page.tsx: which view it shows and
    the "has ended" flag it computes for the contest view. */
module HomePage {
  import opened Records
  import opened SeqUtil
  import opened Database

  /** `isExpired`: a duration contest whose end time has strictly passed; the manual stop is not consulted. */
  predicate IsExpired(c: Contest, now: int) {
    c.contestType == Duration && c.endTime.Some? && now > c.endTime.value
  }

  /** `isParticipantLimitReached` */
  predicate IsParticipantLimitReached(c: Contest, count: int) {
    c.contestType == Participants && Truthy(c.maxParticipants) && count >= c.maxParticipants.value
  }

  /** What the page renders. */
  datatype PageView =
    | NoActiveView(lastContest: Option<Contest>, lastWinners: seq<Winner>)
    | ActiveView(contest: Contest, submissions: seq<Submission>, tasks: seq<ContestTask>, ended: bool)

  /** The submissions the page loads: the current contest's, or none. */
  function PageSubmissions(db: Db): (subs: seq<Submission>)
    ensures CurrentContest(db).None? ==> subs == []
    ensures CurrentContest(db).Some? ==> subs == SubmissionsOf(db.submissions, CurrentContest(db).value.id)
    ensures CurrentContest(db).Some? ==>
      forall s :: s in subs <==> s in db.submissions && s.contestId == CurrentContest(db).value.id
  {
    match CurrentContest(db)
    case None => []
    case Some(c) => SubmissionsOf(db.submissions, c.id)
  }

  /** `HomePage` */
  function Page(db: Db, now: int): (v: PageView)
    ensures v.NoActiveView? <==> forall c :: c in db.contests ==> c.status != Active
    ensures v.NoActiveView? ==>
      && v.lastContest == NewestWithStatus(db.contests, Completed)
      && (v.lastContest.None? ==> v.lastWinners == [] && forall c :: c in db.contests ==> c.status != Completed)
      && (v.lastContest.Some? ==> v.lastContest.value in db.contests && v.lastContest.value.status == Completed)
      && (forall w :: w in v.lastWinners <==> v.lastContest.Some? && w in db.winners && w.contestId == v.lastContest.value.id)
      && v.lastWinners == (if v.lastContest.Some? then WinnersByContest(db.winners, v.lastContest.value.id) else [])
    ensures v.ActiveView? ==>
      && v.contest in db.contests && v.contest.status == Active
      && Some(v.contest) == NewestWithStatus(db.contests, Active)
      && v.submissions == SubmissionsOf(db.submissions, v.contest.id)
      && v.tasks == TasksOf(db.tasks, v.contest.id)
      && (forall s :: s in v.submissions <==> s in db.submissions && s.contestId == v.contest.id)
      && (forall t :: t in v.tasks <==> t in db.tasks && t.contestId == v.contest.id)
      && (v.ended <==> IsExpired(v.contest, now)
                       || IsParticipantLimitReached(v.contest, ParticipantCount(db.submissions, v.contest.id)))
  {
    var subs := PageSubmissions(db);
    match CurrentContest(db)
    case None =>
      var last := LastCompletedContest(db);
      var winners := if last.Some? then WinnersByContest(db.winners, last.value.id) else [];
      NoActiveView(last, winners)
    case Some(c) =>
      ActiveView(c, subs, TasksOf(db.tasks, c.id), IsExpired(c, now) || IsParticipantLimitReached(c, |subs|))
  }

  /** In a well-formed store the page's lists come in the source's order: the submissions and
      tasks oldest first, the last contest's winners newest first. */
  lemma PageListsInIdOrder(db: Db, now: int)
    requires WellFormed(db)
    ensures var v := Page(db, now);
      && (v.ActiveView? ==> IncreasingBy(v.submissions, SubmissionId) && IncreasingBy(v.tasks, TaskId))
      && (v.NoActiveView? ==> forall i, j :: 0 <= i < j < |v.lastWinners| ==> v.lastWinners[i].id > v.lastWinners[j].id)
  {
    var v := Page(db, now);
    if v.ActiveView? {
      QueriesInIdOrder(db, v.contest.id);
    } else if v.lastContest.Some? {
      QueriesInIdOrder(db, v.lastContest.value.id);
    }
  }

  /** In a well-formed store the active view shows the one active contest. */
  lemma PageShowsTheActiveContest(db: Db, c: Contest, now: int)
    requires WellFormed(db)
    requires c in db.contests && c.status == Active
    ensures Page(db, now).ActiveView? && Page(db, now).contest == c
  {
    CurrentContestIsTheActiveOne(db, c);
  }
}
