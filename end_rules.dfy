/** The "has this contest ended" rule exists in four copies: the expiry sweep
    of lib/database.ts, checkContestEnd in the participant view, the admin
    view's isContestNaturallyEnded (proved equal to the participant view's in
    AdminView) and the page's isExpired/isParticipantLimitReached. These
    lemmas relate them, and relate them to what the server actually admits. */
module EndRules {
  import opened Records
  import opened Database
  import opened ContestView
  import opened HomePage

  /** The flag app/page.tsx hands to the view. */
  predicate PageEndedFlag(c: Contest, count: int, now: int) {
    IsExpired(c, now) || IsParticipantLimitReached(c, count)
  }

  /** For a contest not stopped by hand, the page and the view agree except at the end instant itself. */
  lemma PageAndViewAgreeAwayFromEndInstant(c: Contest, count: int, now: int)
    requires !c.manuallyStopped
    requires c.endTime != Some(now)
    ensures PageEndedFlag(c, count, now) == NaturallyEnded(c, count, now)
  {
  }

  /** At the end instant the view already says ended (`>=`) but the page does not yet (`>`). */
  lemma EndInstantSplitsPageAndView(c: Contest, count: int)
    requires c.contestType == Duration && c.endTime.Some? && !c.manuallyStopped
    ensures NaturallyEnded(c, count, c.endTime.value)
    ensures !PageEndedFlag(c, count, c.endTime.value)
  {
  }

  /** The page reports a manually stopped duration contest past its end time as expired; the view does not. */
  lemma PageIgnoresManualStop(c: Contest, count: int, now: int)
    requires c.contestType == Duration && c.endTime.Some? && c.manuallyStopped && now > c.endTime.value
    ensures PageEndedFlag(c, count, now)
    ensures !NaturallyEnded(c, count, now)
  {
  }

  /** For the active contest of a well-formed store the page's two flags are exactly the two
      SELECTs of the sweep: both compare end_time strictly, and no stored cap is 0. */
  lemma PageFlagsMatchSweep(db: Db, c: Contest, now: int)
    requires WellFormed(db)
    requires c in db.contests && c.status == Active
    ensures var count := ParticipantCount(db.submissions, c.id);
      && (IsExpired(c, now) <==> SweepHit(DurationSweep, c, count, now))
      && (IsParticipantLimitReached(c, count) <==> SweepHit(ParticipantSweep, c, count, now))
    ensures Page(db, now).ActiveView? && Page(db, now).contest == c
    ensures Page(db, now).ended <==> ReconcileHits(c, ParticipantCount(db.submissions, c.id), now)
  {
    var i :| 0 <= i < |db.contests| && db.contests[i] == c;
    assert !c.manuallyStopped && c.maxParticipants != Some(0);
    PageShowsTheActiveContest(db, c, now);
  }

  /** Every stored contest the sweep picks, the view and the page already show as ended. */
  lemma SweepImpliesViewEnded(db: Db, c: Contest, now: int)
    requires WellFormed(db)
    requires c in db.contests
    requires ReconcileHits(c, ParticipantCount(db.submissions, c.id), now)
    ensures NaturallyEnded(c, ParticipantCount(db.submissions, c.id), now)
    ensures PageEndedFlag(c, ParticipantCount(db.submissions, c.id), now)
  {
    var i :| 0 <= i < |db.contests| && db.contests[i] == c;
  }

  /** For the active contest of a well-formed store, the view's rule and the sweep differ in one
      case only: a duration contest at exactly its end time. */
  lemma ViewEndedButNotSwept(db: Db, c: Contest, now: int)
    requires WellFormed(db)
    requires c in db.contests && c.status == Active
    ensures var count := ParticipantCount(db.submissions, c.id);
      NaturallyEnded(c, count, now) && !ReconcileHits(c, count, now)
      <==> c.contestType == Duration && c.endTime == Some(now)
  {
    var i :| 0 <= i < |db.contests| && db.contests[i] == c;
    assert !c.manuallyStopped;
    assert c.maxParticipants != Some(0);
  }

  /** The view reads the browser's clock and the sweep the database's. For the active contest of
      a well-formed store they disagree only for a duration contest whose end time lies between
      the two readings: the view alone has closed it when dbNow <= end_time <= viewNow, and the
      sweep alone when viewNow < end_time < dbNow. */
  lemma ViewAndSweepAcrossClocks(db: Db, c: Contest, viewNow: int, dbNow: int)
    requires WellFormed(db)
    requires c in db.contests && c.status == Active
    ensures var count := ParticipantCount(db.submissions, c.id);
      NaturallyEnded(c, count, viewNow) && !ReconcileHits(c, count, dbNow)
      <==> c.contestType == Duration && c.endTime.Some? && dbNow <= c.endTime.value <= viewNow
    ensures var count := ParticipantCount(db.submissions, c.id);
      ReconcileHits(c, count, dbNow) && !NaturallyEnded(c, count, viewNow)
      <==> c.contestType == Duration && c.endTime.Some? && viewNow < c.endTime.value < dbNow
  {
    var i :| 0 <= i < |db.contests| && db.contests[i] == c;
    assert !c.manuallyStopped;
    assert c.maxParticipants != Some(0);
  }

  /** After the sweep, the server refuses every address for a contest the sweep picked. */
  lemma SweepClosesContest(db: Db, c: Contest, address: string, now: int)
    requires WellFormed(db)
    requires c in db.contests
    requires ReconcileHits(c, ParticipantCount(db.submissions, c.id), now)
    ensures SubmitVerdict(Reconciled(db, now), c.id, address) == Failure(StoppedError)
  {
    var i :| 0 <= i < |db.contests| && db.contests[i] == c;
    var after := Reconciled(db, now);
    assert after.contests[i] == c.(submissionsStopped := true);
    assert IdsArePositions(after.contests);
    ContestByIdAt(after.contests, c.id);
  }

  /** The server itself never looks at the end time: until the sweep runs, an address is admitted
      to a contest the view has closed; once it has run, the same address is refused. */
  lemma LateSubmissionAdmittedUntilSwept()
    ensures var c := Contest(1, "10", 1, Some(60), 0, Some(3600000), Active, 0, Duration, None, false, false, 1);
      var db := Db([c], [], [], [], []);
      var now := 3600001;
      var address := "0x" + seq(40, _ => 'a');
      && NaturallyEnded(c, 0, now)
      && SubmitVerdict(db, 1, address) == Success
      && SubmitVerdict(Reconciled(db, now), 1, address) == Failure(StoppedError)
  {
    var c := Contest(1, "10", 1, Some(60), 0, Some(3600000), Active, 0, Duration, None, false, false, 1);
    var db := Db([c], [], [], [], []);
    var now := 3600001;
    var address := "0x" + seq(40, _ => 'a');
    ContestByIdAt(db.contests, 1);
    assert RequiredTaskIds(db, 1) == {};
    assert !HasSubmission(db.submissions, 1, address);
    assert ParticipantCount(db.submissions, 1) == 0;
    SweepClosesContest(db, c, address, now);
  }
}
