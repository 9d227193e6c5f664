/** The derived state of the admin dashboard in components/admin-interface.tsx:
    its own copy of the "ended" rule, what the status badge says, which
    actions are offered, and the checks of the create form. */
module AdminView {
  import opened Records
  import opened Database
  import opened Actions
  import ContestView

  /** `isContestNaturallyEnded`, written with early returns. */
  function IsContestNaturallyEnded(contest: Option<Contest>, count: int, now: int): (r: bool)
    ensures contest.None? ==> !r
    ensures contest.Some? ==> r == ContestView.NaturallyEnded(contest.value, count, now)
  {
    if contest.None? then false
    else
      var c := contest.value;
      if c.contestType == Duration && c.endTime.Some? && !c.manuallyStopped then now >= c.endTime.value
      else if c.contestType == Participants && Truthy(c.maxParticipants) && count >= c.maxParticipants.value then true
      else false
  }

  /** `submissionsStopped`: the stored flag or a natural end. */
  predicate SubmissionsStoppedShown(contest: Option<Contest>, count: int, now: int) {
    (contest.Some? && contest.value.submissionsStopped) || IsContestNaturallyEnded(contest, count, now)
  }

  /** `canSelectWinners` */
  predicate CanSelectWinners(contest: Option<Contest>, count: int) {
    contest.Some? && contest.value.status == Active && count > 0
  }

  /** The status badge. */
  function BadgeLabel(c: Contest, stoppedShown: bool): (text: string)
    ensures c.status == Completed <==> text == "Completed"
    ensures text == "Submissions Stopped" <==> c.status != Completed && stoppedShown
    ensures text == "Active" <==> c.status != Completed && !stoppedShown
  {
    if c.status == Completed then "Completed"
    else if stoppedShown then "Submissions Stopped"
    else "Active"
  }

  /** The "Stop Submissions" button. */
  predicate ShowStopButton(contest: Option<Contest>, stoppedShown: bool) {
    contest.Some? && contest.value.status == Active && !stoppedShown
  }

  /** The Stop button is offered exactly for an active contest whose badge reads "Active";
      the draw button does not depend on submissions being stopped. */
  lemma StopButtonMatchesBadge(contest: Option<Contest>, count: int, now: int)
    requires contest.Some?
    ensures var shown := SubmissionsStoppedShown(contest, count, now);
      ShowStopButton(contest, shown) <==> contest.value.status == Active && BadgeLabel(contest.value, shown) == "Active"
    ensures CanSelectWinners(contest, count) == CanSelectWinners(contest.(value := contest.value.(submissionsStopped := true)), count)
  {
  }

  /** The admin's "stopped" never shows for a contest the participant view keeps open, and for
      the active contest the two agree. */
  lemma StoppedShownMatchesParticipantView(c: Contest, count: int, now: int)
    ensures SubmissionsStoppedShown(Some(c), count, now) ==> ContestView.SubmissionsBlocked(c, count, now)
    ensures c.status == Active ==>
      (SubmissionsStoppedShown(Some(c), count, now) <==> ContestView.SubmissionsBlocked(c, count, now))
  {
  }

  /** Once stopSubmissions has flagged a contest, the Stop button is gone. */
  lemma StopButtonGoneAfterStop(cs: seq<Contest>, id: int, i: int, count: int, now: int)
    requires 0 <= i < |cs| && cs[i].id == id
    ensures var c := FlagStopped(cs, id)[i];
      !ShowStopButton(Some(c), SubmissionsStoppedShown(Some(c), count, now))
  {
  }

  /** For the store's current contest the draw button is offered exactly when drawing would change
      the store, that is when the contest has submissions. */
  lemma DrawOfferedExactlyWhenDrawActs(db: Db, perm: seq<nat>, now: int)
    requires WellFormed(db)
    requires CurrentContest(db).Some?
    requires IsPermutation(perm, ParticipantCount(db.submissions, CurrentContest(db).value.id))
    ensures var c := CurrentContest(db).value;
      CanSelectWinners(CurrentContest(db), ParticipantCount(db.submissions, c.id))
      <==> AfterDraw(db, c.id, perm, now) != db
  {
    var c := CurrentContest(db).value;
    var i :| 0 <= i < |db.contests| && db.contests[i] == c && c.status == Active;
    assert c.id == i + 1;
    if SubmissionsOf(db.submissions, c.id) == [] {
      DrawEmptyPool(db, c.id, perm, now);
    } else {
      DrawRecordsWinners(db, c.id, perm, now);
      assert AfterDraw(db, c.id, perm, now).contests[i] != db.contests[i];
    }
  }

  /** When the draw button is offered for the store's current contest, the draw picks at least
      one participant (for a non-negative winner count) and completes the contest. */
  lemma OfferedDrawSelectsSomeone(db: Db, perm: seq<nat>, now: int)
    requires WellFormed(db)
    requires CurrentContest(db).Some?
    requires CanSelectWinners(CurrentContest(db), ParticipantCount(db.submissions, CurrentContest(db).value.id))
    requires CurrentContest(db).value.winnerCount >= 0
    requires IsPermutation(perm, ParticipantCount(db.submissions, CurrentContest(db).value.id))
    ensures var id := CurrentContest(db).value.id;
      && |Drawn(db, id, perm)| > 0
      && 1 <= id <= |db.contests|
      && AfterDraw(db, id, perm, now).contests[id - 1].status == Completed
  {
    var c := CurrentContest(db).value;
    var i :| 0 <= i < |db.contests| && db.contests[i] == c && c.status == Active;
    assert c.id == i + 1;
    DrawSizeIsMin(db, c.id, perm);
    DrawRecordsWinners(db, c.id, perm, now);
  }

  // ---------------------------------------------------------------------
  // The create form

  /** The alerts of `handleCreateContest`, in the order it checks. */
  datatype FormError = BadDuration | BadParticipants | BadWinners | BadAmount

  /** The parsed fields of the form (`parseInt`/`parseFloat`, None for NaN). */
  datatype CreateForm = CreateForm(
    contestType: ContestType,
    durationField: Option<int>,
    participantsField: Option<int>,
    winnersField: Option<int>,
    amountField: Option<real>)

  /** The duration sent to the server: only for a duration contest. */
  function SentDuration(f: CreateForm): Option<int> {
    if f.contestType == Duration then f.durationField else None
  }

  /** The participant cap sent to the server: only for a participant contest. */
  function SentParticipants(f: CreateForm): Option<int> {
    if f.contestType == Participants then f.participantsField else None
  }

  /** The field of the chosen contest type holds a positive number. */
  predicate TypeFieldOk(f: CreateForm) {
    && (f.contestType == Duration ==> Positive(f.durationField))
    && (f.contestType == Participants ==> Positive(f.participantsField))
  }

  predicate PositiveAmount(a: Option<real>) {
    a.Some? && a.value > 0.0
  }

  /** The first check the form fails, if any: the type's field, then the winners, then the amount. */
  function FormCheck(f: CreateForm): (r: Option<FormError>)
    ensures r.None? <==> TypeFieldOk(f) && Positive(f.winnersField) && PositiveAmount(f.amountField)
    ensures r == Some(BadDuration) <==> f.contestType == Duration && !Positive(f.durationField)
    ensures r == Some(BadParticipants) <==> f.contestType == Participants && !Positive(f.participantsField)
    ensures r == Some(BadWinners) <==> TypeFieldOk(f) && !Positive(f.winnersField)
    ensures r == Some(BadAmount) <==> TypeFieldOk(f) && Positive(f.winnersField) && !PositiveAmount(f.amountField)
  {
    var duration := SentDuration(f);
    var participants := SentParticipants(f);
    if f.contestType == Duration && (!Truthy(duration) || duration.value <= 0) then Some(BadDuration)
    else if f.contestType == Participants && (!Truthy(participants) || participants.value <= 0) then Some(BadParticipants)
    else if !Truthy(f.winnersField) || f.winnersField.value <= 0 then Some(BadWinners)
    else if f.amountField.None? || f.amountField.value <= 0.0 then Some(BadAmount)
    else None
  }

  /** The form is at least as strict as the server: what it sends passes createNewContest's
      checks, and createContest then creates the contest. */
  lemma FormAcceptanceImpliesServerAcceptance(db: Db, f: CreateForm, monadAmount: Amount, now: int)
    requires FormCheck(f).None?
    ensures CreateRejection(f.contestType, SentDuration(f), SentParticipants(f)).None?
    ensures CreateOutcome(db, monadAmount, f.contestType, SentDuration(f), SentParticipants(f),
                          f.winnersField.value, now).Ok?
  {
    AcceptedContestIsCreated(db, monadAmount, f.contestType, SentDuration(f), SentParticipants(f), f.winnersField.value, now);
  }
}
