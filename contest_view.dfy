/** The participant view of components/contest-interface.tsx: when a contest
    counts as ended, the countdown, whether the form is closed and which
    banner explains it, the recent-participants list, and the submit handler. */
module ContestView {
  import opened Records
  import opened SeqUtil
  import opened Database
  import opened Actions

  // ---------------------------------------------------------------------
  // checkContestEnd

  /** A contest has ended by itself when its end time has come (for a duration contest
      that was not stopped by hand) or its participant cap is reached. */
  predicate NaturallyEnded(c: Contest, count: int, now: int) {
    || (c.contestType == Duration && c.endTime.Some? && !c.manuallyStopped && now >= c.endTime.value)
    || (c.contestType == Participants && Truthy(c.maxParticipants) && count >= c.maxParticipants.value)
  }

  /** `checkContestEnd`, which builds its answer in the local `ended`. */
  method CheckContestEnd(c: Contest, count: int, now: int) returns (ended: bool)
    ensures ended == NaturallyEnded(c, count, now)
  {
    ended := false;
    if c.contestType == Duration && c.endTime.Some? && !c.manuallyStopped {
      ended := now >= c.endTime.value;
    }
    if c.contestType == Participants && Truthy(c.maxParticipants) && count >= c.maxParticipants.value {
      ended := true;
    }
  }

  /** For a running duration contest with an end time, ended means the end time has been reached. */
  lemma DurationEndsAtEndTime(c: Contest, count: int, now: int)
    requires c.contestType == Duration && c.endTime.Some? && !c.manuallyStopped
    ensures NaturallyEnded(c, count, now) <==> now >= c.endTime.value
  {
  }

  /** A participant contest ends at its cap whether or not it was stopped by hand, and never without a cap. */
  lemma ParticipantEndIgnoresManualStop(c: Contest, count: int, now: int)
    requires c.contestType == Participants
    ensures NaturallyEnded(c, count, now) <==> Truthy(c.maxParticipants) && count >= c.maxParticipants.value
    ensures NaturallyEnded(c, count, now) == NaturallyEnded(c.(manuallyStopped := !c.manuallyStopped), count, now)
  {
  }

  // ---------------------------------------------------------------------
  // The countdown of updateTimer

  datatype TimeLeft = Remaining(hours: int, minutes: int, seconds: int) | ContestEnded

  const HourMs := 1000 * 60 * 60
  const SecondMs := 1000

  /** The time left until `endTime`, split into whole hours, minutes and seconds. */
  function Countdown(endTime: int, now: int): (t: TimeLeft)
    ensures t.ContestEnded? <==> endTime - now <= 0
    ensures t.Remaining? ==>
      && t.hours >= 0 && 0 <= t.minutes < 60 && 0 <= t.seconds < 60
      && HourMs * t.hours + MinuteMs * t.minutes + SecondMs * t.seconds <= endTime - now
      && endTime - now < HourMs * t.hours + MinuteMs * t.minutes + SecondMs * t.seconds + SecondMs
  {
    var difference := endTime - now;
    if difference > 0 then
      SplitBounds(difference);
      Remaining(difference / HourMs, (difference % HourMs) / MinuteMs, (difference % MinuteMs) / SecondMs)
    else
      ContestEnded
  }

  /** A quotient and remainder by one minute determine the division they come from. */
  lemma MinuteDivMod(d: int, q: int, r: int)
    requires d == MinuteMs * q + r && 0 <= r < MinuteMs
    ensures d / MinuteMs == q && d % MinuteMs == r
  {
  }

  /** The hour, minute and second digits of a positive difference, step by step. */
  lemma SplitBounds(d: int)
    requires d > 0
    ensures var h, m, s := d / HourMs, (d % HourMs) / MinuteMs, (d % MinuteMs) / SecondMs;
      && h >= 0 && 0 <= m < 60 && 0 <= s < 60
      && HourMs * h + MinuteMs * m + SecondMs * s <= d < HourMs * h + MinuteMs * m + SecondMs * s + SecondMs
  {
    var h, r := d / HourMs, d % HourMs;
    assert d == HourMs * h + r && 0 <= r < HourMs;
    var m, r' := r / MinuteMs, r % MinuteMs;
    assert r == MinuteMs * m + r' && 0 <= r' < MinuteMs;
    assert 0 <= m < 60;
    MinuteDivMod(d, 60 * h + m, r');
    var s, r'' := r' / SecondMs, r' % SecondMs;
    assert r' == SecondMs * s + r'' && 0 <= r'' < SecondMs;
  }

  /** The split is the only one with minutes and seconds below 60 that brackets the difference to the second. */
  lemma CountdownIsTheOnlySplit(endTime: int, now: int, h: int, m: int, s: int)
    requires h >= 0 && 0 <= m < 60 && 0 <= s < 60
    requires HourMs * h + MinuteMs * m + SecondMs * s <= endTime - now < HourMs * h + MinuteMs * m + SecondMs * s + SecondMs
    requires endTime - now > 0
    ensures Countdown(endTime, now) == Remaining(h, m, s)
  {
    var t := Countdown(endTime, now);
    var total := 3600 * h + 60 * m + s;
    var total' := 3600 * t.hours + 60 * t.minutes + t.seconds;
    assert total == total';
    assert t.hours == h;
  }

  // ---------------------------------------------------------------------
  // Closing the form and the banner

  /** `submissionsBlocked` */
  predicate SubmissionsBlocked(c: Contest, count: int, now: int) {
    c.submissionsStopped || NaturallyEnded(c, count, now) || c.status != Active
  }

  /** For a stored contest the form is closed exactly when the server would refuse the address as
      not active or stopped, or when the contest has ended by itself, which the server does not check. */
  lemma BlockedMatchesServerRefusal(db: Db, c: Contest, address: string, count: int, now: int)
    requires WellFormed(db)
    requires c in db.contests
    ensures var v := SubmitVerdict(db, c.id, address);
      SubmissionsBlocked(c, count, now)
      <==> v == Failure(NotActiveError) || v == Failure(StoppedError) || NaturallyEnded(c, count, now)
  {
    var i :| 0 <= i < |db.contests| && db.contests[i] == c;
    ContestByIdAt(db.contests, c.id);
  }

  /** The status message shown while submissions are blocked. */
  datatype Banner =
    | NoBanner
    | CompletedBanner          // "Contest Completed!"
    | StoppedBanner            // "Submissions Stopped!"
    | LimitBanner(timeLimit: bool)   // "Contest Time/Limit Reached!", time or participant wording

  function BannerFor(c: Contest, count: int, now: int): (b: Banner)
    ensures b.NoBanner? <==> !SubmissionsBlocked(c, count, now)
    ensures b == CompletedBanner <==> SubmissionsBlocked(c, count, now) && c.status == Completed
    ensures b == StoppedBanner <==> SubmissionsBlocked(c, count, now) && c.status != Completed && c.submissionsStopped
    ensures b.LimitBanner? <==> SubmissionsBlocked(c, count, now) && c.status != Completed && !c.submissionsStopped
    ensures b.LimitBanner? ==>
      && (NaturallyEnded(c, count, now) || c.status == Ended)
      && b.timeLimit == (c.contestType == Duration)
  {
    if !SubmissionsBlocked(c, count, now) then NoBanner
    else if c.status == Completed then CompletedBanner
    else if c.submissionsStopped then StoppedBanner
    else LimitBanner(c.contestType == Duration)
  }

  // ---------------------------------------------------------------------
  // The recent-participants list

  const RecentLimit := 8

  /** `submissions.slice(-8).reverse()`: the newest eight, newest first. */
  function RecentParticipants(subs: seq<Submission>): (r: seq<Submission>)
    ensures |r| == if |subs| < RecentLimit then |subs| else RecentLimit
    ensures forall i :: 0 <= i < |r| ==> r[i] == subs[|subs| - 1 - i]
  {
    var last := TakeLast(subs, RecentLimit);
    forall i | 0 <= i < |last| ensures Reversed(last)[i] == subs[|subs| - 1 - i] {
      ReversedAt(last, i);
    }
    Reversed(last)
  }

  /** Fed the page's submissions of a well-formed store, the recent list runs newest first. */
  lemma RecentNewestFirst(db: Db, contestId: int)
    requires WellFormed(db)
    ensures var r := RecentParticipants(SubmissionsOf(db.submissions, contestId));
      forall i, j :: 0 <= i < j < |r| ==> r[i].id > r[j].id
  {
    var subs := SubmissionsOf(db.submissions, contestId);
    QueriesInIdOrder(db, contestId);
    var r := RecentParticipants(subs);
    forall i, j | 0 <= i < j < |r| ensures r[i].id > r[j].id {
      assert SubmissionId(subs[|subs| - 1 - j]) < SubmissionId(subs[|subs| - 1 - i]);
    }
  }

  /** The narrow-screen form of an address: `slice(0, 8) + "..." + slice(-6)`. */
  function ShortAddress(a: string): (r: string)
    ensures |a| >= 6 ==> |r| == (if |a| < 8 then |a| else 8) + 9
    ensures |a| >= 8 ==> r[..8] == a[..8] && r[8..11] == "..."
    ensures |a| >= 8 ==> r[11..] == a[|a| - 6..]
    ensures |a| < 8 ==>
      var tail := if |a| < 6 then |a| else 6;
      |r| == |a| + 3 + tail && r[..|a|] == a && r[|a|..|a| + 3] == "..." && r[|a| + 3..] == a[|a| - tail..]
  {
    Take(a, 8) + "..." + TakeLast(a, 6)
  }

  /** Every valid address is shown as 17 characters: its "0x", six digits, "..." and its last six digits. */
  lemma ShortFormOfValidAddress(a: string)
    requires IsEvmAddress(a)
    ensures |ShortAddress(a)| == 17
    ensures ShortAddress(a)[..2] == "0x"
  {
    assert ShortAddress(a)[..2] == ShortAddress(a)[..8][..2] == a[..8][..2];
  }

  // ---------------------------------------------------------------------
  // The submit form

  const SubmittedMessage := "Address submitted successfully! \U{1F389}"
  const FallbackError := "Failed to submit address"

  /** The message shown for a server answer: `result.error || "Failed to submit address"`. */
  function MessageFor(r: Outcome): (msg: string)
    ensures r.Success? ==> msg == SubmittedMessage
    ensures r.Failure? ==> msg == if r.error == "" then FallbackError else r.error
    ensures msg != ""
  {
    match r
    case Success => SubmittedMessage
    case Failure(e) => if e == "" then FallbackError else e
  }

  /** The form state of the participant view. */
  class ContestForm {
    var address: string
    var message: string
    var hasFollowed: bool
    var showFollowPrompt: bool
    var isSubmitting: bool

    constructor ()
      ensures address == "" && message == ""
      ensures !hasFollowed && !showFollowPrompt && !isSubmitting
    {
      address, message := "", "";
      hasFollowed, showFollowPrompt, isSubmitting := false, false, false;
    }

    /** `confirmFollow` */
    method ConfirmFollow()
      modifies this
      ensures hasFollowed && !showFollowPrompt
      ensures address == old(address) && message == old(message) && isSubmitting == old(isSubmitting)
    {
      hasFollowed := true;
      showFollowPrompt := false;
    }

    /** `handleSubmit`: before the follow is confirmed it only opens the prompt; afterwards
        it sends the address and shows the answer, clearing the field on success. */
    method HandleSubmit(store: Store, contestId: int, now: int)
      requires store.Valid()
      modifies this, store
      ensures store.Valid()
      ensures !old(hasFollowed) ==>
        && showFollowPrompt
        && store.State() == old(store.State())
        && address == old(address) && message == old(message) && isSubmitting == old(isSubmitting)
      ensures old(hasFollowed) ==>
        var verdict := if IsEvmAddress(old(address)) then SubmitVerdict(old(store.State()), contestId, old(address))
                       else Failure(InvalidAddressError);
        && message == MessageFor(verdict)
        && address == (if verdict == Success then "" else old(address))
        && !isSubmitting
        && showFollowPrompt == old(showFollowPrompt)
        && store.State() == (if IsEvmAddress(old(address)) then AfterSubmit(old(store.State()), contestId, old(address), now)
                             else old(store.State()))
      ensures hasFollowed == old(hasFollowed)
    {
      if !hasFollowed {
        showFollowPrompt := true;
        return;
      }
      isSubmitting := true;
      message := "";
      var result := SubmitEvmAddress(store, contestId, address, now);
      if result.Success? {
        message := SubmittedMessage;
        address := "";
      } else {
        message := MessageFor(result);
      }
      isSubmitting := false;
    }
  }
}
