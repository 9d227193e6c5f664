/** The server actions of app/actions.ts: input checks in front of the store
    operations, then delegation. Cache revalidation, redirects and logging
    have no effect on the tables and are not modelled. */
module Actions {
  import opened Records
  import opened Database

  const InvalidAddressError := "Invalid EVM address format"

  // ---------------------------------------------------------------------
  // The address check

  /** The character class `[a-fA-F0-9]`. */
  predicate IsHexDigit(c: char) {
    '0' <= c <= '9' || 'a' <= c <= 'f' || 'A' <= c <= 'F'
  }

  /** `/^0x[a-fA-F0-9]{40}$/`: a lower-case "0x" and exactly 40 hex digits, nothing around them. */
  predicate IsEvmAddress(s: string) {
    && |s| == 42
    && s[0] == '0' && s[1] == 'x'
    && forall i :: 2 <= i < 42 ==> IsHexDigit(s[i])
  }

  newtype Byte = x: int | 0 <= x < 256

  /** The lower-case hex digit of a nibble. */
  function NibbleChar(n: int): (c: char)
    requires 0 <= n < 16
    ensures IsHexDigit(c)
    ensures '0' <= c <= '9' || 'a' <= c <= 'f'
  {
    if n < 10 then (48 + n) as char else (87 + n) as char
  }

  /** The usual lower-case hex rendering of a byte string, two digits per byte. */
  function Hex(bytes: seq<Byte>): (s: string)
    ensures |s| == 2 * |bytes|
    ensures forall i :: 0 <= i < |s| ==> IsHexDigit(s[i])
  {
    if bytes == [] then []
    else [NibbleChar(bytes[0] as int / 16), NibbleChar(bytes[0] as int % 16)] + Hex(bytes[1..])
  }

  /** ASCII lower case of one character. */
  function LowerChar(c: char): char {
    if 'A' <= c <= 'Z' then (c as int + 32) as char else c
  }

  function LowerCase(s: string): string {
    seq(|s|, i requires 0 <= i < |s| => LowerChar(s[i]))
  }

  /** The value of one digit of `[a-fA-F0-9]`. */
  function NibbleValue(c: char): (n: int)
    requires IsHexDigit(c)
    ensures 0 <= n < 16
    ensures NibbleChar(n) == LowerChar(c)
  {
    if '0' <= c <= '9' then c as int - 48
    else if 'a' <= c <= 'f' then c as int - 87
    else c as int - 55
  }

  /** The bytes an even-length run of hex digits spells, two digits per byte. */
  function AccountBytes(digits: string): (bytes: seq<Byte>)
    requires |digits| % 2 == 0
    requires forall i :: 0 <= i < |digits| ==> IsHexDigit(digits[i])
    ensures 2 * |bytes| == |digits|
    ensures Hex(bytes) == LowerCase(digits)
    decreases |digits|
  {
    if digits == [] then []
    else
      var b := JoinNibbles(NibbleValue(digits[0]), NibbleValue(digits[1]));
      var tail := digits[2..];
      assert forall i :: 0 <= i < |tail| ==> tail[i] == digits[i + 2];
      var rest := AccountBytes(tail);
      HexCons(b, rest);
      LowerCaseSplit(digits);
      [b] + rest
  }

  /** The byte whose high and low nibbles are `hi` and `lo`. */
  function JoinNibbles(hi: int, lo: int): (b: Byte)
    requires 0 <= hi < 16 && 0 <= lo < 16
    ensures b as int / 16 == hi && b as int % 16 == lo
  {
    (16 * hi + lo) as Byte
  }

  lemma HexCons(b: Byte, rest: seq<Byte>)
    ensures Hex([b] + rest) == [NibbleChar(b as int / 16), NibbleChar(b as int % 16)] + Hex(rest)
  {
    assert ([b] + rest)[1..] == rest;
  }

  lemma LowerCaseSplit(s: string)
    requires |s| >= 2
    ensures LowerCase(s) == [LowerChar(s[0]), LowerChar(s[1])] + LowerCase(s[2..])
  {
  }

  /** A character whose lower case is a hex digit is itself one. */
  lemma LowerHexDigit(c: char)
    requires IsHexDigit(LowerChar(c))
    ensures IsHexDigit(c)
  {
  }

  /** The address check accepts exactly "0x" followed by a 20-byte account written in hex,
      with the letters of the digits in either case. */
  lemma AddressCheckIsAccountInHex(s: string)
    ensures IsEvmAddress(s) <==>
      && |s| >= 2 && s[..2] == "0x"
      && exists account: seq<Byte> :: |account| == 20 && Hex(account) == LowerCase(s[2..])
  {
    if IsEvmAddress(s) {
      var digits := s[2..];
      assert forall i :: 0 <= i < |digits| ==> digits[i] == s[i + 2];
      var account := AccountBytes(digits);
      assert |account| == 20 && Hex(account) == LowerCase(digits);
    }
    if |s| >= 2 && s[..2] == "0x" && exists account: seq<Byte> :: |account| == 20 && Hex(account) == LowerCase(s[2..]) {
      var account: seq<Byte> :| |account| == 20 && Hex(account) == LowerCase(s[2..]);
      forall i | 2 <= i < 42 ensures IsHexDigit(s[i]) {
        assert LowerChar(s[i]) == LowerCase(s[2..])[i - 2] == Hex(account)[i - 2];
        LowerHexDigit(s[i]);
      }
      assert s[0] == s[..2][0] && s[1] == s[..2][1];
    }
  }

  /** The check is case-insensitive in the digits but the store's duplicate check is not:
      the same account in lower and upper case passes twice and occupies two entries. */
  lemma MixedCaseAddressesBothAdmitted(db: Db, contestId: int, now: int)
    requires SubmitVerdict(db, contestId, "0x" + seq(40, _ => 'a')) == Success
    requires SubmitVerdict(db, contestId, "0x" + seq(40, _ => 'A')) == Success
    ensures IsEvmAddress("0x" + seq(40, _ => 'a')) && IsEvmAddress("0x" + seq(40, _ => 'A'))
    ensures var once := AfterSubmit(db, contestId, "0x" + seq(40, _ => 'a'), now);
      SubmitVerdict(once, contestId, "0x" + seq(40, _ => 'A')) == Success
  {
    var lower := "0x" + seq(40, _ => 'a');
    var upper := "0x" + seq(40, _ => 'A');
    assert lower[2] != upper[2];
    OtherAddressStillAdmitted(db, contestId, lower, upper, now);
  }

  // ---------------------------------------------------------------------
  // The contest check

  /** The error createNewContest throws before touching the store, if any. */
  function CreateRejection(contestType: ContestType, durationMinutes: Option<int>, maxParticipants: Option<int>)
    : (r: Option<ContestError>)
    ensures r.None? <==> (contestType == Duration ==> Positive(durationMinutes)) && (contestType == Participants ==> Positive(maxParticipants))
    ensures r == Some(DurationNotPositive) <==> contestType == Duration && !Positive(durationMinutes)
    ensures r == Some(ParticipantCountNotPositive) <==> contestType == Participants && !Positive(maxParticipants)
  {
    if contestType == Duration && (!Truthy(durationMinutes) || durationMinutes.value <= 0) then Some(DurationNotPositive)
    else if contestType == Participants && (!Truthy(maxParticipants) || maxParticipants.value <= 0) then Some(ParticipantCountNotPositive)
    else None
  }

  /** `winnerCount = 1`: the default applies only when the argument is absent. */
  function WinnerCountArg(winnerCount: Option<int>): int {
    if winnerCount.Some? then winnerCount.value else 1
  }

  /** A contest the server check lets through never makes createContest throw: a duration
      contest gets an end time after `now`, a participant contest a positive cap. */
  lemma AcceptedContestIsCreated(db: Db, monadAmount: Amount, contestType: ContestType, durationMinutes: Option<int>,
                                 maxParticipants: Option<int>, winnerCount: int, now: int)
    requires CreateRejection(contestType, durationMinutes, maxParticipants).None?
    ensures var r := CreateOutcome(db, monadAmount, contestType, durationMinutes, maxParticipants, winnerCount, now);
      && r.Ok?
      && (contestType == Duration ==> r.value.endTime.Some? && r.value.endTime.value > now)
      && (contestType == Participants ==> r.value.maxParticipants == maxParticipants && r.value.maxParticipants.value > 0)
  {
  }

  // ---------------------------------------------------------------------
  // The actions

  /** `submitEVMAddress` */
  method SubmitEvmAddress(store: Store, contestId: int, address: string, now: int) returns (r: Outcome)
    requires store.Valid()
    modifies store
    ensures store.Valid()
    ensures !IsEvmAddress(address) ==> r == Failure(InvalidAddressError) && store.State() == old(store.State())
    ensures IsEvmAddress(address) ==>
      && r == SubmitVerdict(old(store.State()), contestId, address)
      && store.State() == AfterSubmit(old(store.State()), contestId, address, now)
  {
    if !IsEvmAddress(address) {
      return Failure(InvalidAddressError);
    }
    r := store.SubmitAddress(contestId, address, now);
  }

  /** `markUserTaskCompleted` */
  method MarkUserTaskCompleted(store: Store, contestId: int, address: string, taskId: int, now: int) returns (r: Outcome)
    requires store.Valid()
    modifies store
    ensures store.Valid()
    ensures r == Success
    ensures store.State() == AfterMarkTask(old(store.State()), contestId, address, taskId, now)
  {
    r := store.MarkTaskCompleted(contestId, address, taskId, now);
  }

  /** `createNewContest`: check, then reconcile expired contests, then create. */
  method CreateNewContest(store: Store, monadAmount: Amount, contestType: ContestType, durationMinutes: Option<int>,
                          maxParticipants: Option<int>, winnerCount: Option<int>, dbNow: int)
    returns (r: Result<Contest, ContestError>)
    requires store.Valid()
    modifies store
    ensures store.Valid()
    ensures CreateRejection(contestType, durationMinutes, maxParticipants).Some? ==>
      && r == Err(CreateRejection(contestType, durationMinutes, maxParticipants).value)
      && store.State() == old(store.State())
    ensures CreateRejection(contestType, durationMinutes, maxParticipants).None? ==>
      var swept := Reconciled(old(store.State()), dbNow);
      && r == CreateOutcome(swept, monadAmount, contestType, durationMinutes, maxParticipants, WinnerCountArg(winnerCount), dbNow)
      && r.Ok?
      && store.State() == AfterCreate(swept, monadAmount, contestType, durationMinutes, maxParticipants, WinnerCountArg(winnerCount), dbNow)
  {
    var rejection := CreateRejection(contestType, durationMinutes, maxParticipants);
    if rejection.Some? {
      return Err(rejection.value);
    }
    store.CheckAndProcessExpiredContests(dbNow);
    AcceptedContestIsCreated(store.State(), monadAmount, contestType, durationMinutes, maxParticipants,
                             WinnerCountArg(winnerCount), dbNow);
    r := store.CreateContest(monadAmount, contestType, durationMinutes, maxParticipants, WinnerCountArg(winnerCount), dbNow);
  }

  /** `addNewContestTask` */
  method AddNewContestTask(store: Store, contestId: int, taskType: string, taskDescription: string,
                           taskUrl: Option<string>, isRequired: Option<bool>, now: int) returns (t: ContestTask)
    requires store.Valid()
    modifies store
    ensures store.Valid()
    ensures t == ContestTask(|old(store.tasks)| + 1, contestId, taskType, taskDescription,
                             if taskUrl == Some("") then None else taskUrl, RequiredArg(isRequired), now)
    ensures isRequired.None? ==> t.isRequired
    ensures store.State() == old(store.State()).(tasks := old(store.tasks) + [t])
  {
    t := store.AddContestTask(contestId, taskType, taskDescription, taskUrl, isRequired, now);
  }

  /** `stopContestSubmissions` */
  method StopContestSubmissions(store: Store, contestId: int) returns (r: Outcome)
    requires store.Valid()
    modifies store
    ensures store.Valid()
    ensures r == Success
    ensures store.State() == old(store.State()).(contests := FlagStopped(old(store.contests), contestId))
  {
    r := store.StopSubmissions(contestId);
  }

  /** `selectContestWinners` */
  method SelectContestWinners(store: Store, contestId: int, perm: seq<nat>, now: int) returns (selected: seq<Submission>)
    requires store.Valid()
    requires IsPermutation(perm, ParticipantCount(store.submissions, contestId))
    modifies store
    ensures store.Valid()
    ensures selected == Drawn(old(store.State()), contestId, perm)
    ensures store.State() == AfterDraw(old(store.State()), contestId, perm, now)
  {
    selected := store.SelectWinners(contestId, perm, now);
  }

  /** `stopContestManually` */
  method StopContestManually(store: Store, contestId: int, perm: seq<nat>, now: int) returns (selected: seq<Submission>)
    requires store.Valid()
    requires IsPermutation(perm, ParticipantCount(store.submissions, contestId))
    modifies store
    ensures store.Valid()
    ensures var stopped := old(store.State()).(contests := MarkManuallyStopped(old(store.contests), contestId));
      && selected == Drawn(stopped, contestId, perm)
      && store.State() == AfterDraw(stopped, contestId, perm, now)
  {
    selected := store.StopContest(contestId, perm, now);
  }

  /** `processExpiredContests` */
  method ProcessExpiredContests(store: Store, dbNow: int)
    requires store.Valid()
    modifies store
    ensures store.Valid()
    ensures store.State() == Reconciled(old(store.State()), dbNow)
  {
    store.CheckAndProcessExpiredContests(dbNow);
  }
}
