/**
 Passwords and their recovery: the handlers newUser, changePassword, forgotPassword and
 recoverPassword on the user records, over whole runs of requests with a clock.
 */
module PasswordRecovery {
  import opened Options
  import opened Words
  import opened Text

  /** forgotPasswordPin is absent until a PIN has been requested. */
  datatype User = User(password: string, forgotPasswordPin: Option<string>)

  type Users = map<string, User>

  /** passwordUtilities.isPasswordCorrect, as an unknown relation of password and stored hash. */
  type PasswordCheck = (string, string) -> bool

  datatype Status = Ok | NotFound | Conflict | ServerError

  const HOUR: nat := 1000 * 60 * 60

  const RESET := "0000.000000000"

  /** Math.floor(draw * 9999).toString().padStart(4, "0") */
  function PinText(draw: real): string
    requires 0.0 <= draw < 1.0
  {
    PadZeros(Numeral((draw * 9999.0).Floor, 10), 4)
  }

  /** A PIN has four decimal digits, which denote the draw scaled to 0..9998. */
  lemma PinIsFourDigits(draw: real)
    requires 0.0 <= draw < 1.0
    ensures var pin := PinText(draw);
            && |pin| == 4 && IsNumeral(pin, 10)
            && Value(pin, 10) as real <= draw * 9999.0 < Value(pin, 10) as real + 1.0
            && Value(pin, 10) <= 9998
  {
    var n := (draw * 9999.0).Floor;
    assert TenTo(4) == 10 * TenTo(3) == 100 * TenTo(2) == 10000;
    DecimalLength(n, 4);
    PaddedDenotes(n, 10, 4);
  }

  /** The stored field: PIN and time stamp around a dot. */
  function Stored(pin: string, timestamp: nat): string {
    pin + "." + Numeral(timestamp, 10)
  }

  /** forgotPassword: NotFound when the update modifies nothing. */
  function Forgot(users: Users, email: string, pin: string, now: nat): (Users, Status) {
    if email !in users || users[email].forgotPasswordPin == Some(Stored(pin, now)) then (users, NotFound)
    else (users[email := users[email].(forgotPasswordPin := Some(Stored(pin, now)))], Ok)
  }

  /** currentTimestamp - pinTimestamp >= one hour; a field without a dot gives NaN, which is not. */
  predicate TimedOut(field: string, now: nat) {
    var stamp := SecondField(field, '.');
    stamp.Some? && ToNumber(stamp.value).Some? && now - ToNumber(stamp.value).value >= HOUR
  }

  /** recoverPassword; `hash` is the hash of the new password. */
  function Recover(users: Users, email: string, pin: string, hash: string, now: nat): (Users, Status) {
    if email !in users then (users, Conflict)
    else
      match users[email].forgotPasswordPin
      case None => (users, ServerError)
      case Some(field) =>
        if FirstField(field, '.') != pin || TimedOut(field, now) then (users, Conflict)
        else (users[email := User(hash, Some(RESET))], Ok)
  }

  /** changePassword; `hash` is the hash of the new password. */
  function Change(check: PasswordCheck, users: Users, email: string, current: string, hash: string): (Users, Status) {
    if email !in users || !check(current, users[email].password) then (users, Conflict)
    else (users[email := users[email].(password := hash)], Ok)
  }

  /** newUser: emails are unique keys. */
  function Register(users: Users, email: string, hash: string): (Users, Status) {
    if email in users then (users, Conflict) else (users[email := User(hash, None)], Ok)
  }

  // ---------------------------------------------------------------- runs

  datatype Event =
    | Registered(email: string, hash: string, now: nat)
    | Changed(email: string, current: string, hash: string, now: nat)
    | Asked(email: string, draw: real, now: nat)
    | Tried(email: string, pin: string, hash: string, now: nat)

  predicate ValidEvent(ev: Event) {
    ev.Asked? ==> 0.0 <= ev.draw < 1.0
  }

  function Step(check: PasswordCheck, users: Users, ev: Event): (Users, Status)
    requires ValidEvent(ev)
  {
    match ev
    case Registered(email, hash, now) => Register(users, email, hash)
    case Changed(email, current, hash, now) => Change(check, users, email, current, hash)
    case Asked(email, draw, now) => Forgot(users, email, PinText(draw), now)
    case Tried(email, pin, hash, now) => Recover(users, email, pin, hash, now)
  }

  predicate ValidRun(events: seq<Event>) {
    && (forall i :: 0 <= i < |events| ==> ValidEvent(events[i]))
    && (forall i :: 0 <= i < |events| ==> events[i].now >= HOUR)
    && (forall i, j :: 0 <= i < j < |events| ==> events[i].now <= events[j].now)
  }

  /** The records after the first k events. */
  function UsersAfter(check: PasswordCheck, users: Users, events: seq<Event>, k: nat): Users
    requires ValidRun(events) && k <= |events|
  {
    if k == 0 then users else Step(check, UsersAfter(check, users, events, k - 1), events[k - 1]).0
  }

  /** Event k is a request for a PIN of a registered user. */
  predicate Issues(check: PasswordCheck, users: Users, events: seq<Event>, k: nat, email: string)
    requires ValidRun(events) && k < |events|
  {
    events[k].Asked? && events[k].email == email && email in UsersAfter(check, users, events, k)
  }

  /** Event k is a recovery that succeeds. */
  predicate Recovers(check: PasswordCheck, users: Users, events: seq<Event>, k: nat, email: string)
    requires ValidRun(events) && k < |events|
  {
    events[k].Tried? && events[k].email == email && Step(check, UsersAfter(check, users, events, k), events[k]).1.Ok?
  }

  /** The last PIN request among the first k events that no success has used up since. */
  function OpenIssue(check: PasswordCheck, users: Users, events: seq<Event>, k: nat, email: string): (r: Option<nat>)
    requires ValidRun(events) && k <= |events|
    ensures r.Some? ==> r.value < k && Issues(check, users, events, r.value, email)
  {
    if k == 0 then None
    else if Issues(check, users, events, k - 1, email) then Some(k - 1)
    else if Recovers(check, users, events, k - 1, email) then None
    else OpenIssue(check, users, events, k - 1, email)
  }

  /** What the field of a user holds, told from the history. */
  predicate FieldMatches(check: PasswordCheck, users: Users, events: seq<Event>, k: nat, email: string)
    requires ValidRun(events) && k <= |events|
  {
    var now := UsersAfter(check, users, events, k);
    email in now ==>
      match OpenIssue(check, users, events, k, email)
      case None => now[email].forgotPasswordPin in {None, Some(RESET)}
      case Some(j) => now[email].forgotPasswordPin == Some(Stored(PinText(events[j].draw), events[j].now))
  }

  ghost predicate NoPinYet(users: Users) {
    forall e :: e in users ==> users[e].forgotPasswordPin == None
  }

  lemma {:induction false} HistoryDeterminesField(check: PasswordCheck, users: Users, events: seq<Event>, k: nat,
        email: string)
    requires ValidRun(events) && k <= |events| && NoPinYet(users)
    ensures FieldMatches(check, users, events, k, email)
    ensures email !in UsersAfter(check, users, events, k) ==> OpenIssue(check, users, events, k, email).None?
    decreases k
  {
    if k > 0 {
      HistoryDeterminesField(check, users, events, k - 1, email);
      if events[k - 1].email == email && events[k - 1].Tried? {
        AttemptKeepsMatch(check, users, events, k - 1);
      } else {
        OtherEventKeepsMatch(check, users, events, k - 1, email);
      }
    }
  }

  lemma AttemptKeepsMatch(check: PasswordCheck, users: Users, events: seq<Event>, k: nat)
    requires ValidRun(events) && k < |events| && events[k].Tried?
    requires FieldMatches(check, users, events, k, events[k].email)
    ensures FieldMatches(check, users, events, k + 1, events[k].email)
    ensures UsersAfter(check, users, events, k + 1).Keys == UsersAfter(check, users, events, k).Keys
  {
    var before := UsersAfter(check, users, events, k);
    assert UsersAfter(check, users, events, k + 1) == Step(check, before, events[k]).0;
    assert !Issues(check, users, events, k, events[k].email);
  }

  lemma OtherEventKeepsMatch(check: PasswordCheck, users: Users, events: seq<Event>, k: nat, email: string)
    requires ValidRun(events) && k < |events| && (events[k].email == email ==> !events[k].Tried?)
    requires FieldMatches(check, users, events, k, email)
    requires email !in UsersAfter(check, users, events, k) ==> OpenIssue(check, users, events, k, email).None?
    ensures FieldMatches(check, users, events, k + 1, email)
    ensures email !in UsersAfter(check, users, events, k + 1) ==>
              OpenIssue(check, users, events, k + 1, email).None?
  {
    var before := UsersAfter(check, users, events, k);
    assert UsersAfter(check, users, events, k + 1) == Step(check, before, events[k]).0;
    assert !Recovers(check, users, events, k, email);
  }

  lemma {:induction false} UsersStay(check: PasswordCheck, users: Users, events: seq<Event>, j: nat, k: nat)
    requires ValidRun(events) && j <= k <= |events|
    ensures UsersAfter(check, users, events, j).Keys <= UsersAfter(check, users, events, k).Keys
    decreases k
  {
    if j < k {
      UsersStay(check, users, events, j, k - 1);
    }
  }

  /** Reading back a stored field: the PIN, and the hour from its issue. */
  lemma StoredReadsBack(pin: string, timestamp: nat, now: nat)
    requires IsNumeral(pin, 10)
    ensures FirstField(Stored(pin, timestamp), '.') == pin
    ensures TimedOut(Stored(pin, timestamp), now) <==> now - timestamp >= HOUR
  {
    var stamp := Numeral(timestamp, 10);
    SplitTwo(pin, stamp, '.');
    NumeralDenotes(timestamp, 10);
  }

  /** The field left by a success times out whenever the clock reads an hour or more. */
  lemma ResetIsTimedOut(now: nat)
    ensures FirstField(RESET, '.') == "0000"
    ensures TimedOut(RESET, now) <==> now >= HOUR
  {
    SplitTwo("0000", "000000000", '.');
    assert RESET == "0000" + ['.'] + "000000000";
    assert "000000000" == seq(9, _ => '0') + "";
    ZerosDenoteNothing(9, "", 10);
  }

  /**
   Every successful recovery uses the PIN of the most recent request of the same user, less than
   one hour after it, and no other recovery has succeeded since that request.
   */
  lemma RecoveryIsSingleUse(check: PasswordCheck, users: Users, events: seq<Event>, k: nat, email: string)
    requires ValidRun(events) && k < |events| && NoPinYet(users)
    requires Recovers(check, users, events, k, email)
    ensures var issue := OpenIssue(check, users, events, k, email);
            && issue.Some?
            && events[k].pin == PinText(events[issue.value].draw)
            && events[k].now - events[issue.value].now < HOUR
            && forall i :: issue.value < i < k ==>
                 !Issues(check, users, events, i, email) && !Recovers(check, users, events, i, email)
  {
    if OpenIssue(check, users, events, k, email).None? {
      NoOpenPinFails(check, users, events, k);
    } else {
      OpenPinSucceedsIff(check, users, events, k);
      NothingSinceIssue(check, users, events, k, email);
    }
  }

  /** Without an unused PIN no recovery succeeds, whatever PIN is tried. */
  lemma NoOpenPinFails(check: PasswordCheck, users: Users, events: seq<Event>, k: nat)
    requires ValidRun(events) && k < |events| && NoPinYet(users)
    requires events[k].Tried? && OpenIssue(check, users, events, k, events[k].email).None?
    ensures !Recovers(check, users, events, k, events[k].email)
  {
    HistoryDeterminesField(check, users, events, k, events[k].email);
    ResetIsTimedOut(events[k].now);
  }

  lemma {:induction false} NothingSinceIssue(check: PasswordCheck, users: Users, events: seq<Event>, k: nat,
        email: string)
    requires ValidRun(events) && k <= |events|
    requires OpenIssue(check, users, events, k, email).Some?
    ensures forall i :: OpenIssue(check, users, events, k, email).value < i < k ==>
              !Issues(check, users, events, i, email) && !Recovers(check, users, events, i, email)
    decreases k
  {
    if !Issues(check, users, events, k - 1, email) {
      NothingSinceIssue(check, users, events, k - 1, email);
    }
  }

  /** Conversely, the most recent unused PIN succeeds exactly within the hour. */
  lemma OpenPinSucceedsIff(check: PasswordCheck, users: Users, events: seq<Event>, k: nat)
    requires ValidRun(events) && k < |events| && NoPinYet(users)
    requires events[k].Tried? && OpenIssue(check, users, events, k, events[k].email).Some?
    ensures var j := OpenIssue(check, users, events, k, events[k].email).value;
            Recovers(check, users, events, k, events[k].email)
            <==> events[k].pin == PinText(events[j].draw) && events[k].now - events[j].now < HOUR
  {
    var email := events[k].email;
    var j := OpenIssue(check, users, events, k, email).value;
    HistoryDeterminesField(check, users, events, k, email);
    UsersStay(check, users, events, j, k);
    PaddedDenotes((events[j].draw * 9999.0).Floor, 10, 4);
    StoredReadsBack(PinText(events[j].draw), events[j].now, events[k].now);
  }

  /** Event k registers the user, or is a change of the password that succeeds. */
  predicate SetsPassword(check: PasswordCheck, users: Users, events: seq<Event>, k: nat, email: string)
    requires ValidRun(events) && k < |events|
  {
    && (events[k].Registered? || events[k].Changed?) && events[k].email == email
    && Step(check, UsersAfter(check, users, events, k), events[k]).1.Ok?
  }

  /** The hash that registration, change or recovery set last among the first k events, or else the original one. */
  function LastHash(check: PasswordCheck, users: Users, events: seq<Event>, k: nat, email: string): Option<string>
    requires ValidRun(events) && k <= |events|
  {
    if k == 0 then if email in users then Some(users[email].password) else None
    else if Recovers(check, users, events, k - 1, email) || SetsPassword(check, users, events, k - 1, email) then
      Some(events[k - 1].hash)
    else LastHash(check, users, events, k - 1, email)
  }

  /** Stored is the hash set last for that user, and no event of another user or without success touches it. */
  lemma {:induction false} PasswordIsLastSet(check: PasswordCheck, users: Users, events: seq<Event>, k: nat,
        email: string)
    requires ValidRun(events) && k <= |events|
    ensures var now := UsersAfter(check, users, events, k);
            LastHash(check, users, events, k, email) == if email in now then Some(now[email].password) else None
    decreases k
  {
    if k > 0 {
      PasswordIsLastSet(check, users, events, k - 1, email);
    }
  }

  /** A change succeeds exactly for those who know the password set last. */
  lemma ChangeSucceedsIff(check: PasswordCheck, users: Users, events: seq<Event>, k: nat)
    requires ValidRun(events) && k < |events| && events[k].Changed?
    ensures var last := LastHash(check, users, events, k, events[k].email);
            SetsPassword(check, users, events, k, events[k].email)
            <==> last.Some? && check(events[k].current, last.value)
  {
    PasswordIsLastSet(check, users, events, k, events[k].email);
  }

  /** Changing the password, successfully or not, neither uses up nor prolongs a PIN. */
  lemma ChangeKeepsPins(check: PasswordCheck, users: Users, events: seq<Event>, k: nat, email: string)
    requires ValidRun(events) && k < |events| && events[k].Changed?
    ensures OpenIssue(check, users, events, k + 1, email) == OpenIssue(check, users, events, k, email)
    ensures var before, after := UsersAfter(check, users, events, k), UsersAfter(check, users, events, k + 1);
            && after.Keys == before.Keys
            && (email in before ==> after[email].forgotPasswordPin == before[email].forgotPasswordPin)
  {
    assert UsersAfter(check, users, events, k + 1) == Step(check, UsersAfter(check, users, events, k), events[k]).0;
  }

  // ---------------------------------------------------------------- what is answered

  /** The user was there at the start, or has registered. */
  predicate Known(users: Users, events: seq<Event>, k: nat, email: string)
    requires k <= |events|
  {
    email in users || exists j :: 0 <= j < k && events[j].Registered? && events[j].email == email
  }

  lemma {:induction false} KnownUsers(check: PasswordCheck, users: Users, events: seq<Event>, k: nat, email: string)
    requires ValidRun(events) && k <= |events|
    ensures email in UsersAfter(check, users, events, k) <==> Known(users, events, k, email)
    decreases k
  {
    if k > 0 {
      KnownUsers(check, users, events, k - 1, email);
      assert Known(users, events, k, email)
             <==> Known(users, events, k - 1, email) || (events[k - 1].Registered? && events[k - 1].email == email);
    }
  }

  /** None of the first k events has requested a PIN for the user. */
  predicate NeverAsked(check: PasswordCheck, users: Users, events: seq<Event>, k: nat, email: string)
    requires ValidRun(events) && k <= |events|
  {
    forall j :: 0 <= j < k ==> !Issues(check, users, events, j, email)
  }

  lemma {:induction false} FieldAbsentIff(check: PasswordCheck, users: Users, events: seq<Event>, k: nat, email: string)
    requires ValidRun(events) && k <= |events| && NoPinYet(users)
    ensures var now := UsersAfter(check, users, events, k);
            email in now ==> (now[email].forgotPasswordPin == None <==> NeverAsked(check, users, events, k, email))
    ensures email !in UsersAfter(check, users, events, k) ==> NeverAsked(check, users, events, k, email)
    decreases k
  {
    if k > 0 {
      FieldAbsentIff(check, users, events, k - 1, email);
      AbsenceAfter(check, UsersAfter(check, users, events, k - 1), events[k - 1], email);
      assert NeverAsked(check, users, events, k, email)
             <==> NeverAsked(check, users, events, k - 1, email) && !Issues(check, users, events, k - 1, email);
    }
  }

  /** The field becomes present with a request for a PIN only, and never absent again. */
  lemma AbsenceAfter(check: PasswordCheck, before: Users, ev: Event, email: string)
    requires ValidEvent(ev)
    ensures var after := Step(check, before, ev).0;
            && (email in before ==> email in after)
            && (email in before ==>
                  (after[email].forgotPasswordPin == None
                   <==> before[email].forgotPasswordPin == None && !(ev.Asked? && ev.email == email)))
            && (email !in before && email in after ==> after[email].forgotPasswordPin == None)
  {
  }

  /** The request gives the PIN and the time of the open request once more. */
  predicate RepeatsRequest(check: PasswordCheck, users: Users, events: seq<Event>, k: nat)
    requires ValidRun(events) && k < |events| && events[k].Asked?
  {
    var issue := OpenIssue(check, users, events, k, events[k].email);
    issue.Some? && events[issue.value].now == events[k].now
    && PinText(events[issue.value].draw) == PinText(events[k].draw)
  }

  /** The PIN tried is that of the open request, which is less than an hour old. */
  predicate OpenPinTried(check: PasswordCheck, users: Users, events: seq<Event>, k: nat)
    requires ValidRun(events) && k < |events| && events[k].Tried?
  {
    var issue := OpenIssue(check, users, events, k, events[k].email);
    issue.Some? && events[k].pin == PinText(events[issue.value].draw) && events[k].now - events[issue.value].now < HOUR
  }

  /** The answer to event k, from the history. */
  function AnswerTold(check: PasswordCheck, users: Users, events: seq<Event>, k: nat): Status
    requires ValidRun(events) && k < |events|
  {
    var ev := events[k];
    var known, last := Known(users, events, k, ev.email), LastHash(check, users, events, k, ev.email);
    if ev.Registered? then
      if known then Conflict else Ok
    else if ev.Changed? then
      if last.Some? && check(ev.current, last.value) then Ok else Conflict
    else if ev.Asked? then
      if known && !RepeatsRequest(check, users, events, k) then Ok else NotFound
    else if OpenPinTried(check, users, events, k) then Ok
    else if known && NeverAsked(check, users, events, k, ev.email) then ServerError
    else Conflict
  }

  /**
   Every event of every run is answered as the history tells: an attempt of a user who never asked
   for a PIN is a server error, and a request that changes nothing counts as one of an unknown user.
   */
  lemma AnswersAreTold(check: PasswordCheck, users: Users, events: seq<Event>, k: nat)
    requires ValidRun(events) && k < |events| && NoPinYet(users)
    ensures Step(check, UsersAfter(check, users, events, k), events[k]).1 == AnswerTold(check, users, events, k)
  {
    KnownUsers(check, users, events, k, events[k].email);
    match events[k] {
      case Registered(_, _, _) =>
      case Changed(_, _, _, _) => PasswordIsLastSet(check, users, events, k, events[k].email);
      case Asked(_, _, _) => RequestAnswered(check, users, events, k);
      case Tried(_, _, _, _) => AttemptAnswered(check, users, events, k);
    }
  }

  lemma AttemptAnswered(check: PasswordCheck, users: Users, events: seq<Event>, k: nat)
    requires ValidRun(events) && k < |events| && NoPinYet(users) && events[k].Tried?
    ensures var email := events[k].email;
            var before := UsersAfter(check, users, events, k);
            Step(check, before, events[k]).1
            == if OpenPinTried(check, users, events, k) then Ok
               else if email in before && NeverAsked(check, users, events, k, email) then ServerError
               else Conflict
  {
    var email := events[k].email;
    FieldAbsentIff(check, users, events, k, email);
    assert Recovers(check, users, events, k, email) <==> OpenPinTried(check, users, events, k) by {
      if OpenIssue(check, users, events, k, email).Some? {
        OpenPinSucceedsIff(check, users, events, k);
      } else {
        NoOpenPinFails(check, users, events, k);
      }
    }
  }

  lemma RequestAnswered(check: PasswordCheck, users: Users, events: seq<Event>, k: nat)
    requires ValidRun(events) && k < |events| && NoPinYet(users) && events[k].Asked?
    ensures var before := UsersAfter(check, users, events, k);
            Step(check, before, events[k]).1
            == if events[k].email in before && !RepeatsRequest(check, users, events, k) then Ok else NotFound
  {
    var email, now := events[k].email, events[k].now;
    var issue := OpenIssue(check, users, events, k, email);
    HistoryDeterminesField(check, users, events, k, email);
    if issue.Some? {
      PinsStored(events[issue.value].draw, events[issue.value].now, events[k].draw, now);
    } else {
      NeverStoredAsReset(events[k].draw, now);
    }
  }

  lemma PinsStored(draw: real, now: nat, draw': real, now': nat)
    requires 0.0 <= draw < 1.0 && 0.0 <= draw' < 1.0
    ensures Stored(PinText(draw), now) == Stored(PinText(draw'), now')
            <==> PinText(draw) == PinText(draw') && now == now'
  {
    PinIsFourDigits(draw);
    PinIsFourDigits(draw');
    StoredDetermines(PinText(draw), now, PinText(draw'), now');
  }

  lemma NeverStoredAsReset(draw: real, now: nat)
    requires 0.0 <= draw < 1.0 && now >= HOUR
    ensures Stored(PinText(draw), now) != RESET
  {
    PinIsFourDigits(draw);
    StoredReadsBack(PinText(draw), now, now);
    ResetIsTimedOut(now);
  }

  /** Different PINs or different times are stored as different texts. */
  lemma StoredDetermines(pin: string, now: nat, pin': string, now': nat)
    requires IsNumeral(pin, 10) && IsNumeral(pin', 10)
    ensures Stored(pin, now) == Stored(pin', now') <==> pin == pin' && now == now'
  {
    SplitTwo(pin, Numeral(now, 10), '.');
    SplitTwo(pin', Numeral(now', 10), '.');
    NumeralDenotes(now, 10);
    NumeralDenotes(now', 10);
  }

  // ---------------------------------------------------------------- the handlers

  class UserCollection {
    var users: Users

    /** newUser */
    method NewUser(email: string, hash: string) returns (status: Status)
      modifies this
      ensures (users, status) == Register(old(users), email, hash)
    {
      if email in users {
        return Conflict;
      }
      users := users[email := User(hash, None)];
      return Ok;
    }

    /** changePassword */
    method ChangePassword(email: string, currentPassword: string, hash: string, check: PasswordCheck)
      returns (status: Status)
      modifies this
      ensures (users, status) == Change(check, old(users), email, currentPassword, hash)
    {
      if email !in users {
        return Conflict;
      }
      if !check(currentPassword, users[email].password) {
        return Conflict;
      }
      users := users[email := users[email].(password := hash)];
      return Ok;
    }

    /** forgotPassword */
    method ForgotPassword(email: string, draw: real, now: nat) returns (status: Status)
      requires 0.0 <= draw < 1.0
      modifies this
      ensures (users, status) == Forgot(old(users), email, PinText(draw), now)
    {
      var forgotPasswordPin := PadZeros(Numeral((draw * 9999.0).Floor, 10), 4);
      var pinAndTimestamp := forgotPasswordPin + "." + Numeral(now, 10);
      if email !in users {
        return NotFound;
      }
      var modified := users[email].forgotPasswordPin != Some(pinAndTimestamp);
      users := users[email := users[email].(forgotPasswordPin := Some(pinAndTimestamp))];
      if !modified {
        assert users == old(users);
        return NotFound;
      }
      return Ok;
    }

    /** recoverPassword */
    method RecoverPassword(email: string, pin: string, hash: string, now: nat) returns (status: Status)
      modifies this
      ensures (users, status) == Recover(old(users), email, pin, hash, now)
    {
      if email !in users {
        return Conflict;
      }
      if users[email].forgotPasswordPin.None? {
        return ServerError;
      }
      var userPin := FirstField(users[email].forgotPasswordPin.value, '.');
      var pinTimestamp := SecondField(users[email].forgotPasswordPin.value, '.');
      if userPin != pin {
        return Conflict;
      }
      if pinTimestamp.Some? {
        var stamp := ToNumber(pinTimestamp.value);
        if stamp.Some? && now - stamp.value >= HOUR {
          return Conflict;
        }
      }
      users := users[email := User(hash, Some(RESET))];
      return Ok;
    }
  }
}
