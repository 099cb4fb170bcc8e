/**
 One-time codes: `match_totp_step` and `use_totp_code` of auth.py, and the steps
 that storage.py records. The code of a step is a function of the secret.
 */
module TotpCodes {
  import opened Wrappers

  const STEP_SECONDS := 30

  datatype User = User(id: nat, enabled: bool, secret: Option<string>)

  /** What Python's `str.strip` and `str.isdigit` take for white space and for digits. */
  datatype Letters = Letters(white: char -> bool, digit: char -> bool)

  function RemoveSpaces(code: string): string {
    if code == "" then ""
    else (if code[0] == ' ' then "" else [code[0]]) + RemoveSpaces(code[1..])
  }

  function Strip(letters: Letters, code: string): string
    decreases |code|
  {
    if code == "" then ""
    else if letters.white(code[0]) then Strip(letters, code[1..])
    else if letters.white(code[|code| - 1]) then Strip(letters, code[..|code| - 1])
    else code
  }

  function Cleaned(letters: Letters, entered: string): string {
    RemoveSpaces(Strip(letters, entered))
  }

  predicate SixDigits(letters: Letters, code: string) {
    |code| == 6 && forall k | 0 <= k < 6 :: letters.digit(code[k])
  }

  predicate Ascii(code: string) {
    forall k | 0 <= k < |code| :: code[k] < 128 as char
  }

  /** `Refused`: the comparison raises an error for digits outside ASCII. */
  datatype Match = At(step: int) | NoMatch | Refused

  /** The step of the current time, the one before and the one after. */
  predicate Near(step: int, now: int) {
    now / STEP_SECONDS - 1 <= step <= now / STEP_SECONDS + 1
  }

  /** The step that a code belongs to: the latest of the previous, the current and the next one. */
  method MatchStep(letters: Letters, at: (string, int) -> string, secret: string, entered: string, now: int)
    returns (found: Match)
    ensures var code := Cleaned(letters, entered);
      && (found.Refused? <==> SixDigits(letters, code) && !Ascii(code))
      && (found.NoMatch? <==>
            !SixDigits(letters, code)
            || (Ascii(code) && forall step | Near(step, now) :: at(secret, step * STEP_SECONDS) != code))
      && (found.At? ==>
            && Near(found.step, now) && at(secret, found.step * STEP_SECONDS) == code
            && forall later | found.step < later && Near(later, now) :: at(secret, later * STEP_SECONDS) != code)
  {
    var code := Cleaned(letters, entered);
    found := NoMatch;
    if !SixDigits(letters, code) {
      return;
    }
    var current := now / STEP_SECONDS;
    var step := current - 1;
    while step <= current + 1
      invariant current - 1 <= step <= current + 2
      invariant step > current - 1 ==> Ascii(code)
      invariant found.NoMatch? ==> forall s | current - 1 <= s < step :: at(secret, s * STEP_SECONDS) != code
      invariant found.At? ==>
        current - 1 <= found.step < step && at(secret, found.step * STEP_SECONDS) == code
        && forall s | found.step < s < step :: at(secret, s * STEP_SECONDS) != code
      invariant !found.Refused?
    {
      if !Ascii(code) {
        return Refused;
      }
      if at(secret, step * STEP_SECONDS) == code {
        found := At(step);
      }
      step := step + 1;
    }
    assert found.NoMatch? ==> forall s | Near(s, now) :: at(secret, s * STEP_SECONDS) != code;
    assert found.NoMatch? <== forall s | Near(s, now) :: at(secret, s * STEP_SECONDS) != code by {
      assert found.At? ==> Near(found.step, now);
    }
  }

  /** Digits of another script pass the test for digits, and the comparison raises an error. */
  lemma OtherDigitsAreRefused(letters: Letters, entered: string)
    requires entered == ['\U{661}', '\U{662}', '\U{663}', '\U{664}', '\U{665}', '\U{666}']
    requires forall k | 0 <= k < 6 :: letters.digit(entered[k]) && !letters.white(entered[k])
    ensures Cleaned(letters, entered) == entered && SixDigits(letters, entered) && !Ascii(entered)
  {
    assert Strip(letters, entered) == entered;
    NoSpaces(entered);
  }

  lemma {:induction false} NoSpaces(code: string)
    ensures RemoveSpaces(code) == code <==> ' ' !in code
    ensures ' ' !in RemoveSpaces(code) && |RemoveSpaces(code)| <= |code|
  {
    if code != "" {
      NoSpaces(code[1..]);
    }
  }

  /** Taking one space out of a code, wherever it stands, changes nothing; and without spaces it is what it is. */
  lemma {:induction false} SpaceIsRemoved(before: string, after: string)
    ensures RemoveSpaces(before + [' '] + after) == RemoveSpaces(before + after)
    ensures ' ' !in before + after ==> RemoveSpaces(before + [' '] + after) == before + after
    decreases |before|
  {
    NoSpaces(before + after);
    if before == "" {
      assert before + [' '] + after == [' '] + after && before + after == after;
    } else {
      SpaceIsRemoved(before[1..], after);
      assert (before + [' '] + after)[1..] == before[1..] + [' '] + after && (before + after)[1..] == before[1..] + after;
    }
  }

  /** Stripping takes white space off both ends, and no more. */
  lemma {:induction false} StripsEnds(letters: Letters, code: string) returns (front: string, back: string)
    ensures code == front + Strip(letters, code) + back
    ensures forall c | c in front || c in back :: letters.white(c)
    ensures var rest := Strip(letters, code);
      rest != "" ==> !letters.white(rest[0]) && !letters.white(rest[|rest| - 1])
    decreases |code|
  {
    front, back := "", "";
    var n := |code| - 1;
    if n >= 0 && letters.white(code[0]) {
      var a, b := StripsEnds(letters, code[1..]);
      MoreInFront(code, a, Strip(letters, code), b);
      front, back := [code[0]] + a, b;
    } else if n >= 0 && letters.white(code[n]) {
      var a, b := StripsEnds(letters, code[..n]);
      MoreAtBack(code, a, Strip(letters, code), b);
      front, back := a, b + [code[n]];
    }
  }

  lemma MoreInFront(code: string, front: string, rest: string, back: string)
    requires code != "" && code[1..] == front + rest + back
    ensures code == [code[0]] + front + rest + back
  {
  }

  lemma MoreAtBack(code: string, front: string, rest: string, back: string)
    requires code != "" && code[..|code| - 1] == front + rest + back
    ensures code == front + rest + (back + [code[|code| - 1]])
  {
  }

  predicate HasSecret(user: User) {
    user.enabled && user.secret.Some? && user.secret.value != ""
  }

  /** The code that was entered is that of the step, and of no later step near the clock. */
  ghost predicate IsCodeOf(
    letters: Letters, at: (string, int) -> string, user: User, entered: string, now: int, step: int)
  {
    var code := Cleaned(letters, entered);
    && HasSecret(user) && SixDigits(letters, code) && Ascii(code)
    && Near(step, now) && at(user.secret.value, step * STEP_SECONDS) == code
    && forall later | step < later && Near(later, now) :: at(user.secret.value, later * STEP_SECONDS) != code
  }

  /** There is no such step but the one that was found. */
  lemma LatestIsOne(
    letters: Letters, at: (string, int) -> string, user: User, entered: string, now: int, found: Match)
    requires HasSecret(user)
    requires found.At? ==> IsCodeOf(letters, at, user, entered, now, found.step)
    requires var code := Cleaned(letters, entered);
      || found.At? || !SixDigits(letters, code) || !Ascii(code)
      || forall step | Near(step, now) :: at(user.secret.value, step * STEP_SECONDS) != code
    ensures forall step :: IsCodeOf(letters, at, user, entered, now, step) <==> found == At(step)
  {
  }

  predicate IsLater(last: Option<int>, step: int) {
    last.None? || last.value < step
  }

  // ---------------------------------------------------------------- the recorded steps

  /** `users` holds the secret, `steps` the `totp_last_step` of each user with a security row. */
  datatype Store = Store(users: map<nat, User>, steps: map<nat, Option<int>>)

  /** `_security_row`: the row is made when it is missing. */
  function LastStep(s: Store, id: nat): Option<int> {
    if id in s.steps then s.steps[id] else None
  }

  function Enable(s: Store, id: nat, secret: string, step: Option<int>): Store {
    if id !in s.users then s
    else Store(s.users[id := s.users[id].(secret := Some(secret), enabled := true)], s.steps[id := step])
  }

  function Disable(s: Store, id: nat): Store {
    if id !in s.users then s
    else Store(s.users[id := s.users[id].(secret := None, enabled := false)], s.steps[id := None])
  }

  function Delete(s: Store, id: nat): Store {
    Store(s.users - {id}, s.steps - {id})
  }

  /** `accept_totp_step`: one conditional update, after the row was made. */
  function Accept(s: Store, id: nat, step: int): (Store, bool) {
    var last := LastStep(s, id);
    if last.None? || last.value < step then (s.(steps := s.steps[id := Some(step)]), true)
    else (s.(steps := s.steps[id := last]), false)
  }

  /** Who has the second factor: a user with a secret, until it is taken away; nobody else is concerned. */
  lemma EnrolmentOf(s: Store, id: nat, secret: string, step: Option<int>, other: nat)
    requires id in s.users && secret != ""
    ensures HasSecret(Enable(s, id, secret, step).users[id]) && Enable(s, id, secret, step).users[id].secret == Some(secret)
    ensures !HasSecret(Disable(s, id).users[id]) && id !in Delete(s, id).users
    ensures forall t | t in {Enable(s, id, secret, step), Disable(s, id), Delete(s, id)} && other != id ::
      (other in t.users <==> other in s.users) && (other in s.users ==> t.users[other] == s.users[other])
      && LastStep(t, other) == LastStep(s, other)
  {
  }

  class TotpStore {
    var users: map<nat, User>
    var steps: map<nat, Option<int>>

    ghost function State(): Store
      reads this
    {
      Store(users, steps)
    }

    method EnableTotp(id: nat, secret: string, step: Option<int>)
      modifies this
      ensures State() == Enable(old(State()), id, secret, step)
    {
      if id in users {
        users := users[id := users[id].(secret := Some(secret), enabled := true)];
        steps := steps[id := step];
      }
    }

    method DisableTotp(id: nat)
      modifies this
      ensures State() == Disable(old(State()), id)
    {
      if id in users {
        users := users[id := users[id].(secret := None, enabled := false)];
        steps := steps[id := None];
      }
    }

    method AcceptStep(id: nat, step: int) returns (accepted: bool)
      modifies this`steps
      ensures (State(), accepted) == Accept(old(State()), id, step)
    {
      ghost var before := steps;
      if id !in steps {
        steps := steps[id := None];
      }
      assert steps[id := Some(step)] == before[id := Some(step)];
      accepted := steps[id].None? || steps[id].value < step;
      if accepted {
        steps := steps[id := Some(step)];
      } else {
        assert steps == before[id := steps[id]];
      }
    }

    /** `delete_user`, as far as codes go. */
    method DeleteUser(id: nat)
      modifies this
      ensures State() == Delete(old(State()), id)
    {
      users := users - {id};
      steps := steps - {id};
    }

    /**
     `use_totp_code`, for the user as it was read: `At` when the code was taken. It is taken if and only if the latest
     step near the clock that has the code is later than the step recorded before; then that step is recorded.
     */
    method UseCode(letters: Letters, at: (string, int) -> string, user: User, entered: string, now: int)
      returns (used: Match)
      modifies this`steps
      ensures used.At? <==> exists step ::
        IsCodeOf(letters, at, user, entered, now, step) && IsLater(LastStep(old(State()), user.id), step)
      ensures used.At? ==>
        && IsCodeOf(letters, at, user, entered, now, used.step)
        && IsLater(LastStep(old(State()), user.id), used.step)
        && State() == old(State()).(steps := old(steps)[user.id := Some(used.step)])
      ensures !used.At? ==> forall id :: LastStep(State(), id) == LastStep(old(State()), id)
      ensures used.Refused? <==>
        HasSecret(user) && SixDigits(letters, Cleaned(letters, entered)) && !Ascii(Cleaned(letters, entered))
    {
      if !user.enabled || user.secret.None? || user.secret.value == "" {
        return NoMatch;
      }
      used := MatchStep(letters, at, user.secret.value, entered, now);
      LatestIsOne(letters, at, user, entered, now, used);
      if used.At? {
        var isNew := AcceptStep(user.id, used.step);
        if !isNew {
          used := NoMatch;
        }
      }
    }
  }

  // ---------------------------------------------------------------- runs

  datatype Event =
    | Enrol(id: nat, secret: string, confirmed: Option<int>)
    | Leave(id: nat)
    | Drop(id: nat)
    | Use(id: nat, step: int)

  function Apply(s: Store, ev: Event): Store {
    match ev
    case Enrol(id, secret, confirmed) => Enable(s, id, secret, confirmed)
    case Leave(id) => Disable(s, id)
    case Drop(id) => Delete(s, id)
    case Use(id, step) => Accept(s, id, step).0
  }

  function Run(start: Store, events: seq<Event>): Store {
    if events == [] then start else Apply(Run(start, events[..|events| - 1]), events[|events| - 1])
  }

  /** The steps of a user that were accepted in a run. */
  function AcceptedSteps(start: Store, events: seq<Event>, id: nat): seq<int> {
    if events == [] then []
    else
      var before, ev := events[..|events| - 1], events[|events| - 1];
      var step := NewStep(Run(start, before), ev, id);
      AcceptedSteps(start, before, id) + (if step.Some? then [step.value] else [])
  }

  /** No step of the run enrols the user again, takes the second factor away or deletes the user. */
  ghost predicate SameEnrolment(events: seq<Event>, id: nat) {
    forall k | 0 <= k < |events| :: events[k].Use? || events[k].id != id
  }

  ghost predicate Increasing(steps: seq<int>) {
    forall i, j | 0 <= i < j < |steps| :: steps[i] < steps[j]
  }

  function NewStep(s: Store, ev: Event, id: nat): Option<int> {
    if ev.Use? && ev.id == id && Accept(s, id, ev.step).1 then Some(ev.step) else None
  }

  lemma StepAfter(s: Store, ev: Event, id: nat)
    requires ev.Use? || ev.id != id
    ensures var step := NewStep(s, ev, id);
      && LastStep(Apply(s, ev), id) == (if step.Some? then step else LastStep(s, id))
      && (step.Some? && LastStep(s, id).Some? ==> LastStep(s, id).value < step.value)
  {
  }

  /**
   Between enrolments the accepted steps of a user strictly increase, all of them later
   than the step that is recorded at the start; the last one is what is recorded.
   */
  lemma {:induction false} StepsIncrease(start: Store, events: seq<Event>, id: nat)
    requires SameEnrolment(events, id)
    ensures var accepted := AcceptedSteps(start, events, id);
      && Increasing(accepted)
      && (LastStep(start, id).Some? ==> forall i | 0 <= i < |accepted| :: LastStep(start, id).value < accepted[i])
      && LastStep(Run(start, events), id)
         == (if accepted == [] then LastStep(start, id) else Some(accepted[|accepted| - 1]))
    decreases |events|
  {
    if events != [] {
      var before, ev := events[..|events| - 1], events[|events| - 1];
      StepsIncrease(start, before, id);
      StepAfter(Run(start, before), ev, id);
    }
  }

  /** A code works once: after an enrolment with a step, neither that step nor an accepted one is accepted. */
  lemma SpentOnce(s: Store, id: nat, secret: string, step: int, events: seq<Event>, again: int)
    requires id in s.users && SameEnrolment(events, id)
    ensures var start := Enable(s, id, secret, Some(step));
      var accepted := AcceptedSteps(start, events, id);
      (again == step || again in accepted) ==> !Accept(Run(start, events), id, again).1
  {
    var start := Enable(s, id, secret, Some(step));
    StepsIncrease(start, events, id);
  }
}
