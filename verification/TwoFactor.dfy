/** Replay of authenticator codes, and emailed codes (src/services/twofactor.ts). */
module TwoFactor {
  // Code generation is a parameter; times are milliseconds.
  import opened Base

  const STEP_MS: int := 30_000
  const EMAIL_TOKEN_TTL_MS: int := 600_000
  const EMAIL_ATTEMPTS_LIMIT: int := 3

  predicate SixDigits(code: string) {
    |code| == 6 && forall i | 0 <= i < 6 :: '0' <= code[i] <= '9'
  }

  // ---------------------------------------------------------------------
  // Authenticator codes
  // ---------------------------------------------------------------------

  /** The time step a code is taken for: the current one, else the previous, else the next. */
  function MatchedStep(generate: int -> string, current: int, code: string): Option<int> {
    if generate(current) == code then Some(current)
    else if generate(current - 1) == code then Some(current - 1)
    else if generate(current + 1) == code then Some(current + 1)
    else None
  }

  /** The step a code is accepted for, given the last one used. */
  function AcceptedStep(generate: int -> string, lastUsed: int, now: int, code: string): Option<int> {
    var step := MatchedStep(generate, now / STEP_MS, code);
    if SixDigits(code) && step.Some? && step.value > lastUsed then step else None
  }

  /**
   Where the codes of the three steps around the clock differ, a code is accepted for a step exactly if it is that
   step's six digits, the step is the current one or next to it, and it lies after the last one used.
   */
  lemma CodeIsAcceptedIff(generate: int -> string, lastUsed: int, now: int, code: string, step: int)
    requires var c := now / 30_000;
             generate(c - 1) != generate(c) && generate(c) != generate(c + 1) && generate(c - 1) != generate(c + 1)
    ensures AcceptedStep(generate, lastUsed, now, code) == Some(step) <==>
              && code == generate(step) && |code| == 6 && (forall i | 0 <= i < 6 :: code[i] in "0123456789")
              && -1 <= step - now / 30_000 <= 1 && step > lastUsed
  {
    assert forall c: char :: '0' <= c <= '9' <==> c in "0123456789" by {
      DigitCharacters();
    }
  }

  lemma DigitCharacters()
    ensures forall c: char :: '0' <= c <= '9' <==> c in "0123456789"
  {
    forall c: char | '0' <= c <= '9' ensures c in "0123456789" {
      assert "0123456789"[c as int - '0' as int] == c;
    }
  }

  class Authenticator {
    /** The last step used, kept in the user's authenticator row; None while he has no such row. */
    var lastUsed: Option<int>

    /** Tries the three steps in order; the first match decides. Without a row there is no replay check. */
    method ValidateTotpCode(generate: int -> string, secretOk: bool, code: string, now: int) returns (r: Outcome)
      modifies this
      ensures !secretOk ==> r.Failed? && lastUsed == old(lastUsed)
      ensures secretOk && old(lastUsed).None? ==>
                && lastUsed.None?
                && (r.Done? <==> SixDigits(code) && MatchedStep(generate, now / STEP_MS, code).Some?)
      ensures secretOk && old(lastUsed).Some? ==>
                var step := AcceptedStep(generate, old(lastUsed).value, now, code);
                && (r.Done? <==> step.Some?)
                && lastUsed == if step.Some? then step else old(lastUsed)
    {
      if !SixDigits(code) { return Failed("TOTP code is not a number"); }
      if !secretOk { return Failed("Invalid TOTP secret"); }
      var currentStep := now / STEP_MS;
      var deltas := [0, -1, 1];
      for i := 0 to 3
        invariant lastUsed == old(lastUsed)
        invariant forall k | 0 <= k < i :: generate(currentStep + deltas[k]) != code
      {
        var step := currentStep + deltas[i];
        if generate(step) == code {
          assert i > 0 ==> generate(currentStep + deltas[0]) != code;
          assert i > 1 ==> generate(currentStep + deltas[1]) != code;
          assert MatchedStep(generate, currentStep, code) == Some(step);
          if lastUsed.Some? && step <= lastUsed.value { return Failed("TOTP code has already been used"); }
          if lastUsed.Some? { lastUsed := Some(step); }
          return Done;
        }
      }
      assert generate(currentStep + deltas[0]) != code && generate(currentStep + deltas[1]) != code
             && generate(currentStep + deltas[2]) != code;
      r := Failed("Invalid TOTP code!");
    }
  }

  datatype TotpTry = TotpTry(now: int, code: string)

  function LastUsed(generate: int -> string, initial: int, tries: seq<TotpTry>): int {
    if tries == [] then initial
    else
      var before := LastUsed(generate, initial, tries[..|tries| - 1]);
      var t := tries[|tries| - 1];
      var step := AcceptedStep(generate, before, t.now, t.code);
      if step.Some? then step.value else before
  }

  /** The steps accepted over the life of one authenticator row, in order. */
  function AcceptedSteps(generate: int -> string, initial: int, tries: seq<TotpTry>): seq<int> {
    if tries == [] then []
    else
      var init, t := tries[..|tries| - 1], tries[|tries| - 1];
      var step := AcceptedStep(generate, LastUsed(generate, initial, init), t.now, t.code);
      AcceptedSteps(generate, initial, init) + if step.Some? then [step.value] else []
  }

  ghost predicate Increasing(s: seq<int>) {
    forall i, j | 0 <= i < j < |s| :: s[i] < s[j]
  }

  /** Accepted steps strictly increase, so no step is accepted twice. */
  lemma {:induction false} StepsAreUsedOnce(generate: int -> string, initial: int, tries: seq<TotpTry>)
    ensures Increasing(AcceptedSteps(generate, initial, tries))
    ensures forall s | s in AcceptedSteps(generate, initial, tries) :: initial < s <= LastUsed(generate, initial, tries)
    ensures LastUsed(generate, initial, tries) >= initial
  {
    if tries != [] {
      var init := tries[..|tries| - 1];
      StepsAreUsedOnce(generate, initial, init);
      var before := AcceptedSteps(generate, initial, init);
      assert forall i | 0 <= i < |before| :: before[i] in before;
    }
  }

  lemma {:induction false} IncreasingFits(s: seq<int>, lo: int, hi: int)
    requires Increasing(s) && lo <= hi + 1 && forall x | x in s :: lo <= x <= hi
    ensures |s| <= hi - lo + 1
  {
    if s != [] {
      var last := s[|s| - 1];
      assert last in s;
      var init := s[..|s| - 1];
      assert forall x | x in init :: x in s && x < last;
      IncreasingFits(init, lo, last - 1);
    }
  }

  lemma {:induction false} StepsNearTheClock(generate: int -> string, initial: int, tries: seq<TotpTry>, first: int, k: nat)
    requires forall t | t in tries :: first <= t.now / STEP_MS < first + k
    ensures forall s | s in AcceptedSteps(generate, initial, tries) :: first - 1 <= s <= first + k
  {
    if tries != [] {
      assert tries[|tries| - 1] in tries;
      StepsNearTheClock(generate, initial, tries[..|tries| - 1], first, k);
    }
  }

  /** While the clock covers k consecutive steps, at most k + 2 codes are accepted. */
  lemma AcceptanceBound(generate: int -> string, initial: int, tries: seq<TotpTry>, first: int, k: nat)
    requires forall t | t in tries :: first <= t.now / STEP_MS < first + k
    ensures |AcceptedSteps(generate, initial, tries)| <= k + 2
  {
    StepsAreUsedOnce(generate, initial, tries);
    StepsNearTheClock(generate, initial, tries, first, k);
    IncreasingFits(AcceptedSteps(generate, initial, tries), first - 1, first + k);
  }

  // ---------------------------------------------------------------------
  // The bound is attained
  // ---------------------------------------------------------------------

  /** Codes of neighbouring steps differ, and all are six digits. */
  ghost predicate DistinctNearby(generate: int -> string) {
    && (forall s :: SixDigits(generate(s)))
    && (forall s, t | -2 <= s - t <= 2 && s != t :: generate(s) != generate(t))
  }

  function ClockFor(first: int, k: nat, i: nat): int {
    if i == 0 then first else if i <= k then first + i - 1 else first + k - 1
  }

  /** Try n is the code of step first - 1 + n, at a clock inside the k steps. */
  function Greedy(generate: int -> string, first: int, k: nat, n: nat): seq<TotpTry> {
    seq(n, i requires 0 <= i < n => TotpTry(ClockFor(first, k, i) * STEP_MS, generate(first - 1 + i)))
  }

  lemma {:induction false} GreedyAccepted(generate: int -> string, first: int, k: nat, n: nat)
    requires DistinctNearby(generate) && 0 < k && n <= k + 2
    ensures LastUsed(generate, first - 2, Greedy(generate, first, k, n)) == first - 2 + n
    ensures |AcceptedSteps(generate, first - 2, Greedy(generate, first, k, n))| == n
    decreases n
  {
    if n > 0 {
      GreedyAccepted(generate, first, k, n - 1);
      var step := first - 2 + n;
      GreedyStep(generate, first, k, n);
      OneMoreTry(generate, first - 2, Greedy(generate, first, k, n - 1),
                 TotpTry(ClockFor(first, k, n - 1) * STEP_MS, generate(step)), step);
    }
  }

  /** The last try of the greedy run is the next step's code. */
  lemma GreedyStep(generate: int -> string, first: int, k: nat, n: nat)
    requires DistinctNearby(generate) && 0 < k && 0 < n <= k + 2
    ensures var t := TotpTry(ClockFor(first, k, n - 1) * STEP_MS, generate(first - 2 + n));
            && Greedy(generate, first, k, n) == Greedy(generate, first, k, n - 1) + [t]
            && AcceptedStep(generate, first - 3 + n, t.now, t.code) == Some(first - 2 + n)
  {
    var clock, step := ClockFor(first, k, n - 1), first - 2 + n;
    assert clock * STEP_MS / STEP_MS == clock;
    NearbyMatch(generate, clock, step);
  }

  /** A try accepted for a step adds that step. */
  lemma OneMoreTry(generate: int -> string, initial: int, tries: seq<TotpTry>, t: TotpTry, step: int)
    requires AcceptedStep(generate, LastUsed(generate, initial, tries), t.now, t.code) == Some(step)
    ensures LastUsed(generate, initial, tries + [t]) == step
    ensures AcceptedSteps(generate, initial, tries + [t]) == AcceptedSteps(generate, initial, tries) + [step]
  {
    assert (tries + [t])[..|tries|] == tries;
  }

  lemma NearbyMatch(generate: int -> string, clock: int, step: int)
    requires DistinctNearby(generate) && clock - 1 <= step <= clock + 1
    ensures MatchedStep(generate, clock, generate(step)) == Some(step)
  {
    assert generate(clock - 1) != generate(clock) && generate(clock) != generate(clock + 1)
           && generate(clock - 1) != generate(clock + 1);
  }

  /** The greedy run keeps its clock inside the k steps. */
  lemma GreedyClock(generate: int -> string, first: int, k: nat, n: nat)
    requires 0 < k
    ensures forall t | t in Greedy(generate, first, k, n) :: first <= t.now / STEP_MS < first + k
  {
    var tries := Greedy(generate, first, k, n);
    forall t | t in tries ensures first <= t.now / STEP_MS < first + k {
      var i :| 0 <= i < n && tries[i] == t;
      var clock := ClockFor(first, k, i);
      assert t.now == clock * STEP_MS && clock * STEP_MS / STEP_MS == clock;
    }
  }

  ghost predicate Attains(generate: int -> string, initial: int, tries: seq<TotpTry>, first: int, k: nat) {
    && (forall t | t in tries :: first <= t.now / STEP_MS < first + k)
    && |AcceptedSteps(generate, initial, tries)| == k + 2
  }

  lemma AcceptanceBoundAttained(generate: int -> string, first: int, k: nat)
    requires DistinctNearby(generate) && 0 < k
    ensures exists initial: int, tries: seq<TotpTry> :: Attains(generate, initial, tries, first, k)
  {
    var tries := Greedy(generate, first, k, k + 2);
    GreedyAccepted(generate, first, k, k + 2);
    GreedyClock(generate, first, k, k + 2);
    assert Attains(generate, first - 2, tries, first, k);
  }

  // ---------------------------------------------------------------------
  // Emailed codes
  // ---------------------------------------------------------------------

  datatype EmailToken = EmailToken(lastToken: Option<string>, sentAt: int, attempts: int)

  datatype EmailTry = EmailTry(code: string, now: int)

  predicate EmailAccepts(d: EmailToken, t: EmailTry) {
    d.lastToken == Some(t.code) && t.code != "" && t.now - d.sentAt <= EMAIL_TOKEN_TTL_MS
  }

  /** A wrong guess against a live token. */
  predicate WrongGuess(d: EmailToken, t: EmailTry) {
    d.lastToken.Some? && d.lastToken.value != "" && d.lastToken.value != t.code
  }

  function AfterTry(d: EmailToken, t: EmailTry): EmailToken {
    if WrongGuess(d, t) then
      d.(attempts := d.attempts + 1, lastToken := if d.attempts + 1 >= EMAIL_ATTEMPTS_LIMIT then None else d.lastToken)
    else if EmailAccepts(d, t) then d.(lastToken := None, attempts := 0)
    else d
  }

  class EmailRecord {
    /** The token kept in the user's e-mail row; None while he has no such row. */
    var data: Option<EmailToken>

    /** A new code replaces the old one, so whatever guesses were made on that no longer count. */
    method SendEmailLoginToken(token: string, now: int) returns (r: Outcome)
      modifies this
      ensures r.Done? <==> old(data).Some?
      ensures data == if old(data).Some? then Some(EmailToken(Some(token), now, 0)) else None
    {
      if data.None? { return Failed("No twofactor email registered"); }
      var sent := data.value;
      sent := sent.(lastToken := Some(token));
      sent := sent.(sentAt := now);
      sent := sent.(attempts := 0);
      data := Some(sent);
      r := Done;
    }

    method ValidateEmailCode(code: string, now: int) returns (r: Outcome)
      modifies this
      ensures data == if old(data).Some? then Some(AfterTry(old(data).value, EmailTry(code, now))) else None
      ensures r.Done? <==> old(data).Some? && EmailAccepts(old(data).value, EmailTry(code, now))
    {
      if data.None? { return Failed("Two factor email is not enabled"); }
      var token := data.value;
      if token.lastToken.None? || token.lastToken.value == "" { return Failed("No token available"); }
      if token.lastToken.value != code {
        token := token.(attempts := token.attempts + 1);
        if token.attempts >= EMAIL_ATTEMPTS_LIMIT { token := token.(lastToken := None); }
        data := Some(token);
        return Failed("Token is invalid");
      }
      if now - token.sentAt > EMAIL_TOKEN_TTL_MS { return Failed("Token has expired"); }
      token := token.(lastToken := None);
      token := token.(attempts := 0);
      data := Some(token);
      r := Done;
    }
  }

  function Accepts(d: EmailToken, tries: seq<EmailTry>): nat
    decreases |tries|
  {
    if tries == [] then 0
    else (if EmailAccepts(d, tries[0]) then 1 else 0) + Accepts(AfterTry(d, tries[0]), tries[1..])
  }

  function WrongGuesses(d: EmailToken, tries: seq<EmailTry>): nat
    decreases |tries|
  {
    if tries == [] then 0
    else (if WrongGuess(d, tries[0]) then 1 else 0) + WrongGuesses(AfterTry(d, tries[0]), tries[1..])
  }

  function After(d: EmailToken, tries: seq<EmailTry>): EmailToken {
    if tries == [] then d else AfterTry(After(d, tries[..|tries| - 1]), tries[|tries| - 1])
  }

  /** The tries whose code is another than the one sent. */
  function WrongCodes(code: string, tries: seq<EmailTry>): nat {
    if tries == [] then 0
    else WrongCodes(code, tries[..|tries| - 1]) + if tries[|tries| - 1].code != code then 1 else 0
  }

  /** The right code within ten minutes of being sent. */
  ghost predicate InTime(code: string, sentAt: int, t: EmailTry) {
    t.code == code && t.now <= sentAt + 600_000
  }

  /** What is left of a code after some tries: nothing once one was right or three were wrong. */
  lemma {:induction false} CodeAfterTries(code: string, sentAt: int, tries: seq<EmailTry>)
    requires code != ""
    ensures var d := After(EmailToken(Some(code), sentAt, 0), tries);
            && d.sentAt == sentAt && (d.lastToken.Some? ==> d.lastToken.value == code)
            && (d.lastToken.Some? <==> WrongCodes(code, tries) < 3 && forall t | t in tries :: !InTime(code, sentAt, t))
            && (d.lastToken.Some? ==> d.attempts == WrongCodes(code, tries))
  {
    if tries != [] {
      var init, last := tries[..|tries| - 1], tries[|tries| - 1];
      assert tries == init + [last];
      CodeAfterTries(code, sentAt, init);
      var d := After(EmailToken(Some(code), sentAt, 0), init);
      assert EmailAccepts(d, last) <==> d.lastToken.Some? && InTime(code, sentAt, last);
      assert (forall t | t in tries :: !InTime(code, sentAt, t)) <==>
             (forall t | t in init :: !InTime(code, sentAt, t)) && !InTime(code, sentAt, last) by {
        assert forall t :: t in tries <==> t in init || t == last;
      }
    }
  }

  /**
   A try after a code was sent is accepted exactly if it is the right code within ten minutes, fewer than three
   wrong ones came before it, and no right one in time did.
   */
  lemma EmailCodeIsAcceptedIff(code: string, sentAt: int, tries: seq<EmailTry>, t: EmailTry)
    requires code != ""
    ensures EmailAccepts(After(EmailToken(Some(code), sentAt, 0), tries), t) <==>
              && t.code == code && t.now <= sentAt + 600_000
              && WrongCodes(code, tries) < 3
              && forall s | s in tries :: !(s.code == code && s.now <= sentAt + 600_000)
  {
    CodeAfterTries(code, sentAt, tries);
    assert forall s | s in tries :: InTime(code, sentAt, s) <==> s.code == code && s.now <= sentAt + 600_000;
  }

  lemma {:induction false} SpentTokenIsDead(d: EmailToken, tries: seq<EmailTry>)
    requires d.lastToken.None?
    ensures Accepts(d, tries) == 0 && WrongGuesses(d, tries) == 0
    decreases |tries|
  {
    if tries != [] { SpentTokenIsDead(AfterTry(d, tries[0]), tries[1..]); }
  }

  /**
   However many tries follow one sending, at most one is accepted, at most three wrong guesses are weighed,
   and an acceptance leaves room for at most two.
   */
  lemma {:induction false} GuessesPerToken(d: EmailToken, tries: seq<EmailTry>)
    requires d.lastToken.Some? && 0 <= d.attempts < EMAIL_ATTEMPTS_LIMIT
    ensures Accepts(d, tries) <= 1
    ensures Accepts(d, tries) + WrongGuesses(d, tries) <= EMAIL_ATTEMPTS_LIMIT - d.attempts
    ensures Accepts(d, tries) == 1 ==> exists t :: t in tries && EmailAccepts(d, t)
    decreases |tries|
  {
    if tries != [] {
      var e := AfterTry(d, tries[0]);
      if e.lastToken.None? {
        SpentTokenIsDead(e, tries[1..]);
        assert tries[0] in tries;
      } else {
        GuessesPerToken(e, tries[1..]);
        if Accepts(e, tries[1..]) == 1 {
          var t :| t in tries[1..] && EmailAccepts(e, t);
          assert t in tries && EmailAccepts(d, t);
        }
      }
    }
  }
}
