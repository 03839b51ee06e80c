/** The login limiters on expiring KV counters (src/services/ratelimit.ts), in milliseconds. */
module RateLimit {
  import opened Base

  const WINDOW: int := 60_000
  const LIMITER_TTL: int := 120_000
  const FAILURE_TTL: int := 60_000

  /** The key families; their texts never collide. */
  datatype Key = LoginWindow(ip: string, window: int) | UserFailures(email: string)

  datatype Entry = Entry(value: int, expiresAt: int)
  type Kv = map<Key, Entry>

  /** `Number((await kv.get(key)) ?? "0")`: an expired entry is gone. */
  function Read(kv: Kv, k: Key, now: int): int {
    if k in kv && now < kv[k].expiresAt then kv[k].value else 0
  }

  function Put(kv: Kv, k: Key, value: int, now: int, ttl: int): Kv {
    kv[k := Entry(value, now + ttl)]
  }

  // ---------------------------------------------------------------------
  // The fixed-window limiter
  // ---------------------------------------------------------------------

  datatype Attempt = Attempt(ip: string, at: nat)

  function WindowOf(at: nat): nat {
    at / WINDOW
  }

  predicate Admits(kv: Kv, burst: int, a: Attempt) {
    Read(kv, LoginWindow(a.ip, WindowOf(a.at)), a.at) < burst
  }

  function Limited(kv: Kv, burst: int, a: Attempt): Kv {
    var k := LoginWindow(a.ip, WindowOf(a.at));
    if Admits(kv, burst, a) then Put(kv, k, Read(kv, k, a.at) + 1, a.at, LIMITER_TTL) else kv
  }

  function RunLimiter(trace: seq<Attempt>, burst: int): Kv {
    if trace == [] then map[] else Limited(RunLimiter(trace[..|trace| - 1], burst), burst, trace[|trace| - 1])
  }

  ghost predicate TimeOrdered(trace: seq<Attempt>) {
    forall i, j | 0 <= i < j < |trace| :: trace[i].at <= trace[j].at
  }

  /** How many attempts of this address in [lo, hi) the limiter admitted. */
  function Admitted(trace: seq<Attempt>, burst: int, ip: string, lo: int, hi: int): nat {
    if trace == [] then 0
    else
      var init, a := trace[..|trace| - 1], trace[|trace| - 1];
      Admitted(init, burst, ip, lo, hi)
      + if a.ip == ip && lo <= a.at < hi && Admits(RunLimiter(init, burst), burst, a) then 1 else 0
  }

  function Max0(n: int): nat {
    if n < 0 then 0 else n
  }

  lemma WindowBounds(at: nat, w: nat)
    ensures WindowOf(at) == w <==> w * WINDOW <= at < (w + 1) * WINDOW
  {
  }

  /**
   A live window's counter is exactly the number admitted in it: the 120 s expiry never loses it,
   and no window admits more than the burst.
   */
  lemma {:induction false} CounterIsCount(trace: seq<Attempt>, burst: int, ip: string, w: nat, now: nat)
    requires TimeOrdered(trace) && now < (w + 1) * WINDOW
    requires trace != [] ==> trace[|trace| - 1].at <= now
    ensures Read(RunLimiter(trace, burst), LoginWindow(ip, w), now) == Admitted(trace, burst, ip, w * WINDOW, (w + 1) * WINDOW)
    ensures Admitted(trace, burst, ip, w * WINDOW, (w + 1) * WINDOW) <= Max0(burst)
  {
    if trace != [] {
      var init, a := trace[..|trace| - 1], trace[|trace| - 1];
      CounterIsCount(init, burst, ip, w, now);
      WindowBounds(a.at, w);
      if a.ip == ip && WindowOf(a.at) == w {
        CounterIsCount(init, burst, ip, w, a.at);
      }
    }
  }

  /** The window's bound at the end of any run, however late. */
  lemma {:induction false} WindowAdmitsBurst(trace: seq<Attempt>, burst: int, ip: string, w: nat)
    requires TimeOrdered(trace)
    ensures Admitted(trace, burst, ip, w * WINDOW, (w + 1) * WINDOW) <= Max0(burst)
  {
    if trace != [] {
      var init, a := trace[..|trace| - 1], trace[|trace| - 1];
      if a.at < (w + 1) * WINDOW {
        CounterIsCount(trace, burst, ip, w, a.at);
      } else {
        WindowAdmitsBurst(init, burst, ip, w);
      }
    }
  }

  lemma {:induction false} AdmittedSplits(trace: seq<Attempt>, burst: int, ip: string, lo: int, mid: int, hi: int)
    requires lo <= mid <= hi
    ensures Admitted(trace, burst, ip, lo, hi) == Admitted(trace, burst, ip, lo, mid) + Admitted(trace, burst, ip, mid, hi)
  {
    if trace != [] {
      AdmittedSplits(trace[..|trace| - 1], burst, ip, lo, mid, hi);
    }
  }

  lemma {:induction false} WindowsAdmit(trace: seq<Attempt>, burst: int, ip: string, w: nat, n: nat)
    requires TimeOrdered(trace)
    ensures Admitted(trace, burst, ip, w * WINDOW, (w + n) * WINDOW) <= Max0(burst) * n
    decreases n
  {
    if n == 0 {
      EmptyInterval(trace, burst, ip, w * WINDOW);
    } else {
      WindowsAdmit(trace, burst, ip, w, n - 1);
      WindowAdmitsBurst(trace, burst, ip, w + n - 1);
      AdmittedSplits(trace, burst, ip, w * WINDOW, (w + n - 1) * WINDOW, (w + n) * WINDOW);
      assert Max0(burst) * n == Max0(burst) * (n - 1) + Max0(burst);
    }
  }

  lemma {:induction false} EmptyInterval(trace: seq<Attempt>, burst: int, ip: string, at: int)
    ensures Admitted(trace, burst, ip, at, at) == 0
  {
    if trace != [] { EmptyInterval(trace[..|trace| - 1], burst, ip, at); }
  }

  /** Any interval of `length` milliseconds admits at most one burst per window it can meet. */
  lemma IntervalBound(trace: seq<Attempt>, burst: int, ip: string, lo: nat, length: nat)
    requires TimeOrdered(trace) && length > 0
    ensures Admitted(trace, burst, ip, lo, lo + length) <= Max0(burst) * ((length - 1) / WINDOW + 2)
  {
    var first, last := lo / WINDOW, (lo + length - 1) / WINDOW;
    var n := last - first + 1;
    var from, to := first * WINDOW, (first + n) * WINDOW;
    assert from <= lo && lo + length <= to;
    AdmittedSplits(trace, burst, ip, from, lo, to);
    AdmittedSplits(trace, burst, ip, lo, lo + length, to);
    WindowsAdmit(trace, burst, ip, first, n);
    assert n <= (length - 1) / WINDOW + 2;
    MulMonotone(Max0(burst), n, (length - 1) / WINDOW + 2);
  }

  lemma MulMonotone(b: nat, x: nat, y: nat)
    requires x <= y
    ensures b * x <= b * y
  {
  }

  /** An attempt is refused exactly when its minute has already admitted the burst. */
  lemma RefusedIffFull(trace: seq<Attempt>, burst: nat, a: Attempt)
    requires TimeOrdered(trace) && forall b | b in trace :: b.at <= a.at
    ensures var minute := a.at / 60_000;
            !Admits(RunLimiter(trace, burst), burst, a) <==>
              Admitted(trace, burst, a.ip, minute * 60_000, (minute + 1) * 60_000) == burst
  {
    if trace != [] { assert trace[|trace| - 1] in trace; }
    WindowBounds(a.at, WindowOf(a.at));
    CounterIsCount(trace, burst, a.ip, WindowOf(a.at), a.at);
  }

  /** In particular at most two bursts in any half-open minute. */
  lemma AtMostTwoBurstsAMinute(trace: seq<Attempt>, burst: int, ip: string, lo: nat)
    requires TimeOrdered(trace)
    ensures Admitted(trace, burst, ip, lo, lo + 60_000) <= 2 * Max0(burst)
  {
    IntervalBound(trace, burst, ip, lo, WINDOW);
  }

  /** One burst just before a window's end and one at its beginning: two bursts do fit in a minute. */
  function Straddle(ip: string, burst: nat, n: nat): seq<Attempt> {
    seq(n, i => Attempt(ip, if i < burst then WINDOW - 1 else WINDOW))
  }

  lemma StraddleGrows(ip: string, burst: nat, n: nat)
    requires n > 0
    ensures Straddle(ip, burst, n)
            == Straddle(ip, burst, n - 1) + [Attempt(ip, if n - 1 < burst then WINDOW - 1 else WINDOW)]
  {
  }

  lemma StraddleOrdered(ip: string, burst: nat, n: nat)
    ensures TimeOrdered(Straddle(ip, burst, n))
    ensures forall a | a in Straddle(ip, burst, n) :: a.at <= if n <= burst then WINDOW - 1 else WINDOW
  {
  }

  lemma AdmittedAppend(trace: seq<Attempt>, a: Attempt, burst: int, ip: string, lo: int, hi: int)
    ensures Admitted(trace + [a], burst, ip, lo, hi)
            == Admitted(trace, burst, ip, lo, hi)
               + if a.ip == ip && lo <= a.at < hi && Admits(RunLimiter(trace, burst), burst, a) then 1 else 0
  {
    assert (trace + [a])[..|trace|] == trace;
  }

  /** A window that is not full admits the next attempt in it, and no other window counts that. */
  lemma AdmitsOneMore(trace: seq<Attempt>, a: Attempt, burst: nat, other: nat)
    requires TimeOrdered(trace) && forall b | b in trace :: b.at <= a.at
    requires var w := WindowOf(a.at); w != other && Admitted(trace, burst, a.ip, w * WINDOW, (w + 1) * WINDOW) < burst
    ensures var w := WindowOf(a.at);
            Admitted(trace + [a], burst, a.ip, w * WINDOW, (w + 1) * WINDOW)
            == Admitted(trace, burst, a.ip, w * WINDOW, (w + 1) * WINDOW) + 1
    ensures Admitted(trace + [a], burst, a.ip, other * WINDOW, (other + 1) * WINDOW)
            == Admitted(trace, burst, a.ip, other * WINDOW, (other + 1) * WINDOW)
  {
    var w := WindowOf(a.at);
    if trace != [] { assert trace[|trace| - 1] in trace; }
    WindowBounds(a.at, w);
    WindowBounds(a.at, other);
    CounterIsCount(trace, burst, a.ip, w, a.at);
    AdmittedAppend(trace, a, burst, a.ip, w * WINDOW, (w + 1) * WINDOW);
    AdmittedAppend(trace, a, burst, a.ip, other * WINDOW, (other + 1) * WINDOW);
  }

  /** Before the window ends. */
  lemma {:induction false} FirstBurst(ip: string, burst: nat, n: nat)
    requires n <= burst
    ensures Admitted(Straddle(ip, burst, n), burst, ip, 0, WINDOW) == n
    ensures Admitted(Straddle(ip, burst, n), burst, ip, WINDOW, 2 * WINDOW) == 0
    decreases n
  {
    if n > 0 {
      FirstBurst(ip, burst, n - 1);
      StraddleGrows(ip, burst, n);
      StraddleOrdered(ip, burst, n - 1);
      AdmitsOneMore(Straddle(ip, burst, n - 1), Attempt(ip, WINDOW - 1), burst, 1);
    }
  }

  /** When the next one begins. */
  lemma {:induction false} SecondBurst(ip: string, burst: nat, n: nat)
    requires burst <= n <= 2 * burst
    ensures Admitted(Straddle(ip, burst, n), burst, ip, 0, WINDOW) == burst
    ensures Admitted(Straddle(ip, burst, n), burst, ip, WINDOW, 2 * WINDOW) == n - burst
    decreases n
  {
    if n == burst {
      FirstBurst(ip, burst, n);
    } else {
      SecondBurst(ip, burst, n - 1);
      StraddleGrows(ip, burst, n);
      StraddleOrdered(ip, burst, n - 1);
      AdmitsOneMore(Straddle(ip, burst, n - 1), Attempt(ip, WINDOW), burst, 0);
    }
  }

  lemma TwoBurstsAMinuteHappen(ip: string, burst: nat)
    ensures exists trace :: TimeOrdered(trace) && Admitted(trace, burst, ip, WINDOW - 1, 2 * WINDOW - 1) == 2 * burst
  {
    var trace := Straddle(ip, burst, 2 * burst);
    var lo := WINDOW - 1;
    StraddleOrdered(ip, burst, 2 * burst);
    SecondBurst(ip, burst, 2 * burst);
    NoneOutside(trace, burst, ip);
    AdmittedSplits(trace, burst, ip, 0, lo, WINDOW);
    AdmittedSplits(trace, burst, ip, lo, WINDOW, lo + WINDOW);
    AdmittedSplits(trace, burst, ip, WINDOW, lo + WINDOW, 2 * WINDOW);
    assert Admitted(trace, burst, ip, WINDOW - 1, 2 * WINDOW - 1) == 2 * burst;
  }

  /** The straddling trace has nothing before the last millisecond of its first window or after the first of its second. */
  lemma {:induction false} NoneOutside(trace: seq<Attempt>, burst: nat, ip: string)
    requires forall a | a in trace :: WINDOW - 1 <= a.at <= WINDOW
    ensures Admitted(trace, burst, ip, 0, WINDOW - 1) == 0
    ensures Admitted(trace, burst, ip, 2 * WINDOW - 1, 2 * WINDOW) == 0
  {
    if trace != [] {
      assert trace[|trace| - 1] in trace;
      NoneOutside(trace[..|trace| - 1], burst, ip);
    }
  }

  // ---------------------------------------------------------------------
  // The per-account failure counter
  // ---------------------------------------------------------------------

  /** A credential check for an account; `fails` says the credentials are wrong. */
  datatype Login = Login(email: string, at: nat, fails: bool)

  predicate Blocked(kv: Kv, limit: int, email: string, at: int) {
    Read(kv, UserFailures(email), at) >= limit
  }

  /** Check first; only a failure that was not blocked is recorded. */
  function Tried(kv: Kv, limit: int, e: Login): Kv {
    var k := UserFailures(e.email);
    if Blocked(kv, limit, e.email, e.at) || !e.fails then kv
    else Put(kv, k, Read(kv, k, e.at) + 1, e.at, FAILURE_TTL)
  }

  function RunLogins(trace: seq<Login>, limit: int): Kv {
    if trace == [] then map[] else Tried(RunLogins(trace[..|trace| - 1], limit), limit, trace[|trace| - 1])
  }

  /** The times at which failures of this account were recorded. */
  function Recorded(trace: seq<Login>, limit: int, email: string): seq<nat> {
    if trace == [] then []
    else
      var init, e := trace[..|trace| - 1], trace[|trace| - 1];
      Recorded(init, limit, email)
      + if e.email == email && e.fails && !Blocked(RunLogins(init, limit), limit, email, e.at) then [e.at] else []
  }

  /** The latest chain of failures with gaps under 60 s, as seen from `now`. */
  function Chain(times: seq<nat>, now: int): nat {
    if times == [] || now - times[|times| - 1] >= FAILURE_TTL then 0
    else 1 + Chain(times[..|times| - 1], times[|times| - 1])
  }

  ghost predicate LoginsOrdered(trace: seq<Login>) {
    forall i, j | 0 <= i < j < |trace| :: trace[i].at <= trace[j].at
  }

  /** The stored counter refines the trace: it is the length of that chain, and never above the limit. */
  lemma {:induction false} FailureCounterIsChain(trace: seq<Login>, limit: int, email: string, now: nat)
    requires LoginsOrdered(trace) && (trace != [] ==> trace[|trace| - 1].at <= now)
    ensures Read(RunLogins(trace, limit), UserFailures(email), now) == Chain(Recorded(trace, limit, email), now)
    ensures Read(RunLogins(trace, limit), UserFailures(email), now) <= Max0(limit)
  {
    if trace != [] {
      var init, e := trace[..|trace| - 1], trace[|trace| - 1];
      FailureCounterIsChain(init, limit, email, now);
      var before, after := Recorded(init, limit, email), Recorded(trace, limit, email);
      if e.email == email && e.fails && !Blocked(RunLogins(init, limit), limit, email, e.at) {
        FailureCounterIsChain(init, limit, email, e.at);
        assert after == before + [e.at];
        assert after[..|after| - 1] == before;
      } else {
        assert after == before;
      }
    }
  }

  lemma {:induction false} RecordedAppend(trace: seq<Login>, e: Login, limit: int, email: string)
    ensures Recorded(trace + [e], limit, email) ==
            Recorded(trace, limit, email)
            + if e.email == email && e.fails && !Blocked(RunLogins(trace, limit), limit, email, e.at) then [e.at] else []
    ensures RunLogins(trace + [e], limit) == Tried(RunLogins(trace, limit), limit, e)
  {
    assert (trace + [e])[..|trace|] == trace;
  }

  /** When the latest recorded failure of the account happened. */
  ghost function LastFailure(trace: seq<Login>, limit: int, email: string): int
    requires Recorded(trace, limit, email) != []
  {
    Recorded(trace, limit, email)[|Recorded(trace, limit, email)| - 1]
  }

  lemma BlockedUntil(trace: seq<Login>, limit: int, email: string, now: nat, t: nat)
    requires limit > 0 && LoginsOrdered(trace) && (trace != [] ==> trace[|trace| - 1].at <= now) && now <= t
    requires Blocked(RunLogins(trace, limit), limit, email, now)
    ensures Recorded(trace, limit, email) != []
    ensures Blocked(RunLogins(trace, limit), limit, email, t) <==> t < LastFailure(trace, limit, email) + FAILURE_TTL
  {
    FailureCounterIsChain(trace, limit, email, now);
    FailureCounterIsChain(trace, limit, email, t);
  }

  /**
   A lockout ends 60 s after the last recorded failure, whatever is attempted meanwhile: until then every
   attempt is blocked and records nothing, and from then on no attempt is blocked.
   */
  lemma {:induction false} LockoutEnds(trace: seq<Login>, more: seq<Login>, limit: int, email: string, now: nat, t: nat)
    requires limit > 0 && LoginsOrdered(trace) && LoginsOrdered(trace + more)
    requires (trace != [] ==> trace[|trace| - 1].at <= now) && now <= t
    requires Blocked(RunLogins(trace, limit), limit, email, now)
    requires Recorded(trace, limit, email) != []
    requires forall e | e in more :: now <= e.at <= t && e.at < LastFailure(trace, limit, email) + FAILURE_TTL
    ensures Recorded(trace + more, limit, email) == Recorded(trace, limit, email)
    ensures Blocked(RunLogins(trace + more, limit), limit, email, t) <==> t < LastFailure(trace, limit, email) + FAILURE_TTL
    decreases |more|
  {
    if more == [] {
      assert trace + more == trace;
      BlockedUntil(trace, limit, email, now, t);
    } else {
      var init, e := more[..|more| - 1], more[|more| - 1];
      assert more == init + [e];
      var sofar := trace + init;
      assert trace + more == sofar + [e];
      OrderedPieces(trace, init, e);
      assert e in more;
      LockoutEnds(trace, init, limit, email, now, e.at);
      StillBlocked(sofar, e, limit, email);
      BlockedUntil(sofar + [e], limit, email, e.at, t);
    }
  }

  /** Failures of one account, each less than a minute after the one before. */
  ghost predicate QuickFailures(trace: seq<Login>, email: string) {
    && (forall e | e in trace :: e.email == email && e.fails)
    && forall i | 0 < i < |trace| :: trace[i - 1].at <= trace[i].at < trace[i - 1].at + 60_000
  }

  /** Up to the limit, every quick failure counts; and it is the limit-th that blocks, for a minute. */
  lemma {:induction false} QuickFailuresBlock(trace: seq<Login>, limit: nat, email: string, now: nat)
    requires 0 < |trace| <= limit && QuickFailures(trace, email) && trace[|trace| - 1].at <= now
    ensures Read(RunLogins(trace, limit), UserFailures(email), now)
         == if now < trace[|trace| - 1].at + 60_000 then |trace| else 0
    ensures Blocked(RunLogins(trace, limit), limit, email, now) <==>
              |trace| == limit && now < trace[|trace| - 1].at + 60_000
    decreases |trace|
  {
    var init, last := trace[..|trace| - 1], trace[|trace| - 1];
    QuickPrefix(trace, email);
    if init != [] {
      QuickFailuresBlock(init, limit, email, last.at);
    }
    RecordedOnce(RunLogins(init, limit), limit, last, |init|, now);
  }

  lemma QuickPrefix(trace: seq<Login>, email: string)
    requires trace != [] && QuickFailures(trace, email)
    ensures var init, last := trace[..|trace| - 1], trace[|trace| - 1];
            && QuickFailures(init, email) && last.email == email && last.fails
            && (init != [] ==> init[|init| - 1].at <= last.at < init[|init| - 1].at + 60_000)
  {
  }

  /** One failure on a counter below the limit. */
  lemma RecordedOnce(kv: Kv, limit: nat, e: Login, count: nat, now: nat)
    requires e.fails && count < limit && Read(kv, UserFailures(e.email), e.at) == count && e.at <= now
    ensures Read(Tried(kv, limit, e), UserFailures(e.email), now) == if now < e.at + 60_000 then count + 1 else 0
  {
  }

  lemma OrderedPieces(trace: seq<Login>, init: seq<Login>, e: Login)
    requires LoginsOrdered(trace + init + [e])
    ensures LoginsOrdered(trace + init)
    ensures forall x | x in init :: x.at <= e.at
  {
    var all := trace + init + [e];
    assert trace + init == all[..|all| - 1];
    forall x | x in init ensures x.at <= e.at {
      var k :| 0 <= k < |init| && init[k] == x;
      assert all[|trace| + k] == x && all[|all| - 1] == e;
    }
  }

  /** A blocked attempt changes nothing for its own account, nor does any attempt on another one. */
  lemma StillBlocked(trace: seq<Login>, e: Login, limit: int, email: string)
    requires Blocked(RunLogins(trace, limit), limit, email, e.at)
    ensures Blocked(RunLogins(trace + [e], limit), limit, email, e.at)
    ensures Recorded(trace + [e], limit, email) == Recorded(trace, limit, email)
  {
    RecordedAppend(trace, e, limit, email);
  }

  // ---------------------------------------------------------------------
  // The KV-backed limiters
  // ---------------------------------------------------------------------

  class KvStore {
    var kv: Kv

    method CheckLoginRateLimit(burst: int, ip: string, now: nat) returns (r: Outcome)
      modifies this
      ensures kv == Limited(old(kv), burst, Attempt(ip, now))
      ensures r.Done? <==> Admits(old(kv), burst, Attempt(ip, now))
    {
      var windowSeconds := 60;
      var key := LoginWindow(ip, now / 1000 / windowSeconds);
      assert now / 1000 / windowSeconds == WindowOf(now);
      var current := Read(kv, key, now);
      if current >= burst { return Failed("Too many requests. Try again later."); }
      kv := Put(kv, key, current + 1, now, windowSeconds * 2 * 1000);
      r := Done;
    }

    method CheckUserLoginFailureLimit(limit: int, email: string, now: nat) returns (r: Outcome)
      ensures r.Failed? <==> Blocked(kv, limit, email, now)
    {
      var current := Read(kv, UserFailures(email), now);
      if current >= limit { return Failed("Too many requests. Try again later."); }
      r := Done;
    }

    method RecordUserLoginFailure(email: string, now: nat)
      modifies this
      ensures kv == Put(old(kv), UserFailures(email), Read(old(kv), UserFailures(email), now) + 1, now, FAILURE_TTL)
    {
      var current := Read(kv, UserFailures(email), now);
      kv := Put(kv, UserFailures(email), current + 1, now, 60 * 1000);
    }

    /** The order shared by the password grant and the public two-factor endpoints. */
    method CheckCredentials(limit: int, email: string, now: nat, valid: bool) returns (r: Outcome)
      modifies this
      ensures kv == Tried(old(kv), limit, Login(email, now, !valid))
      ensures r.Done? <==> valid && !Blocked(old(kv), limit, email, now)
    {
      r := CheckUserLoginFailureLimit(limit, email, now);
      if r.Failed? { return; }
      if !valid {
        RecordUserLoginFailure(email, now);
        return Failed("Username or password is incorrect. Try again");
      }
    }
  }
}
