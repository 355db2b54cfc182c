// The token watcher: it looks at the held token once a minute, renews it near its end, and gives up after five failed
// attempts in a row. What the network does is an input: a script of attempts.
module Auth {
  import opened Wrappers

  /** In seconds. */
  const TOKEN_REFRESH_MARGIN := 120
  const TOKEN_REFRESH_WATCH_DELAY := 60.0
  const TOKEN_RELOGIN_WAITING := 10.0

  const MAX_RELOGIN_ATTEMPTS := 5

  /** A token from the server: how long before its arrival it was issued, and how long it lives from then on. */
  datatype Issued = Issued(lag: real, lifetime: real)

  /** What the outside does during one attempt: the delay and outcome of the expiration check, of a refresh and of a
      login, as far as they are tried. */
  datatype Attempt = Attempt(
    checkDelay: real, checkOk: bool,
    refreshDelay: real, refresh: Option<Issued>,
    loginDelay: real, login: Option<Issued>
  )

  /** The time, the expiry of the held token, and whether a held token has ever been expired so far. */
  datatype Clock = Clock(now: real, expiry: real, lapsed: bool)

  function Elapse(c: Clock, seconds: real): Clock {
    Clock(c.now + seconds, c.expiry, c.lapsed || c.now + seconds >= c.expiry)
  }

  function Store(c: Clock, token: Issued): Clock {
    var expiry := c.now - token.lag + token.lifetime;
    Clock(c.now, expiry, c.lapsed || c.now >= expiry)
  }

  /** Whole seconds until the token expires; negative after that. */
  function ExpiresIn(c: Clock): int {
    (c.expiry - c.now).Floor
  }

  /** The clock after an attempt, and whether it succeeded. */
  function Tried(c: Clock, a: Attempt): (Clock, bool) {
    var checked := Elapse(c, a.checkDelay);
    if !a.checkOk then (checked, false)
    else if ExpiresIn(checked) > TOKEN_REFRESH_MARGIN then (checked, true)
    else
      var answered := Elapse(checked, a.refreshDelay);
      if a.refresh.Some? then (Store(answered, a.refresh.value), true)
      else
        var loggedIn := Elapse(answered, a.loginDelay);
        if a.login.Some? then (Store(loggedIn, a.login.value), true) else (loggedIn, false)
  }

  /** `Running` when the script ends with `cnt` failures in the current round. */
  datatype Outcome = Running(clock: Clock, cnt: nat) | Stopped(clock: Clock)

  function Service(c: Clock, script: seq<Attempt>, cnt: nat): Outcome
    decreases |script|
  {
    if script == [] then Running(c, cnt)
    else
      var (after, ok) := Tried(c, script[0]);
      if ok then Service(Elapse(after, TOKEN_REFRESH_WATCH_DELAY), script[1..], 0)
      else
        var waited := Elapse(after, TOKEN_RELOGIN_WAITING);
        if cnt + 1 >= MAX_RELOGIN_ATTEMPTS then Stopped(waited) else Service(waited, script[1..], cnt + 1)
  }

  class Authenticator {
    var clock: Clock

    constructor (clock: Clock)
      ensures this.clock == clock
    {
      this.clock := clock;
    }

    method Sleep(seconds: real)
      modifies this
      ensures clock == Elapse(old(clock), seconds)
    {
      clock := Elapse(clock, seconds);
    }

    method Login(delay: real, token: Option<Issued>) returns (ok: bool)
      modifies this
      ensures ok == token.Some?
      ensures clock == if ok then Store(Elapse(old(clock), delay), token.value) else Elapse(old(clock), delay)
    {
      Sleep(delay);
      if token.None? {
        return false;
      }
      clock := Store(clock, token.value);
      ok := true;
    }

    method RefreshOrLogin(a: Attempt) returns (ok: bool)
      modifies this
      ensures (clock, ok) == Tried(old(clock), a)
    {
      Sleep(a.checkDelay);
      if !a.checkOk {
        return false;
      }
      var expiresIn := ExpiresIn(clock);
      if expiresIn <= TOKEN_REFRESH_MARGIN {
        Sleep(a.refreshDelay);
        if a.refresh.Some? {
          clock := Store(clock, a.refresh.value);
          return true;
        }
        ok := Login(a.loginDelay, a.login);
        return ok;
      }
      ok := true;
    }

    /** The nested loop of the service, up to the end of the script or the service's own end. */
    method AuthService(script: seq<Attempt>) returns (outcome: Outcome)
      modifies this
      ensures outcome == Service(old(clock), script, 0) && outcome.clock == clock
    {
      var i := 0;
      while i < |script|
        invariant i <= |script|
        invariant Service(old(clock), script, 0) == Service(clock, script[i..], 0)
        decreases |script| - i
      {
        var cnt := 0;
        ghost var first := i;
        while cnt < MAX_RELOGIN_ATTEMPTS
          invariant first <= i <= |script| && cnt == i - first <= MAX_RELOGIN_ATTEMPTS
          invariant Service(old(clock), script, 0) ==
                    if cnt == MAX_RELOGIN_ATTEMPTS then Stopped(clock) else Service(clock, script[i..], cnt)
          decreases MAX_RELOGIN_ATTEMPTS - cnt
        {
          if i == |script| {
            return Running(clock, cnt);
          }
          assert script[i..][1..] == script[i + 1..];
          var ok := RefreshOrLogin(script[i]);
          i := i + 1;
          if ok {
            break;
          }
          cnt := cnt + 1;
          Sleep(TOKEN_RELOGIN_WAITING);
        }
        if cnt == MAX_RELOGIN_ATTEMPTS {
          return Stopped(clock);
        }
        Sleep(TOKEN_REFRESH_WATCH_DELAY);
      }
      outcome := Running(clock, 0);
    }
  }

  // ---------- One attempt in plain numbers ----------

  /** What an attempt finds and leaves: the time, and when the held token expires. */
  datatype Moment = Moment(now: real, expiry: real)

  function MomentOf(c: Clock): Moment {
    Moment(c.now, c.expiry)
  }

  /** After the check at least 121 seconds are left, more than the margin in whole seconds. */
  predicate EnoughAtCheck(m: Moment, a: Attempt) {
    m.expiry - (m.now + a.checkDelay) >= 121.0
  }

  /** An attempt succeeds if the check does and the token lasts, or the refresh or else the login brings a new one. */
  predicate Succeeds(m: Moment, a: Attempt) {
    a.checkOk && (EnoughAtCheck(m, a) || a.refresh.Some? || a.login.Some?)
  }

  /** The time after an attempt: every delay that was waited, and no other. */
  function TimeAfter(m: Moment, a: Attempt): real {
    var checked := m.now + a.checkDelay;
    if !a.checkOk || EnoughAtCheck(m, a) then checked
    else if a.refresh.Some? then checked + a.refreshDelay
    else checked + a.refreshDelay + a.loginDelay
  }

  /** The expiry after an attempt: that of the refreshed token, else of the one logged in for, else the old one. */
  function ExpiryAfter(m: Moment, a: Attempt): real {
    if !a.checkOk || EnoughAtCheck(m, a) then m.expiry
    else if a.refresh.Some? then TimeAfter(m, a) - a.refresh.value.lag + a.refresh.value.lifetime
    else if a.login.Some? then TimeAfter(m, a) - a.login.value.lag + a.login.value.lifetime
    else m.expiry
  }

  /** The held token has been expired at some time if it was before, or was at the end of the attempt, or the new one was
      when it came. */
  lemma AttemptInPlainNumbers(c: Clock, a: Attempt)
    ensures var (after, ok) := Tried(c, a);
            && (ok <==> Succeeds(MomentOf(c), a))
            && after.now == TimeAfter(MomentOf(c), a) && after.expiry == ExpiryAfter(MomentOf(c), a)
            && (a.checkDelay >= 0.0 && a.refreshDelay >= 0.0 && a.loginDelay >= 0.0 ==>
                  (after.lapsed <==> c.lapsed || after.now >= c.expiry || after.now >= after.expiry))
  {
  }

  /** The outcome of every attempt of the script, one after the other: a minute after a success, ten seconds after a
      failure. */
  function Results(m: Moment, script: seq<Attempt>): seq<bool>
    decreases |script|
  {
    if script == [] then []
    else
      var ok := Succeeds(m, script[0]);
      var pause := if ok then 60.0 else 10.0;
      [ok] + Results(Moment(TimeAfter(m, script[0]) + pause, ExpiryAfter(m, script[0])), script[1..])
  }

  // ---------- When the service fails ----------

  predicate FailedFrom(results: seq<bool>, i: nat) {
    i + 5 <= |results| && forall j :: i <= j < i + 5 ==> !results[j]
  }

  ghost predicate FiveFailedInARow(results: seq<bool>) {
    exists i: nat :: FailedFrom(results, i)
  }

  function Failures(n: nat): seq<bool> {
    seq(n, _ => false)
  }

  lemma SuccessSeparates(n: nat, results: seq<bool>)
    requires n < MAX_RELOGIN_ATTEMPTS
    ensures FiveFailedInARow(Failures(n) + ([true] + results)) <==> FiveFailedInARow(results)
  {
    var all := Failures(n) + ([true] + results);
    assert all[n];
    assert forall j :: 0 <= j < |results| ==> results[j] == all[n + 1 + j];
    if FiveFailedInARow(results) {
      var i: nat :| FailedFrom(results, i);
      assert forall j :: n + 1 + i <= j < n + 1 + i + MAX_RELOGIN_ATTEMPTS ==> all[j] == results[j - n - 1];
      assert FailedFrom(all, n + 1 + i);
    }
    if FiveFailedInARow(all) {
      var i: nat :| FailedFrom(all, i);
      assert i > n;
      assert FailedFrom(results, i - n - 1);
    }
  }

  lemma {:induction false} StopsIffWithCount(c: Clock, script: seq<Attempt>, cnt: nat)
    requires cnt < MAX_RELOGIN_ATTEMPTS
    ensures Service(c, script, cnt).Stopped? <==> FiveFailedInARow(Failures(cnt) + Results(MomentOf(c), script))
    decreases |script|
  {
    if script != [] {
      var (after, ok) := Tried(c, script[0]);
      AttemptInPlainNumbers(c, script[0]);
      if ok {
        var woken := Elapse(after, TOKEN_REFRESH_WATCH_DELAY);
        StopsIffWithCount(woken, script[1..], 0);
        assert Failures(0) + Results(MomentOf(woken), script[1..]) == Results(MomentOf(woken), script[1..]);
        SuccessSeparates(cnt, Results(MomentOf(woken), script[1..]));
      } else if cnt + 1 >= MAX_RELOGIN_ATTEMPTS {
        assert FailedFrom(Failures(cnt) + Results(MomentOf(c), script), 0);
      } else {
        var waited := Elapse(after, TOKEN_RELOGIN_WAITING);
        StopsIffWithCount(waited, script[1..], cnt + 1);
        assert Failures(cnt) + ([false] + Results(MomentOf(waited), script[1..]))
            == Failures(cnt + 1) + Results(MomentOf(waited), script[1..]);
      }
    }
  }

  /** The service ends iff five attempts in a row fail; any success starts the count again. */
  lemma StopsIffFiveFailInARow(c: Clock, script: seq<Attempt>)
    ensures Service(c, script, 0).Stopped? <==> FiveFailedInARow(Results(MomentOf(c), script))
  {
    StopsIffWithCount(c, script, 0);
    assert Failures(0) + Results(MomentOf(c), script) == Results(MomentOf(c), script);
  }

  // ---------- When the token stays fresh ----------

  predicate GoodToken(token: Option<Issued>, delay: real) {
    token.Some? ==> 0.0 <= token.value.lag <= delay && token.value.lifetime >= 120.0
  }

  /** An attempt takes at most `d` seconds, and a token it brings was issued after it was asked for and lives for two
      minutes or more. */
  predicate Quick(a: Attempt, d: real) {
    && a.checkDelay >= 0.0 && a.refreshDelay >= 0.0 && a.loginDelay >= 0.0
    && a.checkDelay + a.refreshDelay + a.loginDelay <= d
    && GoodToken(a.refresh, a.refreshDelay) && GoodToken(a.login, a.loginDelay)
  }

  predicate AllQuick(script: seq<Attempt>, d: real) {
    forall i :: 0 <= i < |script| ==> Quick(script[i], d)
  }

  /** The longest time from an attempt with `cnt` failures before it to the end of the round's last attempt. */
  function RoundLeft(cnt: nat, d: real): real
    requires cnt < MAX_RELOGIN_ATTEMPTS
    decreases MAX_RELOGIN_ATTEMPTS - cnt
  {
    if cnt == MAX_RELOGIN_ATTEMPTS - 1 then d else d + TOKEN_RELOGIN_WAITING + RoundLeft(cnt + 1, d)
  }

  ghost predicate EnoughLeft(c: Clock, cnt: nat, d: real)
    requires cnt < MAX_RELOGIN_ATTEMPTS
  {
    !c.lapsed && c.expiry - c.now > RoundLeft(cnt, d)
  }

  lemma WholeRound(d: real)
    ensures RoundLeft(0, d) == 40.0 + 5.0 * d
  {
    assert RoundLeft(4, d) == d;
    assert RoundLeft(3, d) == 2.0 * d + 10.0;
    assert RoundLeft(2, d) == 3.0 * d + 20.0;
    assert RoundLeft(1, d) == 4.0 * d + 30.0;
  }

  lemma RoundLeftAtLeast(cnt: nat, d: real)
    requires cnt < MAX_RELOGIN_ATTEMPTS && d >= 0.0
    ensures RoundLeft(cnt, d) >= d
    decreases MAX_RELOGIN_ATTEMPTS - cnt
  {
    if cnt < MAX_RELOGIN_ATTEMPTS - 1 { RoundLeftAtLeast(cnt + 1, d); }
  }

  /** A successful attempt leaves a token with at least 120 - `d` seconds; a failed one the old token. */
  lemma AfterAttempt(c: Clock, a: Attempt, d: real)
    requires Quick(a, d) && 6.0 * d < 20.0 && !c.lapsed && c.expiry - c.now > d
    ensures var (after, ok) := Tried(c, a);
            && !after.lapsed
            && (if ok then after.expiry - after.now >= 120.0 - d
                else after.expiry == c.expiry && after.now <= c.now + d)
  {
  }

  /** If every attempt is quick, 6 `d` is below 20 seconds and the service goes on, the held token has never been expired:
      not while it was waited, not when it was replaced. */
  lemma {:induction false} TokenStaysFresh(c: Clock, script: seq<Attempt>, cnt: nat, d: real)
    requires 0.0 <= 6.0 * d < 20.0 && AllQuick(script, d)
    requires cnt < MAX_RELOGIN_ATTEMPTS && EnoughLeft(c, cnt, d)
    ensures Service(c, script, cnt).Running? ==> !Service(c, script, cnt).clock.lapsed
    decreases |script|
  {
    if script != [] {
      var (after, ok) := Tried(c, script[0]);
      RoundLeftAtLeast(cnt, d);
      AfterAttempt(c, script[0], d);
      if ok {
        WholeRound(d);
        TokenStaysFresh(Elapse(after, TOKEN_REFRESH_WATCH_DELAY), script[1..], 0, d);
      } else if cnt + 1 < MAX_RELOGIN_ATTEMPTS {
        RoundLeftAtLeast(cnt + 1, d);
        TokenStaysFresh(Elapse(after, TOKEN_RELOGIN_WAITING), script[1..], cnt + 1, d);
      }
    }
  }

  /** From a login of two minutes or more. */
  lemma FreshAfterLogin(start: real, lifetime: real, script: seq<Attempt>, d: real)
    requires 0.0 <= 6.0 * d < 20.0 && AllQuick(script, d)
    requires lifetime >= 120.0
    ensures var outcome := Service(Clock(start, start + lifetime, false), script, 0);
            outcome.Running? ==> !outcome.clock.lapsed
  {
    WholeRound(d);
    TokenStaysFresh(Clock(start, start + lifetime, false), script, 0, d);
  }

  // ---------- And when it does not ----------

  function Renewing(d: real): Attempt {
    Attempt(0.0, true, d, Some(Issued(d, 120.0)), 0.0, None)
  }

  function Failing(d: real): Attempt {
    Attempt(d, false, 0.0, None, 0.0, None)
  }

  lemma OneFailure(c: Clock, rest: seq<Attempt>, cnt: nat, d: real)
    requires cnt < MAX_RELOGIN_ATTEMPTS - 1 && d >= 0.0
    ensures var next := Elapse(Elapse(c, d), TOKEN_RELOGIN_WAITING);
            && Service(c, [Failing(d)] + rest, cnt) == Service(next, rest, cnt + 1)
            && next.now == c.now + d + 10.0 && next.expiry == c.expiry
  {
    assert ([Failing(d)] + rest)[1..] == rest;
  }

  lemma OneRenewal(c: Clock, rest: seq<Attempt>, cnt: nat, d: real)
    requires c.expiry - c.now <= 120.0 && d >= 0.0
    ensures var next := Elapse(Store(Elapse(Elapse(c, 0.0), d), Issued(d, 120.0)), TOKEN_REFRESH_WATCH_DELAY);
            && Service(c, [Renewing(d)] + rest, cnt) == Service(next, rest, 0)
            && next.now == c.now + d + 60.0 && next.expiry == c.now + 120.0
            && (c.now + d >= c.expiry ==> next.lapsed)
  {
    assert ([Renewing(d)] + rest)[1..] == rest;
    assert ExpiresIn(Elapse(c, 0.0)) <= TOKEN_REFRESH_MARGIN;
  }

  /** The bound is exact: from 6 `d` = 20 seconds on, a renewal followed by a round of four failures and a success, every
      attempt as quick as before, lets the token expire. */
  lemma SlowAttemptsLetTokenExpire(d: real) returns (script: seq<Attempt>)
    requires 6.0 * d >= 20.0
    ensures AllQuick(script, d)
    ensures var outcome := Service(Clock(0.0, 120.0, false), script, 0);
            outcome.Running? && outcome.clock.lapsed
  {
    var last := [Renewing(d)] + [];
    var two := [Failing(d)] + last;
    var three := [Failing(d)] + two;
    var four := [Failing(d)] + three;
    var five := [Failing(d)] + four;
    script := [Renewing(d)] + five;
    var c0 := Clock(0.0, 120.0, false);
    OneRenewal(c0, five, 0, d);
    var c1 := Elapse(Store(Elapse(Elapse(c0, 0.0), d), Issued(d, 120.0)), TOKEN_REFRESH_WATCH_DELAY);
    OneFailure(c1, four, 0, d);
    var c2 := Elapse(Elapse(c1, d), TOKEN_RELOGIN_WAITING);
    OneFailure(c2, three, 1, d);
    var c3 := Elapse(Elapse(c2, d), TOKEN_RELOGIN_WAITING);
    OneFailure(c3, two, 2, d);
    var c4 := Elapse(Elapse(c3, d), TOKEN_RELOGIN_WAITING);
    OneFailure(c4, last, 3, d);
    var c5 := Elapse(Elapse(c4, d), TOKEN_RELOGIN_WAITING);
    OneRenewal(c5, [], 4, d);
  }

  /** As long as the service goes on after a login, the held token is never expired. */
  predicate FreshRun(start: real, lifetime: real, script: seq<Attempt>) {
    var outcome := Service(Clock(start, start + lifetime, false), script, 0);
    outcome.Running? ==> !outcome.clock.lapsed
  }

  ghost predicate AlwaysFresh(d: real) {
    forall start, lifetime, script ::
      lifetime >= 120.0 && AllQuick(script, d) ==> FreshRun(start, lifetime, script)
  }

  /** The delays of the watcher fit attempts of less than 20 / 6 seconds, and no others. */
  lemma AlwaysFreshIffQuickEnough(d: real)
    requires d >= 0.0
    ensures AlwaysFresh(d) <==> 6.0 * d < 20.0
  {
    if 6.0 * d < 20.0 {
      forall start, lifetime, script | lifetime >= 120.0 && AllQuick(script, d)
        ensures FreshRun(start, lifetime, script)
      {
        FreshAfterLogin(start, lifetime, script, d);
      }
    } else {
      var script := SlowAttemptsLetTokenExpire(d);
      assert 0.0 + 120.0 == 120.0;
      assert !FreshRun(0.0, 120.0, script);
    }
  }
}
