/** One counter with an expiry stands for the whole history of failures. */
module RateLimitHistory {
  import opened Wrappers
  import opened RateLimit

  /** The limiter's calls, each with the time at which it is made. */
  datatype Call = Record(ip: string, at: int) | Reset(ip: string, at: int) | Query(ip: string, at: int)

  ghost predicate Timed(calls: seq<Call>) {
    forall i, j :: 0 <= i < j < |calls| ==> calls[i].at <= calls[j].at
  }

  /** The store after the calls, from an empty store. */
  function After(calls: seq<Call>): Keyspace {
    if calls == [] then map[]
    else
      var keys, call := After(calls[..|calls| - 1]), calls[|calls| - 1];
      match call
      case Record(ip, at) => Recorded(keys, ip, at)
      case Reset(ip, _) => keys - {LoginKey(ip)}
      case Query(_, _) => keys
  }

  /** When the address failed to log in since its last reset, oldest first. */
  function Failures(calls: seq<Call>, ip: string): seq<int> {
    if calls == [] then []
    else
      var before, call := Failures(calls[..|calls| - 1], ip), calls[|calls| - 1];
      if call.Record? && call.ip == ip then before + [call.at]
      else if call.Reset? && call.ip == ip then []
      else before
  }

  const FIFTEEN_MINUTES := 900_000

  /** The address is locked out at time t: five failures since the last reset, each under 15 minutes after the
      one before it, and the latest under 15 minutes ago. */
  ghost predicate LockedOut(failures: seq<int>, t: int) {
    var n := |failures|;
    && n >= 5
    && t - failures[n - 1] < FIFTEEN_MINUTES
    && forall i :: n - 5 < i < n ==> failures[i] - failures[i - 1] < FIFTEEN_MINUTES
  }

  /** How many failures at the end follow each other with gaps under 15 minutes. */
  function Streak(failures: seq<int>): nat {
    var n := |failures|;
    if n <= 1 then n
    else if failures[n - 1] - failures[n - 2] < LOCKOUT then Streak(failures[..n - 1]) + 1
    else 1
  }

  lemma {:induction false} StreakAtLeast(failures: seq<int>, k: nat)
    requires k >= 1
    ensures Streak(failures) >= k <==>
            && |failures| >= k
            && forall i :: |failures| - k < i < |failures| ==> failures[i] - failures[i - 1] < LOCKOUT
  {
    var n := |failures|;
    if n > 1 && k > 1 {
      var init := failures[..n - 1];
      StreakAtLeast(init, k - 1);
      assert forall i :: 0 <= i < n - 1 ==> init[i] == failures[i];
    }
  }

  lemma KeysDiffer(ip: string, other: string)
    requires ip != other
    ensures LoginKey(ip) != LoginKey(other)
  {
    var prefix := "nexus:rate:login:";
    assert LoginKey(ip)[|prefix|..] == ip && LoginKey(other)[|prefix|..] == other;
  }

  /** What the store holds for an address with the given failures. */
  ghost predicate Stands(keys: Keyspace, key: string, failures: seq<int>) {
    if failures == [] then key !in keys
    else key in keys && keys[key] == Counter(Streak(failures), Some(failures[|failures| - 1] + LOCKOUT))
  }

  lemma RecordGoesOn(keys: Keyspace, ip: string, failures: seq<int>, at: int)
    requires Stands(keys, LoginKey(ip), failures)
    ensures Stands(Recorded(keys, ip, at), LoginKey(ip), failures + [at])
  {
    assert (failures + [at])[..|failures|] == failures;
  }

  lemma OthersDoNotCount(keys: Keyspace, key: string, other: string, at: int)
    requires key != LoginKey(other)
    ensures key in Recorded(keys, other, at) <==> key in keys
    ensures key in keys ==> Recorded(keys, other, at)[key] == keys[key]
  {
  }

  /** The stored counter is the streak, and its expiry is 15 minutes after the latest failure. */
  lemma {:induction false} CounterIsStreak(calls: seq<Call>, ip: string)
    ensures Stands(After(calls), LoginKey(ip), Failures(calls, ip))
  {
    if calls != [] {
      var init, call := calls[..|calls| - 1], calls[|calls| - 1];
      CounterIsStreak(init, ip);
      if call.ip != ip {
        KeysDiffer(call.ip, ip);
        OthersDoNotCount(After(init), LoginKey(ip), call.ip, call.at);
      } else if call.Record? {
        RecordGoesOn(After(init), ip, Failures(init, ip), call.at);
      }
    }
  }

  /** After any run of the limiter's calls, for any addresses, IsRateLimited at time t answers from one
      counter exactly what the whole failure history says. The clock need not even be monotone. */
  lemma LimitedIffLockedOut(calls: seq<Call>, ip: string, t: int)
    ensures Limited(After(calls), ip, t) <==> LockedOut(Failures(calls, ip), t)
  {
    CounterIsStreak(calls, ip);
    StreakAtLeast(Failures(calls, ip), 5);
  }

  /** Up to four failures since the last reset never stop the address. */
  lemma FourFailuresPass(calls: seq<Call>, ip: string, t: int)
    requires |Failures(calls, ip)| <= 4
    ensures !Limited(After(calls), ip, t)
  {
    LimitedIffLockedOut(calls, ip, t);
  }

  /** A gap of 15 minutes or more among the last five failures lets the address pass. */
  lemma WideGapPasses(calls: seq<Call>, ip: string, i: nat, t: int)
    requires var failures := Failures(calls, ip);
             |failures| >= 5 && |failures| - 5 < i < |failures| && failures[i] - failures[i - 1] >= 900_000
    ensures !Limited(After(calls), ip, t)
  {
    LimitedIffLockedOut(calls, ip, t);
  }

  /** Five failures close together stop it for 15 minutes from the last one on. */
  lemma FiveCloseFailuresStop(calls: seq<Call>, ip: string, t: int)
    requires var failures := Failures(calls, ip);
             |failures| >= 5 && forall i :: |failures| - 5 < i < |failures| ==> failures[i] - failures[i - 1] < 900_000
    ensures Limited(After(calls), ip, t) <==> t - Failures(calls, ip)[|Failures(calls, ip)| - 1] < 900_000
  {
    LimitedIffLockedOut(calls, ip, t);
  }

  /** The flag that RecordFailedLogin returns for one more failure: up from the fifth close failure on. */
  lemma FlagOnTheFifth(calls: seq<Call>, ip: string, at: int)
    ensures var failures := Failures(calls, ip);
            var n := |failures|;
            Limited(Recorded(After(calls), ip, at), ip, at) <==>
              && n >= 4 && at - failures[n - 1] < 900_000
              && forall i :: n - 4 < i < n ==> failures[i] - failures[i - 1] < 900_000
  {
    var more := calls + [Record(ip, at)];
    assert more[..|calls|] == calls;
    LimitedIffLockedOut(more, ip, at);
    var failures := Failures(calls, ip);
    var n := |failures|;
    var extended := failures + [at];
    assert Failures(more, ip) == extended;
    assert forall i :: 0 <= i < n ==> extended[i] == failures[i];
    assert n >= 4 ==> extended[n] - extended[n - 1] == at - failures[n - 1];
  }

  // ---------------------------------------------------------------- against a sliding window

  /** How many of the failures lie in the 15 minutes before t. */
  function InWindow(failures: seq<int>, t: int): nat {
    if failures == [] then 0
    else InWindow(failures[..|failures| - 1], t) + if t - failures[|failures| - 1] < FIFTEEN_MINUTES then 1 else 0
  }

  ghost predicate Ordered(failures: seq<int>, t: int) {
    && (forall i, j :: 0 <= i < j < |failures| ==> failures[i] <= failures[j])
    && (forall i :: 0 <= i < |failures| ==> failures[i] <= t)
  }

  lemma {:induction false} FailuresAreOrdered(calls: seq<Call>, ip: string, t: int)
    requires Timed(calls) && (calls != [] ==> calls[|calls| - 1].at <= t)
    ensures Ordered(Failures(calls, ip), t)
  {
    if calls != [] {
      FailuresAreOrdered(calls[..|calls| - 1], ip, calls[|calls| - 1].at);
    }
  }

  lemma {:induction false} WindowAtLeast(failures: seq<int>, t: int, k: nat)
    requires Ordered(failures, t) && k >= 1
    ensures InWindow(failures, t) >= k <==> |failures| >= k && t - failures[|failures| - k] < FIFTEEN_MINUTES
  {
    var n := |failures|;
    if n > 0 {
      var init := failures[..n - 1];
      WindowAtLeast(init, t, k);
      if k > 1 {
        WindowAtLeast(init, t, k - 1);
      }
    }
  }

  /** The fifth latest failure is under 15 minutes old. */
  predicate FifthIsYoung(failures: seq<int>, t: int)
    requires |failures| >= 5
  {
    t - failures[|failures| - 5] < FIFTEEN_MINUTES
  }

  lemma FullWindowLocksOut(failures: seq<int>, t: int)
    requires Ordered(failures, t)
    ensures InWindow(failures, t) >= 5 <==> LockedOut(failures, t) && FifthIsYoung(failures, t)
  {
    WindowAtLeast(failures, t, 5);
  }

  /** The repository describes a sliding window of five failures in 15 minutes. Whenever it is full the limiter says
      yes; and the two agree exactly when the fifth latest failure of an address that is locked out is young. */
  lemma WindowAgainstLimiter(calls: seq<Call>, ip: string, t: int)
    requires Timed(calls) && (calls != [] ==> calls[|calls| - 1].at <= t)
    ensures var failures := Failures(calls, ip);
            var full, limited := InWindow(failures, t) >= 5, Limited(After(calls), ip, t);
            && (full ==> limited)
            && (full <==> LockedOut(failures, t) && FifthIsYoung(failures, t))
            && ((limited <==> full) <==> (LockedOut(failures, t) ==> FifthIsYoung(failures, t)))
  {
    LimitedIffLockedOut(calls, ip, t);
    FailuresAreOrdered(calls, ip, t);
    FullWindowLocksOut(Failures(calls, ip), t);
  }

  /** Milliseconds of five failures at intervals of 14 minutes. */
  const SLOW_TIMES: seq<int> := [0, 840_000, 1_680_000, 2_520_000, 3_360_000]

  function SlowRun(ip: string): (calls: seq<Call>) {
    seq(5, i requires 0 <= i < 5 => Record(ip, SLOW_TIMES[i]))
  }

  lemma {:induction false} SlowFailures(ip: string, n: nat)
    requires n <= 5
    ensures Failures(SlowRun(ip)[..n], ip) == SLOW_TIMES[..n]
  {
    if n > 0 {
      SlowFailures(ip, n - 1);
      assert SlowRun(ip)[..n][..n - 1] == SlowRun(ip)[..n - 1];
      assert SLOW_TIMES[..n] == SLOW_TIMES[..n - 1] + [SLOW_TIMES[n - 1]];
    }
  }

  lemma SlowWindow(ip: string, n: nat, t: int)
    requires n <= 5 && (n > 0 ==> SLOW_TIMES[n - 1] <= t)
    ensures InWindow(Failures(SlowRun(ip)[..n], ip), t) <= 2
  {
    SlowFailures(ip, n);
    SlowTimesAreSparse(n, t);
    WindowAtLeast(SLOW_TIMES[..n], t, 3);
  }

  lemma SlowTimesAreSparse(n: nat, t: int)
    requires n <= 5 && (n > 0 ==> SLOW_TIMES[n - 1] <= t)
    ensures Ordered(SLOW_TIMES[..n], t) && (n >= 3 ==> t - SLOW_TIMES[n - 3] >= FIFTEEN_MINUTES)
  {
    assert forall i, j :: 0 <= i < j < 5 ==> SLOW_TIMES[i] <= SLOW_TIMES[j];
  }

  /** Five failures at intervals of 14 minutes lock the address out although at no time of that run do more than two
      of the failures made so far lie in the last 15 minutes. */
  lemma SlowFailuresAreLimited(ip: string)
    ensures var calls := SlowRun(ip);
            && Timed(calls) && Limited(After(calls), ip, calls[4].at)
            && forall n: nat, t: int :: n <= 5 && (n > 0 ==> calls[n - 1].at <= t) ==>
                 InWindow(Failures(calls[..n], ip), t) <= 2
  {
    var calls := SlowRun(ip);
    forall n: nat, t: int | n <= 5 && (n > 0 ==> calls[n - 1].at <= t)
      ensures InWindow(Failures(calls[..n], ip), t) <= 2
    {
      SlowWindow(ip, n, t);
    }
    SlowRunIsLimited(ip);
    assert forall i, j :: 0 <= i < j < 5 ==> SLOW_TIMES[i] <= SLOW_TIMES[j];
  }

  lemma SlowRunIsLimited(ip: string)
    ensures Limited(After(SlowRun(ip)), ip, SlowRun(ip)[4].at)
  {
    SlowFailures(ip, 5);
    assert SlowRun(ip)[..5] == SlowRun(ip) && SLOW_TIMES[..5] == SLOW_TIMES;
    LimitedIffLockedOut(SlowRun(ip), ip, SlowRun(ip)[4].at);
  }
}
