/** INCR and EXPIRE are two commands: other clients' commands, and time, can come between them. */
module RateLimitInterleaving {
  import opened Wrappers
  import opened RateLimit

  /** The store, its clock, and the recorders whose INCR has run and whose EXPIRE has not, with their keys. */
  datatype System = System(keys: Keyspace, now: int, pending: map<nat, string>)

  datatype Command =
    | IncrOf(recorder: nat, ip: string)
    | ExpireOf(recorder: nat)
    | DelOf(ip: string)
    | Tick(to: int)

  predicate Enabled(s: System, c: Command) {
    match c
    case IncrOf(r, _) => r !in s.pending
    case ExpireOf(r) => r in s.pending
    case DelOf(_) => true
    case Tick(to) => s.now <= to
  }

  function Run(s: System, c: Command): System
    requires Enabled(s, c)
  {
    match c
    case IncrOf(r, ip) => s.(keys := Incr(s.keys, LoginKey(ip), s.now), pending := s.pending[r := LoginKey(ip)])
    case ExpireOf(r) => s.(keys := Expire(s.keys, s.pending[r], s.now, LOCKOUT), pending := s.pending - {r})
    case DelOf(ip) => s.(keys := s.keys - {LoginKey(ip)})
    case Tick(to) => s.(now := to)
  }

  predicate AllEnabled(s: System, cs: seq<Command>)
    decreases |cs|
  {
    cs == [] || (Enabled(s, cs[0]) && AllEnabled(Run(s, cs[0]), cs[1..]))
  }

  function RunAll(s: System, cs: seq<Command>): System
    requires AllEnabled(s, cs)
    decreases |cs|
  {
    if cs == [] then s else RunAll(Run(s, cs[0]), cs[1..])
  }

  function Fresh(now: int): System {
    System(map[], now, map[])
  }

  predicate Immortal(s: System, key: string) {
    key in s.keys && s.keys[key].expiry.None?
  }

  /** Some recorder on this key is between its two commands. */
  ghost predicate InFlight(s: System, key: string) {
    exists r :: r in s.pending && s.pending[r] == key
  }

  /** A counter without an expiry has a recorder on its key whose EXPIRE is still to come, and every expiry lies
      at most 15 minutes ahead. */
  ghost predicate Sound(s: System) {
    && (forall key :: Immortal(s, key) ==> InFlight(s, key))
    && (forall key :: key in s.keys && s.keys[key].expiry.Some? ==> s.keys[key].expiry.value <= s.now + LOCKOUT)
  }

  lemma CommandKeepsSound(s: System, c: Command)
    requires Sound(s) && Enabled(s, c)
    ensures Sound(Run(s, c))
  {
    var s' := Run(s, c);
    forall key | Immortal(s', key)
      ensures InFlight(s', key)
    {
      match c
      case IncrOf(r, ip) =>
        if key == LoginKey(ip) {
          assert s'.pending[r] == key;
        } else {
          assert Immortal(s, key);
          var q :| q in s.pending && s.pending[q] == key;
          assert s'.pending[q] == key;
        }
      case ExpireOf(r) =>
        assert Immortal(s, key) && key != s.pending[r];
        var q :| q in s.pending && s.pending[q] == key;
        assert q in s'.pending && s'.pending[q] == key;
      case _ =>
        assert Immortal(s, key);
    }
  }

  lemma {:induction false} RunKeepsSound(s: System, cs: seq<Command>)
    requires Sound(s) && AllEnabled(s, cs)
    ensures Sound(RunAll(s, cs))
    decreases |cs|
  {
    if cs != [] {
      CommandKeepsSound(s, cs[0]);
      RunKeepsSound(Run(s, cs[0]), cs[1..]);
    }
  }

  /** In every reachable state a counter without an expiry implies an in-flight recorder on its key. */
  lemma ImmortalImpliesPending(now: int, cs: seq<Command>, key: string)
    requires AllEnabled(Fresh(now), cs) && Immortal(RunAll(Fresh(now), cs), key)
    ensures InFlight(RunAll(Fresh(now), cs), key)
  {
    RunKeepsSound(Fresh(now), cs);
  }

  /** From any reachable state, left alone: the lockout of an address is over after 15 minutes exactly when its
      counter has an expiry, which is so whenever no recorder for it is in flight. */
  lemma LockoutEndsIff(now: int, cs: seq<Command>, ip: string)
    requires AllEnabled(Fresh(now), cs)
    ensures var s, key := RunAll(Fresh(now), cs), LoginKey(ip);
            && ((forall t :: t >= s.now + 900_000 ==> !Exists(s.keys, key, t)) <==> !Immortal(s, key))
            && (!InFlight(s, key) ==> !Immortal(s, key))
  {
    RunKeepsSound(Fresh(now), cs);
    var s, key := RunAll(Fresh(now), cs), LoginKey(ip);
    if Immortal(s, key) {
      assert Exists(s.keys, key, s.now + 900_000);
    }
  }

  /** n recorders that stop after their INCR. */
  function Stuck(ip: string, first: nat, n: nat): seq<Command>
    decreases n
  {
    if n == 0 then [] else [IncrOf(first, ip)] + Stuck(ip, first + 1, n - 1)
  }

  lemma {:induction false} StuckRecordersCount(s: System, ip: string, first: nat, n: nat)
    requires forall r :: first <= r ==> r !in s.pending
    requires LoginKey(ip) !in s.keys || Immortal(s, LoginKey(ip))
    requires n >= 1
    ensures AllEnabled(s, Stuck(ip, first, n))
    ensures var keys := RunAll(s, Stuck(ip, first, n)).keys;
            LoginKey(ip) in keys && keys[LoginKey(ip)] == Counter(Reply(s, LoginKey(ip)) + n - 1, None)
    decreases n
  {
    var cs := Stuck(ip, first, n);
    assert cs[1..] == Stuck(ip, first + 1, n - 1);
    if n > 1 {
      StuckRecordersCount(Run(s, cs[0]), ip, first + 1, n - 1);
    }
  }

  /** Recorders that stop between their two commands can lock an address out for good. */
  lemma StuckRecordersLockOutForever(now: int, ip: string, n: nat, t: int)
    requires n >= 5
    ensures AllEnabled(Fresh(now), Stuck(ip, 0, n))
    ensures Limited(RunAll(Fresh(now), Stuck(ip, 0, n)).keys, ip, t)
  {
    StuckRecordersCount(Fresh(now), ip, 0, n);
  }

  // ---------------------------------------------------------------- counts

  /** The reply of an INCR: the counter after it. */
  function Reply(s: System, key: string): int {
    if Exists(s.keys, key, s.now) then s.keys[key].count + 1 else 1
  }

  /** The replies, in order, to the INCRs on a key. */
  function Replies(s: System, cs: seq<Command>, key: string): seq<int>
    requires AllEnabled(s, cs)
    decreases |cs|
  {
    if cs == [] then []
    else
      var rest := Replies(Run(s, cs[0]), cs[1..], key);
      if cs[0].IncrOf? && LoginKey(cs[0].ip) == key then [Reply(s, key)] + rest else rest
  }

  /** The key is never deleted, and once it exists it does not expire during the run. */
  predicate Undisturbed(s: System, cs: seq<Command>, key: string)
    requires AllEnabled(s, cs)
    decreases |cs|
  {
    cs == [] ||
    (var s' := Run(s, cs[0]);
     && (Exists(s.keys, key, s.now) ==> Exists(s'.keys, key, s'.now))
     && Undisturbed(s', cs[1..], key))
  }

  /** Without deletion or expiry in between, concurrent recorders receive consecutive counts, each one its own. */
  lemma {:induction false} RecordersGetConsecutiveCounts(s: System, cs: seq<Command>, key: string)
    requires AllEnabled(s, cs) && Undisturbed(s, cs, key)
    ensures forall i :: 0 <= i < |Replies(s, cs, key)| ==> Replies(s, cs, key)[i] == Reply(s, key) + i
    decreases |cs|
  {
    if cs != [] {
      var s' := Run(s, cs[0]);
      RecordersGetConsecutiveCounts(s', cs[1..], key);
      if cs[0].IncrOf? && LoginKey(cs[0].ip) == key {
        assert Reply(s', key) == Reply(s, key) + 1;
      } else if Replies(s', cs[1..], key) != [] {
        assert Reply(s', key) == Reply(s, key);
      }
    }
  }
}
