/** What the audit log proves about the policies, in every interleaving of the handlers' steps. */
module AuditTrail {
  import P = PolicyProperties
  import opened Wrappers
  import opened PolicyEngine
  import opened AuditLog
  import opened PolicyHandlers

  predicate Creates(e: Event, id: string) {
    e.action == PolicyCreated && e.resource == id
  }

  predicate Deletes(e: Event, id: string) {
    e.action == PolicyDeleted && e.resource == id
  }

  function One(b: bool): nat {
    if b then 1 else 0
  }

  function CreateEntries(log: seq<Event>, id: string): nat {
    if log == [] then 0 else CreateEntries(log[..|log| - 1], id) + One(Creates(log[|log| - 1], id))
  }

  function DeleteEntries(log: seq<Event>, id: string): nat {
    if log == [] then 0 else DeleteEntries(log[..|log| - 1], id) + One(Deletes(log[|log| - 1], id))
  }

  /** For one id: where it came from and where it went both add up to whether it was ever issued. */
  ghost predicate Balanced(w: World, id: string) {
    && One(id in w.initial) + CreateEntries(w.log, id) + w.awaitingCreated[id] == One(id in w.issued)
    && One(id in w.policies) + DeleteEntries(w.log, id) + w.awaitingDeleted[id] == One(id in w.issued)
  }

  lemma EntriesAppended(log: seq<Event>, e: Event, id: string)
    ensures CreateEntries(log + [e], id) == CreateEntries(log, id) + One(Creates(e, id))
    ensures DeleteEntries(log + [e], id) == DeleteEntries(log, id) + One(Deletes(e, id))
  {
    assert (log + [e])[..|log|] == log;
  }

  lemma EngineStepKeepsBalance(w: World, s: Step, id: string)
    requires Balanced(w, id) && Enabled(w, s)
    requires s.CreateStep? || s.DeleteStep?
    ensures Balanced(Take(w, s), id)
  {
    var w' := Take(w, s);
    var subject := if s.CreateStep? then s.uuid else s.id;
    assert id != subject ==> (id in w'.policies <==> id in w.policies);
  }

  lemma CreateEntryKeepsBalance(w: World, e: Event, id: string)
    requires Balanced(w, id) && Enabled(w, LogCreated(e))
    ensures Balanced(Take(w, LogCreated(e)), id)
  {
    EntriesAppended(w.log, e, id);
    assert (w.awaitingCreated - multiset{e.resource})[id] == w.awaitingCreated[id] - One(e.resource == id);
  }

  lemma DeleteEntryKeepsBalance(w: World, e: Event, id: string)
    requires Balanced(w, id) && Enabled(w, LogDeleted(e))
    ensures Balanced(Take(w, LogDeleted(e)), id)
  {
    EntriesAppended(w.log, e, id);
    assert (w.awaitingDeleted - multiset{e.resource})[id] == w.awaitingDeleted[id] - One(e.resource == id);
  }

  lemma OtherEntryKeepsBalance(w: World, s: Step, e: Event, id: string)
    requires Balanced(w, id) && Enabled(w, s) && (s.LogAccess? || s.LogOther?)
    requires Take(w, s).log == w.log + [e] && e.action !in {PolicyCreated, PolicyDeleted}
    ensures Balanced(Take(w, s), id)
  {
    EntriesAppended(w.log, e, id);
  }

  lemma StepKeepsBalance(w: World, s: Step, id: string)
    requires Balanced(w, id) && Enabled(w, s)
    ensures Balanced(Take(w, s), id)
  {
    match s
    case CreateStep(_, _) => EngineStepKeepsBalance(w, s, id);
    case DeleteStep(_) => EngineStepKeepsBalance(w, s, id);
    case AccessStep(_) =>
    case LogCreated(e) => CreateEntryKeepsBalance(w, e, id);
    case LogDeleted(e) => DeleteEntryKeepsBalance(w, e, id);
    case LogAccess(i, uuid, now) => OtherEntryKeepsBalance(w, s, Stamp(EntryOf(w.awaitingAccess[i]), uuid, now), id);
    case LogOther(e) => OtherEntryKeepsBalance(w, s, e, id);
  }

  /** In every reachable state, initial ids, logged creates and creates awaiting their entry are together the same
      ids as live ids, logged deletes and deletes awaiting their entry, and on each side no id occurs twice. */
  lemma {:induction false} LedgerBalances(run: seq<World>, steps: seq<Step>, n: nat, id: string)
    requires IsRun(run, steps) && n <= |steps|
    ensures Balanced(run[n], id)
  {
    if n > 0 {
      LedgerBalances(run, steps, n - 1, id);
      assert Leads(run[n - 1], steps[n - 1], run[n - 1 + 1]);
      StepKeepsBalance(run[n - 1], steps[n - 1], id);
    }
  }

  // ---------------------------------------------------------------- reading the log back

  ghost function CreatedIds(log: seq<Event>): set<string> {
    set i | 0 <= i < |log| && log[i].action == PolicyCreated :: log[i].resource
  }

  ghost function DeletedIds(log: seq<Event>): set<string> {
    set i | 0 <= i < |log| && log[i].action == PolicyDeleted :: log[i].resource
  }

  lemma {:induction false} EntriesAndIds(log: seq<Event>, id: string)
    ensures CreateEntries(log, id) > 0 <==> id in CreatedIds(log)
    ensures DeleteEntries(log, id) > 0 <==> id in DeletedIds(log)
  {
    if log != [] {
      var init, last := log[..|log| - 1], log[|log| - 1];
      EntriesAndIds(init, id);
      assert log[|log| - 1] == last;
      assert forall i :: 0 <= i < |init| ==> init[i] == log[i];
    }
  }

  /** When nothing is in flight, the initial ids and the log determine the live policies, whatever the order
      in which the entries were appended. */
  lemma LogDeterminesPolicies(run: seq<World>, steps: seq<Step>)
    requires IsRun(run, steps) && Quiescent(run[|steps|])
    ensures var w := run[|steps|];
            w.policies.Keys == w.initial + CreatedIds(w.log) - DeletedIds(w.log)
  {
    var w := run[|steps|];
    forall id
      ensures id in w.policies.Keys <==> id in w.initial + CreatedIds(w.log) - DeletedIds(w.log)
    {
      LedgerBalances(run, steps, |steps|, id);
      EntriesAndIds(w.log, id);
    }
  }

  /** Reading the log from the start, adding at each create entry and removing at each delete entry. */
  function Replay(initial: set<string>, log: seq<Event>): set<string> {
    if log == [] then initial
    else
      var e := log[|log| - 1];
      var ids := Replay(initial, log[..|log| - 1]);
      if e.action == PolicyCreated then ids + {e.resource}
      else if e.action == PolicyDeleted then ids - {e.resource}
      else ids
  }

  /** No delete entry stands before the create entry of the same policy. */
  ghost predicate EntriesInOrder(log: seq<Event>) {
    forall i, j, id :: 0 <= i < j < |log| && Deletes(log[i], id) ==> !Creates(log[j], id)
  }

  ghost predicate NoDeleteFrom(log: seq<Event>, from: nat, id: string) {
    forall i :: from <= i < |log| ==> !Deletes(log[i], id)
  }

  lemma {:induction false} ReplayedIff(initial: set<string>, log: seq<Event>, id: string)
    ensures id in Replay(initial, log) <==>
            || (id in initial && NoDeleteFrom(log, 0, id))
            || (exists j :: 0 <= j < |log| && Creates(log[j], id) && NoDeleteFrom(log, j, id))
  {
    if log != [] {
      var n := |log| - 1;
      var init := log[..n];
      ReplayedIff(initial, init, id);
      assert forall i :: 0 <= i < n ==> init[i] == log[i];
      if Creates(log[n], id) {
        assert NoDeleteFrom(log, n, id);
      } else if Deletes(log[n], id) {
        assert forall j: nat :: j <= n ==> !NoDeleteFrom(log, j, id);
      } else {
        assert forall j: nat :: j <= n ==> (NoDeleteFrom(log, j, id) <==> NoDeleteFrom(init, j, id));
      }
    }
  }

  lemma {:induction false} TwoDeletesCount(log: seq<Event>, i: nat, j: nat, id: string)
    requires i < |log| && Deletes(log[i], id)
    requires i < j < |log| ==> Deletes(log[j], id)
    ensures DeleteEntries(log, id) >= if i < j < |log| then 2 else 1
  {
    var n := |log| - 1;
    if i < n {
      TwoDeletesCount(log[..n], i, j, id);
    }
  }

  /** Replaying the log of a quiescent state gives the live policies exactly when no delete entry overtook the
      create entry of its policy. */
  lemma ReplayIsRightIff(run: seq<World>, steps: seq<Step>)
    requires IsRun(run, steps) && Quiescent(run[|steps|])
    ensures var w := run[|steps|];
            Replay(w.initial, w.log) == w.policies.Keys <==> EntriesInOrder(w.log)
  {
    var w := run[|steps|];
    LogDeterminesPolicies(run, steps);
    if EntriesInOrder(w.log) {
      forall id
        ensures id in Replay(w.initial, w.log) <==> id in w.policies.Keys
      {
        ReplayedIff(w.initial, w.log, id);
        if id in DeletedIds(w.log) {
          var i :| 0 <= i < |w.log| && Deletes(w.log[i], id);
          assert forall j :: 0 <= j < |w.log| && Creates(w.log[j], id) ==> j < i;
        } else {
          assert forall i :: 0 <= i < |w.log| ==> !Deletes(w.log[i], id);
          assert id in CreatedIds(w.log) ==>
            exists j :: 0 <= j < |w.log| && Creates(w.log[j], id) && NoDeleteFrom(w.log, j, id);
        }
      }
    } else {
      var i, j, id :| 0 <= i < j < |w.log| && Deletes(w.log[i], id) && Creates(w.log[j], id);
      LedgerBalances(run, steps, |steps|, id);
      assert NoDeleteFrom(w.log, j, id) by {
        forall k | j <= k < |w.log|
          ensures !Deletes(w.log[k], id)
        {
          if Deletes(w.log[k], id) {
            TwoDeletesCount(w.log, i, k, id);
          }
        }
      }
      ReplayedIff(w.initial, w.log, id);
      assert id in DeletedIds(w.log);
    }
  }

  /** The overtaking does happen: a run of two requests that ends quiescent with a replay that is wrong. */
  lemma EntriesCanBeOutOfOrder(p: Policy, id: string, created: Event, deleted: Event)
    returns (run: seq<World>, steps: seq<Step>)
    requires Creates(created, id) && Deletes(deleted, id)
    ensures IsRun(run, steps) && Quiescent(run[|steps|])
    ensures run[|steps|].policies == map[] && run[|steps|].log == [deleted, created]
    ensures Replay(run[|steps|].initial, run[|steps|].log) == {id}
  {
    var none: multiset<string> := multiset{};
    var stored := map[id := p.(id := id)];
    var w0 := World(map[], [], none, none, [], {}, {});
    var w1 := World(stored, [], multiset{id}, none, [], {}, {id});
    var w2 := World(map[], [], multiset{id}, multiset{id}, [], {}, {id});
    var w3 := World(map[], [deleted], multiset{id}, none, [], {}, {id});
    var w4 := World(map[], [deleted, created], none, none, [], {}, {id});
    StepLeads(w0, CreateStep(p, id), w1);
    assert stored - {id} == map[];
    StepLeads(w1, DeleteStep(id), w2);
    StepLeads(w2, LogDeleted(deleted), w3);
    StepLeads(w3, LogCreated(created), w4);
    run := [w0, w1, w2, w3, w4];
    steps := [CreateStep(p, id), DeleteStep(id), LogDeleted(deleted), LogCreated(created)];
    ReplayOfTwo(id, created, deleted);
  }

  lemma ReplayOfTwo(id: string, created: Event, deleted: Event)
    requires Creates(created, id) && Deletes(deleted, id)
    ensures Replay({}, [deleted, created]) == {id}
  {
    var nobody: set<string> := {};
    assert [deleted][..0] == [] && Replay(nobody, [deleted]) == {};
    assert [deleted, created][..1] == [deleted];
  }

  lemma StepLeads(w: World, s: Step, w': World)
    requires Enabled(w, s) && Take(w, s) == w'
    ensures Leads(w, s, w')
  {
  }

  // ---------------------------------------------------------------- access entries

  predicate IsAccessEntry(e: Event) {
    e.action == AccessGranted || e.action == AccessDenied
  }

  /** What a request passed to the log: the entry without the id and the time that the logger fills in. */
  function Unstamped(e: Event): Event {
    e.(id := "", timestamp := None)
  }

  /** How many access entries of the log have the property. */
  function Logged(log: seq<Event>, p: Event -> bool): nat {
    if log == [] then 0
    else
      var last := log[|log| - 1];
      Logged(log[..|log| - 1], p) + One(IsAccessEntry(last) && p(Unstamped(last)))
  }

  /** How many of the waiting evaluations will be logged with the property. */
  function Waiting(accesses: seq<Access>, p: Event -> bool): nat {
    if accesses == [] then 0
    else Waiting(accesses[..|accesses| - 1], p) + One(p(EntryOf(accesses[|accesses| - 1])))
  }

  /** The step is an evaluation that asks for an entry with the property. */
  predicate AsksFor(s: Step, p: Event -> bool) {
    s.AccessStep? && p(EntryOf(s.access))
  }

  /** How many of the first n steps were evaluations that ask for an entry with the property. */
  function Evaluated(steps: seq<Step>, n: nat, p: Event -> bool): nat
    requires n <= |steps|
  {
    if n == 0 then 0
    else Evaluated(steps, n - 1, p) + One(AsksFor(steps[n - 1], p))
  }

  lemma LoggedAppended(log: seq<Event>, e: Event, p: Event -> bool)
    ensures Logged(log + [e], p) == Logged(log, p) + One(IsAccessEntry(e) && p(Unstamped(e)))
  {
    assert (log + [e])[..|log|] == log;
  }

  lemma {:induction false} WaitingTogether(a: seq<Access>, b: seq<Access>, p: Event -> bool)
    ensures Waiting(a + b, p) == Waiting(a, p) + Waiting(b, p)
  {
    if b == [] {
      assert a + b == a;
    } else {
      assert (a + b)[..|a + b| - 1] == a + b[..|b| - 1];
      WaitingTogether(a, b[..|b| - 1], p);
    }
  }

  lemma WaitingOne(a: Access, p: Event -> bool)
    ensures Waiting([a], p) == One(p(EntryOf(a)))
  {
    assert [a][..0] == [];
  }

  lemma WaitingBetween(a: seq<Access>, x: Access, c: seq<Access>, p: Event -> bool)
    ensures Waiting(a + ([x] + c), p) == Waiting(a + c, p) + One(p(EntryOf(x)))
  {
    WaitingTogether(a, [x] + c, p);
    WaitingTogether([x], c, p);
    WaitingTogether(a, c, p);
    WaitingOne(x, p);
  }

  lemma SplitAt(accesses: seq<Access>, i: nat)
    requires i < |accesses|
    ensures accesses == accesses[..i] + ([accesses[i]] + accesses[i + 1..])
  {
  }

  lemma WaitingRemoved(accesses: seq<Access>, i: nat, p: Event -> bool)
    requires i < |accesses|
    ensures Waiting(accesses, p) == Waiting(accesses[..i] + accesses[i + 1..], p) + One(p(EntryOf(accesses[i])))
  {
    SplitAt(accesses, i);
    WaitingBetween(accesses[..i], accesses[i], accesses[i + 1..], p);
  }

  lemma UnstampedEntry(a: Access, uuid: string, now: int)
    ensures IsAccessEntry(Stamp(EntryOf(a), uuid, now)) && Unstamped(Stamp(EntryOf(a), uuid, now)) == EntryOf(a)
  {
  }

  lemma AccessLogged(log: seq<Event>, a: Access, uuid: string, now: int, p: Event -> bool)
    ensures Logged(log + [Stamp(EntryOf(a), uuid, now)], p) == Logged(log, p) + One(p(EntryOf(a)))
  {
    UnstampedEntry(a, uuid, now);
    LoggedAppended(log, Stamp(EntryOf(a), uuid, now), p);
  }

  lemma OtherLogged(log: seq<Event>, e: Event, p: Event -> bool)
    requires !IsAccessEntry(e)
    ensures Logged(log + [e], p) == Logged(log, p)
  {
    LoggedAppended(log, e, p);
  }

  /** The access entries of the log and the evaluations still to be logged. */
  function Told(w: World, p: Event -> bool): nat {
    Logged(w.log, p) + Waiting(w.awaitingAccess, p)
  }

  lemma LoggingMovesOne(w: World, w': World, i: nat, uuid: string, now: int, p: Event -> bool)
    requires i < |w.awaitingAccess| && w' == Take(w, LogAccess(i, uuid, now))
    ensures Told(w', p) == Told(w, p)
  {
    var a := w.awaitingAccess[i];
    assert w'.log == w.log + [Stamp(EntryOf(a), uuid, now)];
    assert w'.awaitingAccess == w.awaitingAccess[..i] + w.awaitingAccess[i + 1..];
    AccessLogged(w.log, a, uuid, now, p);
    WaitingRemoved(w.awaitingAccess, i, p);
  }

  lemma EvaluationAddsOne(w: World, a: Access, p: Event -> bool)
    requires Enabled(w, AccessStep(a))
    ensures Told(Take(w, AccessStep(a)), p) == Told(w, p) + One(p(EntryOf(a)))
  {
    WaitingTogether(w.awaitingAccess, [a], p);
    WaitingOne(a, p);
  }

  /** Only an evaluation changes the sum, by the entry that it asks for. */
  lemma StepIsTold(w: World, w': World, s: Step, p: Event -> bool)
    requires Leads(w, s, w')
    ensures Told(w', p) == Told(w, p) + One(AsksFor(s, p))
  {
    match s
    case CreateStep(_, _) =>
    case DeleteStep(_) =>
    case AccessStep(a) => EvaluationAddsOne(w, a, p);
    case LogCreated(e) => OtherLogged(w.log, e, p);
    case LogDeleted(e) => OtherLogged(w.log, e, p);
    case LogAccess(i, uuid, now) => LoggingMovesOne(w, w', i, uuid, now, p);
    case LogOther(e) => OtherLogged(w.log, e, p);
  }

  /** A number that grows by one at each of these evaluations counts them. */
  lemma {:induction false} CountedByOne(told: seq<nat>, steps: seq<Step>, n: nat, p: Event -> bool)
    requires |told| == |steps| + 1 && told[0] == 0 && n <= |steps|
    requires forall i :: 0 <= i < |steps| ==> told[i + 1] == told[i] + One(AsksFor(steps[i], p))
    ensures told[n] == Evaluated(steps, n, p)
  {
    if n > 0 {
      CountedByOne(told, steps, n - 1, p);
      assert told[n - 1 + 1] == told[n - 1] + One(AsksFor(steps[n - 1], p));
    }
  }

  lemma RunIsTold(run: seq<World>, steps: seq<Step>, i: nat, p: Event -> bool)
    requires IsRun(run, steps) && i < |steps|
    ensures Told(run[i + 1], p) == Told(run[i], p) + One(AsksFor(steps[i], p))
  {
    assert Leads(run[i], steps[i], run[i + 1]);
    StepIsTold(run[i], run[i + 1], steps[i], p);
  }

  /** In every reachable state of every interleaving, whatever property of entries is counted: the access entries
      of the log and the evaluations still to be logged are together the evaluations made so far. Nothing that was
      evaluated is lost, and nothing is logged that was not evaluated. */
  lemma AccessesAreAccounted(run: seq<World>, steps: seq<Step>, n: nat, p: Event -> bool)
    requires IsRun(run, steps) && n <= |steps|
    ensures Logged(run[n].log, p) + Waiting(run[n].awaitingAccess, p) == Evaluated(steps, n, p)
  {
    var told := seq(|run|, i requires 0 <= i < |run| => Told(run[i], p));
    forall i | 0 <= i < |steps|
      ensures told[i + 1] == told[i] + One(AsksFor(steps[i], p))
    {
      RunIsTold(run, steps, i, p);
    }
    CountedByOne(told, steps, n, p);
  }

  lemma {:induction false} EntryIsCounted(log: seq<Event>, e: Event, p: Event -> bool)
    requires e in log && IsAccessEntry(e) && p(Unstamped(e))
    ensures Logged(log, p) >= 1
  {
    if log[|log| - 1] != e {
      EntryIsCounted(log[..|log| - 1], e, p);
    }
  }

  lemma {:induction false} EvaluationIsFound(steps: seq<Step>, n: nat, p: Event -> bool) returns (j: nat)
    requires n <= |steps| && Evaluated(steps, n, p) >= 1
    ensures j < n && AsksFor(steps[j], p)
  {
    j := n - 1;
    if !AsksFor(steps[j], p) {
      j := EvaluationIsFound(steps, n - 1, p);
    }
  }

  /** Behind every access entry stands an evaluation of the same run, of exactly the request, the verdict and the
      client that the entry tells of, and the policies of that moment allowed the verdict in some map order. */
  lemma AccessEntriesAreTrue(run: seq<World>, steps: seq<Step>, n: nat, e: Event)
    requires IsRun(run, steps) && n <= |steps| && e in run[n].log && IsAccessEntry(e)
    ensures exists j :: 0 <= j < n && steps[j].AccessStep? && EntryOf(steps[j].access) == Unstamped(e)
                        && Outcome(run[j].policies, steps[j].access.req, steps[j].access.verdict)
  {
    var p := (x: Event) => x == Unstamped(e);
    AccessesAreAccounted(run, steps, n, p);
    EntryIsCounted(run[n].log, e, p);
    var j := EvaluationIsFound(steps, n, p);
    assert Leads(run[j], steps[j], run[j + 1]);
  }

  function About(userID: string, application: string, action: Action): Event -> bool {
    (e: Event) => e.userID == userID && e.resource == application && e.action == action
  }

  /** The action that the policies warrant for a request, whatever the order in which the map is visited. */
  ghost function Warranted(m: Policies, req: Request): Action {
    if P.SomeMatch(m, req) && P.EveryMatchPasses(m, req) then AccessGranted else AccessDenied
  }

  /** How many of the first n steps evaluated a request of the user for the application for which the policies of
      that moment warranted the action. */
  ghost function TimesWarranted(run: seq<World>, steps: seq<Step>, n: nat,
                                userID: string, application: string, action: Action): nat
    requires n <= |steps| <= |run|
  {
    if n == 0 then 0
    else
      var s := steps[n - 1];
      TimesWarranted(run, steps, n - 1, userID, application, action)
      + One(s.AccessStep? && s.access.req.userID == userID && s.access.req.application == application
            && Warranted(run[n - 1].policies, s.access.req) == action)
  }

  lemma EvaluationIsWarranted(m: Policies, a: Access, userID: string, application: string, action: Action)
    requires Outcome(m, a.req, a.verdict)
    ensures About(userID, application, action)(EntryOf(a)) <==>
              a.req.userID == userID && a.req.application == application && Warranted(m, a.req) == action
  {
    P.AllowInEveryOrder(m, a.req, a.verdict);
  }

  lemma {:induction false} EvaluatedIsWarranted(run: seq<World>, steps: seq<Step>, n: nat,
                                                userID: string, application: string, action: Action)
    requires IsRun(run, steps) && n <= |steps|
    ensures Evaluated(steps, n, About(userID, application, action))
            == TimesWarranted(run, steps, n, userID, application, action)
  {
    if n > 0 {
      EvaluatedIsWarranted(run, steps, n - 1, userID, application, action);
      assert Leads(run[n - 1], steps[n - 1], run[n - 1 + 1]);
      if steps[n - 1].AccessStep? {
        EvaluationIsWarranted(run[n - 1].policies, steps[n - 1].access, userID, application, action);
      }
    }
  }

  /** For each user, application and action: the log has exactly as many such access entries as evaluations for
      which the policies of their moment warranted that action, less those still to be logged. */
  lemma EntriesTellWhatWasWarranted(run: seq<World>, steps: seq<Step>, n: nat,
                                    userID: string, application: string, action: Action)
    requires IsRun(run, steps) && n <= |steps|
    ensures var p := About(userID, application, action);
            Logged(run[n].log, p) + Waiting(run[n].awaitingAccess, p)
            == TimesWarranted(run, steps, n, userID, application, action)
  {
    AccessesAreAccounted(run, steps, n, About(userID, application, action));
    EvaluatedIsWarranted(run, steps, n, userID, application, action);
  }

  /** An ACCESS_GRANTED entry means that this run evaluated exactly the request it tells of, at a moment when the
      policies granted that request in every order of the map. */
  lemma GrantedEntriesWereGranted(run: seq<World>, steps: seq<Step>, n: nat, e: Event)
    requires IsRun(run, steps) && n <= |steps| && e in run[n].log && e.action == AccessGranted
    ensures exists j :: 0 <= j < n && steps[j].AccessStep? && EntryOf(steps[j].access) == Unstamped(e)
                        && P.SomeMatch(run[j].policies, steps[j].access.req)
                        && P.EveryMatchPasses(run[j].policies, steps[j].access.req)
  {
    AccessEntriesAreTrue(run, steps, n, e);
    var j :| 0 <= j < n && steps[j].AccessStep? && EntryOf(steps[j].access) == Unstamped(e)
             && Outcome(run[j].policies, steps[j].access.req, steps[j].access.verdict);
    P.AllowInEveryOrder(run[j].policies, steps[j].access.req, steps[j].access.verdict);
  }
}
