/** What the engine's answers are over every map order, against the documented rule, and over runs of updates. */
module PolicyProperties {
  import opened PolicyEngine

  ghost predicate SomeMatch(m: Policies, req: Request) {
    exists k :: k in m && Matches(m[k], req)
  }

  /** The policy filed under k matches the request and says d. */
  ghost predicate Says(m: Policies, req: Request, k: string, d: Decision) {
    k in m && Matches(m[k], req) && Check(m[k], req) == d
  }

  ghost predicate EveryMatchPasses(m: Policies, req: Request) {
    forall k :: k in m && Matches(m[k], req) ==> Check(m[k], req) == Allow
  }

  /** Exactly the verdicts some visiting order produces, without mentioning orders. */
  ghost predicate Possible(m: Policies, req: Request, v: Verdict) {
    if !SomeMatch(m, req) then v == DEFAULT_DENY
    else if EveryMatchPasses(m, req) then v == GRANTED
    else exists k, d :: Says(m, req, k, d) && d != Allow && v == Verdict(d, m[k].id)
  }

  // ---------------------------------------------------------------- orders

  lemma {:induction false} OrderExists(keys: set<string>) returns (order: seq<string>)
    ensures IsOrder(order, keys)
  {
    if keys == {} {
      order := [];
    } else {
      var k :| k in keys;
      var rest := OrderExists(keys - {k});
      order := rest + [k];
    }
  }

  /** Any key can be visited first. */
  lemma OrderFrom(k: string, keys: set<string>) returns (order: seq<string>)
    requires k in keys
    ensures IsOrder(order, keys) && order != [] && order[0] == k
  {
    var rest := OrderExists(keys - {k});
    order := [k] + rest;
  }

  lemma {:induction false} MatchingMembers(m: Policies, order: seq<string>, req: Request)
    requires forall k :: k in order ==> k in m
    ensures forall k :: k in order && Matches(m[k], req) ==> m[k] in MatchingIn(m, order, req)
    ensures forall p :: p in MatchingIn(m, order, req) ==> exists k :: k in order && Matches(m[k], req) && p == m[k]
  {
    if order != [] {
      var last := |order| - 1;
      MatchingMembers(m, order[..last], req);
      assert order == order[..last] + [order[last]];
    }
  }

  lemma {:induction false} MatchingHead(m: Policies, order: seq<string>, req: Request)
    requires forall k :: k in order ==> k in m
    requires order != [] && Matches(m[order[0]], req)
    ensures MatchingIn(m, order, req) != [] && MatchingIn(m, order, req)[0] == m[order[0]]
  {
    var last := |order| - 1;
    if last > 0 {
      MatchingHead(m, order[..last], req);
    } else {
      assert order[..last] == [];
    }
  }

  lemma {:induction false} FirstFailureIsAFailure(ps: seq<Policy>, req: Request)
    ensures FirstFailure(ps, req) == GRANTED ||
            exists p :: p in ps && Check(p, req) != Allow && FirstFailure(ps, req) == Verdict(Check(p, req), p.id)
    ensures FirstFailure(ps, req).decision == Allow <==> forall p :: p in ps ==> Check(p, req) == Allow
  {
    if ps != [] {
      FirstFailureIsAFailure(ps[1..], req);
      assert ps == [ps[0]] + ps[1..];
    }
  }

  // ---------------------------------------------------------------- the exact outcome relation

  lemma OutcomeIsPossible(m: Policies, order: seq<string>, req: Request)
    requires IsOrder(order, m.Keys)
    ensures Possible(m, req, EvaluateIn(m, order, req))
  {
    var ps := MatchingIn(m, order, req);
    MatchingMembers(m, order, req);
    FirstFailureIsAFailure(ps, req);
    if ps == [] {
      assert !SomeMatch(m, req);
    } else {
      assert ps[0] in ps;
      if !EveryMatchPasses(m, req) {
        var bad :| bad in m && Matches(m[bad], req) && Check(m[bad], req) != Allow;
        assert m[bad] in ps;
        var p :| p in ps && Check(p, req) != Allow && FirstFailure(ps, req) == Verdict(Check(p, req), p.id);
        var k :| k in order && Matches(m[k], req) && p == m[k];
        assert Says(m, req, k, Check(p, req));
      }
    }
  }

  lemma PossibleIsOutcome(m: Policies, req: Request, v: Verdict)
    requires Possible(m, req, v)
    ensures Outcome(m, req, v)
  {
    if SomeMatch(m, req) && !EveryMatchPasses(m, req) {
      var k, d :| Says(m, req, k, d) && d != Allow && v == Verdict(d, m[k].id);
      var order := OrderFrom(k, m.Keys);
      MatchingHead(m, order, req);
      assert EvaluateIn(m, order, req) == v;
    } else {
      var order := OrderExists(m.Keys);
      OutcomeIsPossible(m, order, req);
      assert EvaluateIn(m, order, req) == v;
    }
  }

  /** Every verdict the engine can give is characterised without its loops, and each one is given by some order. */
  lemma OutcomesExactly(m: Policies, req: Request, v: Verdict)
    ensures Outcome(m, req, v) <==> Possible(m, req, v)
  {
    if Outcome(m, req, v) {
      var order :| IsOrder(order, m.Keys) && EvaluateIn(m, order, req) == v;
      OutcomeIsPossible(m, order, req);
    }
    if Possible(m, req, v) {
      PossibleIsOutcome(m, req, v);
    }
  }

  // ---------------------------------------------------------------- the documented rule

  /** A condition of the policy other than MFA fails. */
  predicate ConditionFails(p: Policy, req: Request) {
    || (p.maxRiskScore > 0 && req.riskScore > p.maxRiskScore)
    || (p.requireTrusted && !req.deviceTrusted)
  }

  /** Step 4 of the documentation, for one policy. */
  predicate Denies(p: Policy, req: Request) {
    ConditionFails(p, req) || p.decision == Deny
  }

  /** Step 5, for one policy. It does not say whether a policy whose decision is REQUIRE_MFA requires MFA without
      its flag; byDecision chooses. */
  predicate Asks(p: Policy, req: Request, byDecision: bool) {
    (p.requireMFA || (byDecision && p.decision == RequireMFA)) && !req.mfaVerified
  }

  /** What the documentation says of one policy, from the fields of the policy alone. */
  function Restriction(p: Policy, req: Request, byDecision: bool): Decision {
    if Denies(p, req) then Deny else if Asks(p, req, byDecision) then RequireMFA else Allow
  }

  function Severity(d: Decision): nat {
    match d
    case Deny => 2
    case RequireMFA => 1
    case _ => 0
  }

  /** Step 3: the most restrictive of what the documentation says of each matching policy. */
  ghost predicate MostRestrictive(m: Policies, req: Request, byDecision: bool, d: Decision) {
    && (exists k :: k in m && Matches(m[k], req) && Restriction(m[k], req, byDecision) == d)
    && (forall k :: k in m && Matches(m[k], req) ==> Severity(Restriction(m[k], req, byDecision)) <= Severity(d))
  }

  ghost predicate SomeDenies(m: Policies, req: Request) {
    exists k :: k in m && Matches(m[k], req) && Denies(m[k], req)
  }

  ghost predicate SomeAsks(m: Policies, req: Request, byDecision: bool) {
    exists k :: k in m && Matches(m[k], req) && Asks(m[k], req, byDecision)
  }

  /** Steps 2 and 4 to 6. */
  ghost function Documented(m: Policies, req: Request, byDecision: bool): Decision {
    if !SomeMatch(m, req) then Deny
    else if SomeDenies(m, req) then Deny
    else if SomeAsks(m, req, byDecision) then RequireMFA
    else Allow
  }

  lemma DocumentedIsMostRestrictive(m: Policies, req: Request, byDecision: bool, d: Decision)
    requires SomeMatch(m, req)
    ensures d == Documented(m, req, byDecision) <==> MostRestrictive(m, req, byDecision, d)
  {
    var k :| k in m && Matches(m[k], req);
    assert Restriction(m[k], req, byDecision) in {Allow, Deny, RequireMFA};
  }

  /** A matching policy gets as far as its MFA check and fails it. */
  ghost predicate SomeStopsAtMFA(m: Policies, req: Request) {
    exists k :: k in m && Matches(m[k], req) && !ConditionFails(m[k], req) && Asks(m[k], req, false)
  }

  /** MFA is asked for, but only by policies with that decision and without the flag. */
  ghost predicate OnlyDecisionsAsk(m: Policies, req: Request) {
    !SomeDenies(m, req) && SomeAsks(m, req, true) && !SomeAsks(m, req, false)
  }

  lemma CheckByFields(p: Policy, req: Request)
    ensures Check(p, req) == RequireMFA <==> !ConditionFails(p, req) && Asks(p, req, false)
    ensures Check(p, req) == Allow <==> !Denies(p, req) && !Asks(p, req, false)
    ensures Check(p, req) in {Allow, Deny, RequireMFA}
  {
  }

  /** In every order: a denial is documented, and where the documentation allows, access is granted. Unless only
      decisions ask for MFA, a documented REQUIRE_MFA is the answer, and only documented access is granted. */
  lemma OutcomeAgainstDocumented(m: Policies, req: Request, byDecision: bool, v: Verdict)
    requires Outcome(m, req, v)
    ensures v.decision in {Allow, Deny, RequireMFA}
    ensures v.decision == Deny ==> Documented(m, req, byDecision) == Deny
    ensures Documented(m, req, byDecision) == Allow ==> v.decision == Allow
    ensures !(byDecision && OnlyDecisionsAsk(m, req)) ==>
              && (v.decision == Allow ==> Documented(m, req, byDecision) == Allow)
              && (Documented(m, req, byDecision) == RequireMFA ==> v.decision == RequireMFA)
  {
    OutcomesExactly(m, req, v);
    forall k | k in m
      ensures Check(m[k], req) == Allow <==> !Denies(m[k], req) && !Asks(m[k], req, false)
      ensures Check(m[k], req) in {Allow, Deny, RequireMFA}
    {
      CheckByFields(m[k], req);
    }
  }

  lemma NoMFAStopMeansDeny(m: Policies, req: Request, v: Verdict)
    requires SomeDenies(m, req) && !SomeStopsAtMFA(m, req) && Outcome(m, req, v)
    ensures v.decision == Deny
  {
    OutcomesExactly(m, req, v);
    var k :| k in m && Matches(m[k], req) && Denies(m[k], req);
    CheckByFields(m[k], req);
    forall j | j in m && Matches(m[j], req)
      ensures Check(m[j], req) in {Allow, Deny}
    {
      CheckByFields(m[j], req);
    }
  }

  lemma MFAStopIsAnOutcome(m: Policies, req: Request) returns (v: Verdict)
    requires SomeStopsAtMFA(m, req)
    ensures Outcome(m, req, v) && v.decision == RequireMFA
  {
    var k :| k in m && Matches(m[k], req) && !ConditionFails(m[k], req) && Asks(m[k], req, false);
    CheckByFields(m[k], req);
    v := Verdict(RequireMFA, m[k].id);
    assert Says(m, req, k, RequireMFA);
    OutcomesExactly(m, req, v);
  }

  lemma OnlyDecisionsAskMeansAllow(m: Policies, req: Request, v: Verdict)
    requires OnlyDecisionsAsk(m, req) && Outcome(m, req, v)
    ensures v.decision == Allow
  {
    OutcomesExactly(m, req, v);
    forall k | k in m && Matches(m[k], req)
      ensures Check(m[k], req) == Allow
    {
      CheckByFields(m[k], req);
    }
  }

  /** The engine follows its documented rule in every order exactly when no matching policy denies while one, the
      same or another, stops at its MFA check, and, if decisions ask for MFA, they are not the only ones to ask. */
  lemma DocumentedInEveryOrderIff(m: Policies, req: Request, byDecision: bool)
    ensures (forall v :: Outcome(m, req, v) ==> v.decision == Documented(m, req, byDecision))
            <==>
            && !(SomeDenies(m, req) && SomeStopsAtMFA(m, req))
            && !(byDecision && OnlyDecisionsAsk(m, req))
  {
    if SomeDenies(m, req) && SomeStopsAtMFA(m, req) {
      var v := MFAStopIsAnOutcome(m, req);
      assert v.decision != Documented(m, req, byDecision);
    } else if byDecision && OnlyDecisionsAsk(m, req) {
      var order := OrderExists(m.Keys);
      var v := EvaluateIn(m, order, req);
      assert Outcome(m, req, v);
      OnlyDecisionsAskMeansAllow(m, req, v);
    } else {
      forall v | Outcome(m, req, v)
        ensures v.decision == Documented(m, req, byDecision)
      {
        OutcomeAgainstDocumented(m, req, byDecision, v);
        if SomeDenies(m, req) {
          NoMFAStopMeansDeny(m, req, v);
        } else {
          OutcomesExactly(m, req, v);
        }
      }
    }
  }

  const BLOCK := Policy("b", "block", "admin", ANY, false, false, 0, Deny, true)
  const STRANGER := Request("u", "admin", "console", true, false, 0, "")

  /** Two policies for one role: the documentation promises DENY, and one order answers REQUIRE_MFA. */
  lemma DocumentedRuleFails(byDecision: bool) returns (m: Policies)
    ensures Keyed(m) && Documented(m, STRANGER, byDecision) == Deny
    ensures Outcome(m, STRANGER, Verdict(RequireMFA, "a")) && Outcome(m, STRANGER, Verdict(Deny, "b"))
  {
    m := map["a" := Policy("a", "mfa", "admin", ANY, true, false, 0, Allow, true), "b" := BLOCK];
    assert Denies(m["b"], STRANGER);
    assert Says(m, STRANGER, "a", RequireMFA) && Says(m, STRANGER, "b", Deny);
    OutcomesExactly(m, STRANGER, Verdict(RequireMFA, "a"));
    OutcomesExactly(m, STRANGER, Verdict(Deny, "b"));
  }

  /** One DENY rule that also asks for MFA: the documentation promises DENY, and every order answers REQUIRE_MFA. */
  lemma DenyRuleAsksForMFA(byDecision: bool, v: Verdict)
    requires Outcome(map["b" := BLOCK.(requireMFA := true)], STRANGER, v)
    ensures Documented(map["b" := BLOCK.(requireMFA := true)], STRANGER, byDecision) == Deny
    ensures v == Verdict(RequireMFA, "b")
  {
    var m := map["b" := BLOCK.(requireMFA := true)];
    assert Denies(m["b"], STRANGER) && Says(m, STRANGER, "b", RequireMFA);
    OutcomesExactly(m, STRANGER, v);
  }

  /** The engine reads a policy's decision only to find DENY: every other one, REQUIRE_MFA too, is like ALLOW. */
  lemma DecisionIsReadForDenyOnly(p: Policy, req: Request)
    ensures p.decision != Deny ==> Check(p, req) == Check(p.(decision := Allow), req)
    ensures p.decision == Deny ==> Check(p, req) != Allow
  {
  }

  /** One REQUIRE_MFA rule without the flag: every order grants access without MFA. */
  lemma RequireMFARuleGrants(v: Verdict)
    requires Outcome(map["b" := BLOCK.(decision := RequireMFA)], STRANGER, v)
    ensures Documented(map["b" := BLOCK.(decision := RequireMFA)], STRANGER, true) == RequireMFA
    ensures v == GRANTED
  {
    var m := map["b" := BLOCK.(decision := RequireMFA)];
    assert Asks(m["b"], STRANGER, true);
    OutcomesExactly(m, STRANGER, v);
  }

  // ---------------------------------------------------------------- ALLOW

  /** ALLOW does not depend on the order: one order grants access exactly when all do. */
  lemma AllowInEveryOrder(m: Policies, req: Request, v: Verdict)
    requires Outcome(m, req, v)
    ensures v.decision == Allow <==> SomeMatch(m, req) && EveryMatchPasses(m, req)
    ensures v.decision == Allow ==> v == GRANTED
  {
    OutcomesExactly(m, req, v);
  }

  /** The second request is at most as risky, and as trusted and as verified, as the first. */
  predicate Eases(req: Request, easier: Request) {
    && easier.role == req.role && easier.application == req.application
    && easier.riskScore <= req.riskScore
    && (req.deviceTrusted ==> easier.deviceTrusted)
    && (req.mfaVerified ==> easier.mfaVerified)
  }

  /** Access granted in one order stays granted, in every order, when the request gets easier. */
  lemma AllowSurvivesEasing(m: Policies, req: Request, v: Verdict, easier: Request, w: Verdict)
    requires Outcome(m, req, v) && v.decision == Allow
    requires Eases(req, easier) && Outcome(m, easier, w)
    ensures w == GRANTED
  {
    AllowInEveryOrder(m, req, v);
    AllowInEveryOrder(m, easier, w);
    forall k | k in m && Matches(m[k], easier)
      ensures Check(m[k], easier) == Allow
    {
      assert Matches(m[k], req);
    }
    var k :| k in m && Matches(m[k], req);
    assert Matches(m[k], easier);
  }

  /** Presenting a verified MFA code helps in every order exactly when nothing but the code was missing. */
  lemma StepUpExactly(m: Policies, req: Request)
    requires !req.mfaVerified
    ensures (forall v :: Outcome(m, req.(mfaVerified := true), v) ==> v.decision == Allow)
            <==>
            && SomeMatch(m, req)
            && forall k :: k in m && Matches(m[k], req) ==>
                 || Check(m[k], req) == Allow
                 || (Check(m[k], req) == RequireMFA && m[k].decision != Deny)
  {
    var stepped := req.(mfaVerified := true);
    var order := OrderExists(m.Keys);
    var some := EvaluateIn(m, order, stepped);
    assert Outcome(m, stepped, some);
    AllowInEveryOrder(m, stepped, some);
    forall v | Outcome(m, stepped, v)
      ensures v.decision == Allow <==> some.decision == Allow
    {
      AllowInEveryOrder(m, stepped, v);
    }
    assert forall k :: k in m ==> (Matches(m[k], req) <==> Matches(m[k], stepped));
    assert forall k :: k in m && Matches(m[k], req) ==>
      (Check(m[k], stepped) == Allow <==>
        (Check(m[k], req) == Allow || (Check(m[k], req) == RequireMFA && m[k].decision != Deny)));
  }

  /** If a step-up leads to access, no order had answered DENY before it. */
  lemma StepUpNeverFollowsDeny(m: Policies, req: Request, before: Verdict, after: Verdict)
    requires !req.mfaVerified && Outcome(m, req, before)
    requires Outcome(m, req.(mfaVerified := true), after) && after.decision == Allow
    ensures before.decision != Deny
  {
    var stepped := req.(mfaVerified := true);
    forall v | Outcome(m, stepped, v)
      ensures v.decision == Allow
    {
      AllowInEveryOrder(m, stepped, after);
      AllowInEveryOrder(m, stepped, v);
    }
    StepUpExactly(m, req);
    OutcomesExactly(m, req, before);
  }

  // ---------------------------------------------------------------- runs of updates

  predicate Touches(op: Op, k: string) {
    match op
    case Create(_, uuid) => uuid == k
    case Update(p) => p.id == k
    case Delete(id) => id == k
  }

  lemma {:induction false} UntouchedStays(m: Policies, ops: seq<Op>, k: string)
    requires k in m && forall op :: op in ops ==> !Touches(op, k)
    ensures k in ApplyAll(m, ops) && ApplyAll(m, ops)[k] == m[k]
    decreases |ops|
  {
    if ops != [] {
      assert !Touches(ops[0], k);
      UntouchedStays(Apply(m, ops[0]), ops[1..], k);
    }
  }

  /** A policy that blocks a request keeps blocking it, whatever is done to the other policies. */
  lemma BlockingPolicyKeepsBlocking(m: Policies, ops: seq<Op>, k: string, req: Request, v: Verdict)
    requires k in m && Matches(m[k], req) && Check(m[k], req) != Allow
    requires forall op :: op in ops ==> !Touches(op, k)
    requires Outcome(ApplyAll(m, ops), req, v)
    ensures v.decision != Allow
  {
    UntouchedStays(m, ops, k);
    AllowInEveryOrder(ApplyAll(m, ops), req, v);
  }
}
