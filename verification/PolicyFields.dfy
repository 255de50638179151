/** What the fields of a policy do to the answers, in every map order, and how a new engine decides. */
module PolicyFields {
  import opened PolicyEngine
  import opened PolicyProperties

  /** The policy is disabled, or meant for another role or another application. */
  predicate Uninvolved(p: Policy, req: Request) {
    || !p.enabled
    || (p.role != req.role && p.role != "*")
    || (p.application != req.application && p.application != "*")
  }

  /** Two maps with the same involved policies under the same keys. */
  ghost predicate SameInvolved(m: Policies, m': Policies, req: Request) {
    && (forall k :: k in m && !Uninvolved(m[k], req) ==> k in m' && m'[k] == m[k])
    && (forall k :: k in m' && !Uninvolved(m'[k], req) ==> k in m && m[k] == m'[k])
  }

  lemma SameInvolvedSameOutcomes(m: Policies, m': Policies, req: Request, v: Verdict)
    requires SameInvolved(m, m', req) && Outcome(m, req, v)
    ensures Outcome(m', req, v)
  {
    assert forall k :: k in m && Matches(m[k], req) ==> k in m' && m'[k] == m[k];
    assert forall k :: k in m' && Matches(m'[k], req) ==> k in m && m[k] == m'[k];
    OutcomesExactly(m, req, v);
    OutcomesExactly(m', req, v);
    if SomeMatch(m, req) && !EveryMatchPasses(m, req) {
      var k, d :| Says(m, req, k, d) && d != Allow && v == Verdict(d, m[k].id);
      assert Says(m', req, k, d);
    }
  }

  /** Filing an uninvolved policy under a new key, or taking it away, changes no answer. */
  lemma UninvolvedPolicyChangesNothing(m: Policies, k: string, p: Policy, req: Request, v: Verdict)
    requires k !in m && Uninvolved(p, req)
    ensures Outcome(m[k := p], req, v) <==> Outcome(m, req, v)
  {
    if Outcome(m, req, v) {
      SameInvolvedSameOutcomes(m, m[k := p], req, v);
    }
    if Outcome(m[k := p], req, v) {
      SameInvolvedSameOutcomes(m[k := p], m, req, v);
    }
  }

  /** Without an involved policy the only answer is the default denial. */
  lemma NobodyInvolvedDenies(m: Policies, req: Request, v: Verdict)
    requires forall k :: k in m ==> Uninvolved(m[k], req)
    ensures Outcome(m, req, v) <==> v == Verdict(Deny, "")
  {
    OutcomesExactly(m, req, v);
    assert !SomeMatch(m, req);
  }

  /** What an involved policy alone answers. */
  function Alone(p: Policy, req: Request): Verdict {
    if 0 < p.maxRiskScore < req.riskScore then Verdict(Deny, p.id)
    else if p.requireTrusted && !req.deviceTrusted then Verdict(Deny, p.id)
    else if p.requireMFA && !req.mfaVerified then Verdict(RequireMFA, p.id)
    else if p.decision.Deny? then Verdict(Deny, p.id)
    else Verdict(Allow, "")
  }

  lemma InvolvedPolicyAlone(k: string, p: Policy, req: Request, v: Verdict)
    requires !Uninvolved(p, req)
    ensures Outcome(map[k := p], req, v) <==> v == Alone(p, req)
  {
    var m := map[k := p];
    assert Matches(m[k], req);
    OutcomesExactly(m, req, v);
    if Check(p, req) != Allow {
      assert Says(m, req, k, Check(p, req));
    }
  }

  /** An involved policy whose fields deny or ask keeps every order from ALLOW, whatever else is stored. */
  lemma InvolvedPolicyBlocks(m: Policies, k: string, req: Request, v: Verdict)
    requires k in m && !Uninvolved(m[k], req) && Alone(m[k], req).decision != Allow
    requires Outcome(m, req, v)
    ensures v.decision != Allow
  {
    assert Matches(m[k], req) && Check(m[k], req) != Allow;
    AllowInEveryOrder(m, req, v);
  }

  // ---------------------------------------------------------------- a new engine

  lemma NewPolicies(u0: string, u1: string, u2: string)
    requires u0 != u1 && u0 != u2 && u1 != u2
    ensures Defaults(u0, u1, u2).Keys == {u0, u1, u2}
    ensures var m := Defaults(u0, u1, u2);
            && m[u0] == Policy(u0, "Developer AWS Console Access", "developer", "aws-console",
                               true, true, 70, Allow, true)
            && m[u1] == Policy(u1, "Admin Full Access", "admin", "*", true, false, 50, Allow, true)
            && m[u2] == Policy(u2, "Viewer Read-Only", "viewer", "*", false, false, 0, Allow, true)
  {
  }

  lemma RolesDiffer()
    ensures "developer" != "admin" && "developer" != "viewer" && "admin" != "viewer"
    ensures "developer" != "*" && "admin" != "*" && "viewer" != "*" && "aws-console" != "*"
  {
    assert "developer"[0] == 'd' && "admin"[0] == 'a' && "viewer"[0] == 'v' && "*"[0] == '*' && "aws-console"[0] == 'a';
  }

  /** Every request to a new engine, in every order: administrators and developers on the AWS console by their
      policy, viewers always, and nobody else. */
  lemma NewEngineDecides(u0: string, u1: string, u2: string, req: Request, v: Verdict)
    requires u0 != u1 && u0 != u2 && u1 != u2
    ensures Outcome(Defaults(u0, u1, u2), req, v) <==>
            v == if req.role == "developer" && req.application == "aws-console" then
                   if req.riskScore > 70 || !req.deviceTrusted then Verdict(Deny, u0)
                   else if !req.mfaVerified then Verdict(RequireMFA, u0)
                   else Verdict(Allow, "")
                 else if req.role == "admin" then
                   if req.riskScore > 50 then Verdict(Deny, u1)
                   else if !req.mfaVerified then Verdict(RequireMFA, u1)
                   else Verdict(Allow, "")
                 else if req.role == "viewer" then Verdict(Allow, "")
                 else Verdict(Deny, "")
  {
    var m := Defaults(u0, u1, u2);
    NewPolicies(u0, u1, u2);
    RolesDiffer();
    if req.role == "developer" && req.application == "aws-console" {
      OneInvolved(m, u0, req, v);
    } else if req.role == "admin" {
      OneInvolved(m, u1, req, v);
    } else if req.role == "viewer" {
      OneInvolved(m, u2, req, v);
    } else {
      NobodyInvolvedDenies(m, req, v);
    }
  }

  /** With one involved policy the others do not matter. */
  lemma OneInvolved(m: Policies, k: string, req: Request, v: Verdict)
    requires k in m && !Uninvolved(m[k], req) && forall j :: j in m && j != k ==> Uninvolved(m[j], req)
    ensures Outcome(m, req, v) <==> v == Alone(m[k], req)
  {
    InvolvedPolicyAlone(k, m[k], req, v);
    if Outcome(m, req, v) {
      SameInvolvedSameOutcomes(m, map[k := m[k]], req, v);
    }
    if Outcome(map[k := m[k]], req, v) {
      SameInvolvedSameOutcomes(map[k := m[k]], m, req, v);
    }
  }
}
