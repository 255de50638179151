/** The access policy engine: matching, per-policy checks, evaluation in map order, and CRUD. */
module PolicyEngine {
  import opened Wrappers

  /** Policies arrive as JSON, so a policy may carry any text here; results carry only the first three. */
  datatype Decision = Allow | Deny | RequireMFA | Other(text: string)

  datatype Policy = Policy(
    id: string,
    name: string,
    role: string,
    application: string,
    requireMFA: bool,
    requireTrusted: bool,
    maxRiskScore: int,
    decision: Decision,
    enabled: bool)

  datatype Request = Request(
    userID: string,
    role: string,
    application: string,
    deviceTrusted: bool,
    mfaVerified: bool,
    riskScore: int,
    ipAddress: string)

  /** The engine's answer without its reason text; policyID is empty unless one policy failed. */
  datatype Verdict = Verdict(decision: Decision, policyID: string)

  type Policies = map<string, Policy>

  const ANY := "*"
  const DEFAULT_DENY := Verdict(Deny, "")
  const GRANTED := Verdict(Allow, "")

  predicate Matches(p: Policy, req: Request) {
    && p.enabled
    && (p.role == req.role || p.role == ANY)
    && (p.application == ANY || p.application == req.application)
  }

  /** What one matching policy says; Allow means that the evaluation goes on to the next one. */
  function Check(p: Policy, req: Request): Decision {
    if p.maxRiskScore > 0 && req.riskScore > p.maxRiskScore then Deny
    else if p.requireTrusted && !req.deviceTrusted then Deny
    else if p.requireMFA && !req.mfaVerified then RequireMFA
    else if p.decision == Deny then Deny
    else Allow
  }

  /** Go ranges over a map in an unspecified order: any sequence that lists every key once. */
  ghost predicate IsOrder(order: seq<string>, keys: set<string>) {
    && (forall k :: k in order <==> k in keys)
    && (forall i, j :: 0 <= i < j < |order| ==> order[i] != order[j])
  }

  function MatchingIn(m: Policies, order: seq<string>, req: Request): (ps: seq<Policy>)
    requires forall k :: k in order ==> k in m
  {
    if order == [] then []
    else
      var last := |order| - 1;
      MatchingIn(m, order[..last], req) + if Matches(m[order[last]], req) then [m[order[last]]] else []
  }

  /** The second loop: return at the first policy that fails. */
  function FirstFailure(ps: seq<Policy>, req: Request): Verdict {
    if ps == [] then GRANTED
    else if Check(ps[0], req) != Allow then Verdict(Check(ps[0], req), ps[0].id)
    else FirstFailure(ps[1..], req)
  }

  function EvaluateIn(m: Policies, order: seq<string>, req: Request): Verdict
    requires forall k :: k in order ==> k in m
  {
    var matching := MatchingIn(m, order, req);
    if matching == [] then DEFAULT_DENY else FirstFailure(matching, req)
  }

  /** The outcomes of Evaluate: one for every order in which the map may be visited. */
  ghost predicate Outcome(m: Policies, req: Request, v: Verdict) {
    exists order :: IsOrder(order, m.Keys) && EvaluateIn(m, order, req) == v
  }

  /** Every policy is filed under its own id. */
  ghost predicate Keyed(m: Policies) {
    forall k :: k in m ==> m[k].id == k
  }

  /** The engine's state changes. A create carries the uuid drawn for it. */
  datatype Op = Create(policy: Policy, uuid: string) | Update(policy: Policy) | Delete(id: string)

  function Apply(m: Policies, op: Op): Policies {
    match op
    case Create(p, uuid) => m[uuid := p.(id := uuid)]
    case Update(p) => if p.id in m then m[p.id := p] else m
    case Delete(id) => m - {id}
  }

  function ApplyAll(m: Policies, ops: seq<Op>): Policies
    decreases |ops|
  {
    if ops == [] then m else ApplyAll(Apply(m, ops[0]), ops[1..])
  }

  const DEVELOPER_SEED :=
    Policy("", "Developer AWS Console Access", "developer", "aws-console", true, true, 70, Allow, true)
  const ADMIN_SEED := Policy("", "Admin Full Access", "admin", ANY, true, false, 50, Allow, true)
  const VIEWER_SEED := Policy("", "Viewer Read-Only", "viewer", ANY, false, false, 0, Allow, true)

  function Defaults(u0: string, u1: string, u2: string): Policies {
    Apply(Apply(Apply(map[], Create(DEVELOPER_SEED, u0)), Create(ADMIN_SEED, u1)), Create(VIEWER_SEED, u2))
  }

  /** A policy in memory, for a Go pointer to it. */
  class PolicyObject {
    var value: Policy

    constructor (p: Policy)
      ensures value == p
    {
      value := p;
    }
  }

  class Engine {
    var policies: map<string, PolicyObject>

    /** The stored policies, by value. */
    ghost function Contents(): Policies
      reads this, policies.Values
    {
      map k | k in policies :: policies[k].value
    }

    /** A new engine holds the three default policies under freshly drawn uuids. */
    constructor (u0: string, u1: string, u2: string)
      ensures Contents() == Defaults(u0, u1, u2) && Keyed(Contents())
      ensures forall k :: k in policies ==> fresh(policies[k])
    {
      new;
      var developer := new PolicyObject(DEVELOPER_SEED.(id := u0));
      var admin := new PolicyObject(ADMIN_SEED.(id := u1));
      var viewer := new PolicyObject(VIEWER_SEED.(id := u2));
      policies := map[][u0 := developer][u1 := admin][u2 := viewer];
    }

    method Evaluate(req: Request) returns (v: Verdict)
      ensures Outcome(Contents(), req, v)
      ensures v.decision == Allow || v.decision == Deny || v.decision == RequireMFA
    {
      var matching := Matching(req);
      if |matching| == 0 {
        return DEFAULT_DENY;
      }
      for i := 0 to |matching|
        invariant FirstFailure(matching, req) == FirstFailure(matching[i..], req)
      {
        var p := matching[i];
        assert matching[i..][1..] == matching[i + 1..];
        if p.maxRiskScore > 0 && req.riskScore > p.maxRiskScore {
          return Verdict(Deny, p.id);
        }
        if p.requireTrusted && !req.deviceTrusted {
          return Verdict(Deny, p.id);
        }
        if p.requireMFA && !req.mfaVerified {
          return Verdict(RequireMFA, p.id);
        }
        if p.decision == Deny {
          return Verdict(Deny, p.id);
        }
      }
      return GRANTED;
    }

    /** The first loop of Evaluate, over the map in an unspecified order. */
    method Matching(req: Request) returns (matching: seq<Policy>)
      ensures exists order :: IsOrder(order, Contents().Keys) && matching == MatchingIn(Contents(), order, req)
    {
      matching := [];
      var todo := policies.Keys;
      ghost var order: seq<string> := [];
      while todo != {}
        invariant todo <= policies.Keys
        invariant IsOrder(order, policies.Keys - todo)
        invariant matching == MatchingIn(Contents(), order, req)
      {
        var id :| id in todo;
        todo := todo - {id};
        ghost var visited := order;
        order := order + [id];
        assert order[..|order| - 1] == visited;
        var p := policies[id].value;
        if !p.enabled {
          continue;
        }
        if p.role != req.role && p.role != ANY {
          continue;
        }
        if p.application != ANY && p.application != req.application {
          continue;
        }
        matching := matching + [p];
      }
      assert policies.Keys - todo == Contents().Keys;
    }

    /** The returned object is the stored one. */
    method CreatePolicy(p: Policy, uuid: string) returns (created: PolicyObject)
      modifies this
      ensures fresh(created) && created.value == p.(id := uuid)
      ensures policies == old(policies)[uuid := created]
      ensures Contents() == Apply(old(Contents()), Create(p, uuid))
      ensures old(Keyed(Contents())) ==> Keyed(Contents())
    {
      created := new PolicyObject(p.(id := uuid));
      policies := policies[uuid := created];
    }

    /** Copies of all policies. */
    method ListPolicies() returns (out: seq<PolicyObject>)
      ensures exists order :: IsOrder(order, Contents().Keys)
                              && |out| == |order|
                              && forall i :: 0 <= i < |out| ==>
                                   order[i] in Contents() && out[i].value == Contents()[order[i]]
      ensures forall i :: 0 <= i < |out| ==> fresh(out[i])
      ensures forall i, j :: 0 <= i < j < |out| ==> out[i] != out[j]
    {
      out := [];
      var todo := policies.Keys;
      ghost var order: seq<string> := [];
      while todo != {}
        invariant todo <= policies.Keys
        invariant IsOrder(order, policies.Keys - todo)
        invariant |out| == |order|
        invariant forall i :: 0 <= i < |out| ==> order[i] in Contents() && out[i].value == Contents()[order[i]]
        invariant forall i :: 0 <= i < |out| ==> fresh(out[i])
        invariant forall i, j :: 0 <= i < j < |out| ==> out[i] != out[j]
      {
        var id :| id in todo;
        todo := todo - {id};
        var cp := new PolicyObject(policies[id].value);
        out, order := out + [cp], order + [id];
      }
      assert policies.Keys - todo == Contents().Keys;
    }

    /** A copy of the stored policy. */
    method GetPolicy(id: string) returns (r: Option<PolicyObject>)
      ensures r.Some? <==> id in Contents()
      ensures r.Some? ==> fresh(r.value) && r.value.value == Contents()[id]
    {
      if id !in policies {
        return None;
      }
      var cp := new PolicyObject(policies[id].value);
      r := Some(cp);
    }

    /** The returned object is the stored one. */
    method UpdatePolicy(p: Policy) returns (updated: Option<PolicyObject>)
      modifies this
      ensures updated.Some? <==> p.id in old(Contents())
      ensures updated.Some? ==>
        fresh(updated.value) && updated.value.value == p && policies == old(policies)[p.id := updated.value]
      ensures updated.None? ==> policies == old(policies)
      ensures Contents() == Apply(old(Contents()), Update(p))
      ensures old(Keyed(Contents())) ==> Keyed(Contents())
    {
      if p.id !in policies {
        return None;
      }
      var cp := new PolicyObject(p);
      policies := policies[p.id := cp];
      updated := Some(cp);
    }

    method DeletePolicy(id: string) returns (ok: bool)
      modifies this
      ensures ok == (id in old(Contents()))
      ensures policies == old(policies) - {id}
      ensures Contents() == Apply(old(Contents()), Delete(id))
      ensures old(Keyed(Contents())) ==> Keyed(Contents())
    {
      if id !in policies {
        return false;
      }
      policies := policies - {id};
      ok := true;
    }
  }

  /** Whatever the holder of a policy object writes into it: the engine changes exactly where it stores that very
      object. So objects from GetPolicy and ListPolicies are harmless, and those from CreatePolicy and UpdatePolicy
      are not, as long as they are stored. */
  method WriteAsHolder(engine: Engine, o: PolicyObject, p: Policy)
    modifies o
    ensures engine.Contents().Keys == old(engine.Contents()).Keys
    ensures forall k :: k in engine.Contents() ==>
              engine.Contents()[k] == if engine.policies[k] == o then p else old(engine.Contents())[k]
  {
    o.value := p;
  }
}
