/** The HTTP handlers over the engine and the audit log. Each request first uses the engine and then, as a
    separate atomic step, appends to the log; requests of different clients interleave between the two. */
module PolicyHandlers {
  import opened Wrappers
  import opened PolicyEngine
  import opened AuditLog

  datatype Claims = Claims(userID: string, role: string)

  datatype AccessBody = AccessBody(application: string, deviceTrusted: bool, mfaVerified: bool, riskScore: int)

  datatype Reply = Unauthorized | BadRequest | NotFound | Checked(verdict: Verdict) | Created(policy: Policy) | Deleted

  function DecisionText(d: Decision): string {
    match d
    case Allow => "ALLOW"
    case Deny => "DENY"
    case RequireMFA => "REQUIRE_MFA"
    case Other(text) => text
  }

  function AccessAction(v: Verdict): Action {
    if v.decision != Allow then AccessDenied else AccessGranted
  }

  function AccessEvent(req: Request, v: Verdict, userAgent: string): Event {
    Event("", req.userID, AccessAction(v), req.application, req.ipAddress, userAgent,
          map["decision" := DecisionText(v.decision)], None)
  }

  function CreatedEvent(userID: string, p: Policy): Event {
    Event("", userID, PolicyCreated, p.id, "", "", map["policy_name" := p.name], None)
  }

  function DeletedEvent(userID: string, id: string): Event {
    Event("", userID, PolicyDeleted, id, "", "", map[], None)
  }

  class Handler {
    const engine: Engine
    const auditLogger: MemoryLogger

    constructor (engine: Engine, auditLogger: MemoryLogger)
      ensures this.engine == engine && this.auditLogger == auditLogger
    {
      this.engine := engine;
      this.auditLogger := auditLogger;
    }

    /** The uuid and the time are those that the logger draws for the new audit event. */
    method CheckAccess(claims: Option<Claims>, body: Option<AccessBody>, remoteAddr: string, userAgent: string,
                       uuid: string, now: int)
      returns (r: Reply)
      modifies auditLogger
      ensures claims.None? ==> r == Unauthorized
      ensures claims.Some? && (body.None? || body.value.application == "") ==> r == BadRequest
      ensures claims.Some? && body.Some? && body.value.application != "" ==>
        var req := Request(claims.value.userID, claims.value.role, body.value.application, body.value.deviceTrusted,
                           body.value.mfaVerified, body.value.riskScore, remoteAddr);
        && r.Checked? && Outcome(engine.Contents(), req, r.verdict)
        && auditLogger.events == old(auditLogger.events) + [Stamp(AccessEvent(req, r.verdict, userAgent), uuid, now)]
        && auditLogger.events[|old(auditLogger.events)|] == Event(
             uuid, claims.value.userID, if r.verdict.decision.Allow? then AccessGranted else AccessDenied,
             body.value.application, remoteAddr, userAgent,
             map["decision" := if r.verdict.decision.Allow? then "ALLOW"
                               else if r.verdict.decision.Deny? then "DENY" else "REQUIRE_MFA"],
             Some(now))
      ensures !r.Checked? ==> auditLogger.events == old(auditLogger.events)
    {
      if claims.None? {
        return Unauthorized;
      }
      if body.None? {
        return BadRequest;
      }
      if body.value.application == "" {
        return BadRequest;
      }
      var req := Request(claims.value.userID, claims.value.role, body.value.application, body.value.deviceTrusted,
                         body.value.mfaVerified, body.value.riskScore, remoteAddr);
      var v := engine.Evaluate(req);
      var action := AccessGranted;
      if v.decision != Allow {
        action := AccessDenied;
      }
      auditLogger.Log(Event("", req.userID, action, req.application, remoteAddr, userAgent,
                            map["decision" := DecisionText(v.decision)], None), uuid, now);
      r := Checked(v);
    }

    /** The body's policy has no id yet; policyUuid is drawn by the engine, uuid and now by the logger. */
    method CreatePolicy(claims: Claims, body: Option<Policy>, policyUuid: string, uuid: string, now: int)
      returns (r: Reply)
      modifies engine, auditLogger
      ensures r == if body.None? || body.value.name == "" || body.value.application == "" then BadRequest
                   else Created(body.value.(id := policyUuid))
      ensures r.Created? ==>
        && engine.Contents() == Apply(old(engine.Contents()), Create(body.value, policyUuid))
        && auditLogger.events == old(auditLogger.events) + [Stamp(CreatedEvent(claims.userID, r.policy), uuid, now)]
        && auditLogger.events[|old(auditLogger.events)|] == Event(
             uuid, claims.userID, PolicyCreated, policyUuid, "", "", map["policy_name" := body.value.name], Some(now))
      ensures !r.Created? ==>
        engine.Contents() == old(engine.Contents()) && auditLogger.events == old(auditLogger.events)
    {
      if body.None? {
        return BadRequest;
      }
      if body.value.name == "" || body.value.application == "" {
        return BadRequest;
      }
      var p := engine.CreatePolicy(body.value, policyUuid);
      auditLogger.Log(CreatedEvent(claims.userID, p.value), uuid, now);
      r := Created(p.value);
    }

    method DeletePolicy(claims: Claims, id: string, uuid: string, now: int) returns (r: Reply)
      modifies engine, auditLogger
      ensures r == if id == "" then BadRequest else if id !in old(engine.Contents()) then NotFound else Deleted
      ensures r.Deleted? ==>
        && engine.Contents() == Apply(old(engine.Contents()), Delete(id))
        && auditLogger.events == old(auditLogger.events) + [Stamp(DeletedEvent(claims.userID, id), uuid, now)]
        && auditLogger.events[|old(auditLogger.events)|]
           == Event(uuid, claims.userID, PolicyDeleted, id, "", "", map[], Some(now))
      ensures !r.Deleted? ==>
        engine.Contents() == old(engine.Contents()) && auditLogger.events == old(auditLogger.events)
    {
      if id == "" {
        return BadRequest;
      }
      var ok := engine.DeletePolicy(id);
      if !ok {
        return NotFound;
      }
      auditLogger.Log(DeletedEvent(claims.userID, id), uuid, now);
      r := Deleted;
    }
  }

  // ---------------------------------------------------------------- the interleaved system

  /** An evaluation, as its request carries it from the engine to the log. */
  datatype Access = Access(req: Request, verdict: Verdict, userAgent: string)

  function EntryOf(a: Access): Event {
    AccessEvent(a.req, a.verdict, a.userAgent)
  }

  /** The shared state, with the requests that are between their two steps: the ids that creates and deletes are
      about to log, and the evaluations that access checks are about to log, oldest first. The history variables
      are the ids that the engine started with and all the ids it ever had. */
  datatype World = World(
    policies: Policies,
    log: seq<Event>,
    awaitingCreated: multiset<string>,
    awaitingDeleted: multiset<string>,
    awaitingAccess: seq<Access>,
    initial: set<string>,
    issued: set<string>)

  /** LogAccess names the waiting evaluation by its position: any of the waiting requests may go on first. */
  datatype Step =
    | CreateStep(policy: Policy, uuid: string)
    | DeleteStep(id: string)
    | AccessStep(access: Access)
    | LogCreated(event: Event)
    | LogDeleted(event: Event)
    | LogAccess(waiting: nat, eventUuid: string, now: int)
    | LogOther(event: Event)

  ghost predicate Start(w: World) {
    && w.log == []
    && w.awaitingCreated == w.awaitingDeleted == multiset{}
    && w.awaitingAccess == []
    && w.initial == w.issued == w.policies.Keys
  }

  ghost predicate Enabled(w: World, s: Step) {
    match s
    case CreateStep(p, uuid) => uuid !in w.issued  // uuids are fresh
    case DeleteStep(id) => id in w.policies
    case AccessStep(a) => Outcome(w.policies, a.req, a.verdict)
    case LogCreated(e) => e.action == PolicyCreated && e.resource in w.awaitingCreated
    case LogDeleted(e) => e.action == PolicyDeleted && e.resource in w.awaitingDeleted
    case LogAccess(i, _, _) => i < |w.awaitingAccess|
    case LogOther(e) => e.action !in {PolicyCreated, PolicyDeleted, AccessGranted, AccessDenied}
  }

  ghost function Take(w: World, s: Step): World
    requires Enabled(w, s)
  {
    match s
    case CreateStep(p, uuid) =>
      w.(policies := Apply(w.policies, Create(p, uuid)),
         awaitingCreated := w.awaitingCreated + multiset{uuid},
         issued := w.issued + {uuid})
    case DeleteStep(id) =>
      w.(policies := Apply(w.policies, Delete(id)), awaitingDeleted := w.awaitingDeleted + multiset{id})
    case AccessStep(a) => w.(awaitingAccess := w.awaitingAccess + [a])
    case LogCreated(e) => w.(log := w.log + [e], awaitingCreated := w.awaitingCreated - multiset{e.resource})
    case LogDeleted(e) => w.(log := w.log + [e], awaitingDeleted := w.awaitingDeleted - multiset{e.resource})
    case LogAccess(i, uuid, now) =>
      w.(log := w.log + [Stamp(EntryOf(w.awaitingAccess[i]), uuid, now)],
         awaitingAccess := w.awaitingAccess[..i] + w.awaitingAccess[i + 1..])
    case LogOther(e) => w.(log := w.log + [e])
  }

  ghost predicate Leads(w: World, s: Step, w': World) {
    Enabled(w, s) && Take(w, s) == w'
  }

  /** The i-th step leads from state i to state i + 1. */
  ghost predicate IsRun(run: seq<World>, steps: seq<Step>) {
    && |run| == |steps| + 1 && Start(run[0])
    && forall i :: 0 <= i < |steps| ==> Leads(run[i], steps[i], run[i + 1])
  }

  /** No create or delete request is between its two steps. */
  predicate Quiescent(w: World) {
    w.awaitingCreated == multiset{} && w.awaitingDeleted == multiset{}
  }

  /** An uninterrupted CreatePolicy, DeletePolicy or CheckAccess request is its engine step followed by its log step. */
  lemma UninterruptedRequestsAreTwoSteps(w: World, userID: string, p: Policy, id: string, a: Access,
                                         uuid: string, now: int)
    ensures id !in w.issued ==>
      var create := CreateStep(p, id);
      var entry := LogCreated(Stamp(CreatedEvent(userID, p.(id := id)), uuid, now));
      && Enabled(w, create) && Enabled(Take(w, create), entry)
      && Take(Take(w, create), entry)
         == w.(policies := Apply(w.policies, Create(p, id)), log := w.log + [entry.event], issued := w.issued + {id})
    ensures id in w.policies ==>
      var delete := DeleteStep(id);
      var entry := LogDeleted(Stamp(DeletedEvent(userID, id), uuid, now));
      && Enabled(w, delete) && Enabled(Take(w, delete), entry)
      && Take(Take(w, delete), entry) == w.(policies := Apply(w.policies, Delete(id)), log := w.log + [entry.event])
    ensures Outcome(w.policies, a.req, a.verdict) ==>
      var access := AccessStep(a);
      var entry := LogAccess(|w.awaitingAccess|, uuid, now);
      && Enabled(w, access) && Enabled(Take(w, access), entry)
      && Take(Take(w, access), entry) == w.(log := w.log + [Stamp(EntryOf(a), uuid, now)])
  {
    assert w.awaitingCreated + multiset{id} - multiset{id} == w.awaitingCreated;
    assert w.awaitingDeleted + multiset{id} - multiset{id} == w.awaitingDeleted;
    var waiting := w.awaitingAccess + [a];
    var n := |w.awaitingAccess|;
    assert waiting[..n] + waiting[n + 1..] == w.awaitingAccess;
  }
}
