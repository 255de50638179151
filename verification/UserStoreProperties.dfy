/** When the two maps of the store agree, after one operation and after whole runs. */
module UserStoreProperties {
  import opened UserStore

  /** The two maps are mutually inverse views of one set of users. */
  ghost predicate Agree(t: Tables) {
    && (forall id :: id in t.byID ==>
          && t.byID[id].id == id
          && t.byID[id].username in t.byUsername
          && t.byUsername[t.byID[id].username] == t.byID[id])
    && (forall n :: n in t.byUsername ==>
          && t.byUsername[n].username == n
          && t.byUsername[n].id in t.byID
          && t.byID[t.byUsername[n].id] == t.byUsername[n])
  }

  /** A search through all users by name. */
  ghost predicate Found(t: Tables, name: string, r: Record) {
    exists id :: id in t.byID && t.byID[id].username == name && t.byID[id] == r
  }

  /** When the maps agree, a lookup by name is a search through the users, and finds at most one. */
  lemma LookupIsSearch(t: Tables, name: string, r: Record)
    requires Agree(t)
    ensures Found(t, name, r) <==> name in t.byUsername && t.byUsername[name] == r
  {
    if name in t.byUsername && t.byUsername[name] == r {
      assert t.byID[r.id] == r;
    }
  }

  /** Creating a user keeps the agreement exactly when its id is not taken; the store checks only the name. */
  lemma CreateKeepsAgreementIff(t: Tables, u: Record, uuid: string, now: int)
    requires Agree(t) && u.username !in t.byUsername
    ensures Agree(Created(t, u, uuid, now)) <==> Stamped(u, uuid, now).id !in t.byID
  {
    var stored, t' := Stamped(u, uuid, now), Created(t, u, uuid, now);
    if stored.id in t.byID {
      var name := t.byID[stored.id].username;
      assert name in t'.byUsername && t'.byUsername[name].id == stored.id;
      assert t'.byID[t'.byUsername[name].id] != t'.byUsername[name];
    }
  }

  lemma AllowedUpdateAgrees(t: Tables, u: Record, now: int)
    requires Agree(t) && u.id in t.byID
    requires u.username in t.byUsername ==> t.byUsername[u.username].id == u.id
    ensures Agree(Updated(t, u, now))
  {
  }

  /** Updating a user keeps the agreement exactly when no other user has the new name; the store does not check. */
  lemma UpdateKeepsAgreementIff(t: Tables, u: Record, now: int)
    requires Agree(t) && u.id in t.byID
    ensures Agree(Updated(t, u, now)) <==> (u.username in t.byUsername ==> t.byUsername[u.username].id == u.id)
  {
    if u.username in t.byUsername && t.byUsername[u.username].id != u.id {
      var t', other := Updated(t, u, now), t.byUsername[u.username].id;
      assert other in t'.byID && t'.byID[other].username == u.username;
    } else {
      AllowedUpdateAgrees(t, u, now);
    }
  }

  /** A rename drops the old name only, and leaves every other user as it was, in both maps. */
  lemma RenameTouchesOneUser(t: Tables, u: Record, now: int)
    requires Agree(t) && u.id in t.byID
    requires u.username in t.byUsername ==> t.byUsername[u.username].id == u.id
    ensures var t', former := Updated(t, u, now), t.byID[u.id].username;
            && t'.byID == t.byID[u.id := u.(updatedAt := now)]
            && t'.byUsername == (t.byUsername - {former})[u.username := u.(updatedAt := now)]
            && forall n :: n in t.byUsername && t.byUsername[n].id != u.id ==>
                 n in t'.byUsername && t'.byUsername[n] == t.byUsername[n]
  {
  }

  // ---------------------------------------------------------------- runs

  datatype Op = Create(user: Record, uuid: string, now: int) | Update(user: Record, now: int)

  function Apply(t: Tables, op: Op): Tables {
    match op
    case Create(u, uuid, now) => Created(t, u, uuid, now)
    case Update(u, now) => Updated(t, u, now)
  }

  /** What the key and the UNIQUE constraint of the database schema enforce: a fresh id for a new user, and no
      update to another user's name. */
  predicate Allowed(t: Tables, op: Op) {
    match op
    case Create(u, uuid, now) => u.username in t.byUsername || Stamped(u, uuid, now).id !in t.byID
    case Update(u, _) => u.id !in t.byID || (u.username in t.byUsername ==> t.byUsername[u.username].id == u.id)
  }

  function ApplyAll(ops: seq<Op>): Tables {
    if ops == [] then EMPTY else Apply(ApplyAll(ops[..|ops| - 1]), ops[|ops| - 1])
  }

  ghost predicate AllAllowed(ops: seq<Op>) {
    forall i :: 0 <= i < |ops| ==> Allowed(ApplyAll(ops[..i]), ops[i])
  }

  /** The maps agree after every run of allowed steps. */
  lemma {:induction false} AllowedRunsAgree(ops: seq<Op>)
    requires AllAllowed(ops)
    ensures Agree(ApplyAll(ops))
  {
    if ops != [] {
      var n := |ops| - 1;
      var init := ops[..n];
      forall i | 0 <= i < n
        ensures Allowed(ApplyAll(init[..i]), init[i])
      {
        assert init[..i] == ops[..i];
        assert Allowed(ApplyAll(ops[..i]), ops[i]);
      }
      AllowedRunsAgree(init);
      StepKeepsAgreementIff(ApplyAll(init), ops[n]);
    }
  }

  lemma StepKeepsAgreementIff(t: Tables, op: Op)
    requires Agree(t)
    ensures Agree(Apply(t, op)) <==> Allowed(t, op)
  {
    match op
    case Create(u, uuid, now) =>
      if u.username !in t.byUsername {
        CreateKeepsAgreementIff(t, u, uuid, now);
      }
    case Update(u, now) =>
      if u.id in t.byID {
        UpdateKeepsAgreementIff(t, u, now);
      }
  }

  // ---------------------------------------------------------------- broken agreement

  /** The store accepts a new user under the id of another one, and the maps part. */
  lemma TakenIdIsAccepted() returns (t: Tables, u: Record)
    ensures Agree(t) && u.username !in t.byUsername && u.id in t.byID
    ensures !Agree(Created(t, u, "", 0))
  {
    var ann := Record("1", "ann", "", "user", "", "active", "", false, 0, 0);
    t := Created(EMPTY, ann, "", 0);
    u := ann.(username := "bob");
    assert u.username[0] != ann.username[0];
    CreateKeepsAgreementIff(t, u, "", 0);
  }

  /** The store accepts an update to another user's name, and the maps part. */
  lemma StolenNameIsAccepted() returns (t: Tables, u: Record)
    ensures Agree(t) && u.id in t.byID && u.username in t.byUsername && t.byUsername[u.username].id != u.id
    ensures !Agree(Updated(t, u, 0))
  {
    var ann := Record("1", "ann", "", "user", "", "active", "", false, 0, 0);
    var bob := ann.(id := "2", username := "bob");
    assert ann.id[0] != bob.id[0] && ann.username[0] != bob.username[0];
    t := Created(Created(EMPTY, ann, "", 0), bob, "", 0);
    u := bob.(username := "ann");
    UpdateKeepsAgreementIff(t, u, 0);
  }
}
