/** The in-memory user store: two maps to shared user objects, and copies at every boundary. */
module UserStore {
  import opened Wrappers

  /** The values of a user's fields. */
  datatype Record = Record(
    id: string,
    username: string,
    passwordHash: string,
    role: string,
    organizationID: string,
    status: string,
    mfaSecret: string,
    mfaEnabled: bool,
    createdAt: int,
    updatedAt: int)

  datatype StoreError = UserAlreadyExists | UserNotFound

  /** The contents of the two maps, by value. */
  datatype Tables = Tables(byID: map<string, Record>, byUsername: map<string, Record>)

  const EMPTY := Tables(map[], map[])

  /** A record goes into both maps. */
  function Put(t: Tables, u: Record): Tables {
    Tables(t.byID[u.id := u], t.byUsername[u.username := u])
  }

  /** The record that CreateUser stores: with an id, and stamped. */
  function Stamped(u: Record, uuid: string, now: int): Record {
    u.(id := if u.id == "" then uuid else u.id, createdAt := now, updatedAt := now)
  }

  function Created(t: Tables, u: Record, uuid: string, now: int): Tables {
    if u.username in t.byUsername then t
    else Put(t, Stamped(u, uuid, now))
  }

  function Updated(t: Tables, u: Record, now: int): Tables {
    if u.id !in t.byID then t
    else
      var former, t' := t.byID[u.id].username, Put(t, u.(updatedAt := now));
      if former != u.username then t'.(byUsername := t'.byUsername - {former}) else t'
  }

  class User {
    var id: string
    var username: string
    var passwordHash: string
    var role: string
    var organizationID: string
    var status: string
    var mfaSecret: string
    var mfaEnabled: bool
    var createdAt: int
    var updatedAt: int

    function Value(): Record
      reads this
    {
      Record(id, username, passwordHash, role, organizationID, status, mfaSecret, mfaEnabled, createdAt, updatedAt)
    }

    constructor (r: Record)
      ensures Value() == r && id == r.id && username == r.username
    {
      id, username, passwordHash, role := r.id, r.username, r.passwordHash, r.role;
      organizationID, status, mfaSecret, mfaEnabled := r.organizationID, r.status, r.mfaSecret, r.mfaEnabled;
      createdAt, updatedAt := r.createdAt, r.updatedAt;
    }

    /** Whatever a caller may write into an object that it holds. */
    method Overwrite(r: Record)
      modifies this
      ensures Value() == r
    {
      id, username, passwordHash, role := r.id, r.username, r.passwordHash, r.role;
      organizationID, status, mfaSecret, mfaEnabled := r.organizationID, r.status, r.mfaSecret, r.mfaEnabled;
      createdAt, updatedAt := r.createdAt, r.updatedAt;
    }
  }

  function Values(m: map<string, User>): map<string, Record>
    reads m.Values
  {
    map k | k in m :: m[k].Value()
  }

  lemma ValuesUpdated(m: map<string, User>, k: string, u: User)
    ensures Values(m[k := u]) == Values(m)[k := u.Value()]
  {
  }

  lemma ValuesRemoved(m: map<string, User>, k: string)
    ensures Values(m - {k}) == Values(m) - {k}
  {
  }

  class MemoryUserStore {
    var byID: map<string, User>
    var byUsername: map<string, User>
    ghost var Repr: set<object>

    ghost predicate Valid()
      reads this, Repr
    {
      && this in Repr
      && (forall k :: k in byID ==> byID[k] in Repr)
      && (forall k :: k in byUsername ==> byUsername[k] in Repr)
    }

    ghost function Contents(): Tables
      requires Valid()
      reads this, Repr
    {
      Tables(Values(byID), Values(byUsername))
    }

    constructor ()
      ensures Valid() && fresh(Repr) && Contents() == EMPTY
    {
      byID, byUsername := map[], map[];
      Repr := {this};
    }

    /** The lines that CreateUser and UpdateUser share: a copy of the caller's object goes into both maps. */
    method StoreCopy(u: User)
      requires Valid() && u !in Repr
      modifies this
      ensures Valid() && u !in Repr && fresh(Repr - old(Repr))
      ensures Contents() == Put(old(Contents()), u.Value())
    {
      var copy := new User(u.Value());
      Insert(copy);
    }

    method Insert(copy: User)
      requires Valid() && copy !in Repr
      modifies this
      ensures Valid() && Repr == old(Repr) + {copy}
      ensures Contents() == Put(old(Contents()), copy.Value())
    {
      ValuesUpdated(byID, copy.id, copy);
      ValuesUpdated(byUsername, copy.username, copy);
      byID := byID[copy.id := copy];
      byUsername := byUsername[copy.username := copy];
      Repr := Repr + {copy};
    }

    method DropName(name: string)
      requires Valid()
      modifies this`byUsername
      ensures Valid() && Contents() == Tables(old(Contents()).byID, old(Contents()).byUsername - {name})
    {
      ValuesRemoved(byUsername, name);
      byUsername := byUsername - {name};
    }

    /** The caller's object is filled in and stays the caller's; the store keeps a copy. */
    method CreateUser(u: User, uuid: string, now: int) returns (err: Option<StoreError>)
      requires Valid() && u !in Repr
      modifies this, u
      ensures Valid() && u !in Repr && fresh(Repr - old(Repr))
      ensures err == if old(u.username) in old(Contents()).byUsername then Some(UserAlreadyExists) else None
      ensures Contents() == Created(old(Contents()), old(u.Value()), uuid, now)
      ensures u.Value() == if err.Some? then old(u.Value())
                           else old(u.Value()).(id := if old(u.id) == "" then uuid else old(u.id),
                                                createdAt := now, updatedAt := now)
    {
      if u.username in byUsername {
        return Some(UserAlreadyExists);
      }
      if u.id == "" {
        u.id := uuid;
      }
      u.createdAt := now;
      u.updatedAt := now;
      assert u.Value() == Stamped(old(u.Value()), uuid, now);
      assert Contents() == old(Contents());
      StoreCopy(u);
      err := None;
    }

    method GetUserByUsername(username: string) returns (r: Result<User, StoreError>)
      requires Valid()
      ensures r.Ok? <==> username in Contents().byUsername
      ensures r.Ok? ==> fresh(r.value) && r.value.Value() == Contents().byUsername[username]
      ensures r.Err? ==> r.error == UserNotFound
    {
      if username !in byUsername {
        return Err(UserNotFound);
      }
      var copy := new User(byUsername[username].Value());
      r := Ok(copy);
    }

    method GetUserByID(id: string) returns (r: Result<User, StoreError>)
      requires Valid()
      ensures r.Ok? <==> id in Contents().byID
      ensures r.Ok? ==> fresh(r.value) && r.value.Value() == Contents().byID[id]
      ensures r.Err? ==> r.error == UserNotFound
    {
      if id !in byID {
        return Err(UserNotFound);
      }
      var copy := new User(byID[id].Value());
      r := Ok(copy);
    }

    /** Copies of all users, each id once, in an unspecified order. */
    method ListUsers() returns (result: seq<User>, ghost order: seq<string>)
      requires Valid()
      ensures |result| == |order|
      ensures forall k :: k in order <==> k in Contents().byID
      ensures forall i, j :: 0 <= i < j < |order| ==> order[i] != order[j]
      ensures forall i :: 0 <= i < |order| ==> fresh(result[i]) && result[i].Value() == Contents().byID[order[i]]
      ensures forall i, j :: 0 <= i < j < |result| ==> result[i] != result[j]
    {
      result, order := [], [];
      var todo := byID.Keys;
      while todo != {}
        invariant todo <= byID.Keys
        invariant |result| == |order|
        invariant forall k :: k in order <==> k in byID.Keys - todo
        invariant forall i, j :: 0 <= i < j < |order| ==> order[i] != order[j]
        invariant forall i :: 0 <= i < |order| ==> order[i] in Contents().byID
        invariant forall i :: 0 <= i < |order| ==> fresh(result[i]) && result[i].Value() == Contents().byID[order[i]]
        invariant forall i, j :: 0 <= i < j < |result| ==> result[i] != result[j]
      {
        var id :| id in todo;
        assert id !in order;
        todo := todo - {id};
        var copy := new User(byID[id].Value());
        result, order := result + [copy], order + [id];
      }
    }

    method UpdateUser(u: User, now: int) returns (err: Option<StoreError>)
      requires Valid() && u !in Repr
      modifies this, u
      ensures Valid() && u !in Repr && fresh(Repr - old(Repr))
      ensures err == if old(u.id) in old(Contents()).byID then None else Some(UserNotFound)
      ensures Contents() == Updated(old(Contents()), old(u.Value()), now)
      ensures u.Value() == if err.None? then old(u.Value()).(updatedAt := now) else old(u.Value())
    {
      if u.id !in byID {
        return Some(UserNotFound);
      }
      var existing := byID[u.id];
      u.updatedAt := now;
      assert u.Value() == old(u.Value()).(updatedAt := now);
      assert Contents() == old(Contents());
      StoreCopy(u);
      if existing.username != u.username {
        DropName(existing.username);
      }
      err := None;
    }
  }
}
