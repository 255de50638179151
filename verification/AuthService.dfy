/** Registration and login over the user store. Password hashing is what the caller supplies: the hash that the
    generator returned, or nothing when hashing failed, and the relation that a comparison decides. */
module AuthService {
  import opened Wrappers
  import opened Base32
  import opened UserStore

  datatype AuthError =
    | InvalidInput | WeakPassword | InvalidRole | HashingFailed | NameTaken
    | InvalidCredentials | SigningFailed

  datatype RegisterInput = RegisterInput(username: string, password: string, role: string)

  const MIN_PASSWORD_LENGTH := 8
  const ACTIVE := "active"
  const VALID_ROLES := {"super_admin", "admin", "security_manager", "developer", "analyst", "viewer", "user"}

  type Compare = (string, string) -> bool

  /** Signing a token for a user may fail. */
  type Sign = Record -> Option<string>

  datatype Session = Session(token: string, user: Record)

  /** Go's len: a string is as long as its UTF-8 encoding. */
  function Utf8Length(s: string): (n: nat)
    ensures |s| <= n <= 4 * |s|
    ensures IsAscii(s) ==> n == |s|
  {
    if s == [] then 0
    else
      var code := s[|s| - 1] as int;
      Utf8Length(s[..|s| - 1]) + if code < 0x80 then 1 else if code < 0x800 then 2 else if code < 0x1_0000 then 3 else 4
  }

  /** The checks before hashing; None when they pass. */
  function Refusal(input: RegisterInput): Option<AuthError> {
    var username := Trim(false, input.username);
    if Utf8Length(username) < 3 then Some(InvalidInput)
    else if Utf8Length(username) > 50 then Some(InvalidInput)
    else if Utf8Length(input.password) < MIN_PASSWORD_LENGTH then Some(WeakPassword)
    else if input.role !in VALID_ROLES then Some(InvalidRole)
    else None
  }

  function NewUser(input: RegisterInput, hash: string, uuid: string): Record {
    Record(uuid, Trim(false, input.username), hash, input.role, "", ACTIVE, "", false, 0, 0)
  }

  /** uuid is the user's id; spare is the one that the store would draw for a user without id. */
  function Registration(t: Tables, input: RegisterInput, hash: Option<string>, uuid: string, spare: string, now: int)
    : Result<Record, AuthError>
  {
    if Refusal(input).Some? then Err(Refusal(input).value)
    else if hash.None? then Err(HashingFailed)
    else if Trim(false, input.username) in t.byUsername then Err(NameTaken)
    else Ok(Stamped(NewUser(input, hash.value, uuid), spare, now))
  }

  function LoggedIn(t: Tables, compare: Compare, sign: Sign, username: string, password: string)
    : Result<Session, AuthError>
  {
    if username !in t.byUsername then Err(InvalidCredentials)
    else
      var user := t.byUsername[username];
      if !compare(user.passwordHash, password) then Err(InvalidCredentials)
      else if user.status != ACTIVE then Err(InvalidCredentials)
      else
        var token := sign(user);
        if token.None? then Err(SigningFailed) else Ok(Session(token.value, user))
  }

  function Registered(t: Tables, input: RegisterInput, hash: Option<string>, uuid: string, spare: string, now: int)
    : Tables
  {
    if Refusal(input).Some? || hash.None? then t else Created(t, NewUser(input, hash.value, uuid), spare, now)
  }

  class Service {
    const store: MemoryUserStore

    constructor (store: MemoryUserStore)
      ensures this.store == store
    {
      this.store := store;
    }

    method Register(input: RegisterInput, hash: Option<string>, uuid: string, spare: string, now: int)
      returns (r: Result<User, AuthError>)
      requires store.Valid()
      modifies store
      ensures store.Valid() && fresh(store.Repr - old(store.Repr))
      ensures store.Contents() == Registered(old(store.Contents()), input, hash, uuid, spare, now)
      ensures match Registration(old(store.Contents()), input, hash, uuid, spare, now)
              case Ok(user) => r.Ok? && fresh(r.value) && r.value !in store.Repr && r.value.Value() == user
              case Err(e) => r == Err(e)
      ensures r.Ok? ==>
        var user := r.value.Value();
        && user == store.Contents().byUsername[user.username] && hash.Some?
        && user.id == (if uuid == "" then spare else uuid) && user.username == Trim(false, input.username)
        && user.passwordHash == hash.value && user.role == input.role && user.status == "active"
        && user.organizationID == user.mfaSecret == "" && !user.mfaEnabled && user.createdAt == user.updatedAt == now
    {
      var username := Trim(false, input.username);
      if Utf8Length(username) < 3 {
        return Err(InvalidInput);
      }
      if Utf8Length(username) > 50 {
        return Err(InvalidInput);
      }
      if Utf8Length(input.password) < MIN_PASSWORD_LENGTH {
        return Err(WeakPassword);
      }
      if input.role !in VALID_ROLES {
        return Err(InvalidRole);
      }
      if hash.None? {
        return Err(HashingFailed);
      }
      var u := new User(Record(uuid, username, hash.value, input.role, "", ACTIVE, "", false, 0, 0));
      var err := store.CreateUser(u, spare, now);
      if err.Some? {
        return Err(NameTaken);
      }
      r := Ok(u);
    }

    method Login(compare: Compare, sign: Sign, username: string, password: string)
      returns (r: Result<(string, User), AuthError>)
      requires store.Valid()
      ensures match LoggedIn(store.Contents(), compare, sign, username, password)
              case Ok(session) =>
                r.Ok? && r.value.0 == session.token && fresh(r.value.1) && r.value.1.Value() == session.user
              case Err(e) => r == Err(e)
    {
      var u := store.GetUserByUsername(username);
      if u.Err? {
        return Err(InvalidCredentials);
      }
      if !compare(u.value.passwordHash, password) {
        return Err(InvalidCredentials);
      }
      if u.value.status != ACTIVE {
        return Err(InvalidCredentials);
      }
      var token := sign(u.value.Value());
      if token.None? {
        return Err(SigningFailed);
      }
      r := Ok((token.value, u.value));
    }
  }
}
