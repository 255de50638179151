/** Who can log in after any sequence of registrations and logins. */
module LoginHistory {
  import opened Wrappers
  import opened Base32
  import opened Base32Properties
  import opened UserStore
  import opened AuthService

  datatype Call =
    | Register(input: RegisterInput, hash: Option<string>, uuid: string, spare: string, now: int)
    | Login(username: string, password: string)

  /** The store after the first n calls, from an empty store. */
  function AfterFirst(calls: seq<Call>, n: nat): Tables
    requires n <= |calls|
  {
    if n == 0 then EMPTY
    else
      var t := AfterFirst(calls, n - 1);
      match calls[n - 1]
      case Register(input, hash, uuid, spare, now) => Registered(t, input, hash, uuid, spare, now)
      case Login(_, _) => t
  }

  function After(calls: seq<Call>): Tables {
    AfterFirst(calls, |calls|)
  }

  /** What the i-th call answered. */
  function Answer(calls: seq<Call>, i: nat): Result<Record, AuthError>
    requires i < |calls| && calls[i].Register?
  {
    var c := calls[i];
    Registration(AfterFirst(calls, i), c.input, c.hash, c.uuid, c.spare, c.now)
  }

  /** The i-th call registered the name. */
  predicate Registers(calls: seq<Call>, i: nat, name: string) {
    && i < |calls| && calls[i].Register?
    && Answer(calls, i).Ok?
    && Trim(false, calls[i].input.username) == name
  }

  /** Some number below n has the property. */
  function Ever(p: nat -> bool, n: nat): bool {
    n > 0 && (Ever(p, n - 1) || p(n - 1))
  }

  lemma {:induction false} EverIff(p: nat -> bool, n: nat)
    ensures Ever(p, n) <==> exists i: nat :: i < n && p(i)
  {
    if n > 0 {
      EverIff(p, n - 1);
    }
  }

  function Registering(calls: seq<Call>, name: string): nat -> bool {
    (i: nat) => Registers(calls, i, name)
  }

  lemma {:induction false} StoredOnceRegistered(calls: seq<Call>, n: nat, name: string)
    requires n <= |calls|
    ensures name in AfterFirst(calls, n).byUsername <==> Ever(Registering(calls, name), n)
  {
    if n > 0 {
      StoredOnceRegistered(calls, n - 1, name);
      CallStores(calls, n - 1, name);
    }
  }

  /** A name is in the store exactly when a call registered it. */
  lemma StoredIff(calls: seq<Call>, n: nat, name: string)
    requires n <= |calls|
    ensures name in AfterFirst(calls, n).byUsername <==> exists i: nat :: i < n && Registers(calls, i, name)
  {
    StoredOnceRegistered(calls, n, name);
    EverIff(Registering(calls, name), n);
    assert forall i: nat :: Registering(calls, name)(i) <==> Registers(calls, i, name);
  }

  lemma {:induction false} RegisteredStays(calls: seq<Call>, i: nat, n: nat, name: string)
    requires i < n <= |calls| && Registers(calls, i, name)
    ensures name in AfterFirst(calls, n).byUsername && AfterFirst(calls, n).byUsername[name] == Answer(calls, i).value
  {
    CallStores(calls, n - 1, name);
    if i < n - 1 {
      RegisteredStays(calls, i, n - 1, name);
    }
  }

  /** What a call registered stays in the store, and the name is not registered again. */
  lemma {:induction false} RegistrationStays(calls: seq<Call>, i: nat, n: nat, name: string)
    requires i < n <= |calls| && Registers(calls, i, name)
    ensures name in AfterFirst(calls, n).byUsername && AfterFirst(calls, n).byUsername[name] == Answer(calls, i).value
    ensures forall j: nat :: i < j < n ==> !Registers(calls, j, name)
  {
    RegisteredStays(calls, i, n, name);
    forall j: nat | i < j < n
      ensures !Registers(calls, j, name)
    {
      RegisteredStays(calls, i, j, name);
      CallStores(calls, j, name);
    }
  }

  /** One call stores a name exactly when it registers it, and then the name was free. */
  lemma CallStores(calls: seq<Call>, i: nat, name: string)
    requires i < |calls|
    ensures var before, after := AfterFirst(calls, i).byUsername, AfterFirst(calls, i + 1).byUsername;
            if Registers(calls, i, name) then name !in before && name in after && after[name] == Answer(calls, i).value
            else (name in after <==> name in before) && (name in before ==> after[name] == before[name])
  {
  }

  /** What a login of the i-th call's user leads to. */
  function SessionOf(calls: seq<Call>, i: nat, sign: Sign): Option<Session>
    requires i < |calls| && calls[i].Register? && Answer(calls, i).Ok?
  {
    var user := Answer(calls, i).value;
    if sign(user).None? then None else Some(Session(sign(user).value, user))
  }

  /** The i-th call registered the name, its hash passes the password, and a token can be signed for its user. */
  predicate MayLogIn(calls: seq<Call>, i: nat, compare: Compare, sign: Sign, name: string, password: string) {
    Registers(calls, i, name) && compare(calls[i].hash.value, password) && SessionOf(calls, i, sign).Some?
  }

  /** After any sequence of calls a login succeeds exactly when an earlier call registered that very name, already
      trimmed, with a hash that the password passes, and a token can be signed for that call's user; it returns
      that user and token. */
  lemma LoginSucceedsIff(calls: seq<Call>, compare: Compare, sign: Sign, name: string, password: string)
    ensures LoggedIn(After(calls), compare, sign, name, password).Ok? <==>
            exists i: nat :: MayLogIn(calls, i, compare, sign, name, password)
    ensures forall i: nat :: MayLogIn(calls, i, compare, sign, name, password) ==>
              LoggedIn(After(calls), compare, sign, name, password) == Ok(SessionOf(calls, i, sign).value)
  {
    StoredIff(calls, |calls|, name);
    forall i: nat | Registers(calls, i, name)
      ensures name in After(calls).byUsername && After(calls).byUsername[name] == Answer(calls, i).value
    {
      RegistrationStays(calls, i, |calls|, name);
    }
    if LoggedIn(After(calls), compare, sign, name, password).Ok? {
      var i: nat :| i < |calls| && Registers(calls, i, name);
      assert MayLogIn(calls, i, compare, sign, name, password);
    }
  }

  /** No name is registered twice. */
  lemma NamesAreRegisteredOnce(calls: seq<Call>, name: string, i: nat, j: nat)
    requires Registers(calls, i, name) && Registers(calls, j, name)
    ensures i == j
  {
    if i < j {
      RegistrationStays(calls, i, |calls|, name);
    } else if j < i {
      RegistrationStays(calls, j, |calls|, name);
    }
  }

  /** Only the registration trims: a name with white space around it can be registered, but never logs in. */
  lemma UntrimmedNamesNeverLogIn(calls: seq<Call>, compare: Compare, sign: Sign, name: string, password: string)
    requires Trim(false, name) != name
    ensures LoggedIn(After(calls), compare, sign, name, password) == Err(InvalidCredentials)
  {
    StoredIff(calls, |calls|, name);
    forall i: nat | Registers(calls, i, name)
      ensures false
    {
      var _, _ := Trimmed(false, calls[i].input.username);
      TrimKeeps(false, name);
    }
  }

  const TYPED := " ann"
  const STORED := "ann"

  lemma TypedIsTrimmed()
    ensures Trim(false, TYPED) == STORED != TYPED && Utf8Length(STORED) == 3
  {
    assert TYPED == " " + STORED + "";
    TrimSurrounded(false, " ", STORED, "");
    TrimKeeps(false, STORED);
  }

  /** Such a registration does happen: one call with an untrimmed name succeeds, and its user can log in under the
      trimmed name, but not under the name that was typed. */
  lemma UntrimmedNameIsRegistered(password: string, hash: string, uuid: string, spare: string, now: int, sign: Sign)
    requires Utf8Length(password) >= MIN_PASSWORD_LENGTH && forall user :: sign(user).Some?
    ensures var calls := [Register(RegisterInput(TYPED, password, "user"), Some(hash), uuid, spare, now)];
            var compare: Compare := (h, p) => h == hash && p == password;
            && Registers(calls, 0, STORED)
            && LoggedIn(After(calls), compare, sign, STORED, password).Ok?
            && LoggedIn(After(calls), compare, sign, TYPED, password) == Err(InvalidCredentials)
  {
    var calls := [Register(RegisterInput(TYPED, password, "user"), Some(hash), uuid, spare, now)];
    var compare: Compare := (h, p) => h == hash && p == password;
    TypedIsTrimmed();
    assert Answer(calls, 0).Ok?;
    assert Registers(calls, 0, STORED);
    LoginSucceedsIff(calls, compare, sign, STORED, password);
    UntrimmedNamesNeverLogIn(calls, compare, sign, TYPED, password);
  }
}
