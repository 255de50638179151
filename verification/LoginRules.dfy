/** What a registration demands and stores, and what a login demands, by their fields. */
module LoginRules {
  import opened Wrappers
  import opened Base32
  import opened UserStore
  import opened AuthService
  import opened LoginHistory

  // ---------------------------------------------------------------- lengths and white space

  lemma LengthOfOne(c: char)
    ensures var code := c as int;
            Utf8Length([c]) == if code < 128 then 1 else if code < 2048 then 2 else if code < 65536 then 3 else 4
  {
    assert [c][..0] == [];
  }

  lemma {:induction false} LengthsAddUp(s: string, t: string)
    ensures Utf8Length(s + t) == Utf8Length(s) + Utf8Length(t)
  {
    if t == [] {
      assert s + t == s;
    } else {
      assert (s + t)[..|s + t| - 1] == s + t[..|t| - 1];
      LengthsAddUp(s, t[..|t| - 1]);
    }
  }

  const WHITE_SPACE := {
    0x9, 0xA, 0xB, 0xC, 0xD, 0x20, 0x85, 0xA0, 0x1680,
    0x2000, 0x2001, 0x2002, 0x2003, 0x2004, 0x2005, 0x2006, 0x2007, 0x2008, 0x2009, 0x200A,
    0x2028, 0x2029, 0x202F, 0x205F, 0x3000
  }

  /** The characters with Unicode's White_Space property, and the four that Python adds. */
  lemma WhiteSpaceOfUnicode(c: char)
    ensures Space(false, c) <==> c as int in WHITE_SPACE
    ensures Space(true, c) <==> c as int in WHITE_SPACE + {0x1C, 0x1D, 0x1E, 0x1F}
  {
  }

  // ---------------------------------------------------------------- registration

  /** The answer of a registration, check by check. */
  lemma RegistrationAnswers(t: Tables, input: RegisterInput, hash: Option<string>, uuid: string, spare: string,
                            now: int)
    ensures var answer, size := Registration(t, input, hash, uuid, spare, now), Utf8Length(Trim(false, input.username));
            if !(3 <= size <= 50) then answer == Err(InvalidInput)
            else if Utf8Length(input.password) < 8 then answer == Err(WeakPassword)
            else if input.role
                    !in {"super_admin", "admin", "security_manager", "developer", "analyst", "viewer", "user"} then
              answer == Err(InvalidRole)
            else if hash.None? then answer == Err(HashingFailed)
            else if Trim(false, input.username) in t.byUsername then answer == Err(NameTaken)
            else answer.Ok?
  {
  }

  /** The record of a registered user. */
  predicate IsNewUser(user: Record, name: string, c: Call)
    requires c.Register?
  {
    && user.id == (if c.uuid == "" then c.spare else c.uuid) && user.username == name
    && c.hash == Some(user.passwordHash) && user.role == c.input.role && user.status == "active"
    && user.organizationID == user.mfaSecret == "" && !user.mfaEnabled && user.createdAt == user.updatedAt == c.now
  }

  /** After every continuation of a call that registered a name, exactly its user is stored under that name. */
  lemma RegisteredUserIsStored(calls: seq<Call>, i: nat, n: nat, name: string)
    requires i < n <= |calls| && Registers(calls, i, name)
    ensures name in AfterFirst(calls, n).byUsername && IsNewUser(AfterFirst(calls, n).byUsername[name], name, calls[i])
  {
    RegistrationStays(calls, i, n, name);
  }

  // ---------------------------------------------------------------- login

  /** The answer of a login, check by check. */
  lemma LoginAnswers(t: Tables, compare: Compare, sign: Sign, name: string, password: string)
    ensures var answer := LoggedIn(t, compare, sign, name, password);
            if name !in t.byUsername then answer == Err(InvalidCredentials)
            else
              var user := t.byUsername[name];
              if !compare(user.passwordHash, password) || user.status != "active" then answer == Err(InvalidCredentials)
              else if sign(user).None? then answer == Err(SigningFailed)
              else answer == Ok(Session(sign(user).value, user))
  {
  }

  /** Every login under a registered name is given that registration's user. */
  lemma LoginGivesTheRegisteredUser(calls: seq<Call>, i: nat, compare: Compare, sign: Sign, name: string,
                                    password: string)
    requires Registers(calls, i, name) && LoggedIn(After(calls), compare, sign, name, password).Ok?
    ensures var session := LoggedIn(After(calls), compare, sign, name, password).value;
            IsNewUser(session.user, name, calls[i]) && sign(session.user) == Some(session.token)
  {
    RegisteredUserIsStored(calls, i, |calls|, name);
  }

  /** A user whose status is changed to anything but active cannot log in any more, under the same name. */
  lemma InactiveUsersAreRefused(t: Tables, u: Record, now: int, compare: Compare, sign: Sign, password: string)
    requires u.id in t.byID && u.status != "active"
    ensures LoggedIn(Updated(t, u, now), compare, sign, u.username, password) == Err(InvalidCredentials)
  {
  }
}
