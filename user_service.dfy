/** User registration, profile update and removal
    (service/UserService.java). The UNP verifier and the password encoder
    are collaborators the model does not see: they are passed in as
    functions. */
module UserService {
  import opened Common
  import opened Entities
  import opened Stores

  /** A client's UNP passes every UNP gate of `validateUser`, in its order:
      present, accepted by the verifier, in the reference table, unbound. */
  predicate UnpAcceptable(users: map<Id, User>, unps: set<string>, unp: Option<string>, verifyUnp: string -> bool) {
    && !IsBlank(unp)
    && verifyUnp(unp.value)
    && unp.value in unps
    && !UnpBound(users, unp.value)
  }

  /** `validateUser`: the first failing check decides the error. The request
      passes exactly when the username is free, a client brings an acceptable
      UNP and a company name, and a driver brings no company name. */
  function ValidateUser(users: map<Id, User>, unps: set<string>, dto: UserDto, verifyUnp: string -> bool): (e: Option<Error>)
    ensures e.None? <==>
      && !UsernameExists(users, dto.username)
      && (dto.role == Client ==> UnpAcceptable(users, unps, dto.unp, verifyUnp) && !IsBlank(dto.name))
      && (dto.role == Driver ==> IsBlank(dto.name))
    ensures e.Some? && e.value != UsernameTaken ==> dto.role != Admin
  {
    if UsernameExists(users, dto.username) then Some(UsernameTaken)
    else if dto.role == Client && IsBlank(dto.unp) then Some(UnpRequired)
    else if dto.role == Client && !verifyUnp(dto.unp.value) then Some(UnpRejected)
    else if dto.role == Client && dto.unp.value !in unps then Some(UnpNotInRegistry)
    else if dto.role == Client && UnpBound(users, dto.unp.value) then Some(UnpTaken)
    else if dto.role == Client && IsBlank(dto.name) then Some(CompanyNameRequired)
    else if dto.role == Driver && !IsBlank(dto.name) then Some(DriverCompanyName)
    else None
  }

  /** The guard of `register`: ADMIN is refused before `validateUser` runs. */
  function RegistrationError(users: map<Id, User>, unps: set<string>, dto: UserDto, verifyUnp: string -> bool): (e: Option<Error>)
    ensures e.None? ==> dto.role != Admin && !UsernameExists(users, dto.username)
  {
    if dto.role == Admin then Some(AdminRegistrationForbidden)
    else ValidateUser(users, unps, dto, verifyUnp)
  }

  /** Role ADMIN is refused whatever the store and the other fields hold. */
  lemma AdminRefusedFirst(users: map<Id, User>, unps: set<string>, dto: UserDto, verifyUnp: string -> bool)
    requires dto.role == Admin
    ensures RegistrationError(users, unps, dto, verifyUnp) == Some(AdminRegistrationForbidden)
  {
  }

  /** A username already in the store is refused, whatever the role (but ADMIN). */
  lemma DuplicateUsernameRefused(users: map<Id, User>, unps: set<string>, dto: UserDto, verifyUnp: string -> bool)
    requires dto.role != Admin && UsernameExists(users, dto.username)
    ensures RegistrationError(users, unps, dto, verifyUnp) == Some(UsernameTaken)
  {
  }

  /** The client checks, in order: the first one that fails decides the error. */
  lemma ClientChecksInOrder(users: map<Id, User>, unps: set<string>, dto: UserDto, verifyUnp: string -> bool)
    requires dto.role == Client && !UsernameExists(users, dto.username)
    ensures var e := RegistrationError(users, unps, dto, verifyUnp);
      && (IsBlank(dto.unp) ==> e == Some(UnpRequired))
      && (!IsBlank(dto.unp) && !verifyUnp(dto.unp.value) ==> e == Some(UnpRejected))
      && (!IsBlank(dto.unp) && verifyUnp(dto.unp.value) && dto.unp.value !in unps ==> e == Some(UnpNotInRegistry))
      && (!IsBlank(dto.unp) && verifyUnp(dto.unp.value) && dto.unp.value in unps && UnpBound(users, dto.unp.value)
          ==> e == Some(UnpTaken))
      && (UnpAcceptable(users, unps, dto.unp, verifyUnp) && IsBlank(dto.name) ==> e == Some(CompanyNameRequired))
  {
  }

  /** A driver who names a company is refused. */
  lemma DriverWithCompanyNameRefused(users: map<Id, User>, unps: set<string>, dto: UserDto, verifyUnp: string -> bool)
    requires dto.role == Driver && !UsernameExists(users, dto.username) && !IsBlank(dto.name)
    ensures RegistrationError(users, unps, dto, verifyUnp) == Some(DriverCompanyName)
  {
  }

  /** A username that is in the store can never be registered again, so
      usernames stay unique across successful registrations. */
  lemma {:induction false} SecondRegistrationRefused(users: map<Id, User>, id: Id, u: User, unps: set<string>, dto: UserDto, verifyUnp: string -> bool)
    requires dto.role != Admin && u.username == dto.username
    ensures RegistrationError(users[id := u], unps, dto, verifyUnp) == Some(UsernameTaken)
  {
    assert id in users[id := u] && users[id := u][id].username == dto.username;
  }

  /** The user `register` stores once the guard passes: the profile fields
      the mapper copies, the encoded password, and the role's own fields;
      a client is bound to its UNP and verified by the verifier's verdict,
      which the guard has already required to hold, and a driver loses its
      name, UNP and activity type. */
  method NewUser(unps: set<string>, dto: UserDto, encode: string -> string, verifyUnp: string -> bool) returns (user: User)
    requires dto.role != Admin
    requires dto.role == Client ==> dto.unp.Some? && verifyUnp(dto.unp.value) && dto.unp.value in unps
    ensures user.username == dto.username && user.role == dto.role && user.email == dto.email
    ensures user.password == encode(dto.password)
    ensures user.verified
    ensures dto.role == Client ==> user.unp == dto.unp && user.name == dto.name && user.activityType == dto.activityType
    ensures dto.role == Driver ==> user.name.None? && user.unp.None? && user.activityType.None?
  {
    // userMapper.toEntity copies the profile fields; the UNP is bound below
    user := User(dto.username, dto.password, dto.role, dto.name, dto.email, dto.activityType, None, false);
    user := user.(password := encode(dto.password));
    user := user.(verified := true);
    if dto.role == Client {
      var unpValue := dto.unp.value;
      user := user.(verified := verifyUnp(unpValue));
      // the second reference-table lookup cannot fail: validateUser made the first
      assert unpValue in unps;
      user := user.(unp := Some(unpValue));
    } else if dto.role == Driver {
      user := user.(name := None, unp := None, activityType := None);
    }
  }

  /** `register`: refuses with the first failing check and leaves the store
      unchanged, or stores one new user whose password is the encoded one,
      a driver with name, UNP and activity type cleared, a client bound to
      its UNP and verified. */
  method Register(s: Store, dto: UserDto, encode: string -> string, verifyUnp: string -> bool) returns (r: Result<Id>)
    requires s.Valid()
    modifies s`users, s`nextUserId
    ensures s.Valid()
    ensures r.Failure? <==> RegistrationError(old(s.users), s.unps, dto, verifyUnp).Some?
    ensures r.Failure? ==> r.error == RegistrationError(old(s.users), s.unps, dto, verifyUnp).value && unchanged(s)
    ensures r.Success? ==>
      && r.value !in old(s.users)
      && s.users.Keys == old(s.users.Keys) + {r.value}
      && (forall id :: id in old(s.users) ==> s.users[id] == old(s.users)[id])
      && UsernameExists(s.users, dto.username)
    ensures r.Success? ==> var u := s.users[r.value];
      && u.username == dto.username && u.role == dto.role && u.email == dto.email
      && u.password == encode(dto.password)
      && u.verified
      && (dto.role == Client ==> u.unp == dto.unp && u.name == dto.name && u.activityType == dto.activityType)
      && (dto.role == Driver ==> u.name.None? && u.unp.None? && u.activityType.None?)
  {
    if dto.role == Admin {
      return Failure(AdminRegistrationForbidden);
    }
    var invalid := ValidateUser(s.users, s.unps, dto, verifyUnp);
    if invalid.Some? {
      return Failure(invalid.value);
    }

    assert dto.role == Client ==> UnpAcceptable(s.users, s.unps, dto.unp, verifyUnp);
    var user := NewUser(s.unps, dto, encode, verifyUnp);
    var id := s.nextUserId;
    InsertUserKeepsUniqueness(s.users, id, user);
    s.users := s.users[id := user];
    s.nextUserId := id + 1;
    r := Success(id);
  }

  /** `updateUser`: an unknown id fails; otherwise email, name and activity
      type each take the supplied value when it is non-null, and nothing
      else about the user or the store changes. */
  method UpdateUser(s: Store, id: Id, dto: UserDto) returns (r: Outcome)
    requires s.Valid()
    modifies s`users
    ensures s.Valid()
    ensures r.Fail? <==> id !in old(s.users)
    ensures r.Fail? ==> r.error == UserNotFound && unchanged(s)
    ensures r.Pass? ==>
      && s.users.Keys == old(s.users.Keys)
      && (forall other :: other in s.users && other != id ==> s.users[other] == old(s.users)[other])
    ensures r.Pass? ==> var before, after := old(s.users)[id], s.users[id];
      && after.username == before.username && after.password == before.password
      && after.role == before.role && after.unp == before.unp && after.verified == before.verified
      && after.email == (if dto.email.Some? then dto.email else before.email)
      && after.name == (if dto.name.Some? then dto.name else before.name)
      && after.activityType == (if dto.activityType.Some? then dto.activityType else before.activityType)
  {
    if id !in s.users {
      return Fail(UserNotFound);
    }
    var user := s.users[id];
    if dto.email.Some? {
      user := user.(email := dto.email);
    }
    if dto.name.Some? {
      user := user.(name := dto.name);
    }
    if dto.activityType.Some? {
      user := user.(activityType := dto.activityType);
    }
    s.users := s.users[id := user];
    r := Pass;
  }

  /** `deleteUser`: an unknown id fails; otherwise exactly that user is removed. */
  method DeleteUser(s: Store, id: Id) returns (r: Outcome)
    requires s.Valid()
    modifies s`users
    ensures s.Valid()
    ensures r.Fail? <==> id !in old(s.users)
    ensures r.Fail? ==> r.error == UserNotFound && unchanged(s)
    ensures r.Pass? ==> s.users == old(s.users) - {id}
  {
    if id !in s.users {
      return Fail(UserNotFound);
    }
    s.users := s.users - {id};
    r := Pass;
  }

  /** `existsByUsername`: true exactly when some stored user has that login. */
  function ExistsByUsername(s: Store, username: string): (b: bool)
    reads s
    ensures b <==> username in (set id | id in s.users :: s.users[id].username)
  {
    UsernameExists(s.users, username)
  }
}
