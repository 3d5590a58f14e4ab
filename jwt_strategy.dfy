/**
 * JwtStrategy.validate: the check run on every request that carries an
 * access token whose signature and expiry the JWT library has accepted.
 * It reads the store and decides who the request is made by.
 */
module JwtStrategy {
  import opened Wrappers
  import opened Users
  import opened Auth

  /** What validate attaches to the request as its user. */
  datatype AuthUser = AuthUser(userId: nat, email: string, role: Role)

  /** There is a stored, active user with this id. */
  ghost predicate ActiveUserWithId(users: map<string, User>, id: nat)
  {
    exists e :: e in users && users[e].id == id && users[e].isActive
  }

  /**
   * validate: the token's subject must name a stored user who is active;
   * otherwise one Unauthorized error covers both cases. The identity returned
   * is the stored one, whatever email and role the token claims.
   */
  function Validate(users: map<string, User>, payload: Claims): (r: Result<AuthUser, AuthError>)
    requires UniqueIds(users)
    ensures r.Success? <==> ActiveUserWithId(users, payload.sub)
    ensures r.Failure? ==> r.error == Unauthorized(USER_NOT_FOUND_OR_INACTIVE)
    ensures r.Success? ==>
      exists e :: e in users && users[e].id == payload.sub
        && r.value == AuthUser(users[e].id, users[e].email, users[e].role)
  {
    var user := FindById(users, payload.sub);
    if user.None? || !user.value.isActive then
      Failure(Unauthorized(USER_NOT_FOUND_OR_INACTIVE))
    else
      Success(AuthUser(user.value.id, user.value.email, user.value.role))
  }

  /** Only the subject of the token matters; its email and role claims are not used. */
  lemma ValidateDependsOnlyOnSubject(users: map<string, User>, p1: Claims, p2: Claims)
    requires UniqueIds(users)
    requires p1.sub == p2.sub
    ensures Validate(users, p1) == Validate(users, p2)
  {
  }

  /**
   * A token naming a stored user validates exactly when that user is active,
   * and then yields the stored email and role, even if the token claims others.
   */
  lemma {:induction false} ValidateStoredUser(users: map<string, User>, email: string, payload: Claims)
    requires UniqueIds(users)
    requires email in users && payload.sub == users[email].id
    ensures Validate(users, payload) ==
      if users[email].isActive then Success(AuthUser(users[email].id, users[email].email, users[email].role))
      else Failure(Unauthorized(USER_NOT_FOUND_OR_INACTIVE))
  {
    FindByIdOfStored(users, email);
  }

  /**
   * Login then validate: the claims login signs validate exactly when the
   * user is active. Login itself does not check `isActive`, so an inactive
   * user with the right password obtains a token that validate then rejects.
   */
  lemma {:induction false} LoginTokenValidatesIffActive(users: map<string, User>, crypto: Crypto, email: string, password: string)
    requires UniqueIds(users) && KeyedByEmail(users)
    requires Login(users, crypto, email, password).Success?
    ensures email in users
    ensures Login(users, crypto, email, password).value.accessToken == crypto.sign(ClaimsOf(users[email]))
    ensures Validate(users, ClaimsOf(users[email])).Success? <==> users[email].isActive
    ensures users[email].isActive ==>
      Validate(users, ClaimsOf(users[email])) == Success(AuthUser(users[email].id, email, users[email].role))
  {
    ValidateStoredUser(users, email, ClaimsOf(users[email]));
  }

  /**
   * The whole flow on a well-formed store: register, log in with the same
   * password, and validate the claims of the issued token. The request is
   * accepted as the new user exactly when it was registered active.
   */
  lemma {:induction false} RegisterLoginValidate(users: map<string, User>, nextId: nat, crypto: Crypto, dto: CreateUserDto, salt: string)
    requires Sound(crypto)
    requires WellFormed(users, nextId)
    requires dto.email !in users
    ensures var s := RegisterSpec(users, nextId, crypto, dto, salt);
      && UniqueIds(s.users)
      && Login(s.users, crypto, dto.email, dto.password).Success?
      && Validate(s.users, Claims(nextId, dto.email, dto.role)) ==
           if dto.isActive then Success(AuthUser(nextId, dto.email, dto.role))
           else Failure(Unauthorized(USER_NOT_FOUND_OR_INACTIVE))
  {
    var s := RegisterSpec(users, nextId, crypto, dto, salt);
    RegisterPreservesWellFormed(users, nextId, crypto, dto, salt);
    RegisteredUserCanLogIn(users, nextId, crypto, dto, salt);
    ValidateStoredUser(s.users, dto.email, Claims(nextId, dto.email, dto.role));
  }
}
