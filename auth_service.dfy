/**
 * AuthService: registration and login over the user store.
 *
 * Registration changes the store, so the store is a class whose methods update
 * its map and its id counter; `RegisterSpec` is the same step on values, which
 * the lemmas below reason about. Login only reads, so it is a function of the
 * store's current map.
 */
module Auth {
  import opened Wrappers
  import opened Users

  /** What one register call returns, with the store it leaves behind. */
  datatype StoreStep = StoreStep(result: Result<PublicUser, AuthError>, users: map<string, User>, nextId: nat)

  /** The user part of a login response. */
  datatype LoginUser = LoginUser(id: nat, name: string, email: string, role: Role)

  /** A successful login response. */
  datatype LoginResponse = LoginResponse(message: string, user: LoginUser, accessToken: string)

  const LOGIN_SUCCESSFUL := "Login successful"

  /** The record register creates from the request, its id and its password digest. */
  function NewUser(id: nat, dto: CreateUserDto, digest: string): User
  {
    User(id, dto.name, dto.email, digest, dto.phone, dto.address, dto.role, dto.isActive, dto.emailVerified)
  }

  /** The claims a token issued for `u` carries. */
  function ClaimsOf(u: User): Claims
  {
    Claims(u.id, u.email, u.role)
  }

  /**
   * register on store values: a taken email is a conflict and changes nothing;
   * otherwise one record, with the next id and the hashed password, is added
   * under the request's email and returned without its digest.
   */
  function RegisterSpec(users: map<string, User>, nextId: nat, crypto: Crypto, dto: CreateUserDto, salt: string): (s: StoreStep)
    ensures s.result.Failure? <==> dto.email in users
    ensures s.result.Failure? ==>
      s.result.error == Conflict(EMAIL_IN_USE) && s.users == users && s.nextId == nextId
    ensures s.result.Success? ==>
      && s.users.Keys == users.Keys + {dto.email}
      && (forall e :: e in users ==> s.users[e] == users[e])
      && s.nextId == nextId + 1
  {
    if dto.email in users then
      StoreStep(Failure(Conflict(EMAIL_IN_USE)), users, nextId)
    else
      var user := NewUser(nextId, dto, crypto.hash(dto.password, salt));
      StoreStep(Success(Strip(user)), users[dto.email := user], nextId + 1)
  }

  /**
   * login: an unknown email and a wrong password fail alike; otherwise the
   * response carries the stored user's public identity and a token signed
   * over the stored id, email and role.
   */
  function Login(users: map<string, User>, crypto: Crypto, email: string, password: string): (r: Result<LoginResponse, AuthError>)
    ensures r.Success? <==> email in users && crypto.compare(password, users[email].password)
    ensures r.Failure? ==> r.error == Unauthorized(INVALID_CREDENTIALS)
    ensures r.Success? ==>
      && r.value.message == LOGIN_SUCCESSFUL
      && r.value.user == LoginUser(users[email].id, users[email].name, users[email].email, users[email].role)
      && r.value.accessToken == crypto.sign(ClaimsOf(users[email]))
  {
    if email !in users then
      Failure(Unauthorized(INVALID_CREDENTIALS))
    else
      var user := users[email];
      if !crypto.compare(password, user.password) then
        Failure(Unauthorized(INVALID_CREDENTIALS))
      else
        Success(LoginResponse(LOGIN_SUCCESSFUL, LoginUser(user.id, user.name, user.email, user.role), crypto.sign(ClaimsOf(user))))
  }

  /** The user store with the register operation. */
  class AuthService {
    const crypto: Crypto
    var users: map<string, User>
    var nextId: nat

    ghost predicate Valid()
      reads this
    {
      WellFormed(users, nextId)
    }

    /** An empty store whose first id is 1. */
    constructor (crypto: Crypto)
      ensures Valid()
      ensures this.crypto == crypto && users == map[] && nextId == 1
    {
      this.crypto := crypto;
      users := map[];
      nextId := 1;
    }

    /** register: the step `RegisterSpec` describes, applied to this store. */
    method Register(dto: CreateUserDto, salt: string) returns (r: Result<PublicUser, AuthError>)
      requires Valid()
      modifies this
      ensures Valid()
      ensures StoreStep(r, users, nextId) == RegisterSpec(old(users), old(nextId), crypto, dto, salt)
    {
      if dto.email in users {
        r := Failure(Conflict(EMAIL_IN_USE));
        return;
      }
      var hashedPassword := crypto.hash(dto.password, salt);
      var user := NewUser(nextId, dto, hashedPassword);
      users := users[dto.email := user];
      nextId := nextId + 1;
      r := Success(Strip(user));
      RegisterPreservesWellFormed(old(users), old(nextId), crypto, dto, salt);
    }
  }

  // ---------------------------------------------------------------------------
  // Properties of register

  /** register keeps the store invariant: emails and ids stay unique. */
  lemma {:induction false} RegisterPreservesWellFormed(users: map<string, User>, nextId: nat, crypto: Crypto, dto: CreateUserDto, salt: string)
    requires WellFormed(users, nextId)
    ensures var s := RegisterSpec(users, nextId, crypto, dto, salt);
      WellFormed(s.users, s.nextId)
  {
    var s := RegisterSpec(users, nextId, crypto, dto, salt);
    if s.result.Success? {
      forall e1, e2 | e1 in s.users && e2 in s.users && s.users[e1].id == s.users[e2].id
        ensures e1 == e2
      {
        if e1 != dto.email && e2 != dto.email {
          assert users[e1].id == users[e2].id;
        }
      }
    }
  }

  /**
   * A successful register stores the digest of the password, never the
   * password itself, copies every other field from the request, gives the
   * record the next id and returns exactly that record without its digest.
   */
  lemma RegisterStoresHashedRecord(users: map<string, User>, nextId: nat, crypto: Crypto, dto: CreateUserDto, salt: string)
    requires dto.email !in users
    ensures var s := RegisterSpec(users, nextId, crypto, dto, salt);
      var u := s.users[dto.email];
      && s.result.Success?
      && |s.users| == |users| + 1
      && u.id == nextId
      && u.password == crypto.hash(dto.password, salt)
      && u.name == dto.name && u.email == dto.email && u.phone == dto.phone
      && u.address == dto.address && u.role == dto.role
      && u.isActive == dto.isActive && u.emailVerified == dto.emailVerified
      && s.result.value == Strip(u)
  {
  }

  /** Registering the same email twice: the second call is a conflict and changes nothing. */
  lemma {:induction false} RegisterTwiceConflicts(users: map<string, User>, nextId: nat, crypto: Crypto, dto1: CreateUserDto, dto2: CreateUserDto, salt1: string, salt2: string)
    requires dto1.email == dto2.email
    ensures var s1 := RegisterSpec(users, nextId, crypto, dto1, salt1);
      var s2 := RegisterSpec(s1.users, s1.nextId, crypto, dto2, salt2);
      s2 == StoreStep(Failure(Conflict(EMAIL_IN_USE)), s1.users, s1.nextId)
  {
    var s1 := RegisterSpec(users, nextId, crypto, dto1, salt1);
    assert dto2.email in s1.users;
  }

  // ---------------------------------------------------------------------------
  // Properties of login

  /**
   * An unknown email and a known email with a wrong password produce the
   * very same failure, so a caller cannot tell which emails are registered.
   */
  lemma LoginFailuresIndistinguishable(users: map<string, User>, crypto: Crypto, unknown: string, known: string, password1: string, password2: string)
    requires unknown !in users
    requires known in users && !crypto.compare(password2, users[known].password)
    ensures Login(users, crypto, unknown, password1) == Login(users, crypto, known, password2)
    ensures Login(users, crypto, unknown, password1) == Failure(Unauthorized(INVALID_CREDENTIALS))
  {
  }

  /** login does not look at `isActive`: flipping it changes no login result. */
  lemma LoginIgnoresIsActive(users: map<string, User>, crypto: Crypto, email: string, password: string, who: string, active: bool)
    requires who in users
    ensures Login(users[who := users[who].(isActive := active)], crypto, email, password)
         == Login(users, crypto, email, password)
  {
  }

  /**
   * Register then login: with a hasher whose digests match their passwords,
   * the password just registered logs in, and the token names the new id and
   * the request's email and role.
   */
  lemma {:induction false} RegisteredUserCanLogIn(users: map<string, User>, nextId: nat, crypto: Crypto, dto: CreateUserDto, salt: string)
    requires Sound(crypto)
    requires dto.email !in users
    ensures var s := RegisterSpec(users, nextId, crypto, dto, salt);
      var r := Login(s.users, crypto, dto.email, dto.password);
      && r.Success?
      && r.value.user == LoginUser(nextId, dto.name, dto.email, dto.role)
      && r.value.accessToken == crypto.sign(Claims(nextId, dto.email, dto.role))
  {
    var s := RegisterSpec(users, nextId, crypto, dto, salt);
    assert s.users[dto.email].password == crypto.hash(dto.password, salt);
    assert crypto.compare(dto.password, crypto.hash(dto.password, salt));
  }
}
