/**
 * The records the authentication core works on, the user store's invariant,
 * and the password hashing and token signing it delegates to libraries.
 *
 * The store is a table of users with two unique keys, the email and the
 * numeric id. Here it is a map from email to record; the id is a field that
 * the store invariant keeps unique.
 */
module Users {
  import opened Wrappers

  /** The closed set of roles a user may hold. */
  datatype Role = ADMIN | USER | MANAGER

  /**
   * A stored user. `password` holds the digest the hasher produced, never the
   * plaintext.
   */
  datatype User = User(
    id: nat,
    name: string,
    email: string,
    password: string,
    phone: string,
    address: Option<string>,
    role: Role,
    isActive: bool,
    emailVerified: bool)

  /** The registration request. */
  datatype CreateUserDto = CreateUserDto(
    name: string,
    email: string,
    phone: string,
    address: Option<string>,
    role: Role,
    isActive: bool,
    emailVerified: bool,
    password: string)

  /** A user record with its `password` field removed. */
  datatype PublicUser = PublicUser(
    id: nat,
    name: string,
    email: string,
    phone: string,
    address: Option<string>,
    role: Role,
    isActive: bool,
    emailVerified: bool)

  /** The claims carried by an access token. */
  datatype Claims = Claims(sub: nat, email: string, role: Role)

  /** The errors the core throws, each with its message. */
  datatype AuthError = Conflict(message: string) | Unauthorized(message: string)

  const EMAIL_IN_USE := "Email already in use"
  const INVALID_CREDENTIALS := "Invalid email or password"
  const USER_NOT_FOUND_OR_INACTIVE := "User not found or inactive"

  /**
   * The libraries the core calls: `hash(password, salt)` is bcrypt.hash with
   * its random salt made a parameter, `compare` is bcrypt.compare and `sign`
   * is the JWT signer with its secret and expiry fixed.
   */
  datatype Crypto = Crypto(
    hash: (string, string) -> string,
    compare: (string, string) -> bool,
    sign: Claims -> string)

  /** The one thing assumed of the hasher: a password matches its own digest. */
  ghost predicate Sound(crypto: Crypto)
  {
    forall password, salt :: crypto.compare(password, crypto.hash(password, salt))
  }

  /** The record without its password digest. */
  function Strip(u: User): (r: PublicUser)
    ensures r.id == u.id && r.name == u.name && r.email == u.email && r.phone == u.phone
    ensures r.address == u.address && r.role == u.role
    ensures r.isActive == u.isActive && r.emailVerified == u.emailVerified
  {
    PublicUser(u.id, u.name, u.email, u.phone, u.address, u.role, u.isActive, u.emailVerified)
  }

  /** Every stored record sits under its own email. */
  ghost predicate KeyedByEmail(users: map<string, User>)
  {
    forall e :: e in users ==> users[e].email == e
  }

  /** No two stored records share an id. */
  predicate UniqueIds(users: map<string, User>)
  {
    forall e1, e2 :: e1 in users && e2 in users && users[e1].id == users[e2].id ==> e1 == e2
  }

  /**
   * The store invariant: records keyed by their email, unique ids, and every
   * id issued so far positive and below the next one to be issued.
   */
  ghost predicate WellFormed(users: map<string, User>, nextId: nat)
  {
    && nextId >= 1
    && KeyedByEmail(users)
    && UniqueIds(users)
    && (forall e :: e in users ==> 1 <= users[e].id < nextId)
  }

  /** The record with the given id, when there is one. */
  function FindById(users: map<string, User>, id: nat): (r: Option<User>)
    requires UniqueIds(users)
    ensures r.Some? <==> exists e :: e in users && users[e].id == id
    ensures r.Some? ==> r.value.id == id && exists e :: e in users && users[e] == r.value
  {
    if exists e :: e in users && users[e].id == id then
      var e :| e in users && users[e].id == id;
      Some(users[e])
    else
      None
  }

  /** Finding a stored record by its own id returns that record. */
  lemma FindByIdOfStored(users: map<string, User>, email: string)
    requires UniqueIds(users) && email in users
    ensures FindById(users, users[email].id) == Some(users[email])
  {
  }
}
