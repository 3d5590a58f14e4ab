# Pagination and authentication core of a NestJS application, in Dafny

This project models the three pieces of logic in the application that hold real
invariants:

- **The pagination engine** (`PaginationService`). It turns an optional `page`
  and `pageSize`, plus a row count, into the `skip`/`take` window of a
  database query. It also reports the page metadata `currentPage` and
  `totalPages`. Missing, null and NaN arguments fall back to page 1 and size
  10, and negative arguments count as their absolute value. In
  `pagination.dfy` the arguments are `Option<real>`: `None` is
  undefined/null/NaN and `Some(x)` is a finite number. Every operation is a
  pure function, and lemmas state the defaults, the absolute-value rule, the
  skip formula and the ceiling formula for the page count.
- **Registration and login** (`AuthService`). The user store is the class
  `Auth.AuthService`. It holds a map from email to user record and the next
  id to hand out. `Register` is a method on it that changes the store.
  `RegisterSpec` describes the same step on plain values, and the lemmas use
  it. `Login` only reads, so it is a function of the store's map. bcrypt and
  the JWT signer are passed in as function values (`Users.Crypto`):
  - `hash(password, salt)`, with the random salt as a parameter;
  - `compare(password, digest)`;
  - `sign(claims)`.

  The only thing assumed of these functions is `Users.Sound`: a password
  matches its own digest.
- **Token-subject validation** (`JwtStrategy.validate`). It runs after the
  JWT library has accepted a token. It looks the token's subject up in the
  store and rejects a missing or inactive user. Otherwise it returns the
  stored id, email and role. `jwt_strategy.dfy` pairs it with `Login`:
  - `Login` never consults `isActive`;
  - `Validate` does;
  - so an inactive user with the right password gets a token that every
    later request then fails to validate.

`AuthService` has only `register` and `login`; the model covers those and
`JwtStrategy.validate`.

Files:
- `wrappers.dfy`: `Option` and `Result`.
- `pagination.dfy`: the pagination engine.
- `users.dfy`: the records, the roles, the error messages, the library interface and the store invariant.
- `auth_service.dfy`: register and login.
- `jwt_strategy.dfy`: validate, and the lemmas that connect it to login and register.

## Model

| member | source | states |
|---|---|---|
| Pagination.Normalize | src/common/pagination/pagination.service.ts:6-10 | absent stays absent; a number becomes a non-negative value equal to it or to its negation |
| Pagination.ResolvePositive | src/common/pagination/pagination.service.ts:12-20 | the shared resolver never goes below 0. It is 0 exactly for a magnitude strictly between 0 and 1. Absent or 0 gives the fallback. Otherwise it is the floor of the magnitude, and a whole number resolves to at least 1 |
| Pagination.ResolvePage | src/common/pagination/pagination.service.ts:12-15 | absent or 0 gives page 1; any other number gives the floor of its magnitude; whole-number or absent input gives a page of at least 1 |
| Pagination.ResolvePageSize | src/common/pagination/pagination.service.ts:17-20 | absent or 0 gives DEFAULT_PAGE_SIZE (10); any other number gives the floor of its magnitude; whole-number or absent input gives a size of at least 1 |
| Pagination.GetSkip | src/common/pagination/pagination.service.ts:25-29 | skip is never negative. It is (page − 1) × size when the page resolves to at least 1, and 0 when it resolves to 0 |
| Pagination.GetTake | src/common/pagination/pagination.service.ts:34-36 | take defaults to 10, is otherwise the floor of the size's magnitude, and is at least 1 for whole-number or absent input |
| Pagination.PageCount | src/common/pagination/pagination.service.ts:43 | for a page size of at least 1: at least 1 page; exactly 1 when the count fits in one page; otherwise the least t with (t − 1) × size < count ≤ t × size |
| Pagination.CalculateTotalPages | src/common/pagination/pagination.service.ts:41-44 | a finite result is at least 1. A resolved size ≥ 1 gives a finite result: 1 when the count fits on one page, otherwise the least t with (t − 1) × size < count ≤ t × size. A size resolving to 0 divides by zero: Infinity for a positive count, NaN for 0, and 1 for a negative count |
| Pagination.Paginate | src/common/pagination/pagination.service.ts:49-55 | currentPage is the resolved page and take the resolved page size. totalPages ≥ 1 for every input. skip = max(0, (currentPage − 1) × take). For a take of at least 1 the pages cover the count exactly, and a count that fits in one page gives one page; a take of 0 reports the page count for size 10 |
| Pagination.CeilDivBounds | src/common/pagination/pagination.service.ts:43 | Math.ceil(n / d) is the number of blocks of d needed to cover n |
| Pagination.CeilMatchesCeilDiv | src/common/pagination/pagination.service.ts:43 | the real ceiling of n / d equals the integer reference (n + d − 1) div d |
| Pagination.PaginateDefaults | src/common/pagination/pagination.service.ts:4-20 | for a count ≥ 0, absent, null, NaN or 0 arguments give skip 0, take 10 and currentPage 1, with totalPages = max(1, ceil(count / 10)) |
| Pagination.PaginateFirstPageOfEmptyTable | src/common/pagination/pagination.service.ts:49-55 | page 1, size 10 and the default count 0 give {skip 0, take 10, totalPages 1, currentPage 1} |
| Pagination.PaginateThirdPage | src/common/pagination/pagination.service.ts:49-55 | page 3 of size 10 over 45 rows gives {skip 20, take 10, totalPages 5, currentPage 3} |
| Pagination.PaginateAbsoluteValue | src/common/pagination/pagination.service.ts:6-10 | a negative page or page size gives the same result as its absolute value |
| Pagination.PaginateIntegral | src/common/pagination/pagination.service.ts:12-29 | for whole-number or absent arguments: currentPage ≥ 1, take ≥ 1, skip = (currentPage − 1) × take, and skip is a multiple of take |
| Pagination.TotalPagesIsCeiling | src/common/pagination/pagination.service.ts:41-44 | for a count ≥ 0 and a size resolving to at least 1, totalPages = max(1, ceil(count / take)) in integers |
| Pagination.ResolvePageSizeIdempotent | src/common/pagination/pagination.service.ts:17-20 | a positive whole size resolves to itself; 0 resolves to 10 |
| Pagination.TotalPagesStableUnderResolution | src/common/pagination/pagination.service.ts:51-53 | for a size resolving to at least 1, passing the resolved take back to calculateTotalPages gives the same page count as the original argument (a fractional size resolves to 0 and does not) |
| Pagination.FractionalArgumentResolvesToZero | src/common/pagination/pagination.service.ts:12-20 | as written, a magnitude in (0,1) resolves to 0 for both page and size. paginate with such a page size fetches 0 rows but reports 3 pages for 25 rows. calculateTotalPages gives NaN for count 0 and Infinity for count 25 |
| Pagination.ResolvePositiveFixed | src/common/pagination/pagination.service.ts:12-20 | corrected resolver (floor first, then test): always at least 1; falls back to the default below magnitude 1; otherwise the floor of the magnitude |
| Pagination.PaginateFixed | src/common/pagination/pagination.service.ts:49-55 | corrected paginate: currentPage and take are the corrected resolutions of page and pageSize; for every input, currentPage ≥ 1, take ≥ 1 and totalPages ≥ 1; skip = (currentPage − 1) × take; the pages cover the count |
| Pagination.PaginateFixedAgrees | src/common/pagination/pagination.service.ts:12-55 | the correction agrees with paginate except on magnitudes strictly between 0 and 1 |
| Pagination.FixedFractionalArgumentDefaults | src/common/pagination/pagination.service.ts:12-20 | under the correction, a page of magnitude below 1 gives currentPage 1 and skip 0, and a size of magnitude below 1 gives take 10 and, for a count ≥ 0, totalPages = max(1, ceil(count / 10)); each holds whatever the other argument and the count |
| Users.Strip | src/auth/auth.service.ts:39-41 | the returned user view keeps every field of the record (id, name, email, phone, address, role, isActive, emailVerified) and has no password field |
| Users.FindById | src/auth/strategies/jwt.strategy.ts:28 | finds a record exactly when some stored user has that id, and the record found has that id |
| Users.FindByIdOfStored | src/auth/strategies/jwt.strategy.ts:28 | looking up a stored user's id returns that very user |
| Auth.RegisterSpec | src/auth/auth.service.ts:12-42 | fails exactly when the email is already stored, with Conflict "Email already in use" and the store and counter unchanged. On success one key, the email, is added, every other record is unchanged, and the counter advances by one |
| Auth.AuthService.Register | src/auth/auth.service.ts:12-42 | the store method keeps the store invariant, and its result and new state are those of RegisterSpec on the old state |
| Auth.RegisterPreservesWellFormed | src/auth/auth.service.ts:14-37 | register keeps emails as keys, ids unique and every id below the counter |
| Auth.RegisterStoresHashedRecord | src/auth/auth.service.ts:23-41 | a successful register stores hash(password, salt), not the password. It copies name, email, phone, address, role, isActive and emailVerified from the request, gives the record the next id and grows the store by one. It returns that record without its digest |
| Auth.RegisterTwiceConflicts | src/auth/auth.service.ts:14-20 | registering an email a second time is a conflict that leaves the store as the first call left it |
| Auth.Login | src/auth/auth.service.ts:45-79 | succeeds exactly when the email is stored and the password matches its digest. Every failure is Unauthorized "Invalid email or password". On success the message is "Login successful", the user view is the stored id, name, email and role, and the token is sign({sub, email, role}) of the stored record |
| Auth.LoginFailuresIndistinguishable | src/auth/auth.service.ts:47-57 | an unknown email and a wrong password give the identical result |
| Auth.LoginIgnoresIsActive | src/auth/auth.service.ts:45-79 | changing any user's isActive changes no login result |
| Auth.RegisteredUserCanLogIn | src/auth/auth.service.ts:12-79 | after a successful register, logging in with the same password succeeds. The token names the new id and the request's email and role |
| JwtStrategy.Validate | src/auth/strategies/jwt.strategy.ts:24-39 | succeeds exactly when a stored user with the token's sub exists and is active. A failure is always Unauthorized "User not found or inactive". On success userId, email and role are those of that stored record |
| JwtStrategy.ValidateDependsOnlyOnSubject | src/auth/strategies/jwt.strategy.ts:25-38 | two payloads with the same sub validate identically, whatever email and role they claim |
| JwtStrategy.ValidateStoredUser | src/auth/strategies/jwt.strategy.ts:28-38 | a payload naming a stored user validates to that user's stored id, email and role when the user is active, and fails otherwise |
| JwtStrategy.LoginTokenValidatesIffActive | src/auth/strategies/jwt.strategy.ts:29-31 | the claims a successful login signs pass validation exactly when the user is active, so an inactive user gets a token that validation rejects |
| JwtStrategy.RegisterLoginValidate | src/auth/strategies/jwt.strategy.ts:24-39 | on a well-formed store, register, login with the same password, then validation of the issued claims: validation accepts the new user exactly when they were registered active |

## Findings

| source | as written | input that shows it | evidently intended | confidence | as-written member | corrected member |
|---|---|---|---|---|---|---|
| src/common/pagination/pagination.service.ts:12-20 | `resolvePage` and `resolvePageSize` test `p > 0` before `Math.floor`, so a magnitude in (0,1) resolves to 0. Their comments promise a positive integer. `calculateTotalPages`, documented as always ≥ 1, then divides by zero | `paginate(undefined, 0.5, 25)` gives take 0 with totalPages 3. `calculateTotalPages(0, 0.5)` is NaN and `calculateTotalPages(25, 0.5)` is Infinity | floor first, then fall back to the default when the floored value is not positive | high; not executed | Pagination.FractionalArgumentResolvesToZero | Pagination.PaginateFixed |

## Left out

- Persistence: the Prisma user table is an in-memory map keyed by email. Auto-increment ids are a counter that starts at 1. Any column register does not write (timestamps, relations) is not part of this model, so the record returned by register holds exactly the fields register writes, plus the id.
- Store failures and concurrency: a database error and two concurrent registrations of one email are not modelled. The requests' `async`/`await` is only I/O sequencing.
- bcrypt internals: the salt is a parameter of `Register`. The cost factor 10, the digest format and hashing failures are not modelled.
- JWT: the signer's secret, the one-hour expiry, the issued-at and expiry claims it adds, signature and expiry checking before `validate` runs, bearer-token extraction and the environment-variable fallback secret are library behaviour or configuration. `sign` is a function of the claims alone. `Validate` takes the decoded claims with a numeric `sub`; a payload without `sub` is not modelled.
- Pagination arithmetic is exact: the model computes `skip`, `take` and the page count in unbounded integers and exact reals. JavaScript numbers are IEEE doubles, so the rounding they apply above 2^53 is not modelled. For example, `getSkip(2^53 + 2, 3)` in JavaScript rounds `p - 1` to 2^53, while the model gives 3·2^53 + 3.
- Pagination numbers: infinite arguments and non-numeric strings that convert to numbers are not modelled. A numeric string is taken as its number, and anything that converts to NaN is `None`. The row count is a whole number, as a count query returns.
- The `CreateUserDto` that register receives (src/auth/dto/create-user.dto.ts) is not part of this model; its fields are those register reads.
- Controllers and modules (routing, guards, dependency injection), DTO validation annotations, `UserService` and `PostsService` are wiring or pass-through queries, not core logic.
