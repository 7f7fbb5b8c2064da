# Refresh-token lifecycle and repositories of a Go CRUD backend, in Dafny

This project models the stateful core of a small Go backend (Fiber, gorm, PostgreSQL):

- `AuthUseCase` (use_cases/auth_service.go): `Register`, `Login` and `Refresh`, the
  refresh-token rotation state machine, over a user store, a refresh-token store and a
  token service.
- The refresh-token repository (repository/refresh_token_repository.go): `Create`,
  `FindByToken`, `Revoke`.
- The user repository (repository/auth_repository.go): `Create`, `FindByEmail`, `FindByID`.
- The owner-scoped item repository (adapters/item_repository.go) and the product
  repository (repository/item_repository.go): create, lookups, filtered update and delete.

Each repository is a class holding its table as a `seq` of rows in insertion order
(`rows`), and its methods reassign that table the way the SQL statement would. gorm's
`First` orders by primary key; in the user and refresh-token tables a row's key is its
position plus one, so the two orders agree, and in the two item tables every `First`
clause fixes the (unique) primary key, so at most one row can match and the order does not
matter. The
`Tables` module holds the statement shapes they share: gorm's `First` (`FirstWhere`),
`Find` and `DELETE` (`Where`), and `UPDATE ... WHERE` (`UpdateWhere`).

Inputs of the model instead of code:

- The database's own failures: every repository method takes `failure: Option<string>`,
  the error the database reports for that statement (`None`: the statement runs). The use
  case takes a `Faults` record with one such answer per kind of statement it sends
  (lookup, revoke, insert).
- The clock: a `now` parameter, an instant in nanoseconds; `RefreshLifetime` is
  `7 * 24 * time.Hour` in nanoseconds.
- bcrypt: the user store's `generate(password, cost)` (hash bytes and error) and the use
  case's `compare(hash, password)`.
- JWT generation: `TokenIssuer`, a fake token service whose answers come from an arbitrary
  oracle `sign(kind, userId, n)` that may fail, and which logs every request so that "no
  token was requested" can be stated.

Two client methods on concrete oracles state the expected outcome of every step as a
verified assertion: `Auth.WalkthroughLogin` registers a user and logs in, and
`Auth.WalkthroughRotation` rotates a stored refresh token once and then presents the old
token again.

`Login` returns the user store's own error (`RecordNotFound`) for an unknown email and
"invalid credentials" for a wrong password, so a caller can tell the two apart; the HTTP
handler documents a single 401 "Invalid credentials" answer for both
(adapters/http_adapter.go:57) but passes the use case's message through unchanged
(adapters/http_adapter.go:66-69). The model follows the use case.

## Model

| member | source | states |
|---|---|---|
| Tables.FirstWhere | repository/refresh_token_repository.go:27 | gorm's `Where(...).First`: the position of the first row satisfying the clause (first in key order wherever position order is key order); none exactly when no row satisfies it |
| Tables.Where | adapters/item_repository.go:36 | gorm's `Where(...).Find`: every row returned is from the table and satisfies the clause, every satisfying row is returned; nothing is dropped exactly when every row satisfies the clause |
| Tables.WhereCounts | adapters/item_repository.go:36 | `Where` returns each satisfying row exactly as many times as the table holds it and no other row: the result is the filter of the table, not just a set of rows |
| Tables.WhereKeepsKeysUnique | entities/item.go:4 | deleting or selecting rows never makes two rows share a primary key |
| Tables.UpdateKeepsKeysUnique | entities/item.go:4 | an update that does not write the key keeps primary keys unique |
| RefreshTokens.RevokeAll | repository/refresh_token_repository.go:39-43 | every row with the token ends revoked; no field other than `revoked` changes; rows with another token are untouched |
| RefreshTokens.RevokeAllIdempotent | repository/refresh_token_repository.go:39-43 | revoking the same token twice leaves the table as revoking it once |
| RefreshTokens.RevokeAbsentIsNoOp | repository/refresh_token_repository.go:39-43 | revoking a token no row carries leaves the table unchanged |
| RefreshTokens.EvolvesTransitive | repository/refresh_token_repository.go:17-43 | "rows only appended, revoked never cleared" composes, so revocation is monotonic over any run of store operations |
| RefreshTokens.RevokedStaysFirst | use_cases/auth_service.go:80-94 | after the presented token is revoked, the row a later lookup finds is the same first row and it is revoked, whatever was appended since, even a row reusing the token string |
| RefreshTokens.RefreshTokenRepository.Create | repository/refresh_token_repository.go:17-23 | appends one row with the argument's user id, token and expiry and a table-assigned id; `revoked` is false whatever the argument says; a failed insert changes nothing |
| RefreshTokens.RefreshTokenRepository.FindByToken | repository/refresh_token_repository.go:25-37 | succeeds exactly when some row has the token and returns a full copy of the first such row; `RecordNotFound` when none has it; the database's error when the query fails |
| RefreshTokens.RefreshTokenRepository.Revoke | repository/refresh_token_repository.go:39-43 | the table becomes `RevokeAll` of the old one; no row count is checked, so an unknown token is not an error |
| Users.UserRepository.Create | repository/auth_repository.go:19-27 | appends one user with the argument's email and `generate(password, 10).hash`; the hashing error is dropped and the argument's id ignored |
| Users.UserRepository.FindByEmail | repository/auth_repository.go:29-35 | succeeds exactly when some user has the email and returns the first one's id, email and stored hash; `RecordNotFound` otherwise |
| Users.UserRepository.FindByID | repository/auth_repository.go:37-43 | succeeds exactly when the id is present (between 1 and the number of users) and returns that user's id and email with an empty password; `RecordNotFound` otherwise |
| Tokens.TokenIssuer.GenerateAccessToken | use_cases/auth_service.go:23-27 | one logged request for an access token for that user, answered by the oracle |
| Tokens.TokenIssuer.GenerateRefreshToken | use_cases/auth_service.go:23-27 | one logged request for a refresh token for that user, answered by the oracle |
| Auth.AuthUseCase.constructor | use_cases/auth_service.go:35-37 | the use case holds the given stores, token service and password comparison |
| Auth.AuthUseCase.IssuePair | use_cases/auth_service.go:57-76 | the tail Login and Refresh share: an access token, then (only if that worked) a refresh token is requested for the user; only if both are issued and the insert runs is one unrevoked record holding that refresh token, for that user, expiring `now` + 7 days, appended and both tokens returned; otherwise the first failure's error and two empty strings |
| Auth.AuthUseCase.Register | use_cases/auth_service.go:39-44 | the user store receives the email and the plaintext password unchanged, so the stored hash is `generate(password, 10)`; the store's error is returned |
| Auth.AuthUseCase.Login | use_cases/auth_service.go:46-77 | unknown email: the store's own error; wrong password: "invalid credentials" with no token requested and no record added; otherwise access then refresh token requested for the user's id, and only if both are issued and the insert runs, one unrevoked record with that refresh token, that user and expiry `now` + 7 days is appended and both tokens returned; every error returns two empty strings |
| Auth.AuthUseCase.Refresh | use_cases/auth_service.go:79-117 | checked in order: no record gives "invalid refresh token", a revoked record "refresh token revoked" (even when expired), both with nothing changed; an expired record is revoked, nothing is issued, "refresh token expired"; otherwise the token is revoked first and stays revoked whatever fails after, and on success exactly one unrevoked record for the same user, expiring `now` + 7 days, holding the returned refresh token is appended |
| Auth.RefreshTwice | use_cases/auth_service.go:79-94 | once a Refresh has found the token and its revoke ran, a second Refresh of the same token fails with "refresh token revoked" |
| OwnedItems.UpdateTouchesOnlyScope | adapters/item_repository.go:40-46 | the update sets the description of the rows matching both id and owner and changes nothing else |
| OwnedItems.ItemRepository.Create | adapters/item_repository.go:18-20 | appends the item as given, a zero id replaced by the next sequence value; a taken id is refused and changes nothing |
| OwnedItems.ItemRepository.FindByIDAndOwner | adapters/item_repository.go:22-32 | succeeds exactly when a row matches both id and owner, and returns that row, the only one with that id; `RecordNotFound` otherwise; the database's error when the query fails |
| OwnedItems.ItemRepository.FindByOwnerID | adapters/item_repository.go:34-38 | the rows of that owner, in table order, each as often as the table holds it (`Where`, with `WhereCounts`); the database's error and no rows when the query fails |
| OwnedItems.ItemRepository.Update | adapters/item_repository.go:40-46 | the table becomes the scoped description update of the old one; no error when nothing matches |
| OwnedItems.ItemRepository.Delete | adapters/item_repository.go:48-57 | removes exactly the rows matching both id and owner, so other owners' items survive; "item not found" exactly when nothing was removed (a failed statement included), no error otherwise |
| Products.UpdateTouchesOnlyProduct | repository/item_repository.go:46-53 | the update writes the non-empty ones of name and description to the rows with that product id, whoever owns them, and changes nothing else |
| Products.ItemRepository.Create | repository/item_repository.go:18-20 | appends the product as given, a zero product id replaced by the next sequence value; a taken id is refused |
| Products.ItemRepository.FindByIDAndOwner | repository/item_repository.go:22-32 | looks up by product id only: succeeds exactly when a row has that id and returns it, the only row with that id; `RecordNotFound` otherwise; the database's error when the query fails |
| Products.ItemRepository.ListItem | repository/item_repository.go:34-38 | every row of the table |
| Products.ItemRepository.FindByOwnerID | repository/item_repository.go:40-44 | the rows of that owner, in table order, each as often as the table holds it (`Where`, with `WhereCounts`); the database's error and no rows when the query fails |
| Products.ItemRepository.Update | repository/item_repository.go:46-64 | nothing to set: "item not found", unchanged; a failed statement: its error, unchanged; otherwise the product-id update is applied with no owner check, and "item not found" exactly when no row has that id |
| Products.ItemRepository.Delete | repository/item_repository.go:66-73 | removes exactly the rows with that product id, with no owner check; "item not found" exactly when nothing was removed; the statement's error is never returned |

## Left out

- JWT signing and validation (adapters/jwt_adapter.go), the bearer-header middleware
  (adapters/middleware.go), the HTTP handlers (adapters/http_adapter.go, adapters/http_dto.go)
  and the wiring in main.go: library calls and HTTP glue; token generation is the `sign`
  oracle of `TokenIssuer`.
- bcrypt: `generate` and `compare` are inputs; nothing is assumed about them, so "the
  stored password is never the plaintext" holds only as "it is `generate`'s output".
- The debug print of the hash at repository/auth_repository.go:21.
- Object storage (repository/file_repository.go) and the upload and stream parts of
  use_cases/item_service.go; the rest of item_service.go only forwards to the repository.
- Concurrency: two simultaneous Refresh calls on one token are not modelled; every call
  runs alone.
- Auth.AuthUseCase.Login and Auth.AuthUseCase.Refresh: read the clock once per call (`now`),
  where the Go code reads it again just before storing the new record.
- Integer widths: ids are unbounded naturals and times unbounded integers; `uint`
  wrap-around and the range of `time.Time` are not modelled.
- Uniqueness of emails and of refresh-token strings in the database schema is not part of
  this model (the entities are not shown); lookups by email or token return the first
  matching row in key order, which in those tables is position order.
- Result order of `Find` without ORDER BY is modelled as table order.
- A failed insert does not consume an id from the sequence in the model.
- OwnedItems.ItemRepository.Update: modelled as the UPDATE statement the code evidently
  sends; how gorm treats a map update issued without `Model` or `Table` is not modelled.
- Products.ItemRepository.Update: assumes the product record has no automatically
  maintained columns (such as an update timestamp), so an update with both fields empty
  sends no statement.
