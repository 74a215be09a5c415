# Sweet shop backend: catalogue, stock and access control in Dafny

This project models the core of a small sweet-shop backend, an Express
service over a PostgreSQL database.

- **Catalogue and stock** (the sweets controller). The sweets table is a
  finite map from id to `Sweet(name, category, price, quantity)`, with the
  table's id sequence kept beside it. Create, update, delete, purchase and
  restock are pure functions from (store, request) to (outcome, new store).
  List and search are read-only functions from the store (and the filters) to
  its rows. A purchase or restock holds a row lock inside one database
  transaction, so each is one atomic step. `StockRuns` composes these steps
  serially, in lock order, and states what a run of them does to the stock.
- **User registry** (the auth controller). The users table is keyed by
  email. `register` checks the required fields, refuses a duplicate email and
  normalises the role. `login` checks the fields, looks the user up and
  compares the password. Hashing, comparison and token signing are function
  parameters. A token is represented by the claims it is signed over.
- **Access control** (the auth middleware and the sweets router).
  `requireAuth` parses a `Bearer` header and takes the second
  space-separated segment as the token. That token goes to an abstract
  verification function. `requireAdmin` is a role test. The router runs
  `requireAuth` on every route and `requireAdmin` on create, update, delete
  and restock, like a middleware chain.

Outcomes are `Ok(record)` or `Err(kind)`. The error kinds are the service's
4xx answers (`MissingFields`, `InvalidQuantity`, `InsufficientStock`,
`NothingToUpdate`, `NotFound`, `Conflict`, `InvalidCredentials`,
`Unauthorized`, `InvalidToken`, `Forbidden`). A comment on each kind gives
the HTTP status it is sent with.

Inputs that JavaScript reads loosely are modelled explicitly:

- A string field is `Option<string>`. It is "truthy" when present and
  non-empty, which is the reading of `!name`.
- `Number(quantity)` is `Option<int>`, where `None` stands for NaN.
- Prices are integers (cents).

The model follows the code on two points worth knowing:

- `create` does not check that price and quantity are non-negative
  (src/controllers/sweetController.ts:8).
- `update` refuses an empty patch before it looks the id up
  (src/controllers/sweetController.ts:97-108).

So stock can be negative when it enters a purchase or restock. Lemmas about
round trips therefore assume non-negative stock, and
`StockRuns.RestockKeepsNegativeStock` shows why.

## Model

| member | source | states |
|---|---|---|
| Catalog.Create | src/controllers/sweetController.ts:4-17 | A request missing a truthy name or category, or a price or quantity, is MissingFields with no change. Otherwise the new row goes under an id greater than every id in use, and nothing else in the table changes. |
| Catalog.List | src/controllers/sweetController.ts:24-27 | The list holds exactly the stored rows, each once, in strictly ascending id order. |
| Catalog.Search | src/controllers/sweetController.ts:34-65 | A row is returned iff it is stored and satisfies every supplied filter (case-insensitive name substring, exact category, inclusive price bounds). Rows come in ascending id order. |
| Catalog.SearchWithoutFilters | src/controllers/sweetController.ts:61-62 | With no filter supplied, search answers exactly what list answers. |
| Catalog.SearchIsConjunction | src/controllers/sweetController.ts:41-61 | A row is found by a search iff each of its four filters, applied alone, finds it. |
| Text.ContainsIffOccurs | src/controllers/sweetController.ts:41-43 | The substring test behind the name filter holds iff the pattern occurs at some position of the name. |
| Catalog.Update | src/controllers/sweetController.ts:72-110 | An empty patch is NothingToUpdate, checked before the id. An absent id is NotFound. Otherwise exactly the supplied fields take the supplied values, every other field and row is unchanged, and the updated row is answered. |
| Catalog.UpdateIdempotent | src/controllers/sweetController.ts:80-104 | Repeating an update gives the same answer and the same table as applying it once. |
| Catalog.Delete | src/controllers/sweetController.ts:117-126 | An absent id is NotFound with no change. Otherwise exactly that row is removed and every other row is kept. |
| Catalog.CreateThenDelete | src/controllers/sweetController.ts:120-126 | Deleting a row just created restores the table's rows, and the id is not reused by the next create. |
| Catalog.DeletedRowIsGone | src/controllers/sweetController.ts:152-156 | After a delete, a purchase or restock with a valid quantity, an update with a non-empty patch, and a delete of that id all answer NotFound, so no row is recreated. |
| Catalog.Purchase | src/controllers/sweetController.ts:133-173 | A NaN, zero or negative quantity is InvalidQuantity. Then an absent id is NotFound. Then stock below the quantity is InsufficientStock. Every refusal leaves the table unchanged. A success lowers only that row's quantity, by the quantity bought, to a non-negative value. |
| Catalog.Restock | src/controllers/sweetController.ts:182-214 | A NaN, zero or negative quantity is InvalidQuantity, and then an absent id is NotFound, both with no change. A success raises only that row's quantity by the given amount. |
| Catalog.RestockThenPurchase | src/controllers/sweetController.ts:207-210 | Restocking k and then buying k from non-negative stock both succeed and restore the original row and table. |
| Catalog.PurchaseThenRestock | src/controllers/sweetController.ts:166-169 | Buying k units the stock covers and then restocking k restores the original table. |
| StockRuns.RunConservesStock | src/controllers/sweetController.ts:145-171 | After any serial run of purchases and restocks, each item's quantity is its initial quantity plus the sum of the committed changes to it. No item is added or removed, and no other field changes. |
| StockRuns.RunKeepsStockNonNegative | src/controllers/sweetController.ts:160-169 | Starting from non-negative stock, every answered row and the final table have non-negative stock. |
| StockRuns.PurchasesSucceedWhileStockLasts | src/controllers/sweetController.ts:147-164 | In a run of purchases of one item, each succeeds iff the stock left by the earlier ones covers it, and each refusal is InsufficientStock. |
| StockRuns.TwoPurchasesOfSixFromTen | src/controllers/sweetController.ts:160-169 | From ten units, two purchases of six leave four: the first succeeds and the second is InsufficientStock. |
| StockRuns.RestockKeepsNegativeStock | src/controllers/sweetController.ts:8-15 | Because create accepts a negative quantity, restocking 1 from -1 leaves 0, and buying 1 back is then refused. |
| Users.NormalizeRole | src/controllers/authController.ts:20 | The stored role is admin iff the requested role is exactly "admin", and customer otherwise. |
| Users.Register | src/controllers/authController.ts:6-35 | A missing name, email or password is MissingFields. Then a registered email is Conflict. Both leave the registry unchanged. A success adds exactly one user under that email, with a fresh id, the hashed password and the normalised role, and answers its profile and token claims. |
| Users.Login | src/controllers/authController.ts:42-75 | A missing email or password is MissingFields. An unknown email, or a password the comparison rejects, is InvalidCredentials. Login succeeds iff both fields are present, the email is registered and the comparison accepts the password; it then answers the stored user's profile and its id and role as token claims. |
| Users.RegisterTwiceConflicts | src/controllers/authController.ts:14-17 | Right after a successful register, registering the same email again is Conflict and changes nothing. |
| Users.RegisterThenLogin | src/controllers/authController.ts:55-70 | A freshly registered user logging in with the same password gets the session that register answered. |
| Users.WrongPasswordRejected | src/controllers/authController.ts:60-64 | A password the comparison rejects does not log in a registered user. |
| Text.Split | src/middleware/auth.ts:11 | Splitting at a separator yields at least one piece, no piece contains the separator, and joining the pieces gives back the input. |
| Text.SplitJoin | src/middleware/auth.ts:11 | Splitting a join of separator-free pieces gives back exactly those pieces. |
| AuthMiddleware.RequireAuth | src/middleware/auth.ts:5-21 | A missing header, or one not starting with "Bearer ", is Unauthorized. A token that fails verification is InvalidToken. Authentication succeeds iff the header starts with "Bearer " and its second space-separated segment verifies, and the user then has exactly the verified payload's id and role. |
| AuthMiddleware.BearerTokenRoundTrip | src/middleware/auth.ts:11 | For a token without spaces, the token read from "Bearer " followed by that token is the token itself. |
| AuthMiddleware.BearerTokenStopsAtSpace | src/middleware/auth.ts:11 | Anything after a further space is dropped from the token, so "Bearer" followed by two spaces gives an empty token. |
| AuthMiddleware.AuthenticateBearer | src/middleware/auth.ts:11-20 | Presenting a space-free token, authentication succeeds iff verifying exactly that token succeeds, and it carries the verified id and role. |
| AuthMiddleware.RequireAdmin | src/middleware/auth.ts:23-28 | Passes the user through iff there is one and its role is admin, and is Forbidden otherwise. |
| SweetRoutes.AuthenticateComesFirst | src/routes/sweets.ts:15-24 | Every route's guard chain starts with authentication. The admin guard is in the chain iff the route is create, update, delete or restock. |
| SweetRoutes.Authorize | src/routes/sweets.ts:15-24 | An authentication failure is reported as itself, before any role check. An authenticated non-admin is Forbidden on admin routes. The chain passes iff the user is authenticated and, on admin routes, an admin. |
| SweetRoutes.Serve | src/routes/sweets.ts:15-24 | A request refused by its guards leaves the table unchanged. No request succeeds or changes the table without a verified token, or without the admin role on an admin route. |
| SweetRoutes.UnauthenticatedRequestsRejected | src/middleware/auth.ts:6-20 | Without a verified token, every sweets request is Unauthorized or InvalidToken (never Forbidden) and leaves the table unchanged. |
| SweetRoutes.CustomerAccess | src/routes/sweets.ts:17-24 | An authenticated customer gets exactly the handler's effect for list, search and purchase, and Forbidden with no change for create, update, delete and restock. |
| SweetRoutes.AdminAccess | src/routes/sweets.ts:17-24 | An authenticated admin reaches every handler unchanged. |
| SweetRoutes.RegisteredRoleDecidesRestock | src/routes/sweets.ts:24 | A newly registered user presenting their issued token may restock iff they asked for the admin role, and is otherwise Forbidden. This assumes tokens contain no spaces and verify back to their claims. |

## Left out

- Concurrency: the transaction statements, the row lock and releasing the pool client are one atomic step per purchase or restock. Interleavings are not modelled. A run of stock operations is their serial composition in lock order.
- Database and SQL: the connection pool, the SQL text and its placeholders are not modelled. Only their effect on the map is. Every 500 path (a thrown query, a failed rollback) is left out.
- Express plumbing: response objects, status-code plumbing, logging and application bootstrap (CORS, environment loading, the health route) are not modelled. URL matching is replaced by a request datatype that names its route.
- src/routes/auth.ts is not part of this model. Register and login are modelled as handlers without their routing.
- Catalog.Purchase: quantities are integers. The source also accepts a fractional quantity such as 1.5, since it only refuses NaN, zero and negative values.
- Catalog.Restock: quantities are integers, for the same reason as purchase.
- Catalog.Search: the name filter is an ASCII case-folded substring test. SQL ILIKE wildcards in the pattern (`%`, `_`) and locale-dependent case folding are not modelled. A non-numeric price bound, which makes the query fail, is not modelled either.
- Catalog.Update: setting a field to JSON null, which the source passes to the database as NULL, is not modelled. A patch field is present or absent.
- Catalog.Create: the id comes from a counter standing for the table's id sequence, whose schema is not shown. Any id not in use would do, and the contract promises only that the id is fresh and greater than every id in use.
- Ids from the URL: a non-numeric id that becomes NaN makes the query fail, and this is not modelled. Ids are integers.
- Prices are integer cents rather than decimals.
- Password hashing and comparison, and token signing and verification (including expiry), are function parameters. A token is represented by its claims. Hashing is therefore deterministic in the model, though bcrypt salts it.
- Users.Register: two concurrent registrations of one email both passing the duplicate check is a race, and it is not modelled. Register is one atomic step.
