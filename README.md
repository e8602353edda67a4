# Restaurant ordering services: a Dafny model

Two HTTP services share one user base.

- **AuthService** registers users, updates a user's password hash and role, lists and looks up users, logs users in and reads session tokens back.
- **OrderService** keeps a dish menu with stock counts and places orders against that stock. A background task advances orders through pending, in_progress and completed. Dish maintenance and most order administration are restricted by role.

This project models the request handlers of both services over an in-memory database. It also models the request validators, the table constraints, and one cycle of the background task.

- **The AuthService database** is the class `AuthModels.AuthDb`. Its `user` rows are a sequence in row order.
- **The OrderService database** is the class `OrderModels.OrderDb`, with one map, keyed by primary key, for each table its code reads or writes (`user`, `dish`, `order`, `order_dish`). The `session` table, which no OrderService code touches, is not held.
- **Autoincrement keys** are counters kept in those classes.
- **Handlers that write**, such as `create_order`, `update_dish` and the sweep, are methods with `modifies db`. Each one states its whole new state in terms of the old state and a specification function. Properties of those functions are proved as lemmas.
- **Read-only handlers** are functions.
- **JWT decoding** arrives as a value of `Tokens.DecodeOutcome`. A token is expired, rejected, or decoded into its `user_id` and `expires_at` claims.
- **bcrypt** is passed in as the parameters `hash` and `verify`.
- **Every response** is `Http.Result`: success, or an `HttpError` with the status code and the exact detail string of the source.
- **Uncaught server-side failures** are `Http.Unhandled` (500). These are a violated CHECK constraint at commit time, a response that fails its response model, and a `NameError` raised while matching exceptions.

Where the design description and the code disagree, the model follows the code:

- The design calls dish names unique. The `dish` table declares no such constraint. `create_dish` refuses a duplicate, but `update_dish` can rename a dish to a name that is already taken (`DishesRouter.RenameCanDuplicateName`).
- The design calls dish stock non-negative and decremented when an order references it. An order item's quantity has no lower bound, so a negative quantity raises the stock (`OrdersRouter.NegativeQuantityRaisesStock`).

## Model

| member | source | states |
|---|---|---|
| AuthModels.First | AuthService/src/users/router.py:52-54 | `.first()` on a filtered query: the index of the first row satisfying the filter, with no earlier row satisfying it; none only when no row does |
| AuthModels.IdLookupIsUnique | AuthService/src/models.py:9 | with autoincrement ids, the row found by id is the only row with that id |
| AuthModels.EmailLookupIsUnique | AuthService/src/models.py:11 | with the UNIQUE email column, the row found by email is the only row with that email |
| AuthModels.RoleConstraint | AuthService/src/models.py:17-19 | the CHECK on `user.role`: customer, chef or manager |
| AuthModels.UsersTable | AuthService/src/models.py:9-19 | the `user` table's constraints: increasing autoincrement ids, UNIQUE email, UNIQUE username, the role CHECK |
| UserSchemas.UsernameValid | AuthService/src/users/schemas.py:7-13 | the username validator as written: 3 to 20 characters that `re.match` with the pattern accepts, so a final newline passes |
| UserSchemas.PasswordValid | AuthService/src/users/schemas.py:18-24 | the password validator as written: 8 to 20 characters that `re.match` with the pattern accepts |
| UserSchemas.CorrectedUsernameValid | AuthService/src/users/schemas.py:7-13 | the corrected username rule: 3 to 20 characters, all from [a-zA-Z0-9_] |
| UserSchemas.CorrectedPasswordValid | AuthService/src/users/schemas.py:18-24 | the corrected password rule: 8 to 20 characters, all from [a-zA-Z0-9_] |
| UserSchemas.UserCreateRequestValid | AuthService/src/users/schemas.py:17-29 | a sign-up request passes its username and password validators; the role is not validated and defaults to 'customer' |
| UserSchemas.UserUpdateRequestValid | AuthService/src/users/schemas.py:32-44 | an update request passes its username validator, and its password validator when a password is present; password and role default to None |
| UserSchemas.PatternAsWrittenMeaning | AuthService/src/users/schemas.py:11 | the pattern as written accepts exactly the word strings, and the word strings followed by one newline |
| UserSchemas.CorrectedRulesAreStricter | AuthService/src/users/schemas.py:7-24 | every string the corrected rules accept passes the validators as written; on strings without a newline the two agree |
| UserSchemas.TrailingNewlinePassesPattern | AuthService/src/users/schemas.py:11 | "alice\n" passes the username validator and "password\n" the password validator as written; the corrected rules refuse both |
| UserSchemas.PatternAsWrittenAgreesWithoutNewline | AuthService/src/users/schemas.py:11 | on strings without a newline, the pattern as written accepts exactly the strings made of [a-zA-Z0-9_] |
| UserSchemas.ValidCredentialsHaveNoNewline | AuthService/src/users/schemas.py:7-24 | a username or password accepted by the corrected rules contains no newline |
| SessionSchemas.LoginPasswordValid | AuthService/src/sessions/schemas.py:6-14 | the login password validator as written: 8 to 20 characters that `re.match` with the pattern accepts |
| SessionSchemas.CorrectedLoginPasswordValid | AuthService/src/sessions/schemas.py:6-14 | the corrected login password rule: 8 to 20 characters, all from [a-zA-Z0-9_] |
| SessionSchemas.SessionCreateRequestValid | AuthService/src/sessions/schemas.py:4-14 | a login request passes its password validator; email syntax is not modelled |
| SessionSchemas.LoginAcceptsSignupPasswords | AuthService/src/sessions/schemas.py:6-14 | the login password validator accepts exactly the passwords the sign-up one accepts, both as written and corrected |
| SessionSchemas.SignUpRequestIsLoginRequest | AuthService/src/sessions/schemas.py:4-14 | the email and password of an accepted sign-up request form an accepted login request |
| SessionSchemas.TrailingNewlinePassesLogin | AuthService/src/sessions/schemas.py:10 | "password\n" passes the login password validator as written and fails the corrected rule |
| UsersRouter.Page | AuthService/src/users/router.py:44 | `offset(skip).limit(limit)`: min(limit, rows left after skip) rows, which are the rows from index skip on, in table order |
| UsersRouter.PagesTile | AuthService/src/users/router.py:44 | a page of a rows followed by the page of b rows starting where it ended is the page of a + b rows |
| UsersRouter.GetUsers | AuthService/src/users/router.py:24-45 | skip defaults to 0 and limit to 100; an expired token gives 401 "Token has expired"; a rejected token gives 401 "Could not validate credentials"; any decoded token gives the page, skip and limit applied, with no identity check |
| UsersRouter.GetMe | AuthService/src/users/router.py:122-146 | a decoded token gives the row whose id is the `user_id` claim; a missing claim or an unknown id gives 401 "Could not validate credentials"; the decode failures give their 401s |
| UsersRouter.GetUser | AuthService/src/users/router.py:148-162 | no token needed; the row with that id, otherwise 404 "User not found" |
| UsersRouter.CreateUser | AuthService/src/users/router.py:47-82 | the email is checked before the username (two different 409s); a role outside the CHECK gives 500; on any error nothing changes; otherwise one row is appended with the next id and hash(password) and returned with "User created successfully"; email and username uniqueness are kept; for a valid request the stored username fits the String(50) column |
| UsersRouter.UpdateUser | AuthService/src/users/router.py:84-120 | 401 for a decode failure or an unknown caller; otherwise only the caller's row changes: its hash if a non-empty password is given, its role if a non-empty role is given; the request's username and email are ignored; a role outside the CHECK gives 500 and no change; success returns "User updated successfully"; a valid request's password is always applied, since it cannot be empty |
| SessionsRouter.CreateSession | AuthService/src/sessions/router.py:30-53 | every failure is 401 "Invalid credentials"; an unknown email fails; success names a row with that email whose hash verifies the password, and the token expires `now` + 30 minutes; nothing is written |
| SessionsRouter.CreateSessionSucceedsIff | AuthService/src/sessions/router.py:35-45 | with unique emails, login succeeds if and only if the row with that email accepts the password |
| SessionsRouter.WrongPasswordLooksLikeUnknownEmail | AuthService/src/sessions/router.py:35-45 | a wrong password for an existing email gives exactly the response an unregistered email gives |
| SessionsRouter.GetSession | AuthService/src/sessions/router.py:56-76 | an expired token gives 401 "Token has expired."; a rejected token gives 401 "Invalid token."; a decoded payload is returned unchanged; a payload missing a claim fails the response model (500) |
| SessionsRouter.IssuedSessionReadsBack | AuthService/src/sessions/router.py:47-76 | a token issued at login reads back with the same user id and an expiry 30 minutes after issue |
| Identity.LoginThenGetMe | AuthService/src/users/router.py:137-146 | after a successful login, `/users/me` with the issued token returns the row with the submitted email, whose hash accepted the password |
| Identity.LoginThenOrderServiceUser | OrderService/src/orders/router.py:46-60 | when the OrderService `user` table mirrors the AuthService one, both OrderService resolvers map the issued token to the same row `/users/me` returns |
| Identity.SignUpThenLogIn | AuthService/src/users/router.py:70-80 | after a new row is appended, logging in with its email and password yields a token naming the new id, provided `verify(p, hash(p))` holds |
| OrderModels.StatusConstraint | OrderService/src/models.py:57-59 | the CHECK on `order.status`: one of the four status strings |
| OrderModels.UserRows | OrderService/src/models.py:7-20 | the OrderService `user` table's constraints: each row under its id, the role CHECK, UNIQUE username, UNIQUE email |
| OrderModels.OrderDb.Valid | OrderService/src/models.py:7-59 | the user constraints; every dish and order stored under its own id, below the next autoincrement id; every order's `user_id` names a user |
| OrderSchemas.OrderCreateRequestValid | OrderService/src/orders/schemas.py:18-20 | an order request has at least one item and special requests of at most 255 characters; item quantities are unbounded |
| DishSchemas.DishCreateRequestValid | OrderService/src/dishes/schemas.py:5-9 | name at most 100 characters, description at most 255 (default ""), price and quantity at least 0 |
| DishSchemas.DishUpdateRequestValid | OrderService/src/dishes/schemas.py:12-16 | the same four constraints; the description may be left unset |
| OrderModels.StatusNamesRoundTrip | OrderService/src/models.py:57-59 | printing and parsing a status are inverse; the strings that parse are exactly those the CHECK on `order.status` admits |
| OrderSchemas.ParseStatusUpdate | OrderService/src/orders/schemas.py:32-33 | a status update body is accepted if and only if it names one of the four `OrderStatus` values, and it then carries that value |
| Text.IntToString | OrderService/src/orders/router.py:81 | the decimal rendering of an integer in the f-string details: digits with no leading zero, a minus sign for negatives |
| Text.IntValueOfIntToString | OrderService/src/orders/router.py:81 | the decimal text put into the error details reads back as the same integer |
| OrdersRouter.GetCurrentUser | OrderService/src/orders/router.py:32-60 | an expired token gives 401 "Token has expired"; a rejected token gives 401 "Could not validate credentials"; decoded claims give the row whose id is `user_id`, or 401 "Could not validate credentials" when the claim is missing or the id is unknown |
| OrdersRouter.TakeItem | OrderService/src/orders/router.py:77-88 | one pass of the loop body: 400 not available for an absent or zero-stock dish, 400 "Only … available" for short stock, otherwise that dish's quantity lowered by the item's |
| OrdersRouter.PlaceItems | OrderService/src/orders/router.py:76-88 | the whole loop over the items in request order, each checked against the stock the earlier ones left; its meaning is `PlaceItemsMeaning` |
| OrdersRouter.EmptyOrderPassesTheLoop | OrderService/src/orders/schemas.py:19 | the loop accepts an empty order and takes nothing; only the schema's `min_items=1` refuses it |
| OrdersRouter.ValidOrderTakesFromStockedDish | OrderService/src/orders/schemas.py:19 | a schema-valid order that passes the loop names, first, a dish that was in stock |
| OrdersRouter.PlaceItemsAllFit | OrderService/src/orders/router.py:76-88 | when every item fits the stock left by the items before it, the loop succeeds and lowers each dish by the total requested of it |
| OrdersRouter.PlaceItemsFirstMisfit | OrderService/src/orders/router.py:76-87 | when item k is the first that does not fit, the loop fails with that item's error: 400 "Dish with id … is not available" for an absent or out-of-stock dish, otherwise 400 "Only … available" with the stock the check saw |
| OrdersRouter.PlaceItemsMeaning | OrderService/src/orders/router.py:76-88 | the loop succeeds if and only if every item fits; on success it equals the reference decrement; on failure there is a first misfit, and the error is its rejection |
| OrdersRouter.OrderConservesStock | OrderService/src/orders/router.py:76-88 | after a successful order, each dish's stock has fallen by exactly the total requested of it; no other column changed; no dish appeared or vanished; dishes the order does not name are untouched |
| OrdersRouter.OrderKeepsStockNonNegative | OrderService/src/orders/router.py:83-88 | a successful order never drives non-negative stock below zero, whatever the requested quantities |
| OrdersRouter.ShortStockExample | OrderService/src/orders/router.py:83-87 | stock 2 and a request for 3: 400 "Only 2 Soup available" |
| OrdersRouter.RepeatedDishExample | OrderService/src/orders/router.py:76-88 | a dish listed twice is checked the second time against the stock the first item left |
| OrdersRouter.NegativeQuantityRaisesStock | OrderService/src/orders/schemas.py:10 | an item quantity has no lower bound, so a negative quantity passes both checks and raises the stock |
| OrdersRouter.CreateOrder | OrderService/src/orders/router.py:63-101 | the stock loop over a working copy; an unknown caller gives 404; any error commits nothing; success stores the loop's stock and one new order with a fresh id, status pending, the caller's id and the special requests; no per-dish rows are written |
| OrdersRouter.UpdateOrderStatus | OrderService/src/orders/router.py:103-126 | roles other than manager or chef get 403 before the lookup; a missing order gives 404; otherwise that order alone takes the requested status, with no transition rule |
| OrdersRouter.GetOrder | OrderService/src/orders/router.py:129-141 | any authenticated caller gets the order, otherwise 404 "Order not found" |
| OrdersRouter.GetAllOrders | OrderService/src/orders/router.py:144-162 | managers and chefs only (403); an empty table gives 404 "No orders found"; otherwise every order |
| OrdersRouter.DeleteOrder | OrderService/src/orders/router.py:164-185 | managers only (403 before the lookup); 404 when the order is absent; otherwise exactly that order is removed and returned |
| OrderLifecycle.PhaseIdempotent | OrderService/src/main.py:21-23 | running a phase twice in a row equals running it once |
| OrderLifecycle.PhasesEmptyTheirSource | OrderService/src/main.py:19-34 | after phase 1 no order is pending; after phase 2 none is in_progress |
| OrderLifecycle.CycleLeavesNothingActive | OrderService/src/main.py:19-34 | after a full cycle with no other writes, every order is completed or cancelled |
| OrderLifecycle.CycleMovesForward | OrderService/src/main.py:19-34 | the cycle adds and removes no orders, never touches a completed or cancelled order, changes no column but the status, and moves every status it changes forward along pending, in_progress, completed |
| OrderLifecycle.MoveOneMore | OrderService/src/main.py:21-23 | one more loop iteration adds exactly that order to the set of orders already moved |
| OrderLifecycle.MovedSelectedIsAdvance | OrderService/src/main.py:19-23 | moving exactly the orders the status query selected is one phase |
| OrderLifecycle.MoveAll | OrderService/src/main.py:19-25 | the `for` loop over the selected orders leaves the table equal to one phase, and changes no other table |
| OrderLifecycle.StartPendingOrders | OrderService/src/main.py:19-25 | phase 1: pending orders become in_progress |
| OrderLifecycle.CompleteInProgressOrders | OrderService/src/main.py:29-34 | phase 2: in_progress orders become completed |
| OrderLifecycle.RunCycle | OrderService/src/main.py:19-34 | one cycle is phase 1 followed by phase 2, and afterwards no order is pending or in_progress |
| DishesRouter.GetCurrentUser | OrderService/src/dishes/router.py:27-55 | decoded claims give the row named by `user_id`, or 401 "Could not validate credentials"; any decode failure gives 500, because of the missing imports |
| DishesRouter.DishAuthAgreesOnDecodedTokens | OrderService/src/dishes/router.py:27-55 | on decoded claims this resolver and the orders router's agree; on decode failures this one gives 500 where that one gives its 401s |
| DishesRouter.ExpiredTokenIsServerError | OrderService/src/dishes/router.py:30-34 | an expired token gives 500 here and 401 "Token has expired" in the orders router |
| DishesRouter.GetMenu | OrderService/src/dishes/router.py:57-60 | exactly the dishes with quantity above zero, unchanged |
| DishesRouter.MenuListsOrderableDishes | OrderService/src/dishes/router.py:59 | a dish is on the menu if and only if an order for one portion of it passes the stock check of `create_order` |
| DishesRouter.GetAllDishes | OrderService/src/dishes/router.py:113-125 | managers only (403); every dish, including those with zero stock and the empty table |
| DishesRouter.GetDish | OrderService/src/dishes/router.py:127-146 | managers only (403 before the lookup); the dish, otherwise 404 "Dish not found" |
| DishesRouter.AddingFreshNameKeepsNamesUnique | OrderService/src/dishes/router.py:74-84 | inserting a dish under a name no dish has keeps dish names pairwise distinct |
| DishesRouter.CreateDish | OrderService/src/dishes/router.py:62-85 | managers only (403); a taken name gives 409 and no change; otherwise one dish with a fresh id and the submitted fields; name uniqueness is kept; a valid request keeps stock non-negative |
| DishesRouter.SetAttrs | OrderService/src/dishes/router.py:107-108 | the `setattr` calls of the loop, applied in order; its meaning is `SetAttrsMeaning` |
| DishesRouter.SetAttrsMeaning | OrderService/src/dishes/router.py:107-108 | the `setattr` loop over the fields set in the request replaces name, price and quantity, replaces the description only when it was sent, and keeps the id |
| DishesRouter.UpdateIdempotent | OrderService/src/dishes/router.py:107-108 | applying the same update twice equals applying it once; a later update that sends every field overrides an earlier one |
| DishesRouter.RenameCanDuplicateName | OrderService/src/dishes/router.py:100-110 | an update can give a dish the name of another dish, since the name is not re-checked |
| DishesRouter.UpdateDish | OrderService/src/dishes/router.py:87-111 | managers only (403 before the lookup); 404 for an unknown id; otherwise the `setattr` loop runs on that dish and only that dish changes; a valid request keeps stock non-negative |
| DishesRouter.DeleteDish | OrderService/src/dishes/router.py:148-168 | managers only (403 before the lookup); 404 for an unknown id; otherwise exactly that dish is removed and {"error": "Dish deleted"} is returned |

## Left out

- HTTP plumbing is not modelled: routing, dependency injection, header parsing and response serialisation. A missing Authorization header is refused by the bearer scheme before any handler runs, so the "No token provided." branch of `get_session` is not modelled.
- Requests that fail their pydantic schema are answered with 422 before the handler runs. The handlers are modelled without that gate, for any request, and the validators are separate predicates. The validators are modelled as written, trailing-newline defect included; the corrected rules sit beside them. The contracts that need a valid request take validity as a hypothesis.
- Email syntax (`EmailStr`) is a library validator and is not modelled: emails are plain strings.
- Password hashing (passlib bcrypt) is left to the `hash` and `verify` parameters, which are not interpreted.
- JWT encoding, signing and verification (RFC 7519, HS256 as in section 3.2 of RFC 7518) happen inside the library and are not modelled. The outcome of decoding is an input.
- The issued payload carries a custom `expires_at` claim rather than the registered `exp` claim. The library therefore never rejects these tokens as expired, and no endpoint checks `expires_at`. No property about expiry enforcement is stated.
- Timestamps (`created_at`, `updated_at`, `datetime.now`, `datetime.utcnow`) are not modelled. Login takes the current time as an integer number of seconds. `SessionsRouter.GetSession` returns `expires_at` as that integer, not as the ISO-8601 text the source produces.
- `DECIMAL(10, 2)` prices are integers of minor units. Decimal rounding is not modelled.
- Column widths (`String(n)`) are constants. Writes that exceed them are not modelled, because their behaviour depends on the database backend.
- The role lists in the user schemas are documentation extras, not validators. Role membership is enforced only by the table CHECK, at commit time, as a 500 in `UsersRouter.CreateUser` and `UsersRouter.UpdateUser`.
- UsersRouter.Page: the `user` query has no ORDER BY, so SQL leaves the row order to the backend. The model fixes one order, that of the sequence, with new rows at the end and updated rows in place. `Page`, `PagesTile` and the `first()` lookups rely on that assumed order.
- UsersRouter.GetUsers: `skip` and `limit` are natural numbers. Negative values are passed to the database, whose handling depends on the backend.
- The `session` and `order_dish` tables are records only: no modelled endpoint writes them.
- The OrderService `user` table is read-only in the model. Keeping it in step with AuthService is outside both services; `Identity.Mirrors` states the assumption.
- A database failure at commit time (a lost connection, a foreign key violated by deleting a dish or user that rows still reference) is not modelled.
- `process_orders` is modelled as one cycle, `OrderLifecycle.RunCycle`. The endless `while True`, the sleeps between and after the phases, the random sleep length, the task start-up and concurrency with the request handlers are not modelled. Concurrent orders overselling the same stock is not modelled either.
- OrderLifecycle.MoveAll: the loop writes the new statuses to a local copy of the order table and stores it once, where the source assigns each loaded order object in place. With the single commit after the loop, this leads to the same table.
- The dish endpoints take the caller that `DishesRouter.GetCurrentUser` resolved. Which responses a decode failure produces is stated about that resolver alone.

## Findings

| source | as written | input that shows it | evidently intended | confidence | as-written member | corrected member |
|---|---|---|---|---|---|---|
| AuthService/src/users/schemas.py:11 | the pattern `^[a-zA-Z0-9_]*$` is applied with `re.match`, where `$` also matches just before a final newline | username "alice\n" (6 characters) passes every username constraint | only the characters [a-zA-Z0-9_] (anchor with `\Z`, or use a full match) | high for pydantic v1, which this schema syntax is; not executed | UserSchemas.UsernameValid, UserSchemas.TrailingNewlinePassesPattern | UserSchemas.CorrectedUsernameValid, UserSchemas.ValidCredentialsHaveNoNewline |
| AuthService/src/users/schemas.py:22 | the same pattern and `re.match` on the sign-up password | password "password\n" (9 characters) is accepted | only [a-zA-Z0-9_] | high for pydantic v1; not executed | UserSchemas.PasswordValid, UserSchemas.TrailingNewlinePassesPattern | UserSchemas.CorrectedPasswordValid, UserSchemas.CorrectedRulesAreStricter |
| AuthService/src/users/schemas.py:37 | the same pattern and `re.match` on the optional update password | an update with password "password\n" is accepted and its hash stored | only [a-zA-Z0-9_] | high for pydantic v1; not executed | UserSchemas.UserUpdateRequestValid, UserSchemas.TrailingNewlinePassesPattern | UserSchemas.CorrectedPasswordValid, UserSchemas.ValidCredentialsHaveNoNewline |
| AuthService/src/sessions/schemas.py:10 | the same pattern and `re.match` on the login password | login password "password\n" passes validation | only [a-zA-Z0-9_] | high for pydantic v1; not executed | SessionSchemas.LoginPasswordValid, SessionSchemas.TrailingNewlinePassesLogin | SessionSchemas.CorrectedLoginPasswordValid, SessionSchemas.LoginAcceptsSignupPasswords |
| OrderService/src/dishes/router.py:30-39 | the `except` clauses name `ExpiredSignatureError` and `PyJWTError`, which the module never imports | a token with a bad signature (or any other token the decoder rejects) raises `NameError`, answered with 500 | 401 "Token has expired" or 401 "Could not validate credentials", as the orders router does with the same code and the imports | high; not executed | DishesRouter.GetCurrentUser, DishesRouter.ExpiredTokenIsServerError | OrdersRouter.GetCurrentUser, DishesRouter.DishAuthAgreesOnDecodedTokens |
