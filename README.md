# Bistro Boss server: access gate and user-store rules

A Dafny model of the part of the Bistro Boss restaurant backend that makes
decisions: the `verifyToken` and `adminVerify` middleware, the chains they form
in front of each route, and the handlers whose outcome depends on what the
collections hold (admin-status query, registration, promotion to admin,
deletion by id, the menu read and patch, the cart filter).

The collections (`user`, `menu`, `carts`) are sequences in natural order.
MongoDB's `findOne`, `updateOne` and `deleteOne` act on the first matching
document, and `find(...).toArray()` keeps every match in order. `jwt.verify`
with the server's secret is a parameter `Verifier = string -> Option<Claim>`.

Layout, one module per file:

- `collection.dfy` (`Collection`): filter-based store operations on one collection, and their counts.
- `documents.dfy` (`Documents`): ids tagged `StrId`/`ObjId`, users, menu items, cart rows, the claim, and the filters.
- `header.dfy` (`Header`): JavaScript's `split(' ')` and `join(' ')`, with both round trips, and the token as piece 1.
- `http.dfy` (`Http`): statuses, messages and reply bodies.
- `gate.dfy` (`Gate`): the two middleware as decisions, and the chain that runs them in order.
- `routes.dfy` (`Routes`): each route's chain and handler as functions, `Serve` for a whole request, and the properties.
- `server.dfy` (`Server`): the imperative side. `Request` is the object `verifyToken` writes `decoded` to. `Database` has one method per driver call, each changing only its own collection. One method per middleware and per route, and `Dispatch` for a whole request. Each is proved against the functions above.

Where the design description and the code differ, the model follows the code:

- The token is the piece after the first single space (`split(' ')[1]`), not the second whitespace-separated word. A tab does not separate, and two spaces give an empty token.
- An empty `Authorization` header is falsy in JavaScript. So it counts as missing and gets 401 "forbidden access".
- Registration inserts the request body as sent. A body with `role: 'admin'` makes a new admin (`Routes.RegisterWithAdminRole`). So `role` is an optional JSON value, not the closed `{Member, Admin}` variant suggested for a redesign.
- `adminVerify` and the admin-status query look only at the first user `findOne` returns. The "some user with that email is an admin" form holds once emails are unique. The store does not enforce this, but every route keeps it (`Routes.ServeKeepsEmailsUnique`).
- `PATCH /menu/:id` stores the body's `price` as `recipe` and ignores the body's `recipe`. This is modelled as written (`Routes.EditMenuStoresPriceAsRecipe`). It is most likely a slip for `item.recipe`.
- `GET` and `PATCH /menu/:id` filter on the raw path string. `DELETE /menu/:id` filters on an ObjectId. The two never match the same item (`Routes.MenuIdKindsDiffer`).
- Cart deletion checks no ownership. Any caller may delete any row by id.
- `GET /carts` without `?email=` queries `{email: null}`. That lists every cart row stored without an email (`POST /carts` inserts bodies as sent), not an empty list.

## Model

| member | source | states |
|---|---|---|
| Collection.FindIndex | index.js:62 | the position found is a match, and no earlier document matches; no position means no document matches |
| Collection.FindOne | index.js:82 | `findOne` finds something iff some document matches, and what it finds is the first matching document in natural order |
| Collection.Find | index.js:170 | `find().toArray()` holds only matching members of the collection, every matching document, and exactly as many documents as match |
| Collection.FindAppend | index.js:170 | `find` keeps natural order: a document appended to the collection comes after every earlier match, and appears only if it matches |
| Collection.DeleteOne | index.js:105 | `deleteOne` removes the first matching document and nothing else, keeping the order of the rest; with no match the collection is unchanged |
| Collection.DeletedCount | index.js:183 | `deletedCount` is 1 iff something matched, else 0 |
| Collection.UpdateOne | index.js:118 | `updateOne` replaces the first match by its update and keeps every other position; with no match nothing changes |
| Collection.UpdateCounts | index.js:158 | `matchedCount` is 1 iff something matched; `modifiedCount` is 1 iff the collection actually changed |
| Documents.FirstByEmailIsOnly | index.js:61-63 | with unique emails, the user the email filter finds is the one user with that email |
| Header.Split | index.js:47 | `split(' ')` gives at least one piece, none containing a space, and exactly one piece iff the header has no space |
| Header.JoinSplit | index.js:47 | joining the pieces with single spaces gives the header back |
| Header.SplitJoin | index.js:47 | splitting space-free pieces joined by spaces gives the pieces back |
| Header.BearerToken | index.js:47 | a token exists iff the header contains a space, and it contains no space |
| Header.TokenFollowsFirstSpace | index.js:47 | the token is the text after the first space, up to the next space |
| Header.WellFormedHeader | index.js:47 | `"<scheme> <token> ..."` yields `token` |
| Header.SchemeIgnored | index.js:47 | the word before the first space is not checked: any scheme gives the same token |
| Gate.TokenGate | index.js:42-56 | the verifier answers only with 401 and then leaves `decoded` alone; when it lets a request through, a claim is attached |
| Gate.AdminGate | index.js:59-68 | the admin check lets the request through exactly when the first user with the claimed email has role `'admin'`; it changes nothing on the request, and its only answer is 403 "forbidden access" |
| Gate.RunChain | index.js:70 | a chain that passes has attached a claim; a chain that answers answers 401 or 403 |
| Gate.MissingHeaderStops | index.js:44-46 | no header (or an empty one): 401 "forbidden access", and no later stage runs |
| Gate.BadTokenStops | index.js:47-51 | no second piece, or a token that fails verification: 401 "unauthorized access", and no later stage runs |
| Gate.GoodTokenContinues | index.js:48-53 | a verified token attaches its claim as `decoded` and exactly the rest of the chain runs |
| Gate.UnauthorizedBeforeForbidden | index.js:42-68 | when the token stage answers, the answer is 401 whatever the user collection holds |
| Gate.AdminGateIff | index.js:59-67 | with unique emails, `adminVerify` passes iff some user with the claimed email has role `'admin'`; otherwise 403 |
| Gate.AdminChainPasses | index.js:102 | `verifyToken` then `adminVerify` passes iff the header holds a token that verifies to the email of an admin |
| Routes.Chain | index.js:70-185 | each route's middleware list is empty or starts with `verifyToken` |
| Routes.Handle | index.js:70-185 | each handler changes only the collection its route names; it answers 200, or 403 on the admin-status mismatch |
| Routes.Serve | index.js:70-185 | a request that the chain answers leaves every collection unchanged |
| Routes.GuardedRouteWithoutHeader | index.js:44-46 | on every guarded route a missing header gives 401 "forbidden access" and changes nothing |
| Routes.GuardedRouteWithBadToken | index.js:47-51 | on every guarded route a token that does not verify gives 401 "unauthorized access" and changes nothing |
| Routes.AdminRouteWithGoodToken | index.js:59-68 | on admin routes a verified caller is served iff some user with the claimed email is an admin, else 403 and nothing changes |
| Routes.TokenRouteWithGoodToken | index.js:76 | the admin-status route needs only a verified token; its handler then runs with the claim |
| Routes.OpenRoute | index.js:91 | registration, menu read and patch, and the cart routes run their handler whatever the headers say |
| Routes.AdminStatusOfOther | index.js:78-80 | asking about an email other than the claimed one gives 403 "forbidden access" |
| Routes.AdminStatusOfSelf | index.js:81-87 | asking about one's own email answers whether a user with it is an admin; an unknown email answers `{admin: false}` |
| Routes.RegisterOutcome | index.js:91-100 | a known email inserts nothing and answers "User already exists" with `insertedId: null`; a new email appends exactly the submitted record under the new id |
| Routes.RegisterKeepsEmailsUnique | index.js:93-98 | check-then-insert keeps emails unique |
| Routes.RegisterTwice | index.js:93-99 | registering one email twice in a row leaves exactly one user with it, and the second call inserts nothing |
| Routes.RegisterWithAdminRole | index.js:98 | a new user whose body carries `role: 'admin'` is an admin immediately |
| Routes.PromoteEffect | index.js:109-120 | promotion sets `role: 'admin'` on the record with that id and keeps its other fields and all other records; `modifiedCount` is 0 iff it was already admin |
| Routes.PromoteUnknownId | index.js:112-118 | promoting an id nothing has changes nothing and reports 0 matched, 0 modified |
| Routes.PromoteKeepsEmailsUnique | index.js:112-118 | promotion keeps emails unique |
| Routes.PromoteThenAdminStatus | index.js:112-118 | after promoting a user by id, that user's own admin-status query (index.js:82-85) answers `{admin: true}` |
| Routes.DeleteByIdEffect | index.js:102-107 | deletion by id keeps every record with another id and adds none; an unknown id changes nothing and answers `deletedCount: 0` |
| Routes.DeleteByIdRemovesIt | index.js:104-105 | with unique ids no record with that id remains, and ids stay unique |
| Routes.EditMenuStoresPriceAsRecipe | index.js:145-160 | the patched item's fields are all taken from the body, with `recipe` equal to the body's `price`; all other items are unchanged |
| Routes.MenuIdKindsDiffer | index.js:138-143 | an item stored under `ObjectId(id)` is not found or patched by the string `id`, but `DELETE /menu/:id` (index.js:126-131) removes it |
| Routes.CartRowsOfOwner | index.js:167-172 | the cart list holds exactly the rows whose email equals the query's, as many as there are; a query without an email (sent as null) lists the rows that have no email; a query no row carries lists nothing |
| Routes.ServeKeepsEmailsUnique | index.js:91-120 | no request on any route makes two users share an email |
| Routes.ServeKeepsIdsUnique | index.js:91-185 | no request makes two documents of a collection share an id, given a new id on insertion |
| Server.Database.constructor | index.js:29-32 | the database starts with the given collections |
| Server.Database.FindUser | index.js:62 | finds a user iff one has that email, and the one found has it |
| Server.Database.InsertUser | index.js:98 | appends the document, keeps ids unique, touches no other collection |
| Server.Database.PromoteUser | index.js:118 | applies `$set: {role: 'admin'}` to the first user with that id and reports the counts; other collections unchanged |
| Server.Database.DeleteUser | index.js:104-105 | removes the first user with that ObjectId and reports the count; no user with that id remains; other collections unchanged |
| Server.Database.FindMenuItem | index.js:141 | finds a menu item iff one has that id, and the one found has it |
| Server.Database.UpdateMenuItem | index.js:158 | applies the `$set` to the first item with that id and reports the counts; other collections unchanged |
| Server.Database.DeleteMenuItem | index.js:128-129 | removes the first item with that ObjectId and reports the count; no item with that id remains; other collections unchanged |
| Server.Database.FindCarts | index.js:170 | returns exactly the cart rows whose email equals the query's, as `Find` does |
| Server.Database.DeleteCart | index.js:182-183 | removes the first cart row with that ObjectId and reports the count; no row with that id remains; other collections unchanged |
| Server.VerifyToken | index.js:42-56 | answers as `Gate.TokenGate` does, and sets `req.decoded` to the verified claim when it lets the request through |
| Server.AdminVerify | index.js:59-68 | lets the request through iff the user found by the decoded email is an admin, else answers 403 |
| Server.Pass | index.js:70 | runs the middleware in order and stops at the first answer, as `Gate.RunChain` |
| Server.GetAdminStatus | index.js:76-88 | answers 403 on an email mismatch, else `{admin}` from the stored role |
| Server.PostUsers | index.js:91-100 | performs `Routes.RegisterUser` on the user collection and keeps ids unique |
| Server.GetMenuItem | index.js:138-143 | answers the item whose id is the raw string, or null |
| Server.GetCarts | index.js:167-172 | answers only rows whose email equals the query's |
| Server.Handle | index.js:70-185 | every handler has the effect `Routes.Handle` gives and keeps ids unique |
| Server.Dispatch | index.js:70-185 | a whole request has the response and effect `Routes.Serve` gives, leaves `req.decoded` as the chain set it, keeps ids unique, and keeps user emails unique when they were |

## Left out

- Token issuance (`POST /jwt`, index.js:35-39) and the inside of `jwt.verify`: signatures, the secret and the one-hour expiry are cryptography and a clock. Verification is the `Verifier` parameter. "A fresh token verifies and an expired one does not" is therefore not modelled.
- The library rejects an empty token before checking any signature. Here the `Verifier` parameter decides for the empty string too.
- Express, CORS, JSON body parsing, dotenv, `listen`, and the liveness route `/` (index.js:1-10, 196-201). These are framework I/O.
- MongoDB client construction, connection and ping (index.js:13-32, 187-188). Only each driver call's effect on an in-memory collection is modelled.
- `new ObjectId(id)` parsing: a malformed id throws, and upper-case hex is normalised. The model takes every path string as the ObjectId with that text.
- Unhandled store rejections, including a duplicate `_id`. The id the driver assigns on insertion is a parameter and is required to be new.
- Concurrency: two concurrent registrations of one email can both pass the lookup and both insert. Calls are sequential here, so the race is not modelled.
- `GET /menu`, `GET /reviews`, `POST /menu` and `POST /carts` (index.js:122-125, 132-136, 162-165, 174-178). They are pass-through reads and inserts with nothing beyond "find returns all, insert appends". The `reviews` collection is not modelled.
- `console.log` calls.
- Request bodies are simplified. A registration body always has a string `email` and no `_id`. A claim's `email` is a string or absent. The cart query's `email` is one string or absent, and so is a stored cart row's. Menu items have exactly the five patched fields. A body field left `undefined` is stored as null, without telling missing and null apart.
- Gate.AdminGateIff: the "some user with that email is an admin" form is proved only for unique emails. In general the first user with that email decides, as `Gate.AdminGate` states.
