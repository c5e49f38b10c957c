# Shopping-list service: authorisation and list-mutation policy in Dafny

This project models the core of a small shopping-list REST service. Users
register and log in, create shopping lists, add and remove members, and add,
remove and toggle items. Every list operation is guarded by a role on the list
(visitor < member < owner < admin).

The model covers:

- the list and item record shape;
- the four request body schemas and the shared e-mail pattern for user names;
- bearer-token extraction and the authentication outcome;
- role resolution and the role gate;
- the route table with the order of its middleware;
- the in-memory list store with its queries and conditional updates;
- the shopping-list handlers;
- registration and login over a user table.

One Dafny module stands for each source file:

| module | source file |
|---|---|
| `ListRecords` | `src/db/shopping-list.db.js` |
| `ShoppingListSchema` | `src/models/shopping-list.schema.js` |
| `ItemSchema` | `src/models/item.schema.js` |
| `ItemStatusSchema` | `src/models/itemStatus.chema.js` |
| `UserSchema` | `src/models/user.schema.js` |
| `EmailPattern` | the user-name pattern shared by `user.schema.js` and `user.db.js` |
| `Users` | the user record and the user DAO (context for the user controller and the role resolver) |
| `AuthorizeRequest` | `src/middleware/authorize-request.middleware.js` |
| `Roles` | `src/middleware/authorize-role-request.middleware.js` |
| `ShoppingListDao` | `src/dao/shopping-list.dao.js` |
| `Router` | `src/controllers/router.js` |
| `ShoppingListController` | `src/controllers/shopping-list-controller.js` |
| `UserController` | `src/controllers/user-controller.js` |

Two more modules are shared helpers: `Basics` (Option, Result and sequence helpers) and `Json` (parsed request bodies).

The owner gate on the list-delete route compares positions in the role hierarchy, so admins pass it whether or not they own the list (`Router.OwnerRouteAdmitsAdmin`).

The store is a class holding a map from list id to list plus the insertion order. Its updates are methods whose postconditions give the whole new state. The handlers are methods over that store. Pure parts (records, schemas, role resolution, the route table, token extraction) are functions, and lemmas relate them.

## Model

| member | source | states |
|---|---|---|
| Basics.AddToSet | src/dao/shopping-list.dao.js:64 | `$addToSet`: the result holds exactly the old elements plus x, keeps the old ones as a prefix, and keeps a duplicate-free sequence duplicate-free with x exactly once |
| Basics.AddToSetIdempotent | src/dao/shopping-list.dao.js:60-66 | adding a member that is already there changes nothing |
| Basics.Pull | src/dao/shopping-list.dao.js:76 | `$pull`: x is gone and every other element stays. The result is a subsequence, shorter by exactly the number of copies of x, and unchanged when x was absent |
| ListRecords.StatusName | src/db/shopping-list.db.js:15-19 | a status is spelled SOLVED or UNSOLVED, and only Solved is spelled SOLVED |
| ListRecords.ParseStatus | src/db/shopping-list.db.js:17 | a string is read as a status iff it is one of the two enum strings, and the status read back spells it |
| ListRecords.StatusRoundTrip | src/db/shopping-list.db.js:17 | naming a status and reading it back gives the same status |
| ListRecords.NewList | src/db/shopping-list.db.js:23-42 | a list record is created iff the name has 3 to 30 characters and the owner is a non-empty string. The new record has the given id, name and owner and empty members and items |
| EmailPattern.MatchesEmailCorrect | src/models/user.schema.js:7 | the one-pass check (first '@', last '.') accepts exactly the strings the anchored pattern matches |
| EmailPattern.ExampleAccepted | src/models/user.schema.js:7 | "test@test.com" matches |
| EmailPattern.ExamplesRejected | src/models/user.schema.js:7 | these fail the pattern: a one-letter top-level part, an empty local part, an empty domain |
| Users.FindById | src/dao/user.dao.js:23-29 | the result is a stored user with that id, and it is null iff no stored user has that id |
| Users.FindByUserName | src/dao/user.dao.js:5-11 | the result is a stored user with that user name, and it is null iff no stored user has that user name |
| Users.FindByUserNameExact | src/db/user.db.js:11-16 | with unique user names, the lookup finds exactly the stored user of that name |
| Users.FindByIdExact | src/dao/user.dao.js:23-29 | with unique ids, the lookup finds exactly the stored user of that id |
| Users.UserTable.CreateUser | src/dao/user.dao.js:13-20 | saving succeeds iff the name has 3-30 characters, the password 6-50, the user name matches the pattern and is not taken. On success the user is appended with the hashed password. On failure the table is unchanged and the error has the "Failed to create user: " prefix |
| Roles.IndexOf | src/middleware/authorize-role-request.middleware.js:34 | `indexOf`: the first position of the role, or -1 iff it is absent |
| Roles.Rank | src/middleware/authorize-role-request.middleware.js:5 | every role has a position in the hierarchy holding that role |
| Roles.RankOrder | src/middleware/authorize-role-request.middleware.js:5 | the ranks are visitor 0, member 1, owner 2, admin 3 |
| Roles.RankInjective | src/middleware/authorize-role-request.middleware.js:5 | distinct roles have distinct ranks, so the hierarchy is a total order |
| Roles.DetermineRole | src/middleware/authorize-role-request.middleware.js:8-21 | a missing list gives the 404 error "Shopping list not found" whatever the user lookup gave. An existing list with a missing user gives the status-less error. Otherwise, in order of precedence: admin iff the admin flag is set, owner iff not admin and the caller owns the list, member iff neither and the caller is in members, visitor otherwise. The function only reads its two snapshots |
| Roles.AdminAlwaysWins | src/middleware/authorize-role-request.middleware.js:17 | an admin resolves to admin whatever the list's owner and members |
| Roles.OwnerBeforeMember | src/middleware/authorize-role-request.middleware.js:18 | a non-admin owner who is also listed as a member resolves to owner |
| Roles.RoleDependsOnlyOnOwnerMembersAndFlag | src/middleware/authorize-role-request.middleware.js:8-21 | the resolved role depends only on the list's owner and members and the user's admin flag |
| Roles.StatusOf | src/middleware/authorize-role-request.middleware.js:43 | `statusCode \|\| 500`: a present non-zero code is kept, and a missing one becomes 500 |
| Roles.AuthorizeRole | src/middleware/authorize-role-request.middleware.js:24-50 | the gate admits iff resolution succeeded with a rank at least the required one. A lower role gets 403 "Forbidden: This action requires <role> privileges.", and a resolution error gets its own status and message |
| Roles.GateMonotone | src/middleware/authorize-role-request.middleware.js:34 | if a role passes a gate, every higher role passes it too |
| Roles.AdminPassesEveryGate | src/middleware/authorize-role-request.middleware.js:34 | admins pass every gate, the owner gate included |
| Roles.MissingListIs404 | src/middleware/authorize-role-request.middleware.js:12-16 | for a missing list every gate answers 404 "Shopping list not found", before the user record is used |
| Roles.MissingUserIs500 | src/middleware/authorize-role-request.middleware.js:41-47 | a missing user record on an existing list is answered 500 |
| Roles.ForbiddenMessages | src/middleware/authorize-role-request.middleware.js:37-39 | the 403 messages of the member and owner gates read "Forbidden: This action requires member privileges." and "... owner privileges." |
| Roles.MemberGateAdmits | src/middleware/authorize-role-request.middleware.js:34-40 | the member gate admits exactly admins, the owner and listed members. Everybody else gets 403 "...requires member privileges." |
| Roles.OwnerGateAdmits | src/middleware/authorize-role-request.middleware.js:34-40 | the owner gate admits exactly admins and the owner, not plain members. Everybody else gets 403 "...requires owner privileges." |
| ShoppingListDao.Window | src/dao/shopping-list.dao.js:23-25 | skip/limit returns at most limit elements, namely the ones at positions skip, skip+1, … of the source |
| ShoppingListDao.WindowWithin | src/dao/shopping-list.dao.js:36-37 | a window only holds elements of its source |
| ShoppingListDao.SkipSign | src/dao/shopping-list.dao.js:17 | for a limit of at least one, the skip (page-1)*limit is non-negative iff the page is at least 1 |
| ShoppingListDao.ConsecutiveWindows | src/dao/shopping-list.dao.js:17 | two consecutive pages together are the double-size page |
| ShoppingListDao.ElementOnItsPage | src/dao/shopping-list.dao.js:17 | the element at position k is on page k / limit + 1 |
| ShoppingListDao.OnSomePage | src/dao/shopping-list.dao.js:17 | every element of the source is on some page |
| ShoppingListDao.OwnedOrJoined | src/dao/shopping-list.dao.js:27-35 | the `$match` stage keeps exactly the lists the user owns or belongs to, in their order |
| ShoppingListDao.FirstItemIndex | src/dao/shopping-list.dao.js:113 | the first item with that id. It is in range iff such an item exists |
| ShoppingListDao.PullItem | src/dao/shopping-list.dao.js:101 | exactly the items with other ids remain, in their order |
| ShoppingListDao.PullItemRemovesAll | src/dao/shopping-list.dao.js:97-104 | after removal no item has that id |
| ShoppingListDao.PullItemKeepsDistinct | src/dao/shopping-list.dao.js:97-104 | removal keeps item ids unique |
| ShoppingListDao.SetFirstStatus | src/dao/shopping-list.dao.js:112-114 | the positional `$set`: same length, ids and names. Only the first matching item takes the new status, and all others are unchanged |
| ShoppingListDao.SetFirstStatusKeepsDistinct | src/dao/shopping-list.dao.js:110-117 | a status update keeps item ids unique |
| ShoppingListDao.SetFirstStatusIdempotent | src/dao/shopping-list.dao.js:110-117 | applying the same status update twice equals applying it once |
| ShoppingListDao.ListStore.Collection | src/dao/shopping-list.dao.js:23 | the unfiltered `find()` holds exactly the stored lists |
| ShoppingListDao.ListStore.GetById | src/dao/shopping-list.dao.js:44-50 | the stored list, or null iff there is none with that id |
| ShoppingListDao.ListStore.Visible | src/dao/shopping-list.dao.js:22-35 | the lists a user may see are exactly the stored ones for an admin, and otherwise the stored ones the user owns or belongs to |
| ShoppingListDao.ListStore.GetAll | src/dao/shopping-list.dao.js:15-42 | an unknown user fails with "User not found". The call succeeds iff the user exists and page and limit are at least 1. On success it returns the window of the caller's visible lists that starts after skipping (page-1)*limit of them and holds at most limit lists, each stored and visible to the caller (admin, owner or member) |
| ShoppingListDao.ListStore.EveryVisibleListIsListed | src/dao/shopping-list.dao.js:22-38 | every list the caller may see (any list for an admin) is returned on some page |
| ShoppingListDao.ListStore.Create | src/dao/shopping-list.dao.js:6-13 | the list is stored iff the record accepts it, with the given owner and empty members and items. A rejection fails with the "Failed to create shopping list: " prefix and stores nothing |
| ShoppingListDao.ListStore.DeleteById | src/dao/shopping-list.dao.js:52-58 | returns the deleted list or null; the list is gone and `GetById` then finds nothing; nothing else changes |
| ShoppingListDao.ListStore.AddMember | src/dao/shopping-list.dao.js:60-70 | null iff the list is missing. Otherwise only that list's members change, by `$addToSet`, leaving the member there exactly once |
| ShoppingListDao.ListStore.RemoveMember | src/dao/shopping-list.dao.js:72-83 | null and no change unless the member is in that list. Otherwise only that list's members change, by `$pull` |
| ShoppingListDao.ListStore.AddItem | src/dao/shopping-list.dao.js:85-95 | null iff the list is missing. Otherwise the item, under its fresh id, is appended to that list only |
| ShoppingListDao.ListStore.RemoveItem | src/dao/shopping-list.dao.js:97-108 | null and no change unless an item has that id. Otherwise only that list's items change: every item with that id is removed |
| ShoppingListDao.ListStore.UpdateItemStatus | src/dao/shopping-list.dao.js:110-121 | null and no change unless an item has that id. Otherwise only the matching item's status changes |
| AuthorizeRequest.StripBearer | src/middleware/authorize-request.middleware.js:6 | the non-global replace removes the leftmost "Bearer"+whitespace match and its whole whitespace run, and leaves a header without a match unchanged |
| AuthorizeRequest.StripBearerPrefix | src/middleware/authorize-request.middleware.js:6 | "Bearer", blanks, then a token gives back the token |
| AuthorizeRequest.BareTokenUnchanged | src/middleware/authorize-request.middleware.js:6 | a header without whitespace is used as the token unchanged |
| AuthorizeRequest.TokenOf | src/middleware/authorize-request.middleware.js:5-8 | there is a token iff a header is present and stripping leaves something |
| AuthorizeRequest.Authenticate | src/middleware/authorize-request.middleware.js:4-27 | every rejection is 401. A missing token is 'Missing header "Authorization".', an expired token "Token is expired.", any other failure "Wrong authorization.". Success carries exactly the verified payload |
| AuthorizeRequest.ProceedsIffVerified | src/middleware/authorize-request.middleware.js:13-26 | a request goes on iff its token verifies, and then with that token's claims |
| AuthorizeRequest.BearerAloneIsMissing | src/middleware/authorize-request.middleware.js:6-8 | the header "Bearer " counts as a missing header |
| AuthorizeRequest.IssuedTokenAuthenticates | src/middleware/authorize-request.middleware.js:13-19 | "Bearer <token>" for a token that verifies to some claims proceeds with those claims |
| AuthorizeRequest.Request.Authorize | src/middleware/authorize-request.middleware.js:4-27 | the decision is `Authenticate`'s. On success id, userName and name are copied from the payload. On failure the request's fields are untouched |
| ShoppingListSchema.Validate | src/models/shopping-list.schema.js:4-11 | an accepted body is exactly `{ name }`, with a name the list record accepts |
| ShoppingListSchema.ValidateEncode | src/models/shopping-list.schema.js:7 | every name of 3 to 30 characters is accepted when sent alone |
| ShoppingListSchema.RejectedBodies | src/models/shopping-list.schema.js:7-10 | these are rejected: an empty body, a numeric name, a two-character name, an extra property |
| ItemSchema.ValidateWith | src/models/item.schema.js:1-9 | an accepted body has a 1-30 character name and a status in the enum. It is the encoding of the result, or the name-only encoding when the default was filled in |
| ItemSchema.ValidateWithEncode | src/models/item.schema.js:4-7 | every conforming body is accepted as sent. A name-only body gets the default |
| ItemSchema.Validate | src/models/item.schema.js:5 | as written, an accepted status is SOLVED or USOLVED |
| ItemSchema.ValidateIntended | src/models/item.schema.js:5 | with the record's enum, an accepted status is a record status and the name is non-empty |
| ItemSchema.WrittenDefaultLeavesRecordEnum | src/models/item.schema.js:5 | as written, `{ "name": "Milk" }` is accepted with status USOLVED, outside the record enum, and status UNSOLVED is rejected |
| ItemSchema.IntendedAcceptsRecordStatuses | src/db/shopping-list.db.js:17 | with the record's enum, both record statuses are accepted, and a name-only body gets UNSOLVED |
| ItemSchema.RejectedBodies | src/models/item.schema.js:4-8 | these are rejected: a missing name, an empty name, an extra property |
| ItemStatusSchema.Validate | src/models/itemStatus.chema.js:1-8 | an accepted body is exactly `{ status }` with one of the two record statuses |
| ItemStatusSchema.ValidateEncode | src/models/itemStatus.chema.js:4 | both statuses are accepted, so an item can be switched either way |
| ItemStatusSchema.RejectedBodies | src/models/itemStatus.chema.js:4-7 | these are rejected: "INVALID_STATUS", a missing status, a non-string status, an extra property |
| UserSchema.Validate | src/models/user.schema.js:1-14 | an accepted body has a name of 3-30 characters, a password of 6-50 and a user name matching the pattern. It is the encoding of the result, or the encoding without `isAdmin`, in which case the flag is false |
| UserSchema.ValidateEncode | src/models/user.schema.js:10 | every conforming body is accepted. Without the flag it is accepted as a non-admin |
| UserSchema.AcceptedBodyFitsUserRecord | src/models/user.schema.js:4-9 | a validated body meets the user record's constraints, the user name in the sense of the anchored pattern |
| UserSchema.RejectedBodies | src/models/user.schema.js:4-12 | these are rejected: a missing password, a two-character name |
| UserSchema.NonBooleanFlagRejected | src/models/user.schema.js:10 | an `isAdmin` that is not a boolean is rejected |
| Router.UsesBefore | src/controllers/router.js:32 | the middleware mounted by `use` before a declaration are exactly those declared earlier |
| Router.Accepts | src/controllers/router.js:13-19 | an accepted body is the encoding of a value its schema admits: a conforming register body with or without the flag, a 3-30 character list name, an item with a 1-30 character name and status SOLVED or USOLVED (the item schema as written, mounted at src/controllers/router.js:66), a status body of one of the two record statuses. The member body's acceptance is an input |
| Router.EncodingsAccepted | src/middleware/validate-schema.middleware.js:5-20 | conversely, every such encoding passes its route's validation, the name-only item body included |
| Router.Dispatch | src/controllers/router.js:23-80 | the first route declared for the verb and path runs its chain. With no such route the request is unhandled. A reached handler belongs to that route's chain, and a stop uses one of the middleware statuses |
| Router.RequiredRole | src/controllers/router.js:43-80 | the first role check of a chain, or none iff the chain has no role check |
| Router.Run | src/controllers/router.js:32-80 | a stopped request is answered 400, 401, 403, 404 or 500. A request that reaches a handler names a handler of its chain and carries either the caller it started with or the verified claims |
| Router.UsesBeforeTable | src/controllers/router.js:23-32 | nothing is mounted before the two user routes, and only the gate is mounted before the list routes |
| Router.PublicRoutesNeedNoToken | src/controllers/router.js:23-29 | login always reaches its handler without a token. Register does too iff the body passes the register schema, and otherwise gets 400 "Invalid input data" |
| Router.ListRoutesStartWithGate | src/controllers/router.js:32 | every /shoppingList route runs the authentication gate first |
| Router.RejectedTokenStopsEveryListRoute | src/controllers/router.js:32 | a rejected token stops every list route with the gate's 401 whatever the body or list, and a missing token is reported as a missing header |
| Router.RequiredRoleTable | src/controllers/router.js:34-80 | create and list need no role. Get needs member, delete owner, add member owner, remove member member, and add, delete and update item member |
| Router.ValidationPrecedesRoleCheck | src/controllers/router.js:53-80 | on add member, add item and update item, an authenticated request with a rejected body gets 400 whatever the role or list |
| Router.PassGate | src/controllers/router.js:32 | once the token verifies, the rest of the chain runs with the verified claims as the caller |
| Router.GateThenRejectedBody | src/controllers/router.js:32-80 | a verified token followed by a body the schema rejects is answered 400 whatever comes after |
| Router.RoleThenHandle | src/controllers/router.js:34-80 | behind a role check the handler is reached exactly when the gate admits, and otherwise the gate's answer is the reply |
| Router.ValidatedRoleHandle | src/controllers/router.js:53-80 | after a verified token, a chain of validation, role check and handler answers 400 for a rejected body, and otherwise the role gate decides |
| Router.AddItemRoute | src/controllers/router.js:64-69 | the add-item route is the first declared for its verb and path, and its chain is gate, item validation, member check, handler |
| Router.AddItemRouteAsWritten | src/controllers/router.js:64-69 | for an authenticated member, a body with only a name reaches the add-item handler with the status filled in as "USOLVED", and a body naming the record's "UNSOLVED" gets 400 |
| Router.DeleteRoute | src/controllers/router.js:48-52 | the delete route's chain is gate, owner check, handler |
| Router.DeleteOutcome | src/controllers/router.js:48-52 | once the token verifies, the delete route reaches its handler iff the owner gate admits the caller, and otherwise answers with the gate's denial |
| Router.OwnerRouteAdmitsAdmin | src/controllers/router.js:48-52 | an authenticated admin reaches the delete handler for any existing list |
| Router.DeleteRefusesMember | src/controllers/router.js:48-52 | a plain member is refused deletion with the owner 403 |
| ShoppingListController.QueryOrDefault | src/controllers/shopping-list-controller.js:28-29 | `parseInt(q) \|\| d`: the default replaces a missing, non-numeric or zero value, and any other value is kept |
| ShoppingListController.PaginationDefaults | src/controllers/shopping-list-controller.js:28-29 | the page defaults to 1 and the limit to 10, and neither is ever 0 |
| ShoppingListController.Create | src/controllers/shopping-list-controller.js:7-23 | 201 iff the record accepts the list, which is stored with the caller as owner and no members. Otherwise 500 and nothing changes. The owner never becomes a member |
| ShoppingListController.List | src/controllers/shopping-list-controller.js:25-45 | the reply is the store's page for the defaulted page and limit, or 500 with the store's message. Without a query a known caller gets at most ten stored lists |
| ShoppingListController.Get | src/controllers/shopping-list-controller.js:47-60 | always 200, with the stored list or null |
| ShoppingListController.Delete | src/controllers/shopping-list-controller.js:62-76 | 200 "Shopping list deleted successfully" whether or not the list existed. Afterwards the list is gone and nothing else changed |
| ShoppingListController.MemberCreate | src/controllers/shopping-list-controller.js:79-111 | a missing list gets 500, then the owner gets 400 "Owner cannot be added as a member.", then an unknown user 400 "User does not exist.". These refusals change nothing. Otherwise the member is added exactly once with 201. The owner never becomes a member |
| ShoppingListController.MemberDelete | src/controllers/shopping-list-controller.js:113-144 | a failed role resolution gets 500 and changes nothing. Otherwise the member is removed first, whatever the reply. Then a plain member removing someone else gets 403, a non-member target 400 "Member is not in the list.", and the rest 200 |
| ShoppingListController.MemberDeleteAuthorizeFirst | src/controllers/shopping-list-controller.js:117-125 | the same replies, with the self-only check before the removal. Every reply other than 200 leaves the store unchanged |
| ShoppingListController.ForbiddenRemovalExample | src/controllers/shopping-list-controller.js:117-125 | member alice removing member bob gets 403 from both handlers. Bob is gone as written, and still there with the check first |
| ShoppingListController.ItemCreate | src/controllers/shopping-list-controller.js:148-164 | always 201. The item is appended to an existing list under a fresh id, and the data is null for a missing list |
| ShoppingListController.ItemDelete | src/controllers/shopping-list-controller.js:166-188 | 400 "Item does not exist." with no change iff no item matches. Otherwise 200 and no item with that id remains |
| ShoppingListController.ItemUpdate | src/controllers/shopping-list-controller.js:190-213 | 400 "Item does not exist." with no change iff no item matches. Otherwise 200 and only the matching item's status changes |
| UserController.ClaimsOf | src/controllers/user-controller.js:26-31 | the signed claims are the user's id, user name and name |
| UserController.Register | src/controllers/user-controller.js:6-40 | a missing field gets 401 and a taken user name 400, both storing nothing. A token (201) is issued iff the fields are present, the name is free and the record accepts them, and the stored user is then a non-admin with the hashed password. A record rejection is 500 "Something went wrong during registration" |
| UserController.Login | src/controllers/user-controller.js:42-68 | a missing field gets 401, an unknown user 404 "User not found" and a mismatching password 401 "Invalid password". A token (200) for the stored user's claims is issued iff all checks pass |
| UserController.RegisterThenLogin | src/controllers/user-controller.js:19-63 | after a successful registration the stored user is a non-admin with the hashed password, and both the registration token (201) and the login token (200) sign that user's claims |

## Findings

| source | as written | input that shows it | evidently intended | confidence | as-written member | corrected member |
|---|---|---|---|---|---|---|
| src/models/item.schema.js:5 | the status enum is SOLVED/USOLVED with default USOLVED | `{ "name": "Milk" }` is accepted with status "USOLVED", which is outside the item record's enum SOLVED/UNSOLVED. `{ "name": "Milk", "status": "UNSOLVED" }` is rejected with 400 | enum SOLVED/UNSOLVED with default UNSOLVED, as in src/db/shopping-list.db.js:17 | high; not executed | ItemSchema.WrittenDefaultLeavesRecordEnum | ItemSchema.IntendedAcceptsRecordStatuses |
| src/controllers/shopping-list-controller.js:117-125 | the member is removed before the self-only rule is checked | member "alice" deletes member "bob": the reply is 403, but bob has already been removed | check the rule first, so that a 403 leaves the list unchanged | high; not executed | ShoppingListController.ForbiddenRemovalExample | ShoppingListController.MemberDeleteAuthorizeFirst |

The router validates add-item bodies with the item schema as written (`ItemSchema.Validate`), as the route table mounts it, so `Router.AddItemRouteAsWritten` shows the misspelt default reaching the handler. `ItemSchema.ValidateIntended` is the corrected schema, with its property proved in `ItemSchema.IntendedAcceptsRecordStatuses`.

The router's pipeline stops when a request reaches its handler. So the two member-removal handlers stand side by side, and each is specified on its own.

## Left out

- MongoDB is replaced by an in-memory map with sequential updates. Left out: connection setup, query execution, timestamps, atomicity of `findOneAndUpdate`, and ObjectId casting of ids (a malformed id is just an unknown key here).
- Database errors other than the ones modelled are left out. These include the lookups' "Failed to …" wrappers and the login handler's 500 "Something went wrong during login". A store error keeps only its message prefix; the database's detail text is not modelled.
- Concurrency between requests is not modelled.
- Token signing and verification are left out. `verify` is an oracle returning the payload, Expired or Invalid, and `sign` is a function from claims to a token. The issue and expiry timestamps a real token carries are not modelled, so two tokens for the same claims are equal here.
- The falsy-payload branch of the authentication gate (src/middleware/authorize-request.middleware.js:14-16) is not modelled, because the verification oracle always returns a payload on success. After answering 401 that branch goes on to read the payload's fields.
- UserController.Login: the login route has no body schema, but the model takes `userName` and `password` as optional strings. Other JSON values are not captured: a number cast by the database, an operator object such as `{"$ne": ...}` turned into a query, or a non-string password that makes the comparison throw (500).
- Password hashing and comparison are parameters: `hash` is a function and `compare` a predicate.
- Express plumbing is left out: response objects, the `status: "success"/"error"` fields of replies, JSON body parsing, the logging middleware, the `GET /` route, and the async error wrapper. Replies keep only their status code, message and data.
- The validation error's `errors` array is not modelled; a rejected body gives only 400 "Invalid input data".
- `member.schema.js` is not part of this model. Whether it accepts a body is an input to the router (`memberBodyAccepted`). The member handler takes the member as a single user id.
- Fresh ids are parameters. This covers the list `_id`, the item's default `itemId` and the user `_id`, each with a precondition that it is not in use.
- String lengths are counted in Unicode characters. The body validator counts code points and the record schema counts UTF-16 units, so they differ only for characters outside the Basic Multilingual Plane.
- The query strings `page` and `limit` arrive already parsed (`Option<int>`, None for a missing or non-numeric value).
- ShoppingListDao.ListStore.GetAll: a limit below 1 or a negative skip is an error with the fetch prefix. The admin path's `find().limit()` would instead read a negative limit as its absolute value and 0 as no limit.
- ShoppingListDao.ListStore.GetAll: the natural order of documents is modelled as insertion order.
- Router.Dispatch finds a route by its declared verb and path pattern. Matching concrete URLs against parameters is not modelled, and an unmatched request is `Unhandled`.
- Router.Run: when the role check runs without a caller id, the user lookup finds nobody. This never happens with the declared table, where the gate always runs first.
- Item statuses are stored as strings, because status updates bypass record validation; `ListRecords.IsRecordStatus` says whether a stored status is in the enum.
