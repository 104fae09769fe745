# TPortal access control and ticket workflow, in Dafny

TPortal is a small reimbursement service. Employees file tickets and
managers approve or deny them. This project models its access-control
and workflow core as pure functions:

- the field validators and the two schema-driven batch update checkers;
- the `Ticket` and `User` constructors with their defaults;
- the ticket and user services, which guard every request before it
  reaches storage, including the rule that a claimed ticket (non-null
  `processor`) is never updated again;
- the ticket controller's role and owner rules, the trailing
  `processor := caller` edit on put, and the owner override on post;
- the pure parts of both repositories: update-expression builders,
  read-filter choice, get-key precedence, and item-to-ticket wrapping;
- the authentication and authorization middlewares and the
  authentication service's password guard.

JavaScript values are a tagged union (`JsValues.JsValue`). It is used for
`typeof`, truthiness, `?.`, loose `== null`, loose equality and template
literals.

The document store is a value (`Store.Table`): a sequence of items in scan
order, keyed by the string attribute `pkey`. It has the five requests the
repositories send: get, filtered scan, put, update and delete. Every
operation takes the table. The operations that can write to it (create,
update and delete in the repositories and services, and the put and post
handlers) also answer the table afterwards. The reads (`get` and `read`,
and the two `get` handlers of the ticket routes) answer only their result.

Things the code does not decide are parameters:

- `uuidv4()` becomes `nextUuid`;
- bcrypt and JWT become function values;
- the token decoder used by the authentication middleware is a function value.

`AuthService.ValidatePassword`, `GenerateToken` and `DecodeToken` only
forward to the repository. Their behaviour is stated by the round-trip
lemmas `AuthRepository.HashThenValidate`,
`AuthRepository.SwappedArgumentsReject` and `Routes.TokenRoundTrip`.

## Behaviour worth knowing

- `new Ticket(...)` keeps a caller-supplied `status`, `processor` and
  `pkey`. Through `post /ticket`, an employee can file a ticket that is
  already approved and already claimed
  (`TicketService.CreateKeepsSuppliedFields`).
- The same employee can overwrite any existing ticket, claimed or not, by
  naming its key in the body (`TicketController.PostReplacesExisting`).
- `new User(...)` keeps a supplied `role`. A registration body can ask for
  `"manager"`, and the new user then passes the managers-only user routes
  (`UserService.SelfAssignedManager`,
  `Routes.RegisteredManagerReachesUserRoutes`).
- The uniqueness check on user creation is a lookup with the whole body.
  When the body names a key, that key is looked up instead of the
  username, so a taken username is accepted under a new key
  (`UserService.CreateWithKeySkipsUsernameCheck`).
- The user update expression joins clauses with `","` and writes
  `#p{i}=:p{i}` without spaces. The ticket update expression writes
  `#p{i} = :p{i}` joined by `", "`.
- `"all"` is a query value for "no status filter", yet it is also accepted
  as a stored status (`Validator.AllIsAcceptedStatus`).

## Model

| member | source | states |
|---|---|---|
| Validator.IsValidStatus | src/utils/validator.js:22-25 | true exactly for the four strings "pending", "approved", "denied" and "all"; no other value, string or not, passes |
| Validator.IsValidDescription | src/utils/validator.js:32-37 | true exactly for a non-empty string |
| Validator.IsValidAmount | src/utils/validator.js:45-50 | true exactly for a number strictly greater than zero |
| Validator.IsValidUsername | src/utils/validator.js:96-104 | true exactly for a non-empty string none of whose characters is one of the 31 special characters |
| Validator.IsValidPassword | src/utils/validator.js:111-117 | true exactly for a non-empty string |
| Validator.IsValidRole | src/utils/validator.js:124-127 | true exactly for "employee" and "manager" |
| Validator.CheckUpdate | src/utils/validator.js:57-89 | the short-circuiting loop answers exactly the reference "every edit passes" meaning; every edit before the stop passes, and the edit it stops at fails |
| Validator.TicketEditRules | src/utils/validator.js:57-89 | a ticket edit passes iff one holds: it is pkey/processor/owner with a UUID, or status/amount/description with that field's rule |
| Validator.UserEditRules | src/utils/validator.js:134-164 | a user edit passes iff one holds: it is pkey with a UUID, or role/username/password with that field's rule |
| Validator.TypeNeverEditable | src/utils/validator.js:82-84 | "type" is in the ticket schema, yet no edit of it is ever accepted |
| Validator.ValidBatchConcat | src/utils/validator.js:59-88 | the empty batch is valid, and a concatenation is valid iff both parts are |
| Validator.OneBadEditRejects | src/utils/validator.js:59-88 | one failing edit anywhere rejects the whole batch |
| Validator.ValidUUIDTruthy | src/utils/validator.js:10-15 | an accepted identifier is a non-empty string, hence truthy |
| Validator.AmountExamples | src/utils/validator.js:45-50 | 0, -20, "1.00", true, null, [] and {} are rejected; 0.01 and 2.99 are accepted |
| Validator.AllIsAcceptedStatus | src/utils/validator.js:22-25 | "all" passes as a status, including as a stored status edit |
| Uuid.GroupsFormUUID | src/utils/validator.js:10-15 | any five hexadecimal groups of 8, 4, 4, 4 and 12 digits joined by hyphens are in UUID form |
| Uuid.UUIDGroups | src/utils/validator.js:10-15 | conversely, every string in UUID form is five such groups joined by hyphens |
| Validator.UUIDRejected | src/utils/validator.js:10-15 | the empty string, other text, a non-hexadecimal digit, the unhyphenated form and non-strings are not accepted identifiers |
| Validator.IsValidTicketUpdate | src/utils/validator.js:57-89 | a ticket batch passes iff every edit is pkey/processor/owner with a UUID, or status/amount/description with that field's rule |
| Validator.IsValidUserUpdate | src/utils/validator.js:134-164 | a user batch passes iff every edit is pkey with a UUID, or role/username/password with that field's rule |
| JsValues.RenderString | src/modules/user/user.dao.js:117 | a template literal leaves a string unchanged |
| Text.IntTextInjective | src/modules/ticket/ticket.dao.js:128 | different edit indices give different decimal suffixes |
| TicketModel.TicketItem | src/modules/ticket/ticket.model.js:28-35 | the stored item of a ticket has exactly the seven schema fields |
| TicketModel.NewTicket | src/modules/ticket/ticket.model.js:19-36 | a supplied field, even null, is kept verbatim; only an undefined field takes its default |
| TicketModel.MinimalTicket | src/modules/ticket/ticket.model.js:19-31 | built from owner, amount and description only, a ticket is pending, of type "reimbursement", unclaimed (null) and keyed by the generated UUID |
| TicketModel.WrapStoredItem | src/modules/ticket/ticket.model.js:19-36 | wrapping the item of a ticket with no undefined field gives the same ticket back |
| TicketModel.TicketSchemaShape | src/modules/ticket/ticket.model.js:4-12 | the schema has exactly seven fields; amount is "number", the rest "string" |
| UserModel.UserItem | src/modules/user/user.model.js:37-40 | the stored item of a user has exactly the four schema fields |
| UserModel.NewUser | src/modules/user/user.model.js:31-40 | a supplied field is kept verbatim; an undefined key becomes the generated UUID, an undefined role "employee" |
| UserModel.UserFromItem | src/modules/user/user.dao.js:28-30 | the typed view of a stored item reads each schema attribute as stored, undefined when missing |
| UserModel.MinimalUser | src/modules/user/user.model.js:31-40 | built from credentials alone, a user is an employee with the generated key and the credentials unchanged |
| UserModel.UserItemRoundTrip | src/modules/user/user.dao.js:28-30 | reading back a stored user gives the same user |
| UserModel.UserSchemaShape | src/modules/user/user.model.js:11-16 | the schema has exactly the four fields pkey, role, username, password, all "string" |
| Store.Find | src/modules/ticket/ticket.dao.js:21-27 | a get answers an item iff one carries the key, and the item it answers carries it |
| Store.Where | src/modules/ticket/ticket.dao.js:45-57 | a filtered scan answers exactly the items whose attribute equals the value |
| Store.Put | src/modules/ticket/ticket.dao.js:78-84 | after a put the key finds the new item and every other key finds what it found before |
| Store.ApplyEdits | src/modules/ticket/ticket.dao.js:136-143 | an update keeps every attribute and changes none that no edit targets |
| Store.ApplyEditsSets | src/modules/ticket/ticket.dao.js:136-143 | with distinct targets, every targeted attribute ends up holding its edit's value |
| Store.UpdateItem | src/modules/ticket/ticket.dao.js:136-147 | an update is refused exactly for no edit, an edit of the key or two edits of one attribute; it answers the new item, stored under the key, and leaves other keys alone |
| Store.UpdateItemSets | src/modules/ticket/ticket.dao.js:136-147 | after an accepted update every edited attribute holds its edit's value |
| Store.Remove | src/modules/ticket/ticket.dao.js:99-105 | after a delete the key finds nothing and every other key finds what it found before |
| UpdateExpression.Clauses | src/modules/ticket/ticket.dao.js:125-128 | one clause per edit, in input order, the i-th naming `#p{i}` and `:p{i}` |
| UpdateExpression.PlaceholdersDistinct | src/modules/ticket/ticket.dao.js:128-130 | for digit-free property names, two placeholders are equal only for the same property and position |
| UpdateExpression.PlaceholderCollision | src/modules/ticket/ticket.dao.js:128-130 | a property ending in a digit can collide: "a1" at 1 and "a" at 11 share their placeholders |
| UpdateExpression.NameMapAt | src/modules/ticket/ticket.dao.js:129 | with digit-free names, `#p{i}` maps to edit i's property, even when a property repeats |
| UpdateExpression.ValueMapAt | src/modules/ticket/ticket.dao.js:130 | with digit-free names, `:p{i}` maps to edit i's value |
| UpdateExpression.PlaceholderMapSizes | src/modules/ticket/ticket.dao.js:128-130 | with digit-free names, both maps have exactly one entry per edit |
| UpdateExpression.NameMapKeys | src/modules/ticket/ticket.dao.js:129 | the name map's keys are exactly the edits' name placeholders |
| UpdateExpression.ValueMapKeys | src/modules/ticket/ticket.dao.js:130 | the value map's keys are exactly the edits' value placeholders |
| UpdateExpression.Build | src/modules/ticket/ticket.dao.js:121-134 | the loop yields "set " and the clauses joined by the separator, plus the two placeholder maps |
| UpdateExpression.ExpressionShape | src/modules/ticket/ticket.dao.js:131-133 | the expression ends with the last edit's clause, with no trailing separator; one edit gives "set " and its clause |
| TicketDao.Get | src/modules/ticket/ticket.dao.js:20-32 | a ticket comes back iff an item is stored under the key; it is the constructor applied to that item and carries the key |
| TicketDao.ReadFilterOf | src/modules/ticket/ticket.dao.js:44-60 | a truthy owner wins; otherwise a truthy status other than "all" filters; otherwise no filter |
| TicketDao.Read | src/modules/ticket/ticket.dao.js:41-69 | the scan answers exactly the items matching the chosen filter, or every item |
| TicketDao.Create | src/modules/ticket/ticket.dao.js:76-90 | the created ticket is the constructor's, stored under its key; other keys are untouched; a refused put leaves the table |
| TicketDao.Delete | src/modules/ticket/ticket.dao.js:98-111 | the ticket under the key is removed, others stay, and the answer is always nothing |
| TicketDao.BuildUpdate | src/modules/ticket/ticket.dao.js:120-134 | clauses `#p{i} = :p{i}` joined by ", ", names to properties, values as given |
| TicketDao.Update | src/modules/ticket/ticket.dao.js:120-152 | the answer is the constructor applied to the updated item; a refused update leaves the table |
| TicketDao.UpdateWrites | src/modules/ticket/ticket.dao.js:136-147 | after an update the stored item holds every edit, and the answered ticket shows every defined edited field |
| TicketDao.ValidBatchDigitFree | src/modules/ticket/ticket.dao.js:128-130 | property names of a valid ticket batch contain no digit |
| TicketDao.UpdatePlaceholders | src/modules/ticket/ticket.dao.js:128-130 | for a valid ticket batch, each edit has its own name and value entries and the maps have one entry per edit |
| TicketDao.StatusUpdateText | src/modules/ticket/ticket.dao.js:121-134 | a single status edit gives "set #status0 = :status0" |
| TicketService.Get | src/modules/ticket/ticket.service.js:21-26 | a ticket is answered iff the key is a UUID and a ticket is stored under it |
| TicketService.Read | src/modules/ticket/ticket.service.js:35-49 | answers iff some filter is given and each given filter is well formed, and then exactly the repository's read |
| TicketService.Create | src/modules/ticket/ticket.service.js:59-73 | only a UUID owner, a non-empty description and a positive amount reach the repository; the ticket carries them unchanged |
| TicketService.Update | src/modules/ticket/ticket.service.js:82-96 | an update succeeds only for a UUID key, a valid batch and a stored unclaimed ticket, and then is the repository's update of the unchanged batch; a refusal leaves the table |
| TicketService.Delete | src/modules/ticket/ticket.service.js:103-106 | answers nothing and leaves the table as it was |
| TicketService.UpdateWritesEdits | src/modules/ticket/ticket.service.js:95 | after a successful update both the answered ticket and the stored item hold every edited value |
| TicketService.UpdateIsolated | src/modules/ticket/ticket.service.js:95 | a successful update leaves every other ticket as it was |
| TicketService.ClaimedTicketIsFinal | src/modules/ticket/ticket.service.js:91-95 | once an update that sets the processor succeeds, every later update of that ticket is refused and changes nothing |
| TicketService.ClaimedRefusesUpdate | src/modules/ticket/ticket.service.js:91-94 | a stored ticket that is `Claimed` (its processor neither null nor undefined, the loose `!= null` of line 92) is never updated |
| TicketService.CreateKeepsSuppliedFields | src/modules/ticket/ticket.service.js:72 | a created ticket keeps the caller's status, processor and key, and is stored under that key |
| TicketService.CreateDefaultsPending | src/modules/ticket/ticket.service.js:72 | without a supplied status or processor, a created ticket is pending and unclaimed |
| TicketService.ReadByOwner | src/modules/ticket/ticket.service.js:48 | a read with an owner answers exactly that owner's items, whatever status is also given |
| TicketService.ReadAll | src/modules/ticket/ticket.service.js:48 | status "all" without an owner answers the whole table |
| TicketController.ManagerStatus | src/modules/ticket/ticket.controller.js:43-46 | a manager's status is the query when truthy, and "pending" when the query is falsy |
| TicketController.ListTickets | src/modules/ticket/ticket.controller.js:25-56 | no user gives 400 and an unknown role 401; an employee reads by own key, a manager by status; 200 when the service's read succeeds and 400 when it is refused; 200 carries exactly the service's read |
| TicketController.GetTicket | src/modules/ticket/ticket.controller.js:67-96 | no user or key gives 400, a missing ticket 404; for a found ticket a manager gets 200 with it, an employee 200 with it when loosely equal to the owner and 401 otherwise, and any other role 404 |
| TicketController.GetTicketFromStore | src/modules/ticket/ticket.controller.js:79-96 | for a stored identifier, 200 iff the caller is a manager or the owning employee, answering the stored ticket; an unknown identifier gives 404 |
| TicketController.ClaimingBatch | src/modules/ticket/ticket.controller.js:129 | the service gets the caller's edits unchanged followed by `processor := caller key` |
| TicketController.PutTicket | src/modules/ticket/ticket.controller.js:106-139 | only a manager reaches the service; another role gets 401; the service's refusal gives 422 and success 200; only 200 changes the table |
| TicketController.PostInit | src/modules/ticket/ticket.controller.js:157 | the object sent to the service has the caller's key as owner and the body's value for every other field |
| TicketController.PostTicket | src/modules/ticket/ticket.controller.js:150-162 | 200 iff the body is truthy and the service creates; the created ticket's owner is the caller, whose key is a UUID |
| TicketController.EmployeeListsOwnTickets | src/modules/ticket/ticket.controller.js:34-40 | an employee's listing holds exactly the stored tickets that employee owns |
| TicketController.ManagerListsPendingByDefault | src/modules/ticket/ticket.controller.js:42-52 | a manager with no status query lists exactly the pending tickets |
| TicketController.ManagerListsAll | src/modules/ticket/ticket.controller.js:42-52 | a manager's query "all" lists the whole table |
| TicketController.PutClaimsForCaller | src/modules/ticket/ticket.controller.js:129-136 | after a 200 put the stored processor is the calling manager's key |
| TicketController.PutIsFinal | src/modules/ticket/ticket.controller.js:129-133 | after a 200 put, every later put of that ticket by any manager answers 422 |
| TicketController.PutRefusesOwnProcessorEdit | src/modules/ticket/ticket.controller.js:129-133 | a manager's own processor edit clashes with the appended one, so the put answers 422 |
| TicketController.PostReplacesExisting | src/modules/ticket/ticket.controller.js:157 | a body naming a key stores the new ticket under it, owned by the caller, with the body's processor |
| UserDao.KeyOf | src/modules/user/user.dao.js:21-53 | a truthy key is used; otherwise a truthy username; otherwise no lookup |
| UserDao.Get | src/modules/user/user.dao.js:19-54 | by key, the item stored under it; by username, the first scanned item with it; nothing when nothing matches |
| UserDao.Create | src/modules/user/user.dao.js:78-94 | the created user is the constructor's, stored under its key; other keys are untouched |
| UserDao.Delete | src/modules/user/user.dao.js:101-103 | answers nothing and removes nothing |
| UserDao.AsText | src/modules/user/user.dao.js:117 | every edit keeps its property and has its value replaced by the value's text |
| UserDao.BuildUpdate | src/modules/user/user.dao.js:110-121 | clauses `#p{i}=:p{i}` joined by ",", names to properties, values as text |
| UserDao.TextValueMap | src/modules/user/user.dao.js:117 | the value map of text values is the value map of the edits turned into text |
| UserDao.Update | src/modules/user/user.dao.js:110-140 | the store receives the edits as text; the answer is the updated item |
| UserDao.ValidBatchIsText | src/modules/user/user.dao.js:117 | a valid user batch is unchanged by turning its values into text |
| UserDao.NumberStoredAsText | src/modules/user/user.dao.js:117 | a number value is stored as its text |
| UserDao.ValidBatchDigitFree | src/modules/user/user.dao.js:115-117 | property names of a valid user batch contain no digit |
| UserService.Get | src/modules/user/user.service.js:12-23 | answers only when a key or username is given and each given one is well formed, and then exactly the repository's get |
| UserService.Read | src/modules/user/user.service.js:30-33 | answers every stored user, whatever the lookup |
| UserService.Create | src/modules/user/user.service.js:40-55 | creates only with valid credentials and when the body, used as a lookup, finds no user; the credentials are kept |
| UserService.Update | src/modules/user/user.service.js:63-75 | updates only for a UUID key, a valid batch and a stored user, and then is the repository's update |
| UserService.Delete | src/modules/user/user.service.js:82-84 | answers nothing and leaves the table as it was |
| UserService.CreateUniqueWithoutKey | src/modules/user/user.service.js:50-53 | without a supplied key, a created user's username was held by no stored user |
| UserService.CreateWithKeySkipsUsernameCheck | src/modules/user/user.service.js:50-54 | with a new supplied key and valid credentials, creation succeeds even if the username is taken |
| UserService.CreateKeepsSuppliedRole | src/modules/user/user.service.js:54 | the created user's role is the supplied one, or "employee" when none is supplied |
| UserService.SelfAssignedManager | src/modules/user/user.service.js:54 | a body asking for "manager" creates a manager |
| UserService.UpdateWritesEdits | src/modules/user/user.service.js:74 | after a successful update the stored user holds every edited value unchanged |
| AuthService.HashPassword | src/modules/auth/auth.service.js:12-17 | hashing happens iff the password is a non-empty string, and then the answer is the repository's |
| AuthService.HashRefusals | src/modules/auth/auth.service.js:12-15 | a falsy password is refused, whichever hashing function is given |
| AuthRepository.Hashed | src/modules/auth/auth.dao.js:14-18 | only the password changes, to the hash of the old one |
| AuthRepository.Verify | src/modules/auth/auth.dao.js:25-28 | verification succeeds only for two strings |
| AuthRepository.Claims | src/modules/auth/auth.dao.js:36-40 | a token's claims are exactly the user's key and role |
| AuthRepository.SecondWord | src/modules/auth/auth.dao.js:55 | `split(" ")[1]` exists iff the header has a space, and holds no space |
| AuthRepository.BearerToken | src/modules/auth/auth.dao.js:55 | "Bearer " followed by a space-free token yields the token |
| AuthRepository.DecodeRefusals | src/modules/auth/auth.dao.js:54-58 | a header that is not a string or holds no space throws; otherwise the word after the first space is verified |
| AuthRepository.SignThenDecode | src/modules/auth/auth.dao.js:35-58 | with an exact JWT, a signed token sent as "Bearer <token>" decodes to exactly the key and role claims |
| AuthRepository.HashThenValidate | src/modules/auth/auth.service.js:25-27 | `AuthService.ValidatePassword` after `HashPassword`, with an exact hash: a password hashed at registration validates exactly against the same password at sign-in |
| AuthRepository.SwappedArgumentsReject | src/modules/auth/auth.service.js:25-27 | passing the arguments in the other order would reject the right password |
| Authentication.Authenticate | src/modules/auth/auth.middleware.js:10-22 | no header gives 403; a decode that throws or yields a nullish payload gives 400; otherwise next with exactly the payload's key and role |
| Authentication.NoHeaderIgnoresDecoder | src/modules/auth/auth.middleware.js:11-14 | without a header the decoder does not matter |
| Authentication.OtherClaimsDropped | src/modules/auth/auth.middleware.js:16-17 | payloads that agree on key and role authenticate alike |
| Authorization.Authorize | src/modules/auth/authz.middleware.js:9-16 | next, with the user unchanged, iff a user is attached and its role is a listed string; otherwise 403 "Forbidden" |
| Authorization.AuthorizeMonotone | src/modules/auth/authz.middleware.js:11 | enlarging the allow-list never turns a pass into a refusal |
| Authorization.AuthorizeByRole | src/modules/auth/authz.middleware.js:11 | users with the same role get the same decision |
| Authorization.RouteRoles | src/server/server.js:43-44 | ticket routes admit exactly employees and managers, user routes exactly managers |
| Routes.TicketRouteListing | src/server/server.js:43 | behind the ticket allow-list, listing answers only 200 or 400 |
| Routes.EmployeeCannotProcess | src/modules/ticket/ticket.controller.js:118-139 | behind the ticket allow-list, a non-manager's put answers 401 and changes nothing |
| Routes.TokenRoundTrip | src/modules/auth/auth.service.js:34-45 | `AuthService.GenerateToken` then `DecodeToken` through the middleware, with an exact JWT: a token issued for a user authenticates as that user's key and role |
| Routes.RegisteredManagerReachesUserRoutes | src/server/server.js:44 | a user created with a self-chosen "manager" role gets a token that passes the managers-only user routes |

## Left out

- Storage I/O, the network, logging and Express plumbing. The store is a value, and each operation answers the table as it is afterwards.
- Concurrency. Calls are sequential. The read-then-update race in `ticket.service.js` (two managers passing the guard before either write lands) is not represented.
- The catch blocks that answer 500 or swallow a store error. A store error is represented only where the store refuses a request: an empty, key-changing or overlapping update, or a put without a non-empty string key.
- `Uuid.IsUUID`: checks the 8-4-4-4-12 hexadecimal shape only. The `uuid` package's extra version and variant digit checks are not modelled.
- Numbers are exact reals. NaN, infinities, negative zero and floating-point rounding are not represented. `JsValues.NumberText` matches JavaScript only for zero and for magnitudes from 1e-6 up to 1e21 whose decimal expansion has at most 17 fractional digits; JavaScript writes other magnitudes in exponent notation.
- `JsValues.LooseEquals`: exact for nullish operands and same-type primitives. The cross-type coercions of `==` (a number against a string, say) answer false here.
- Arrays and strings as objects. `?.` on a non-object reads undefined here, so properties such as `length` are not modelled. Spreading a string or array body contributes no fields; no field a ticket reads can have a numeric name.
- Update batches are sequences of well-formed `{property, value}` edits. Malformed elements and a non-array `updateObjects` (which makes `push` throw) are not represented.
- `UserService.Create`: a null or undefined body throws a TypeError in the source. The model cannot build that input, because its body is a `JsValue` whose nullish cases read no credentials and are refused.
- `AuthRepository.Verify`: a comparison that throws on non-string input is modelled as a failed comparison.
- Scan pagination: a scan answers the whole table.
- The DocumentClient's refusal to marshal undefined attribute values is not modelled.
- JWT expiry (a clock), secrets and bcrypt salting. The round-trip lemmas assume an exact hash and an exact signer/verifier as hypotheses.
- `user.controller.js` and `auth.controller.js` only chain null checks over the services and are not part of this model. The register flow appears only through `Routes.RegisteredManagerReachesUserRoutes`.
- `TicketDao.Delete`: the delete request asks for no returned attributes, so the store answers none and the repository always answers undefined. The model states that outcome directly and does not model the `ReturnValues` option.
