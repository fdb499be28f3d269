# todo-list-api in Dafny

This is a model of the core of `todo-list-api`, a small Express service in TypeScript. Users register
and log in with an email and a password. A logged-in user holds a JWT bearer token. With it they can
create todos and can update or delete their own todos. Any signed-in user can search all todos,
whoever owns them, with optional query filters; the search route sits behind the auth guard too.

The model covers these parts of the service:

- **The two in-memory repositories** (`TodoModel`, `UserModel`).
  - Each repository is a class whose `seq` field is the static array the source mutates.
  - Its lookups are functions over that sequence.
  - `findAllTodos` is modelled as the chain of filter passes it runs. It is proved equal to one pass
    with a reference predicate, `Matches`.
- **The handlers** (`TodoController`, `AuthController`).
  - State-changing handlers are methods.
  - Handlers that only read the stores are functions.
  - Each one says which status and body it answers with, and what the store holds afterwards.
- **The auth guard** (`AuthMiddleware`). It checks the `Bearer ` prefix, takes the token with
  `split(" ")[1]`, and verifies it.
- **The wired validation middleware** (`Validation`).
  - The whitelist and type check of a todo update.
  - The emptiness and minimum-length loop behind the register, login and create-todo validators.
- **The draft validators** (`DraftValidation`). They collect an ordered list of messages.

Supporting modules:

- `Json` models request data with JavaScript semantics:
  - runtime types and truthiness;
  - objects as property lists in the order `Object.keys` reports, with `Object.keys`, property
    read and property write.
- `Text` models the string operations the source calls: `length`, `trim`, `toLowerCase`,
  `includes`, `startsWith`, `split`, `join` and number rendering. Characters are Unicode scalar
  values. `length` counts UTF-16 code units, as JavaScript does: a character beyond U+FFFF counts
  twice.
- `Seqs` holds `filter`, `find` and the subsequence relation.
- `Http` holds the responses, and the three things a middleware can do: call `next` with what it
  attached to the request, answer the request, or throw.

External effects become parameters:

- bcrypt's hash and compare become the function parameters `hash` and `passwordMatches`;
- `generateToken` becomes `issueToken`;
- `jwt.verify` becomes `verify`, which yields the payload's user id or fails;
- `uuidv4()` becomes `freshId`;
- `new Date()` becomes `now`.

Calling `.trim()` on a value that is neither a string nor null makes the JavaScript code throw a
`TypeError`, for example on a number or a boolean. The model keeps that path as `Outcome.TypeError`
and does not assume the body is well typed.

Where the end-to-end tests and the code disagree, the model follows the code:

- A duplicate email is answered with "Email is already registered". `test/auth.test.ts:32` expects
  "The user email already exists".
- The registration answer is `{ user: {...} }`. `test/auth.test.ts:17-18` reads the fields at the top
  level.
- The messages `test/auth.test.ts:42,52-54` looks for are those of the draft validators in
  `src/utils/validation.ts`. The routes do not use those validators. They use the middleware in
  `src/middleware/validation.ts`, which answers with an object of per-field messages. The two
  scenarios are therefore proved about the draft validators, where they hold.

## Model

| member | source | states |
|---|---|---|
| TodoModel.IndexOfId | src/models/todo.model.ts:59-61 | The position `find` stops at: the first todo with the id. It is `None` exactly when no todo has the id. |
| TodoModel.FindById | src/models/todo.model.ts:59-61 | `None` (null) exactly when no todo has the id. Otherwise it is the todo at `IndexOfId`, which carries that id and is in the store. |
| TodoModel.FindAllTodos | src/models/todo.model.ts:72-97 | The successive filter passes equal one `Filter` with `Matches`. A todo is in the result iff it is in the store and matches every active criterion. The result is a subsequence of the store, so store order is kept. With no filter object the result is the whole store. |
| TodoModel.PassesMatch | src/models/todo.model.ts:74-95 | A todo passes every filter pass that takes part iff it satisfies `Matches`. Only truthy string criteria take part, plus `completed` when it is defined. |
| TodoModel.Merge | src/models/todo.model.ts:130-131 | `Object.assign` then `updatedAt = now`. Supplied fields overwrite and missing ones are kept. id, owner and creation time never change. |
| TodoModel.WithoutId | src/models/todo.model.ts:144 | Exactly the todos with another id stay, as a subsequence of the store, so in store order. |
| TodoModel.WithoutIdKeepsMultiplicity | src/models/todo.model.ts:144 | Each todo with another id stays as many times as the store held it. |
| TodoModel.WithoutIdCons | src/models/todo.model.ts:144 | `filter` decides the first todo by its id, then goes on with the rest. |
| TodoModel.TodoStore.constructor | src/models/todo.model.ts:56 | The store starts empty. |
| TodoModel.TodoStore.Create | src/models/todo.model.ts:104-115 | Appends `Todo(freshId, data..., completed = false, createdAt = updatedAt = now)` and returns it. |
| TodoModel.TodoStore.Update | src/models/todo.model.ts:124-133 | An unknown id gives null and leaves the store alone. An empty update returns the todo unchanged. Otherwise only the first todo with the id is replaced by its merge, and that merge is returned. |
| TodoModel.TodoStore.Delete | src/models/todo.model.ts:140-146 | Returns true iff the id was present. The store becomes `WithoutId`, or stays as it was. |
| TodoModel.TodoStore.Reset | src/models/todo.model.ts:151-153 | The store becomes empty. |
| TodoModel.FindByIdAfterAppend | src/models/todo.model.ts:113 | After an append, an id found before is found the same way. A new id finds the appended todo only if that todo carries it. |
| TodoModel.FindByIdAfterMerge | src/models/todo.model.ts:125-131 | After an update, its id finds the merged todo. Every other id finds what it found before. |
| TodoModel.FindByIdCons | src/models/todo.model.ts:59-61 | `find` returns the first todo if it has the id, and otherwise searches the rest. |
| TodoModel.FindByIdAfterDelete | src/models/todo.model.ts:144 | After a delete, the id is gone and every other id's lookup is unchanged. |
| UserModel.FindUserByEmail | src/models/user.model.ts:24-26 | `None` exactly when no user has the email. Otherwise it is the first user with it. |
| UserModel.FindUserByUserId | src/models/user.model.ts:29-31 | `None` exactly when no user has the id. Otherwise it is the first user with it. |
| UserModel.FindUserByUsername | src/models/user.model.ts:34-36 | `None` exactly when no user has the username. Otherwise it is the first user with it. |
| UserModel.UserStore.constructor | src/models/user.model.ts:21 | The store starts empty. |
| UserModel.UserStore.CreateUser | src/models/user.model.ts:45-59 | Always appends `User(freshId, username, email, hashedPassword, now)` and returns it. |
| UserModel.UserStore.Reset | src/models/user.model.ts:64-66 | The store becomes empty, and every lookup by email, id or username then finds nothing. |
| UserModel.CreateUserDuplicatesEmail | src/models/user.model.ts:45-59 | `createUser` with an email already present breaks email uniqueness. The repository itself does not guard it. |
| UserModel.CreateUserKeepsUniqueEmails | src/controllers/auth.controller.ts:17-23 | Appending a user whose email is not present keeps emails unique. |
| AuthController.View | src/controllers/auth.controller.ts:27-31 | The answer shows the user's id, username and email. `UserView` has no field for the password hash. |
| AuthController.Register | src/controllers/auth.controller.ts:14-33 | A known email gives 400 "Email is already registered" and leaves the store unchanged. Otherwise one user with `hash(password)` is appended and 201 returns the id, username and email only. Email uniqueness is preserved. |
| AuthController.RegisterTwice | src/controllers/auth.controller.ts:17-23 | Registering one email twice: 201, then 400. The store gains exactly the first user. |
| AuthController.Login | src/controllers/auth.controller.ts:43-68 | Gives 200 iff the email is known and the password matches its hash. The 200 answer carries the token for that user's id and the user's view. Every failure is the same 401 "Invalid email or password". |
| AuthController.LoginAfterRegister | src/controllers/auth.controller.ts:43-68 | After registering a new email, logging in with a matching password yields that user's token and view. |
| AuthMiddleware.VerifyToken | src/utils/jwt.ts:14-20 | Succeeds iff the library accepts the token, and then yields its payload. Every rejection becomes "Invalid token". |
| Text.StartsWith | src/middleware/auth.middleware.ts:28 | `startsWith`: the text is the prefix followed by the rest of the text. |
| Text.StartsWithConcat | src/middleware/auth.middleware.ts:28 | A text built as a prefix plus anything starts with that prefix. |
| AuthMiddleware.BearerToken | src/middleware/auth.middleware.ts:34 | `split(" ")[1]` after "Bearer " is the text up to the next space (or the end), and holds no space. |
| AuthMiddleware.ProtectedRoute | src/middleware/auth.middleware.ts:21-46 | Three 401 answers, in this order: a missing header or one without the "Bearer " prefix, an empty token, and a rejected token. Otherwise control passes on with the verified user id. Every answer is 401. |
| AuthMiddleware.BearerRoundTrip | src/middleware/auth.middleware.ts:28-41 | "Bearer " plus a non-empty, space-free token is decided by verifying that very token. |
| AuthMiddleware.EmptyTokenHeaders | src/middleware/auth.middleware.ts:34-37 | "Bearer " alone, and "Bearer" followed by two spaces, give 401 "No token found". |
| TodoController.CreateTodo | src/controllers/todo.controller.ts:14-37 | Without a non-empty user id: 401 "Unauthorized" and no change. Otherwise a todo owned by the user is appended and returned with 201. |
| TodoController.DeleteTodo | src/controllers/todo.controller.ts:46-72 | Unknown id gives 404. If the user does not own the found todo: 403, store unchanged. Otherwise 204 with no body, and the store becomes `WithoutId`. |
| TodoController.UpdateTodo | src/controllers/todo.controller.ts:82-112 | Unknown id gives 404. If the user does not own the found todo: 403, store unchanged. Otherwise 200 "Todo updated successfully": the first todo with the id is merged, or nothing changes for an empty update. |
| TodoController.ParseCompleted | src/controllers/todo.controller.ts:131-143 | Exactly "true" and "false" give a `completed` criterion. Anything else, and a missing parameter, give none. |
| TodoController.QueryFilters | src/controllers/todo.controller.ts:131-145 | The text criteria are the query parameters as given. `completed` is set exactly for the texts "true" and "false", and then it holds that boolean. |
| TodoController.SearchTodos | src/controllers/todo.controller.ts:125-151 | Always 200 with a list. It is exactly the store filtered by the filters built from the query: the matching todos, in store order and as often as the store holds them. |
| SearchExamples.NoFilter | test/todo.test.ts:218-223 | With no query, all three todos come back. |
| SearchExamples.ByCategory | test/todo.test.ts:225-231 | `category=work` gives only the "work" todo. |
| SearchExamples.ByTitle | test/todo.test.ts:233-239 | `title=Todo 1` gives only "Todo 1". |
| SearchExamples.ByDescription | test/todo.test.ts:241-248 | `description=study` gives the two study todos, in creation order. The match ignores case and looks for a substring. |
| SearchExamples.ByCompleted | test/todo.test.ts:250-256 | `completed=true` gives only the completed "Todo 3". |
| SearchExamples.ByTitleAndDescription | test/todo.test.ts:258-267 | The title and description filters combine, which leaves only "Todo 3". |
| Json.Get | src/middleware/validation.ts:80-81 | A property is undefined iff the key is not among the object's keys. Otherwise it is one of the object's entries. |
| Json.Put | src/middleware/validation.ts:91 | After `o[k] = v`, `k` reads `v` and every other key reads what it read before. |
| Json.PutKeys | src/middleware/validation.ts:91 | An existing key keeps its place in `Object.keys`. A new key goes last, as JavaScript places a new name that is not an array index. |
| Json.Keys | src/middleware/validation.ts:70 | `Object.keys` gives one key per property. |
| Json.KeysSpec | src/middleware/validation.ts:70 | The keys are the property names, in the object's order. |
| Validation.ExtraFieldsMessage | src/middleware/validation.ts:73-77 | The 400 message starts with "Extra fields to update todo: " and names every extra key. |
| Validation.ExtraKeys | src/middleware/validation.ts:70-72 | The body keys outside the whitelist, as a subsequence of the body keys in their order. |
| Validation.TypeErrorsSpec | src/middleware/validation.ts:79-97 | The error record holds exactly the checked keys the body has with a wrongly typed value. Each maps to "Invalid value for field <key>". |
| Validation.NoTypeErrors | src/middleware/validation.ts:79-99 | The error record is empty iff no allowed key of the body holds a wrongly typed value. |
| Validation.TypeErrorsStep | src/middleware/validation.ts:83-95 | Checking one more key adds that key's error, if any, and leaves the rest of the record as it was. |
| Validation.SetText | src/middleware/validation.ts:93 | `result[key] = value` gives the named text field the value. Every other field keeps its value. |
| Validation.ValidateUpdateTodo | src/middleware/validation.ts:55-105 | Extra keys give 400 with them listed in `Object.keys` order. Otherwise any type errors give 400 with the error record. Control passes on iff there is no extra key and no mistyped value, and then carries the update built from the body. This middleware never throws. |
| Validation.UpdateHoldsBody | src/middleware/validation.ts:79-104 | A validated update holds each allowed key of the body with its value. It is empty iff the body has no key. |
| Validation.EmptyExactlyWithoutKeys | src/models/todo.model.ts:128 | Feeding `update` an update that agrees with the body makes its "no keys" shortcut fire exactly for an empty body. |
| Validation.Check | src/middleware/validation.ts:125-132 | The verdict on one field. A present value that is neither a string nor null throws. The field passes iff its trimmed text is non-empty and at least the minimum long, counted in UTF-16 code units. It is "too short" iff the trimmed text is non-empty and under the minimum. It is "empty" iff the value can be trimmed and its trimmed text is empty. |
| Validation.AstralPassword | src/middleware/validation.ts:128 | A password of three emoji beyond U+FFFF is six UTF-16 code units long, so it passes a minimum of 6. |
| Validation.FieldErrorsOfSpec | src/middleware/validation.ts:122-133 | The error record has a key iff some rule for that field fails. Its message is the message of a failing rule for that field. |
| Validation.FieldErrorsKeys | src/middleware/validation.ts:124-133 | The record has an entry exactly for each field that some rule fails. |
| Validation.FieldErrorsMessages | src/middleware/validation.ts:126-131 | Each entry holds the message of a failing rule for its field. |
| Validation.FailsForSnoc | src/middleware/validation.ts:124-133 | One more rule makes its own field fail when it fails, and changes nothing for other fields. |
| Validation.FieldErrorsStep | src/middleware/validation.ts:124-133 | Checking one more rule adds that field's message if it fails, and otherwise changes nothing. |
| Validation.ValidationFields | src/middleware/validation.ts:113-139 | Throws iff some field's value cannot be trimmed. Passes control on iff every field passes. Otherwise it answers 400 with the error record. |
| Validation.ValidateRegister | src/middleware/validation.ts:9-19 | Passes iff the trimmed username has at least 3 and the trimmed password at least 6 UTF-16 code units, and the email is non-blank. Throws iff one of them cannot be trimmed. Otherwise 400. |
| Validation.ValidateLogin | src/middleware/validation.ts:25-31 | Passes iff email and password are non-blank strings. Throws iff one cannot be trimmed. Otherwise 400. |
| Validation.ValidateCreateTodo | src/middleware/validation.ts:37-47 | Passes iff title, description and category are non-blank strings. Throws iff one cannot be trimmed. Otherwise 400. |
| Text.TrimSpec | src/middleware/validation.ts:126-128 | `trim()` yields a piece of the text, no longer than it, with no space at either end, and everything it drops before and after is white space. It is empty iff the text is blank. |
| Text.Utf16Length | src/middleware/validation.ts:128 | `length` counts at least one and at most two code units per character. |
| Text.Utf16LengthBmp | src/middleware/validation.ts:128 | For characters up to U+FFFF, `length` is the number of characters. |
| Text.ToLower | src/models/todo.model.ts:79-81 | `toLowerCase` keeps the length and lowers each character in place. |
| Text.Includes | src/models/todo.model.ts:79-81 | Every text includes the empty string and itself. A text includes no longer string, and none holding a character it lacks. |
| Text.Split | src/middleware/auth.middleware.ts:34 | `split` gives at least one piece, and no piece holds the separator. |
| Text.JoinSplit | src/middleware/auth.middleware.ts:34 | Joining the pieces with the separator gives the text back. With the separator-free pieces, this pins down what `split` yields. |
| Text.JoinIncludes | src/middleware/validation.ts:76 | `join` names every part in the joined text. |
| Seqs.Filter | src/models/todo.model.ts:76-94 | `filter` keeps exactly the elements that satisfy the predicate, and never makes the list longer. |
| Seqs.Find | src/models/todo.model.ts:60 | `find` gives undefined iff no element satisfies the predicate. Otherwise it gives the element at the first index that does. |
| Text.ParseNatToString | src/middleware/validation.ts:131 | The decimal rendering of the minimum length reads back as that number. |
| DraftValidation.PresenceOf | src/utils/validation.ts:8 | The draft emptiness test holds for a missing or falsy value, or a blank string. It throws for any other non-string. Otherwise it yields the non-empty trimmed text. |
| DraftValidation.LengthCheck | src/utils/validation.ts:8-19 | Gives the "empty" message when the value is absent or blank, and the "short" message when the trimmed text is under the minimum in UTF-16 code units. It throws iff the value is truthy and not a string. |
| DraftValidation.EmailCheck | src/utils/validation.ts:22-26 | Gives "Email is empty" when the email is absent or blank, and "Email is invalid" when the untrimmed text has no '@'. It throws iff the email is truthy and not a string. |
| DraftValidation.PresentCheck | src/utils/validation.ts:39-46 | The "empty" message iff absent or blank. Fine iff the trimmed text is non-empty. |
| DraftValidation.RegisterChecksSpec | src/utils/validation.ts:4-26 | The register checks throw iff one of username, password and email is truthy and not a string. All three are fine iff the username and password are long enough and the email holds an '@'. |
| DraftValidation.LoginChecksSpec | src/utils/validation.ts:36-46 | The login checks throw iff password or email is truthy and not a string. Both are fine iff both are present. |
| DraftValidation.ReportedSpec | src/utils/validation.ts:5-28 | The collected list holds at most one message per check. It is empty iff no check reports. A message is in it iff some check reports that message. |
| DraftValidation.ReportedAppend | src/utils/validation.ts:9 | Pushing after one more check appends its message, if it has one. |
| DraftValidation.Collect | src/utils/validation.ts:5-32 | Throws iff some check throws. Passes on iff every check is fine. Otherwise answers 400 with the list of messages. |
| DraftValidation.ValidateRegister | src/utils/validation.ts:3-33 | The same three outcomes for the username, password and email checks, in that order. |
| DraftValidation.ValidateLogin | src/utils/validation.ts:35-53 | The same three outcomes for the password and email checks, in that order. |
| DraftValidation.PresentText | src/utils/validation.ts:8 | A non-empty text with no white space at either end is present as it is. |
| DraftValidation.LengthOfPresent | src/utils/validation.ts:8-19 | For such a text the length check compares the text's own UTF-16 length with the minimum. |
| DraftValidation.EmailOfPresent | src/utils/validation.ts:22-26 | Such a text containing '@' passes the email check. |
| DraftValidation.RegisterChecksOfTexts | src/utils/validation.ts:8-26 | With all three fields given as texts that need no trimming, in plane 0, and an email with an '@', only the length checks can report. |
| DraftValidation.RegisterChecksWithoutUsername | src/utils/validation.ts:8-26 | Without a username, with a password of at least 6 such characters and such an email, only "Username is empty" is reported. |
| DraftValidation.MissingUsernameChecks | test/auth.test.ts:35-43 | Without a username, only the username check reports ("Username is empty"). |
| DraftValidation.MissingUsername | test/auth.test.ts:35-43 | A body without a username reports exactly "Username is empty". |
| DraftValidation.ShortPasswordChecks | test/auth.test.ts:45-55 | With a five-character password, only the password check reports ("too short"). |
| DraftValidation.ShortPassword | test/auth.test.ts:45-55 | A five-character password reports exactly "Password must be at least 6 characters long". |

## Left out

- The Express plumbing (`app.ts`, `server.ts`, the route files, `error.middleware.ts`) is not part of this model. A middleware's `TypeError` is modelled as an outcome. The error handler's turning it into a 500 response is not modelled. `src/routes/todo.route.ts` imports a `getAllTodos` that the controller does not export.
- `async`/`await` is not modelled. Every store operation is modelled as one atomic step, because the stores are plain in-memory arrays.
- AuthController.Register: the whole handler is one atomic step, so email uniqueness is kept only by registrations that do not interleave. In the source, `await bcrypt.hash` (`src/controllers/auth.controller.ts:22`) suspends between the duplicate check (line 17) and `createUser` (line 23). Two concurrent registrations of one email can both pass the check and both insert.
- TodoModel.TodoStore.Create: `createdAt` and `updatedAt` come from two separate `new Date()` calls (`src/models/todo.model.ts:109-110`), which can differ by a tick. The model sets both to the one reading `now`.
- Json.Keys: an object is given directly in `Object.keys` order, with each name once. The rule that puts array-index names ("0", "42") first, in ascending order, is not computed. For example, the body `{"x": 1, "1": 2}` is given as `[("1", 2), ("x", 1)]`, which gives the answer "Extra fields to update todo: 1, x" as the source does.
- Json.PutKeys: a new name always goes last. JavaScript would place an array-index name among the index names instead. The core only writes the four allowed field names (`src/middleware/validation.ts:85-93`) and the rule names (lines 127-131), none of which is an index.
- Dates are integer clock readings passed in as `now`. Identifiers from `uuidv4()` are passed in as `freshId`. The model does not assume ids are unique; its lemmas state what happens when they repeat.
- bcrypt (with its random salt), `jwt.sign` and `jwt.verify` are opaque function parameters. Token expiry and the secret key are hidden inside `verify`.
- AuthMiddleware.ProtectedRoute: `verify` yields the payload's user id directly. A valid token whose payload lacks `userId` is therefore not modelled (the source would attach `undefined`).
- Console logging in the middleware catch blocks is not modelled.
- Text.Trim: only the ASCII whitespace characters space, tab, line feed, vertical tab, form feed and carriage return are trimmed. Unicode spaces such as U+00A0 or U+FEFF are kept, which `String.prototype.trim` would strip.
- Text.ToLower: it lowers only the ASCII letters A-Z, which `toLowerCase` does for every cased Unicode letter.
- JSON numbers are modelled as integers. Arrays and nested objects are modelled as one opaque `Compound` value. Only their runtime type (not a string, not a boolean, truthy) matters to the core.
- TodoController.QueryFilters: a query parameter given several times (an array in Express) is not modelled; every parameter is one string.
- TodoController.CreateTodo: it takes `title`, `description` and `category` as strings, that is, after validation. The handler would store whatever values the body carries.
