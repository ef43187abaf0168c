# event-io-server, modelled in Dafny

event-io-server is an Express/MySQL back end for publishing events and signing
up for them. This project models the decisions its request handlers make. It
covers what each handler validates, which SQL statements it sends with which
parameters, which status it answers, and how the session keeps and restores
the signed-in user.

A handler is modelled as a function or method. Its inputs are the request,
the session principal (`req.user`), the rows the store would return, and the
errors the store may raise. It returns an `Outcome`: the HTTP response and
every statement sent to the store, reads included. Where the source builds a
statement step by step, the model is a method with the same loop or appends,
proved against a specification function:

- `EventController.BuildUpdate` models the `forEach` of `updateEvent`.
- `EventController.GetEvents` models the appends of `getEvents`.

Modules:

- `Types`: the `TUser` and `UserType` records, errors and responses.
- `Sql`: parameter values, statements, and counting `?` placeholders.
- `Schema`: the zod string checks, run in declaration order, with `.trim()`
  replacing the value at its position.
- `EventController`, `UserController`, `LocalStrategy`, `AuthController`:
  one module per source file.
- `Flows`: properties that span several handlers.

Collaborators stay abstract:

- zod's e-mail and URL patterns are fields of `Schema.Formats`.
- `bcrypt.compare` is the `matches` parameter of `LocalStrategy.Verify`.
- The salted `bcrypt.hash` is the `hash` parameter of `UserController.CreateUser`.
- The users table is a sequence of rows, so `rows[0]` is the first row that
  matches (`UserController.FindById`, `LocalStrategy.FindByEmail`).
- The effect of the user writes on that table is `UserController.Apply`.

SQL texts are written with single spaces where the source spreads them over
indented lines. The INSERTs are built from their table, columns and
placeholder count, so every VALUES list is written `(?, ?, ?)`: the
enrollment INSERT's `(? , ? ,?)` is normalised to that form. Long SELECT
texts are written as concatenations of shorter pieces, which changes nothing
in the text. Otherwise they are the source's own texts, including the missing
space between `LIKE ?` and `LIMIT ?` in `getEvents`.

String lengths follow JavaScript: zod's `min`/`max`/`nonempty` compare
`s.length`, which counts UTF-16 code units, so a character outside the Basic
Multilingual Plane counts twice (`Schema.JsLength`).

## Model

| member | source | states |
|---|---|---|
| Sql.Nullable | src/controllers/eventController.ts:27-32 | `value ?? null` is null exactly when the field is absent, and the field's text otherwise |
| Sql.NatToStringRoundTrip | src/controllers/eventController.ts:79 | the decimal text spliced after `WHERE id = ` reads back as the id |
| Sql.InsertTextPlaceholders | src/controllers/userController.ts:24 | an `INSERT … VALUES (?, …)` built with n placeholders holds exactly n `?` |
| Schema.TrimTextShape | src/controllers/userController.ts:12-13 | `.trim()` keeps a contiguous part of the text and cuts off only white space at either end |
| Schema.TrimTextEdges | src/controllers/userController.ts:12-13 | trimmed text neither starts nor ends with white space |
| Schema.TrimTextIdempotent | src/controllers/userController.ts:53-55 | trimming twice gives what trimming once gives |
| Schema.RunChecksPlain | src/controllers/userController.ts:14-15 | a field without `.trim()` passes exactly when every check accepts it, and comes back unchanged |
| Schema.RunChecksTrimmed | src/controllers/userController.ts:53-55 | with `.trim()`, the checks before it judge the text as sent, the checks after it judge the trimmed text, and the trimmed text is kept |
| Schema.JsLengthBmp | src/controllers/userController.ts:12 | a text of characters inside the Basic Multilingual Plane has a JavaScript length equal to its number of characters |
| Schema.JsLengthAstral | src/controllers/userController.ts:15 | a text of characters outside the Basic Multilingual Plane has a JavaScript length of twice its number of characters |
| Schema.TrimBlank | src/controllers/userController.ts:53 | text made only of white space trims to the empty string |
| EventController.PatchOfShape | src/controllers/eventController.ts:53-59 | the entries for a list of keys are the keys the body holds, with their values, in the list's order |
| EventController.PatchInSchemaOrder | src/controllers/eventController.ts:51-66 | `Object.entries` after `id` holds one entry per optional key the body holds, with its value, in schema order, and never `id` |
| EventController.EntriesShape | src/controllers/eventController.ts:51-66 | the entries start with `id` and its value, and `id` occurs nowhere else |
| EventController.SetParamsPrefix | src/controllers/eventController.ts:71-76 | the pushed parameters are the values of the entries after `id`, in entry order |
| EventController.SetClauseBeforeLast | src/controllers/eventController.ts:75 | before the last entry, every assignment is followed by `, ` |
| EventController.SetClauseShape | src/controllers/eventController.ts:70-77 | the SET clause is empty for an `id`-only body, and otherwise the assignments joined by `, ` with one trailing space |
| EventController.AssignmentPlaceholders | src/controllers/eventController.ts:75 | each assignment with its separator holds exactly one `?` |
| EventController.SetClausePlaceholders | src/controllers/eventController.ts:70-77 | after any number of iterations, the `?` count equals the number of pushed parameters |
| EventController.UpdatePlaceholdersMatch | src/controllers/eventController.ts:64-79 | the whole UPDATE holds exactly one `?` per parameter when the id is a number |
| EventController.BuildUpdate | src/controllers/eventController.ts:64-79 | the loop produces `UPDATE events SET ` and the SET clause, then `WHERE id = ` and the first entry's value, with one `?` per parameter |
| EventController.UpdateStatementShape | src/controllers/eventController.ts:64-79 | for a parsed body, the parameters are the patch values; the SQL is `UPDATE events SET ` with the joined assignments, then `WHERE id = <id>`; an `id`-only body gives the empty SET clause, `UPDATE events SET WHERE id = <id>`, which MySQL refuses as a syntax error, so that request always answers 500 |
| EventController.UpdateEvent | src/controllers/eventController.ts:49-88 | an invalid body answers 500 and sends nothing; a valid one sends the built UPDATE and answers 200, or 500 when the store fails; it never reads the caller |
| EventController.CreateEventParamsAlign | src/controllers/eventController.ts:22-33 | the k-th parameter is the value meant for the k-th column: the title, each optional field or null, and the session user as host |
| EventController.InsertEventAsWrittenMismatch | src/controllers/eventController.ts:22-33 | the event INSERT as written has 8 columns and 8 parameters but 7 placeholders |
| EventController.InsertStatementsMatch | src/controllers/eventController.ts:22-41 | with one placeholder per column, both INSERTs have as many `?` as columns and parameters |
| EventController.CreateEvent | src/controllers/eventController.ts:8-48 | 201 exactly when the body parses, a user is signed in, and both INSERTs succeed; it then sends the event row with the user as host, then the enrollment `(user id, insertId, "host")` |
| EventController.CreateEventNotAtomic | src/controllers/eventController.ts:22-41 | when the enrollment INSERT fails after the event row went in, it answers 500 and sends nothing that removes the event row |
| EventController.DeleteEvent | src/controllers/eventController.ts:89-102 | an id below 1 answers 500 with no statement; otherwise one DELETE by that id, then 204 unless the store fails |
| EventController.DeleteEventIgnoresCaller | src/controllers/eventController.ts:89-97 | the outcome is the same whoever asks: there is no ownership check |
| EventController.AliasIsEnrolled | src/controllers/eventController.ts:120-124 | only the enrollment column is returned as `is_enrolled` |
| EventController.GetEventStatement | src/controllers/eventController.ts:109-152 | signed in, the parameters are the user's id and the slug; anonymous, only the slug |
| EventController.GetEvent | src/controllers/eventController.ts:103-159 | one SELECT by slug, answered 200 unless the store fails |
| EventController.IsEnrolledOnlyWhenSignedIn | src/controllers/eventController.ts:109-152 | the response has an `is_enrolled` field exactly when `req.user` is set, and the other fields are the same either way |
| EventController.GetEventPlaceholders | src/controllers/eventController.ts:110-152 | the SELECT by slug holds exactly one `?` per parameter, signed in or not |
| EventController.ParseListing | src/controllers/eventController.ts:162-168 | the query string passes iff `limit` and `page` coerce to numbers (not NaN) when present and `query` is a string when present; the values are kept |
| EventController.ListingShape | src/controllers/eventController.ts:172-197 | the SQL is the SELECT, then `WHERE event_title LIKE ?` iff `query` is non-empty, then `LIMIT ?` iff `limit` is non-zero; the parameters are `%query%` then `limit`, each present under the same condition |
| EventController.ListingPlaceholders | src/controllers/eventController.ts:172-197 | the listing holds exactly one `?` per parameter in each of the four cases |
| EventController.PageUnused | src/controllers/eventController.ts:163-170 | `page` is only validated: replacing it by any other number, or none, gives the same listing |
| EventController.GetEvents | src/controllers/eventController.ts:160-206 | a query string zod refuses answers 500 and sends nothing; otherwise the appends send the listing for `limit` and `query`; 200 exactly when the query string parses and the store does not fail |
| UserController.FindById | src/controllers/userController.ts:86-88 | the row found has the id asked for; none is found only when no row has it |
| UserController.Without | src/controllers/userController.ts:97 | deleting by id keeps exactly the rows with another id |
| UserController.NewUserSchema | src/controllers/userController.ts:11-18 | sign-up passes iff the name has 1-100 UTF-16 units, the e-mail is non-empty and well formed, any image is a URL, and the password has 8-50 UTF-16 units; name and e-mail are stored trimmed |
| UserController.NewNameField | src/controllers/userController.ts:12 | the name passes iff it has 1 to 100 UTF-16 units as sent, and is kept trimmed |
| UserController.NewEmailField | src/controllers/userController.ts:13 | the e-mail passes iff it is non-empty and well formed as sent, and is kept trimmed |
| UserController.NewImageField | src/controllers/userController.ts:14 | an absent image stays absent; a present one passes iff it is a URL |
| UserController.PasswordField | src/controllers/userController.ts:15 | the password passes iff it has 8 to 50 UTF-16 units, and is kept as sent |
| UserController.AstralPasswordRejected | src/controllers/userController.ts:15 | a password of 26 emoji is refused by `.max(50)`, since each counts as two UTF-16 units |
| UserController.NewUserParamsAlign | src/controllers/userController.ts:20-29 | one parameter per column and placeholder; `user_password` receives the hash, and `user_image` is null iff no image was given |
| UserController.CreateUser | src/controllers/userController.ts:9-36 | sends one INSERT with the hashed password; answers 200 with name, e-mail and image only, and 500 on any failure, a taken e-mail included |
| UserController.ProfileSchema | src/controllers/userController.ts:52-58 | the update passes iff name and e-mail have 1-100 UTF-16 units as sent, the trimmed e-mail is well formed, and any image has at most 255 UTF-16 units and trims to a URL; both fields are required even for an image-only update |
| UserController.ProfileNameField | src/controllers/userController.ts:53 | the name passes iff it has 1 to 100 UTF-16 units as sent, and is kept trimmed |
| UserController.ProfileEmailField | src/controllers/userController.ts:54 | the e-mail passes iff it has 1 to 100 UTF-16 units as sent and is well formed once trimmed |
| UserController.ProfileImageField | src/controllers/userController.ts:55 | an image passes iff it has at most 255 UTF-16 units and trims to a URL |
| UserController.BlankNameStoredEmpty | src/controllers/userController.ts:53 | a name of white space passes `nonempty()` and is stored as the empty string |
| UserController.UpdateUser | src/controllers/userController.ts:50-79 | a valid body with a session sends exactly one UPDATE: the image alone when one is given, otherwise name and e-mail; 200 unless something fails |
| UserController.ImageWriteKeepsNameAndEmail | src/controllers/userController.ts:60-66 | the image write changes only `user_image`, and only on the caller's row |
| UserController.NameEmailWriteKeepsImage | src/controllers/userController.ts:68-74 | the name/e-mail write changes only name and e-mail, and only on the caller's row |
| UserController.MatchesSessionIsIdentity | src/controllers/userController.ts:92 | the guard passes exactly when the stored row yields the session principal |
| UserController.DeleteUser | src/controllers/userController.ts:80-104 | an id below 1 answers 500 before any lookup; a failed SELECT answers 500 with only that read sent; a missing row answers 500, not 403; a mismatch on name, e-mail or id answers 403; a match sends one DELETE and answers 204 |
| UserController.DeleteUserRemovesOnlyCaller | src/controllers/userController.ts:92-99 | a granted deletion targets the session user's id and keeps every other row |
| UserController.DeleteUserRefusedSendsNoWrite | src/controllers/userController.ts:86-95 | a refused or failed deletion sends only the SELECT |
| LocalStrategy.FindByEmail | src/strategies/local-strategy.js:25-27 | the row found has the e-mail asked for; none is found only when no row has it |
| LocalStrategy.Verify | src/strategies/local-strategy.js:23-44 | an unknown e-mail gives "User not found."; a failed comparison gives "Wrong password"; success gives the row's principal for that e-mail; a store error reaches `done` as the error |
| LocalStrategy.UnknownEmailComparesNothing | src/strategies/local-strategy.js:29-31 | for an unknown e-mail, neither the password nor the comparison changes the verdict |
| LocalStrategy.PrincipalOmitsHash | src/strategies/local-strategy.js:39 | the principal is name, e-mail and id, and the stored hash never affects it |
| LocalStrategy.Deserialize | src/strategies/local-strategy.js:10-19 | the session is restored from the current row for the stored e-mail; with no such row the field read throws |
| LocalStrategy.SessionRoundTrip | src/strategies/local-strategy.js:6-16 | restoring what `serializeUser` kept after a login gives the principal of that login |
| AuthController.Status | src/controllers/authController.ts:4-21 | 200 with the user exactly when there is a session holding a user; 401 otherwise; 500 with the message on an exception |
| AuthController.NoSessionIgnoresUser | src/controllers/authController.ts:6-9 | without a session the answer is 401, whatever the user |
| Flows.LoginThenStatus | src/strategies/local-strategy.js:10-16 | after a login, the next status request answers 200 with the login's principal |
| Flows.DeletedAccountLosesSession | src/strategies/local-strategy.js:12-18 | after a user deletes their own account, their session can no longer be restored |
| Flows.RenameRefreshesSession | src/strategies/local-strategy.js:12-16 | after a rename, the restored principal carries the new name |
| Flows.EmailChangeEndsSession | src/strategies/local-strategy.js:12-18 | after an e-mail change, the session, restored by the old e-mail, cannot be restored |

## Left out

- Express, passport and express-session wiring: routes, middleware, cookies and the login and logout callbacks. Each handler takes `req.session` and `req.user` as inputs.
- MySQL itself: LIKE matching, the LEFT JOIN, ordering, cascades, unique keys and collation. The default collation compares e-mails case-insensitively, so `WHERE user_email = ?` may find a row whose e-mail differs in case; the model's `FindByEmail` compares exactly. Reads are inputs, and store failures are error parameters. The effect of the writes is modelled only for the users table.
- mysql2's substitution of parameters into `?` placeholders. The model states placeholder counts, not the final text.
- bcrypt hashing and comparison, and zod's e-mail and URL patterns. They are abstract functions.
- getUser, `pw`, and the userEvents controller. They are outside the modelled core.
- SQL layout: newlines and indentation inside the source's SQL texts are written as single spaces.
- EventController.DeleteEvent: takes the path id as an integer. `z.coerce.number()` also lets a fractional id of at least 1 through, and that DELETE matches no row and answers 204.
- UserController.DeleteUser: takes the path id as an integer. A fractional id finds no row and answers 500, which the model covers as a missing row.
- EventController.UpdateEvent: the body's `id` is an integer. `z.number().min(1)` also admits fractions, which the source splices into the SQL text unchanged.
- EventController.GetEvents: `limit` and `page` are integers or NaN (`Coerced`). A fractional, negative or infinite limit passes zod and is sent as given, and MySQL refuses it; the model does not separate these from integers.
- EventController.CreateEvent: sends the corrected INSERT with 8 placeholders. The source's text has 7 (see Findings), which MySQL refuses with a column-count error, so as written every createEvent that reaches the INSERT answers 500; `InsertEventAsWrittenMismatch` states the source's text.
- EventController.UpdateEvent: JavaScript numbers are modelled as unbounded integers. A JSON id above 2^53 arrives rounded, and an id of 1e21 or more is spliced into the SQL as `1e+21`, which the model's decimal rendering does not reproduce.
- EventController.UpdateStatementShape: states the decimal text of the id; the `1e+21` rendering of very large JavaScript numbers is not modelled.
- EventController.DeleteEvent: JavaScript numbers are modelled as unbounded integers. `z.coerce.number()` also lets `Infinity` through, which the model does not represent.
- UserController.DeleteUser: JavaScript numbers are modelled as unbounded integers. An `Infinity` id passes zod, finds no row and answers 500, as a missing row does in the model.
- LocalStrategy.Verify: an exception thrown by `bcrypt.compare` itself is not modelled. Only a failed lookup produces `done(e, false, e)`.
- AuthController.Status: the exception is an input. The source gives no place where one arises.
- Console logging.

## Findings

| source | as written | input that shows it | evidently intended | confidence | as-written member | corrected member |
|---|---|---|---|---|---|---|
| src/controllers/eventController.ts:22-33 | the event INSERT names 8 columns and passes 8 parameters but has only 7 `?` placeholders | any valid createEvent body sent by a signed-in user | one placeholder per column, so the host and all seven fields reach their columns | not executed | EventController.InsertEventAsWrittenMismatch | EventController.InsertStatementsMatch |

The rest of the model, `EventController.CreateEvent` included, uses the corrected INSERT.
