# A Dafny model of the Flask PDF-assistant backend

The backend has two parts. The first is a user registry: a `users` table behind register, login,
password update, password reset, self-delete and admin endpoints. The second is a thin proxy to a
remote "assistants" service that answers questions about uploaded PDFs. This project models the
deterministic logic of both as pure Dafny functions and proves what the handlers promise:

- the error catalog and the response builders;
- the `User` record, its uniqueness constraints and its hashing contract;
- the registration schema;
- each user, auth and admin handler, as a transition `(table, request, claims) -> (response, table')`;
- the assistant handlers' decision trees and their footnote and citation rewriting;
- the JSON-fence trimming of the standalone assistant script.

Modules, one per file:

| module | file | models |
|---|---|---|
| `Wrappers` | wrappers.dfy | `Option` and `Result` |
| `Text` | text.dfy | the Python string operations used: `lower`, `str(n)`, `find`/`rfind`, slices, `replace`; `split`/`join` only as a cross-check of `replace` |
| `Lists` | lists.dfy | first-match search in a sequence |
| `Json` | json.dfy | JSON values; a signed JWT is kept as the claims it carries |
| `Errors` | errors.dfy | `src/api/errors.py` |
| `Responses` | responses.dfy | `src/api/utils/response_builder.py` |
| `UserModel` | user_model.dfy | `src/data/user_model.py` |
| `Registration` | registration.dfy | `src/api/schema/registration_schema.py` |
| `Requests` | requests.dfy | what the user-facing handlers share |
| `UserApi` | user_api.dfy | `src/api/user.py` |
| `AuthApi` | auth_api.dfy | `src/api/auth.py` |
| `AdminApi` | admin_api.dfy | `src/api/admin.py` and the `UserSchema` projection |
| `Assistant` | assistant.dfy | `src/api/assistant.py` |
| `Fence` | fence.dfy | `src/another_pdf_assistant.py`, lines 73-79 |

Modelling choices:

- **The users table.** It is a sequence of rows in insertion order plus the next autoincrement id. This
  makes SQL `first()` the first matching row. `Valid` states the table's constraints: unique ids,
  usernames and emails; column widths of 80 and 120; ids below the counter.
- **Writes.** `Insert`, `Update` and `Delete` refuse exactly what the database would refuse, and every
  handler is proved to keep `Valid`.
- **Hashing.** The salted hash is a concrete stand-in in werkzeug's `method$salt$digest` format. The salt
  is an input. The only fact the handlers rely on is `CheckGeneratedHash`: the check accepts the
  password that was hashed. `SetPassword` stores exactly the generated hash.
- **Uncaught exceptions.** These reach the client as Flask's 500 page and are modelled as `Abort(500)`.
  Examples: a `KeyError` on `data['x']`, hashing a non-string, an `IntegrityError` outside a `try`.
  Inside `ask`, the `try` turns every exception into `unhandled_exception` instead.
- **Remote services.** The assistants service, the mail relay and the token serializer are never
  called. What they answer is an input. What a handler asks of them is part of its output:
  - the created assistant;
  - the stored file;
  - the address mailed;
  - the ordered list of remote requests in `ask`.

In three places the model follows the code where a reader may expect otherwise:

- `ask` with an unknown assistant name does not answer `assistant_not_found`. The thread and the
  question are created first. Reading `.id` of `None` then raises, and the answer is a 500
  `unhandled_exception`. See `Assistant.UnknownAssistantAfterThreadCreated`.
- The admin listing includes each row's password hash. It is recorded under Findings.
- The legacy register in `src/api/auth.py` answers a creation with status 400. It is also recorded
  under Findings.

## Model

| member | source | states |
|---|---|---|
| Errors.GetErrorInstanceLogged | src/api/errors.py:13-38 | a lookup yields a value exactly when the key is in the class's own table, and then that table's entry; the log line names the class, mentions the exception exactly when one is given and non-empty, and reports a failure exactly for unknown keys |
| Errors.KnownKeyYieldsEntry | src/api/errors.py:29-38 | a registered key returns exactly its (message, code) pair, whatever exception text is passed |
| Errors.ExceptionOnlyAffectsLog | src/api/errors.py:13-24 | the value returned is the same with any exception text or with none |
| Errors.UnknownKeyYieldsNone | src/api/errors.py:112-115 | the key `'Not found'` is in no table, and every class returns `None` for it |
| Errors.TableKeysAreDeclared | src/api/errors.py:47-109 | each class's table holds exactly the keys the class declares as constants |
| Errors.TablesDisjoint | src/api/errors.py:47-109 | no key is registered in two classes |
| Errors.LookupIsPerClass | src/api/errors.py:38 | a key registered only in another class's table returns `None`, e.g. `CLIENT_RUN_FAIL` through `AuthenticationErrors` |
| Errors.CodesAreLowercaseKeys | src/api/errors.py:57-109 | every code in every table is the lower-case spelling of its key |
| Responses.ErrorResponse | src/api/utils/response_builder.py:5-21 | the body has exactly the fields `message` and `error`, holding the arguments; the status is the one given |
| Responses.SuccessResponse | src/api/utils/response_builder.py:23-37 | the body's keys are `message` plus the keys of `data`; every `data` entry appears unchanged; `message` holds the argument unless `data` overrides it; the status is the one given |
| Responses.DefaultStatuses | src/api/utils/response_builder.py:5-23 | without a status argument an error response is 400 and a success response is 200 |
| Responses.SuccessWithoutData | src/api/utils/response_builder.py:34-36 | with `data` absent or empty the body is exactly `{message}` |
| Responses.DataMessageWins | src/api/utils/response_builder.py:34-36 | a `message` key in `data` replaces the message argument |
| Responses.CatalogError | src/api/user.py:28-29 | `error_response(*get_error_instance(key))`: a registered key gives an error body with that entry's message and code; an unknown key raises on `None[0]` and yields a 500 |
| Responses.CatalogCode | src/api/user.py:47-48 | as `CatalogError` but with a message of the handler's own and the catalog's code |
| UserModel.CheckGeneratedHash | src/data/user_model.py:19-23 | checking a password against the hash generated from it succeeds |
| UserModel.SetPassword | src/data/user_model.py:19-20 | only the stored password changes; it becomes the hash generated from the new password and salt, so `check_password` accepts the new password |
| UserModel.ValidatePassword | src/data/user_model.py:29-32 | every value is accepted |
| UserModel.GetUserByUsername | src/data/user_model.py:25-27 | returns the first row with that username, or `None` exactly when no row has it |
| UserModel.GetUserByEmail | src/data/user_model.py:34-36 | returns the first row with that email, or `None` exactly when no row has it |
| UserModel.UsernameLookupIsUnique | src/data/user_model.py:11 | in a valid table the lookup by a row's username returns that very row |
| UserModel.Insert | src/data/user_model.py:44-46 | `save()` of a new row succeeds exactly when the username and email are unused and fit their columns; it appends exactly one row with the next id and keeps the table valid; otherwise it fails with an integrity error |
| UserModel.Update | src/data/user_model.py:44-46 | `save()` of a loaded row replaces the row with its id in place, leaves every other row and the length unchanged, and keeps the table valid; it succeeds whenever the keys are unchanged |
| UserModel.Delete | src/data/user_model.py:40-42 | removes exactly the rows with that id, keeps every other row, the id counter and validity |
| UserModel.WithoutKeepsValid | src/data/user_model.py:40-42 | removing rows from a valid table leaves it valid |
| Registration.Messages | src/api/schema/registration_schema.py:5-14 | a key appears in the error map exactly when it is declared or present and has a complaint, and it maps to that key's list of complaints, in order |
| Registration.Load | src/api/schema/registration_schema.py:5-14 | loading succeeds exactly when the four declared fields are strings, the email passes the format check, the sudo password equals the configured one and no unknown field is present; it then returns those strings; otherwise the error is the non-empty map of every field's complaints |
| Registration.WrongSudoPasswordRejected | src/api/schema/registration_schema.py:11-14 | any sudo password other than the configured one fails with `Sudo password is incorrect` under `sudoPassword` |
| Registration.MissingFieldRejected | src/api/schema/registration_schema.py:6-9 | each absent required field fails with `Missing data for required field.` under its name |
| Registration.NullFieldRejected | src/api/schema/registration_schema.py:6-9 | each required field given as `null` fails with `Field may not be null.` under its name |
| Registration.NonStringFieldRejected | src/api/schema/registration_schema.py:6-9 | a `username`, `password` or `sudoPassword` that is neither a string nor `null` fails with `Not a valid string.` |
| Registration.NonStringEmailRejected | src/api/schema/registration_schema.py:7 | an `email` that is neither a string nor `null` fails with `Not a valid email address.` |
| Registration.MalformedEmailRejected | src/api/schema/registration_schema.py:7 | an `email` string that fails the format check fails with `Not a valid email address.` |
| Registration.UnknownFieldRejected | src/api/schema/registration_schema.py:5-9 | a key the schema does not declare fails with `Unknown field.` under that key |
| Requests.UserByUsername | src/api/user.py:54-56 | a value from a body or claims finds a row only when it is the string equal to that row's username |
| Requests.UserByEmail | src/api/user.py:128-132 | a value from a body or token finds a row only when it is the string equal to that row's email |
| Requests.UserView | src/api/user.py:67-71 | the user object has exactly `id`, `username` and `email`, with the row's values |
| Requests.RowIsUniqueByKey | src/data/user_model.py:10-12 | in a valid table a row is the only one with its id and the only one with its username |
| Requests.LoginBody | src/api/user.py:61-72 | a login body has exactly `message`, `tokens` and `user`; both tokens name the given identity, and the access token has the given lifetime |
| Requests.LoginBodyHidesPassword | src/api/user.py:67-71 | neither the login body nor its user object has a `password` field; the same body serves src/api/auth.py:41-45 |
| UserApi.Register | src/api/user.py:15-21 | a body the schema rejects gets 400 `bad_request_body_not_valid` with the schema's messages as `message`, and the table is unchanged |
| UserApi.Admit | src/api/user.py:23-49 | a taken username is refused first, then a taken email, each with its own 400 code and no write; a table change happens only after both checks pass and adds exactly one row with the given username and email whose hash accepts the password, with 200 `User created successfully!`; a row the columns cannot hold is a 500 `internal_server_error` with no write; validity is kept |
| UserApi.Login | src/api/user.py:51-72 | a rejected login gets `login_failed`; an accepted one gets tokens naming the username, an access token living 7 days, and the user view; a missing or non-string password for an existing user raises |
| UserApi.LoginFailuresIdentical | src/api/user.py:56-59 | an unknown username and a wrong password give the identical response |
| UserApi.LoginAccepts | src/api/user.py:56-72 | correct credentials for a listed row produce the success body for that row |
| UserApi.SavePassword | src/api/user.py:104-107 | in a valid table, setting and saving a row's password changes only that row's hash, so it accepts the new password, and answers 200 with the given message |
| UserApi.UpdatePassword | src/api/user.py:74-107 | a missing or falsy new password is `bad_request_body_not_found`, checked before the caller's identity; an unknown token subject is `invalid_user`; a truthy non-string raises; otherwise only the subject's hash changes; no other path writes |
| UserApi.DeleteUser | src/api/user.py:109-124 | an unknown token subject is `invalid_user` with no write; otherwise exactly the subject's row goes, every other row stays, and the answer is 200 |
| UserApi.RequestPasswordReset | src/api/user.py:127-163 | a reset mail goes out exactly when the email is truthy and names a row; otherwise the answer is 404 `invalid_user` with `User email not found`; a relay failure is a 500 |
| UserApi.ResetPassword | src/api/user.py:165-193 | a token that fails to load or is older than 3600 s is 400 `invalid_token`; an unknown email is 404 `invalid_user`; then a missing password raises, a falsy one is `bad_request_body_not_found`, a non-string raises, and otherwise only that row's hash changes |
| UserApi.RegisterThenLogin | src/api/user.py:41-72 | registering and then logging in with the same credentials succeeds for the new row |
| UserApi.RegisterTwiceRejected | src/api/user.py:27-29 | a second registration with the same body is refused as `username_already_taken` and writes nothing |
| UserApi.UpdatePasswordThenLogin | src/api/user.py:104-107 | after a password update, logging in with the new password succeeds |
| AuthApi.RegisterAnswering | src/api/auth.py:9-25 | a missing username raises; a taken username gets 400 `Username already taken!` with no write; there is no email pre-check, so a free username goes on to the write, which succeeds exactly when all three fields are strings, the email is unused and the values fit; any other case raises; a write adds exactly one row |
| AuthApi.Register | src/api/auth.py:23-25 | every reply, including a creation, has status 400 |
| AuthApi.RegisterCorrected | src/api/auth.py:23-25 | with the success status set to 200, a 200 reply is given exactly when a row was written |
| AuthApi.Login | src/api/auth.py:27-46 | an unknown username and a wrong password get the same 400 `Invalid credentials!`; success names the row's id in both tokens; a missing username, or a missing or non-string password for an existing user, raises |
| AuthApi.RegisterThenLogin | src/api/auth.py:20-39 | logging in with the credentials a registration stored succeeds, and the tokens name the new row's id |
| AdminApi.AdminDelete | src/api/admin.py:21-36 | a role other than `admin` is 403 `auth_required` with no write; an unknown username is 404 `bad_request_body_not_valid` with no write; otherwise exactly the named row goes, every other row stays, and the answer is 200 |
| AdminApi.ArgOr | src/api/admin.py:52-53 | an argument that is absent or not an integer takes the default |
| AdminApi.Window | src/api/admin.py:54 | a page holds at most `per_page` rows, and they are the table's rows from offset `(page-1)*per_page`, in order |
| AdminApi.Page | src/api/admin.py:52-54 | the listed rows are the window of the defaulted arguments; a page or page size below 1, or an empty page past the first, lists nothing |
| AdminApi.Dump | src/api/schema/user_schema.py:3-7 | a dumped row has exactly `id` (as a string), `username`, `email` and `password` |
| AdminApi.DumpedIdsDistinct | src/api/schema/user_schema.py:4 | in a valid table, distinct rows are dumped with distinct `id` strings |
| AdminApi.ListUsers | src/api/admin.py:38-58 | a non-admin is 403 `auth_required`; otherwise the answer is a 404 where the paginator refuses the page, or 200 with `users` holding the page's rows through the projection |
| AdminApi.GetAll | src/api/admin.py:56-58 | every listed entry has a `password` field |
| AdminApi.GetAllRedacted | src/api/admin.py:56-58 | the same entries as `GetAll`, each without its `password` field |
| AdminApi.DefaultsAreFirstPageOfThree | src/api/admin.py:52-53 | absent or unparsable arguments list the same page as page 1 of size 3 |
| AdminApi.RowOnItsPage | src/api/admin.py:52-58 | every row is listed at position `i % per_page` of page `i / per_page + 1` |
| AdminApi.GetAllListsHashes | src/api/admin.py:56 | with default arguments, an admin listing of a non-empty table shows the first row's password hash |
| Assistant.AllowedFileIff | src/api/assistant.py:249-250 | a file name is allowed exactly when it ends in a dot followed by three characters that lower-case to `pdf` |
| Assistant.GetAssistantInstance | src/api/assistant.py:244-247 | returns the first listed assistant with an equal name, or `None` exactly when none has it |
| Assistant.ListedAssistantIsFound | src/api/assistant.py:244-247 | an assistant with a fresh name is found by the lookup once it is listed |
| Assistant.GetAssistants | src/api/assistant.py:30-37 | the body holds exactly `assistants`, the listed names in order, with status 200 |
| Assistant.GetAssistantInfo | src/api/assistant.py:39-54 | an unknown name is 400 `assistant_not_found`; a known one returns that assistant's dictionary with 200 |
| Assistant.CreateAssistant | src/api/assistant.py:56-83 | a creation is requested exactly when the name is not listed, with the fixed model and the file-search tool, and answered 201; a listed name is answered 400 |
| Assistant.CreateTwiceRefused | src/api/assistant.py:69 | once a created assistant is listed, creating the same name again is refused |
| Assistant.AddPdf | src/api/assistant.py:85-162 | the checks run in order: assistant found, file part present and truthy, extension allowed; each failure is a 400 with its code and stores nothing; a file is stored, under the sanitised name and for the found assistant, exactly when every check passes and the name is a string |
| Assistant.FootnoteOfAbsentText | src/api/assistant.py:221-223 | an annotation whose text no longer occurs leaves the footnoted text unchanged |
| Text.ReplaceIsSplitJoin | src/api/assistant.py:223 | the model of `str.replace` agrees, for every string and every non-empty target, with Python's documented identity `s.replace(t, r) == r.join(s.split(t))`, an independent definition by splitting and joining |
| Assistant.LaterAnnotationRewritesMarker | src/api/assistant.py:221-223 | replacement is sequential on the already rewritten text, so a later annotation can rewrite an earlier footnote marker |
| Assistant.CitedIndices | src/api/assistant.py:221-227 | the indices of file-citing annotations, strictly increasing, containing an index exactly when that annotation cites a file |
| Assistant.Citations | src/api/assistant.py:224-227 | the list exists exactly when every cited file is known; line `k` is `[i] from <filename>` for the `k`-th citing annotation `i` |
| Assistant.Annotate | src/api/assistant.py:219-227 | the handler's loop computes exactly the reference footnoted text and citation list, stopping at an unknown file |
| Assistant.CitationNumbersSkip | src/api/assistant.py:225-227 | citation numbers are annotation indices, so they skip annotations that cite nothing |
| Assistant.FileLookups | src/api/assistant.py:224-226 | when every cited file is known, one lookup per citing annotation, of that annotation's file id, in order; otherwise the lookups stop at the first unknown id, after known ones only |
| Assistant.Answer | src/api/assistant.py:216-234 | from a text block, the answer is 200 with exactly `response` (the footnoted text) and `citations`, exactly when every cited file is known; one file lookup per citing annotation up to the first unknown one |
| Assistant.ReadAnswer | src/api/assistant.py:211-234 | once the run completed, the messages are listed next; a missing message, first block or text raises, as `unhandled_exception`; otherwise the answer is 200 exactly when every cited file is known, and then it is the footnoted text with its citations |
| Assistant.AfterRun | src/api/assistant.py:196-234 | a failed run is fetched again and its error detail logged; a missing error raises; a run that did not complete is 500 `client_run_fail`; a 200 is given exactly when the run completed, the newest message starts with text and every cited file is known |
| Assistant.Ask | src/api/assistant.py:164-241 | every request opens a thread, posts the question and lists assistants first; an unknown assistant stops there with 500 `unhandled_exception`; a known one is polled, each request with a 60 s timeout |
| Assistant.FailureDetailNotReturned | src/api/assistant.py:197-209 | the response does not depend on a failed run's error detail, which is only logged |
| Assistant.UnknownAssistantAfterThreadCreated | src/api/assistant.py:180-194 | with an unlisted assistant name, the thread and message are created and the answer is 500 `unhandled_exception`, not `assistant_not_found` |
| Fence.DropOpening | src/another_pdf_assistant.py:73-74 | a leading ```` ```json ```` loses exactly six characters, leaving its `n`; other text is unchanged |
| Fence.DropClosing | src/another_pdf_assistant.py:75-76 | a trailing ```` ``` ```` loses exactly three characters; other text is unchanged |
| Fence.CutAfterLastBrace | src/another_pdf_assistant.py:77 | with no `}` the result is empty; otherwise it is the prefix ending at the last `}`, and no `}` is cut off |
| Fence.CutBeforeFirstBrace | src/another_pdf_assistant.py:78 | with no `{` only the last character survives; otherwise it is the suffix from the first `{` |
| Fence.NoClosingBraceGivesEmpty | src/another_pdf_assistant.py:77 | with no `}` between the fences nothing remains |
| Fence.NoOpeningBraceGivesBrace | src/another_pdf_assistant.py:77-78 | with a `}` but no `{` before it, exactly `}` remains |
| Fence.BracedTextIsKept | src/another_pdf_assistant.py:77-78 | when a `{` precedes the last `}`, the result runs from the first `{` to the last `}`, both included |
| Fence.BareFenceGivesEmpty | src/another_pdf_assistant.py:73-78 | a bare ```` ```json ```` fence is cut to `n` and then to nothing |

## Findings

| source | as written | input that shows it | evidently intended | confidence | as-written member | corrected member |
|---|---|---|---|---|---|---|
| src/api/admin.py:56 | rows are dumped with `UserSchema`, whose `password` field is not load-only, so each row's password hash is listed | an admin `get-all` on a table with one row, default arguments | the listing leaves the hash out, as the login views already do (src/api/user.py:67-71, src/api/auth.py:42-44) | medium, not executed | AdminApi.GetAllListsHashes | AdminApi.GetAllRedacted |
| src/api/auth.py:23-25 | a created account is answered `User created successfully!` with status 400 | any registration with a fresh username, an unused email and string fields | a success status, so that the status tells creation from refusal | high, not executed | AuthApi.Register | AuthApi.RegisterCorrected |

## Left out

- The HTTP layer is not modelled: routing, `request.get_json()` failing, bodies that are not JSON objects, CORS, and the `before_request` hook's logging.
- Logging is not modelled except where it shows that a value does not reach the response: the error catalog's log line and the run-failure detail in `ask`.
- JWT signing and verification, and `@jwt_required`, are not modelled: claims arrive as a JSON object. Which role a token carries is decided outside the code shown.
- On the assistant routes, `@jwt_required()` sits above the route decorator, so the routes are registered without it. No authentication is modelled there.
- The itsdangerous serializer is not modelled: a reset token is either a bad signature or a signed email with its age. The expiry bound (3600 s, expired when older) is modelled.
- `request_password_reset` does not model the mail relay's URL, payload or headers. Only its HTTP status is an input.
- Werkzeug's scrypt hashing is replaced by a stand-in with the same format and the same check property. Stored hashes are assumed to come from `GeneratePasswordHash`. A malformed stored hash makes werkzeug return false before it looks at the password; the model does not cover that case.
- UserModel.SetPassword: the stand-in hash is a 32-bit checksum, so it does not promise that the stored value reveals nothing about the password, as scrypt does.
- UserModel.Insert: the `password` column's `String(256)` width is not part of `Fits`. Hashes are always written through `SetPassword`, and a scrypt hash fits that width.
- UserModel.Insert: ids come from a counter that never goes back, so a deleted id is never reused. Whether an engine reuses the id of a deleted last row depends on the engine, and tokens from src/api/auth.py carry `user.id`.
- UserModel.Insert: the 80 and 120 character column widths are enforced as a strict database engine would enforce them. An engine that does not enforce `VARCHAR` widths would accept longer values.
- JSON numbers are integers only; floats in request bodies are not modelled.
- Lookups with a non-string value (`filter_by(username=5)`) are modelled as matching no row. Type coercion by the database engine is not modelled.
- AuthApi.RegisterAnswering: a non-string username or email is modelled as raising. Storing a coerced value is not modelled.
- Only ASCII letters are lower-cased. This is enough for every key, code and extension compared.
- Marshmallow's email validator is the `isEmail` parameter of the schema configuration. `secure_filename` is the `secure` parameter of `AddPdf`.
- AdminApi.Page: pagination follows Flask-SQLAlchemy's documented rules, because that library is not visible here. It assumes the table's insertion order, since no `order_by` is given, and no `max_per_page` cap.
- The assistants service is not called. Failures of its calls, other than an unknown file id during citation, are not modelled.
- `add_pdf` does not model the vector store, the directory listing, the re-upload of every file in the folder, or its unlocked concurrent access. Only what is stored, and for which assistant, is modelled.
- `ask` does not model the content of the posted question. A `None` question is passed on as is.
- The race between the registration pre-checks and the database's unique constraints needs concurrency and is not modelled.
- No lemma states that each key constant's value equals its own name. Dafny has no reflection on constant names. The constants of `Errors` are written with values equal to their names.
- The discarded `strip()` at line 79 of `src/another_pdf_assistant.py` has no step in `Fence.TrimFence`, because it does not change the value.
- Five files are not part of this model:
  - `src/pdf_assistant.py`: a network polling loop that never ends if a run never completes;
  - `src/main.py`: an interactive command-line loop;
  - `src/scripts/another_pdf_assistant.py`, `src/api/ai_pdf_assistant.py` and `src/api/users.py`: network-only or duplicate code.
- Outside the trimming block, the script in `src/another_pdf_assistant.py` is not modelled.
