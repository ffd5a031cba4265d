# Patient records: a verified model of the request handlers and client stores

This project models the core of a small patient-record application in Dafny:

- the JSON request handlers for patients on the server (`api/views.py`): the
  collection endpoint, which lists and creates patients, and the detail
  endpoint, which reads, replaces and deletes one patient, working on a
  patient table;
- the two client-side stores of the single-page front end: the patient store
  (`frontend/src/stores/patients.ts`) and the session store
  (`frontend/src/stores/auth.ts`), each with its `getCookie` helper, its
  `request` helper that turns a failed response into a thrown error, its
  `setError`, and its actions.

Files and modules:

| file | module | models |
|---|---|---|
| `common.dfy` | `Common` | `Option` (Python's `None`, JavaScript's `null`) |
| `cookie.dfy` | `Cookie` | `getCookie`, with JavaScript's `split` on a string separator |
| `fetch.dfy` | `Fetch` | responses, thrown values, the failure message and `setError`'s text |
| `patients_store.dfy` | `PatientsStore` | the patient store and its list updates |
| `auth_store.dfy` | `AuthStore` | the session store |
| `persistence.dfy` | `Persistence` | the patient record and the table the handlers use |
| `api_views.dfy` | `ApiViews` | body parsing, serialisation and the two handlers |

The handlers change the table step by step, so they are methods on a
`PatientTable` object. The table picks ids itself. It keeps a ghost set of
every id it has handed out, so a new record never gets an id that was used
before, even one that was later deleted. Each store is a class whose fields
are the store's refs. Each action is one method, given the response its
network call received: `Ok(payload)`, `Failed(status, body)` for a non-ok
response, or `NetworkError(message)` when `fetch` itself rejects.

Where the code and the description of the system disagree, the model follows
the code:

- The tests in `api/tests.py` expect a session and, for writes, a CSRF
  token on the patient endpoints: lines 30-33 expect 401 for an anonymous
  list, and lines 94-115 expect 403 for a POST without the token. The
  handlers in `api/views.py` are marked `csrf_exempt` and perform no session
  check. So the model has no 401 or 403 path for them.
- A JSON payload that is not an object (`[1]`, `3`, `"x"`, `true`) is handed
  to `PatientForm`, which reads each field with `data.get(name)`. That raises
  `AttributeError` out of the view, so the model answers 500
  (`ApiViews.Crash`) rather than a validation error.
- Only `JSONDecodeError` is caught while parsing a body. A body that is not
  UTF-8 raises `UnicodeDecodeError` out of the view. The model answers that
  with a 500 (`ApiViews.Crash`), not with the 400 "Invalid JSON payload.".
- A body holding the JSON literal `null` decodes to Python's `None`. The
  handlers cannot tell it from a malformed body, so it gets 400
  "Invalid JSON payload.".
- The method check of `require_http_methods` runs before the record lookup.
  So an unsupported verb on an unknown id gets 405, not 404.

## Model

| member | source | states |
|---|---|---|
| `Cookie.GetCookie` | frontend/src/stores/patients.ts:15-26 | The result never contains `;`. When the marker `"; name="` sits exactly once in `"; " + cookie` (nothing before it, nothing after it), the result is the text after the marker up to the first `;`. Otherwise the result is `''`. |
| `Cookie.SingleCookieRoundTrip` | frontend/src/stores/auth.ts:14-25 | The session store's copy, which has the same text: a cookie string `name=v` with no `;` in `v` gives back `v`. |
| `Cookie.JoinSplit` | frontend/src/stores/patients.ts:17 | `split` loses nothing: joining its pieces with the separator gives back the text. |
| `Cookie.SplitFromPiecesAvoidSeparator` | frontend/src/stores/patients.ts:17 | No piece produced by `split` contains the separator. |
| `Cookie.SplitHasTwoPieces` | frontend/src/stores/patients.ts:17-18 | `parts.length === 2` exactly when the leftmost occurrence of the separator has no further occurrence after it. The second piece is then the text after that occurrence. |
| `Cookie.GetCookieCases` | frontend/src/stores/patients.ts:17-19 | Links the two-piece split to the sole-marker condition, in both directions, and says where the popped piece starts. |
| `Cookie.FirstPieceUpToSemicolon` | frontend/src/stores/patients.ts:23 | `last.split(';').shift()` is the longest `;`-free prefix of `last`. |
| `Cookie.UpToSemicolon` | frontend/src/stores/patients.ts:23 | The independent definition of that prefix: a prefix with no `;` that ends at a `;` or at the end of the text. |
| `Cookie.UpToSemicolonUnique` | frontend/src/stores/patients.ts:23 | Any prefix with those properties is `UpToSemicolon`, so the definition pins the value down. |
| `Fetch.FailureMessage` | frontend/src/stores/patients.ts:32-34 | The message is never empty. It is the body's `error` text when that is a non-empty string, and `'Request failed.'` in every other case: a body that is not JSON, one with no `error`, or one whose `error` is `''`. |
| `PatientsStore.Request` | frontend/src/stores/patients.ts:28-40 | A response resolves exactly when it is ok, and to its payload. A non-ok response throws an `Error` with the failure message and the body. A rejected `fetch` passes its error on. |
| `PatientsStore.ReplaceById` | frontend/src/stores/patients.ts:121 | The length is kept, and each entry is replaced exactly when its id equals the updated record's id. |
| `PatientsStore.RemoveById` | frontend/src/stores/patients.ts:142 | The result is no longer than the list, and holds exactly the list's entries whose id differs. |
| `PatientsStore.ReplaceByIdKeepsIds` | frontend/src/stores/patients.ts:121 | Each position keeps its id after an update. |
| `PatientsStore.ReplaceByIdIdempotent` | frontend/src/stores/patients.ts:121 | Applying the same update twice is the same as applying it once. |
| `PatientsStore.RemoveByIdConcat` | frontend/src/stores/patients.ts:142 | Filtering distributes over concatenation, so the remaining entries keep their relative order. |
| `PatientsStore.RemoveByIdCounts` | frontend/src/stores/patients.ts:142 | Every entry with another id keeps its number of occurrences. Entries with the deleted id occur zero times. |
| `PatientsStore.RemoveByIdAbsent` | frontend/src/stores/patients.ts:142 | A list with no entry of that id is unchanged. |
| `PatientsStore.DeleteUndoesCreate` | frontend/src/stores/patients.ts:101-142 | Deleting the record a create just prepended restores the earlier list, when no other entry has its id. |
| `PatientsStore.Store.constructor` | frontend/src/stores/patients.ts:43-46 | The initial state: empty list, no current patient, not loading, no error. |
| `PatientsStore.Store.SetError` | frontend/src/stores/patients.ts:48-58 | `error` becomes `''` for a falsy value, the message for an `Error`, and `String(err)` otherwise. Nothing else changes. |
| `PatientsStore.Store.FetchPatients` | frontend/src/stores/patients.ts:60-72 | Ends with `loading = false`. Success sets the list to `results`, or to `[]` when `results` is missing, and clears the error. Failure keeps the list and sets the error, which is non-empty for an HTTP failure. `currentPatient` is untouched. |
| `PatientsStore.Store.FetchPatient` | frontend/src/stores/patients.ts:74-87 | Ends with `loading = false`. Success makes the payload `currentPatient` and returns it. Failure keeps `currentPatient`, sets the error and returns null. The list is untouched. |
| `PatientsStore.Store.CreatePatient` | frontend/src/stores/patients.ts:89-107 | Success makes the list `[created] + old` and returns `created`. Failure keeps the list, sets the error and returns null. `loading` and `currentPatient` are untouched. |
| `PatientsStore.Store.UpdatePatient` | frontend/src/stores/patients.ts:109-130 | Success replaces the entries with the updated id in place. It replaces `currentPatient` only when that has the same id, and returns the record. Failure changes nothing but the error and returns null. |
| `PatientsStore.Store.DeletePatient` | frontend/src/stores/patients.ts:132-151 | Returns true exactly on success. Success drops the entries with that id and clears `currentPatient` only when it has that id. Failure changes nothing but the error. |
| `AuthStore.Request` | frontend/src/stores/auth.ts:27-43 | Like the patient store's `request`, and the thrown `Error` also carries the HTTP status. |
| `AuthStore.Store.constructor` | frontend/src/stores/auth.ts:46-50 | Not initialized, not loading, signed out, no user, no error. |
| `AuthStore.Store.SetError` | frontend/src/stores/auth.ts:52-62 | The same mapping as the patient store's `setError`. |
| `AuthStore.Store.ApplySession` | frontend/src/stores/auth.ts:64-67 | Copies `authenticated` and `user` from the payload, and changes nothing else. |
| `AuthStore.Store.ClearSession` | frontend/src/stores/auth.ts:69-72 | Leaves `isAuthenticated = false` and `user = null`, and changes nothing else. |
| `AuthStore.Store.FetchSession` | frontend/src/stores/auth.ts:74-90 | Always ends with `initialized = true` and `loading = false`. Success applies the payload and returns it. Failure clears the session, sets the error and returns null. |
| `AuthStore.Store.Login` | frontend/src/stores/auth.ts:92-115 | Returns true exactly on success and ends with `loading = false`. Success applies the session and sets `initialized`. Failure clears the session, sets the error and leaves `initialized` as it was. |
| `AuthStore.Store.Logout` | frontend/src/stores/auth.ts:117-137 | Returns true exactly on success and ends with `loading = false`. Success clears the session and sets `initialized`. Failure leaves `isAuthenticated`, `user` and `initialized` as they were, and sets the error. |
| `AuthStore.FailureHandlingDiffers` | frontend/src/stores/auth.ts:108-131 | After a successful login, a failed logout keeps the same user signed in. A failed login afterwards leaves nobody signed in. |
| `Persistence.NewPatient` | api/views.py:45-47 | A created record has the form's six fields, the id it was given and the creation time. |
| `Persistence.WithFields` | api/views.py:72-74 | A saved edit replaces all six form fields and keeps the id and the creation time. |
| `Persistence.WithFieldsIdempotent` | api/views.py:72-74 | Saving the same fields twice gives what saving them once does. |
| `Persistence.InsertByDate` | api/views.py:37 | Inserting into a newest-first list keeps it newest first. It adds exactly one occurrence of the new id and no other record. |
| `Persistence.PatientTable.AllNewestFirst` | api/views.py:37 | The listing holds every stored record exactly once (its ids are exactly the stored ids, each once), ordered by `data` from newest to oldest. |
| `Persistence.PatientTable.Insert` | api/views.py:47 | Adds exactly one record, under an id the table has never handed out before. |
| `Persistence.PatientTable.Save` | api/views.py:74 | Replaces the record at its own id and changes nothing else. |
| `Persistence.PatientTable.Delete` | api/views.py:65 | Removes exactly that key and leaves every other record as it was. |
| `ApiViews.ParseJsonBody` | api/views.py:24-30 | An empty body is `{}`. A payload is never null. The result is "no payload" exactly when the body is malformed JSON or the literal `null`. An exception escapes exactly when the body is not UTF-8. |
| `ApiViews.Serialize` | api/views.py:11-21 | Copies `id`, `emri`, `nr_cel`, `email`, `mjeku`, `cmimi` and `sherbimet` unchanged. `data` is null exactly when the record has no timestamp. |
| `ApiViews.SerializeRoundTrip` | api/views.py:11-21 | Serialisation loses nothing: reading the JSON object back gives the record. |
| `ApiViews.SerializeAllRoundTrip` | api/views.py:38 | The same holds for the whole list of results. |
| `ApiViews.PatientsCollection` | api/views.py:33-50 | Only GET and POST are accepted (405 otherwise). GET answers 200 with every record exactly once, newest first, and changes nothing. POST with a malformed body gives 400 "Invalid JSON payload.", and with invalid fields 400 with the errors; neither changes the table. A non-UTF-8 body, or a payload that is not a JSON object, gives 500 and changes nothing. A valid POST adds exactly one record under a never-used id, records that id as used, and answers 201 with it. |
| `ApiViews.PatientDetail` | api/views.py:53-77 | Only GET, PUT and DELETE are accepted (405 otherwise). An unknown id gives 404 "Patient not found." and changes nothing. GET is read-only. DELETE removes exactly that key. PUT with a malformed body or invalid fields gives 400 and changes nothing; a non-UTF-8 body or a payload that is not a JSON object gives 500 and changes nothing. No request changes the set of used ids. A valid PUT replaces the record at the same id and answers 200 with it. |
| `ApiViews.DeleteIsTerminal` | api/views.py:56-66 | After a delete, reading the record and deleting it again both give 404. |
| `ApiViews.CreateThenRead` | api/views.py:41-62 | A created patient reads back with the submitted fields, its id and its creation time. |
| `ApiViews.UpdateTwice` | api/views.py:68-77 | Sending the same valid update twice stores what sending it once does, and both answers are equal. |
| `ApiViews.DeletedIdNotReused` | api/views.py:41-66 | Create a record, delete it, create another: the second record gets a different id, and the deleted one stays gone. |

## Left out

- Form validation: `PatientForm` is not part of this model. Validation is a parameter: given a JSON object payload and the record being edited, it returns cleaned fields or per-field messages. The handlers never hand it anything but an object (see the 500 path above).
- JSON decoding and UTF-8 decoding (`json.loads`, `bytes.decode`): what they make of a non-empty body is an input (`Loads`) bundled with the request.
- Timestamps: the clock is a parameter of the create handler. `datetime.isoformat` is not rendered; the serialised `data` carries the timestamp itself.
- Id assignment: modelled as a counter in the table. The ORM, the SQL database and its `ORDER BY` are not part of this model.
- `Persistence.NewerFirst`: records without a timestamp are placed after all others. Where a database puts NULLs in a descending sort depends on the database, which the code does not configure. Records created through the handlers always have a timestamp.
- Ties in `data`: the model fixes no order among records with equal timestamps, as the ORM query does not either.
- Update keeps `data`: `homepage/models.py` is not part of this model, and the model assumes the field is set only on creation.
- Authentication endpoints (`auth_session`, `auth_login`, `auth_logout`) are routed in `api/urls.py` but defined in code that is not part of this model.
- Browser and network I/O: `fetch`, `response.json()`, reading `document.cookie`, `JSON.stringify`. The response is an input of each action, and the cookie text is an input of `GetCookie`.
- Request contents sent by the stores: the URL built from an id, the request body, and the `X-CSRFToken` header (`getCookie('csrftoken')`). They do not change store state. So `PatientsStore.Store.UpdatePatient` takes no id, and `AuthStore.Store.Login` takes no credentials.
- An ok response whose body is not JSON: `request` then resolves to null. `fetchPatient` and `createPatient` would store that null. `fetchPatients` (reading `data.results`), `fetchSession` and `login` (`applySession(null)` reading `payload.authenticated`) and `updatePatient` on a non-empty list (reading `updated.id`) would instead throw a `TypeError` inside their `try`, so the error is set, the list is kept, and the session store clears the session. Payloads are modelled as well-formed records, so none of these paths is modelled.
- `Fetch.FailureMessage`: a non-string `error` field in a failure body is not modelled. Only string or absent `error` fields are.
- Asynchrony: each action is one atomic step. The intermediate `loading = true` and races between concurrent actions are not observable in the model.
- `PatientsStore.Store.DeletePatient`: ids are integers. The source also accepts a string id, and `!==` then matches no entry, so nothing is removed from the list. That case is not modelled.
- `PatientsStore.Store.SetError`, `AuthStore.Store.SetError`: `String(err)` for a truthy non-`Error` value is given as its text, not computed.
