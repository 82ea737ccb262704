# Austen Academy contact pipeline and offline cache, in Dafny

This project models three parts of the Austen Academy website and proves properties about them.

**The Express back end** (`backend/server.js`):
- the security helpers `sanitizeInput`, `isValidMoroccanPhone` and `containsSuspiciousContent`;
- `POST /api/contact`, which validates in a fixed order, saves a `pending` record, then sends the notification mail;
- the bearer-token gate `adminAuth`;
- the paginated, newest-first listing `GET /api/admin/contacts`;
- the moderation update `PATCH /api/admin/contacts/:id/status`.

**The browser script** (`script.js`):
- the validators `isValidEmail`, `isValidPhone` and `sanitizeInput`;
- the 30-second throttle `checkRateLimit` over the global `lastSubmission`;
- the submit handler of the contact form, which validates, posts to the form service, then resets the form or reports the failure.

**The service worker** (`sw.js`): the `install`, `activate` and `fetch` handlers over versioned cache buckets.

Files, one module each:
- `js_text.dfy` (`JsText`): the JavaScript string operations the code relies on:
  - the `\s` class;
  - `trim()`;
  - `replace(/\s/g, '')`;
  - `substring(0, n)`;
  - ASCII case folding.
- `phone_grammar.dfy` (`PhoneGrammar`): the Moroccan mobile grammar `^(\+212|0)[567]\d{8}$`.
- `server_validation.dfy` (`ServerValidation`): the server's helpers.
  - The `validator` package is four arbitrary functions (`Validator`).
  - The one law assumed of them is `Lawful`: `escape` removes '<', and `isLength` counts no more than the characters.
- `contact_model.dfy` (`ContactModel`):
  - the record, the status and course enumerations;
  - the handler's validation as `CheckSubmission`;
  - the schema check of `save()`.
- `admin.dfy` (`Admin`):
  - the token gate;
  - `parseInt(...) || d` defaults;
  - the newest-first order;
  - the page window and the page count.
- `contact_store.dfy` (`ContactApi`): the `Contact` collection as a class `ContactStore` holding a map. Its three route handlers are methods.
- `client_validation.dfy` (`ClientValidation`): the browser's validators and the order of the submit handler's checks.
- `client_form.dfy` (`ClientForm`):
  - the throttle as a class `RateLimiter`;
  - the form as a class `ContactForm`.
- `service_worker.dfy` (`ServiceWorker`): `self.caches` as a class `CacheStorage`.
  - It holds bucket names in creation order, a map from bucket name to bucket, and the log of network requests.
  - The three handlers are methods.

Outside effects are parameters:
- whether the database and the mail transport are reachable (`storeUp`, `mailUp`);
- the network's answers (`net`, `reply`);
- the clock (`now`, `meta.now`);
- the `ADMIN_TOKEN` environment variable (`env`).

Where the code and the design intent differ, the model follows the code:
- **Status updates.** Moderation status is meant to move only from `pending` to one of the other three. The `PATCH` handler accepts any of the four names for any record, in any direction, and the model does the same (`ContactApi.ContactStore.UpdateStatus`).
- **The `<script` pattern.** Markup such as `<script>alert(1)</script>` is meant to be refused as suspicious content. The scan, however, runs on the escaped text, where a lawful `escape` has removed every '<'. The `/<script/i` pattern can therefore never fire. `ServerValidation.ScanOfSanitisedText` proves that the verdict rests on the other five patterns.
- **Lookups across buckets.** The fetch handler is meant to look only in the current bucket. `caches.match` searches every bucket in creation order, and only GET requests match. The model does the same (`ServiceWorker.MatchIn`, `ServiceWorker.CacheStorage.Match`).
- **Timing of the cache write.** The response is meant to be stored before it is returned. The code starts `cache.put` without awaiting it; the model performs it atomically.
- **Unused client code.** `checkRateLimit` and the browser's `sanitizeInput` are defined, but no code in `script.js` calls them. The submit handler posts the raw field values. The model keeps both as separate operations and posts the raw values.

## Model

| member | source | states |
|---|---|---|
| JsText.StripWhitespace | backend/server.js:173 | the stripped text has no whitespace, is no longer than the input, and holds only characters of the input |
| JsText.StripFixpoint | backend/server.js:245 | stripping leaves a string unchanged if and only if it has no whitespace |
| JsText.StripIdempotent | backend/server.js:245 | stripping the already stripped phone again changes nothing |
| JsText.StripIgnoresInsertedWhitespace | script.js:352 | whitespace inserted anywhere disappears from the stripped form |
| JsText.TrimShape | backend/server.js:167 | `trim()` returns a contiguous slice of the input: only whitespace is cut on either side, and no whitespace is left at either end |
| JsText.TrimKeepsTrimmed | script.js:365 | a string without whitespace at its ends is its own trimmed form |
| JsText.TrimKeepsLeadingText | backend/server.js:109-114 | text that starts with a non-whitespace character never trims to the empty string, so the schema's `required` holds after its `trim` |
| JsText.ToLowerCase | backend/server.js:119 | the schema's `lowercase` keeps the length and folds each character's case on its own |
| JsText.Take | backend/server.js:168 | `substring(0, n)` is a prefix of the string: the whole string when it has at most n characters, otherwise exactly its first n |
| PhoneGrammar.MobileNumber | backend/server.js:174 | "+212" or "0", then 5, 6 or 7, then eight digits, always matches the mobile pattern |
| PhoneGrammar.MatchesMobileDecomposes | backend/server.js:174 | every match is exactly such a prefix, operator digit and eight-digit subscriber number |
| PhoneGrammar.MobileHasNoWhitespace | backend/server.js:174 | a matching number contains no whitespace |
| ServerValidation.SanitizeInput | backend/server.js:163-169 | a non-string gives ""; otherwise at most 1000 characters that never start with whitespace; with a lawful `escape` no '<' and an `isLength` count of at most 1000 |
| ServerValidation.IsValidMoroccanPhone | backend/server.js:172-175 | the phone with all whitespace removed matches the mobile grammar (definition; see MoroccanPhoneIgnoresWhitespace and StoredPhoneValid) |
| ServerValidation.MoroccanPhoneIgnoresWhitespace | backend/server.js:172-175 | inserting whitespace never changes the verdict |
| ServerValidation.StoredPhoneValid | backend/server.js:245 | the stored, stripped phone passes the check exactly when the raw phone does |
| ServerValidation.ContainsSuspiciousContent | backend/server.js:178-189 | true when any of the six case-insensitive patterns occurs in the text (definition; see SuspiciousInContext and ScanOfSanitisedText) |
| ServerValidation.OccursInContext | backend/server.js:180-185 | a literal case-insensitive pattern found in a text is still found in any text that contains it |
| ServerValidation.SuspiciousInContext | backend/server.js:178-189 | the denylist scan is monotone: flagged text stays flagged inside any larger text |
| ServerValidation.NoScriptWithoutAngle | backend/server.js:180 | `/<script/i` cannot match a text without '<' |
| ServerValidation.ScanOfSanitisedText | backend/server.js:276-277 | on the escaped `name + " " + message` the scan's verdict is exactly that of the five patterns other than `<script` |
| ContactModel.ParseStatus | backend/server.js:430 | the status `enum` test on the request body's value (definition; see ParseStatusInvertsName) |
| ContactModel.ParseStatusInvertsName | backend/server.js:430 | exactly the four status names are accepted, each naming its own status, and no non-string is |
| ContactModel.ParseCourseInvertsName | backend/server.js:132-136 | exactly the seven course names pass the schema's enum, each naming its own course |
| ContactModel.CheckSubmission | backend/server.js:234-281 | the handler's checks in their order, ending in a 400 problem, an exception, or the sanitised data (definition; see MissingFieldComesFirst, RejectionExplained, CrashedExactly, AcceptedSubmissionInvariants) |
| ContactModel.ErrorMessageIdentifiesProblem | backend/server.js:235-281 | the six 400 messages are pairwise different, so the message tells which check failed |
| ContactModel.MissingFieldComesFirst | backend/server.js:235-239 | the missing-field rejection ("Tous les champs sont obligatoires") is returned if and only if some field is empty or missing |
| ContactModel.RejectionExplained | backend/server.js:251-281 | each 400 rejection holds if and only if every earlier check passed (without an exception) and its own failed; the message check fails only for fewer than 10 counted characters |
| ContactModel.CrashedExactly | backend/server.js:242-259 | the handler throws (answering 500 from its catch) exactly when the fields are present and the email or phone is not a string, or the name passes and `normalizeEmail` gave `false` |
| ContactModel.AcceptedSubmissionInvariants | backend/server.js:242-281 | accepted data has a name of 2–100 counted characters, an `isEmail` address, a whitespace-free mobile number, a message of at least 10 characters, name and message starting with a non-whitespace character, no '<', and no denylisted pattern |
| ContactModel.SchemaAccepts | backend/server.js:107-154 | the schema's setters (`trim` on name and message, `lowercase` on email) followed by its validators on the set values (definition; see SchemaGaps) |
| ContactModel.ToRecord | backend/server.js:287-291 | a record is built exactly when the schema accepts the data; it is `pending`, carries the given id and clock reading, names the given course, stores the trimmed name and message, the lowercased email, the phone, the client's IP and User-Agent, and meets the schema's bounds |
| ContactModel.SchemaGaps | backend/server.js:107-154 | given the handler's checks, the schema refuses exactly an unknown course, a name over 100 characters once trimmed, an empty or over-long email, or an email `isEmail` refuses once lowercased |
| ContactModel.SchemaGapsAfterValidation | backend/server.js:107-154 | after validation passes, `save()` still fails exactly for an unknown course or in those name and email corner cases |
| Admin.ConfiguredToken | backend/server.js:385 | a set, non-empty `ADMIN_TOKEN` is the token; an unset or empty one gives the built-in default "admin-token-change-this"; never "" |
| Admin.AdminAuth | backend/server.js:377-392 | the gate: no "Bearer " header gives 401, a wrong token 403 (definition; see AdminAuthTable) |
| Admin.AdminAuthTable | backend/server.js:377-392 | access is granted if and only if the header is "Bearer " plus the token; a missing header or one without the prefix gives 401; any other header gives 403 |
| Admin.OrDefault | backend/server.js:397-398 | a missing or zero parse gives exactly the default (1 for the page, 20 for the limit); any other value is kept; the result is never zero |
| Admin.CeilDiv | backend/server.js:415 | `Math.ceil(total / limit)` is the least c with total <= limit·c (mirrored for a negative limit) |
| Admin.Insert | backend/server.js:402 | insertion keeps the list newest first and adds exactly one element |
| Admin.SortNewestFirst | backend/server.js:402 | the result is ordered by `submittedAt` descending and is a permutation of the input |
| Admin.InCreationOrder | backend/server.js:401 | the collection read out as ids 0..n-1, one record per id |
| Admin.Window | backend/server.js:403-404 | `skip`/`limit` keep `min(limit, total - skip)` records, starting at position `skip` |
| Admin.WindowOfOrdered | backend/server.js:401-405 | a window of a newest-first list is newest first and holds only its elements |
| Admin.DenseExtend | backend/server.js:293 | saving under the next id keeps the ids of the collection exactly 0..n |
| Admin.DenseReplace | backend/server.js:434-438 | updating a stored record under its own id keeps the ids unchanged |
| Admin.OrderedStore | backend/server.js:401-402 | the newest-first order lists every stored record exactly once and nothing else |
| Admin.ListPage | backend/server.js:395-417 | the listing reply: defaults, skip, the newest-first window and the counts, or 500 for an unreachable store or a negative skip (definition; see ListPageShape, ListPageContents, PageOf) |
| Admin.ListPageShape | backend/server.js:397-416 | for a positive page and limit the reply is the window at (page-1)·limit of the ordered collection, with page, limit, total and the page count |
| Admin.ListPageContents | backend/server.js:395-417 | a page holds stored contacts only, newest first, as many as the limit allows after the skip, and `pages` is the least page count that holds `total` |
| Admin.PageOf | backend/server.js:397-415 | every stored contact appears on some page between 1 and `pages` |
| ContactApi.ContactStore.SubmitContact | backend/server.js:226-370 | the first failing check gives a 400 with that check's message and nothing is written or mailed; an exception during validation gives 500 and nothing changes; validated data is handed to the save-then-mail step |
| ContactApi.ContactStore.Saved | backend/server.js:287-351 | the reply and the new state of save-then-mail, case by case (used by SubmitContact and SaveAndNotify) |
| ContactApi.ContactStore.SaveAndNotify | backend/server.js:287-351 | a refused or unreachable save gives 500 and nothing changes; otherwise one `pending` record is added under the next id and the ids stay 0..n; the mail goes out only if the transport is up, and a failed mail still answers 500 while the record stays |
| ContactApi.ContactStore.ListContacts | backend/server.js:395-422 | a refused gate yields its 401 or 403; otherwise the reply is the listing of the current collection |
| ContactApi.ContactStore.UpdateStatus | backend/server.js:425-449 | in order: 401/403, 400 for an unknown status, 500 for a malformed id or an unreachable store, 404 for an unknown id; otherwise only that record's status changes and the updated record is returned |
| ContactApi.SubmitThenEnrol | backend/server.js:226-444 | a valid submission is stored under id 0 as the record the schema builds (trimmed name and message, lower-cased email, `pending`), and the default first page of that one-record collection lists exactly that record; after it is set to `enrolled`, the same page of the updated collection lists exactly the enrolled record, nothing else about it changed |
| ContactApi.SoleRecordListed | backend/server.js:397-405 | the collection holding one record under id 0 is well-formed, and its default first page lists that record alone |
| ContactApi.FirstPageShowsSoleRecord | backend/server.js:397-405 | with one stored record, the default first page (page 1, limit 20) succeeds and lists that record and nothing else |
| ContactApi.ListEnrolList | backend/server.js:395-444 | on a collection holding one pending record, list, update to `enrolled`, list again: the first listing is the default first page of the collection as it was and holds just the stored record; the second is that page of the collection as it ends and holds just the record with only its status changed; the collection ends valid, with that one record replaced (same next id, same mails) |
| ClientValidation.IsValidEmail | script.js:344-347 | the address regex and the 254-character bound (definition; see ValidEmailShape and ShapedEmailValid) |
| ClientValidation.ValidEmailShape | script.js:344-347 | a valid address has at most 254 characters and no whitespace; it has exactly one '@' with something before it, and a '.' after the '@' that is neither first nor last of the part after it |
| ClientValidation.ShapedEmailValid | script.js:344-347 | conversely, every such string of at most 254 characters is valid |
| ClientValidation.IsValidPhone | script.js:349-353 | the phone with whitespace removed matches the mobile grammar (definition; see PhoneIgnoresWhitespace and PhoneAgreesWithServer) |
| ClientValidation.PhoneIgnoresWhitespace | script.js:349-353 | inserting or removing whitespace never changes the phone verdict |
| ClientValidation.PhoneAgreesWithServer | script.js:349-353 | the browser's check and the server's `isValidMoroccanPhone` (backend/server.js:172-174) strip whitespace and test the same regular expression, so both are built on the one mobile grammar; the lemma records that they then accept exactly the same phone numbers |
| ClientValidation.ReplaceAll | script.js:360 | a global replace leaves no occurrence of the character when the replacement has none, and leaves text without it unchanged |
| ClientValidation.ReplaceAllAddsNothing | script.js:360-364 | a replace introduces no character that neither the text nor the replacement had |
| ClientValidation.ReplaceEachRemoves | script.js:360-364 | in a chain of replaces, a character is gone at the end unless its own or a later replacement brings it back |
| ClientValidation.ReplaceEachKeepsUntouched | script.js:360-364 | a chain of replaces leaves text without any of the replaced characters unchanged |
| ClientValidation.EscapeTableOrdered | script.js:360-364 | none of the five entities contains its own character or that of an earlier replace |
| ClientValidation.EscapeMarkupSpec | script.js:359-364 | after the five replaces none of `<`, `>`, `"`, `'`, `/` remains, and text without them is unchanged |
| ClientValidation.SanitizeInput | script.js:355-367 | a non-string gives ""; a string is escaped, trimmed and cut to 1000 characters (definition; see SanitizeInputSafe, SanitizeInputKeepsCleanText, SanitizeInputNotInjective) |
| ClientValidation.SanitizeInputSafe | script.js:355-367 | a non-string gives ""; otherwise the result has at most 1000 characters and none of the five |
| ClientValidation.SanitizeInputKeepsCleanText | script.js:359-366 | text without the five characters, without surrounding whitespace and of at most 1000 characters is returned unchanged |
| ClientValidation.EscapeOfLessThan | script.js:360 | a lone '<' becomes "&lt;" |
| ClientValidation.SanitizeInputNotInjective | script.js:359-364 | '&' is not escaped, so "<" and "&lt;" sanitise to the same text |
| ClientValidation.LocalCheck | script.js:146-159 | the submit handler's three checks in order, each with its message (definition; see LocalCheckOrder) |
| ClientValidation.LocalCheckOrder | script.js:146-159 | a form passes if and only if all fields are filled and the email and phone are valid; otherwise the message names the first failing check |
| ClientForm.RateLimiter.constructor | script.js:370 | `lastSubmission` starts at 0 |
| ClientForm.RateLimiter.CheckRateLimit | script.js:373-380 | fewer than 30 000 ms since the last pass returns false and changes nothing; otherwise it records `now` and returns true |
| ClientForm.Throttle | script.js:370-380 | the calls that pass when `checkRateLimit` is called at each reading in turn (definition; see CallRepeatedly and ThrottleSpacing) |
| ClientForm.ThrottleSpacing | script.js:370-380 | over any series of calls, each pass is at least 30 000 ms after the starting timestamp and after the previous pass, and each is one of the calls |
| ClientForm.ThrottledAdvances | script.js:370-380 | one more call to `checkRateLimit` extends the calls passed so far by the one `Throttle` picks next and leaves the limiter at the last of them |
| ClientForm.CallRepeatedly | script.js:370-380 | calling `checkRateLimit` at each reading in turn lets through exactly the calls `Throttle` picks, each at least 30 000 ms after the previous pass, and leaves `lastSubmission` at the last call that passed (unchanged when none did) |
| ClientForm.ContactForm.Submit | script.js:134-183 | a failed check shows its message and sends nothing; otherwise the raw values are posted once and the button ends enabled whatever the outcome; only an ok response resets the form and shows success, anything else shows the retry message |
| ClientForm.PressSubmit | script.js:146-209 | a form is sent exactly when the three checks pass; the notice names the first failing check, or success versus the retry message |
| ServiceWorker.MatchIn | sw.js:48 | a match is found exactly when some listed bucket holds the URL, and it is that bucket's entry |
| ServiceWorker.MatchInFirst | sw.js:48 | the entry found is the one of the first bucket, in creation order, that holds the URL |
| ServiceWorker.MatchInSingleBucket | sw.js:48-54 | with only the current bucket left, a match is a plain lookup in it |
| ServiceWorker.MatchAfterPut | sw.js:67-70 | after a put, the URL matches, and it matches the new response when no older bucket holds it |
| ServiceWorker.Downloaded | sw.js:22 | `addAll` writes exactly the URLs with a loadable answer |
| ServiceWorker.AddAllStoresEveryUrl | sw.js:16-25 | after a successful `addAll`, every listed URL maps to its download and every other entry is untouched |
| ServiceWorker.Keep | sw.js:34-39 | the surviving names are exactly those not deleted, and no more than before |
| ServiceWorker.KeepConcat | sw.js:34-39 | deleting works piecewise over a concatenation, so the survivors keep their order |
| ServiceWorker.KeepDistinct | sw.js:37 | deleting buckets keeps bucket names distinct |
| ServiceWorker.KeepTwice | sw.js:34-39 | deleting two sets of names one after the other deletes their union |
| ServiceWorker.KeepOnly | sw.js:35 | deleting every name but the current one leaves that name alone, if present |
| ServiceWorker.PrunedToCurrent | sw.js:29-42 | once every other bucket is deleted, only the current bucket remains, with its contents |
| ServiceWorker.CacheStorage.Match | sw.js:48 | non-GET requests never match |
| ServiceWorker.CacheStorage.Open | sw.js:19 | an existing bucket is returned as is; a missing one is created empty and listed last |
| ServiceWorker.CacheStorage.Delete | sw.js:37 | only the named bucket disappears |
| ServiceWorker.CacheStorage.AddAll | sw.js:22 | every URL is requested; the bucket receives all answers when every answer is loadable, and is unchanged otherwise |
| ServiceWorker.CacheStorage.Install | sw.js:16-26 | the current bucket exists afterwards; it receives every asset if and only if every download succeeded; other buckets are untouched |
| ServiceWorker.CacheStorage.PruneStep | sw.js:34-38 | one visited name is deleted from the list and the buckets unless it is the current version, and the loop's state (what is gone, what remains untouched) advances by one name |
| ServiceWorker.CacheStorage.Activate | sw.js:29-43 | only the current bucket survives, with its contents unchanged; no network request is made |
| ServiceWorker.CacheStorage.Fetch | sw.js:46-82 | a cached match is returned with no request and no change; a non-200 or non-basic answer passes through with no change; a 200 basic answer is stored under its URL in the current bucket (GET only) and returned; on network failure a document gets the cached "/index.html" and anything else gets nothing |
| ServiceWorker.OfflineAfterInstall | sw.js:16-79 | after a complete install and activation, an offline navigation to a listed asset gets its cached response, and any other page gets the cached start page |
| ServiceWorker.MatchAfterStore | sw.js:48-70 | when nothing matched a URL, storing a response for it in the current bucket (created if missing) makes the URL match exactly that response |
| ServiceWorker.FetchThenRevisit | sw.js:46-72 | an uncached GET is fetched once and stored in the current bucket (created and listed last when absent, every other bucket unchanged, storage still well-formed); asking again with the network down returns the same response, with no second request |

## Left out

- Input and output: the DOM, notifications, animations, the PWA prompt and the rest of the page code in `script.js`; console logging; the HTML and text of the notification mail; dates and `toLocaleString`. None of these decide any outcome modelled here.
- Express middleware: helmet, cors, sessions, csurf, body parsing and `express-rate-limit`. These are configured libraries whose behaviour is not part of this model. The health route, the 404 and global error handlers, and server start-up and shutdown are also left out.
- Mongoose and nodemailer internals. The store is the map in `ContactStore`. A failed `save()` or `sendMail` is a boolean parameter. The mail itself is recorded as the id appended to `notified`.
- The `validator` package. Its internals are not part of this model. The four functions are arbitrary, and the only law assumed is `Lawful`.
- ContactModel.ToRecord: the schema's `lowercase` folds only the ASCII letters. How `toLowerCase` maps other letters (including mappings that change the length) is not modelled.
- Admin.ListPage: takes the query parameters already parsed. `None` stands for `parseInt`'s `NaN`. The grammar `parseInt` accepts is not modelled.
- Admin.ListPage: computes the page count with exact integer ceiling division instead of floating-point `Math.ceil`. A zero or negative limit's `Infinity`/`NaN` page count cannot arise, because a zero limit falls back to 20. A negative limit is read as its absolute value, as the database driver does.
- Character counts are sequence lengths. JavaScript counts UTF-16 code units, which differs only for characters outside the Basic Multilingual Plane.
- Server-side ids are naturals given out in save order. MongoDB ObjectIds are not modelled, and a malformed id in the path is `None`.
- ContactApi.ContactStore.SubmitContact: `submittedAt` is the request's clock reading. Among records with equal readings the model lists one fixed order; MongoDB's sort leaves that order unspecified.
- ServiceWorker.CacheStorage.Fetch: does not model the `!response` test. A fulfilled `fetch()` always yields a response, so that branch never runs.
- ServiceWorker.CacheStorage.Fetch: the promise and `waitUntil` timing, including the unawaited `cache.put`, is modelled as atomic. The model does not capture a second request arriving before the write lands.
- ServiceWorker.CacheStorage.Match: URLs are compared as exact strings. The URL parsing and fragment stripping of the Fetch standard are not modelled, nor are `Vary` headers.
- `skipWaiting` and `clients.claim` are left out. They change which pages the worker controls, not the cache.
- The service worker's `sync`, `push` and `notificationclick` handlers are not part of this model.
- ClientForm.ContactForm.Submit: the spinner label and the button's disabled state while the request is in flight are not observable in the final state. The model sets and clears the flag around the request; the label is left out.
