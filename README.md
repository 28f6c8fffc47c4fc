# Email assistant: a Dafny model of its rules

The email assistant is a Next.js application. A user pastes an email and gives an
instruction. Optionally they also give some context and pick a stored client. A route then
asks a hosted language model to redraft the email, pitched at the client's technical level,
and the page shows the streamed answer as it arrives. A password-protected admin page keeps
the list of clients in a MySQL table.

This project models the rules inside that glue:

- **The redraft route** validates the request. It picks one of three guidance sentences from
  the client's technical level, and it assembles the system prompt and the user message.
- **The login and verify routes** handle the session. Login issues a token: the base64
  encoding of the UTF-8 bytes of `username:epochMillis`. It sets this token as the
  `admin-session` cookie. Verify decodes the token, splits it on `:` and reads the timestamp
  with `parseInt`. It accepts the token within a 24-hour window and deletes it after that.
- **The client store** is the `clients` table, held as a map from id to row. It offers a
  name-ordered listing, lookup by id, insert, a delete that does not fail on a missing id, and
  an update whose SET list is built one field at a time from a partial patch.
- **The clients route** validates a POST body, fills in the defaults and stores the record. Its
  GET returns the listing.
- **The review page's stream reader** splits each chunk on line feeds and keeps only `0:` lines.
  It decodes each kept line's payload as a JSON string (section 7 of RFC 8259), falling back to
  quote stripping. It accumulates the text, and every failure ends as an `Error: ...` message.
- **The admin page's state** holds the client list, the edit form, the editing flag and the
  submission flag. Its handlers transform that state; its level label and colour classify a
  level.

Supporting modules:

- `Text` models the JavaScript string operations the code uses (`trim`, `split`, `startsWith`).
- `Utf8` models `Buffer.from(text)` and `toString()`, using the WHATWG decoder.
- `Base64` models the padded alphabet of section 4 of RFC 4648, and Node's lenient decoder.
- `JsNumber` models `parseInt` as section 19.2.5 of ECMA-262 defines it.
- `Json` models `JSON.parse` as a recogniser for RFC 8259 that returns the decoded text of a
  string value.
- `Cookies` models the cookie jar, a class over a map.

Wall-clock time and the outcome of every database call and `fetch` are parameters: `now`,
`dbOk`, and reply datatypes.

## Model

| member | source | states |
|---|---|---|
| ReviewEmailRoute.Handle | app/api/review-email/route.ts:17-25 | A blank or missing email is rejected with 400 "No email content provided", exactly when that is the case. A non-blank email with a blank or missing prompt gets 400 "No prompt provided", so the email check wins when both are blank. The request reaches the model call exactly when both are non-blank. |
| ReviewEmailRoute.TechnicalContextTier | app/api/review-email/route.ts:28-38 | For a client, the beginner sentence is chosen iff the level is at most 2, the intermediate one iff it is 3 or 4, and the advanced one otherwise. A missing level gives the advanced one. The chosen sentence contains the client's name. |
| ReviewEmailRoute.SystemPromptLayout | app/api/review-email/route.ts:40-53 | The system prompt starts with the fixed role statement. It contains "Context: " followed by the context, or by "General business correspondence" when the context is empty or missing. It contains "User Instructions: " followed by the prompt verbatim. |
| ReviewEmailRoute.LevelLineIffClient | app/api/review-email/route.ts:28-29 | When the context and the prompt do not themselves contain it, the marker `Recipient Technical Level: ` (with its trailing space) occurs in the system prompt iff a client was sent. |
| ReviewEmailRoute.MarkerAbsent | app/api/review-email/route.ts:28-44 | With no client the level line is empty. The marker then does not occur in the system prompt, provided the context and the prompt lack it. |
| ReviewEmailRoute.MarkerPresent | app/api/review-email/route.ts:44 | With a client, the system prompt contains the marker followed by the tier sentence. |
| ReviewEmailRoute.UserMessageFencesEmail | app/api/review-email/route.ts:63-70 | The user message contains the email verbatim, between a `"""` line before it and a `"""` line after it. |
| ReviewPage.LevelTextTier | app/page.tsx:141-145 | The review page's level label is Beginner iff the level is at most 2, Intermediate iff it is 3 or 4, and Advanced otherwise. |
| ReviewPage.LevelTextMatchesRoute | app/page.tsx:141-145 | For any client, the page's label tier and the route's guidance sentence tier agree. |
| Text.BlankIffTrimEmpty | app/api/review-email/route.ts:17 | `s.trim()` is empty, so `!s.trim()` holds, iff every character of `s` is JavaScript whitespace. |
| Text.Split | app/page.tsx:100 | `split` gives at least one part, and no part contains the separator. |
| Text.JoinSplit | app/page.tsx:100 | Splitting on a character and joining the parts with it gives back the text. |
| Utf8.DecodeEncode | app/api/auth/verify/route.ts:16 | Decoding the UTF-8 encoding of any text gives the text back. |
| Base64.Encode | app/api/auth/login/route.ts:21 | The encoding of n bytes has 4·⌈n/3⌉ characters. |
| Base64.DecodeEncode | app/api/auth/verify/route.ts:16 | Node's lenient decoder reads back exactly the bytes the encoder wrote. |
| Base64.EncodeAlphabet | app/api/auth/login/route.ts:21 | The encoder writes only alphabet characters and `=`. |
| JsNumber.ParseIntDecimal | app/api/auth/verify/route.ts:18 | `parseInt` of the decimal digits of n is n. This also holds when the digits are followed by text that begins with neither a digit nor a letter. |
| JsNumber.ParseIntUndefined | app/api/auth/verify/route.ts:17-18 | A missing timestamp segment becomes `parseInt(undefined)`, which is NaN. |
| Cookies.CookieJar.Get | app/api/auth/verify/route.ts:7 | Returns a cookie iff one of that name is in the jar, and then that cookie. |
| LoginRoute.AdminCredentials | app/api/auth/login/route.ts:5-8 | An unset or empty variable gives "admin" or "admin123". A non-empty one is used as is. Neither credential is ever empty. |
| LoginRoute.SessionCookieFor | app/api/auth/login/route.ts:25-31 | The cookie holds the token. It is HTTP-only, same-site strict, for path "/", and lasts 24 hours. It is secure iff in production. |
| LoginRoute.Post | app/api/auth/login/route.ts:10-41 | A body that is not JSON gives 500. A falsy username or password gives 400. Success happens iff both are strings equal to the configured pair; it sets the `admin-session` cookie to the token of `username:now`. Any other pair gives 401. The jar changes only on success. |
| VerifyRoute.Get | app/api/auth/verify/route.ts:5-36 | No cookie gives 401 and leaves the jar unchanged. An expired token gives 401 and deletes the cookie. Any other token authenticates as the first `:` segment and leaves the jar unchanged. |
| VerifyRoute.DecodeToken | app/api/auth/verify/route.ts:16 | Decoding a token gives back the text that was encoded. |
| VerifyRoute.ReadSessionToken | app/api/auth/verify/route.ts:16-18 | A login token for a username without `:` reads back as that username and its issue time. |
| VerifyRoute.SessionTokenRoundTrip | app/api/auth/verify/route.ts:16-27 | A token issued at t is accepted at `now` iff `now - t` is at most 86,400,000 ms. A future t is accepted. The username is read back unchanged. |
| VerifyRoute.TokenWithoutTimestamp | app/api/auth/verify/route.ts:18-27 | A token with no `:` has a NaN timestamp. It never expires. |
| VerifyRoute.CookieLifetimeMatchesWindow | app/api/auth/verify/route.ts:19 | The cookie's max age in seconds, times 1000, is the verify window in milliseconds. |
| SessionFlow.LoginThenVerify | app/api/auth/login/route.ts:19-33 | After a login with the configured pair, a check within 24 hours authenticates as that username. |
| SessionFlow.LoginThenExpire | app/api/auth/verify/route.ts:21-25 | A check more than 24 hours after login is refused and removes the cookie. Every later check is also refused. |
| SessionFlow.WrongPasswordKeepsJar | app/api/auth/login/route.ts:35 | A wrong password neither creates nor removes a session. |
| ClientStore.NameLeTotal | lib/database.ts:24 | Any two names are ordered one way or the other. |
| ClientStore.NameLeTrans | lib/database.ts:24 | The name order is transitive. |
| ClientStore.InsertByName | lib/database.ts:24 | Inserting by name adds exactly that row to the multiset of rows. |
| ClientStore.InsertKeepsSorted | lib/database.ts:24 | Inserting by name keeps a name-ordered list ordered. |
| ClientStore.ClientTable.GetClients | lib/database.ts:22-30 | On success the result is ordered by name. It has one entry per stored row, and it holds exactly the stored rows. A failure gives "Failed to fetch clients". |
| ClientStore.ClientTable.GetClientById | lib/database.ts:93-102 | Returns a row iff one is stored under that id, and then that row. A failure gives "Failed to fetch client". |
| ClientStore.ClientTable.CreateClient | lib/database.ts:32-48 | Inserts the row and returns it as read back by its id. A duplicate id or a failure gives "Failed to create client" and leaves the table unchanged. |
| ClientStore.ClientTable.UpdateClient | lib/database.ts:50-82 | An empty patch or a failure gives "Failed to update client" and leaves the table unchanged. A missing id changes nothing and returns nothing. Otherwise only that row changes, to the patched row, and that row is returned. |
| ClientStore.ClientTable.DeleteClient | lib/database.ts:84-91 | Removes the row with that id and keeps every other row. A missing id is not an error. A failure gives "Failed to delete client" and changes nothing. |
| ClientStore.BuildUpdate | lib/database.ts:55-73 | The SET list holds the columns the patch sets, in the fixed order. Each value is that column's patch value, and the id comes last, so there is one value per assignment plus one (with `PlaceholderCount`, one per `?`). |
| ClientStore.PushIfSet | lib/database.ts:58-69 | One `if (client.x !== undefined)` block appends the column exactly when the patch sets it, and keeps every pushed value paired with its column's patch value. |
| ClientStore.SetColumnsShape | lib/database.ts:58-71 | A column is in the SET list iff the patch sets it. The columns are in strictly increasing fixed order. The list is empty iff the patch is all-undefined. |
| ClientStore.PlaceholderCount | lib/database.ts:73 | The UPDATE statement has one `?` per assignment plus one for the id. |
| ClientStore.SetListAppliesPatch | lib/database.ts:58-73 | Executing the SET list with its bound values changes the row exactly as the patch says. |
| ClientStore.PatchIdempotent | lib/database.ts:50-82 | Applying a patch twice is the same as applying it once. |
| ClientStore.PatchKeepsIdentity | lib/database.ts:73 | The empty patch changes nothing, and no patch changes the id. |
| ClientsRoute.NewRecord | app/api/clients/route.ts:23-28 | The record's id is `now` in decimal. Name and level are copied unchanged, with no range check. A missing or empty description becomes "". |
| ClientsRoute.Post | app/api/clients/route.ts:14-36 | A missing or empty name, or a missing or 0 level, gives 400 and leaves the table unchanged. A store failure gives 500 "Failed to create client". Otherwise the response is 201 with the stored record, which reads back by its id. |
| ClientsRoute.Get | app/api/clients/route.ts:4-12 | Returns the store's name-ordered listing of every row, or 500 on failure. |
| ReviewPage.ErrorText | app/page.tsx:133-135 | An error result is "Error: ", then the message itself (at position 7), then exactly ". Please check the console for details.". |
| ReviewPage.StripQuotes | app/page.tsx:113-118 | Removes a leading `"` and a trailing `"` independently: both when both are there, only the leading one (`"Hel` gives `Hel`) or only the trailing one (`Hel"` gives `Hel`) when only one is, and a lone `"` becomes empty. It leaves a text with neither unchanged, and it never lengthens the text. |
| ReviewPage.FindClient | app/page.tsx:57 | Returns a listed client with the selected id iff one exists. |
| ReviewPage.RequestOf | app/page.tsx:66-77 | The request carries the email, the context and the prompt as they are. It carries a client iff one with the selected id is listed. |
| ReviewPage.ReviewForm.HandleReviewEmail | app/page.tsx:49-139 | A blank email or prompt changes nothing and sends nothing. Otherwise the page sends the request, and its result becomes the outcome of the reply: the accumulated stream text, or an `Error: ...` text. Analysis ends. |
| ReviewPage.ReviewForm.ReadReply | app/page.tsx:56-135 | Starting from an empty result, the shown result ends as the reply's outcome: the streamed text, or the `Error: ...` text of a failed response, a missing body, a thrown error or an empty stream. No other field of the form changes. |
| ReviewPage.ReviewForm.ReadStream | app/page.tsx:90-126 | The reading loop accumulates exactly the text of the chunks read so far, and the shown result is that accumulated text (kept so after every chunk by the loop invariant). The other fields do not change. |
| ReviewPage.ReviewForm.ReadChunk | app/page.tsx:99-125 | Reading a chunk appends exactly the text of its lines, in order, to the accumulator and to the shown result. |
| ReviewPage.ReviewForm.ReadLine | app/page.tsx:101-124 | A line adds its decoded text, if any. |
| ReviewPage.StreamTextAppend | app/page.tsx:92-126 | The accumulator only grows by concatenation in arrival order. The text of two runs of chunks is the text of the first followed by that of the second. |
| ReviewPage.LinesTextAppend | app/page.tsx:101-124 | The same holds for the lines within a chunk. |
| ReviewPage.OnlyTextLinesContribute | app/page.tsx:105-124 | Dropping every line that does not start with `0:` leaves the text unchanged. |
| ReviewPage.TextLineReadsBack | app/page.tsx:105-112 | A `0:` line carrying a JSON-quoted string adds exactly that string. |
| ReviewPage.SplitFrame | app/page.tsx:100 | A chunk of newline-terminated text lines splits into those lines and a final empty piece. |
| ReviewPage.FrameReadsBack | app/page.tsx:100-112 | A chunk of newline-terminated `0:` lines, each carrying a JSON-quoted string, yields the concatenation of those strings. |
| ReviewPage.ShowsStreamedText | app/page.tsx:92-130 | When that text is non-empty, the page shows it as the result. |
| ReviewPage.FailuresShowError | app/page.tsx:81-88 | A non-OK reply, a missing body, an interrupted stream, or a stream with no text all end with a result that begins with "Error: ". |
| ReviewPage.SingleLineChunk | app/page.tsx:100 | A chunk without a line feed is one line. |
| ReviewPage.OtherLineChunk | app/page.tsx:121-124 | A line that does not start with `0:`, such as a metadata line, adds nothing. |
| ReviewPage.CutLineLosesText | app/page.tsx:96-102 | No partial line is carried over between chunks. `0:"Hello"` in one chunk gives "Hello", but the same line cut after `Hel` gives only "Hel". |
| ReviewPage.FirstHalf | app/page.tsx:113-118 | The unterminated `0:"Hel` falls back to quote stripping and gives "Hel". |
| ReviewPage.OpenStringInvalid | app/page.tsx:108 | An unterminated JSON string does not parse. |
| ReviewPage.SentRequestIsAccepted | app/page.tsx:50 | A request the page sends always passes the route's validation. |
| Json.ParseQuote | app/page.tsx:108 | `JSON.parse` of the JSON quoting of any text is that text. |
| Json.EscapeText | app/page.tsx:100-108 | A quoted string never contains a line feed, so it stays on one line. |
| Json.ParseValue | app/page.tsx:108 | The well-formedness bound the recogniser needs: a successful parse of a value consumes at least one character and stays within the text. What `JSON.parse` returns for a string is stated by `Json.ParseQuote`. |
| AdminPage.ReplaceById | app/admin/page.tsx:150 | Keeps the length. Every entry with the edited id becomes the updated client, and every other entry stays where it was. |
| AdminPage.RemoveById | app/admin/page.tsx:170 | Keeps exactly the entries whose id differs, and never lengthens the list. |
| AdminPage.RemoveByIdConcat | app/admin/page.tsx:170 | The filter keeps the relative order of what it keeps. |
| AdminPage.RemoveByIdIdempotent | app/admin/page.tsx:170 | Deleting twice is deleting once, and deleting an absent id changes nothing. |
| AdminPage.RemoveAfterReplace | app/admin/page.tsx:150-170 | Deleting an id after updating it is the same as deleting it. |
| AdminPage.ReplaceKeepsIds | app/admin/page.tsx:150 | Updating an absent id changes nothing. Updating with a client of the same id keeps every id in place. |
| AdminPage.BadgeTier | app/admin/page.tsx:184-194 | The label is Beginner, Intermediate or Advanced, and the colour red, yellow or green, iff the level is at most 2, is 3 or 4, or is above 4. So the label and the colour always agree. |
| AdminPage.BodyOf | app/admin/page.tsx:96-105 | The add request carries the form's name, level and description. |
| AdminPage.SentBodyHasName | app/admin/page.tsx:92 | A body the page sends has a name, so the clients route rejects it iff the level is 0. |
| AdminPage.AdminState.CheckAuthStatus | app/admin/page.tsx:46-58 | Authenticated iff the verify call answers OK; a failed call counts as not authenticated. |
| AdminPage.AdminState.HandleLoginSuccess | app/admin/page.tsx:60-62 | Becomes authenticated and nothing else changes. |
| AdminPage.AdminState.HandleLogout | app/admin/page.tsx:64-72 | Unless the call throws, the page becomes unauthenticated and the list is emptied. Nothing else changes. |
| AdminPage.AdminState.FetchClients | app/admin/page.tsx:74-89 | An OK reply replaces the list and any other reply keeps it. Loading ends either way. |
| AdminPage.AdminState.HandleAddClient | app/admin/page.tsx:91-120 | A blank name, or a submission in flight, sends nothing and changes nothing. Otherwise the page sends the form. Success appends the returned client at the end and resets the form; any other reply keeps the list and the form. |
| AdminPage.AdminState.HandleEditClient | app/admin/page.tsx:122-129 | Copies the client into the form and marks that id as being edited. |
| AdminPage.AdminState.HandleUpdateClient | app/admin/page.tsx:131-161 | A blank name, no client being edited, or a submission in flight sends nothing. Success replaces the edited entries in place, stops editing and resets the form; any other reply keeps the list. |
| AdminPage.AdminState.HandleDeleteClient | app/admin/page.tsx:163-177 | Success removes every entry with that id and keeps the order of the rest. Any other reply keeps the list. |
| AdminPage.AdminState.HandleCancelEdit | app/admin/page.tsx:179-182 | Stops editing and resets the form, and changes nothing else. |

## Left out

- The call to the hosted language model (app/api/review-email/route.ts:4, 57-78) and its 500
  answer (79-84) are left out because they are a foreign SDK and network I/O. `Handle` stops at
  the request the model would receive.
- A non-string `originalEmail` or `prompt` would make `trim` throw inside the redraft route.
  This is not modelled: the route's request fields are strings or absent.
- The `client` object of the redraft route (`ReviewEmailRoute.Recipient`) arrives as untyped JSON; two of its
  shapes are not representable. A `technical_knowledge` of `null` compares `null <= 2` as true
  in JavaScript and would pick the beginner sentence. A missing `name` would be rendered as the
  text "undefined". In the model the level is an integer or absent, and the name is a string.
- The MySQL pool (lib/database.ts:3-11) is left out. Each store call is one atomic step on a
  map, and a failed call is the `dbOk` parameter.
- `ORDER BY name` uses the collation of the database. The model orders by code points, and a
  duplicate id fails like the primary-key violation it would cause.
- The `created_at` and `updated_at` columns are not modelled; the server manages them.
- ClientStore.Assign: a bound value whose type does not match its column leaves the row as it
  was. `BuildUpdate` never produces such a pair.
- `parseInt` returns an exact integer. JavaScript would round a value beyond 2^53 to the nearest
  double.
- The capacity limits of Node's base64 decoder are not modelled. The decode is total, so the
  `catch` in the verify route (app/api/auth/verify/route.ts:28-32) cannot be reached in the model.
- The 500 from a failing `cookies()` (app/api/auth/verify/route.ts:33-36) is not modelled,
  because the jar is always available in the model.
- Dafny characters cannot hold a lone surrogate, so a JSON `\u` escape naming one decodes to
  U+FFFD in `Json.Escape`.
- `fetch`, `response.body.getReader()` and the `TextDecoder` (app/page.tsx:87-96) are left out.
  Each chunk arrives as a string, so a multi-byte character cut between chunks is not modelled.
- `localStorage` (app/page.tsx:32-34) is left out; the client list is an input.
- ReviewPage.ReviewForm.HandleReviewEmail: a thrown value that is not an `Error`, which would
  show "Unknown error occurred", is not modelled. Every failure carries a message.
- The async handlers run atomically. The `isSubmitting` flag therefore models the guard but
  not an interleaving of two submissions.
- Console logging, JSX rendering, the clipboard hook, the header, the login form and the
  language-model configuration are left out; they are UI or constants.
- The logout route and the per-client PUT and DELETE routes are not part of this model. The
  admin page sees only their replies.
