# WHOOP coach over WhatsApp: the identity and credential logic

The service connects a WhatsApp sender to a WHOOP account. The sender is told to log in through a link. That link carries the WhatsApp number into the OAuth authorization-code grant, in the `state` parameter (sections 4.1.1 and 4.1.2 of RFC 6749). The callback reads the number back out of the echoed `state` and stores the tokens under it. Later messages from the sender are answered with the recovery data fetched with those tokens.

This project models the deterministic core of the handlers involved:

- the phone sanitiser;
- the two login endpoints and the login-redirect page, which encode the number;
- the two callbacks, which decode it and store tokens, either by appending to a collection or by upserting into a keyed store;
- the link check, the login link and the recovery normalisation of the chat webhook;
- the echo webhook, which builds a reply with one line per media item and cuts it to 1600 UTF-16 code units.

The modules are:

| module | models |
|---|---|
| `Js` | JavaScript values: truthiness, template interpolation (`undefined`), `Number()` of a decimal string |
| `Unicode` | UTF-8 (Unicode section 3.9) and UTF-16 |
| `Uri` | `encodeURIComponent` and `decodeURIComponent` (ECMA-262, 2023 edition: section 19.2.6.4 for `encodeURIComponent` and 19.2.6.2 for `decodeURIComponent`, through the Encode and Decode operations of sections 19.2.6.5 and 19.2.6.6; full UTF-8), and `URLSearchParams` as the `application/x-www-form-urlencoded` parser of section 5.1 of the WHATWG URL Standard |
| `Http` | handler outcomes |
| one module per core file | that file's behaviour |
| `Flows` | round trips across handlers |

Handler outcomes are a datatype. The clock is an `int` parameter `now`, in milliseconds. Answers from outside services are parameters: the token exchange, the recovery fetch, the chat model and the message send.

The code behaves in ways a reader may not expect, and the model follows it:

- api/callback.js appends a new document on every callback (`insertOne`) rather than upserting. So n callbacks for one number leave n documents (`ApiCallback.ReplayCount`).
- api/callback.js stores whatever body the token endpoint returned. The status is never checked.
- api/callback.js answers a thrown error with 500 and the error's own message in a `debug` field, so internal messages reach the browser (`ApiCallback.Callback`).
- lib/db.js turns an `expires_in` that takes the expiry past the range of a `Date` into an invalid date, which the store rejects; pages/api/callback.js then answers 500 (`PagesApiCallback.Callback`).
- The 1600-unit cut in pages/api/whatsapp.js can split a surrogate pair (`PagesApiWhatsapp.SplitsSurrogatePair`).
- api/callback.js reads `state` as form data, so a `+` in the number comes back as a space. The document is then stored under a different number (`Flows.PlusSenderStoredUnderOtherNumber`).
- The `user<digits>` state of pages/api/login.js never satisfies the pattern of pages/api/callback.js (`Flows.UserStateRejected`).
- api/whatsapp.js reads an `expires_at` number beyond the range of a `Date` as an invalid date, which never expires (`ApiWhatsapp.OutOfRangeNeverExpires`).
- pages/api/whatsapp.js loops `Number(NumMedia)` times, so a `NumMedia` of `Infinity` never ends the loop (see "Left out").

## Model

| member | source | states |
|---|---|---|
| Phone.StripPrefix | lib/phone.js:3 | a leading `whatsapp:` in any letter case is removed once; any other text is unchanged |
| Phone.RemoveSeparators | lib/phone.js:4 | no white space, `-`, `(` or `)` is left, and the result is no longer than the input |
| Phone.KeepPlusDigits | lib/phone.js:5 | only `+` and ASCII digits are left, and the result is no longer than the input |
| Phone.SanitizePhoneNumber | lib/phone.js:1-6 | the result is no longer than the input and holds only `+` and ASCII digits |
| Phone.SanitizeKeepsPlusAndDigits | lib/phone.js:2-5 | sanitising equals deleting every character that is not a digit or `+`, in order; the first two replacements only remove characters the third removes anyway |
| Phone.KeepAfterStrip | lib/phone.js:3 | removing the `whatsapp:` prefix (any case) changes nothing in the kept characters |
| Phone.KeepAfterRemove | lib/phone.js:4 | removing whitespace, `-`, `(` and `)` changes nothing in the kept characters |
| Phone.KeepAppend | lib/phone.js:5 | the filter distributes over concatenation |
| Phone.SanitizeIdempotent | lib/phone.js:2-5 | sanitising a sanitised string returns it unchanged |
| Phone.SanitizeFixedPoints | lib/phone.js:2-5 | a string is left unchanged exactly when it holds only `+` and digits |
| Phone.SanitizeKeepsInnerPlus | lib/phone.js:5 | a `+` is kept wherever it occurs (`12+34`, `++`); the empty input gives `""` |
| Phone.SanitizeFormatted | lib/phone.js:2-5 | a number written as groups of kept characters separated by dropped ones sanitises to the groups joined |
| Phone.SanitizeExample | __tests__/phone.test.js:5-7 | `whatsapp:+1 (234) 567-8900` sanitises to `+12345678900` |
| Uri.EncodeUriComponent | api/login.js:13 | every character of the result is unreserved or `%`; an all-unreserved string is returned unchanged |
| Uri.DecodeEncode | api/login.js:13 | `decodeURIComponent(encodeURIComponent(s)) == s` for every string |
| Uri.DecodeUriComponent | pages/api/callback.js:12 | a text without `%` decodes to itself |
| Uri.DecodeBadEscape | pages/api/callback.js:12 | text without `%` followed by a `%` without two hex digits, or whose octet is a continuation octet or no lead octet, throws |
| Uri.EncodedInert | api/login.js:21 | the encoding holds no `&`, `=`, `+`, `#`, space or `?`, so it cannot add parameters to a URL |
| Uri.Lookup | api/callback.js:14 | `get` answers a value paired with the name, and null exactly when no pair has the name |
| Uri.LookupFirst | api/callback.js:14 | `get` answers the first pair with the name |
| Uri.ParseForm | api/callback.js:14 | at most one pair per `&`-separated sequence; a text without `&` is no pairs when empty and one pair otherwise |
| Uri.SearchParamsGet | api/callback.js:14 | an empty query, or `?` alone, has no value for any name |
| Uri.FormDecodePlus | api/callback.js:14 | form decoding of a text without `%` turns each `+` into a space and keeps the rest |
| Uri.FormDecodeEncoded | pages/login-redirect.js:12 | form decoding undoes `encodeURIComponent` |
| Uri.ParseQuery | api/callback.js:14 | parsing a query built from pairs without `&` gives back the pairs, each form-decoded |
| Uri.GetDistinct | api/callback.js:14 | with distinct names, each name reads back its own form-decoded value |
| Uri.GetSinglePair | api/callback.js:14 | `name=w` with no `&` in `w` reads back `w` form-decoded |
| Uri.QueryOfUrl | api/login.js:15-21 | the query of a URL is what follows its first `?` |
| Unicode.DecodeEncode | api/callback.js:14 | UTF-8 decoding undoes UTF-8 encoding for every string |
| Unicode.Utf16Append | pages/api/whatsapp.js:29 | the UTF-16 length of a reply is the sum over its parts |
| ApiLogin.AuthUrl | api/login.js:15-21 | the URL starts with the authorization endpoint and `?`, and ends with `&state=` and the state as given |
| ApiLogin.State | api/login.js:13 | the state holds only unreserved characters and `%` |
| ApiLogin.Handle | api/login.js:9-23 | a missing or empty number is 400 "Missing WhatsApp number" and nothing else; otherwise 200 JSON with the URL built from the encoded `whatsapp=` state, which the provider reads back as `whatsapp=` and the number |
| ApiLogin.AuthUrlIsQuery | api/login.js:15-21 | the URL is the endpoint, `?`, then response_type, client_id, redirect_uri, scope and state, in that order |
| ApiLogin.StateRoundTrip | api/login.js:13 | decoding the state gives back exactly `whatsapp=` and the number |
| ApiLogin.StateInert | api/login.js:13 | the state holds no raw `&`, `=`, `+`, `#`, space or `?` |
| ApiLogin.ScopeInert | api/login.js:20 | the scope string holds no `&`, `#`, `%` or `+` |
| ApiLogin.ProviderReads | api/login.js:15-21 | the provider reads response_type `code`, the client id, the redirect URI as configured, the five scopes with their spaces, and the state |
| ApiLogin.ProviderReadsState | api/login.js:13-21 | the provider reads the state as `whatsapp=` and the number |
| PagesApiLogin.Handle | pages/api/login.js:6-26 | a missing or empty number is 400 and no redirect; otherwise a redirect to the authorization URL whose state the provider reads as `user` and the number's digits |
| PagesApiLogin.Digits | pages/api/login.js:11 | only ASCII digits are left, and no more characters than the input has |
| PagesApiLogin.State | pages/api/login.js:12 | the state is `user` followed by digits only, as many as the number has |
| PagesApiLogin.DigitsAreDigits | pages/api/login.js:11 | the digits holds only ASCII digits, so a `+` is dropped |
| PagesApiLogin.DigitsOfDigits | pages/api/login.js:11 | a string of digits is its own digits |
| PagesApiLogin.DigitsAfterSanitize | pages/api/login.js:11 | the digits of a sanitised number are the digits of the raw one |
| PagesApiLogin.StatePrefix | pages/api/login.js:12 | the state is four characters of `user` and then exactly the digits |
| PagesApiLogin.StateUnencoded | pages/api/login.js:23 | `encodeURIComponent(state) == state` |
| PagesApiLogin.StateInert | pages/api/login.js:12 | the state holds no `=`, `&`, `#`, `%` or `+` |
| PagesApiLogin.ProviderReadsState | pages/api/login.js:17-23 | the provider reads the state back unchanged |
| LoginRedirect.GetServerSideProps | pages/login-redirect.js:3-21 | a missing or empty number is notFound; otherwise a non-permanent redirect to `/api/login?whatsapp=`, whose text after the prefix decodes to the number and whose query reads back the number |
| LoginRedirect.Destination | pages/login-redirect.js:12-13 | the destination is `/api/login?whatsapp=` followed by unreserved characters and `%` only |
| LoginRedirect.DestinationDecodes | pages/login-redirect.js:12-13 | the destination begins `/api/login?whatsapp=` and the rest decodes to the number |
| LoginRedirect.LoginReceives | pages/login-redirect.js:13 | the login endpoint, parsing the query as form data, receives exactly the number |
| LoginRedirect.ReceivesBehind | pages/login-redirect.js:13 | the same holds behind any origin without `?` |
| Tokens.FindOne | api/whatsapp.js:16 | `findOne({ whatsapp: From })` answers a matching document, and none exactly when no document matches |
| Tokens.FindOneAppend | api/whatsapp.js:16 | after an append, the lookup finds what it found before, else the new document if it matches |
| Tokens.Collection.InsertOne | api/callback.js:43-47 | the collection grows by the document at its end, and each number's count grows by one exactly when the document carries it |
| Tokens.CountAppendAll | api/callback.js:43-47 | an append adds one to the count of the number the document carries and leaves the other counts alone |
| ApiCallback.StateNumber | api/callback.js:12-14 | an absent or empty state has no number |
| ApiCallback.StateNumberOf | api/callback.js:14 | `whatsapp=` and a value without `&` reads back the value form-decoded |
| ApiCallback.StateNumberPlus | api/callback.js:14 | without `&` or `%`, each `+` comes back as a space, and the number comes back intact exactly when it has no `+` |
| ApiCallback.StateNumberEmpty | api/callback.js:14 | `whatsapp=` with nothing after it reads as `""` |
| ApiCallback.Record | api/callback.js:43-47 | the stored document holds `whatsapp`, every token-response field and `created_at`, and matches the number unless the response itself has a `whatsapp` field |
| ApiCallback.Callback | api/callback.js:15-53 | 400 exactly when the code or the number is missing or empty; 500 with the thrown error's message as `debug` exactly when an accepted request's token exchange throws; a redirect to `https://wa.me/` and the encoded number, with the document inserted, exactly when the request is accepted and the exchange returns a body |
| ApiCallback.RejectedBeforeExchange | api/callback.js:15-17 | a 400 does not depend on the token exchange and inserts nothing |
| ApiCallback.ChatLinkDecodes | api/callback.js:50 | the text after `https://wa.me/` decodes to the number |
| ApiCallback.ReplayCount | api/callback.js:43-47 | after a run of callbacks, a number's document count grows by its successful callbacks: no upsert |
| ApiCallback.Handle | api/callback.js:10-54 | answers as Callback does, including the `debug` message of a 500, and appends the inserted document, if any, to the collection |
| Db.ExpiresAt | lib/db.js:52 | the expiry is a valid date exactly when `now + expires_in * 1000` lies within 8.64e15 milliseconds of the epoch; it then lies `expires_in` seconds after now, later than now for a positive `expires_in` |
| Db.Updated | lib/db.js:47-55 | the three token fields (the expiry as the `Date` of lib/db.js:52) and `updatedAt` are set; an existing document keeps its phone and `createdAt`, a new one takes the phone and is created now |
| Db.Upsert | lib/db.js:47-55 | the call fails, writing nothing, exactly when the expiry is an invalid date; otherwise the phones afterwards are the old ones and the given one, and the given phone's document holds the new access token and `updatedAt`, keeps its `createdAt` when it existed, and is created now otherwise |
| Db.UpsertKeys | lib/db.js:34 | after the upsert the phones are the old ones and the given one, and exactly one document has the given phone |
| Db.UpsertOthers | lib/db.js:48 | documents for other phones are unchanged |
| Db.UpsertTokens | lib/db.js:45-52 | nothing is stored exactly when `now + expires_in * 1000` leaves the range of a `Date`; otherwise the stored tokens are the response's, and the expiry is that time |
| Db.UpsertCreated | lib/db.js:38 | an existing document keeps its creation time; a new one is created now |
| Db.UpsertIdempotent | lib/db.js:47-55 | repeating the call with the same response at the same time changes nothing more |
| Db.UserStore.StoreTokenForUser | lib/db.js:42-58 | the store becomes the upsert of the old one, stays keyed by phone, and the returned document is the one now stored; with an invalid expiry the call throws and the store is unchanged |
| PagesApiCallback.FirstMatch | pages/api/callback.js:11 | the leftmost position where `whatsapp=` is followed by a character other than `&` |
| PagesApiCallback.Run | pages/api/callback.js:11 | `[^&]+` takes the longest prefix before the first `&` |
| PagesApiCallback.Capture | pages/api/callback.js:11 | the capture is non-empty and has no `&`; there is none exactly when the pattern matches nowhere |
| PagesApiCallback.DecodeState | pages/api/callback.js:11-12 | no state or no match is null; a match that `decodeURIComponent` rejects is malformed (it throws), and one it accepts gives exactly the decoded text |
| PagesApiCallback.NoEqualsNoMatch | pages/api/callback.js:11 | a text without `=` never matches |
| PagesApiCallback.CaptureAfter | pages/api/callback.js:11 | the match is unanchored: what stands before `whatsapp=` is skipped |
| PagesApiCallback.DecodePlainValue | pages/api/callback.js:11-12 | a value without `&` or `%` is read back as is; `+` stays `+` |
| PagesApiCallback.BadEscapeThrows | pages/api/callback.js:11-12 | a captured value whose first `%` has no two hex digits after it, or writes a continuation octet or no lead octet, makes the decode throw (`%`, `12%G1`, `%80`) |
| PagesApiCallback.Callback | pages/api/callback.js:11-30 | a throwing decode escapes the handler; a missing number is 400 before a missing code; 500 exactly when the number and code are present and the exchange throws or the store rejects an invalid expiry; `{success: true}`, with the number and tokens stored, exactly when all of them succeed |
| PagesApiCallback.NumberCheckedFirst | pages/api/callback.js:14-20 | with neither number nor code, the answer is "Missing WhatsApp number" |
| PagesApiCallback.Handle | pages/api/callback.js:7-31 | answers as Callback does; the store becomes the upsert when Callback stores, and is otherwise unchanged |
| Js.TimeClip | api/whatsapp.js:18 | a time is valid exactly within 8.64e15 milliseconds of the epoch, and then unchanged |
| ApiWhatsapp.TimeValue | api/whatsapp.js:18 | `new Date(v)` of a date or a number is that time clipped to the range of a `Date`; any valid time lies in the range |
| ApiWhatsapp.NeedsLogin | api/whatsapp.js:16-18 | no document always needs a login; a document that does not holds a truthy access token and a truthy `expires_at` that is an invalid date or not before now |
| ApiWhatsapp.OutOfRangeNeverExpires | api/whatsapp.js:18 | an `expires_at` number beyond the range of a `Date` is an invalid date and never expires, so a truthy token is used at any time |
| ApiWhatsapp.ExpiresNowIsValid | api/whatsapp.js:18 | a token whose expiry equals now is still valid: the comparison is strict |
| ApiWhatsapp.ExpiredBeforeNow | api/whatsapp.js:18 | an expiry one millisecond before now, within the range of a `Date`, needs a login |
| ApiWhatsapp.NeedsLoginLater | api/whatsapp.js:18 | once a login is needed, it stays needed as time goes on |
| ApiWhatsapp.NoExpiryNeedsLogin | api/whatsapp.js:18 | a document without `expires_at` needs a login |
| ApiWhatsapp.LoginLink | api/whatsapp.js:19 | the link is the base URL, `/api/login?whatsapp=`, and a text that decodes to the sender |
| ApiWhatsapp.LoginLinkReceives | api/whatsapp.js:19 | the login endpoint reads back exactly the sender from the link |
| ApiWhatsapp.LoginMessage | api/whatsapp.js:20 | the message is the greeting followed by the link |
| Js.First | api/whatsapp.js:67 | `[0]` is the first element of a non-empty array, the `"0"` property of an object, and `undefined` for anything else |
| ApiWhatsapp.OrZero | api/whatsapp.js:69-72 | a truthy value passes through unchanged; a missing or falsy one becomes 0 |
| ApiWhatsapp.Latest | api/whatsapp.js:67 | the first record's score when it is truthy, else the empty object |
| ApiWhatsapp.Normalise | api/whatsapp.js:66-73 | a null body throws; otherwise every metric is truthy or 0 |
| ApiWhatsapp.NormaliseScore | api/whatsapp.js:67-73 | with a score object, each metric is its field when truthy and 0 when missing or falsy, field by field |
| ApiWhatsapp.OneFalsyField | api/whatsapp.js:69-72 | a falsy HRV (`null`, `""`, `0`, `false`) becomes 0 while the three other metrics pass through |
| ApiWhatsapp.RecordsAsObject | api/whatsapp.js:67 | `records` given as an object is indexed by its `"0"` property, like an array |
| ApiWhatsapp.NoScoreAllZero | api/whatsapp.js:67 | without records or a score, all four metrics are 0 |
| ApiWhatsapp.FirstRecordOnly | api/whatsapp.js:67 | only the first record counts |
| ApiWhatsapp.NormaliseBody | api/whatsapp.js:68-73 | a body holding normalised metrics normalises to those metrics |
| ApiWhatsapp.LoginTurn | api/whatsapp.js:18-23 | the login branch sends the login message once, fetches nothing, and answers "Login link sent" when the send succeeds |
| ApiWhatsapp.DataTurn | api/whatsapp.js:25-34 | fetch, then ask the coach about the normalised metrics, then send the answer to the sender; the first failure stops the chain and is 500 |
| ApiWhatsapp.Webhook | api/whatsapp.js:7-35 | the login message is sent exactly when a login is needed; "Response sent" exactly when no login is needed and the fetch, the coach and the send succeeded; otherwise 500 |
| ApiWhatsapp.OneMessage | api/whatsapp.js:20-28 | at most one message is sent, always to the sender; exactly one unless the fetch or the coach failed |
| ApiWhatsapp.FetchOrder | api/whatsapp.js:18-28 | the recovery is fetched exactly when no login is needed, with the document's token, before the coach and the send |
| ApiWhatsapp.UnknownSenderGetsLink | api/whatsapp.js:16-20 | a sender with no document gets the login link |
| Js.Get | pages/api/whatsapp.js:18 | a field is its value when present and `undefined` otherwise |
| PagesApiWhatsapp.MessageText | pages/api/whatsapp.js:19 | `Body || ""` |
| PagesApiWhatsapp.Header | pages/api/whatsapp.js:19 | the header quotes the message text, names the sender (`undefined` when absent) and ends with `.` |
| PagesApiWhatsapp.MediaCount | pages/api/whatsapp.js:20 | there are media items exactly when `NumMedia` is present and reads as a positive number |
| PagesApiWhatsapp.MediaLine | pages/api/whatsapp.js:23 | the line for item i is labelled `Media` and i + 1, gives the item's URL (`undefined` when absent) next, then ` (type: `, the item's content type (`undefined` when absent) and `)`, and ends with a new line |
| PagesApiWhatsapp.Reply | pages/api/whatsapp.js:19-26 | the reply begins with the header, and is the header alone without a positive media count |
| PagesApiWhatsapp.BuildReply | pages/api/whatsapp.js:19-26 | the header, then the media heading and the loop's lines, is exactly the reply |
| PagesApiWhatsapp.AppendMediaLines | pages/api/whatsapp.js:22-25 | the loop appends the line of each item, from the first to the last, to what came before |
| PagesApiWhatsapp.ReplyStartsWithHeader | pages/api/whatsapp.js:19 | the reply always begins with the header |
| PagesApiWhatsapp.NoMediaNoSection | pages/api/whatsapp.js:20 | without a positive count the reply is the header alone |
| PagesApiWhatsapp.JoinedPrefix | pages/api/whatsapp.js:22-23 | the lines for the first k items begin the lines for n items |
| PagesApiWhatsapp.JoinedAt | pages/api/whatsapp.js:23 | the line for item i comes right after the lines before it |
| PagesApiWhatsapp.Truncate | pages/api/whatsapp.js:29 | the text sent is at most 1600 UTF-16 units, a prefix of the reply, the whole reply exactly when it fits, and 1600 units otherwise |
| PagesApiWhatsapp.SplitsSurrogatePair | pages/api/whatsapp.js:29 | 1599 units followed by a character outside the Basic Multilingual Plane leave a lone high surrogate at the end |
| PagesApiWhatsapp.Handle | pages/api/whatsapp.js:10-36 | sends the truncated reply to `From` and answers 200 with an empty plain-text body, whether or not the send succeeded |
| Flows.LoginPageReachesLogin | pages/login-redirect.js:12-13 | the login page's redirect reaches api/login.js with the number, which builds the URL for it |
| Flows.LinkStateEchoed | api/whatsapp.js:19 | the webhook's link leads to a state the provider echoes as `whatsapp=` and the sender |
| Flows.PlusSenderStoredUnderOtherNumber | api/callback.js:14 | a sender with `+` is stored under the number with a space, and the webhook's lookup does not find it |
| Flows.PlusSenderStaysLoggedOut | api/callback.js:14 | such a sender keeps being sent the login link after signing in |
| Flows.PlainSenderFound | api/callback.js:14 | a number without `+`, `&` or `%` is stored under itself and found afterwards |
| Flows.StoredWithoutExpiry | api/callback.js:43-47 | a token response without `expires_at` leaves a document the webhook still treats as logged out |
| Flows.PatternKeepsPlus | pages/api/callback.js:11-12 | the pattern-based callback keeps the `+` |
| Flows.UserStateRejected | pages/api/callback.js:11-16 | the `user<digits>` state of the pages login always gets 400 "Missing WhatsApp number" and stores nothing |

## Left out

- I/O is a parameter or is left out: the MongoDB client lifecycle, `connectToDatabase`'s connection cache and the module-load check of `MONGODB_URI` (lib/db.js:4-31).
- Twilio, OpenAI, the WHOOP HTTP API and `getToken` from lib/whoop.js are parameters standing for their results. lib/whoop.js is not part of this model.
- The wording of the prompt sent to the chat model is left out. `AskCoach` carries the normalised metrics the prompt is built from.
- A failed database connection or write inside the handlers is not modelled, apart from the rejected expiry of `Db.Upsert`.
- The raw body streaming and `querystring.parse` of pages/api/whatsapp.js are not modelled. The parsed body is a map from field to one value, so repeated fields (arrays) are left out, and so is an absent `From` in api/whatsapp.js.
- `req.query` values that are arrays are left out; each query value is one string or none.
- PagesApiWhatsapp.MediaCount: a `NumMedia` of `Infinity` (or `1e400`) makes `Number(NumMedia)` infinite, so the loop at pages/api/whatsapp.js:22 never ends and the handler never answers; the model reads such a count as not a number and answers with the header alone. The webhook checks no signature, so any sender of a form post can cause this. Infinite numbers are not modelled.
- PagesApiWhatsapp.Handle: strings are unbounded here, so every finite count builds its reply and answers 200. In the source, a finite `NumMedia` large enough (about `100000000`, at some forty units per line) makes the reply pass the engine's maximum string length. The append at pages/api/whatsapp.js:23 then throws a `RangeError` outside the `try` of line 28, and no message is sent and no 200 is written. A count short of that can still outlast the platform's time limit. The string-length limit and the time limit are not modelled.
- Tokens.FindOne: `findOne` without a sort returns the first match in MongoDB's natural order, which the model takes to be insertion order; MongoDB does not guarantee that, and `Tokens.FindOneAppend` and `Flows.PlusSenderStoredUnderOtherNumber` rely on it.
- Js.First: `x[0]` on a string (its first UTF-16 unit) is left out and gives `undefined`; the only use reads `score` from it, which a string does not have either.
- Js.ToNumber: reads decimal digit strings only. Whitespace, signs, hexadecimal, exponents and fractions (for example `NumMedia` of `1.5`, which would give two loop passes) read as not a number. Floating point is not modelled.
- PagesApiCallback.Callback: the `console.error` at pages/api/callback.js:28 writes the error to the server log only and is left out (I/O); the client's answer is modelled.
- Db.ExpiresAt: `expires_in` is an integer here, so a fractional value is not modelled (floating point). A missing `expires_in` also gives an invalid date in the source; the token response here always carries it.
- Db.Upsert: that mongoose's cast of the update rejects an invalid date, so that the call throws before writing, is mongoose's behaviour; mongoose is not part of this model.
- ApiWhatsapp.TimeValue: a string `expires_at` is treated as an invalid date. Date-string parsing is not modelled, and neither are arrays passed to `new Date`.
- mongoose's stripping of `undefined` fields from an update is not modelled. The token response always carries the three fields read.
- Uri.EncodeUriComponent: covers all of Unicode through UTF-8, a superset of the ASCII handling the login pages need.
- The body of the token request in api/callback.js:24-34 is left out; only its result matters here.
- models/UserToken.js, api/upload.js, api/profile.js, api/sleep.js, api/workout.js, api/summary.js and the React pages are not part of this model.
