# OAuth client decisions of the Salesforce IAM flows server

This project models, in Dafny, the decision logic of `Server.js`, the Express
server that demonstrates the Salesforce OAuth 2.0 flows. HTTP, the crypto
library and JSON parsing are outside the model. What is modelled is what the
server decides once those have done their part:

- **Token callback** (`accessTokenCallback`). A transport error answers 500
  `Error`. Otherwise the Salesforce identity signature is checked whenever
  both `id` and `issued_at` are present: Base64 (section 4 of RFC 4648) of
  HMAC-SHA256 (RFC 2104) over `id + issued_at`, keyed with the client secret.
  If it does not match, or is missing, the answer is 500 and the signature
  message. Otherwise an access token gives a 302 to `queryresult` with four
  cookies in order. Without an access token the provider's raw body is echoed
  after a help message. Only the success branch replaces the module-level
  refresh token, and only when the response carries one.
- **Device callback** (`deviceFlowCallback`). It gives the same 302 for an
  access token, without any signature check. Otherwise it renders the
  `deviceOAuth` page when there is a verification URI, and writes nothing
  when there is not.
- **Response dispatcher** (`processResponse`). A render instruction wins over
  an error, and an error wins over success. Only success writes the
  `refreshToken` property of the global object and sends the 302.
- **PKCE post-processing**. The code verifier and the code challenge are
  Base64 text passed through `replace(/=/g,'')`, then `+` to `-`, then `/` to
  `_`. The model proves that this chain is the transcoding from the alphabet
  of section 4 of RFC 4648 to the unpadded alphabet of section 5, as the S256
  `code_challenge` of section 4.2 of RFC 7636 requires. It also proves that
  the 128 random bytes give a 171-character verifier and a SHA-256 digest
  gives a 43-character challenge.
- **Endpoints and the refresh request** (`setSandbox`, `getBaseUrl`,
  `getTokenEndpoint`, `createPostRequest`, the `/refresh` handler). This is
  the refresh request of section 6 of RFC 6749, with its body built by plain
  concatenation.

The process state is the class `Server.Server`. It keeps three fields that
the server keeps apart: `isSandbox`, the module variable `refreshToken`
(written by the token callback, never read), and the global object's
`refreshToken` (written by `processResponse`, read by `/refresh`). In
non-strict Node both `processResponse` and the `/refresh` route handler run
with `this` bound to the global object. As a result, `/refresh` sends what
`processResponse` stored, and never what the token callback stored.
`Server.TokenCallbackThenRefresh` proves that a fresh process whose refresh
token came through the token callback sends `refresh_token=undefined`.

JavaScript values: a parsed response field is an `Option` (`None` is
`undefined`). Truthiness of a string field means present and non-empty
(`JsValues.Truthy`). Concatenating an absent field gives `"undefined"`
(`JsValues.Str`). The transport error of the `request` library is
`Option<string>`: an error object is always truthy, and its string form is
what the device callback appends.

Files: `JsValues.dfy`, `Text.dfy` (the replace and split operations),
`Base64Url.dfy`, `Requests.dfy`, `Callbacks.dfy`, `Server.dfy`.

Two behaviours of the code are modelled as written:
- The refresh token and the client id are concatenated into the form body
  without the `application/x-www-form-urlencoded` encoding that section 6
  and appendix B of RFC 6749 call for. `Requests.RefreshBody` states how the
  form then reads back for every value: the first `&`-separated piece of a
  value completes its own field, and each further piece becomes a field of
  its own.
- A malformed JSON body makes `JSON.parse` throw. It is not classified.

## Model

| member | source | states |
|---|---|---|
| Callbacks.AccessTokenReply | Server.js:60-120 | transport error gives 500 `Error`; an identity claim (truthy `id` and `issued_at`) with a missing or different signature gives 500 with the signature message even with an access token; success (302) exactly when there is no error, the response is trusted and has an access token, with location `queryresult` and cookies `AccToken=`, `APIVer=v45.0`, `InstURL=`, `idURL=` in that order; otherwise 200 with the help message, ` Salesforce Response : ` and the raw body; never anything but a status or a redirect |
| Callbacks.StoredRefreshToken | Server.js:98-101 | the module refresh token becomes the response's one exactly when the reply is the success redirect and the response's token is truthy, and is unchanged otherwise (transport errors and rejections included) |
| Callbacks.SuccessIndependentOfBody | Server.js:98-118 | whether the success redirect is chosen does not depend on the raw body text |
| Callbacks.DeviceReply | Server.js:160-195 | transport error gives 500 `Error:` plus the error text; a truthy access token gives the same redirect as a token exchange, with no signature check; otherwise a truthy verification URI renders `deviceOAuth` with the URI, user code, device code, sandbox flag and interval; otherwise nothing is written, and each outcome happens exactly under its condition |
| Callbacks.DeviceSuccessMatchesTokenSuccess | Server.js:175-185 | on a trusted response with an access token, the device callback and the token callback give the same redirect |
| Server.Server.DeviceFlowCallback | Server.js:160-195 | the reply is DeviceReply's for the current sandbox flag, which a rendered device page carries; no state changes |
| Callbacks.DispatchReply | Server.js:128-151 | a redirect instruction renders its view and payload whatever else is given; otherwise a truthy error throws; success (302 with the supplied header) exactly when there is neither |
| Server.Server.constructor | Server.js:24-33 | start-up state: not sandbox, module refresh token `''`, global refresh token `undefined`, configuration as given |
| Server.Server.SetSandbox | Server.js:223-225 | the sandbox flag is true exactly for the string `'true'` |
| Server.Server.GetBaseUrl | Server.js:230-232 | the sandbox host `https://test.salesforce.com/`, otherwise the configured base URL |
| Server.Server.GetTokenEndpoint | Server.js:238-240 | sandbox endpoint `https://test.salesforce.com//services/oauth2/token` (double slash); otherwise the base URL followed by `/services/oauth2/token` |
| Server.Server.AccessTokenCallback | Server.js:60-120 | the reply is AccessTokenReply's and the module refresh token moves as StoredRefreshToken says; nothing else changes |
| Server.Server.ProcessResponse | Server.js:128-151 | the reply is DispatchReply's; the global refresh token slot takes the given token exactly when the reply is the success redirect |
| Server.Server.Refresh | Server.js:404-415 | sets the sandbox flag from the query, then a POST to the token endpoint with the form header and the refresh body built from the global slot |
| Server.TokenCallbackThenRefresh | Server.js:98-101 | after a successful token callback carrying a refresh token, the module variable holds it but the next refresh request's refresh_token field is `undefined`, for any client id |
| Server.ProcessThenRefresh | Server.js:145-148 | after processResponse succeeds with a token, the next refresh request's body is the refresh body of exactly that token, whose refresh_token field is the whole token when it has no `&`, for any client id; it goes to the double-slash sandbox endpoint when the query says `true` |
| Requests.CreatePostRequest | Server.js:248-255 | method POST, the URL and body unchanged, and the single header `Content-Type: application/x-www-form-urlencoded` |
| Requests.RefreshBody | Server.js:409-412 | read back as a form (split at `&`), the body is `grant_type=refresh_token`, then `refresh_token=` with the first piece of the slot's value, then each further piece of that value as a field of its own, then `client_id=` with the first piece of the client id and its further pieces, for every pair of values (absent ones read `undefined`); hence exactly the three fields with the values sent when neither has an `&`, and three fields plus one per `&` in general (nothing is encoded) |
| Requests.EscapeRefreshGrant | Server.js:412 | `base64url.escape` leaves the grant type `refresh_token` unchanged |
| Requests.RefreshWithoutToken | Server.js:412 | with the global slot undefined the refresh_token field is the text `refresh_token=undefined`, for any client id |
| Requests.RefreshTokenField | Server.js:412 | a slot value without `&` is read back whole as the refresh_token field, for any client id (an absent value as `undefined`) |
| Text.RemoveAll | Server.js:202 | `replace(/=/g, '')` leaves no occurrence, its length is the input length minus the number removed, and a string without the character comes back unchanged |
| Text.RemoveAllConcat | Server.js:202 | removal works piece by piece: removing from `a + b` gives the removal from `a` followed by the removal from `b`; with the clauses above, every other character is kept, in order |
| Text.ReplaceAll | Server.js:213-215 | a single-character global replace substitutes pointwise and keeps the length |
| Base64Url.UrlSafe | Server.js:202 | the replace chain leaves no `=`, `+` or `/`, and its length is the input length minus the number of `=` |
| Base64Url.UrlSafeTranscodes | Server.js:210-216 | on Base64 text the replace chain equals the transcoding through the 6-bit values of RFC 4648 section 4 into the section 5 alphabet, with the padding dropped; all other characters are kept in order |
| Base64Url.TranscodeAlphabet | Server.js:213-215 | the transcoded text uses only the base64url alphabet |
| Base64Url.Escape | Server.js:412 | the escape order (`+`, `/`, then strip `=`) gives the same string as the order of the PKCE chain, for every input |
| Base64Url.UrlSafeKeepsPlain | Server.js:412 | text with none of `=`, `+`, `/` passes the chain unchanged |
| Base64Url.GenerateCodeVerifier | Server.js:201-203 | no `=`, `+` or `/`; for the padded Base64 of 128 bytes, the base64url transcoding of it, 171 characters long |
| Base64Url.GenerateCodeChallenge | Server.js:210-216 | no `=`, `+` or `/`; for a padded Base64 SHA-256 digest, its base64url transcoding, 43 characters long (the S256 challenge) |

## Left out

- Express routing, `res.render`, cookie transport, the `/proxy` passthrough, `app.listen` and the HTTPS server (Server.js:273-285, 460-515): I/O and presentation. Handler replies are values of `Callbacks.Reply`.
- `handleGetRequest`/`handlePostRequest` and the `request` library (Server.js:257-271): network I/O. Only what the callbacks do with a result is modelled. `Server.Server.Refresh` stops at the request it would send.
- `crypto.randomBytes`, SHA-256 and HMAC-SHA256 internals (Server.js:77-78, 202, 211): they are parameters (`hmacBase64`, `sha256Base64`, the random Base64 text). The 171-character verifier lies outside the 43 to 128 characters of section 4.1 of RFC 7636, so the model claims no compliance for it.
- `JSON.parse` (Server.js:67, 167): the callbacks take the parsed record. A malformed body throws there and is not classified. JSON `null` is not distinguished from an absent field, and non-string values are not modelled (only `interval` is a number).
- ID-token decoding (Server.js:87-95): it only logs, and the model answers as if the decoding had succeeded. The code can throw there before answering: an `id_token` without a `.` hands an undefined segment to CryptoJS's Base64 parser, and a segment that does not decode to UTF-8 makes CryptoJS's UTF-8 conversion throw. CryptoJS is not part of this model, so neither throw is modelled, and `Callbacks.AccessTokenReply` gives its 302 or help-message reply in those cases too.
- The error branch of `processResponse` (Server.js:137-138): it reads an undeclared `response`, so it is modelled as `Fault` and no message is modelled.
- The file-based SAML assertion flow (Server.js:428-455): it reads a file and uses `Buffer` and `encodeURIComponent`.
- The flow classes under `./services/*`, `pollContinually`, `state` generation and the per-variant request builders (Server.js:1-6, 392): they are not part of this model. So `processResponse`'s header, token and redirect are taken as given.
- Base64Url.Escape: the `base64-url` package is not part of this model. Its `escape` is taken to be the three substitutions `+` to `-`, `/` to `_`, strip `=`, in that order.
- Server.Server.constructor: `CLIENT_SECRET` is taken to be set. An unset secret handed to CryptoJS is not modelled.
- Console logging throughout.
