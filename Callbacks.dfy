/**
 What the server answers the browser once a token-endpoint call returns.

 The callbacks receive the transport error of the `request` library (`None`
 when there was none; an error object is always truthy) and the body after
 `JSON.parse`, here a record of optional fields. HMAC-SHA256 followed by
 Base64 is a parameter `hmacBase64(message, key)`; nothing about it is
 assumed beyond being a function.
 */
module Callbacks {
  import opened JsValues

  /** The fields of a parsed token-endpoint or device-endpoint response. */
  datatype TokenResponse = TokenResponse(
    id: Option<string>,
    issuedAt: Option<string>,
    idToken: Option<string>,
    accessToken: Option<string>,
    refreshToken: Option<string>,
    instanceUrl: Option<string>,
    signature: Option<string>,
    verificationUri: Option<string>,
    userCode: Option<string>,
    deviceCode: Option<string>,
    interval: Option<int>)

  /** The second argument of `res.writeHead(302, ...)`. */
  datatype Header = Header(location: string, cookies: seq<string>)

  /** The payload of `res.render`. */
  datatype Page =
    | DevicePage(verificationUri: string, userCode: Option<string>, deviceCode: Option<string>,
                 isSandbox: bool, interval: Option<int>)
    | Payload(json: string)

  /** Redirect instruction handed to `processResponse`: a view and its payload. */
  datatype RenderTarget = RenderTarget(location: string, payload: string)

  /** What the handler does with `res`. */
  datatype Reply =
    | Status(code: nat, body: string)   // a status and the whole body, then `res.end()`
    | Found(header: Header)             // `res.writeHead(302, header); res.end()`
    | Render(view: string, page: Page)  // `res.render(view, page)`
    | Silent                            // nothing is written to `res`
    | Fault                             // an exception escapes the handler

  const ApiVersion := "v45.0"
  const SignatureMessage := "Signature not correct - Identity cannot be confirmed"
  const HelpMessage :=
    "Some error occurred. Make sure connected app is approved previously if its JWT flow, Username and Password is correct if its Password flow. "
  const ResponseLabel := " Salesforce Response : "

  /** The response names an identity URL and an issue time, so its signature is checked. */
  predicate ClaimsIdentity(r: TokenResponse)
  {
    Truthy(r.id) && Truthy(r.issuedAt)
  }

  /**
   The identity signature: Base64 of HMAC-SHA256 over `id + issued_at`, keyed
   with the client secret. A missing signature never matches.
   */
  predicate SignatureMatches(r: TokenResponse, clientSecret: string, hmacBase64: (string, string) -> string)
    requires ClaimsIdentity(r)
  {
    r.signature == Some(hmacBase64(r.id.value + r.issuedAt.value, clientSecret))
  }

  /** A response is trusted when it claims no identity or its signature matches. */
  predicate Trusted(r: TokenResponse, clientSecret: string, hmacBase64: (string, string) -> string)
  {
    ClaimsIdentity(r) ==> SignatureMatches(r, clientSecret, hmacBase64)
  }

  /** The redirect to the query page with the access token, API version, instance and identity URLs. */
  function SuccessHeader(r: TokenResponse): Header
    requires Truthy(r.accessToken)
  {
    Header("queryresult", [
      "AccToken=" + r.accessToken.value,
      "APIVer=" + ApiVersion,
      "InstURL=" + Str(r.instanceUrl),
      "idURL=" + Str(r.id)])
  }

  /**
   `accessTokenCallback`: a transport error answers 500 `Error` before the body
   is looked at; an identity claim whose signature does not match answers 500
   with the signature message even when an access token is present; an access
   token then gives the 302 to the query page with its four cookies in order;
   anything else echoes the raw body after the help message.
   */
  function AccessTokenReply(err: Option<string>, r: TokenResponse, rawBody: string,
                            clientSecret: string, hmacBase64: (string, string) -> string): (reply: Reply)
    ensures err.Some? ==> reply == Status(500, "Error")
    ensures err.None? && ClaimsIdentity(r) && !SignatureMatches(r, clientSecret, hmacBase64) ==>
              reply == Status(500, "Signature not correct - Identity cannot be confirmed")
    ensures reply.Found? <==> err.None? && Trusted(r, clientSecret, hmacBase64) && Truthy(r.accessToken)
    ensures reply.Found? ==>
              && reply.header.location == "queryresult"
              && reply.header.cookies == ["AccToken=" + r.accessToken.value, "APIVer=v45.0",
                                          "InstURL=" + Str(r.instanceUrl), "idURL=" + Str(r.id)]
    ensures err.None? && Trusted(r, clientSecret, hmacBase64) && !Truthy(r.accessToken) ==>
              reply == Status(200, HelpMessage + " Salesforce Response : " + rawBody)
    ensures reply.Status? || reply.Found?
  {
    if err.Some? then
      Status(500, "Error")
    else if ClaimsIdentity(r) && r.signature != Some(hmacBase64(r.id.value + r.issuedAt.value, clientSecret)) then
      Status(500, SignatureMessage)
    else if Truthy(r.accessToken) then
      assert "APIVer=" + ApiVersion == "APIVer=v45.0";
      Found(SuccessHeader(r))
    else
      Status(200, HelpMessage + ResponseLabel + rawBody)
  }

  /**
   The module-level refresh token after `accessTokenCallback`: replaced by the
   response's refresh token exactly when the reply is the success redirect and
   that token is truthy; otherwise, transport errors and rejections included,
   left as it was. The contract names the reply for an empty raw body; by
   SuccessIndependentOfBody, whether it is the success redirect is the same
   for the raw body actually received.
   */
  function StoredRefreshToken(err: Option<string>, r: TokenResponse, clientSecret: string,
                              hmacBase64: (string, string) -> string, current: string): (next: string)
    ensures AccessTokenReply(err, r, "", clientSecret, hmacBase64).Found? && Truthy(r.refreshToken) ==>
              next == r.refreshToken.value
    ensures !(AccessTokenReply(err, r, "", clientSecret, hmacBase64).Found? && Truthy(r.refreshToken)) ==>
              next == current
    ensures next != current ==> Some(next) == r.refreshToken && Truthy(r.accessToken)
  {
    if err.None? && Trusted(r, clientSecret, hmacBase64) && Truthy(r.accessToken) && Truthy(r.refreshToken) then
      r.refreshToken.value
    else
      current
  }

  /** Whether the success redirect is chosen does not depend on the raw body. */
  lemma SuccessIndependentOfBody(err: Option<string>, r: TokenResponse, a: string, b: string,
                                 clientSecret: string, hmacBase64: (string, string) -> string)
    ensures AccessTokenReply(err, r, a, clientSecret, hmacBase64).Found?
            == AccessTokenReply(err, r, b, clientSecret, hmacBase64).Found?
  {
  }

  /**
   `deviceFlowCallback`: a transport error answers 500 with `Error:` and the
   error text; an access token gives the same 302 as a token exchange, without
   any signature check; otherwise a truthy verification URI renders the
   `deviceOAuth` page with the codes, the sandbox flag and the interval;
   otherwise nothing is written.
   */
  function DeviceReply(err: Option<string>, r: TokenResponse, isSandbox: bool): (reply: Reply)
    ensures err.Some? ==> reply == Status(500, "Error:" + err.value)
    ensures reply.Found? <==> err.None? && Truthy(r.accessToken)
    ensures reply.Found? ==> reply.header == SuccessHeader(r)
    ensures reply.Render? <==> err.None? && !Truthy(r.accessToken) && Truthy(r.verificationUri)
    ensures reply.Render? ==>
              reply == Render("deviceOAuth", DevicePage(r.verificationUri.value, r.userCode, r.deviceCode,
                                                        isSandbox, r.interval))
    ensures reply == Silent <==> err.None? && !Truthy(r.accessToken) && !Truthy(r.verificationUri)
  {
    if err.Some? then
      Status(500, "Error:" + err.value)
    else if Truthy(r.accessToken) then
      Found(SuccessHeader(r))
    else if Truthy(r.verificationUri) then
      Render("deviceOAuth", DevicePage(r.verificationUri.value, r.userCode, r.deviceCode, isSandbox, r.interval))
    else
      Silent
  }

  /**
   On a trusted response with an access token and no transport error, the device
   callback and the token callback answer with the same redirect.
   */
  lemma DeviceSuccessMatchesTokenSuccess(r: TokenResponse, rawBody: string, isSandbox: bool,
                                         clientSecret: string, hmacBase64: (string, string) -> string)
    requires Trusted(r, clientSecret, hmacBase64) && Truthy(r.accessToken)
    ensures DeviceReply(None, r, isSandbox) == AccessTokenReply(None, r, rawBody, clientSecret, hmacBase64)
  {
  }

  /**
   `processResponse`: a redirect instruction renders its view, whatever else is
   given; otherwise a truthy error reaches `res.end(response)` with `response`
   undeclared, which throws; otherwise the supplied header goes out with a 302.
   */
  function DispatchReply(error: Option<string>, accessTokenHeader: Header,
                         redirect: Option<RenderTarget>): (reply: Reply)
    ensures redirect.Some? ==> reply == Render(redirect.value.location, Payload(redirect.value.payload))
    ensures redirect.None? && Truthy(error) ==> reply == Fault
    ensures reply.Found? <==> redirect.None? && !Truthy(error)
    ensures reply.Found? ==> reply.header == accessTokenHeader
  {
    if redirect.Some? then
      Render(redirect.value.location, Payload(redirect.value.payload))
    else if Truthy(error) then
      Fault
    else
      Found(accessTokenHeader)
  }
}
