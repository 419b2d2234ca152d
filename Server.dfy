/**
 The process-level state of the server and the handlers that change it.

 Three pieces of state are written at run time, and they are kept apart as in
 the server: the sandbox flag, the module-level `refreshToken` (written by the
 token callback) and the `refreshToken` property of the global object (written
 by `processResponse`, which runs with `this` bound to the global object, and
 read by the `/refresh` handler in the same way). The configuration read from
 the environment at start-up is fixed.
 */
module Server {
  import opened JsValues
  import opened Text
  import opened Requests
  import opened Callbacks

  const SandboxBase := "https://test.salesforce.com/"
  const TokenPath := "/services/oauth2/token"

  class Server {
    /** `CLIENT_ID`, `CLIENT_SECRET` and `BASE_URL` from the environment. */
    const clientId: Option<string>
    const clientSecret: string
    const baseUrl: Option<string>
    /** `Base64(HmacSHA256(message, key))` of the crypto library. */
    const hmacBase64: (string, string) -> string

    /** `isSandbox`, false at start-up. */
    var isSandbox: bool
    /** The module-level `refreshToken`, `''` at start-up. */
    var refreshToken: string
    /** `this.refreshToken` on the global object, `undefined` at start-up. */
    var globalRefreshToken: Option<string>

    constructor (clientId: Option<string>, clientSecret: string, baseUrl: Option<string>,
                 hmacBase64: (string, string) -> string)
      ensures this.clientId == clientId && this.clientSecret == clientSecret
      ensures this.baseUrl == baseUrl && this.hmacBase64 == hmacBase64
      ensures !isSandbox && refreshToken == "" && globalRefreshToken == None
    {
      this.clientId := clientId;
      this.clientSecret := clientSecret;
      this.baseUrl := baseUrl;
      this.hmacBase64 := hmacBase64;
      isSandbox := false;
      refreshToken := "";
      globalRefreshToken := None;
    }

    /** `setSandbox`: the sandbox flag is set exactly for the string `'true'` (an absent query gives false). */
    method SetSandbox(sandboxString: Option<string>)
      modifies this`isSandbox
      ensures isSandbox <==> sandboxString == Some("true")
    {
      isSandbox := sandboxString == Some("true");
    }

    /** `getBaseUrl`: the sandbox login host, or the configured base URL (possibly undefined). */
    function GetBaseUrl(): (url: Option<string>)
      reads this
      ensures isSandbox ==> url == Some("https://test.salesforce.com/")
      ensures !isSandbox ==> url == baseUrl
    {
      if isSandbox then Some(SandboxBase) else baseUrl
    }

    /**
     `getTokenEndpoint`: the base URL followed by `/services/oauth2/token`; for a
     sandbox the base already ends in `/`, so the path has a double slash.
     */
    function GetTokenEndpoint(): (url: string)
      reads this
      ensures isSandbox ==> url == "https://test.salesforce.com//services/oauth2/token"
      ensures !isSandbox ==> url == Str(baseUrl) + "/services/oauth2/token"
    {
      Str(GetBaseUrl()) + TokenPath
    }

    /**
     `accessTokenCallback`: answers as AccessTokenReply says, and replaces the
     module-level refresh token only on a success that carries one.
     */
    method AccessTokenCallback(err: Option<string>, rawBody: string, response: TokenResponse)
      returns (reply: Reply)
      modifies this`refreshToken
      ensures reply == AccessTokenReply(err, response, rawBody, clientSecret, hmacBase64)
      ensures refreshToken == StoredRefreshToken(err, response, clientSecret, hmacBase64, old(refreshToken))
    {
      reply := AccessTokenReply(err, response, rawBody, clientSecret, hmacBase64);
      if reply.Found? && Truthy(response.refreshToken) {
        refreshToken := response.refreshToken.value;
      }
    }

    /**
     `deviceFlowCallback`: answers as DeviceReply says, with the current sandbox
     flag on the rendered page; no state of the server changes.
     */
    method DeviceFlowCallback(err: Option<string>, response: TokenResponse) returns (reply: Reply)
      ensures reply == DeviceReply(err, response, isSandbox)
      ensures reply.Render? ==> reply.page.DevicePage? && reply.page.isSandbox == isSandbox
    {
      reply := DeviceReply(err, response, isSandbox);
    }

    /**
     `processResponse`: answers as DispatchReply says; only the success branch
     stores the given refresh token (whatever it is, `undefined` included) in
     the global slot.
     */
    method ProcessResponse(error: Option<string>, accessTokenHeader: Header, token: Option<string>,
                           redirect: Option<RenderTarget>)
      returns (reply: Reply)
      modifies this`globalRefreshToken
      ensures reply == DispatchReply(error, accessTokenHeader, redirect)
      ensures globalRefreshToken == if reply.Found? then token else old(globalRefreshToken)
    {
      reply := DispatchReply(error, accessTokenHeader, redirect);
      if redirect.None? && !Truthy(error) {
        globalRefreshToken := token;
      }
    }

    /**
     The `/refresh` handler up to the outbound call: set the sandbox flag from
     the query, then POST the refresh body, built from the global slot, to the
     token endpoint.
     */
    method Refresh(sandboxQuery: Option<string>) returns (request: PostRequest)
      modifies this`isSandbox
      ensures isSandbox <==> sandboxQuery == Some("true")
      ensures request.verb == "POST" && request.url == GetTokenEndpoint()
      ensures request.body == RefreshBody(globalRefreshToken, clientId)
      ensures request.headers == [("Content-Type", "application/x-www-form-urlencoded")]
    {
      SetSandbox(sandboxQuery);
      var endpointUrl := GetTokenEndpoint();
      var paramBody := RefreshBody(globalRefreshToken, clientId);
      request := CreatePostRequest(endpointUrl, paramBody);
    }
  }

  /**
   A token exchange answered through `accessTokenCallback` stores its refresh
   token in the module variable only, so a following `/refresh` on a fresh
   process sends `refresh_token=undefined`.
   */
  method TokenCallbackThenRefresh(clientId: Option<string>, clientSecret: string, baseUrl: Option<string>,
                                  hmacBase64: (string, string) -> string, rawBody: string,
                                  response: TokenResponse)
    returns (stored: string, request: PostRequest)
    requires Trusted(response, clientSecret, hmacBase64)
    requires Truthy(response.accessToken) && Truthy(response.refreshToken)
    ensures stored == response.refreshToken.value
    ensures request.body == RefreshBody(None, clientId)
    ensures Split(request.body, '&')[1] == "refresh_token=undefined"
  {
    var server := new Server(clientId, clientSecret, baseUrl, hmacBase64);
    var reply := server.AccessTokenCallback(None, rawBody, response);
    assert AccessTokenReply(None, response, "", clientSecret, hmacBase64).Found?;
    stored := server.refreshToken;
    assert stored == response.refreshToken.value;
    assert server.globalRefreshToken == None && server.clientId == clientId;
    request := server.Refresh(None);
    assert request.body == RefreshBody(server.globalRefreshToken, server.clientId);
    RefreshWithoutToken(clientId);
  }

  /**
   After `processResponse` takes its success branch with a refresh token, the
   next `/refresh` sends exactly that token as the refresh_token field.
   */
  method ProcessThenRefresh(clientId: Option<string>, clientSecret: string, baseUrl: Option<string>,
                            hmacBase64: (string, string) -> string, accessTokenHeader: Header,
                            token: string, sandboxQuery: Option<string>)
    returns (reply: Reply, request: PostRequest)
    ensures reply == Found(accessTokenHeader)
    ensures request.body == RefreshBody(Some(token), clientId)
    ensures '&' !in token ==> Split(request.body, '&')[1] == "refresh_token=" + token
    ensures sandboxQuery == Some("true") ==> request.url == "https://test.salesforce.com//services/oauth2/token"
  {
    var server := new Server(clientId, clientSecret, baseUrl, hmacBase64);
    reply := server.ProcessResponse(None, accessTokenHeader, Some(token), None);
    assert server.globalRefreshToken == Some(token) && server.clientId == clientId;
    request := server.Refresh(sandboxQuery);
    assert request.body == RefreshBody(server.globalRefreshToken, server.clientId);
    if '&' !in token {
      RefreshTokenField(Some(token), clientId);
    }
  }
}
