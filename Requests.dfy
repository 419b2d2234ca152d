/**
 Outbound requests to the token endpoint: the POST record handed to the HTTP
 client, and the form body of the refresh-token grant (section 6 of RFC 6749).
 */
module Requests {
  import opened JsValues
  import opened Text
  import opened Base64Url

  /** The request object passed to the `request` library. */
  datatype PostRequest = PostRequest(
    verb: string,
    url: string,
    headers: seq<(string, string)>,
    body: string)

  /** `createPostRequest`: POST, the URL and body as given, one form-encoding header. */
  function CreatePostRequest(endpointUrl: string, body: string): (r: PostRequest)
    ensures r.verb == "POST"
    ensures r.url == endpointUrl && r.body == body
    ensures r.headers == [("Content-Type", "application/x-www-form-urlencoded")]
  {
    PostRequest("POST", endpointUrl, [("Content-Type", "application/x-www-form-urlencoded")], body)
  }

  /** The grant type of the `/refresh` handler. */
  const RefreshGrant := "refresh_token"

  /** `base64url.escape` leaves the grant type as it is, so the body below sends it unchanged. */
  lemma EscapeRefreshGrant()
    ensures Escape(RefreshGrant) == RefreshGrant
  {
    UrlSafeKeepsPlain(RefreshGrant);
  }

  /**
   The body of the `/refresh` handler: `grant_type=` and the grant type (which
   `base64url.escape` leaves unchanged, see EscapeRefreshGrant), then the
   stored refresh token and the client id, both concatenated as they are: no
   URL encoding, and an absent value becomes "undefined". Read back as a form,
   the first `&`-separated piece of each value completes its own field and
   every further piece becomes a field of its own; so the three fields carry
   exactly the values sent when neither value contains `&`.
   */
  function RefreshBody(refreshToken: Option<string>, clientId: Option<string>): (body: string)
    ensures var tokenPieces, clientPieces := Split(Str(refreshToken), '&'), Split(Str(clientId), '&');
            Split(body, '&') ==
              ["grant_type=" + RefreshGrant, "refresh_token=" + tokenPieces[0]] + tokenPieces[1..]
              + ["client_id=" + clientPieces[0]] + clientPieces[1..]
    ensures '&' !in Str(refreshToken) && '&' !in Str(clientId) ==>
              Split(body, '&') == ["grant_type=" + RefreshGrant, "refresh_token=" + Str(refreshToken), "client_id=" + Str(clientId)]
    ensures |Split(body, '&')| == 3 + Count(Str(refreshToken), '&') + Count(Str(clientId), '&')
  {
    var t, c := Str(refreshToken), Str(clientId);
    var body := "grant_type=" + RefreshGrant + "&refresh_token=" + t + "&client_id=" + c;
    Fields(t, c, body);
    FieldCount(t, c, body);
    if '&' !in t && '&' !in c then
      SplitNone(t, '&');
      SplitNone(c, '&');
      body
    else
      body
  }

  /** A slot value without `&` is read back whole as the refresh_token field, whatever the client id. */
  lemma RefreshTokenField(refreshToken: Option<string>, clientId: Option<string>)
    requires '&' !in Str(refreshToken)
    ensures Split(RefreshBody(refreshToken, clientId), '&')[1] == "refresh_token=" + Str(refreshToken)
  {
    SplitNone(Str(refreshToken), '&');
  }

  /** With no token in the slot the refresh_token field is the text `undefined`, whatever the client id. */
  lemma RefreshWithoutToken(clientId: Option<string>)
    ensures Split(RefreshBody(None, clientId), '&')[1] == "refresh_token=undefined"
  {
    assert Str(None) == "undefined";
    assert '&' !in "undefined";
    RefreshTokenField(None, clientId);
  }

  /** Joining two `&`-free strings gives an `&`-free string. */
  lemma NoAmpersand(a: string, b: string)
    requires '&' !in a && '&' !in b
    ensures '&' !in a + b
  {
    assert forall i :: 0 <= i < |a + b| ==> (a + b)[i] == if i < |a| then a[i] else b[i - |a|];
  }

  /** The refresh body read back as a form, for literal field names and any two values. */
  lemma Fields(t: string, c: string, body: string)
    requires body == "grant_type=" + RefreshGrant + "&refresh_token=" + t + "&client_id=" + c
    ensures Split(body, '&') ==
              ["grant_type=" + RefreshGrant, "refresh_token=" + Split(t, '&')[0]] + Split(t, '&')[1..]
              + ["client_id=" + Split(c, '&')[0]] + Split(c, '&')[1..]
  {
    BodyShape(t, c, body);
    JoinedFields("grant_type=" + RefreshGrant, "refresh_token=", "client_id=", t, c);
  }

  /** The refresh body is three `&`-free names with the two values, joined by `&`. */
  lemma BodyShape(t: string, c: string, body: string)
    requires body == "grant_type=" + RefreshGrant + "&refresh_token=" + t + "&client_id=" + c
    ensures body == ("grant_type=" + RefreshGrant) + ['&'] + ("refresh_token=" + t) + ['&'] + ("client_id=" + c)
    ensures '&' !in "grant_type=" + RefreshGrant && '&' !in "refresh_token=" && '&' !in "client_id="
  {
    NoAmpersand("grant_type=", RefreshGrant);
  }

  /** The refresh body has three fields plus one per `&` inside the two values. */
  lemma FieldCount(t: string, c: string, body: string)
    requires body == "grant_type=" + RefreshGrant + "&refresh_token=" + t + "&client_id=" + c
    ensures |Split(body, '&')| == 3 + Count(t, '&') + Count(c, '&')
  {
    BodyShape(t, c, body);
    JoinedCount("grant_type=" + RefreshGrant, "refresh_token=", "client_id=", t, c);
    SplitCount(body, '&');
  }

  /** Three `&`-joined fields whose names have no `&`: how the values' pieces become fields. */
  lemma JoinedFields(a: string, b: string, c: string, t: string, u: string)
    requires '&' !in a && '&' !in b && '&' !in c
    ensures Split(a + ['&'] + (b + t) + ['&'] + (c + u), '&') ==
              [a, b + Split(t, '&')[0]] + Split(t, '&')[1..] + [c + Split(u, '&')[0]] + Split(u, '&')[1..]
  {
    var pieces, tokenPieces, clientPieces := Split(a + ['&'] + (b + t) + ['&'] + (c + u), '&'), Split(t, '&'), Split(u, '&');
    SplitJoin3(a, b + t, c + u, '&');
    SplitNone(a, '&');
    SplitAfterPlain(b, t, '&');
    SplitAfterPlain(c, u, '&');
    assert pieces == [a] + ([b + tokenPieces[0]] + tokenPieces[1..]) + ([c + clientPieces[0]] + clientPieces[1..]);
    RegroupFields(a, b + tokenPieces[0], tokenPieces[1..], c + clientPieces[0], clientPieces[1..]);
  }

  /** Regrouping the field list of JoinedFields. */
  lemma RegroupFields(a: string, x: string, p: seq<string>, y: string, q: seq<string>)
    ensures [a] + ([x] + p) + ([y] + q) == [a, x] + p + [y] + q
  {
  }

  /** The number of `&` in three `&`-joined fields whose names have none. */
  lemma JoinedCount(a: string, b: string, c: string, t: string, u: string)
    requires '&' !in a && '&' !in b && '&' !in c
    ensures Count(a + ['&'] + (b + t) + ['&'] + (c + u), '&') == 2 + Count(t, '&') + Count(u, '&')
  {
    CountAfterPlain(b, t);
    CountAfterPlain(c, u);
    CountJoin(a, b + t, '&');
    CountJoin(a + ['&'] + (b + t), c + u, '&');
  }

  /** An `&`-free prefix adds no `&`. */
  lemma CountAfterPlain(a: string, b: string)
    requires '&' !in a
    ensures Count(a + b, '&') == Count(b, '&')
  {
    CountConcat(a, b, '&');
  }

  /** A separator between two strings adds one to the count. */
  lemma CountJoin(a: string, b: string, sep: char)
    ensures Count(a + [sep] + b, sep) == Count(a, sep) + 1 + Count(b, sep)
  {
    CountConcat(a, [sep], sep);
    CountConcat(a + [sep], b, sep);
  }
}
