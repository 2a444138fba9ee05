/** ApiConfig: the request specifications every call starts from and the
    client settings taken from the configuration. A specification is kept
    as the list of headers it will send, in the order they were added. */
module ApiConfig {
  import opened Results
  import opened Config

  type Headers = seq<(string, string)>

  /** The value of the first header with this name, if any. */
  function HeaderValue(headers: Headers, name: string): (r: Option<string>)
    ensures r.None? <==> forall i :: 0 <= i < |headers| ==> headers[i].0 != name
    ensures r.Some? ==> exists i :: (0 <= i < |headers| && headers[i] == (name, r.value) &&
      forall j :: 0 <= j < i ==> headers[j].0 != name)
  {
    if |headers| == 0 then None
    else if headers[0].0 == name then Some(headers[0].1)
    else
      var r := HeaderValue(headers[1..], name);
      assert forall i :: 1 <= i < |headers| ==> headers[i] == headers[1..][i - 1];
      assert r.Some? ==> exists i :: (0 <= i < |headers| && headers[i] == (name, r.value) &&
        forall j :: 0 <= j < i ==> headers[j].0 != name) by {
        if r.Some? {
          var k :| 0 <= k < |headers[1..]| && headers[1..][k] == (name, r.value) &&
            forall j :: 0 <= j < k ==> headers[1..][j].0 != name;
          assert headers[k + 1] == (name, r.value);
          assert forall j :: 0 <= j < k + 1 ==> headers[j].0 != name by {
            forall j | 0 <= j < k + 1 ensures headers[j].0 != name {
              if j > 0 {
                assert headers[j] == headers[1..][j - 1];
              }
            }
          }
        }
      }
      r
  }

  const BaseHeaders: Headers := [("Content-Type", "application/json"), ("Accept", "application/json")]

  /** RestAssured's RequestSpecification, reduced to its headers. */
  class RequestSpec {
    var headers: Headers

    constructor ()
      ensures headers == []
    {
      headers := [];
    }

    /** header(name, value): appends one header. */
    method Header(name: string, value: string)
      modifies this
      ensures headers == old(headers) + [(name, value)]
    {
      headers := headers + [(name, value)];
    }
  }

  /** getBaseRequestSpec: a new specification with JSON content type and
      JSON accept headers. */
  method GetBaseRequestSpec() returns (spec: RequestSpec)
    ensures fresh(spec)
    ensures spec.headers == BaseHeaders
  {
    spec := new RequestSpec();
    spec.Header("Content-Type", "application/json");
    spec.Header("Accept", "application/json");
  }

  /** The headers of the authenticated specification: the base headers,
      then "Authorization: Bearer <token>" when the token is non-null and
      non-empty (section 2.1 of RFC 6750). */
  function AuthenticatedHeaders(token: Option<string>): (h: Headers)
    ensures |h| >= |BaseHeaders| && h[..|BaseHeaders|] == BaseHeaders
  {
    if token.Some? && token.value != "" then BaseHeaders + [("Authorization", "Bearer " + token.value)]
    else BaseHeaders
  }

  /** getAuthenticatedRequestSpec: the base specification, with the bearer
      header added only for a non-empty token. */
  method GetAuthenticatedRequestSpec(config: ConfigManager) returns (spec: RequestSpec)
    ensures fresh(spec)
    ensures spec.headers == AuthenticatedHeaders(config.AuthToken())
  {
    spec := GetBaseRequestSpec();
    var token := config.AuthToken();
    if token.Some? && token.value != "" {
      spec.Header("Authorization", "Bearer " + token.value);
    }
  }

  /** The base request sends exactly the two JSON headers and no
      Authorization header. */
  lemma BaseHeadersContent()
    ensures HeaderValue(BaseHeaders, "Content-Type") == Some("application/json")
    ensures HeaderValue(BaseHeaders, "Accept") == Some("application/json")
    ensures HeaderValue(BaseHeaders, "Authorization").None?
  {
  }

  /** An Authorization header is sent iff the token is non-empty, and it
      then carries the scheme "Bearer", one space, and the token itself;
      with a null or empty token the headers are the base headers. */
  lemma BearerHeaderIffToken(token: Option<string>)
    ensures HeaderValue(AuthenticatedHeaders(token), "Authorization").Some? <==> token.Some? && token.value != ""
    ensures token.Some? && token.value != "" ==>
      var v := HeaderValue(AuthenticatedHeaders(token), "Authorization").value;
      v[..7] == "Bearer " && v[7..] == token.value
    ensures token.None? || token.value == "" ==> AuthenticatedHeaders(token) == BaseHeaders
  {
    BaseHeadersContent();
    var h := AuthenticatedHeaders(token);
    if token.Some? && token.value != "" {
      assert h[2] == ("Authorization", "Bearer " + token.value);
      assert HeaderValue(h, "Authorization") == Some("Bearer " + token.value) by {
        assert h[1..][1..] == [("Authorization", "Bearer " + token.value)];
      }
    }
  }

  /** The client settings setupRestAssured installs. */
  datatype ClientSettings = ClientSettings(baseUri: Option<string>, connectionTimeout: int, socketTimeout: int)

  /** setupRestAssured: the base URI and one timeout for both connecting
      and reading. */
  function ClientSettingsOf(config: ConfigManager): (s: ClientSettings)
    ensures s.connectionTimeout == s.socketTimeout == GetTimeout(config)
    ensures s.baseUri == GetBaseUrl(config)
  {
    ClientSettings(config.BaseUrl(), config.Timeout(), config.Timeout())
  }

  /** getBaseUrl: the configured URL, null when unset. */
  function GetBaseUrl(config: ConfigManager): (r: Option<string>)
    ensures r == config.GetProperty("api.base.url")
  {
    config.BaseUrl()
  }

  /** getTimeout: the configured timeout, 30000 when unset. */
  function GetTimeout(config: ConfigManager): (r: int)
    ensures r == config.GetIntPropertyOr("api.timeout", 30000)
  {
    config.Timeout()
  }

  /** With nothing configured, the client waits 30000 ms to connect and to
      read, and has no base URI. */
  lemma DefaultClientSettings(config: ConfigManager)
    requires config.properties == map[]
    ensures ClientSettingsOf(config) == ClientSettings(None, 30000, 30000)
  {
  }
}
