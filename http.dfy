/** The recorded HTTP response that every check reads, and HttpUtils: status
    classes (section 15 of RFC 9110), reason phrases, header and body tests,
    and the query-string builder. */
module Http {
  import opened Results
  import Text
  import opened Json

  /** The parts of a RestAssured Response the harness reads. The header
      lookup (case-insensitive in the client library) and the JSON-path
      lookups (`jsonPath().get`, `jsonPath().getList`, evaluated by the
      library's GPath engine) are opaque functions; a JSON null at the path
      is reported by `jsonPath` as Some(JNull), which the source sees as a
      Java null. */
  datatype Response = Response(
    statusCode: int,
    time: int,
    header: string -> Option<string>,
    body: string,
    jsonPath: string -> Option<Json>,
    jsonList: string -> Option<seq<Json>>)

  // ---------------------------------------------------------------------
  // Status codes

  predicate IsSuccessStatusCode(statusCode: int) {
    200 <= statusCode < 300
  }

  predicate IsClientError(statusCode: int) {
    400 <= statusCode < 500
  }

  predicate IsServerError(statusCode: int) {
    500 <= statusCode < 600
  }

  /** No status code is in two of the three classes. */
  lemma StatusClassesDisjoint(statusCode: int)
    ensures !(IsSuccessStatusCode(statusCode) && IsClientError(statusCode))
    ensures !(IsSuccessStatusCode(statusCode) && IsServerError(statusCode))
    ensures !(IsClientError(statusCode) && IsServerError(statusCode))
  {
  }

  /** For a three-digit code the predicates agree with section 15 of
      RFC 9110: the first digit of the code names its class. */
  lemma StatusClassIsFirstDigit(statusCode: int)
    requires 100 <= statusCode <= 999
    ensures IsSuccessStatusCode(statusCode) <==> Text.IntToString(statusCode)[0] == '2'
    ensures IsClientError(statusCode) <==> Text.IntToString(statusCode)[0] == '4'
    ensures IsServerError(statusCode) <==> Text.IntToString(statusCode)[0] == '5'
  {
    var hundreds := statusCode / 100;
    assert Text.NatToString(statusCode) ==
      Text.NatToString(statusCode / 10) + [Text.DigitChar(statusCode % 10)];
    assert Text.NatToString(statusCode / 10) ==
      Text.NatToString(hundreds) + [Text.DigitChar(statusCode / 10 % 10)];
    assert Text.NatToString(hundreds) == [Text.DigitChar(hundreds)];
    assert Text.IntToString(statusCode)[0] == Text.DigitChar(hundreds);
  }

  const UnknownStatus: string := "Unknown Status Code"

  /** The table getStatusCodeDescription fills before its lookup. */
  const StatusPhrases: map<int, string> := map[
    200 := "OK",
    201 := "Created",
    204 := "No Content",
    400 := "Bad Request",
    401 := "Unauthorized",
    403 := "Forbidden",
    404 := "Not Found",
    405 := "Method Not Allowed",
    409 := "Conflict",
    422 := "Unprocessable Entity",
    500 := "Internal Server Error",
    502 := "Bad Gateway",
    503 := "Service Unavailable"]

  /** getStatusCodeDescription: `getOrDefault` on the table. */
  function StatusCodeDescription(statusCode: int): string {
    if statusCode in StatusPhrases then StatusPhrases[statusCode] else UnknownStatus
  }

  /** Exactly the thirteen listed codes have a phrase, every other integer
      is described as unknown, every listed code is a success, client error
      or server error, and 200 and 404 read "OK" and "Not Found". */
  lemma StatusCodeDescriptionTable(statusCode: int)
    ensures StatusCodeDescription(statusCode) != UnknownStatus <==>
      statusCode in {200, 201, 204, 400, 401, 403, 404, 405, 409, 422, 500, 502, 503}
    ensures StatusCodeDescription(statusCode) != UnknownStatus ==>
      IsSuccessStatusCode(statusCode) || IsClientError(statusCode) || IsServerError(statusCode)
    ensures StatusCodeDescription(200) == "OK" && StatusCodeDescription(404) == "Not Found"
  {
    assert StatusPhrases.Keys == {200, 201, 204, 400, 401, 403, 404, 405, 409, 422, 500, 502, 503};
    assert forall c :: c in StatusPhrases ==> StatusPhrases[c] != UnknownStatus;
  }

  // ---------------------------------------------------------------------
  // Headers and body

  /** hasHeader: the header is present and not blank. */
  predicate HasHeader(response: Response, name: string) {
    Text.IsNotBlank(response.header(name))
  }

  function ContentType(response: Response): Option<string> {
    response.header("Content-Type")
  }

  predicate IsJsonResponse(response: Response) {
    var ct := ContentType(response);
    ct.Some? && Text.Contains(ct.value, "application/json")
  }

  predicate IsXmlResponse(response: Response) {
    var ct := ContentType(response);
    ct.Some? && (Text.Contains(ct.value, "application/xml") || Text.Contains(ct.value, "text/xml"))
  }

  /** A JSON content type is recognised whatever parameters follow it. */
  lemma JsonContentTypeWithParameters(response: Response)
    requires ContentType(response) == Some("application/json; charset=utf-8")
    ensures IsJsonResponse(response)
  {
    var ct := "application/json; charset=utf-8";
    assert ct[..16] == "application/json";
  }

  /** Without a Content-Type header the response is neither JSON nor XML,
      and a whitespace-only header does not count as present. */
  lemma MissingOrBlankHeaders(response: Response, name: string)
    ensures ContentType(response).None? ==>
      !IsJsonResponse(response) && !IsXmlResponse(response) && !HasHeader(response, "Content-Type")
    ensures response.header(name) == Some(" \t") ==> !HasHeader(response, name)
  {
  }

  predicate IsResponseTimeAcceptable(response: Response, maxResponseTime: int) {
    response.time <= maxResponseTime
  }

  predicate IsResponseBodyEmpty(response: Response) {
    Text.IsBlank(Some(response.body))
  }

  /** HttpUtils' emptiness test (StringUtils.isBlank, on Java whitespace)
      and the validators' `trim().isEmpty()` (characters up to U+0020) both
      hold exactly when every character is in both sets. */
  lemma BlankVersusTrim(s: string)
    ensures (Text.IsBlank(Some(s)) && Text.Trim(s) == "") <==>
      forall i :: 0 <= i < |s| ==> Text.IsJavaWhitespace(s[i]) && s[i] <= ' '
  {
    Text.TrimIsEmptyIff(s);
  }

  /** Where the two tests disagree: an em space is blank yet survives
      `trim`. */
  lemma EmSpaceBlankButNotTrimmed()
    ensures Text.IsBlank(Some("\U{2003}")) && Text.Trim("\U{2003}") != ""
  {
    var s := "\U{2003}";
    assert s[0] > ' ';
    assert Text.TrimStart(s) == s;
    assert Text.TrimEnd(s) == s;
  }

  /** ... and a NUL is trimmed away yet is not blank. */
  lemma NulTrimmedButNotBlank()
    ensures !Text.IsBlank(Some("\U{0}")) && Text.Trim("\U{0}") == ""
  {
    var s := "\U{0}";
    assert s[0] <= ' ' && s[1..] == "";
    assert Text.TrimStart(s) == "";
    assert !Text.IsJavaWhitespace(s[0]);
  }

  /** isResponseBodyEmpty on two sample bodies: blanks and line breaks are
      empty, "{}" is not. */
  lemma BodyEmptinessExamples(response: Response)
    ensures response.body == " \r\n" ==> IsResponseBodyEmpty(response)
    ensures response.body == "{}" ==> !IsResponseBodyEmpty(response)
  {
    if response.body == "{}" {
      assert !Text.IsJavaWhitespace(response.body[0]);
    }
  }

  /** Query-string builder specification: "key=value" per entry, in the
      map's iteration order, joined with '&', no percent-encoding. */
  function QueryPairs(entries: seq<(string, string)>): (pairs: seq<string>)
    ensures |pairs| == |entries|
  {
    seq(|entries|, i requires 0 <= i < |entries| => entries[i].0 + "=" + entries[i].1)
  }

  /** buildQueryString. The parameter map is given by its entries in
      iteration order; None is a null map. */
  method BuildQueryString(params: Option<seq<(string, string)>>) returns (query: string)
    ensures params.None? || params.value == [] ==> query == ""
    ensures params.Some? ==> query == Text.Join(QueryPairs(params.value), "&")
  {
    if params.None? || |params.value| == 0 {
      return "";
    }
    var entries := params.value;
    query := "";
    for i := 0 to |entries|
      invariant i == 0 ==> query == ""
      invariant i > 0 ==> |query| > 0 && query == Text.Join(QueryPairs(entries[..i]), "&")
    {
      var pair := entries[i].0 + "=" + entries[i].1;
      assert QueryPairs(entries[..i + 1]) == QueryPairs(entries[..i]) + [pair];
      if |query| > 0 {
        query := query + "&";
        Text.JoinSnoc(QueryPairs(entries[..i]), pair, "&");
      }
      query := query + pair;
    }
    assert entries[..|entries|] == entries;
  }

  /** When no key or value holds '&', splitting the query string at '&'
      gives back the "key=value" pieces: the string is unambiguous. */
  lemma QueryStringSplitsBack(entries: seq<(string, string)>)
    requires |entries| >= 1
    requires forall i :: 0 <= i < |entries| ==> '&' !in entries[i].0 && '&' !in entries[i].1
    ensures Text.Split(Text.Join(QueryPairs(entries), "&"), '&') == QueryPairs(entries)
  {
    var pairs := QueryPairs(entries);
    forall i | 0 <= i < |pairs| ensures '&' !in pairs[i] {
      assert pairs[i] == entries[i].0 + "=" + entries[i].1;
    }
    Text.SplitOfJoin(pairs, '&');
  }
}
