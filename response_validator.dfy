/** ResponseValidator: one check per response attribute. Each check in the
    source logs expected and actual values and then asserts; here it returns
    Pass, or Fail with the expected and actual values it would have logged
    (the source's Chinese labels such as "存在"/"不存在" are rendered in
    English). */
module ResponseValidator {
  import opened Results
  import Text
  import opened Json
  import opened Http

  const Present: string := "present"
  const Absent: string := "absent"
  const Empty: string := "empty"
  const NonEmpty: string := "non-empty"

  /** Java's `String.valueOf` of a string reference that may be null. */
  function OrNull(s: Option<string>): string {
    s.GetOr("null")
  }

  function ValidateStatusCode(response: Response, expectedStatusCode: int): (c: Check)
    ensures c.Pass? <==> response.statusCode == expectedStatusCode
    ensures c.Fail? ==> c.actual == Text.IntToString(response.statusCode)
  {
    Require(response.statusCode == expectedStatusCode,
      Text.IntToString(expectedStatusCode), Text.IntToString(response.statusCode))
  }

  function ValidateResponseTime(response: Response, maxResponseTime: int): (c: Check)
    ensures c.Pass? <==> IsResponseTimeAcceptable(response, maxResponseTime)
  {
    Require(response.time <= maxResponseTime,
      "<= " + Text.IntToString(maxResponseTime) + "ms", Text.IntToString(response.time) + "ms")
  }

  function ValidateHeader(response: Response, headerName: string, expectedValue: string): (c: Check)
    ensures c.Pass? <==> response.header(headerName) == Some(expectedValue)
  {
    var actual := response.header(headerName);
    Require(actual == Some(expectedValue), expectedValue, OrNull(actual))
  }

  function ValidateHeaderExists(response: Response, headerName: string): (c: Check)
    ensures c.Pass? <==> HasHeader(response, headerName)
  {
    var exists_ := HasHeader(response, headerName);
    Require(exists_, Present, if exists_ then Present else Absent)
  }

  function ValidateContentType(response: Response, expectedContentType: string): (c: Check)
    ensures c.Pass? <==> (ContentType(response).Some? &&
      exists i :: Text.OccursAt(ContentType(response).value, expectedContentType, i))
  {
    var actual := ContentType(response);
    assert actual.Some? ==> (Text.Contains(actual.value, expectedContentType) <==>
      exists i :: Text.OccursAt(actual.value, expectedContentType, i)) by {
      if actual.Some? {
        Text.ContainsIff(actual.value, expectedContentType);
      }
    }
    Require(actual.Some? && Text.Contains(actual.value, expectedContentType),
      expectedContentType, OrNull(actual))
  }

  function ValidateResponseBodyNotEmpty(response: Response): (c: Check)
    ensures c.Pass? <==> exists i :: 0 <= i < |response.body| && !Text.IsJavaWhitespace(response.body[i])
  {
    var isEmpty := IsResponseBodyEmpty(response);
    Require(!isEmpty, NonEmpty, if isEmpty then Empty else NonEmpty)
  }

  function ValidateResponseBodyEmpty(response: Response): (c: Check)
    ensures c.Pass? <==> forall i :: 0 <= i < |response.body| ==> Text.IsJavaWhitespace(response.body[i])
  {
    var isEmpty := IsResponseBodyEmpty(response);
    Require(isEmpty, Empty, if isEmpty then Empty else NonEmpty)
  }

  /** validateJsonField: `expectedValue.equals(actualValue)` after the
      library's lookup, with Java's List and Map equality for arrays and
      objects. An expected Java null (JNull) throws before the comparison,
      and a present JSON null is a Java null, so neither can pass; there is
      no coercion between numbers and strings. */
  function ValidateJsonField(response: Response, jsonPath: string, expectedValue: Json): (c: Check)
    ensures c.Pass? <==>
      expectedValue != JNull && response.jsonPath(jsonPath).Some? &&
      ValueEquals(expectedValue, response.jsonPath(jsonPath).value)
    ensures expectedValue != JNull && response.jsonPath(jsonPath) == Some(expectedValue) ==> c.Pass?
    ensures response.jsonPath(jsonPath).None? || response.jsonPath(jsonPath) == Some(JNull) ==> c.Fail?
  {
    var actual := response.jsonPath(jsonPath);
    var shown := if actual.None? then "null" else Show(actual.value);
    assert actual == Some(expectedValue) ==> ValueEquals(expectedValue, actual.value) by {
      ValueEqualsReflexive(expectedValue);
    }
    ValueEqualsScalars(expectedValue, JNull);
    var equal := expectedValue != JNull && actual.Some? && ValueEquals(expectedValue, actual.value);
    Require(equal, Show(expectedValue), shown)
  }

  /** The value at the path is a non-null Java object. */
  predicate JsonFieldPresent(response: Response, jsonPath: string) {
    var value := response.jsonPath(jsonPath);
    value.Some? && value.value != JNull
  }

  function ValidateJsonFieldExists(response: Response, jsonPath: string): (c: Check)
    ensures c.Pass? <==> response.jsonPath(jsonPath).Some? && response.jsonPath(jsonPath) != Some(JNull)
  {
    var exists_ := JsonFieldPresent(response, jsonPath);
    Require(exists_, Present, if exists_ then Present else Absent)
  }

  function ValidateJsonFieldNotExists(response: Response, jsonPath: string): (c: Check)
    ensures c.Pass? <==> response.jsonPath(jsonPath).None? || response.jsonPath(jsonPath) == Some(JNull)
  {
    var notExists := !JsonFieldPresent(response, jsonPath);
    Require(notExists, Absent, if notExists then Absent else Present)
  }

  /** validateJsonArraySize: a null list counts as size 0. */
  function ValidateJsonArraySize(response: Response, jsonPath: string, expectedSize: int): (c: Check)
    ensures c.Pass? <==>
      if response.jsonList(jsonPath).Some? then |response.jsonList(jsonPath).value| == expectedSize
      else expectedSize == 0
  {
    var list := response.jsonList(jsonPath);
    var actualSize := if list.Some? then |list.value| else 0;
    Require(actualSize == expectedSize, Text.IntToString(expectedSize), Text.IntToString(actualSize))
  }

  function ValidateJsonArrayNotEmpty(response: Response, jsonPath: string): (c: Check)
    ensures c.Pass? <==> response.jsonList(jsonPath).Some? && response.jsonList(jsonPath).value != []
  {
    var list := response.jsonList(jsonPath);
    var notEmpty := list.Some? && |list.value| > 0;
    Require(notEmpty, NonEmpty, if notEmpty then NonEmpty else Empty)
  }

  /** validateJsonFormat: the body parses (the parser is the library's). */
  function ValidateJsonFormat(parse: string -> Option<Json>, response: Response): (c: Check)
    ensures c.Pass? <==> parse(response.body).Some?
  {
    var valid := IsValidJson(parse, response.body);
    Require(valid, "valid", if valid then "valid" else "invalid")
  }

  function ValidateResponseBodyContains(response: Response, expectedText: string): (c: Check)
    ensures c.Pass? <==> exists i :: Text.OccursAt(response.body, expectedText, i)
  {
    Text.ContainsIff(response.body, expectedText);
    var contains := Text.Contains(response.body, expectedText);
    Require(contains, expectedText, if contains then "contains" else "does not contain")
  }

  function ValidateResponseBodyNotContains(response: Response, unexpectedText: string): (c: Check)
    ensures c.Pass? <==> forall i :: !Text.OccursAt(response.body, unexpectedText, i)
  {
    Text.ContainsIff(response.body, unexpectedText);
    var notContains := !Text.Contains(response.body, unexpectedText);
    Require(notContains, "does not contain " + unexpectedText,
      if notContains then "does not contain" else "contains")
  }

  /** validateBasicResponse: status, then time, then content type, then a
      non-blank body, stopping at the first failure. */
  function ValidateBasicResponse(response: Response, expectedStatusCode: int,
                                 maxResponseTime: int, expectedContentType: string): (c: Check)
    ensures c.Pass? <==>
      && ValidateStatusCode(response, expectedStatusCode).Pass?
      && ValidateResponseTime(response, maxResponseTime).Pass?
      && ValidateContentType(response, expectedContentType).Pass?
      && ValidateResponseBodyNotEmpty(response).Pass?
    ensures ValidateStatusCode(response, expectedStatusCode).Fail? ==>
      c == ValidateStatusCode(response, expectedStatusCode)
    ensures ValidateStatusCode(response, expectedStatusCode).Pass? &&
            ValidateResponseTime(response, maxResponseTime).Fail? ==>
      c == ValidateResponseTime(response, maxResponseTime)
    ensures ValidateStatusCode(response, expectedStatusCode).Pass? &&
            ValidateResponseTime(response, maxResponseTime).Pass? &&
            ValidateContentType(response, expectedContentType).Fail? ==>
      c == ValidateContentType(response, expectedContentType)
    ensures ValidateStatusCode(response, expectedStatusCode).Pass? &&
            ValidateResponseTime(response, maxResponseTime).Pass? &&
            ValidateContentType(response, expectedContentType).Pass? ==>
      c == ValidateResponseBodyNotEmpty(response)
  {
    ValidateStatusCode(response, expectedStatusCode)
      .Then(ValidateResponseTime(response, maxResponseTime))
      .Then(ValidateContentType(response, expectedContentType))
      .Then(ValidateResponseBodyNotEmpty(response))
  }

  // ---------------------------------------------------------------------
  // Properties relating the checks

  /** For any response and path exactly one of the two existence checks
      passes; a present JSON null counts as not existing. */
  lemma JsonFieldExistenceComplementary(response: Response, jsonPath: string)
    ensures ValidateJsonFieldExists(response, jsonPath).Pass? != ValidateJsonFieldNotExists(response, jsonPath).Pass?
    ensures response.jsonPath(jsonPath) == Some(JNull) ==>
      ValidateJsonFieldNotExists(response, jsonPath).Pass? && ValidateJsonField(response, jsonPath, JNull).Fail?
  {
  }

  /** A passing equality check implies the field exists. */
  lemma JsonFieldEqualsImpliesExists(response: Response, jsonPath: string, expectedValue: Json)
    requires ValidateJsonField(response, jsonPath, expectedValue).Pass?
    ensures ValidateJsonFieldExists(response, jsonPath).Pass?
  {
  }

  /** No coercion: the number 1 does not equal the text "1". */
  lemma JsonFieldNoCoercion(response: Response, jsonPath: string)
    requires response.jsonPath(jsonPath) == Some(JInt(1))
    ensures ValidateJsonField(response, jsonPath, JInt(1)).Pass?
    ensures ValidateJsonField(response, jsonPath, JString("1")).Fail?
  {
  }

  /** An object-valued expectation matches the value at the path whatever
      the order of its members. */
  lemma JsonFieldIgnoresMemberOrder(response: Response, jsonPath: string)
    requires response.jsonPath(jsonPath) == Some(JObject([("b", JInt(2)), ("a", JInt(1))]))
    ensures ValidateJsonField(response, jsonPath, JObject([("a", JInt(1)), ("b", JInt(2))])).Pass?
  {
    ValueEqualsIgnoresMemberOrder();
  }

  /** An exact size of at least one implies a non-empty list; an absent list
      has size 0 yet is not "non-empty". */
  lemma ArraySizeImpliesNotEmpty(response: Response, jsonPath: string, n: int)
    ensures n >= 1 && ValidateJsonArraySize(response, jsonPath, n).Pass? ==>
      ValidateJsonArrayNotEmpty(response, jsonPath).Pass?
    ensures response.jsonList(jsonPath).None? ==>
      ValidateJsonArraySize(response, jsonPath, 0).Pass? && ValidateJsonArrayNotEmpty(response, jsonPath).Fail?
  {
  }

  /** The two body-emptiness checks, and the two body-text checks, are
      complementary. */
  lemma BodyChecksComplementary(response: Response, text: string)
    ensures ValidateResponseBodyEmpty(response).Pass? != ValidateResponseBodyNotEmpty(response).Pass?
    ensures ValidateResponseBodyContains(response, text).Pass? != ValidateResponseBodyNotContains(response, text).Pass?
  {
  }

  /** A header holding only blanks is present for validateHeader but
      missing for validateHeaderExists. */
  lemma BlankHeaderExistsButIsMissing(response: Response, headerName: string)
    requires response.header(headerName) == Some("  ")
    ensures ValidateHeader(response, headerName, "  ").Pass?
    ensures ValidateHeaderExists(response, headerName).Fail?
  {
  }

  /** validateContentType with "application/json" agrees with
      HttpUtils.isJsonResponse, and a missing header always fails. */
  lemma ContentTypeAgreesWithHttpUtils(response: Response, expectedContentType: string)
    ensures ValidateContentType(response, "application/json").Pass? <==> IsJsonResponse(response)
    ensures ContentType(response).None? ==>
      ValidateContentType(response, expectedContentType) == Fail(expectedContentType, "null")
  {
  }

  /** The time limit is inclusive: 3000 ms passes a 3000 ms limit, and
      4200 ms fails it, reporting "<= 3000ms" against "4200ms". */
  lemma ResponseTimeBoundary(response: Response)
    ensures response.time == 3000 ==> ValidateResponseTime(response, 3000).Pass?
    ensures response.time == 4200 ==> ValidateResponseTime(response, 3000) == Fail("<= 3000ms", "4200ms")
  {
    assert Text.IntToString(3000) == "3000" by {
      assert Text.NatToString(3) == "3";
      assert Text.NatToString(30) == "30";
      assert Text.NatToString(300) == "300";
    }
    assert Text.IntToString(4200) == "4200" by {
      assert Text.NatToString(4) == "4";
      assert Text.NatToString(42) == "42";
      assert Text.NatToString(420) == "420";
    }
  }

  /** Every 2xx code passes validateStatusCode against itself; a response
      with any other code fails a 2xx expectation and reports its own code. */
  lemma StatusCheckOverSuccessCodes(response: Response, expected: int)
    requires IsSuccessStatusCode(expected)
    ensures response.statusCode == expected ==> ValidateStatusCode(response, expected).Pass?
    ensures !IsSuccessStatusCode(response.statusCode) ==>
      ValidateStatusCode(response, expected) ==
        Fail(Text.IntToString(expected), Text.IntToString(response.statusCode))
  {
  }
}
