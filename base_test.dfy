/** BaseTest: the composite response checks every API test class inherits. */
module BaseTest {
  import opened Results
  import opened Http
  import RV = ResponseValidator

  /** The time limit every test applies, in milliseconds. */
  const DefaultMaxResponseTime: int := 5000
  const JsonContentType: string := "application/json"

  /** validateBasicResponse(response, code): status, time within 5000 ms and
      a JSON content type, in that order. The body is not examined. */
  function ValidateBasicResponse(response: Response, expectedStatusCode: int): (c: Check)
    ensures c.Pass? <==>
      && response.statusCode == expectedStatusCode
      && response.time <= DefaultMaxResponseTime
      && IsJsonResponse(response)
    ensures response.statusCode != expectedStatusCode ==>
      c == RV.ValidateStatusCode(response, expectedStatusCode)
    ensures response.statusCode == expectedStatusCode && response.time > DefaultMaxResponseTime ==>
      c == RV.ValidateResponseTime(response, DefaultMaxResponseTime)
    ensures response.statusCode == expectedStatusCode && response.time <= DefaultMaxResponseTime ==>
      c == RV.ValidateContentType(response, JsonContentType)
  {
    RV.ContentTypeAgreesWithHttpUtils(response, JsonContentType);
    RV.ValidateStatusCode(response, expectedStatusCode)
      .Then(RV.ValidateResponseTime(response, DefaultMaxResponseTime))
      .Then(RV.ValidateContentType(response, JsonContentType))
  }

  /** validateSuccessResponse: the basic checks for 200, then a non-blank body. */
  function ValidateSuccessResponse(response: Response): (c: Check)
    ensures c.Pass? <==>
      ValidateBasicResponse(response, 200).Pass? && !IsResponseBodyEmpty(response)
  {
    ValidateBasicResponse(response, 200).Then(RV.ValidateResponseBodyNotEmpty(response))
  }

  /** validateCreatedResponse: the basic checks for 201, then a non-blank body. */
  function ValidateCreatedResponse(response: Response): (c: Check)
    ensures c.Pass? <==>
      ValidateBasicResponse(response, 201).Pass? && !IsResponseBodyEmpty(response)
  {
    ValidateBasicResponse(response, 201).Then(RV.ValidateResponseBodyNotEmpty(response))
  }

  /** validateNotFoundResponse: the basic checks for 404 only. */
  function ValidateNotFoundResponse(response: Response): (c: Check)
    ensures c.Pass? <==>
      response.statusCode == 404 && response.time <= DefaultMaxResponseTime && IsJsonResponse(response)
  {
    ValidateBasicResponse(response, 404)
  }

  /** validateBadRequestResponse: the basic checks for 400 only. */
  function ValidateBadRequestResponse(response: Response): (c: Check)
    ensures c.Pass? <==>
      response.statusCode == 400 && response.time <= DefaultMaxResponseTime && IsJsonResponse(response)
  {
    ValidateBasicResponse(response, 400)
  }

  /** A success check is ResponseValidator's four-part composite for 200,
      5000 ms and a JSON content type, failure for failure. */
  lemma SuccessIsFourPartComposite(response: Response)
    ensures ValidateSuccessResponse(response) ==
      RV.ValidateBasicResponse(response, 200, DefaultMaxResponseTime, JsonContentType)
  {
  }

  /** Passing ResponseValidator's composite with the same code, a limit of at
      most 5000 ms and a JSON content type implies passing the BaseTest one. */
  lemma ValidatorCompositeImpliesBasic(response: Response, code: int, maxResponseTime: int)
    requires maxResponseTime <= DefaultMaxResponseTime
    requires RV.ValidateBasicResponse(response, code, maxResponseTime, JsonContentType).Pass?
    ensures ValidateBasicResponse(response, code).Pass?
  {
    RV.ContentTypeAgreesWithHttpUtils(response, JsonContentType);
  }

  /** The error-response checks ignore the body: a fast 404 with a JSON
      content type passes even when its body is blank, which the success
      and created checks never allow. */
  lemma ErrorChecksIgnoreBody(response: Response)
    requires response.statusCode == 404 && response.time <= DefaultMaxResponseTime
    requires IsJsonResponse(response) && IsResponseBodyEmpty(response)
    ensures ValidateNotFoundResponse(response).Pass?
    ensures ValidateSuccessResponse(response).Fail? && ValidateCreatedResponse(response).Fail?
  {
  }

  /** No response passes two of the status-specific checks. */
  lemma StatusChecksExclusive(response: Response)
    ensures !(ValidateSuccessResponse(response).Pass? && ValidateCreatedResponse(response).Pass?)
    ensures !(ValidateNotFoundResponse(response).Pass? && ValidateBadRequestResponse(response).Pass?)
    ensures ValidateSuccessResponse(response).Pass? ==> IsSuccessStatusCode(response.statusCode)
    ensures ValidateNotFoundResponse(response).Pass? || ValidateBadRequestResponse(response).Pass? ==>
      IsClientError(response.statusCode)
  {
  }
}
