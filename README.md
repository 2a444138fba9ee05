# REST API test harness: decision logic in Dafny

This project models the decision logic of a RestAssured/TestNG harness for
JSON APIs (JSONPlaceholder) and proves properties of it:

- the response checks of `ResponseValidator`, the `HttpUtils` predicates, and
  the `BaseTest` composites;
- the dotted-path lookup of `JsonUtils.extractValue`, plus the failure
  behaviour of the other `JsonUtils` wrappers;
- the entity validators of `DataValidator`, including a recogniser for its
  e-mail regular expression;
- the `Post` and `Comment` models with their `equals` and `hashCode`;
- typed configuration lookup in `ConfigManager`, and the request headers of
  `ApiConfig`;
- the generators and fixtures of `TestDataHelper`.

Each module follows one source file (`results.dfy` and `text.dfy` hold the
shared pieces):

- **A check** returns `Pass` or `Fail(expected, actual)`. In the source, a
  check logs and then throws at the first failed assertion. A composite is a
  chain of `Check.Then`, so the first failure is the result.
- **Java library behaviour** is written out where the source depends on it:
  - `String.split("\\.")` drops trailing empty pieces and returns the input
    when there is no match;
  - `trim()` removes characters up to U+0020;
  - `StringUtils.isBlank` uses `Character.isWhitespace`;
  - `Integer.valueOf` and `Long.valueOf` include their range checks;
  - `hashCode` wraps to 32 bits.
- **The JSON library's parser and serialiser**, and the client's header and
  JSON-path lookups, are function parameters or function-valued fields of
  the `Response` record.
- **Randomness and clock readings** become parameters of the generators.
- **Mutable objects** are Dafny classes: `Post`, `Comment`, `ConfigManager`,
  the holder of its single instance, and a request specification's header
  list. Their setters state the whole new state.

The path lookup has one edge case. If `p` resolves to nothing, then so does
`p + "." + q`, with one exception: when `p` is the empty path. The path ""
is the single segment "". The path "." splits into no segments, so it yields
the root. `Json.ExtractedValuePrefixAbsent` therefore assumes a non-empty
`p`, and `Json.EmptyPathExtensionResolvesRoot` shows the exception.

## Model

| member | source | states |
|---|---|---|
| Results.NullSafeEqualsIsEquality | src/main/java/models/Post.java:88-91 | Java's null-aware `a != null ? a.equals(b) : b == null` is exactly equality of optional values |
| Text.TrimIsEmptyIff | src/test/java/validations/DataValidator.java:36 | `trim().isEmpty()` holds iff no character of the string is above U+0020 |
| Text.JavaSplitPrefix | src/main/java/utils/JsonUtils.java:105 | for a non-empty `p`, the pieces of `p` are a prefix of the pieces of `p + "." + q` under Java's split |
| Text.ParseDecimalOfIntToString | src/main/java/config/ConfigManager.java:70 | reading the decimal text of any integer gives that integer back |
| Json.LastBinding | src/main/java/utils/JsonUtils.java:109 | an object member lookup finds nothing iff no member has the key, and otherwise finds the value of the last member with that key |
| Json.ExtractValue | src/main/java/utils/JsonUtils.java:102-120 | the cursor loop with an early return gives the reference lookup: absent on a parse failure or a missing segment, otherwise the reached node's text |
| Json.ResolveAppend | src/main/java/utils/JsonUtils.java:108-113 | walking `xs + ys` walks `xs` and then continues with `ys` from the node reached |
| Json.ExtractedValuePrefixAbsent | src/main/java/utils/JsonUtils.java:108-113 | if a non-empty path `p` is absent, then `p + "." + q` is absent for every `q` |
| Json.EmptyPathExtensionResolvesRoot | src/main/java/utils/JsonUtils.java:105 | the path "" is absent in `{}` while "." yields the root's text: monotonicity needs a non-empty prefix |
| Json.SplitOfDottedPath | src/main/java/utils/JsonUtils.java:105 | a path made of non-empty dot-free segments joined by "." splits back into those segments |
| Json.ValueEqualsReflexive | src/test/java/validations/ResponseValidator.java:106-107 | every JSON value equals itself under the List/Map equality `equals` applies |
| Json.ValueEqualsScalars | src/test/java/validations/ResponseValidator.java:106-107 | a scalar equals only an identical scalar, and no non-null value equals a JSON null |
| Json.ValueEqualsIgnoresMemberOrder | src/test/java/validations/ResponseValidator.java:106-107 | objects with the same bindings in a different member order are equal values though different trees |
| Json.ValueEqualsSymmetric | src/test/java/validations/ResponseValidator.java:106-107 | the equality `assertEquals` applies is symmetric: if a equals b then b equals a |
| Json.ExtractNested | src/main/java/utils/JsonUtils.java:115 | `a.b` in `{a: {b: v}}` yields the text of `v`, and a JSON null yields the text "null", not absence |
| Json.IsValidJson | src/main/java/utils/JsonUtils.java:127-134 | valid iff the parser accepts the text |
| Json.PrettyPrint | src/main/java/utils/JsonUtils.java:141-149 | when the `readValue(json, Object.class)` binding and the pretty printer both succeed, the printed text; the input unchanged when either fails |
| Json.ValidYetEchoed | src/main/java/utils/JsonUtils.java:127-149 | text that `readTree` accepts but `readValue` rejects (the empty text) is valid JSON, yields a tree from getJsonNode, and is printed back unchanged |
| Json.GetJsonNode | src/main/java/utils/JsonUtils.java:87-94 | fails with a RuntimeException iff the text does not parse, and otherwise returns the parsed tree |
| Json.ToJson | src/main/java/utils/JsonUtils.java:26-33 | the serialised text, or a RuntimeException iff serialisation fails |
| Json.FromJson | src/main/java/utils/JsonUtils.java:42-49 | the bound object, or a RuntimeException iff binding fails |
| Json.UnparseableText | src/main/java/utils/JsonUtils.java:116-119 | with text both parsers reject, extractValue gives absent and prettyPrint echoes its input (neither throws), while getJsonNode and fromJson throw |
| Http.StatusClassesDisjoint | src/main/java/utils/HttpUtils.java:19-39 | no status code is in two of the success, client-error and server-error classes |
| Http.StatusClassIsFirstDigit | src/main/java/utils/HttpUtils.java:19-39 | for a three-digit code, each class predicate holds iff the code's first digit is 2, 4 or 5 (section 15 of RFC 9110) |
| Http.StatusCodeDescriptionTable | src/main/java/utils/HttpUtils.java:46-63 | exactly the thirteen listed codes have a phrase, all other integers are "Unknown Status Code", and every listed code lies in one of the three classes |
| Http.JsonContentTypeWithParameters | src/main/java/utils/HttpUtils.java:99-102 | "application/json; charset=utf-8" is recognised as JSON |
| Http.MissingOrBlankHeaders | src/main/java/utils/HttpUtils.java:81-112 | without a Content-Type the response is neither JSON nor XML and has no such header; a header of blanks counts as absent |
| Http.BlankVersusTrim | src/main/java/utils/HttpUtils.java:160-163 | a string is both blank (the `isBlank` test) and trimmed to "" (the validators' `trim().isEmpty()`, as in src/test/java/validations/DataValidator.java:36) iff every character is Java whitespace and at most U+0020 |
| Http.EmSpaceBlankButNotTrimmed | src/main/java/utils/HttpUtils.java:160-163 | the em space U+2003 is blank yet `trim` leaves it in place |
| Http.NulTrimmedButNotBlank | src/main/java/utils/HttpUtils.java:160-163 | a NUL character is trimmed away yet is not blank |
| Http.BodyEmptinessExamples | src/main/java/utils/HttpUtils.java:160-163 | a body of blanks and line breaks is empty, and "{}" is not |
| Http.BuildQueryString | src/main/java/utils/HttpUtils.java:119-133 | "" for a null or empty map; otherwise the "&"-join of "key=value" per entry in iteration order, without encoding |
| Http.QueryStringSplitsBack | src/main/java/utils/HttpUtils.java:124-132 | when no key or value holds '&', splitting the query at '&' gives back the "key=value" pieces |
| ResponseValidator.ValidateStatusCode | src/test/java/validations/ResponseValidator.java:21-26 | passes iff the status equals the expected one exactly; a failure reports the actual status |
| ResponseValidator.ValidateResponseTime | src/test/java/validations/ResponseValidator.java:33-39 | passes iff the time is acceptable under HttpUtils (time <= max) |
| ResponseValidator.ValidateHeader | src/test/java/validations/ResponseValidator.java:47-52 | passes iff the header is present with exactly the expected value |
| ResponseValidator.ValidateHeaderExists | src/test/java/validations/ResponseValidator.java:59-63 | passes iff HttpUtils.hasHeader (present and not blank) |
| ResponseValidator.ValidateContentType | src/test/java/validations/ResponseValidator.java:70-76 | passes iff a Content-Type is present and the expected text occurs in it at some position |
| ResponseValidator.ValidateResponseBodyNotEmpty | src/test/java/validations/ResponseValidator.java:82-86 | passes iff some body character is not Java whitespace |
| ResponseValidator.ValidateResponseBodyEmpty | src/test/java/validations/ResponseValidator.java:92-96 | passes iff every body character is Java whitespace |
| ResponseValidator.ValidateJsonField | src/test/java/validations/ResponseValidator.java:104-109 | passes iff a non-null expected value equals the value at the path under Java's List/Map equality; an identical value passes, an absent value or JSON null always fails |
| ResponseValidator.JsonFieldIgnoresMemberOrder | src/test/java/validations/ResponseValidator.java:104-109 | an expected object {a:1,b:2} matches the value {b:2,a:1} at the path |
| ResponseValidator.ValidateJsonFieldExists | src/test/java/validations/ResponseValidator.java:116-121 | passes iff the path yields a value other than JSON null |
| ResponseValidator.ValidateJsonFieldNotExists | src/test/java/validations/ResponseValidator.java:128-133 | passes iff the path yields nothing or JSON null |
| ResponseValidator.ValidateJsonArraySize | src/test/java/validations/ResponseValidator.java:141-147 | passes iff the list's size equals the expected size, an absent list having size 0 |
| ResponseValidator.ValidateJsonArrayNotEmpty | src/test/java/validations/ResponseValidator.java:154-159 | passes iff the list is present and non-empty |
| ResponseValidator.ValidateJsonFormat | src/test/java/validations/ResponseValidator.java:165-170 | passes iff the body parses |
| ResponseValidator.ValidateResponseBodyContains | src/test/java/validations/ResponseValidator.java:177-182 | passes iff the text occurs in the body at some position |
| ResponseValidator.ValidateResponseBodyNotContains | src/test/java/validations/ResponseValidator.java:189-194 | passes iff the text occurs at no position of the body |
| ResponseValidator.ValidateBasicResponse | src/test/java/validations/ResponseValidator.java:203-209 | passes iff status, time, content type and non-blank body all pass; the result is the first failure in that order, each of the four positions stated |
| ResponseValidator.JsonFieldExistenceComplementary | src/test/java/validations/ResponseValidator.java:116-133 | exactly one of the two existence checks passes; a present JSON null counts as not existing, and equality with null never passes |
| ResponseValidator.JsonFieldEqualsImpliesExists | src/test/java/validations/ResponseValidator.java:104-121 | a passing field-equality check implies the field exists |
| ResponseValidator.JsonFieldNoCoercion | src/test/java/validations/ResponseValidator.java:104-109 | the number 1 matches 1 but not the text "1" |
| ResponseValidator.ArraySizeImpliesNotEmpty | src/test/java/validations/ResponseValidator.java:141-159 | a passing size check with n >= 1 implies the non-empty check passes; an absent list passes size 0 but fails non-empty |
| ResponseValidator.BodyChecksComplementary | src/test/java/validations/ResponseValidator.java:82-96 | BodyEmpty/BodyNotEmpty and BodyContains/BodyNotContains each pass for exactly one of the pair |
| ResponseValidator.BlankHeaderExistsButIsMissing | src/test/java/validations/ResponseValidator.java:47-63 | a header of blanks equals its blank value yet fails the existence check |
| ResponseValidator.ContentTypeAgreesWithHttpUtils | src/test/java/validations/ResponseValidator.java:70-76 | the content-type check for "application/json" agrees with isJsonResponse; a missing header fails reporting "null" |
| ResponseValidator.ResponseTimeBoundary | src/test/java/validations/ResponseValidator.java:33-39 | 3000 ms passes a 3000 ms limit; 4200 ms fails it with "<= 3000ms" against "4200ms" |
| ResponseValidator.StatusCheckOverSuccessCodes | src/test/java/validations/ResponseValidator.java:21-26 | a 2xx expectation passes on that code and fails on every non-2xx status, reporting both codes |
| BaseTest.ValidateBasicResponse | src/test/java/tests/BaseTest.java:58-62 | passes iff status == code, time <= 5000 and a JSON content type; the result is the first failure: status, then time, then content type |
| BaseTest.ValidateSuccessResponse | src/test/java/tests/BaseTest.java:68-71 | passes iff the basic checks for 200 pass and the body is not blank |
| BaseTest.ValidateCreatedResponse | src/test/java/tests/BaseTest.java:77-80 | passes iff the basic checks for 201 pass and the body is not blank |
| BaseTest.ValidateNotFoundResponse | src/test/java/tests/BaseTest.java:86-88 | passes iff status 404, time <= 5000 and a JSON content type; the body is not examined |
| BaseTest.ValidateBadRequestResponse | src/test/java/tests/BaseTest.java:94-96 | passes iff status 400, time <= 5000 and a JSON content type; the body is not examined |
| BaseTest.SuccessIsFourPartComposite | src/test/java/tests/BaseTest.java:68-71 | the success check equals ResponseValidator's four-part composite for 200, 5000 ms and "application/json", failure for failure |
| BaseTest.ValidatorCompositeImpliesBasic | src/test/java/tests/BaseTest.java:58-62 | passing ResponseValidator's composite with a limit of at most 5000 ms and a JSON type implies the BaseTest basic check |
| BaseTest.ErrorChecksIgnoreBody | src/test/java/tests/BaseTest.java:86-96 | a fast JSON 404 with a blank body passes the not-found check while the success and created checks fail |
| BaseTest.StatusChecksExclusive | src/test/java/tests/BaseTest.java:68-96 | no response passes both success and created, or both not-found and bad-request; a passing success is 2xx and a passing error check is 4xx |
| Models.Post.constructor | src/main/java/models/Post.java:22 | the no-argument constructor leaves every field null |
| Models.Post.WithoutId | src/main/java/models/Post.java:25-29 | the three-argument constructor leaves id null and sets userId, title and body |
| Models.Post.WithId | src/main/java/models/Post.java:31-36 | the four-argument constructor sets all four fields |
| Models.Post.SetId | src/main/java/models/Post.java:43-45 | changes the id and nothing else |
| Models.Post.SetUserId | src/main/java/models/Post.java:51-53 | changes the userId and nothing else |
| Models.Post.SetTitle | src/main/java/models/Post.java:59-61 | changes the title and nothing else |
| Models.Post.SetBody | src/main/java/models/Post.java:67-69 | changes the body and nothing else |
| Models.Post.Equals | src/main/java/models/Post.java:81-92 | true iff the argument is a Post whose four fields equal this one's, null equal only to null |
| Models.Post.HashCode | src/main/java/models/Post.java:94-101 | a 32-bit value congruent modulo 2^32 to 31^3·h(id) + 31^2·h(userId) + 31·h(title) + h(body), with 0 for null |
| Models.StringHashIsPolynomial | src/main/java/models/Post.java:98-99 | String.hashCode is the polynomial sum of the characters in base 31, reduced modulo 2^32 |
| Models.PostEqualsIsEquivalence | src/main/java/models/Post.java:81-92 | equals is reflexive, symmetric and transitive, and false for null |
| Models.PostHashConsistent | src/main/java/models/Post.java:94-101 | equal posts have equal hash codes |
| Models.HashExamples | src/main/java/models/Post.java:94-101 | "" hashes to 0, "ab" to 3105, and a post with all fields null to 0 |
| Models.PostNeverEqualsComment | src/main/java/models/Post.java:84 | a Post and a Comment are never equal, in either direction |
| Models.Comment.constructor | src/main/java/models/Comment.java:25 | the no-argument constructor leaves every field null |
| Models.Comment.WithoutId | src/main/java/models/Comment.java:28-33 | the four-argument constructor leaves id null and sets the other four fields |
| Models.Comment.WithId | src/main/java/models/Comment.java:35-41 | the five-argument constructor sets all five fields |
| Models.Comment.SetId | src/main/java/models/Comment.java:48-50 | changes the id and nothing else |
| Models.Comment.SetPostId | src/main/java/models/Comment.java:56-58 | changes the postId and nothing else |
| Models.Comment.SetName | src/main/java/models/Comment.java:64-66 | changes the name and nothing else |
| Models.Comment.SetEmail | src/main/java/models/Comment.java:72-74 | changes the email and nothing else |
| Models.Comment.SetBody | src/main/java/models/Comment.java:80-82 | changes the body and nothing else |
| Models.Comment.Equals | src/main/java/models/Comment.java:95-107 | true iff the argument is a Comment whose five fields equal this one's, null equal only to null |
| Models.Comment.HashCode | src/main/java/models/Comment.java:109-117 | a 32-bit value congruent modulo 2^32 to the base-31 weighted sum of the five field hashes |
| Models.CommentEqualsIsEquivalence | src/main/java/models/Comment.java:95-107 | equals is reflexive, symmetric and transitive, and false for null |
| Models.CommentHashConsistent | src/main/java/models/Comment.java:109-117 | equal comments have equal hash codes |
| DataValidator.IsValidEmail | src/test/java/validations/DataValidator.java:253-255 | true iff the address is non-null and in the language of the e-mail pattern |
| DataValidator.RecogniserMatchesPattern | src/test/java/validations/DataValidator.java:20-21 | the recogniser accepts exactly the pattern's language: dot-separated atoms over [A-Za-z0-9_+&*-], '@', then at least one label over [A-Za-z0-9-] followed by a dot, then 2 to 7 ASCII letters |
| DataValidator.EmailWithoutAtRejected | src/test/java/validations/DataValidator.java:253-255 | a string without '@' is rejected, and so is null |
| DataValidator.InvalidEmailRejected | src/test/java/validations/DataValidator.java:20-21 | "invalid-email" is rejected |
| DataValidator.PlainEmailAccepted | src/test/java/validations/DataValidator.java:20-21 | "Eliseo@gardner.biz" is accepted |
| DataValidator.ValidateId | src/test/java/validations/DataValidator.java:262-265 | passes iff the id is non-null and positive; a null id fails the not-null check |
| DataValidator.ValidateStringNotEmpty | src/test/java/validations/DataValidator.java:272-275 | passes iff the value is non-null and has a character above U+0020 |
| DataValidator.ValidateEmail | src/test/java/validations/DataValidator.java:57-58 | passes iff isValidEmail accepts the value |
| DataValidator.ValidatePost | src/test/java/validations/DataValidator.java:27-41 | passes iff the post is non-null, id > 0, userId > 0, and title and body have a visible character; a null userId after a good id fails its not-null check |
| DataValidator.ValidateUser | src/test/java/validations/DataValidator.java:47-61 | passes iff the user is non-null, id > 0, name and username have a visible character, and the e-mail is in the pattern's language |
| DataValidator.ValidateComment | src/test/java/validations/DataValidator.java:67-83 | passes iff the comment is non-null, id > 0, postId > 0, name and body have a visible character, and the e-mail is in the pattern's language |
| DataValidator.ValidateEach | src/test/java/validations/DataValidator.java:97-99 | passes iff every element passes; a failure is the first failing element's failure |
| DataValidator.ValidateList | src/test/java/validations/DataValidator.java:90-102 | passes iff the list is non-null, has at least the minimum size, and every element passes |
| DataValidator.ValidatePostList | src/test/java/validations/DataValidator.java:90-102 | passes iff the list is non-null, long enough, and every post passes validatePost |
| DataValidator.ValidateUserList | src/test/java/validations/DataValidator.java:109-121 | passes iff the list is non-null, long enough, and every user passes validateUser |
| DataValidator.ValidateCommentList | src/test/java/validations/DataValidator.java:128-140 | passes iff the list is non-null, long enough, and every comment passes validateComment |
| DataValidator.PostListExamples | src/test/java/validations/DataValidator.java:90-102 | a list with a null element fails for every minimum, and every list fails a minimum above its length |
| DataValidator.ValidatePostEquals | src/test/java/validations/DataValidator.java:240-246 | passes iff userId, title and body are equal; the id is not compared |
| DataValidator.PostEqualsIgnoresId | src/test/java/validations/DataValidator.java:240-246 | posts differing only in id pass |
| DataValidator.PostEqualsAgreesWithEquals | src/test/java/validations/DataValidator.java:240-246 | for posts with the same id, the comparison passes iff Post.equals holds |
| Config.ParseInRange | src/main/java/config/ConfigManager.java:69-74 | Integer/Long.valueOf succeed iff the text is a decimal literal whose value is in range, and then give that value |
| Config.ConfigManager.constructor | src/main/java/config/ConfigManager.java:14-16 | the manager holds the loaded properties |
| Config.ConfigManager.GetProperty | src/main/java/config/ConfigManager.java:43-45 | the value iff the key is present, null otherwise |
| Config.ConfigManager.GetPropertyOr | src/main/java/config/ConfigManager.java:47-49 | the value when the key is present, the default otherwise |
| Config.ConfigManager.GetTypedProperty | src/main/java/config/ConfigManager.java:60-83 | the result always has the requested type or is the default; absent key gives the default; String gives the raw text; Integer and Long give the parsed value for an in-range decimal and the default otherwise; Boolean gives equalsIgnoreCase "true"; an unsupported type gives the default |
| Config.ConfigManager.GetIntPropertyOr | src/main/java/config/ConfigManager.java:89-91 | an in-range decimal value gives that value; an absent key or any other text gives the default, never an exception |
| Config.ConfigManager.GetIntProperty | src/main/java/config/ConfigManager.java:85-87 | as GetIntPropertyOr with default 0 |
| Config.ConfigManager.GetBooleanPropertyOr | src/main/java/config/ConfigManager.java:97-99 | with the key present, true iff the value is "true" in any case; the default only when the key is absent |
| Config.ConfigManager.GetBooleanProperty | src/main/java/config/ConfigManager.java:93-95 | true iff the key is present with value "true" in any case |
| Config.ConfigManager.BaseUrl | src/main/java/config/ConfigManager.java:102-104 | null iff "api.base.url" is not set |
| Config.ConfigManager.Timeout | src/main/java/config/ConfigManager.java:106-108 | 30000 when "api.timeout" is not set |
| Config.ConfigManager.Environment | src/main/java/config/ConfigManager.java:110-112 | "test" when "environment" is not set |
| Config.ConfigManager.AuthToken | src/main/java/config/ConfigManager.java:114-116 | null iff "auth.token" is not set |
| Config.ConfigManager.Username | src/main/java/config/ConfigManager.java:118-120 | null iff "auth.username" is not set |
| Config.ConfigManager.Password | src/main/java/config/ConfigManager.java:122-124 | null iff "auth.password" is not set |
| Config.ConfigManager.MaxRetryCount | src/main/java/config/ConfigManager.java:126-128 | 3 when "max.retry.count" is not set |
| Config.ConfigManager.RetryDelay | src/main/java/config/ConfigManager.java:130-132 | 1000 when "retry.delay.ms" is not set |
| Config.IntPropertyOfDecimalText | src/main/java/config/ConfigManager.java:69-70 | the decimal text of any int reads back as that int; text that is not a decimal gives the default |
| Config.IntOverflowFallsBack | src/main/java/config/ConfigManager.java:69-74 | 2147483648 falls back to the int default but is read as a long |
| Config.BooleanPropertyIgnoresDefault | src/main/java/config/ConfigManager.java:71-72 | "yes" reads as false even with default true; "TRUE" reads as true |
| Config.EmptyConfigDefaults | src/main/java/config/ConfigManager.java:102-132 | with nothing loaded: timeout 30000, environment "test", retries 3, delay 1000, and null URL, token and credentials |
| Config.ConfigHolder.constructor | src/main/java/config/ConfigManager.java:11 | no instance exists at first |
| Config.ConfigHolder.GetInstance | src/main/java/config/ConfigManager.java:18-27 | creates the manager on the first call only and returns the stored one afterwards |
| Config.GetInstanceTwice | src/main/java/config/ConfigManager.java:18-27 | two calls return the same manager, built from what the first call loaded |
| ApiConfig.RequestSpec.constructor | src/main/java/config/ApiConfig.java:41 | a new specification has no headers |
| ApiConfig.RequestSpec.Header | src/main/java/config/ApiConfig.java:42-43 | appends one header and changes nothing else |
| ApiConfig.GetBaseRequestSpec | src/main/java/config/ApiConfig.java:40-44 | a new specification with exactly Content-Type and Accept set to application/json |
| ApiConfig.AuthenticatedHeaders | src/main/java/config/ApiConfig.java:50-59 | the authenticated headers start with the base headers |
| ApiConfig.GetAuthenticatedRequestSpec | src/main/java/config/ApiConfig.java:50-59 | a new specification whose headers are the authenticated headers for the configured token |
| ApiConfig.BaseHeadersContent | src/main/java/config/ApiConfig.java:40-44 | the base headers give application/json for Content-Type and Accept, and no Authorization |
| ApiConfig.BearerHeaderIffToken | src/main/java/config/ApiConfig.java:54-56 | Authorization is present iff the token is non-null and non-empty, and it is then "Bearer " followed by the token (section 2.1 of RFC 6750); otherwise the headers are the base headers |
| ApiConfig.ClientSettingsOf | src/main/java/config/ApiConfig.java:25-30 | the base URI is getBaseUrl, and the connection and socket timeouts are both getTimeout |
| ApiConfig.GetBaseUrl | src/main/java/config/ApiConfig.java:65-67 | the configuration's "api.base.url" unchanged |
| ApiConfig.GetTimeout | src/main/java/config/ApiConfig.java:73-75 | the configuration's "api.timeout", default 30000, unchanged |
| ApiConfig.DefaultClientSettings | src/main/java/config/ApiConfig.java:27-30 | with nothing configured the client waits 30000 ms to connect and to read and has no base URI |
| TestData.AlphabetIsAlphanumeric | src/test/java/helpers/TestDataHelper.java:138 | the alphabet is the 62-character literal, made only of ASCII letters and digits |
| TestData.GenerateRandomString | src/test/java/helpers/TestDataHelper.java:137-146 | the length is `length` (0 if negative), character i is the alphabet letter at draw i, and every character is alphanumeric |
| TestData.GenerateRandomEmail | src/test/java/helpers/TestDataHelper.java:152-154 | 18 characters with '@' at index 8 and ".com" at the end, always accepted by isValidEmail |
| TestData.GenerateRandomInt | src/test/java/helpers/TestDataHelper.java:162-164 | throws (None) iff the 32-bit bound `max - min + 1` is not positive; otherwise a 32-bit result |
| TestData.RandomIntInRange | src/test/java/helpers/TestDataHelper.java:162-164 | for min <= max with a range whose size fits in an int, the result lies in [min, max] |
| TestData.RandomIntReversedThrows | src/test/java/helpers/TestDataHelper.java:162-164 | a reversed range with no wrap-around makes nextInt throw |
| TestData.RepeatedBasePeriodic | src/test/java/helpers/TestDataHelper.java:173-177 | the repeated base text has period 42 |
| TestData.GenerateLongText | src/test/java/helpers/TestDataHelper.java:171-180 | None iff the length is negative; otherwise exactly `length` characters, character i being base[i mod 42] |
| TestData.CreateTestPost | src/test/java/helpers/TestDataHelper.java:19-25 | null id, userId = draw + 1 in 1..10, and the stamped title and body |
| TestData.CreateTestPostFor | src/test/java/helpers/TestDataHelper.java:32-38 | null id, the given userId, and a title and body naming the user ("null" for null) and the clock |
| TestData.CreateUpdatePost | src/test/java/helpers/TestDataHelper.java:46-53 | the given id and userId with the stamped title and body |
| TestData.UpdatePostIsValid | src/test/java/helpers/TestDataHelper.java:46-53 | an update post with a positive id and userId passes validatePost |
| TestData.StampedEmailIsValid | src/test/java/helpers/TestDataHelper.java:76 | a non-empty alphanumeric prefix, a clock value and "@example.com" form a valid address for every clock value |
| TestData.CreateTestUser | src/test/java/helpers/TestDataHelper.java:59-66 | null id and an e-mail that isValidEmail accepts |
| TestData.CreateTestComment | src/test/java/helpers/TestDataHelper.java:72-79 | null id, postId = draw + 1 in 1..100, and a valid stamped e-mail |
| TestData.CreateTestCommentFor | src/test/java/helpers/TestDataHelper.java:86-93 | null id, the given postId, and a valid stamped e-mail |
| TestData.CreateInvalidPost | src/test/java/helpers/TestDataHelper.java:99-105 | null userId, empty title and null body; it fails validatePost and each of those fields fails its own check |
| TestData.CreateInvalidUser | src/test/java/helpers/TestDataHelper.java:111-117 | fails validateUser; the empty name and null username fail and "invalid-email" is rejected |
| TestData.CreateInvalidComment | src/test/java/helpers/TestDataHelper.java:123-130 | fails validateComment; null postId, empty name and null body fail and "invalid-email" is rejected |

## Left out

- Network I/O. The HTTP exchange is not modelled: `Response` is the recorded outcome.
- Reading config.properties. Loading (ConfigManager.java:29-41) is I/O, so the manager is built from the loaded map instead, and the exception for a missing file is not modelled.
- Double-checked locking. `getInstance` is modelled sequentially; concurrency is out of scope.
- Double properties. `getTypedProperty` for `Double` is floating point, and `PropType` has no Double case.
- Jackson and GPath. Parsing, serialisation and data binding are function parameters: `parse` for `readTree`, `bind` for `readValue(json, Object.class)`, `render` for the pretty printer, `encode` and `decode` for `writeValueAsString` and `readValue(json, clazz)`, and `jsonPath().get`/`getList` are opaque fields of `Response`.
- JSON floating-point numbers. The `Json` datatype has none.
- `fromJsonToList` and `fromJsonToMap`. They are single library calls, and fail like `FromJson`.
- The `validateAndExtract*` methods of DataValidator. They only chain `validateBasicResponse` to Jackson binding and the validators above.
- Logging. `LogUtils`, the log labels and `toString` of the models only feed logs; the Chinese labels are rendered as English text in `Fail`.
- `HttpUtils.extractHeader`. It passes the header lookup through, and is folded into `Http.ContentType`.
- `getResponseSize`. It depends on the platform's default charset.
- BaseTest lifecycle hooks and `initializeHelpers`. They only log and assign fields.
- The RestAssured logging filters installed by `setupRestAssured`.
- Retries. `max.retry.count` and `retry.delay.ms` are read but nothing uses them.
- The per-entity test scripts and `ApiHelper`. They compose the checks above against a live server.
- Getters. They are read as the fields themselves.
- User's other fields (address, phone, website, company). No check reads them.
- ResponseValidator.ValidateJsonField: JSON numbers are one `JInt` case, so the Integer/Long boxing distinction of `equals` is not modelled. An expected Java null is `JNull` and never passes, where the source throws.
- Null arguments that the source does not guard are not modelled: the model has no null for the map keys and values of `buildQueryString` (which `StringBuilder` would append as "null"), for `expectedValue` of `validateHeader`, `expectedContentType` of `validateContentType`, `expectedText` of `validateResponseBodyContains` and `unexpectedText` of `validateResponseBodyNotContains` (a NullPointerException), for `expected`/`actual` of `validatePostEquals`, or for the json and path arguments of `extractValue`.
- Models.StringHash: it works over Unicode code points, while Java hashes UTF-16 code units. The two agree on strings without supplementary characters.
- Text.ParseDecimal: it accepts ASCII digits only. `Integer.valueOf` also accepts other Unicode decimal digits.
- Text.EqualsIgnoreCase: it folds ASCII letters only. This is exact for the literal "true", but it is not the general `equalsIgnoreCase`.
- Http.Response: the header lookup is one function of the name. Case-insensitivity and repeated headers are up to the client library.
- ApiConfig.RequestSpec: it holds only the headers of a request specification, not its other settings.
