# Hookbase .NET SDK core, in Dafny

This project models the logic at the heart of the Hookbase .NET SDK and proves
properties of it:

- **Webhook verification** (`Webhooks`, `webhook_verifier.dfy`). The
  `WebhookVerifier` decodes its signing secret (an optional `whsec_` prefix,
  then base64). Given a payload and the request headers, it checks these in
  order:
  - the `webhook-id`, `webhook-timestamp` and `webhook-signature` headers, each
    looked up exactly first and then ignoring letter case;
  - a 64-bit integer timestamp that `DateTimeOffset` can represent, and that is
    not older than the tolerance;
  - a list of candidate signatures from the signature header, one of which must
    equal the base64 HMAC-SHA256 of `id.timestamp.payload`.

  It then decodes the payload. `VerifySignature` turns this into a yes/no
  answer.
- **The retrying request engine** (`Http`, `api_client.dfy`). `RequestAsync`
  works like this:
  - It builds the URL once: escaped query pairs, with empty values dropped.
  - It sends the same request on every attempt.
  - It retries retryable statuses (429, 500, 502, 503, 504) and transport
    exceptions while its retry budget lasts. Between attempts it waits the
    `Retry-After` delta, or `min(2^attempt, 10)` seconds plus up to 30 % jitter.
  - It ends by decoding a successful body, or with the typed API error the
    final status calls for. The error message comes from the `message` field,
    then the `error` field, then `HTTP <status>: <reason>`.
- **The JSON converters** (`BooleanConverter`, `JsonStringConverter`).
  - Booleans the API may send as literals, 0/1 numbers or strings.
  - Dictionaries it may send as objects or as strings holding JSON text.
- **Offset pagination** (`Pagination`): `HasMore` and `TotalPages` of an
  `OffsetPage`.
- **Query parameters of the resource clients** (`Resources`): `ToCamelCase`
  and `BuildQueryParams`.

Supporting modules model the .NET primitives the core relies on:

- `Text`: `char.IsWhiteSpace`, `Trim`, `Split`/`Join`, ordinal ignore-case
  comparison, `TryParse` with `NumberStyles.Integer` (trailing NUL characters
  included), and integer formatting.
- `Utf8`: UTF-8 encoding.
- `Uri`: `Uri.EscapeDataString`.
- `Dict`: filling a dictionary where the last write wins.
- `Json`: a JSON token tree with `GetRawText` and `ToString`.
- `Wrappers`: `Option` and `Result`.

Code that changes state in the source is imperative here:

- `ParseSignatures` and the candidate comparison loop of `Verify`.
- The `while (true)` loop of `RequestAsync`.
- The dictionary-filling loops of the converters and of `BuildQueryParams`.

Each of these is a method proved against a specification function. The
properties are proved about that function.

Where the code and the documented behaviour of the SDK disagree, the model
follows the code:

- **The signature header.** It is split on commas before the `v1,` scheme tag
  is looked for. So the tag-stripping branch can never fire: `v1,<sig>` gives
  the two candidates `v1` and `<sig>` (`Webhooks.TaggedHeader`,
  `Webhooks.CommaFreeCandidate`).
- **Blank segments.** Empty segments are dropped before trimming, not after. So
  a header of only white space gives one empty candidate, not "no signatures"
  (`Webhooks.BlankSegmentKept`).
- **`VerifySignature`.** Its doc comment says it verifies the signature
  without deserializing, yet it verifies into a `Dictionary<string, object>`.
  So a correctly signed webhook whose payload is not a JSON object gives
  `false`. And its `catch` handles only `WebhookVerificationException`, so an
  integer timestamp outside the years 1 to 9999 makes it throw. The code as
  written is `VerifySignatureAsWritten`; `VerifySignature` is the documented
  behaviour (see Findings).

## Model

| member | source | states |
|---|---|---|
| Webhooks.StripPrefix | src/Hookbase/Webhooks/WebhookVerifier.cs:28 | a secret starting with `whsec_` is that prefix followed by the result; any other secret is returned unchanged |
| Webhooks.DecodeSecret | src/Hookbase/Webhooks/WebhookVerifier.cs:20-38 | the "empty" error exactly for a null or all-white-space secret; the "not base64" error exactly when the decoder refuses the prefix-stripped secret; otherwise the key is the decoded bytes |
| Webhooks.PrefixStrippedOnce | src/Hookbase/Webhooks/WebhookVerifier.cs:28 | the prefix is removed once, and only at position 0: a doubled prefix keeps its second copy, and a prefix after other text stays |
| Webhooks.WebhookVerifier.FromKey | src/Hookbase/Webhooks/WebhookVerifier.cs:33 | the verifier holds the given key |
| Webhooks.WebhookVerifier.Create | src/Hookbase/Webhooks/WebhookVerifier.cs:20-39 | construction fails with exactly the error the secret calls for, and otherwise yields a new verifier holding the decoded key |
| Webhooks.FirstKey | src/Hookbase/Webhooks/WebhookVerifier.cs:199-200 | finds the first header whose name matches, with no match before it, and reports none only when no name matches |
| Webhooks.TryGetHeader | src/Hookbase/Webhooks/WebhookVerifier.cs:190-210 | a lookup that fails yields the empty value; a found value belongs to a header whose name equals the key up to letter case |
| Webhooks.HeaderFound | src/Hookbase/Webhooks/WebhookVerifier.cs:190-210 | a header is found exactly when some name equals the key under ordinal ignore-case comparison |
| Webhooks.ExactHeaderWins | src/Hookbase/Webhooks/WebhookVerifier.cs:193-196 | a header named exactly as the key wins over every other spelling |
| Webhooks.CaseInsensitiveHeaderWins | src/Hookbase/Webhooks/WebhookVerifier.cs:199-206 | with no exact name, the first name equal up to letter case supplies the value |
| Webhooks.HeaderNameCaseIgnored | src/Hookbase/Webhooks/WebhookVerifier.cs:199-206 | `WEBHOOK-ID` and `Webhook-Id` are found when `webhook-id` is looked up |
| Webhooks.IsStale | src/Hookbase/Webhooks/WebhookVerifier.cs:79 | (definition) stale exactly when the clock minus the timestamp's instant exceeds the tolerance, all in ticks; its window is stated by `StalenessWindow` |
| Webhooks.StalenessWindow | src/Hookbase/Webhooks/WebhookVerifier.cs:76-84 | only an age above the tolerance is stale: an age equal to the tolerance passes, and so does a future timestamp under a non-negative tolerance |
| Webhooks.SignatureParts | src/Hookbase/Webhooks/WebhookVerifier.cs:158 | the segments of the split are non-empty and hold no comma |
| Webhooks.TrimmedSegments | src/Hookbase/Webhooks/WebhookVerifier.cs:158-162 | the trimmed segments hold no comma |
| Webhooks.CandidatesStep | src/Hookbase/Webhooks/WebhookVerifier.cs:160-172 | each segment appends its own candidates after those of the segments before it |
| Webhooks.TaggedHasComma | src/Hookbase/Webhooks/WebhookVerifier.cs:163 | text tagged `v1,` contains a comma |
| Webhooks.CommaFreeCandidate | src/Hookbase/Webhooks/WebhookVerifier.cs:162-171 | a comma-free segment never takes the `v1,` branch and contributes exactly its trimmed text |
| Webhooks.CandidatesAreTrimmedParts | src/Hookbase/Webhooks/WebhookVerifier.cs:160-172 | over comma-free segments, the loop's list is the trimmed segments in order |
| Webhooks.CandidatesOfHeader | src/Hookbase/Webhooks/WebhookVerifier.cs:155-175 | the candidates of a header are exactly its trimmed non-empty comma-separated segments, in order |
| Webhooks.ParseSignatures | src/Hookbase/Webhooks/WebhookVerifier.cs:155-175 | the list the loop builds is the trimmed segments in order, and no candidate contains a comma |
| Webhooks.TaggedHeader | src/Hookbase/Webhooks/WebhookVerifier.cs:155-175 | `v1,<sig>` yields the two candidates `v1` and `<sig>` |
| Webhooks.TaggedHeaderParts | src/Hookbase/Webhooks/WebhookVerifier.cs:158 | `v1,<sig>` splits into the segments `v1` and `<sig>` |
| Webhooks.OnlyCommas | src/Hookbase/Webhooks/WebhookVerifier.cs:155-175 | a header made only of commas has no candidates |
| Webhooks.OnlyCommasSplit | src/Hookbase/Webhooks/WebhookVerifier.cs:158 | splitting only commas with empty entries removed leaves nothing |
| Webhooks.BlankSegmentKept | src/Hookbase/Webhooks/WebhookVerifier.cs:158-171 | a white-space segment survives the split and becomes one empty candidate |
| Webhooks.SecureCompare | src/Hookbase/Webhooks/WebhookVerifier.cs:177-188 | for strings of Unicode scalar values, equal lengths and equal UTF-8 bytes hold exactly when the two strings are equal |
| Webhooks.SignedContent | src/Hookbase/Webhooks/WebhookVerifier.cs:93 | (definition) the id, `.`, the decimal timestamp, `.` and the payload |
| Webhooks.ComputeSignature | src/Hookbase/Webhooks/WebhookVerifier.cs:148-153 | (definition) the base64 text of the HMAC-SHA256, under the key, of the UTF-8 bytes of the signed content |
| Webhooks.MatchIgnoresOrder | src/Hookbase/Webhooks/WebhookVerifier.cs:96-104 | reordering the candidates does not change whether one matches |
| Webhooks.MatchesAny | src/Hookbase/Webhooks/WebhookVerifier.cs:96-104 | the flag is set exactly when the computed signature is among the candidates |
| Webhooks.ReadHeaders | src/Hookbase/Webhooks/WebhookVerifier.cs:55-68 | succeeds exactly when all three headers are found, with their values; otherwise fails naming the first missing header in the order `webhook-id`, `webhook-timestamp`, `webhook-signature` |
| Webhooks.CheckTimestamp | src/Hookbase/Webhooks/WebhookVerifier.cs:71-84 | succeeds exactly for a 64-bit integer in the representable range that is not stale, yielding the parsed value; the format error exactly when the text does not parse |
| Webhooks.NulTerminatedTimestamp | src/Hookbase/Webhooks/WebhookVerifier.cs:71-84 | a timestamp header ending in NUL passes or fails the timestamp stage exactly as the header without it |
| Webhooks.SignatureError | src/Hookbase/Webhooks/WebhookVerifier.cs:86-109 | the signature is accepted exactly when the signature computed over `id.timestamp.payload` is among the trimmed segments; "no signatures" exactly when there are none |
| Webhooks.SignedPayload | src/Hookbase/Webhooks/WebhookVerifier.cs:86-129 | after the timestamp, only a signature error or an undecodable payload can fail; a signature error wins over the payload; an accepted signature with an undecodable payload is the decoding error; success yields the decoded payload |
| Webhooks.VerifyResult | src/Hookbase/Webhooks/WebhookVerifier.cs:50-130 | (definition) the staged outcome of `Verify`: headers, then timestamp, then signature and payload; stated by `ErrorOrder` and `DecodeIsLastStage` |
| Webhooks.SignatureAccepted | src/Hookbase/Webhooks/WebhookVerifier.cs:55-109 | (definition) the headers are found, the timestamp is representable and fresh, and the computed signature is among the candidates |
| Webhooks.DecodeIsLastStage | src/Hookbase/Webhooks/WebhookVerifier.cs:86-130 | `Verify` succeeds exactly when the signature is accepted and the payload decodes |
| Webhooks.AcceptedThenDecode | src/Hookbase/Webhooks/WebhookVerifier.cs:111-129 | once the signature is accepted, the result is the decoded payload, or the decoding error when it does not decode |
| Webhooks.AsWrittenNeedsObject | src/Hookbase/Webhooks/WebhookVerifier.cs:135-146 | `VerifySignature` as written answers `true` exactly when the signature is accepted and the payload deserializes to a dictionary, that is, is a JSON object |
| Webhooks.SignatureCheckAsWritten | src/Hookbase/Webhooks/WebhookVerifier.cs:135-146 | `true` exactly when `Verify` into a dictionary succeeds; an escaping exception exactly when `Verify` fails with the out-of-range timestamp |
| Webhooks.ErrorOrder | src/Hookbase/Webhooks/WebhookVerifier.cs:50-130 | the headers, then the timestamp, then the signature, then the payload: each error is reported only when every earlier stage passed |
| Webhooks.MissingIdFirst | src/Hookbase/Webhooks/WebhookVerifier.cs:55-58 | without a `webhook-id` header the result is the missing `webhook-id` error, whatever else is wrong |
| Webhooks.EarlyErrorsIgnoreSignature | src/Hookbase/Webhooks/WebhookVerifier.cs:55-84 | a header or timestamp error does not depend on the key, the primitives or the payload |
| Webhooks.EarlyErrorIsEarly | src/Hookbase/Webhooks/WebhookVerifier.cs:55-84 | a missing-header, format, out-of-range or too-old error arises only when the headers or the timestamp fail |
| Webhooks.EarlyFailureFixesResult | src/Hookbase/Webhooks/WebhookVerifier.cs:55-84 | when the headers or the timestamp fail, the result is the same for every key, primitive and payload |
| Webhooks.StaleRejected | src/Hookbase/Webhooks/WebhookVerifier.cs:79-84 | a valid but stale timestamp is rejected as too old, whatever the signature |
| Webhooks.ThreeHeaders | src/Hookbase/Webhooks/WebhookVerifier.cs:55-68 | the three headers under their exact names are all found |
| Webhooks.SignedHeaders | src/Hookbase/Webhooks/WebhookVerifier.cs:55-68 | (definition) the three headers of a webhook signed with the key, the signature tagged `v1,` |
| Webhooks.SignedWebhookAccepted | src/Hookbase/Webhooks/WebhookVerifier.cs:50-109 | a fresh webhook with a representable timestamp, signed with the key over the id, the decimal timestamp and the payload, passes the headers, the timestamp and the signature |
| Webhooks.SignedNonObjectRejected | src/Hookbase/Webhooks/WebhookVerifier.cs:135-146 | such a webhook whose payload is not a JSON object passes every check before decoding, yet `VerifySignature` as written answers `false` |
| Webhooks.NulTerminatedTimestampAccepted | src/Hookbase/Webhooks/WebhookVerifier.cs:71-109 | a correctly signed fresh webhook whose timestamp header ends in NUL is accepted: the signature covers the parsed timestamp, not the header text |
| Webhooks.SignedWebhookVerifies | src/Hookbase/Webhooks/WebhookVerifier.cs:50-130 | a fresh webhook signed with the key over the id, the decimal timestamp and the payload, with the signature tagged `v1,`, verifies and yields the decoded payload |
| Webhooks.OutOfRangeTimestampEscapes | src/Hookbase/Webhooks/WebhookVerifier.cs:76 | a timestamp beyond year 9999 makes `VerifySignature` as written throw rather than answer, though the signature is not accepted |
| Webhooks.WebhookVerifier.Verify | src/Hookbase/Webhooks/WebhookVerifier.cs:50-130 | the method's outcome is the staged verification result |
| Webhooks.WebhookVerifier.VerifySignatureAsWritten | src/Hookbase/Webhooks/WebhookVerifier.cs:135-146 | the method's outcome is the as-written check: a verification error gives `false`, the range exception escapes |
| Webhooks.WebhookVerifier.VerifySignature | src/Hookbase/Webhooks/WebhookVerifier.cs:132-146 | as documented: `true` exactly when the headers, the timestamp and the signature pass, without deserializing; `false` for every other webhook, the out-of-range timestamp included |
| Http.RetryableAreFailures | src/Hookbase/Http/ApiClient.cs:28-35 | every retryable status is a client or server error, never a success |
| Http.RequestIdOf | src/Hookbase/Http/ApiClient.cs:86-88 | the request id is present exactly when the header has a value, and it is the first value |
| Http.BaseDelay | src/Hookbase/Http/ApiClient.cs:243 | the base delay lies between one and ten seconds |
| Http.BaseDelaySchedule | src/Hookbase/Http/ApiClient.cs:243 | the base delay is 1, 2, 4 and 8 seconds for the first four attempts and 10 from then on |
| Http.WithJitter | src/Hookbase/Http/ApiClient.cs:244-245 | jitter adds less than 30 % to the base delay and never subtracts |
| Http.GetString | src/Hookbase/Http/ApiClient.cs:163-170 | a string yields its text, null yields null, and any other kind throws |
| Http.FieldErrorsOf | src/Hookbase/Http/ApiClient.cs:178-191 | field errors exist exactly when `errors` is an object of string arrays, keyed by its property names |
| Http.ParseErrorBody | src/Hookbase/Http/ApiClient.cs:155-198 | an empty body, a body that does not parse, and a non-object body yield nothing |
| Http.ErrorBodyOfObject | src/Hookbase/Http/ApiClient.cs:155-198 | for an object body: `message` wins over `error`; a field of another kind discards everything; the details hold the text of every field; field errors only with an `errors` field that deserializes |
| Http.MessageFieldWins | src/Hookbase/Http/ApiClient.cs:163-170 | with both fields strings, the `message` field is the message |
| Http.ErrorMessage | src/Hookbase/Http/ApiClient.cs:200 | the body's message when there is one, otherwise `HTTP <status>: <reason>` |
| Http.ThrowApiException | src/Hookbase/Http/ApiClient.cs:145-232 | the error for a final response is always an API exception |
| Http.ApiExceptionByStatus | src/Hookbase/Http/ApiClient.cs:203-231 | 400 and 422 give validation errors with the status and field errors; 401, 403, 404 and 409 their own classes; 429 a rate-limit error with the `Retry-After` seconds; any other status the generic API error with the status; every one carries message, request id and details |
| Http.DeserializeResponse | src/Hookbase/Http/ApiClient.cs:124-143 | succeeds exactly when the body decodes, and otherwise fails with the deserialization error |
| Http.KeptParams | src/Hookbase/Http/ApiClient.cs:260-261 | exactly the entries whose value is neither null nor empty are kept |
| Http.QueryPair | src/Hookbase/Http/ApiClient.cs:262 | an escaped pair is non-empty and contains no `&` |
| Http.BuildUrl | src/Hookbase/Http/ApiClient.cs:253-265 | the path alone when no parameter survives; otherwise the path, `?` and the escaped pairs joined by `&` |
| Http.QueryStringSplits | src/Hookbase/Http/ApiClient.cs:253-265 | the query string splits back at `&` into the pairs in order, and each pair at `=` into the escaped key and value |
| Http.FinalAttempt | src/Hookbase/Http/ApiClient.cs:69-121 | the loop stops at the first attempt that is not retried, which is within the budget |
| Http.FinalAttemptIsFirstStop | src/Hookbase/Http/ApiClient.cs:69-121 | any attempt that follows only retried attempts and is itself not retried is the final attempt |
| Http.SendBound | src/Hookbase/Http/ApiClient.cs:96-103 | a call sends at most `maxRetries + 1` requests |
| Http.ShouldRetryException | src/Hookbase/Http/ApiClient.cs:248-251 | (definition) exactly `HttpRequestException` and `TaskCanceledException` are retried; the range exception of `Task.Delay` is not |
| Http.DelayInRangeIff | src/Hookbase/Http/ApiClient.cs:99-100 | a computed backoff is always a wait `Task.Delay` accepts; a `Retry-After` delta is one exactly when it is at most 4294967 seconds |
| Http.WillRetry | src/Hookbase/Http/ApiClient.cs:96-117 | (definition) an attempt is retried exactly when budget remains and the response has a retryable status whose wait `Task.Delay` accepts, or the exception is a transport one |
| Http.Terminal | src/Hookbase/Http/ApiClient.cs:89-120 | (definition) the result of the stopping attempt: the decoded body, `Request failed` for a refused wait, the API error for the status, or `Request failed: <message>` for an exception |
| Http.AlwaysRetryable | src/Hookbase/Http/ApiClient.cs:96-103 | a transport that always answers with a retryable status and an accepted wait uses the whole budget |
| Http.AlwaysServerErrorExample | src/Hookbase/Http/ApiClient.cs:69-121 | always 500 with two retries means three sends, ending in the generic API error for 500 |
| Http.RecoversAfterRetries | src/Hookbase/Http/ApiClient.cs:90-103 | retryable failures with accepted waits followed by a success within the budget end at that success |
| Http.NonRetryableIsFinal | src/Hookbase/Http/ApiClient.cs:90-120 | a non-retryable status, a success, a `Retry-After` too long for `Task.Delay` or a non-transport exception ends the call at once |
| Http.OversizedRetryAfterEndsCall | src/Hookbase/Http/ApiClient.cs:97-120 | a retryable status with budget left whose `Retry-After` exceeds 4294967 seconds ends the call with `Request failed` and the range exception, not with the API error |
| Http.OversizedRetryAfterExample | src/Hookbase/Http/ApiClient.cs:97-120 | a 503 asking to wait 5000000 seconds with three retries: one send, then `Request failed` |
| Http.ApiClient.constructor | src/Hookbase/Http/ApiClient.cs:37-56 | the client keeps its key, base URL, timeout and retry budget; the exceptions of the `HttpClient` setup are not modelled |
| Http.ApiClient.RequestMessage | src/Hookbase/Http/ApiClient.cs:73-83 | the request has the method, URL and body; the authorization and user-agent headers come first, then the idempotency key exactly when one is given |
| Http.ApiClient.CalculateDelay | src/Hookbase/Http/ApiClient.cs:234-246 | a `Retry-After` delta is used exactly; otherwise the delay lies in `[base, 1.3 base)` |
| Http.ApiClient.RequestAsync | src/Hookbase/Http/ApiClient.cs:58-122 | one request built per attempt up to the first that is not retried, each the same request to the URL built once; one fitting delay before each retry; the result is that of the final attempt, a refused wait included |
| Http.ApiClient.RetryLoop | src/Hookbase/Http/ApiClient.cs:69-121 | the same as `RequestAsync`, for the already built URL |
| BooleanConverter.ParseBoolean | src/Hookbase/Json/BooleanConverter.cs:25 | (definition) `True` or `False` in any letter case, with white space and NUL trimmed at both ends; used by `StringToken` and `PaddedLiteral` |
| BooleanConverter.Read | src/Hookbase/Json/BooleanConverter.cs:12-33 | null, array and object tokens are errors; only literal, number and string tokens can succeed |
| BooleanConverter.Write | src/Hookbase/Json/BooleanConverter.cs:35-38 | writes a boolean literal |
| BooleanConverter.ReadNullable | src/Hookbase/Json/BooleanConverter.cs:46-72 | no value exactly for a null token or an empty string |
| BooleanConverter.WriteNullable | src/Hookbase/Json/BooleanConverter.cs:74-80 | writes `null` exactly when there is no value |
| BooleanConverter.ReadWrite | src/Hookbase/Json/BooleanConverter.cs:12-38 | reading what `Write` wrote gives the value back |
| BooleanConverter.ReadNullableWriteNullable | src/Hookbase/Json/BooleanConverter.cs:46-80 | reading what the nullable `Write` wrote gives the value back |
| BooleanConverter.NumberToken | src/Hookbase/Json/BooleanConverter.cs:20-22 | a 32-bit number token is true exactly when it is not zero |
| BooleanConverter.StringToken | src/Hookbase/Json/BooleanConverter.cs:23-29 | a string is tried as a boolean literal, then as a 32-bit integer compared with zero, and is an error otherwise |
| BooleanConverter.NullableAgrees | src/Hookbase/Json/BooleanConverter.cs:46-72 | apart from null and the empty string, the nullable reader succeeds, fails and answers as the plain one does |
| BooleanConverter.PaddedLiteral | src/Hookbase/Json/BooleanConverter.cs:25 | `True` in any letter case, padded with spaces, reads as true |
| BooleanConverter.IntegerString | src/Hookbase/Json/BooleanConverter.cs:27-28 | a padded 32-bit integer string reads as that integer compared with zero |
| BooleanConverter.PaddedDecimalIsNoLiteral | src/Hookbase/Json/BooleanConverter.cs:25 | a padded integer is not a boolean literal |
| BooleanConverter.PaddedDecimalParses | src/Hookbase/Json/BooleanConverter.cs:27 | a padded 32-bit integer parses as itself |
| BooleanConverter.NulTerminatedInteger | src/Hookbase/Json/BooleanConverter.cs:25-28 | a 32-bit integer string ending in NUL is no boolean literal and reads as the integer compared with zero |
| BooleanConverter.NulTerminatedOne | src/Hookbase/Json/BooleanConverter.cs:23-28 | the JSON string `"1\u0000"` reads as true |
| BooleanConverter.RejectedWord | src/Hookbase/Json/BooleanConverter.cs:29 | `"yes"` is an error |
| BooleanConverter.RejectedFraction | src/Hookbase/Json/BooleanConverter.cs:21 | the number `1.5` is an error |
| JsonStringConverter.Coerce | src/Hookbase/Json/JsonStringConverter.cs:38-45 | strings, numbers and the two literals keep their kind and content; null, arrays and objects become their raw text |
| JsonStringConverter.ObjectDictionary | src/Hookbase/Json/JsonStringConverter.cs:12-53 | null, an empty string and any other token kind give no dictionary; a string gives one exactly when its text parses to an object, holding that object's elements under its property names; an object gives one keyed by its property names |
| JsonStringConverter.ReadDictionary | src/Hookbase/Json/JsonStringConverter.cs:12-53 | the dictionary the loop fills is the one specified |
| JsonStringConverter.ObjectLastWins | src/Hookbase/Json/JsonStringConverter.cs:36-46 | each property name maps to the coerced value of its last occurrence |
| JsonStringConverter.UnparsableText | src/Hookbase/Json/JsonStringConverter.cs:17-30 | a non-empty string whose text is not a JSON object gives no dictionary and no error |
| JsonStringConverter.StringDictionary | src/Hookbase/Json/JsonStringConverter.cs:66-99 | null, an empty string, text that is not an object and any other token kind give no dictionary; encoded text gives one exactly when every value is a string or null, keyed by the property names with the strings or no value; an object always gives one keyed by its property names |
| JsonStringConverter.ReadStringDictionary | src/Hookbase/Json/JsonStringConverter.cs:66-99 | the dictionary the loop fills is the one specified |
| JsonStringConverter.StringObjectLastWins | src/Hookbase/Json/JsonStringConverter.cs:88-94 | each property name maps to the text of its last occurrence |
| Json.RawText | src/Hookbase/Json/JsonStringConverter.cs:44 | (definition) the compact JSON text of a token, escaping `"` and `\` in strings and names |
| Json.ToText | src/Hookbase/Json/JsonStringConverter.cs:92 | a string renders as its value; numbers, arrays and objects as their raw JSON text |
| Pagination.Wrap32 | src/Hookbase/Pagination/OffsetPage.cs:31 | the 32-bit result is congruent to the exact one modulo 2^32, and equal to it when that fits |
| Pagination.TotalPages | src/Hookbase/Pagination/OffsetPage.cs:36 | the smallest number of pages that holds `Total` items |
| Pagination.HasMoreAsWritten | src/Hookbase/Pagination/OffsetPage.cs:31 | (definition) the 32-bit wrapped product `Page * PageSize` is below `Total` |
| Pagination.HasMore | src/Hookbase/Pagination/OffsetPage.cs:31 | (definition) the exact product `Page * PageSize` is below `Total` |
| Pagination.HasMoreAgreesInRange | src/Hookbase/Pagination/OffsetPage.cs:31 | where the product fits in 32 bits, `HasMore` as written and as intended agree |
| Pagination.HasMoreIffBeforeLastPage | src/Hookbase/Pagination/OffsetPage.cs:31-36 | with positive page size and non-negative total and page, there is more exactly when the page comes before the last |
| Pagination.EmptyListing | src/Hookbase/Pagination/OffsetPage.cs:31-36 | an empty listing has no pages, and no page of it has more |
| Pagination.HasMoreOverflows | src/Hookbase/Pagination/OffsetPage.cs:31 | page 65536 of an empty listing with 32768 items per page claims more as written |
| Resources.ToCamelCase | src/Hookbase/Resources/BaseResource.cs:47-55 | length kept; empty or lower-case-first text unchanged; otherwise only the first character is lower-cased |
| Resources.CamelCaseIdempotent | src/Hookbase/Resources/BaseResource.cs:47-55 | camel-casing twice is camel-casing once |
| Resources.Assignments | src/Hookbase/Resources/BaseResource.cs:32-39 | at most one assignment per property |
| Resources.BuildQueryParams | src/Hookbase/Resources/BaseResource.cs:22-42 | the dictionary the loop fills is the one the assignments give, and empty for a null object |
| Resources.AssignmentsSnoc | src/Hookbase/Resources/BaseResource.cs:38 | one more property overwrites its key when its value is not null, and changes nothing otherwise |
| Resources.QueryParams | src/Hookbase/Resources/BaseResource.cs:22-42 | (definition) empty for null options, otherwise the dictionary the assignments fill; stated by `QueryParamKeys` and `QueryParamLastWins` |
| Resources.QueryParamKeys | src/Hookbase/Resources/BaseResource.cs:32-39 | the keys are the camel-cased names of the properties whose value is not null |
| Resources.QueryParamLastWins | src/Hookbase/Resources/BaseResource.cs:38 | a key holds the text of the last non-null property that camel-cases to it |
| Text.Split | src/Hookbase/Webhooks/WebhookVerifier.cs:158 | at least one segment, none containing the separator |
| Text.NonEmpty | src/Hookbase/Webhooks/WebhookVerifier.cs:158 | the non-empty segments, every one of them kept |
| Text.ParseInteger | src/Hookbase/Webhooks/WebhookVerifier.cs:71 | a parsed value lies in the target type's range; `ParseDecimalString` states the round trip and the NUL lemmas the accepted trailing NULs |
| Text.TrailingNulIgnored | src/Hookbase/Webhooks/WebhookVerifier.cs:71 | a NUL appended to any text does not change what it parses to |
| Text.NulAfterSpace | src/Hookbase/Json/BooleanConverter.cs:27 | `"1 \0"` parses as 1: NULs may follow the trailing white space |
| Text.NulBeforeSpace | src/Hookbase/Json/BooleanConverter.cs:27 | `"1\0 \0"` does not parse: white space may not follow a NUL |
| Text.LeadingNul | src/Hookbase/Json/BooleanConverter.cs:27 | `"\01"` does not parse: a NUL is accepted only at the end |
| Text.ParseDecimalString | src/Hookbase/Webhooks/WebhookVerifier.cs:71-93 | the decimal text of an in-range integer parses back to it |
| Utf8.EncodeInjective | src/Hookbase/Webhooks/WebhookVerifier.cs:184-187 | strings with equal UTF-8 bytes are equal |
| Uri.EscapeDataString | src/Hookbase/Http/ApiClient.cs:262 | the escaped text holds only unreserved characters and `%`, so no `&`, `=`, `?` or `#` |
| Uri.EscapeUnreserved | src/Hookbase/Http/ApiClient.cs:262 | text of unreserved characters is left as it is |
| Dict.LastWins | src/Hookbase/Json/JsonStringConverter.cs:38 | filling a dictionary in order leaves each key with its last value |

## Left out

- HMAC-SHA256, base64 encoding and decoding, and JSON text parsing and typed
  deserialization are opaque functions passed in. They are cryptography and
  serialization libraries. A `Json` token tree stands for `JsonElement`.
- `CryptographicOperations.FixedTimeEquals` is modelled only as byte equality.
  Constant-time behaviour cannot be stated in this model.
- The clock, `DateTimeOffset.UtcNow`, is a parameter: ticks since the Unix
  epoch. The tolerance is in ticks as well.
- `HttpClient`, the wait of `Task.Delay`, cancellation tokens and async/await
  are I/O and concurrency. The transport is a script with one outcome per
  attempt. Of `Task.Delay` only its range check is modelled.
- The constructor keeps the base address and the HTTP timeout, but nothing in
  the model reads them: they only configure the `HttpClient`. `Dispose` is not
  modelled.
- Http.ApiClient.constructor: always succeeds, while the source constructor
  (ApiClient.cs lines 51-53) can throw. `new Uri(baseUrl)` throws
  `UriFormatException` for a relative or malformed base URL. The `Timeout`
  setter throws `ArgumentOutOfRangeException` for a timeout of zero or less, or
  above 2147483 seconds. Adding the `Authorization` header throws
  `FormatException` for an API key holding CR or LF. Validating URLs and header
  values belongs to the HTTP library, which is not part of this model.
- Http.ApiClient.RequestAsync: `sent` lists the requests built, one per attempt.
  If the idempotency key holds CR or LF, adding its header (ApiClient.cs line
  77) throws `FormatException` before `SendAsync`. Such a request counts in
  `sent` though it never reaches the transport. The script's `Threw` outcome
  for that attempt gives the same result as the source: `Request failed: …`,
  with no retry.
- `Random.NextDouble` is a per-attempt jitter parameter in `[0, 1)`. So the
  state of `_random` across calls is not modelled.
- Delays and `Math.Pow` are exact reals, not doubles.
- Http.ApiClient.CalculateDelay: states the bounds of the delay, not its exact
  value. The exact value depends on the random draw.
- The `Retry-After` header is held as a delta in whole seconds. So neither a
  fractional delta nor the `(int)` cast of the seconds in the 429 error is
  modelled. A date-valued header counts as absent.
- Webhooks.TryGetHeader: the webhook headers are modelled as non-null values
  under the ordinal comparer. The exact lookup (WebhookVerifier.cs line 193)
  uses whatever comparer the caller's dictionary has. A null
  `webhook-signature` value makes `ParseSignatures` (line 158) throw
  `NullReferenceException`, which escapes `VerifySignature`; that is not
  modelled.
- The response headers are held as a sequence. A repeated `X-Request-Id`
  keeps its values in order.
- Only `HttpRequestException`, `TaskCanceledException`, the
  `ArgumentOutOfRangeException` of `Task.Delay` and "any other exception" are
  told apart. The text of the range exception's message follows the .NET
  runtime. An exception thrown while reading or decoding a
  successful body is folded into the deserialization error.
- Letter case is mapped for ASCII only, and no culture rules apply. This covers
  `char.IsLower`, `ToLowerInvariant` and ordinal ignore-case comparison.
- `char.IsWhiteSpace` is the fixed set of .NET white-space characters.
- Json.RawText: the text is rebuilt in compact form, escaping only `"` and `\`.
  `GetRawText` returns the original text, with its spacing and its escapes
  (`\u0041`, `\n`); the token tree does not keep them.
- Json.ToText: numbers, arrays and objects render through `RawText`, so the
  same difference applies.
- JsonStringConverter.Coerce: a number keeps its literal text instead of being
  converted to `double`. A literal beyond the `double` range, such as `1e400`,
  makes `GetDouble` throw in the source; the model keeps the literal.
- Webhooks.SecureCompare: strings are sequences of Unicode scalar values, so a
  lone UTF-16 surrogate cannot occur. In .NET two different lone surrogates
  both encode to the replacement character and compare equal.
- Uri.EscapeDataString: for the same reason, how a lone surrogate is escaped is
  not modelled.
- Text.ParseInteger: the signs are the invariant culture's `-` and `+`, and
  `DecimalString` writes `-`. The source parses (WebhookVerifier.cs line 71,
  BooleanConverter.cs line 27) and formats the signed timestamp (line 93) with
  the current culture, whose negative sign may differ (U+2212 in some
  cultures). Only cultures with the ASCII signs are modelled.
- Pagination.TotalPages: requires a positive page size. With a zero or negative
  page size the source casts an infinite or negative `double` to `int`.
- Reflection over the options object in `BuildQueryParams` is replaced by the
  list of its properties in declaration order. `GenerateIdempotencyKey`
  (`Guid.NewGuid`) is left out as nondeterministic.
- The `Write` methods of the two dictionary converters call the general serializer
  and are not modelled.
- The candidate comparison loop of `Verify` is the separate method
  `Webhooks.MatchesAny`, which `Verify` calls.
- The `while (true)` loop of `RequestAsync` is the separate method
  `Http.ApiClient.RetryLoop`, which `RequestAsync` calls with the built URL.

## Findings

| source | as written | input that shows it | evidently intended | confidence | as-written member | corrected member |
|---|---|---|---|---|---|---|
| src/Hookbase/Webhooks/WebhookVerifier.cs:135-146 | `VerifySignature` catches only `WebhookVerificationException`; the `ArgumentOutOfRangeException` that `DateTimeOffset.FromUnixTimeSeconds` (line 76) throws for an integer timestamp outside years 1 to 9999 escapes | a `webhook-timestamp` of `253402300800` | `false` for every webhook that does not verify | not executed | Webhooks.OutOfRangeTimestampEscapes | Webhooks.WebhookVerifier.VerifySignature |
| src/Hookbase/Webhooks/WebhookVerifier.cs:132-146 | `VerifySignature` is documented to verify without deserializing, but calls `Verify<Dictionary<string, object>>` (line 139), so a payload that is not a JSON object gives `false` | a correctly signed, fresh webhook whose payload is `[1]` | `true` whenever the headers, the timestamp and the signature pass | not executed | Webhooks.SignedNonObjectRejected | Webhooks.WebhookVerifier.VerifySignature |
| src/Hookbase/Pagination/OffsetPage.cs:31 | `HasMore` multiplies `Page * PageSize` in 32-bit arithmetic, which wraps around | `Total = 0`, `Page = 65536`, `PageSize = 32768`: the product wraps to -2147483648, so `HasMore` is true | more pages exactly when this page comes before the last | not executed | Pagination.HasMoreOverflows | Pagination.HasMoreIffBeforeLastPage |
