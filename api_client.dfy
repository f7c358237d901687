/** `ApiClient`: sends a request, retries transient failures with exponential backoff,
    and turns a final non-success response into the SDK's typed error. The transport is
    a script of outcomes, one per attempt; `Random` and the JSON parser are parameters. */
module Http {
  import opened Wrappers
  import Text
  import Uri
  import Json
  import Dict

  // ---------------------------------------------------------------------------
  // Statuses and transport outcomes

  /** 429 Too Many Requests, 500, 502, 503 and 504. */
  const RetryableStatusCodes: set<int> := {429, 500, 502, 503, 504}

  /** `HttpResponseMessage.IsSuccessStatusCode`. */
  predicate IsSuccessStatusCode(status: int) {
    200 <= status <= 299
  }

  /** No retryable status is a success, so the retry test never sees one. */
  lemma RetryableAreFailures(status: int)
    requires status in RetryableStatusCodes
    ensures !IsSuccessStatusCode(status) && 400 <= status <= 599
  {
  }

  /** The exceptions that reach the `catch` of `RequestAsync`, by the type it tests:
      those of the transport, and the one `Task.Delay` throws for a delay its timer
      cannot hold. */
  datatype TransportException =
    | HttpRequestException(message: string)
    | TaskCanceledException(message: string)
    | ArgumentOutOfRangeException(message: string)
    | OtherException(message: string)

  /** `ShouldRetryException`. */
  predicate ShouldRetryException(ex: TransportException) {
    ex.HttpRequestException? || ex.TaskCanceledException?
  }

  /** What `RequestAsync` reads from a response: the status, the reason phrase, the
      `Retry-After` delta in whole seconds (absent when the header is missing or holds a
      date), the values of `X-Request-Id`, and the body text. */
  datatype Response = Response(status: int, reasonPhrase: Option<string>, retryAfter: Option<nat>,
                               requestIds: seq<string>, content: string)

  /** One attempt's outcome: a response, or an exception from `SendAsync`. */
  datatype TransportOutcome = Responded(response: Response) | Threw(exception: TransportException)

  /** The first `X-Request-Id` value, if the header is present. */
  function RequestIdOf(response: Response): (id: Option<string>)
    ensures id.Some? <==> |response.requestIds| > 0
    ensures id.Some? ==> id.value == response.requestIds[0]
  {
    if |response.requestIds| > 0 then Some(response.requestIds[0]) else None
  }

  // ---------------------------------------------------------------------------
  // Backoff

  /** A value of `Random.NextDouble`. */
  type Fraction = r: real | 0.0 <= r < 1.0

  function Pow2(n: nat): (p: nat)
    ensures p >= 1
  {
    if n == 0 then 1 else 2 * Pow2(n - 1)
  }

  /** `Math.Min(Math.Pow(2, attempt), 10)` seconds. */
  function BaseDelay(attempt: nat): (seconds: real)
    ensures 1.0 <= seconds <= 10.0
  {
    if Pow2(attempt) < 10 then Pow2(attempt) as real else 10.0
  }

  /** The base delay doubles from one second and is capped at ten from the fifth
      attempt on. */
  lemma {:induction false} BaseDelaySchedule(attempt: nat)
    ensures attempt <= 3 ==> BaseDelay(attempt) == Pow2(attempt) as real
    ensures attempt >= 4 ==> BaseDelay(attempt) == 10.0
    ensures BaseDelay(0) == 1.0 && BaseDelay(1) == 2.0 && BaseDelay(2) == 4.0 && BaseDelay(3) == 8.0
  {
    if attempt >= 4 {
      Pow2AtLeast16(attempt);
    }
    assert Pow2(3) == 8 by {
      assert Pow2(2) == 4 by { assert Pow2(1) == 2; }
    }
  }

  lemma {:induction false} Pow2AtLeast16(n: nat)
    requires n >= 4
    ensures Pow2(n) >= 16
  {
    if n == 4 {
      assert Pow2(4) == 16 by {
        assert Pow2(3) == 8 by {
          assert Pow2(2) == 4 by { assert Pow2(1) == 2; }
        }
      }
    } else {
      Pow2AtLeast16(n - 1);
    }
  }

  /** The base delay plus `jitter` times 30 percent of it: less than 30 percent more. */
  function WithJitter(baseDelay: real, jitter: Fraction): (seconds: real)
    requires baseDelay >= 1.0
    ensures baseDelay <= seconds < 1.3 * baseDelay
  {
    assert 0.0 <= jitter * 0.3 * baseDelay < 0.3 * baseDelay by {
      assert jitter * 0.3 * baseDelay == jitter * (0.3 * baseDelay);
      assert (1.0 - jitter) * (0.3 * baseDelay) > 0.0;
    }
    baseDelay + jitter * 0.3 * baseDelay
  }

  /** The longest wait `Task.Delay` accepts, in milliseconds (`Timer.MaxSupportedTimeout`). */
  const MaxTimerMilliseconds: int := 0xFFFF_FFFE

  /** The message of the `ArgumentOutOfRangeException` that `Task.Delay` throws. */
  const DelayRangeMessage: string :=
    "The value needs to translate in milliseconds to -1 (signifying an infinite timeout), 0, or a positive "
    + "integer less than or equal to the maximum allowed timer duration. (Parameter 'delay')"

  /** Whether `Task.Delay` accepts a wait: its whole milliseconds are within the timer's range. */
  predicate DelayInRange(seconds: real) {
    seconds * 1000.0 < (MaxTimerMilliseconds + 1) as real
  }

  /** Whether a `Retry-After` delta, in whole seconds, is a wait `Task.Delay` accepts. */
  predicate RetryAfterInRange(retryAfter: Option<nat>) {
    retryAfter.None? || retryAfter.value * 1000 <= MaxTimerMilliseconds
  }

  /** The wait that `CalculateDelay` may choose before retrying `attempt`: a
      `Retry-After` delta exactly, otherwise the base delay plus up to 30 percent. */
  predicate DelayFits(seconds: real, attempt: nat, retryAfter: Option<nat>) {
    if retryAfter.Some? then seconds == retryAfter.value as real
    else BaseDelay(attempt) <= seconds < 1.3 * BaseDelay(attempt)
  }

  /** A computed backoff is always accepted; a `Retry-After` delta is accepted exactly
      when it is at most 4294967 seconds. */
  lemma DelayInRangeIff(seconds: real, attempt: nat, retryAfter: Option<nat>)
    requires DelayFits(seconds, attempt, retryAfter)
    ensures DelayInRange(seconds) <==> RetryAfterInRange(retryAfter)
    ensures RetryAfterInRange(retryAfter) <==> retryAfter.None? || retryAfter.value <= 4294967
  {
    if retryAfter.Some? {
      assert seconds * 1000.0 == (retryAfter.value * 1000) as real;
    } else {
      assert seconds < 13.0;
    }
  }

  /** The `Retry-After` delta of an outcome; an exception has no response to carry one. */
  function RetryAfterOf(outcome: TransportOutcome): Option<nat> {
    if outcome.Responded? then outcome.response.retryAfter else None
  }

  // ---------------------------------------------------------------------------
  // The error body

  /** `JsonElement.GetString()`: the text of a string, null for a JSON null, and an
      exception (`None`) for any other kind. */
  function GetString(j: Json.Json): (r: Option<Option<string>>)
    ensures r.Some? <==> j.JString? || j.JNull?
    ensures j.JString? ==> r == Some(Some(j.text))
    ensures j.JNull? ==> r == Some(None)
  {
    match j
    case JString(text) => Some(Some(text))
    case JNull => Some(None)
    case _ => None
  }

  /** The field errors: field name to its messages (`string[]`, with null entries). */
  type FieldErrors = map<string, Option<seq<Option<string>>>>

  /** A JSON value that deserializes into `string[]`: null, or an array of strings and nulls. */
  predicate IsStringArray(j: Json.Json) {
    j.JNull? || (j.JArray? && forall i :: 0 <= i < |j.items| ==> j.items[i].JString? || j.items[i].JNull?)
  }

  function StringArrayOf(j: Json.Json): (r: Option<seq<Option<string>>>)
    requires IsStringArray(j)
    ensures r.None? <==> j.JNull?
    ensures r.Some? ==> |r.value| == |j.items|
    ensures r.Some? ==> forall i :: 0 <= i < |r.value| ==> (r.value[i].Some? <==> j.items[i].JString?)
  {
    if j.JNull? then None
    else Some(seq(|j.items|, i requires 0 <= i < |j.items| =>
                                if j.items[i].JString? then Some(j.items[i].text) else None))
  }

  /** `Deserialize<Dictionary<string, string[]>>` of the `errors` element, with a
      failure swallowed into null: only an object of string arrays yields field errors. */
  function FieldErrorsOf(errors: Json.Json): (r: Option<FieldErrors>)
    ensures r.Some? <==> errors.JObject? && forall i :: 0 <= i < |errors.members| ==> IsStringArray(errors.members[i].value)
    ensures r.Some? ==> r.value.Keys == set i | 0 <= i < |errors.members| :: errors.members[i].name
  {
    match errors
    case JObject(members) =>
      if forall i :: 0 <= i < |members| ==> IsStringArray(members[i].value) then
        var entries := seq(|members|, i requires 0 <= i < |members| => (members[i].name, StringArrayOf(members[i].value)));
        var r := Dict.FromEntries(entries);
        assert r.Keys == set i | 0 <= i < |members| :: members[i].name by {
          assert forall i :: 0 <= i < |members| ==> entries[i].0 == members[i].name;
        }
        Some(r)
      else None
    case _ => None
  }

  /** What `ThrowApiException` extracts from the body; all absent when parsing fails. */
  datatype ErrorBody = ErrorBody(message: Option<string>, details: Option<map<string, string>>,
                                 fieldErrors: Option<FieldErrors>)

  const NoErrorBody: ErrorBody := ErrorBody(None, None, None)

  /** The top-level properties of an error object, a later duplicate overwriting an
      earlier one. */
  function Fields(members: seq<Json.Member>): map<string, Json.Json> {
    Dict.FromEntries(Json.Entries(members))
  }

  /** The body parse of `ThrowApiException`: an object yields the `message` field, else
      the `error` field, the text of every field, and the field errors; an empty body,
      a body that is not an object, or a message field that is neither a string nor
      null yields nothing at all. */
  function ParseErrorBody(content: string, parse: string -> Option<Json.Json>): (b: ErrorBody)
    ensures content == "" || parse(content).None? || !parse(content).value.JObject? ==> b == NoErrorBody
  {
    if content == "" then NoErrorBody
    else
      match parse(content)
      case Some(JObject(members)) =>
        var fields := Fields(members);
        var message := if "message" in fields then GetString(fields["message"])
                       else if "error" in fields then GetString(fields["error"])
                       else Some(None);
        if message.None? then NoErrorBody
        else
          var details := map k | k in fields :: Json.ToText(fields[k]);
          var fieldErrors := if "errors" in fields then FieldErrorsOf(fields["errors"]) else None;
          ErrorBody(message.value, Some(details), fieldErrors)
      case _ => NoErrorBody
  }

  /** For an object body: the message is the `message` field, else the `error` field,
      either of which must be a string or null or nothing at all is kept; the details
      hold the text of every field; the field errors come from the `errors` field. */
  lemma ErrorBodyOfObject(content: string, parse: string -> Option<Json.Json>)
    requires content != "" && parse(content).Some? && parse(content).value.JObject?
    ensures var b := ParseErrorBody(content, parse);
            var fields := Fields(parse(content).value.members);
              && ("message" in fields ==>
                    (GetString(fields["message"]).None? ==> b == NoErrorBody)
                    && (GetString(fields["message"]).Some? ==> b.message == GetString(fields["message"]).value))
              && ("message" !in fields && "error" in fields ==>
                    (GetString(fields["error"]).None? ==> b == NoErrorBody)
                    && (GetString(fields["error"]).Some? ==> b.message == GetString(fields["error"]).value))
              && ("message" !in fields && "error" !in fields ==> b.message.None?)
              && (b != NoErrorBody ==> b.details.Some? && b.details.value.Keys == fields.Keys
                                       && forall k :: k in fields ==> b.details.value[k] == Json.ToText(fields[k]))
              && (b.fieldErrors.Some? <==> "errors" in fields && b.details.Some? && FieldErrorsOf(fields["errors"]).Some?)
  {
  }

  /** The `message` field wins over the `error` field when both are strings. */
  lemma MessageFieldWins(content: string, parse: string -> Option<Json.Json>, members: seq<Json.Member>,
                         message: string, error: string)
    requires content != "" && parse(content) == Some(Json.JObject(members))
    requires "message" in Fields(members) && Fields(members)["message"] == Json.JString(message)
    requires "error" in Fields(members) && Fields(members)["error"] == Json.JString(error)
    ensures ParseErrorBody(content, parse).message == Some(message)
  {
  }

  /** The error message: the one from the body, else `HTTP <status>: <reason>`. */
  function ErrorMessage(status: int, reasonPhrase: Option<string>, body: ErrorBody): (m: string)
    ensures body.message.Some? ==> m == body.message.value
    ensures body.message.None? ==> m == "HTTP " + Text.DecimalString(status) + ": " + reasonPhrase.GetOr("")
  {
    match body.message
    case Some(message) => message
    case None => "HTTP " + Text.DecimalString(status) + ": " + reasonPhrase.GetOr("")
  }

  // ---------------------------------------------------------------------------
  // Errors

  /** The fields every API exception carries. */
  datatype ErrorInfo = ErrorInfo(message: string, requestId: Option<string>, details: Option<map<string, string>>)

  /** The exceptions `RequestAsync` ends with: the `HookbaseApiException` family for a
      final non-success response, and a plain `HookbaseException` otherwise. */
  datatype ApiError =
    | ValidationError(info: ErrorInfo, status: int, fieldErrors: Option<FieldErrors>)
    | AuthenticationError(info: ErrorInfo)
    | ForbiddenError(info: ErrorInfo)
    | NotFoundError(info: ErrorInfo)
    | ConflictError(info: ErrorInfo)
    | RateLimitError(info: ErrorInfo, retryAfter: Option<nat>)
    | ApiStatusError(info: ErrorInfo, status: int)
    | RequestFailed(message: string, cause: TransportException)
    | DeserializationFailed

  /** Whether an error came from an HTTP response rather than from the transport or the
      response body's decoding. */
  predicate IsApiException(e: ApiError) {
    !e.RequestFailed? && !e.DeserializationFailed?
  }

  /** `ThrowApiException`: the error for a final non-success response, chosen by status. */
  function ThrowApiException(response: Response, parse: string -> Option<Json.Json>): (e: ApiError)
    ensures IsApiException(e)
  {
    var status := response.status;
    var body := ParseErrorBody(response.content, parse);
    var info := ErrorInfo(ErrorMessage(status, response.reasonPhrase, body), RequestIdOf(response), body.details);
    if status == 400 || status == 422 then ValidationError(info, status, body.fieldErrors)
    else if status == 401 then AuthenticationError(info)
    else if status == 403 then ForbiddenError(info)
    else if status == 404 then NotFoundError(info)
    else if status == 409 then ConflictError(info)
    else if status == 429 then RateLimitError(info, response.retryAfter)
    else ApiStatusError(info, status)
  }

  /** The error class follows the status: 400 and 422 are validation errors, 401, 403,
      404, 409 and 429 have their own classes, and any other status is a plain
      `HookbaseApiException`; every one carries the message, request id and details. */
  lemma ApiExceptionByStatus(response: Response, parse: string -> Option<Json.Json>)
    ensures var e := ThrowApiException(response, parse);
            var body := ParseErrorBody(response.content, parse);
            && e.info == ErrorInfo(ErrorMessage(response.status, response.reasonPhrase, body), RequestIdOf(response), body.details)
            && (e.ValidationError? <==> response.status == 400 || response.status == 422)
            && (e.ValidationError? ==> e.status == response.status && e.fieldErrors == body.fieldErrors)
            && (e.AuthenticationError? <==> response.status == 401)
            && (e.ForbiddenError? <==> response.status == 403)
            && (e.NotFoundError? <==> response.status == 404)
            && (e.ConflictError? <==> response.status == 409)
            && (e.RateLimitError? <==> response.status == 429)
            && (e.RateLimitError? ==> e.retryAfter == response.retryAfter)
            && (e.ApiStatusError? <==> response.status !in {400, 401, 403, 404, 409, 422, 429})
            && (e.ApiStatusError? ==> e.status == response.status)
  {
  }

  /** `DeserializeResponse`: a body that does not decode, or decodes to null, is a
      `HookbaseException`. */
  function DeserializeResponse<T>(content: string, deserialize: string -> Option<T>): (r: Result<T, ApiError>)
    ensures r.Success? <==> deserialize(content).Some?
    ensures r.Success? ==> r.value == deserialize(content).value
    ensures r.Failure? ==> r.error == DeserializationFailed
  {
    match deserialize(content)
    case Some(value) => Success(value)
    case None => Failure(DeserializationFailed)
  }

  // ---------------------------------------------------------------------------
  // The URL

  /** The query entries `BuildUrl` keeps: those whose value is neither null nor empty. */
  function KeptParams(queryParams: seq<(string, Option<string>)>): (kept: seq<(string, string)>)
    ensures forall i :: 0 <= i < |kept| ==> kept[i].1 != "" && (kept[i].0, Some(kept[i].1)) in queryParams
    ensures forall i :: 0 <= i < |queryParams| && queryParams[i].1.Some? && queryParams[i].1.value != "" ==>
              (queryParams[i].0, queryParams[i].1.value) in kept
    ensures |kept| <= |queryParams|
  {
    if |queryParams| == 0 then []
    else
      var (key, value) := queryParams[0];
      (if value.Some? && value.value != "" then [(key, value.value)] else []) + KeptParams(queryParams[1..])
  }

  /** `key=value`, both escaped. */
  function QueryPair(key: string, value: string): (pair: string)
    ensures '&' !in pair && pair != ""
  {
    Uri.EscapeDataString(key) + "=" + Uri.EscapeDataString(value)
  }

  function QueryPairs(kept: seq<(string, string)>): (pairs: seq<string>)
    ensures |pairs| == |kept|
    ensures forall i :: 0 <= i < |pairs| ==> pairs[i] == QueryPair(kept[i].0, kept[i].1)
  {
    seq(|kept|, i requires 0 <= i < |kept| => QueryPair(kept[i].0, kept[i].1))
  }

  /** Joining non-empty pairs is empty only when there are none. */
  lemma {:induction false} JoinEmpty(pairs: seq<string>)
    requires forall i :: 0 <= i < |pairs| ==> pairs[i] != ""
    ensures Text.Join(pairs, '&') == "" <==> pairs == []
  {
    if |pairs| > 1 {
      assert |Text.Join(pairs, '&')| >= |pairs[0]|;
    }
  }

  /** `BuildUrl`: the path alone when nothing survives the filter, otherwise the path,
      `?`, and the escaped pairs joined with `&`. */
  function BuildUrl(path: string, queryParams: Option<seq<(string, Option<string>)>>): (url: string)
    ensures queryParams.None? || KeptParams(queryParams.value) == [] ==> url == path
    ensures queryParams.Some? && KeptParams(queryParams.value) != [] ==>
              url == path + "?" + Text.Join(QueryPairs(KeptParams(queryParams.value)), '&')
  {
    if queryParams.None? || |queryParams.value| == 0 then path
    else
      var queryString := Text.Join(QueryPairs(KeptParams(queryParams.value)), '&');
      JoinEmpty(QueryPairs(KeptParams(queryParams.value)));
      if queryString == "" then path else path + "?" + queryString
  }

  /** The query string reads back: it splits at `&` into the pairs, in order, and each
      pair splits at `=` into the escaped key and the escaped value. */
  lemma QueryStringSplits(kept: seq<(string, string)>)
    requires kept != []
    ensures Text.Split(Text.Join(QueryPairs(kept), '&'), '&') == QueryPairs(kept)
    ensures forall i :: 0 <= i < |kept| ==>
              Text.Split(QueryPairs(kept)[i], '=') == [Uri.EscapeDataString(kept[i].0), Uri.EscapeDataString(kept[i].1)]
  {
    Text.SplitJoin(QueryPairs(kept), '&');
    forall i | 0 <= i < |kept|
      ensures Text.Split(QueryPairs(kept)[i], '=') == [Uri.EscapeDataString(kept[i].0), Uri.EscapeDataString(kept[i].1)]
    {
      var k := Uri.EscapeDataString(kept[i].0);
      var v := Uri.EscapeDataString(kept[i].1);
      assert QueryPairs(kept)[i] == k + ['='] + v;
      Text.SplitFirst(k, '=', v);
      Text.SplitNoSep(v, '=');
    }
  }

  // ---------------------------------------------------------------------------
  // The retry engine

  /** Whether `RequestAsync` retries after this attempt: budget left, and a retryable
      status or a retryable exception. */
  predicate WillRetry(maxRetries: int, attempt: nat, outcome: TransportOutcome) {
    attempt < maxRetries &&
    match outcome
    case Responded(response) =>
      && !IsSuccessStatusCode(response.status) && response.status in RetryableStatusCodes
      && RetryAfterInRange(response.retryAfter)
    case Threw(ex) => ShouldRetryException(ex)
  }

  /** The attempt at which `RequestAsync` stops, starting from `attempt`. */
  function FinalAttempt(maxRetries: int, transport: nat -> TransportOutcome, attempt: nat): (k: nat)
    ensures attempt <= k && (k == attempt || k <= maxRetries)
    ensures !WillRetry(maxRetries, k, transport(k))
    ensures forall j :: attempt <= j < k ==> WillRetry(maxRetries, j, transport(j))
    decreases if attempt < maxRetries then maxRetries - attempt else 0
  {
    if WillRetry(maxRetries, attempt, transport(attempt)) then FinalAttempt(maxRetries, transport, attempt + 1)
    else attempt
  }

  /** The final attempt is the first one that is not retried. */
  lemma {:induction false} FinalAttemptIsFirstStop(maxRetries: int, transport: nat -> TransportOutcome,
                                                   start: nat, k: nat)
    requires start <= k
    requires forall j :: start <= j < k ==> WillRetry(maxRetries, j, transport(j))
    requires !WillRetry(maxRetries, k, transport(k))
    ensures FinalAttempt(maxRetries, transport, start) == k
    decreases k - start
  {
    if start < k {
      FinalAttemptIsFirstStop(maxRetries, transport, start + 1, k);
    }
  }

  /** The failure of a call whose `Task.Delay` refused the wait. */
  const DelayOutOfRange: ApiError :=
    RequestFailed("Request failed: " + DelayRangeMessage, ArgumentOutOfRangeException(DelayRangeMessage))

  /** The result of attempt `attempt`, the one that stops the loop. A retryable status
      whose `Retry-After` is too long for `Task.Delay` ends in the failure its exception
      becomes. */
  function Terminal<T>(maxRetries: int, attempt: nat, outcome: TransportOutcome, deserialize: string -> Option<T>,
                       parse: string -> Option<Json.Json>): Result<T, ApiError>
  {
    match outcome
    case Responded(response) =>
      if IsSuccessStatusCode(response.status) then DeserializeResponse(response.content, deserialize)
      else if attempt < maxRetries && response.status in RetryableStatusCodes then Failure(DelayOutOfRange)
      else Failure(ThrowApiException(response, parse))
    case Threw(ex) => Failure(RequestFailed("Request failed: " + ex.message, ex))
  }

  /** A call sends at most `maxRetries + 1` requests (one when the budget is not positive). */
  lemma SendBound(maxRetries: int, transport: nat -> TransportOutcome)
    ensures FinalAttempt(maxRetries, transport, 0) + 1 <= (if maxRetries > 0 then maxRetries else 0) + 1
  {
  }

  /** A transport that always answers with a retryable status exhausts the budget. */
  lemma {:induction false} AlwaysRetryable(maxRetries: int, transport: nat -> TransportOutcome, attempt: nat)
    requires attempt <= maxRetries
    requires forall k :: transport(k).Responded? && transport(k).response.status in RetryableStatusCodes
    requires forall k :: RetryAfterInRange(transport(k).response.retryAfter)
    ensures FinalAttempt(maxRetries, transport, attempt) == maxRetries
    decreases maxRetries - attempt
  {
    if attempt < maxRetries {
      assert transport(attempt).Responded?;
      RetryableAreFailures(transport(attempt).response.status);
      AlwaysRetryable(maxRetries, transport, attempt + 1);
    }
  }

  /** Always 500 with two retries: three sends, ending in the generic API error for 500. */
  lemma AlwaysServerErrorExample<T>(response: Response, deserialize: string -> Option<T>,
                                    parse: string -> Option<Json.Json>)
    requires response.status == 500 && RetryAfterInRange(response.retryAfter)
    ensures var transport: nat -> TransportOutcome := _ => Responded(response);
            && FinalAttempt(2, transport, 0) + 1 == 3
            && Terminal(2, 2, transport(2), deserialize, parse).Failure?
            && Terminal(2, 2, transport(2), deserialize, parse).error.ApiStatusError?
            && Terminal(2, 2, transport(2), deserialize, parse).error.status == 500
  {
    var transport: nat -> TransportOutcome := _ => Responded(response);
    AlwaysRetryable(2, transport, 0);
  }

  /** Retryable failures followed by a success within the budget end in that success. */
  lemma {:induction false} RecoversAfterRetries(maxRetries: int, transport: nat -> TransportOutcome, n: nat, attempt: nat)
    requires attempt <= n <= maxRetries
    requires forall k :: attempt <= k < n ==> transport(k).Responded? && transport(k).response.status in RetryableStatusCodes
    requires forall k :: attempt <= k < n ==> RetryAfterInRange(transport(k).response.retryAfter)
    requires transport(n).Responded? && IsSuccessStatusCode(transport(n).response.status)
    ensures FinalAttempt(maxRetries, transport, attempt) == n
    decreases n - attempt
  {
    if attempt < n {
      RetryableAreFailures(transport(attempt).response.status);
      RecoversAfterRetries(maxRetries, transport, n, attempt + 1);
    }
  }

  /** A success, a non-retryable status, a `Retry-After` too long for `Task.Delay`, or a
      non-transport exception ends the call at once, whatever the budget; so do the
      `HookbaseException`s raised by decoding. */
  lemma NonRetryableIsFinal(maxRetries: int, transport: nat -> TransportOutcome, attempt: nat)
    requires || (transport(attempt).Responded? && transport(attempt).response.status !in RetryableStatusCodes)
             || (transport(attempt).Responded? && !RetryAfterInRange(transport(attempt).response.retryAfter))
             || (transport(attempt).Threw? && !ShouldRetryException(transport(attempt).exception))
    ensures FinalAttempt(maxRetries, transport, attempt) == attempt
  {
  }

  /** A retryable status with retries left whose `Retry-After` exceeds 4294967 seconds ends
      the call with `Request failed`, not with the API error for the status. */
  lemma OversizedRetryAfterEndsCall<T>(maxRetries: int, transport: nat -> TransportOutcome, attempt: nat,
                                       deserialize: string -> Option<T>, parse: string -> Option<Json.Json>)
    requires attempt < maxRetries
    requires transport(attempt).Responded? && transport(attempt).response.status in RetryableStatusCodes
    requires transport(attempt).response.retryAfter.Some? && transport(attempt).response.retryAfter.value > 4294967
    ensures FinalAttempt(maxRetries, transport, attempt) == attempt
    ensures Terminal(maxRetries, attempt, transport(attempt), deserialize, parse) == Failure(DelayOutOfRange)
  {
    RetryableAreFailures(transport(attempt).response.status);
  }

  /** A 503 asking to wait 5000000 seconds, with three retries: one send, then
      `Request failed` with the exception of `Task.Delay`. */
  lemma OversizedRetryAfterExample<T>(response: Response, deserialize: string -> Option<T>,
                                      parse: string -> Option<Json.Json>)
    requires response.status == 503 && response.retryAfter == Some(5000000)
    ensures var transport: nat -> TransportOutcome := _ => Responded(response);
            && FinalAttempt(3, transport, 0) + 1 == 1
            && Terminal(3, 0, transport(0), deserialize, parse) == Failure(DelayOutOfRange)
            && DelayOutOfRange.cause.ArgumentOutOfRangeException?
  {
    var transport: nat -> TransportOutcome := _ => Responded(response);
    OversizedRetryAfterEndsCall(3, transport, 0, deserialize, parse);
  }

  const UserAgent: string := "Hookbase.NET/1.0.0"

  /** A request as it goes out: method, URL, headers (the client's defaults, then the
      idempotency key when given) and the serialized body. */
  datatype HttpRequest = HttpRequest(httpMethod: string, url: string, headers: seq<(string, string)>, body: Option<string>)

  /** The client; its configuration is fixed at construction. */
  class ApiClient {
    const apiKey: string
    const baseUrl: string
    const timeout: int
    const maxRetries: int

    constructor(apiKey: string, baseUrl: string, timeout: int, maxRetries: int)
      ensures this.apiKey == apiKey && this.baseUrl == baseUrl
      ensures this.timeout == timeout && this.maxRetries == maxRetries
    {
      this.apiKey := apiKey;
      this.baseUrl := baseUrl;
      this.timeout := timeout;
      this.maxRetries := maxRetries;
    }

    /** The message `RequestAsync` sends on every attempt. */
    function RequestMessage(httpMethod: string, url: string, idempotencyKey: Option<string>,
                            body: Option<string>): (request: HttpRequest)
      ensures request.httpMethod == httpMethod && request.url == url && request.body == body
      ensures |request.headers| >= 2 && request.headers[..2] == [("Authorization", "Bearer " + apiKey), ("User-Agent", UserAgent)]
      ensures idempotencyKey.Some? <==> |request.headers| == 3
      ensures idempotencyKey.Some? ==> request.headers[2] == ("Idempotency-Key", idempotencyKey.value)
    {
      var defaults := [("Authorization", "Bearer " + apiKey), ("User-Agent", UserAgent)];
      var headers := if idempotencyKey.Some? then defaults + [("Idempotency-Key", idempotencyKey.value)] else defaults;
      HttpRequest(httpMethod, url, headers, body)
    }

    /** `CalculateDelay`, in seconds; `jitter` is the draw of `_random.NextDouble()`. */
    method CalculateDelay(attempt: nat, retryAfter: Option<nat>, jitter: Fraction) returns (seconds: real)
      ensures DelayFits(seconds, attempt, retryAfter)
    {
      if retryAfter.Some? {
        seconds := retryAfter.value as real;
      } else {
        seconds := WithJitter(BaseDelay(attempt), jitter);
      }
    }

    /** `RequestAsync`: `transport(k)` is the outcome of the `k`-th send and `jitter(k)`
        the random draw for the `k`-th backoff. Returns the result, the requests built (one
        per attempt) and the delays waited. */
    method RequestAsync<T>(httpMethod: string, path: string, body: Option<string>,
                           queryParams: Option<seq<(string, Option<string>)>>, idempotencyKey: Option<string>,
                           transport: nat -> TransportOutcome, jitter: nat -> Fraction,
                           deserialize: string -> Option<T>, parse: string -> Option<Json.Json>)
      returns (r: Result<T, ApiError>, sent: seq<HttpRequest>, delays: seq<real>)
      ensures |sent| == FinalAttempt(maxRetries, transport, 0) + 1
      ensures forall k :: 0 <= k < |sent| ==>
                sent[k] == RequestMessage(httpMethod, BuildUrl(path, queryParams), idempotencyKey, body)
      ensures |delays| == |sent| - 1
      ensures forall k :: 0 <= k < |delays| ==> DelayFits(delays[k], k, RetryAfterOf(transport(k)))
      ensures r == Terminal(maxRetries, |sent| - 1, transport(|sent| - 1), deserialize, parse)
    {
      var url := BuildUrl(path, queryParams);
      r, sent, delays := RetryLoop(httpMethod, url, body, idempotencyKey, transport, jitter, deserialize, parse);
    }

    /** The `while (true)` loop of `RequestAsync`, sending to the built `url`. */
    method RetryLoop<T>(httpMethod: string, url: string, body: Option<string>, idempotencyKey: Option<string>,
                        transport: nat -> TransportOutcome, jitter: nat -> Fraction,
                        deserialize: string -> Option<T>, parse: string -> Option<Json.Json>)
      returns (r: Result<T, ApiError>, sent: seq<HttpRequest>, delays: seq<real>)
      ensures |sent| == FinalAttempt(maxRetries, transport, 0) + 1
      ensures forall k :: 0 <= k < |sent| ==> sent[k] == RequestMessage(httpMethod, url, idempotencyKey, body)
      ensures |delays| == |sent| - 1
      ensures forall k :: 0 <= k < |delays| ==> DelayFits(delays[k], k, RetryAfterOf(transport(k)))
      ensures r == Terminal(maxRetries, |sent| - 1, transport(|sent| - 1), deserialize, parse)
    {
      ghost var expected := RequestMessage(httpMethod, url, idempotencyKey, body);
      var attempt: nat := 0;
      sent := [];
      delays := [];
      while true
        invariant |sent| == attempt && |delays| == attempt
        invariant forall k :: 0 <= k < attempt ==> sent[k] == expected
        invariant forall k :: 0 <= k < attempt ==> DelayFits(delays[k], k, RetryAfterOf(transport(k)))
        invariant forall j :: 0 <= j < attempt ==> WillRetry(maxRetries, j, transport(j))
        decreases maxRetries - attempt
      {
        var request := RequestMessage(httpMethod, url, idempotencyKey, body);
        sent := sent + [request];
        var outcome := transport(attempt);
        if outcome.Responded? {
          var response := outcome.response;
          if IsSuccessStatusCode(response.status) {
            assert !WillRetry(maxRetries, attempt, outcome);
            FinalAttemptIsFirstStop(maxRetries, transport, 0, attempt);
            r := DeserializeResponse(response.content, deserialize);
            assert r == Terminal(maxRetries, attempt, outcome, deserialize, parse);
            return;
          }
          if attempt < maxRetries && response.status in RetryableStatusCodes {
            var delay := CalculateDelay(attempt, response.retryAfter, jitter(attempt));
            DelayInRangeIff(delay, attempt, response.retryAfter);
            if !DelayInRange(delay) {
              // `Task.Delay` throws `ArgumentOutOfRangeException`, which the catch does not retry
              assert !WillRetry(maxRetries, attempt, outcome);
              FinalAttemptIsFirstStop(maxRetries, transport, 0, attempt);
              r := Failure(RequestFailed("Request failed: " + DelayRangeMessage, ArgumentOutOfRangeException(DelayRangeMessage)));
              return;
            }
            assert WillRetry(maxRetries, attempt, outcome);
            delays := delays + [delay];
            attempt := attempt + 1;
            continue;
          }
          assert !WillRetry(maxRetries, attempt, outcome);
          FinalAttemptIsFirstStop(maxRetries, transport, 0, attempt);
          r := Failure(ThrowApiException(response, parse));
          assert r == Terminal(maxRetries, attempt, outcome, deserialize, parse);
          return;
        } else {
          var ex := outcome.exception;
          if attempt < maxRetries && ShouldRetryException(ex) {
            var delay := CalculateDelay(attempt, None, jitter(attempt));
            assert WillRetry(maxRetries, attempt, outcome);
            delays := delays + [delay];
            attempt := attempt + 1;
            continue;
          }
          assert !WillRetry(maxRetries, attempt, outcome);
          FinalAttemptIsFirstStop(maxRetries, transport, 0, attempt);
          r := Failure(RequestFailed("Request failed: " + ex.message, ex));
          return;
        }
      }
    }
  }
}
