/** `WebhookVerifier`: authenticates an inbound webhook from its `webhook-id`,
    `webhook-timestamp` and `webhook-signature` headers and its raw payload, with
    an HMAC-SHA256 signature over `id.timestamp.payload` under a shared secret. */
module Webhooks {
  import opened Wrappers
  import Text
  import Utf8
  import Json
  import Dict

  type Bytes = seq<Utf8.byte>

  /** The primitives the verifier calls and that the model leaves opaque. */
  datatype Crypto = Crypto(
    fromBase64: string -> Option<Bytes>,   // `Convert.FromBase64String`; `None` where it throws
    toBase64: Bytes -> string,             // `Convert.ToBase64String`
    hmacSha256: (Bytes, Bytes) -> Bytes)   // `new HMACSHA256(key).ComputeHash(data)`

  // ---------------------------------------------------------------------------
  // The secret

  /** The `ArgumentException`s of the constructor. */
  datatype SecretError = SecretEmpty | SecretNotBase64

  const SecretPrefix: string := "whsec_"

  /** `string.IsNullOrWhiteSpace`. */
  predicate IsNullOrWhiteSpace(s: Option<string>) {
    s.None? || forall i :: 0 <= i < |s.value| ==> Text.IsWhiteSpace(s.value[i])
  }

  /** Removes one leading `whsec_`, and only at the start. */
  function StripPrefix(secret: string): (r: string)
    ensures SecretPrefix <= secret ==> secret == SecretPrefix + r
    ensures !(SecretPrefix <= secret) ==> r == secret
  {
    if SecretPrefix <= secret then secret[|SecretPrefix|..] else secret
  }

  /** The key bytes the constructor derives from `secret`, or why it refuses it. */
  function DecodeSecret(secret: Option<string>, crypto: Crypto): (r: Result<Bytes, SecretError>)
    ensures r == Failure(SecretEmpty) <==> IsNullOrWhiteSpace(secret)
    ensures r == Failure(SecretNotBase64) <==>
              !IsNullOrWhiteSpace(secret) && crypto.fromBase64(StripPrefix(secret.value)).None?
    ensures r.Success? ==> crypto.fromBase64(StripPrefix(secret.value)) == Some(r.value)
  {
    if IsNullOrWhiteSpace(secret) then Failure(SecretEmpty)
    else
      match crypto.fromBase64(StripPrefix(secret.value))
      case Some(key) => Success(key)
      case None => Failure(SecretNotBase64)
  }

  /** The prefix is removed once: a doubled prefix leaves the second one in place,
      and a prefix that is not at the start stays. */
  lemma PrefixStrippedOnce(rest: string)
    ensures StripPrefix(SecretPrefix + rest) == rest
    ensures StripPrefix(SecretPrefix + SecretPrefix + rest) == SecretPrefix + rest
    ensures StripPrefix("x" + SecretPrefix) == "x" + SecretPrefix
  {
    assert (SecretPrefix + SecretPrefix + rest)[|SecretPrefix|..] == SecretPrefix + rest;
    assert ("x" + SecretPrefix)[0] != SecretPrefix[0];
  }

  // ---------------------------------------------------------------------------
  // Headers

  /** The request headers, in the dictionary's enumeration order. */
  type Headers = seq<(string, string)>

  /** The position of the first header whose name satisfies `matches`. */
  function FirstKey(headers: Headers, matches: string -> bool): (r: Option<nat>)
    ensures r.Some? ==> r.value < |headers| && matches(headers[r.value].0)
    ensures r.Some? ==> forall j :: 0 <= j < r.value ==> !matches(headers[j].0)
    ensures r.None? ==> forall j :: 0 <= j < |headers| ==> !matches(headers[j].0)
    decreases |headers|
  {
    if |headers| == 0 then None
    else if matches(headers[0].0) then Some(0)
    else
      match FirstKey(headers[1..], matches)
      case Some(i) => Some(i + 1)
      case None => None
  }

  /** `TryGetHeader`: the exact name wins; otherwise the first name equal to `key`
      under ordinal ignore-case comparison; otherwise not found, with an empty value. */
  function TryGetHeader(headers: Headers, key: string): (r: (bool, string))
    ensures !r.0 ==> r.1 == ""
    ensures r.0 ==> exists i :: 0 <= i < |headers| && Text.EqualsIgnoreCase(headers[i].0, key) && headers[i].1 == r.1
  {
    match FirstKey(headers, k => k == key)
    case Some(i) => (true, headers[i].1)
    case None =>
      match FirstKey(headers, k => Text.EqualsIgnoreCase(k, key))
      case Some(i) => (true, headers[i].1)
      case None => (false, "")
  }

  /** A header is found exactly when some name equals the key up to letter case. */
  lemma HeaderFound(headers: Headers, key: string)
    ensures TryGetHeader(headers, key).0 <==>
              exists i :: 0 <= i < |headers| && Text.EqualsIgnoreCase(headers[i].0, key)
  {
    if i :| 0 <= i < |headers| && Text.EqualsIgnoreCase(headers[i].0, key) {
      var _ := FirstKey(headers, k => Text.EqualsIgnoreCase(k, key));
    }
  }

  /** The first header named exactly `key` wins over every other spelling. */
  lemma ExactHeaderWins(headers: Headers, key: string, i: nat)
    requires i < |headers| && headers[i].0 == key
    requires forall j :: 0 <= j < i ==> headers[j].0 != key
    ensures TryGetHeader(headers, key) == (true, headers[i].1)
  {
    var f := FirstKey(headers, k => k == key);
    assert f == Some(i);
  }

  /** With no exact name, the first name equal to `key` up to letter case wins. */
  lemma CaseInsensitiveHeaderWins(headers: Headers, key: string, i: nat)
    requires forall j :: 0 <= j < |headers| ==> headers[j].0 != key
    requires i < |headers| && Text.EqualsIgnoreCase(headers[i].0, key)
    requires forall j :: 0 <= j < i ==> !Text.EqualsIgnoreCase(headers[j].0, key)
    ensures TryGetHeader(headers, key) == (true, headers[i].1)
  {
    assert FirstKey(headers, k => k == key) == None;
    assert FirstKey(headers, k => Text.EqualsIgnoreCase(k, key)) == Some(i);
  }

  /** The names differ only in letter case, so the lookup finds the header. */
  lemma HeaderNameCaseIgnored(value: string)
    ensures TryGetHeader([("WEBHOOK-ID", value)], "webhook-id") == (true, value)
    ensures TryGetHeader([("Webhook-Id", value)], "webhook-id") == (true, value)
  {
    assert Text.EqualsIgnoreCase("WEBHOOK-ID", "webhook-id");
    assert Text.EqualsIgnoreCase("Webhook-Id", "webhook-id");
    CaseInsensitiveHeaderWins([("WEBHOOK-ID", value)], "webhook-id", 0);
    CaseInsensitiveHeaderWins([("Webhook-Id", value)], "webhook-id", 0);
  }

  // ---------------------------------------------------------------------------
  // Timestamps

  /** Time is counted in `TimeSpan` ticks of 100 ns. */
  const TicksPerSecond: int := 10_000_000

  /** The tolerance when the caller passes none: five minutes. */
  const DefaultTolerance: int := 5 * 60 * TicksPerSecond

  /** The Unix seconds that `DateTimeOffset.FromUnixTimeSeconds` accepts (years 1 to 9999). */
  const MinUnixSeconds: int := -62_135_596_800
  const MaxUnixSeconds: int := 253_402_300_799

  /** `now - webhookTime > tolerance`, with `now` in ticks since the Unix epoch. */
  predicate IsStale(timestamp: int, now: int, tolerance: int) {
    now - timestamp * TicksPerSecond > tolerance
  }

  /** Only staleness is rejected: an age equal to the tolerance passes, and so does a
      timestamp in the future whenever the tolerance is not negative. */
  lemma StalenessWindow(timestamp: int, now: int, tolerance: int)
    ensures now - timestamp * TicksPerSecond == tolerance ==> !IsStale(timestamp, now, tolerance)
    ensures tolerance >= 0 && timestamp * TicksPerSecond >= now ==> !IsStale(timestamp, now, tolerance)
    ensures IsStale(timestamp, now, tolerance) <==> now - timestamp * TicksPerSecond > tolerance
  {
  }

  // ---------------------------------------------------------------------------
  // Signatures

  /** The segments `Split(',', RemoveEmptyEntries)` yields. */
  function SignatureParts(header: string): (parts: seq<string>)
    ensures forall i :: 0 <= i < |parts| ==> parts[i] != "" && ',' !in parts[i]
  {
    var parts := Text.NonEmpty(Text.Split(header, ','));
    assert forall i :: 0 <= i < |parts| ==> ',' !in parts[i] by {
      forall i | 0 <= i < |parts| ensures ',' !in parts[i] {
        var all := Text.Split(header, ',');
        var k :| 0 <= k < |all| && all[k] == parts[i];
      }
    }
    parts
  }

  /** What the loop body of `ParseSignatures` adds for one segment: the rest after a
      `v1,` prefix, the trimmed segment when it holds no comma, otherwise nothing. */
  function CandidateOf(part: string): seq<string> {
    var trimmed := Text.Trim(part);
    if "v1," <= trimmed then [trimmed[3..]]
    else if ',' !in trimmed then [trimmed]
    else []
  }

  /** The list `ParseSignatures` builds from its segments. */
  function Candidates(parts: seq<string>): seq<string>
    decreases |parts|
  {
    if |parts| == 0 then [] else Candidates(parts[..|parts| - 1]) + CandidateOf(parts[|parts| - 1])
  }

  /** One more segment adds its candidates at the end. */
  lemma CandidatesStep(parts: seq<string>, i: nat)
    requires i < |parts|
    ensures Candidates(parts[..i + 1]) == Candidates(parts[..i]) + CandidateOf(parts[i])
  {
    assert parts[..i + 1][..i] == parts[..i];
  }

  /** Every segment trimmed, in order. */
  function TrimAll(parts: seq<string>): (r: seq<string>)
    ensures |r| == |parts|
    ensures forall i :: 0 <= i < |r| ==> r[i] == Text.Trim(parts[i])
    decreases |parts|
  {
    if |parts| == 0 then [] else TrimAll(parts[..|parts| - 1]) + [Text.Trim(parts[|parts| - 1])]
  }

  /** The trimmed segments of the header, in order; none holds a comma. */
  function TrimmedSegments(header: string): (r: seq<string>)
    ensures r == TrimAll(SignatureParts(header))
    ensures forall i :: 0 <= i < |r| ==> ',' !in r[i]
  {
    var parts := SignatureParts(header);
    var r := TrimAll(parts);
    assert forall i :: 0 <= i < |r| ==> ',' !in r[i] by {
      forall i | 0 <= i < |r| ensures ',' !in r[i] {
        if ',' in r[i] { Text.TrimSubset(parts[i], ','); }
      }
    }
    r
  }

  /** The `v1,` tag ends in a comma. */
  lemma TaggedHasComma(t: string)
    ensures "v1," <= t ==> ',' in t
  {
    if "v1," <= t { assert t[2] == ','; }
  }

  /** A segment without a comma contributes its trimmed text: the `v1,` branch would
      need a comma in it. */
  lemma CommaFreeCandidate(part: string)
    requires ',' !in part
    ensures CandidateOf(part) == [Text.Trim(part)]
  {
    var trimmed := Text.Trim(part);
    if ',' in trimmed { Text.TrimSubset(part, ','); }
    TaggedHasComma(trimmed);
  }

  /** Segments never hold a comma, so every segment contributes exactly its trimmed
      text. */
  lemma {:induction false} CandidatesAreTrimmedParts(parts: seq<string>)
    requires forall i :: 0 <= i < |parts| ==> ',' !in parts[i]
    ensures Candidates(parts) == TrimAll(parts)
    decreases |parts|
  {
    if |parts| > 0 {
      CandidatesAreTrimmedParts(parts[..|parts| - 1]);
      CommaFreeCandidate(parts[|parts| - 1]);
    }
  }

  /** `ParseSignatures` returns exactly the trimmed segments. */
  lemma CandidatesOfHeader(header: string)
    ensures Candidates(SignatureParts(header)) == TrimmedSegments(header)
  {
    CandidatesAreTrimmedParts(SignatureParts(header));
  }

  /** `ParseSignatures`. */
  method ParseSignatures(signatureHeader: string) returns (signatures: seq<string>)
    ensures signatures == Candidates(SignatureParts(signatureHeader))
    ensures signatures == TrimmedSegments(signatureHeader)
    ensures forall i :: 0 <= i < |signatures| ==> ',' !in signatures[i]
  {
    signatures := [];
    var parts := SignatureParts(signatureHeader);
    var i := 0;
    while i < |parts|
      invariant 0 <= i <= |parts|
      invariant signatures == Candidates(parts[..i])
    {
      CandidatesStep(parts, i);
      var trimmed := Text.Trim(parts[i]);
      if "v1," <= trimmed {
        signatures := signatures + [trimmed[3..]];
      } else if ',' !in trimmed {
        signatures := signatures + [trimmed];
      }
      i := i + 1;
    }
    assert parts[..i] == parts;
    CandidatesOfHeader(signatureHeader);
  }

  /** A tagged header `v1,<sig>` splits at its comma, into the tag and the signature. */
  lemma TaggedHeader(sig: string)
    requires sig != "" && ',' !in sig
    requires !Text.IsWhiteSpace(sig[0]) && !Text.IsWhiteSpace(sig[|sig| - 1])
    ensures TrimmedSegments("v1," + sig) == ["v1", sig]
  {
    TaggedHeaderParts(sig);
    Text.TrimUntouched("v1");
    Text.TrimUntouched(sig);
    assert TrimAll(["v1", sig][..1]) == ["v1"];
  }

  lemma TaggedHeaderParts(sig: string)
    requires sig != "" && ',' !in sig
    ensures SignatureParts("v1," + sig) == ["v1", sig]
  {
    assert "v1," + sig == "v1" + [','] + sig;
    Text.SplitFirst("v1", ',', sig);
    Text.SplitNoSep(sig, ',');
    assert Text.NonEmpty(["v1", sig][1..]) == [sig] by {
      assert ["v1", sig][1..] == [sig];
      assert Text.NonEmpty([sig][1..]) == [];
    }
  }

  /** A header made only of commas has no segments at all. */
  lemma OnlyCommas(n: nat)
    ensures TrimmedSegments(seq(n, _ => ',')) == []
  {
    OnlyCommasSplit(n);
  }

  lemma {:induction false} OnlyCommasSplit(n: nat)
    ensures Text.NonEmpty(Text.Split(seq(n, _ => ','), ',')) == []
  {
    if n > 0 {
      var s: string := seq(n, _ => ',');
      assert s[1..] == seq(n - 1, _ => ',');
      OnlyCommasSplit(n - 1);
      assert Text.Split(s, ',') == [""] + Text.Split(s[1..], ',');
      assert Text.Split(s, ',')[1..] == Text.Split(s[1..], ',');
    }
  }

  /** A blank segment is kept as an empty candidate: the emptiness test happens before
      trimming. */
  lemma BlankSegmentKept()
    ensures TrimmedSegments(" ") == [""]
  {
    Text.SplitNoSep(" ", ',');
    assert Text.NonEmpty([" "]) == [" "] by { assert [" "][1..] == []; }
    assert Text.TrimStartBy(" ", Text.IsWhiteSpace) == "" by { assert " "[1..] == ""; }
  }

  /** The content the signature covers: the id, the parsed timestamp in decimal and the
      payload, separated by dots. */
  function SignedContent(webhookId: string, timestamp: int, payload: string): string {
    webhookId + "." + Text.DecimalString(timestamp) + "." + payload
  }

  /** `ComputeSignature`: base64 of the HMAC-SHA256 of the content's UTF-8 bytes. */
  function ComputeSignature(key: Bytes, crypto: Crypto, signedContent: string): string {
    crypto.toBase64(crypto.hmacSha256(key, Utf8.Encode(signedContent)))
  }

  /** `SecureCompare`: equal UTF-16 lengths and equal UTF-8 bytes, which holds exactly
      when the two strings are equal. */
  function SecureCompare(a: string, b: string): (r: bool)
    ensures r <==> a == b
  {
    if Utf8.Utf16Length(a) != Utf8.Utf16Length(b) then false
    else
      var equal := Utf8.Encode(a) == Utf8.Encode(b);
      assert equal ==> a == b by {
        if equal { Utf8.EncodeInjective(a, b); }
      }
      equal
  }

  /** Some candidate matches the computed signature. */
  predicate AnyMatch(computed: string, candidates: seq<string>) {
    exists i :: 0 <= i < |candidates| && SecureCompare(computed, candidates[i])
  }

  /** The order of the candidates does not change whether one matches. */
  lemma MatchIgnoresOrder(computed: string, xs: seq<string>, ys: seq<string>)
    requires multiset(xs) == multiset(ys)
    ensures AnyMatch(computed, xs) <==> AnyMatch(computed, ys)
  {
    if AnyMatch(computed, xs) {
      var i :| 0 <= i < |xs| && SecureCompare(computed, xs[i]);
      assert xs[i] in multiset(ys);
    }
    if AnyMatch(computed, ys) {
      var i :| 0 <= i < |ys| && SecureCompare(computed, ys[i]);
      assert ys[i] in multiset(xs);
    }
  }

  /** The comparison loop of `Verify`: each candidate in turn with `SecureCompare`,
      stopping at the first match. */
  method MatchesAny(computedSignature: string, expectedSignatures: seq<string>) returns (isValid: bool)
    ensures isValid <==> computedSignature in expectedSignatures
    ensures isValid <==> AnyMatch(computedSignature, expectedSignatures)
  {
    isValid := false;
    var i := 0;
    while i < |expectedSignatures|
      invariant 0 <= i <= |expectedSignatures|
      invariant isValid ==> computedSignature in expectedSignatures
      invariant !isValid ==> computedSignature !in expectedSignatures[..i]
    {
      if SecureCompare(computedSignature, expectedSignatures[i]) {
        isValid := true;
        break;
      }
      assert expectedSignatures[..i + 1] == expectedSignatures[..i] + [expectedSignatures[i]];
      i := i + 1;
    }
    assert !isValid ==> expectedSignatures[..i] == expectedSignatures;
  }

  // ---------------------------------------------------------------------------
  // Verification

  /** The `WebhookVerificationException`s, in the order they are checked. */
  datatype VerificationError =
    | MissingHeader(name: string)
    | InvalidTimestamp
    | TimestampTooOld(timestamp: int, now: int, tolerance: int)
    | NoSignatures
    | SignatureMismatch
    | PayloadDecodeError

  /** How `Verify` fails: a verification error, or the `ArgumentOutOfRangeException`
      of `DateTimeOffset.FromUnixTimeSeconds`, which is not one. */
  datatype VerifyFailure =
    | Rejected(error: VerificationError)
    | TimestampOutOfRange(timestamp: int)

  /** The three webhook headers, once all were found. */
  datatype WebhookHeaders = WebhookHeaders(id: string, timestamp: string, signature: string)

  /** The header stage of `Verify`: each header in turn, the first missing one reported. */
  function ReadHeaders(headers: Headers): (r: Result<WebhookHeaders, VerifyFailure>)
    ensures r.Success? <==> TryGetHeader(headers, "webhook-id").0 && TryGetHeader(headers, "webhook-timestamp").0
                            && TryGetHeader(headers, "webhook-signature").0
    ensures r.Success? ==> r.value == WebhookHeaders(TryGetHeader(headers, "webhook-id").1,
                                                     TryGetHeader(headers, "webhook-timestamp").1,
                                                     TryGetHeader(headers, "webhook-signature").1)
    ensures r.Failure? ==> r.error.Rejected? && r.error.error.MissingHeader?
    ensures !TryGetHeader(headers, "webhook-id").0 ==> r == Failure(Rejected(MissingHeader("webhook-id")))
    ensures TryGetHeader(headers, "webhook-id").0 && !TryGetHeader(headers, "webhook-timestamp").0 ==>
              r == Failure(Rejected(MissingHeader("webhook-timestamp")))
    ensures TryGetHeader(headers, "webhook-id").0 && TryGetHeader(headers, "webhook-timestamp").0
            && !TryGetHeader(headers, "webhook-signature").0 ==>
              r == Failure(Rejected(MissingHeader("webhook-signature")))
  {
    var (hasId, webhookId) := TryGetHeader(headers, "webhook-id");
    var (hasTimestamp, timestampText) := TryGetHeader(headers, "webhook-timestamp");
    var (hasSignature, signatureHeader) := TryGetHeader(headers, "webhook-signature");
    if !hasId then Failure(Rejected(MissingHeader("webhook-id")))
    else if !hasTimestamp then Failure(Rejected(MissingHeader("webhook-timestamp")))
    else if !hasSignature then Failure(Rejected(MissingHeader("webhook-signature")))
    else Success(WebhookHeaders(webhookId, timestampText, signatureHeader))
  }

  /** The timestamp stage of `Verify`: a 64-bit integer, representable as a
      `DateTimeOffset`, and not older than the tolerance. */
  function CheckTimestamp(text: string, now: int, tolerance: int): (r: Result<int, VerifyFailure>)
    ensures r.Success? <==> var t := Text.ParseInteger(text, Text.Int64Min, Text.Int64Max);
                            t.Some? && MinUnixSeconds <= t.value <= MaxUnixSeconds && !IsStale(t.value, now, tolerance)
    ensures r.Success? ==> Text.ParseInteger(text, Text.Int64Min, Text.Int64Max) == Some(r.value)
    ensures r == Failure(Rejected(InvalidTimestamp)) <==> Text.ParseInteger(text, Text.Int64Min, Text.Int64Max).None?
  {
    match Text.ParseInteger(text, Text.Int64Min, Text.Int64Max)
    case None => Failure(Rejected(InvalidTimestamp))
    case Some(timestamp) =>
      if !(MinUnixSeconds <= timestamp <= MaxUnixSeconds) then Failure(TimestampOutOfRange(timestamp))
      else if IsStale(timestamp, now, tolerance) then Failure(Rejected(TimestampTooOld(timestamp, now, tolerance)))
      else Success(timestamp)
  }

  /** The signature stage of `Verify`: no candidates, or none equal to the computed
      signature, is an error; `None` means the signature is accepted. */
  function SignatureError(key: Bytes, crypto: Crypto, webhookId: string, timestamp: int, payload: string,
                          signatureHeader: string): (r: Option<VerificationError>)
    ensures r.None? <==> ComputeSignature(key, crypto, SignedContent(webhookId, timestamp, payload))
                         in TrimmedSegments(signatureHeader)
    ensures r == Some(NoSignatures) <==> TrimmedSegments(signatureHeader) == []
    ensures r.Some? ==> r.value.NoSignatures? || r.value.SignatureMismatch?
  {
    var expected := Candidates(SignatureParts(signatureHeader));
    CandidatesOfHeader(signatureHeader);
    if |expected| == 0 then Some(NoSignatures)
    else
      var computed := ComputeSignature(key, crypto, SignedContent(webhookId, timestamp, payload));
      if !AnyMatch(computed, expected) then Some(SignatureMismatch) else None
  }

  /** The stages of `Verify` after the timestamp: the signature, then the payload.
      They can only fail with a signature error or a payload that does not decode. */
  function SignedPayload<T>(key: Bytes, crypto: Crypto, payload: string, h: WebhookHeaders, timestamp: int,
                            deserialize: string -> Option<T>): (r: Result<T, VerifyFailure>)
    ensures r.Failure? ==> r.error.Rejected?
                           && (r.error.error.NoSignatures? || r.error.error.SignatureMismatch?
                               || r.error.error.PayloadDecodeError?)
    ensures r.Success? <==> SignatureError(key, crypto, h.id, timestamp, payload, h.signature).None?
                            && deserialize(payload).Some?
    ensures r.Success? ==> r.value == deserialize(payload).value
    ensures SignatureError(key, crypto, h.id, timestamp, payload, h.signature).Some? ==>
              r == Failure(Rejected(SignatureError(key, crypto, h.id, timestamp, payload, h.signature).value))
    ensures SignatureError(key, crypto, h.id, timestamp, payload, h.signature).None? && deserialize(payload).None? ==>
              r == Failure(Rejected(PayloadDecodeError))
  {
    match SignatureError(key, crypto, h.id, timestamp, payload, h.signature)
    case Some(error) => Failure(Rejected(error))
    case None =>
      match deserialize(payload)
      case None => Failure(Rejected(PayloadDecodeError))
      case Some(value) => Success(value)
  }

  /** The outcome of `Verify` for the given inputs; `now` is the clock in ticks since
      the Unix epoch and `deserialize` stands for `JsonSerializer.Deserialize<T>`,
      with `None` where it throws or yields null. */
  function VerifyResult<T>(key: Bytes, crypto: Crypto, payload: string, headers: Headers,
                           tolerance: Option<int>, now: int, deserialize: string -> Option<T>)
    : Result<T, VerifyFailure>
  {
    match ReadHeaders(headers)
    case Failure(failure) => Failure(failure)
    case Success(h) =>
      match CheckTimestamp(h.timestamp, now, tolerance.GetOr(DefaultTolerance))
      case Failure(failure) => Failure(failure)
      case Success(timestamp) => SignedPayload(key, crypto, payload, h, timestamp, deserialize)
  }

  /** The payload type of `VerifySignature`: `Dictionary<string, object>`, which
      deserializes from a JSON object and from nothing else. */
  function DictionaryPayload(parse: string -> Option<Json.Json>): string -> Option<map<string, Json.Json>> {
    s => match parse(s)
         case Some(JObject(members)) => Some(Dict.FromEntries(Json.Entries(members)))
         case _ => None
  }

  /** `VerifySignature` as written: a verification error becomes `false`, but the
      `ArgumentOutOfRangeException` of an out-of-range timestamp escapes. */
  function SignatureCheckAsWritten(key: Bytes, crypto: Crypto, payload: string, headers: Headers,
                                   tolerance: Option<int>, now: int, parse: string -> Option<Json.Json>)
    : (r: Result<bool, VerifyFailure>)
    ensures r == Success(true) <==>
              VerifyResult(key, crypto, payload, headers, tolerance, now, DictionaryPayload(parse)).Success?
    ensures r.Failure? <==>
              VerifyResult(key, crypto, payload, headers, tolerance, now, DictionaryPayload(parse)).Failure?
              && VerifyResult(key, crypto, payload, headers, tolerance, now, DictionaryPayload(parse)).error.TimestampOutOfRange?
  {
    match VerifyResult(key, crypto, payload, headers, tolerance, now, DictionaryPayload(parse))
    case Success(_) => Success(true)
    case Failure(Rejected(_)) => Success(false)
    case Failure(failure) => Failure(failure)
  }

  /** Whether the headers, the timestamp and the signature all pass: everything
      `Verify` checks before it decodes the payload. */
  predicate SignatureAccepted(key: Bytes, crypto: Crypto, payload: string, headers: Headers,
                              tolerance: Option<int>, now: int) {
    && ReadHeaders(headers).Success?
    && var h := ReadHeaders(headers).value;
       var t := CheckTimestamp(h.timestamp, now, tolerance.GetOr(DefaultTolerance));
       t.Success? && SignatureError(key, crypto, h.id, t.value, payload, h.signature).None?
  }

  /** Decoding the payload is the last stage: `Verify` succeeds exactly when the
      signature is accepted and the payload decodes. */
  lemma DecodeIsLastStage<T>(key: Bytes, crypto: Crypto, payload: string, headers: Headers,
                             tolerance: Option<int>, now: int, deserialize: string -> Option<T>)
    ensures VerifyResult(key, crypto, payload, headers, tolerance, now, deserialize).Success?
        <==> SignatureAccepted(key, crypto, payload, headers, tolerance, now) && deserialize(payload).Some?
  {
  }

  /** Once the signature is accepted, the result is the decoded payload or the
      decoding error. */
  lemma AcceptedThenDecode<T>(key: Bytes, crypto: Crypto, payload: string, headers: Headers,
                              tolerance: Option<int>, now: int, deserialize: string -> Option<T>)
    requires SignatureAccepted(key, crypto, payload, headers, tolerance, now)
    ensures deserialize(payload).Some? ==>
              VerifyResult(key, crypto, payload, headers, tolerance, now, deserialize) == Success(deserialize(payload).value)
    ensures deserialize(payload).None? ==>
              VerifyResult(key, crypto, payload, headers, tolerance, now, deserialize) == Failure(Rejected(PayloadDecodeError))
  {
  }

  /** `VerifySignature` as written answers `true` exactly for an accepted signature
      whose payload is a JSON object. */
  lemma AsWrittenNeedsObject(key: Bytes, crypto: Crypto, payload: string, headers: Headers,
                             tolerance: Option<int>, now: int, parse: string -> Option<Json.Json>)
    ensures SignatureCheckAsWritten(key, crypto, payload, headers, tolerance, now, parse) == Success(true)
        <==> SignatureAccepted(key, crypto, payload, headers, tolerance, now) && DictionaryPayload(parse)(payload).Some?
  {
    DecodeIsLastStage(key, crypto, payload, headers, tolerance, now, DictionaryPayload(parse));
  }

  // ---------------------------------------------------------------------------
  // Properties of the pipeline

  /** The checks run in a fixed order and each error is reported only when every
      earlier check passed: the headers, then the timestamp, then the signature, then
      the payload. */
  lemma ErrorOrder<T>(key: Bytes, crypto: Crypto, payload: string, headers: Headers,
                      tolerance: Option<int>, now: int, deserialize: string -> Option<T>)
    ensures var r := VerifyResult(key, crypto, payload, headers, tolerance, now, deserialize);
      && (ReadHeaders(headers).Failure? ==> r == Failure(ReadHeaders(headers).error))
      && (ReadHeaders(headers).Success? ==>
            var h := ReadHeaders(headers).value;
            var t := CheckTimestamp(h.timestamp, now, tolerance.GetOr(DefaultTolerance));
            && (t.Failure? ==> r == Failure(t.error))
            && (t.Success? ==>
                  var e := SignatureError(key, crypto, h.id, t.value, payload, h.signature);
                  && (e.Some? ==> r == Failure(Rejected(e.value)))
                  && (e.None? && deserialize(payload).Some? ==> r == Success(deserialize(payload).value))
                  && (e.None? && deserialize(payload).None? ==> r == Failure(Rejected(PayloadDecodeError)))))
  {
  }

  /** A missing `webhook-id` is reported before anything else is looked at. */
  lemma MissingIdFirst<T>(key: Bytes, crypto: Crypto, payload: string, headers: Headers,
                          tolerance: Option<int>, now: int, deserialize: string -> Option<T>)
    requires forall i :: 0 <= i < |headers| ==> !Text.EqualsIgnoreCase(headers[i].0, "webhook-id")
    ensures VerifyResult(key, crypto, payload, headers, tolerance, now, deserialize)
         == Failure(Rejected(MissingHeader("webhook-id")))
  {
    HeaderFound(headers, "webhook-id");
  }

  /** The header and timestamp checks come before any signature work: when one of them
      fails, the key, the primitives and the payload make no difference. */
  lemma EarlyErrorsIgnoreSignature<T>(key: Bytes, crypto: Crypto, payload: string,
                                      key': Bytes, crypto': Crypto, payload': string,
                                      headers: Headers, tolerance: Option<int>, now: int,
                                      deserialize: string -> Option<T>)
    requires var r := VerifyResult(key, crypto, payload, headers, tolerance, now, deserialize);
             r.Failure? && (r.error.TimestampOutOfRange? || r.error.error.MissingHeader?
                            || r.error.error.InvalidTimestamp? || r.error.error.TimestampTooOld?)
    ensures VerifyResult(key', crypto', payload', headers, tolerance, now, deserialize)
         == VerifyResult(key, crypto, payload, headers, tolerance, now, deserialize)
  {
    EarlyErrorIsEarly(key, crypto, payload, headers, tolerance, now, deserialize);
    EarlyFailureFixesResult(key, crypto, payload, key', crypto', payload', headers, tolerance, now, deserialize);
  }

  /** Whether `Verify` fails at the headers or at the timestamp. */
  predicate EarlyFailure(headers: Headers, tolerance: Option<int>, now: int) {
    || ReadHeaders(headers).Failure?
    || CheckTimestamp(ReadHeaders(headers).value.timestamp, now, tolerance.GetOr(DefaultTolerance)).Failure?
  }

  /** A header or timestamp error can only come from those stages. */
  lemma EarlyErrorIsEarly<T>(key: Bytes, crypto: Crypto, payload: string, headers: Headers,
                             tolerance: Option<int>, now: int, deserialize: string -> Option<T>)
    requires var r := VerifyResult(key, crypto, payload, headers, tolerance, now, deserialize);
             r.Failure? && (r.error.TimestampOutOfRange? || r.error.error.MissingHeader?
                            || r.error.error.InvalidTimestamp? || r.error.error.TimestampTooOld?)
    ensures EarlyFailure(headers, tolerance, now)
  {
  }

  /** A failure at the headers or the timestamp does not depend on the key, the
      primitives or the payload. */
  lemma EarlyFailureFixesResult<T>(key: Bytes, crypto: Crypto, payload: string,
                                   key': Bytes, crypto': Crypto, payload': string,
                                   headers: Headers, tolerance: Option<int>, now: int,
                                   deserialize: string -> Option<T>)
    requires EarlyFailure(headers, tolerance, now)
    ensures VerifyResult(key', crypto', payload', headers, tolerance, now, deserialize)
         == VerifyResult(key, crypto, payload, headers, tolerance, now, deserialize)
  {
  }

  /** With all headers present and a valid timestamp, a webhook older than the
      tolerance is rejected as too old, whatever its signature. */
  lemma StaleRejected<T>(key: Bytes, crypto: Crypto, payload: string, headers: Headers,
                         tolerance: Option<int>, now: int, deserialize: string -> Option<T>, timestamp: int)
    requires ReadHeaders(headers).Success?
    requires Text.ParseInteger(ReadHeaders(headers).value.timestamp, Text.Int64Min, Text.Int64Max) == Some(timestamp)
    requires MinUnixSeconds <= timestamp <= MaxUnixSeconds
    requires IsStale(timestamp, now, tolerance.GetOr(DefaultTolerance))
    ensures VerifyResult(key, crypto, payload, headers, tolerance, now, deserialize)
         == Failure(Rejected(TimestampTooOld(timestamp, now, tolerance.GetOr(DefaultTolerance))))
  {
  }

  /** The three headers a sender sets, under their exact names, are all found. */
  lemma ThreeHeaders(webhookId: string, timestampText: string, signatureHeader: string)
    ensures var headers := [("webhook-id", webhookId), ("webhook-timestamp", timestampText),
                            ("webhook-signature", signatureHeader)];
            ReadHeaders(headers) == Success(WebhookHeaders(webhookId, timestampText, signatureHeader))
  {
    var headers := [("webhook-id", webhookId), ("webhook-timestamp", timestampText),
                    ("webhook-signature", signatureHeader)];
    assert "webhook-timestamp"[8] != "webhook-signature"[8];
    ExactHeaderWins(headers, "webhook-id", 0);
    ExactHeaderWins(headers, "webhook-timestamp", 1);
    ExactHeaderWins(headers, "webhook-signature", 2);
  }

  /** The headers a sender sets for `payload`, signed with the tag `v1,`. */
  function SignedHeaders(key: Bytes, crypto: Crypto, webhookId: string, timestamp: int, payload: string): Headers {
    var sig := ComputeSignature(key, crypto, SignedContent(webhookId, timestamp, payload));
    [("webhook-id", webhookId), ("webhook-timestamp", Text.DecimalString(timestamp)),
     ("webhook-signature", "v1," + sig)]
  }

  /** A webhook signed with the verifier's key over `id.timestamp.payload`, sent fresh
      with the signature tagged `v1,`, passes every check before the payload. */
  lemma SignedWebhookAccepted(key: Bytes, crypto: Crypto, webhookId: string, timestamp: int,
                              payload: string, now: int, tolerance: Option<int>)
    requires MinUnixSeconds <= timestamp <= MaxUnixSeconds
    requires !IsStale(timestamp, now, tolerance.GetOr(DefaultTolerance))
    requires var sig := ComputeSignature(key, crypto, SignedContent(webhookId, timestamp, payload));
             sig != "" && ',' !in sig && !Text.IsWhiteSpace(sig[0]) && !Text.IsWhiteSpace(sig[|sig| - 1])
    ensures SignatureAccepted(key, crypto, payload, SignedHeaders(key, crypto, webhookId, timestamp, payload),
                              tolerance, now)
  {
    var sig := ComputeSignature(key, crypto, SignedContent(webhookId, timestamp, payload));
    var headers := SignedHeaders(key, crypto, webhookId, timestamp, payload);
    ThreeHeaders(webhookId, Text.DecimalString(timestamp), "v1," + sig);
    Text.ParseDecimalString(timestamp, Text.Int64Min, Text.Int64Max);
    TaggedHeader(sig);
    assert CheckTimestamp(Text.DecimalString(timestamp), now, tolerance.GetOr(DefaultTolerance)) == Success(timestamp);
    assert sig in TrimmedSegments("v1," + sig);
    assert SignatureError(key, crypto, webhookId, timestamp, payload, "v1," + sig) == None;
  }

  /** `long.TryParse` accepts trailing NUL characters, so a timestamp header ending in
      NUL passes or fails the timestamp stage exactly as the header without it. */
  lemma NulTerminatedTimestamp(text: string, now: int, tolerance: int)
    ensures CheckTimestamp(text + ['\0'], now, tolerance) == CheckTimestamp(text, now, tolerance)
  {
    Text.TrailingNulIgnored(text, Text.Int64Min, Text.Int64Max);
  }

  /** Such a webhook is accepted too when its timestamp header ends in NUL: the
      signature covers the parsed timestamp, not the header text. */
  lemma NulTerminatedTimestampAccepted(key: Bytes, crypto: Crypto, webhookId: string, timestamp: int,
                                       payload: string, now: int, tolerance: Option<int>)
    requires MinUnixSeconds <= timestamp <= MaxUnixSeconds
    requires !IsStale(timestamp, now, tolerance.GetOr(DefaultTolerance))
    requires var sig := ComputeSignature(key, crypto, SignedContent(webhookId, timestamp, payload));
             sig != "" && ',' !in sig && !Text.IsWhiteSpace(sig[0]) && !Text.IsWhiteSpace(sig[|sig| - 1])
    ensures var sig := ComputeSignature(key, crypto, SignedContent(webhookId, timestamp, payload));
            SignatureAccepted(key, crypto, payload,
                              [("webhook-id", webhookId), ("webhook-timestamp", Text.DecimalString(timestamp) + ['\0']),
                               ("webhook-signature", "v1," + sig)], tolerance, now)
  {
    var sig := ComputeSignature(key, crypto, SignedContent(webhookId, timestamp, payload));
    SignedWebhookAccepted(key, crypto, webhookId, timestamp, payload, now, tolerance);
    ThreeHeaders(webhookId, Text.DecimalString(timestamp), "v1," + sig);
    ThreeHeaders(webhookId, Text.DecimalString(timestamp) + ['\0'], "v1," + sig);
    NulTerminatedTimestamp(Text.DecimalString(timestamp), now, tolerance.GetOr(DefaultTolerance));
  }

  /** Such a webhook verifies and yields the decoded payload. */
  lemma SignedWebhookVerifies<T>(key: Bytes, crypto: Crypto, webhookId: string, timestamp: int,
                                 payload: string, now: int, tolerance: Option<int>,
                                 deserialize: string -> Option<T>, value: T)
    requires MinUnixSeconds <= timestamp <= MaxUnixSeconds
    requires !IsStale(timestamp, now, tolerance.GetOr(DefaultTolerance))
    requires deserialize(payload) == Some(value)
    requires var sig := ComputeSignature(key, crypto, SignedContent(webhookId, timestamp, payload));
             sig != "" && ',' !in sig && !Text.IsWhiteSpace(sig[0]) && !Text.IsWhiteSpace(sig[|sig| - 1])
    ensures VerifyResult(key, crypto, payload, SignedHeaders(key, crypto, webhookId, timestamp, payload),
                         tolerance, now, deserialize) == Success(value)
  {
    SignedWebhookAccepted(key, crypto, webhookId, timestamp, payload, now, tolerance);
    AcceptedThenDecode(key, crypto, payload, SignedHeaders(key, crypto, webhookId, timestamp, payload),
                       tolerance, now, deserialize);
  }

  /** `VerifySignature` as written answers `false` for a correctly signed, fresh
      webhook whose payload is not a JSON object, because it deserializes the payload. */
  lemma SignedNonObjectRejected(key: Bytes, crypto: Crypto, webhookId: string, timestamp: int,
                                payload: string, now: int, tolerance: Option<int>,
                                parse: string -> Option<Json.Json>)
    requires MinUnixSeconds <= timestamp <= MaxUnixSeconds
    requires !IsStale(timestamp, now, tolerance.GetOr(DefaultTolerance))
    requires parse(payload).None? || !parse(payload).value.JObject?
    requires var sig := ComputeSignature(key, crypto, SignedContent(webhookId, timestamp, payload));
             sig != "" && ',' !in sig && !Text.IsWhiteSpace(sig[0]) && !Text.IsWhiteSpace(sig[|sig| - 1])
    ensures var headers := SignedHeaders(key, crypto, webhookId, timestamp, payload);
            && SignatureAccepted(key, crypto, payload, headers, tolerance, now)
            && SignatureCheckAsWritten(key, crypto, payload, headers, tolerance, now, parse) == Success(false)
  {
    var decode := DictionaryPayload(parse);
    assert decode(payload).None?;
    var headers := SignedHeaders(key, crypto, webhookId, timestamp, payload);
    SignedWebhookAccepted(key, crypto, webhookId, timestamp, payload, now, tolerance);
    AcceptedThenDecode(key, crypto, payload, headers, tolerance, now, decode);
    var check := SignatureCheckAsWritten(key, crypto, payload, headers, tolerance, now, parse);
    assert check != Success(true) && !check.Failure?;
  }

  /** An integer timestamp beyond year 9999 makes `Verify` throw the exception of
      `DateTimeOffset.FromUnixTimeSeconds`, which `VerifySignature` as written does not
      catch; the signature is not accepted, so the intended answer is `false`. */
  lemma OutOfRangeTimestampEscapes(key: Bytes, crypto: Crypto, payload: string, webhookId: string,
                                   signatureHeader: string, timestamp: int, tolerance: Option<int>,
                                   now: int, parse: string -> Option<Json.Json>)
    requires MaxUnixSeconds < timestamp <= Text.Int64Max
    ensures var headers := [("webhook-id", webhookId), ("webhook-timestamp", Text.DecimalString(timestamp)),
                            ("webhook-signature", signatureHeader)];
            && SignatureCheckAsWritten(key, crypto, payload, headers, tolerance, now, parse)
                 == Failure(TimestampOutOfRange(timestamp))
            && !SignatureAccepted(key, crypto, payload, headers, tolerance, now)
  {
    var headers := [("webhook-id", webhookId), ("webhook-timestamp", Text.DecimalString(timestamp)),
                    ("webhook-signature", signatureHeader)];
    ThreeHeaders(webhookId, Text.DecimalString(timestamp), signatureHeader);
    Text.ParseDecimalString(timestamp, Text.Int64Min, Text.Int64Max);
  }

  // ---------------------------------------------------------------------------
  // The verifier object

  /** A verifier holds the decoded key for its lifetime and nothing else. */
  class WebhookVerifier {
    const secretKey: Bytes
    const crypto: Crypto

    constructor FromKey(key: Bytes, crypto: Crypto)
      ensures secretKey == key && this.crypto == crypto
    {
      secretKey := key;
      this.crypto := crypto;
    }

    /** The constructor `WebhookVerifier(secret)`: refuses a blank or non-base64 secret,
        otherwise keeps the decoded key. */
    static method Create(secret: Option<string>, crypto: Crypto) returns (r: Result<WebhookVerifier, SecretError>)
      ensures r.Failure? ==> DecodeSecret(secret, crypto) == Failure(r.error)
      ensures r.Success? ==> DecodeSecret(secret, crypto) == Success(r.value.secretKey)
      ensures r.Success? ==> fresh(r.value) && r.value.crypto == crypto
    {
      if IsNullOrWhiteSpace(secret) {
        return Failure(SecretEmpty);
      }
      var cleanSecret := if SecretPrefix <= secret.value then secret.value[6..] else secret.value;
      var decoded := crypto.fromBase64(cleanSecret);
      if decoded.None? {
        return Failure(SecretNotBase64);
      }
      var verifier := new WebhookVerifier.FromKey(decoded.value, crypto);
      return Success(verifier);
    }

    /** `Verify<T>`. */
    method Verify<T>(payload: string, headers: Headers, tolerance: Option<int>, now: int,
                     deserialize: string -> Option<T>) returns (r: Result<T, VerifyFailure>)
      ensures r == VerifyResult(secretKey, crypto, payload, headers, tolerance, now, deserialize)
    {
      var tol := tolerance.GetOr(DefaultTolerance);
      var (hasId, webhookId) := TryGetHeader(headers, "webhook-id");
      if !hasId {
        assert ReadHeaders(headers) == Failure(Rejected(MissingHeader("webhook-id")));
        return Failure(Rejected(MissingHeader("webhook-id")));
      }
      var (hasTimestamp, timestampText) := TryGetHeader(headers, "webhook-timestamp");
      if !hasTimestamp {
        assert ReadHeaders(headers) == Failure(Rejected(MissingHeader("webhook-timestamp")));
        return Failure(Rejected(MissingHeader("webhook-timestamp")));
      }
      var (hasSignature, signatureHeader) := TryGetHeader(headers, "webhook-signature");
      if !hasSignature {
        assert ReadHeaders(headers) == Failure(Rejected(MissingHeader("webhook-signature")));
        return Failure(Rejected(MissingHeader("webhook-signature")));
      }
      assert ReadHeaders(headers) == Success(WebhookHeaders(webhookId, timestampText, signatureHeader));
      var parsed := Text.ParseInteger(timestampText, Text.Int64Min, Text.Int64Max);
      if parsed.None? {
        assert CheckTimestamp(timestampText, now, tol) == Failure(Rejected(InvalidTimestamp));
        return Failure(Rejected(InvalidTimestamp));
      }
      var timestamp := parsed.value;
      if !(MinUnixSeconds <= timestamp <= MaxUnixSeconds) {
        assert CheckTimestamp(timestampText, now, tol) == Failure(TimestampOutOfRange(timestamp));
        return Failure(TimestampOutOfRange(timestamp));
      }
      if now - timestamp * TicksPerSecond > tol {
        assert CheckTimestamp(timestampText, now, tol) == Failure(Rejected(TimestampTooOld(timestamp, now, tol)));
        return Failure(Rejected(TimestampTooOld(timestamp, now, tol)));
      }
      assert CheckTimestamp(timestampText, now, tol) == Success(timestamp);
      var expectedSignatures := ParseSignatures(signatureHeader);
      if |expectedSignatures| == 0 {
        assert SignatureError(secretKey, crypto, webhookId, timestamp, payload, signatureHeader) == Some(NoSignatures);
        return Failure(Rejected(NoSignatures));
      }
      var computedSignature := ComputeSignature(secretKey, crypto, SignedContent(webhookId, timestamp, payload));
      var isValid := MatchesAny(computedSignature, expectedSignatures);
      assert isValid <==> SignatureError(secretKey, crypto, webhookId, timestamp, payload, signatureHeader).None?;
      if !isValid {
        return Failure(Rejected(SignatureMismatch));
      }
      match deserialize(payload)
      case None =>
        return Failure(Rejected(PayloadDecodeError));
      case Some(value) =>
        return Success(value);
    }

    /** `VerifySignature` as written: `false` for a verification error, but an escaping
        exception (`Failure`) for a timestamp `FromUnixTimeSeconds` refuses. */
    method VerifySignatureAsWritten(payload: string, headers: Headers, tolerance: Option<int>, now: int,
                                    parse: string -> Option<Json.Json>) returns (r: Result<bool, VerifyFailure>)
      ensures r == SignatureCheckAsWritten(secretKey, crypto, payload, headers, tolerance, now, parse)
    {
      var outcome := Verify(payload, headers, tolerance, now, DictionaryPayload(parse));
      match outcome
      case Success(_) => return Success(true);
      case Failure(Rejected(_)) => return Success(false);
      case Failure(failure) => return Failure(failure);
    }

    /** `VerifySignature` as intended: `true` exactly when the headers, the timestamp
        and the signature pass, without deserializing the payload; `false` for every
        failure, the out-of-range timestamp included. */
    method VerifySignature(payload: string, headers: Headers, tolerance: Option<int>, now: int)
      returns (valid: bool)
      ensures valid <==> SignatureAccepted(secretKey, crypto, payload, headers, tolerance, now)
    {
      var accept: string -> Option<string> := s => Some(s);
      var outcome := Verify(payload, headers, tolerance, now, accept);
      DecodeIsLastStage(secretKey, crypto, payload, headers, tolerance, now, accept);
      valid := outcome.Success?;
    }
  }
}
