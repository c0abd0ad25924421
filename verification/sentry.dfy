/**
 * The moderation client `ConsensusSentry`: its configuration defaults, the
 * requests it sends, the snake_case to camelCase normalisation of replies,
 * and the classification of failures into API, timeout and network errors.
 * The HTTP exchange is an input: what came back for the request built here.
 */
module Sentry {
  import opened Wrappers
  import Decimal

  /** A JSON value that the client copies without looking inside. */
  datatype Json =
    | JNull
    | JBool(b: bool)
    | JNumber(n: real)
    | JString(s: string)
    | JArray(items: seq<Json>)
    | JObject(fields: map<string, Json>)

  const DefaultEnvironment: string := "production"
  const DefaultBaseUrl: string := "https://consensussentry-app.eastus.azurecontainer.io:8080"
  const DefaultTimeoutMs: nat := 5000

  /** `ClientOptions`; an absent field is `None`. */
  datatype ClientOptions = ClientOptions(
    apiKey: string,
    environment: Option<string>,
    baseUrl: Option<string>,
    timeoutMs: Option<nat>)

  /** The configuration a client holds; it is set once and never changed. */
  datatype Client = Client(apiKey: string, environment: string, baseUrl: string, timeoutMs: nat)

  /** `x || default` for a string option: absent and empty both fall back. */
  function OrDefault(x: Option<string>, default: string): string
  {
    if x.Some? && x.value != "" then x.value else default
  }

  /** The constructor: `environment || 'production'`, `baseURL || <production URL>`, `timeout || 5000`. */
  function NewClient(options: ClientOptions): (c: Client)
    ensures c.apiKey == options.apiKey
    ensures c.environment != "" && c.baseUrl != "" && c.timeoutMs > 0
    ensures options.environment.Some? && options.environment.value != "" ==> c.environment == options.environment.value
    ensures options.environment.None? || options.environment.value == "" ==> c.environment == DefaultEnvironment
    ensures options.baseUrl.Some? && options.baseUrl.value != "" ==> c.baseUrl == options.baseUrl.value
    ensures options.baseUrl.None? || options.baseUrl.value == "" ==> c.baseUrl == DefaultBaseUrl
    ensures options.timeoutMs.Some? && options.timeoutMs.value != 0 ==> c.timeoutMs == options.timeoutMs.value
    ensures options.timeoutMs.None? || options.timeoutMs.value == 0 ==> c.timeoutMs == DefaultTimeoutMs
  {
    Client(
      options.apiKey,
      OrDefault(options.environment, DefaultEnvironment),
      OrDefault(options.baseUrl, DefaultBaseUrl),
      if options.timeoutMs.Some? && options.timeoutMs.value != 0 then options.timeoutMs.value else DefaultTimeoutMs)
  }

  /** An outgoing POST: path relative to the client's base URL, headers, timeout and JSON body. */
  datatype Request = Request(
    baseUrl: string,
    path: string,
    headers: seq<(string, string)>,
    timeoutMs: nat,
    body: Json)

  function Headers(c: Client): seq<(string, string)>
  {
    [("Content-Type", "application/json"), ("X-API-Key", c.apiKey), ("X-Environment", c.environment)]
  }

  function TextItem(text: string): Json
  {
    JObject(map["text" := JString(text)])
  }

  /** The request `validate` sends. */
  function CheckRequest(c: Client, content: string): (r: Request)
    ensures r.path == "/check" && r.body == TextItem(content)
    ensures r.baseUrl == c.baseUrl && r.timeoutMs == c.timeoutMs
    ensures ("X-API-Key", c.apiKey) in r.headers && ("X-Environment", c.environment) in r.headers
  {
    Request(c.baseUrl, "/check", Headers(c), c.timeoutMs, TextItem(content))
  }

  /** The request `validateBatch` sends: one `{text}` item per input string, in input order. */
  function BatchRequest(c: Client, contents: seq<string>): (r: Request)
    ensures r.path == "/batch_check" && r.baseUrl == c.baseUrl && r.timeoutMs == c.timeoutMs
    ensures ("X-API-Key", c.apiKey) in r.headers && ("X-Environment", c.environment) in r.headers
    ensures r.body.JObject? && r.body.fields.Keys == {"items"} && r.body.fields["items"].JArray?
    ensures var items := r.body.fields["items"].items;
      |items| == |contents| && forall i | 0 <= i < |contents| :: items[i] == TextItem(contents[i])
  {
    Request(c.baseUrl, "/batch_check", Headers(c), c.timeoutMs,
      JObject(map["items" := JArray(seq(|contents|, i requires 0 <= i < |contents| => TextItem(contents[i])))]))
  }

  // ---- Reply bodies as they arrive (snake_case, any field may be missing) ----

  datatype WireViolation = WireViolation(
    rule_id: Option<string>,
    kind: Option<string>,
    matched: Option<string>,
    confidence: Option<real>,
    details: Option<Json>,
    category: Option<string>)

  datatype WireMetadata = WireMetadata(
    processing_time_ms: Option<real>,
    toxicity_scores: Option<Json>,
    classifier_error: Option<string>)

  datatype WireCheck = WireCheck(
    status: Option<string>,
    violations: Option<seq<WireViolation>>,
    request_id: Option<string>,
    message: Option<string>,
    metadata: Option<WireMetadata>,
    rule_details: Option<Json>)

  datatype WireBatch = WireBatch(
    batch_id: Option<string>,
    results: seq<WireCheck>,
    total_items: Option<real>,
    processing_time_ms: Option<real>)

  // ---- The public shapes (camelCase); an absent field stays absent ----

  datatype Violation = Violation(
    ruleId: Option<string>,
    kind: Option<string>,
    matched: Option<string>,
    confidence: Option<real>,
    details: Option<Json>,
    category: Option<string>)

  datatype Metadata = Metadata(
    processingTimeMs: Option<real>,
    toxicityScores: Option<Json>,
    classifierError: Option<string>)

  datatype CheckResult = CheckResult(
    valid: bool,
    violations: seq<Violation>,
    requestId: Option<string>,
    status: Option<string>,
    message: Option<string>,
    metadata: Option<Metadata>,
    ruleDetails: Option<Json>)

  datatype BatchResult = BatchResult(
    batchId: Option<string>,
    results: seq<CheckResult>,
    totalItems: Option<real>,
    processingTimeMs: Option<real>)

  /** One element of the violations mapping in `transformResponse`. */
  function TransformViolation(v: WireViolation): Violation
  {
    Violation(v.rule_id, v.kind, v.matched, v.confidence, v.details, v.category)
  }

  /** The renaming back to the wire's field names. */
  function ViolationToWire(v: Violation): WireViolation
  {
    WireViolation(v.ruleId, v.kind, v.matched, v.confidence, v.details, v.category)
  }

  /** The violation renaming loses and invents nothing: it is a bijection. */
  lemma ViolationRenameBijective(w: WireViolation, v: Violation)
    ensures ViolationToWire(TransformViolation(w)) == w
    ensures TransformViolation(ViolationToWire(v)) == v
  {
  }

  /** `transformMetadata`: absent stays absent, otherwise the three fields renamed. */
  function TransformMetadata(metadata: Option<WireMetadata>): (r: Option<Metadata>)
    ensures r.None? <==> metadata.None?
    ensures r.Some? ==> MetadataToWire(r.value) == metadata.value
  {
    match metadata
    case None => None
    case Some(m) => Some(Metadata(m.processing_time_ms, m.toxicity_scores, m.classifier_error))
  }

  function MetadataToWire(m: Metadata): WireMetadata
  {
    WireMetadata(m.processingTimeMs, m.toxicityScores, m.classifierError)
  }

  /** `transformResponse`. */
  function TransformResponse(w: WireCheck): (r: CheckResult)
    ensures r.valid <==> w.status == Some("safe")
    ensures w.violations.None? ==> r.violations == []
    ensures w.violations.Some? ==>
      |r.violations| == |w.violations.value|
      && forall i | 0 <= i < |r.violations| :: ViolationToWire(r.violations[i]) == w.violations.value[i]
    ensures r.requestId == w.request_id && r.status == w.status && r.message == w.message
    ensures r.ruleDetails == w.rule_details
    ensures r.metadata == TransformMetadata(w.metadata)
  {
    var wire := if w.violations.Some? then w.violations.value else [];
    CheckResult(
      w.status == Some("safe"),
      seq(|wire|, i requires 0 <= i < |wire| => TransformViolation(wire[i])),
      w.request_id,
      w.status,
      w.message,
      TransformMetadata(w.metadata),
      w.rule_details)
  }

  /** A result written back in the wire's shape, with its violations as a present list. */
  function CheckToWire(r: CheckResult): WireCheck
  {
    WireCheck(
      r.status,
      Some(seq(|r.violations|, i requires 0 <= i < |r.violations| => ViolationToWire(r.violations[i]))),
      r.requestId,
      r.message,
      if r.metadata.Some? then Some(MetadataToWire(r.metadata.value)) else None,
      r.ruleDetails)
  }

  /**
   * Normalisation is a pure renaming apart from `valid`: a reply that lists its
   * violations comes back from its normal form unchanged, and every result whose
   * `valid` agrees with its status is the normal form of its wire form.
   */
  lemma NormalisationRoundTrip(w: WireCheck, r: CheckResult)
    ensures w.violations.Some? ==> CheckToWire(TransformResponse(w)) == w
    ensures r.valid == (r.status == Some("safe")) ==> TransformResponse(CheckToWire(r)) == r
  {
    if w.violations.Some? {
      var back := CheckToWire(TransformResponse(w));
      assert back.violations.value == w.violations.value;
      if w.metadata.Some? {
        assert back.metadata == w.metadata;
      }
    }
    if r.valid == (r.status == Some("safe")) {
      var again := TransformResponse(CheckToWire(r));
      assert again.violations == r.violations;
      if r.metadata.Some? {
        assert again.metadata == r.metadata;
      }
    }
  }

  /** The object `validateBatch` returns: every wire result normalised, in order. */
  function TransformBatch(w: WireBatch): (r: BatchResult)
    ensures |r.results| == |w.results|
    ensures forall i | 0 <= i < |w.results| :: r.results[i] == TransformResponse(w.results[i])
    ensures r.batchId == w.batch_id && r.totalItems == w.total_items && r.processingTimeMs == w.processing_time_ms
  {
    BatchResult(
      w.batch_id,
      seq(|w.results|, i requires 0 <= i < |w.results| => TransformResponse(w.results[i])),
      w.total_items,
      w.processing_time_ms)
  }

  // ---- Failures ----

  /**
   * What came back for a request: a response axios accepts (a 2xx status) with
   * its body, a response it rejects with the status and the raw body, or no
   * response at all, with the transport's error code and message.
   */
  datatype HttpOutcome<T> =
    | Answered(body: T)
    | Refused(status: nat, data: Json)
    | NoResponse(code: Option<string>, message: string)

  const TimeoutCode: string := "ECONNABORTED"

  /** The three kinds of failure the client reports. */
  datatype ErrorKind = ApiError | TimeoutError | NetworkError

  /** `handleError`: the message of the `Error` it always throws; `stringify` is `JSON.stringify`. */
  function HandleError<T>(c: Client, failure: HttpOutcome<T>, stringify: Json -> string): (msg: string)
    requires !failure.Answered?
    ensures failure.Refused? ==>
      msg == "API Error: " + Decimal.NatToString(failure.status) + " - " + stringify(failure.data)
    ensures failure.NoResponse? && failure.code == Some(TimeoutCode) ==>
      msg == "Request timed out after " + Decimal.NatToString(c.timeoutMs) + "ms"
    ensures failure.NoResponse? && failure.code != Some(TimeoutCode) ==>
      msg == "Network Error: " + failure.message
  {
    match failure
    case Refused(status, data) => "API Error: " + Decimal.NatToString(status) + " - " + stringify(data)
    case NoResponse(code, message) =>
      if code == Some(TimeoutCode) then "Request timed out after " + Decimal.NatToString(c.timeoutMs) + "ms"
      else "Network Error: " + message
  }

  /** The kind of a failure, decided in `handleError`'s order: response first, then the timeout code. */
  function KindOf<T>(failure: HttpOutcome<T>): ErrorKind
    requires !failure.Answered?
  {
    if failure.Refused? then ApiError
    else if failure.code == Some(TimeoutCode) then TimeoutError
    else NetworkError
  }

  /** The kind a thrown message announces, read from its prefix. */
  function KindOfMessage(msg: string): Option<ErrorKind>
  {
    if |msg| >= 11 && msg[..11] == "API Error: " then Some(ApiError)
    else if |msg| >= 24 && msg[..24] == "Request timed out after " then Some(TimeoutError)
    else if |msg| >= 15 && msg[..15] == "Network Error: " then Some(NetworkError)
    else None
  }

  /** Exactly one branch fires, and its message says which one it was. */
  lemma HandleErrorClassifies<T>(c: Client, failure: HttpOutcome<T>, stringify: Json -> string)
    requires !failure.Answered?
    ensures KindOfMessage(HandleError(c, failure, stringify)) == Some(KindOf(failure))
  {
    var msg := HandleError(c, failure, stringify);
    match KindOf(failure)
    case ApiError =>
      assert msg[..11] == "API Error: ";
    case TimeoutError =>
      assert msg[..11] != "API Error: " by { assert msg[0] == 'R'; }
      assert msg[..24] == "Request timed out after ";
    case NetworkError =>
      assert msg[..11] != "API Error: " by { assert msg[0] == 'N'; }
      assert msg[..15] == "Network Error: ";
  }

  /** `validate`: the normalised result, or the message of the error it throws. */
  function Validate(c: Client, outcome: HttpOutcome<WireCheck>, stringify: Json -> string)
    : (r: Result<CheckResult, string>)
    ensures outcome.Answered? ==> r == Ok(TransformResponse(outcome.body))
    ensures !outcome.Answered? ==> r == Err(HandleError(c, outcome, stringify))
    ensures !outcome.Answered? ==> r.Err? && KindOfMessage(r.error) == Some(KindOf(outcome))
  {
    match outcome
    case Answered(body) => Ok(TransformResponse(body))
    case _ =>
      HandleErrorClassifies(c, outcome, stringify);
      Err(HandleError(c, outcome, stringify))
  }

  /** `validateBatch`: all results normalised in order, or the message of the error it throws (no partial batch). */
  function ValidateBatch(c: Client, outcome: HttpOutcome<WireBatch>, stringify: Json -> string)
    : (r: Result<BatchResult, string>)
    ensures outcome.Answered? ==> r == Ok(TransformBatch(outcome.body))
    ensures outcome.Answered? ==> r.Ok? && |r.value.results| == |outcome.body.results|
    ensures outcome.Answered? ==>
      forall i | 0 <= i < |outcome.body.results| :: r.value.results[i] == TransformResponse(outcome.body.results[i])
    ensures !outcome.Answered? ==> r == Err(HandleError(c, outcome, stringify))
    ensures !outcome.Answered? ==> r.Err? && KindOfMessage(r.error) == Some(KindOf(outcome))
  {
    match outcome
    case Answered(body) => Ok(TransformBatch(body))
    case _ =>
      HandleErrorClassifies(c, outcome, stringify);
      Err(HandleError(c, outcome, stringify))
  }

  /** The safe reply of the client's test suite normalises to a valid result with no violations and nothing else set. */
  lemma SafeReplyExample()
    ensures TransformResponse(WireCheck(Some("safe"), Some([]), Some("123"), None, None, None))
         == CheckResult(true, [], Some("123"), Some("safe"), None, None, None)
  {
  }

  /** A server error's message carries the status code and the serialised body. */
  lemma ServerErrorExample(c: Client, data: Json, stringify: Json -> string)
    ensures HandleError(c, HttpOutcome<WireCheck>.Refused(500, data), stringify) == "API Error: 500 - " + stringify(data)
  {
    var digits := Decimal.NatToString(500);
    assert digits == "500" by {
      assert Decimal.NatToString(5) == "5";
      assert Decimal.NatToString(50) == "5" + "0";
      assert Decimal.NatToString(500) == "50" + "0";
    }
    assert "API Error: " + digits + " - " == "API Error: 500 - ";
  }
}
