/** `HttpResponse`: the response builder, its body serializers and its
    fallback when serialization fails. */
module HttpResponses {
  import opened Prelude
  import opened Http
  import Json
  import JsonRoundTrip

  /** What a `JsonMapper` does with a body. */
  datatype MapResult = MapsTo(j: Json.Json) | MapThrowsStd | MapThrowsOther

  /** A body together with the serializer its type selects. */
  datatype Payload =
    | Mapped(result: MapResult)
    | JsonValue(j: Json.Json)
    | IntValue(n: int32)
    | EmptyBody

  /** `StdFailure` sets the error code; `OtherFailure` is an exception that leaves the serializer. */
  datatype Serialized = Text(text: Bytes) | StdFailure | OtherFailure

  function DumpOrFail(j: Json.Json): Serialized {
    match Json.Dump(j)
    case Some(text) => Text(text)
    case None => StdFailure
  }

  function SerializeBody(body: Payload): Serialized {
    match body
    case Mapped(MapsTo(j)) => DumpOrFail(j)
    case Mapped(MapThrowsStd) => StdFailure
    case Mapped(MapThrowsOther) => OtherFailure
    case JsonValue(j) => DumpOrFail(j)
    case IntValue(n) => Text(Json.DumpInt(n))
    case EmptyBody => Text([])
  }

  /** A string literal has type `const char*`, whose mapper is the default one and yields null. */
  const LITERAL_BODY: Payload := Mapped(MapsTo(Json.JNull))

  datatype Built = Built(response: RawResponse) | BuildThrows

  // "CyctiusBoostServer/1.0"
  const SERVER_NAME: Bytes := [
    67, 121, 99, 116, 105, 117, 115, 66, 111, 111, 115, 116, 83, 101, 114, 118, 101, 114, 47, 49, 46, 48]

  function DefaultHeaders(date: Bytes): map<HeaderField, Bytes> {
    map[Server := SERVER_NAME, Date := date]
  }

  /** The response of a status factory called with a string literal. */
  function LiteralResponse(status: nat, version: nat, date: Bytes): RawResponse {
    RawResponse(status, version, DefaultHeaders(date), Json.NULL_TEXT)
  }

  /** What `build` yields, whatever order the header map is walked in. */
  function BuildOf(status: nat, version: nat, headers: map<HeaderField, Bytes>, body: Payload, date: Bytes): Built {
    match SerializeBody(body)
    case Text(text) => Built(RawResponse(status, version, DefaultHeaders(date) + headers, text))
    case StdFailure => Built(LiteralResponse(STATUS_INTERNAL_ERROR, version, date))
    case OtherFailure => BuildThrows
  }

  /** An error response: its status, the two default headers and `null` for a body. */
  predicate IsBareError(response: RawResponse, status: nat, version: nat, date: Bytes) {
    && response.status == status && response.version == version
    && response.headers.Keys == {Server, Date} && response.headers[Date] == date
    && response.headers[Server] == [67, 121, 99, 116, 105, 117, 115, 66, 111, 111, 115, 116, 83, 101, 114, 118, 101, 114, 47, 49, 46, 48]
    && response.body == [110, 117, 108, 108]
  }

  /** What a body is to a client: the value it parses to, or no bytes at all. */
  predicate Carries(text: Bytes, body: Payload) {
    match body
    case Mapped(MapsTo(j)) => JsonRoundTrip.WellFormed(j) && JsonRoundTrip.Exact(j) ==> Json.ParseText(text) == Some(j)
    case JsonValue(j) => JsonRoundTrip.WellFormed(j) && JsonRoundTrip.Exact(j) ==> Json.ParseText(text) == Some(j)
    case IntValue(n) => Json.ParseText(text) == Some(Json.JInt(n))
    case EmptyBody => text == []
    case _ => false
  }

  /** A body serializes when its mapper succeeds and all its text is valid UTF-8. */
  predicate Serializes(body: Payload) {
    match body
    case Mapped(MapsTo(j)) => JsonRoundTrip.AllUtf8(j)
    case Mapped(_) => false
    case JsonValue(j) => JsonRoundTrip.AllUtf8(j)
    case _ => true
  }

  lemma SerializedCarries(body: Payload)
    ensures SerializeBody(body).Text? <==> Serializes(body)
    ensures SerializeBody(body).Text? ==> Carries(SerializeBody(body).text, body)
  {
    match body
    case Mapped(MapsTo(j)) => DumpCarries(j);
    case JsonValue(j) => DumpCarries(j);
    case IntValue(n) => JsonRoundTrip.RoundTrip(Json.JInt(n));
    case _ =>
  }

  lemma DumpCarries(j: Json.Json)
    ensures Json.Dump(j).Some? <==> JsonRoundTrip.AllUtf8(j)
    ensures JsonRoundTrip.WellFormed(j) && JsonRoundTrip.Exact(j) ==> Json.Dump(j).Some? && Json.ParseText(Json.Dump(j).value) == Some(j)
  {
    JsonRoundTrip.DumpIffUtf8(j);
    if JsonRoundTrip.WellFormed(j) && JsonRoundTrip.Exact(j) {
      JsonRoundTrip.RoundTrip(j);
    }
  }

  lemma OneMoreHeader(defaults: map<HeaderField, Bytes>, headers: map<HeaderField, Bytes>, left: set<HeaderField>, key: HeaderField)
    requires key in left && left <= headers.Keys
    ensures (defaults + (headers - left))[key := headers[key]] == defaults + (headers - (left - {key}))
  {
  }

  /** Error responses built from a literal never fail and carry the JSON text `null`. */
  lemma LiteralBuilds(status: nat, version: nat, date: Bytes)
    ensures BuildOf(status, version, map[], LITERAL_BODY, date) == Built(LiteralResponse(status, version, date))
  {
    var none: map<HeaderField, Bytes> := map[];
    assert DefaultHeaders(date) + none == DefaultHeaders(date);
  }

  class HttpResponse {
    const version: nat
    const status: nat
    var headers: map<HeaderField, Bytes>
    var body: Payload

    constructor (version: nat, status: nat)
      ensures this.version == version && this.status == status
      ensures headers == map[] && body == EmptyBody
    {
      this.version, this.status := version, status;
      headers, body := map[], EmptyBody;
    }

    method SetBody(body: Payload)
      modifies this`body
      ensures this.body == body
    {
      this.body := body;
    }

    method SetHeader(key: HeaderField, value: Bytes)
      modifies this`headers
      ensures headers == old(headers)[key := value]
    {
      headers := headers[key := value];
    }

    /** Sets the default headers, then the explicit ones in any order. */
    method SetFields(date: Bytes) returns (fields: map<HeaderField, Bytes>)
      ensures fields == DefaultHeaders(date) + headers
    {
      fields := DefaultHeaders(date);
      var left := headers.Keys;
      while left != {}
        invariant left <= headers.Keys
        invariant fields == DefaultHeaders(date) + (headers - left)
        decreases |left|
      {
        var key :| key in left;
        OneMoreHeader(DefaultHeaders(date), headers, left, key);
        fields := fields[key := headers[key]];
        left := left - {key};
      }
      assert headers - {} == headers;
    }

    /** The recursion through the fallback is at most one deep. */
    method Build(date: Bytes) returns (built: Built)
      ensures built == BuildOf(status, version, headers, body, date)
      decreases if SerializeBody(body).StdFailure? then 1 else 0, 0
    {
      var fields := SetFields(date);
      match SerializeBody(body)
      case Text(text) =>
        built := Built(RawResponse(status, version, fields, text));
      case StdFailure =>
        built := InternalServerError(LITERAL_BODY, version, date);
        LiteralBuilds(STATUS_INTERNAL_ERROR, version, date);
      case OtherFailure =>
        built := BuildThrows;
    }

    static method InternalServerError(body: Payload, version: nat, date: Bytes) returns (built: Built)
      ensures built == BuildOf(STATUS_INTERNAL_ERROR, version, map[], body, date)
      decreases if SerializeBody(body).StdFailure? then 1 else 0, 1
    {
      var response := new HttpResponse(version, STATUS_INTERNAL_ERROR);
      response.SetBody(body);
      built := response.Build(date);
    }

    static method BadRequest(body: Payload, version: nat, date: Bytes) returns (built: Built)
      ensures built == BuildOf(STATUS_BAD_REQUEST, version, map[], body, date)
    {
      var response := new HttpResponse(version, STATUS_BAD_REQUEST);
      response.SetBody(body);
      built := response.Build(date);
    }
  }

  /** The outcome of `build` by cases. A body that serializes goes out with the
      status and version asked for, and a client parses it back; a standard
      exception turns the response into a bare 500, which drops the explicit
      headers; only a mapper that throws something else makes `build` throw. */
  lemma BuildOutcome(status: nat, version: nat, headers: map<HeaderField, Bytes>, body: Payload, date: Bytes)
    ensures var built := BuildOf(status, version, headers, body, date);
            && (built.BuildThrows? <==> body == Mapped(MapThrowsOther))
            && (Serializes(body) ==>
                  && built.Built? && built.response.status == status && built.response.version == version
                  && Carries(built.response.body, body))
            && (!Serializes(body) && body != Mapped(MapThrowsOther) ==>
                  built.Built? && IsBareError(built.response, 500, version, date))
            && (built.Built? ==> built.response.headers.Keys >= {Server, Date})
  {
    SerializedCarries(body);
  }

  /** On success an explicit header always wins over a default one. */
  lemma ExplicitHeadersWin(status: nat, version: nat, headers: map<HeaderField, Bytes>, body: Payload, date: Bytes, key: HeaderField)
    requires SerializeBody(body).Text?
    ensures var fields := BuildOf(status, version, headers, body, date).response.headers;
            && (key in headers ==> key in fields && fields[key] == headers[key])
            && (key !in headers && key != Server && key != Date ==> key !in fields)
            && (Server !in headers ==> fields[Server] == SERVER_NAME)
            && (Date !in headers ==> fields[Date] == date)
  {
  }
}
