/** `from_request`: a typed request folded from a raw one. */
module HttpRequests {
  import opened Prelude
  import opened Http
  import Json

  datatype Body = JsonBody(j: Json.Json) | RawBody(bytes: Bytes) | FormBody(pairs: seq<Param>)

  /** A body decoder; `None` when it throws. */
  type Decoder = Bytes -> Option<Body>

  /** The value of a finished `HttpRequest` object. */
  datatype TypedRequest = TypedRequest(
    version: nat, uri: Bytes, endpoint: Bytes, headers: map<HeaderField, Bytes>,
    queryParams: map<Bytes, Bytes>, verb: Verb, contentType: Bytes, body: Body)

  /** `headers[name] = value`, line after line. */
  function Headers(lines: seq<Line>): map<HeaderField, Bytes> {
    if lines == [] then map[]
    else
      var last := lines[|lines| - 1];
      Headers(lines[..|lines| - 1])[last.name := last.value]
  }

  /** `query_params.emplace(key, value)`, parameter after parameter. */
  function QueryParams(params: seq<Param>): map<Bytes, Bytes> {
    if params == [] then map[]
    else
      var before := QueryParams(params[..|params| - 1]);
      var last := params[|params| - 1];
      if last.key in before then before else before[last.key := last.value]
  }

  /** The first line of a name, as `find` and `operator[]` see it. */
  function FirstLine(lines: seq<Line>, name: HeaderField): Option<Bytes> {
    if lines == [] then None
    else if lines[0].name == name then Some(lines[0].value)
    else FirstLine(lines[1..], name)
  }

  function ContentTypeOf(lines: seq<Line>): Bytes {
    match FirstLine(lines, ContentType)
    case Some(value) => value
    case None => []
  }

  /** What `from_request` yields; `None` when parsing the target or decoding the body throws. */
  function Typed(req: RawRequest, decode: Decoder): Option<TypedRequest> {
    match (req.url, decode(req.body))
    case (Some(url), Some(body)) =>
      Some(TypedRequest(req.version, req.target, url.path, Headers(req.lines), QueryParams(url.params),
                        req.verb, ContentTypeOf(req.lines), body))
    case _ => None
  }

  // -------------------------------------------------- the duplicate policies

  ghost predicate IsLastLine(lines: seq<Line>, i: nat, name: HeaderField) {
    i < |lines| && lines[i].name == name && forall k :: i < k < |lines| ==> lines[k].name != name
  }

  ghost predicate IsFirstLine(lines: seq<Line>, i: nat, name: HeaderField) {
    i < |lines| && lines[i].name == name && forall k :: 0 <= k < i ==> lines[k].name != name
  }

  ghost predicate IsFirstParam(params: seq<Param>, i: nat, key: Bytes) {
    i < |params| && params[i].key == key && forall k :: 0 <= k < i ==> params[k].key != key
  }

  /** `headers` holds exactly the names present. */
  lemma {:induction false} HeaderNames(lines: seq<Line>, name: HeaderField)
    ensures name in Headers(lines) <==> exists i :: 0 <= i < |lines| && lines[i].name == name
  {
    if lines != [] {
      var front := lines[..|lines| - 1];
      HeaderNames(front, name);
      if i :| 0 <= i < |lines| && lines[i].name == name {
        assert i < |front| ==> front[i].name == name;
      }
    }
  }

  /** Each name in `headers` has the value of its last line. */
  lemma {:induction false} HeadersKeepLast(lines: seq<Line>, i: nat, name: HeaderField)
    requires IsLastLine(lines, i, name)
    ensures name in Headers(lines) && Headers(lines)[name] == lines[i].value
  {
    var n := |lines| - 1;
    if i < n {
      assert lines[n].name != name;
      HeadersKeepLast(lines[..n], i, name);
    }
  }

  /** `query_params` holds exactly the keys present. */
  lemma {:induction false} QueryParamKeys(params: seq<Param>, key: Bytes)
    ensures key in QueryParams(params) <==> exists i :: 0 <= i < |params| && params[i].key == key
  {
    if params != [] {
      var front := params[..|params| - 1];
      QueryParamKeys(front, key);
      if i :| 0 <= i < |params| && params[i].key == key {
        assert i < |front| ==> front[i].key == key;
      }
    }
  }

  /** Each key in `query_params` has the value of its first parameter. */
  lemma {:induction false} QueryParamsKeepFirst(params: seq<Param>, i: nat, key: Bytes)
    requires IsFirstParam(params, i, key)
    ensures key in QueryParams(params) && QueryParams(params)[key] == params[i].value
  {
    var n := |params| - 1;
    var front := params[..n];
    if i < n {
      QueryParamsKeepFirst(front, i, key);
    } else {
      QueryParamKeys(front, key);
      assert forall k :: 0 <= k < n ==> front[k] == params[k];
    }
  }

  lemma {:induction false} FirstLineIsFirst(lines: seq<Line>, i: nat, name: HeaderField)
    requires IsFirstLine(lines, i, name)
    ensures FirstLine(lines, name) == Some(lines[i].value)
  {
    if i > 0 {
      assert lines[0].name != name;
      FirstLineIsFirst(lines[1..], i - 1, name);
    }
  }

  /** The separate content-type member and the header map agree exactly when
      the first and the last such line carry the same value. */
  lemma ContentTypeAgrees(lines: seq<Line>, first: nat, last: nat)
    requires IsFirstLine(lines, first, ContentType) && IsLastLine(lines, last, ContentType)
    ensures ContentType in Headers(lines)
    ensures ContentTypeOf(lines) == Headers(lines)[ContentType] <==> lines[first].value == lines[last].value
  {
    HeadersKeepLast(lines, last, ContentType);
    FirstLineIsFirst(lines, first, ContentType);
  }

  // ------------------------------------------------------- the folded request

  /** `headers` has the names of the lines, each with the value of its last line. */
  ghost predicate HeadersFold(lines: seq<Line>, headers: map<HeaderField, Bytes>) {
    && (forall name :: name in headers <==> exists i :: 0 <= i < |lines| && lines[i].name == name)
    && (forall i: nat, name :: IsLastLine(lines, i, name) ==> name in headers && headers[name] == lines[i].value)
  }

  /** `query_params` has the keys of the parameters, each with the value of its first. */
  ghost predicate ParamsFold(params: seq<Param>, queryParams: map<Bytes, Bytes>) {
    && (forall key :: key in queryParams <==> exists i :: 0 <= i < |params| && params[i].key == key)
    && (forall i: nat, key :: IsFirstParam(params, i, key) ==> key in queryParams && queryParams[key] == params[i].value)
  }

  /** The value of the first content-type line, empty when there is none. */
  ghost predicate ContentTypeFold(lines: seq<Line>, contentType: Bytes) {
    && (forall i: nat :: IsFirstLine(lines, i, ContentType) ==> contentType == lines[i].value)
    && ((forall i :: 0 <= i < |lines| ==> lines[i].name != ContentType) ==> contentType == [])
  }

  /** What a handler may rely on in the request it gets. */
  ghost predicate IsFoldOf(req: RawRequest, typed: TypedRequest) {
    && req.url.Some?
    && typed.version == req.version && typed.verb == req.verb
    && typed.uri == req.target && typed.endpoint == req.url.value.path
    && HeadersFold(req.lines, typed.headers)
    && ParamsFold(req.url.value.params, typed.queryParams)
    && ContentTypeFold(req.lines, typed.contentType)
  }

  lemma HeadersAreFold(lines: seq<Line>)
    ensures HeadersFold(lines, Headers(lines))
  {
    forall name ensures name in Headers(lines) <==> exists i :: 0 <= i < |lines| && lines[i].name == name {
      HeaderNames(lines, name);
    }
    forall i: nat, name | IsLastLine(lines, i, name)
      ensures name in Headers(lines) && Headers(lines)[name] == lines[i].value
    {
      HeadersKeepLast(lines, i, name);
    }
  }

  lemma ParamsAreFold(params: seq<Param>)
    ensures ParamsFold(params, QueryParams(params))
  {
    forall key ensures key in QueryParams(params) <==> exists i :: 0 <= i < |params| && params[i].key == key {
      QueryParamKeys(params, key);
    }
    forall i: nat, key | IsFirstParam(params, i, key)
      ensures key in QueryParams(params) && QueryParams(params)[key] == params[i].value
    {
      QueryParamsKeepFirst(params, i, key);
    }
  }

  lemma {:induction false} NoFirstLine(lines: seq<Line>, name: HeaderField)
    requires forall i :: 0 <= i < |lines| ==> lines[i].name != name
    ensures FirstLine(lines, name) == None
  {
    if lines != [] {
      NoFirstLine(lines[1..], name);
    }
  }

  lemma ContentTypeIsFold(lines: seq<Line>)
    ensures ContentTypeFold(lines, ContentTypeOf(lines))
  {
    forall i: nat | IsFirstLine(lines, i, ContentType) ensures ContentTypeOf(lines) == lines[i].value {
      FirstLineIsFirst(lines, i, ContentType);
    }
    if forall i :: 0 <= i < |lines| ==> lines[i].name != ContentType {
      NoFirstLine(lines, ContentType);
    }
  }

  /** The typed request exists exactly when target and body decode, and holds what the raw one says. */
  lemma TypedIsFold(req: RawRequest, decode: Decoder)
    ensures Typed(req, decode).Some? <==> req.url.Some? && decode(req.body).Some?
    ensures Typed(req, decode).Some? ==>
              IsFoldOf(req, Typed(req, decode).value) && decode(req.body) == Some(Typed(req, decode).value.body)
  {
    if req.url.Some? {
      HeadersAreFold(req.lines);
      ParamsAreFold(req.url.value.params);
      ContentTypeIsFold(req.lines);
    }
  }

  // ----------------------------------------------------------------- the object

  class HttpRequest {
    var version: nat
    var uri: Bytes
    var endpoint: Bytes
    var headers: map<HeaderField, Bytes>
    var queryParams: map<Bytes, Bytes>
    var verb: Verb
    var contentType: Bytes
    var body: Body

    ghost function Value(): TypedRequest
      reads this
    {
      TypedRequest(version, uri, endpoint, headers, queryParams, verb, contentType, body)
    }

    constructor ()
      ensures version == 11 && headers == map[] && queryParams == map[] && contentType == []
    {
      version, uri, endpoint, contentType := 11, [], [], [];
      headers, queryParams := map[], map[];
      verb, body := OtherVerb(0), RawBody([]);
    }

    method FoldHeaders(lines: seq<Line>)
      requires headers == map[]
      modifies this`headers
      ensures headers == Headers(lines)
    {
      for i := 0 to |lines|
        invariant headers == Headers(lines[..i])
      {
        assert lines[..i + 1][..i] == lines[..i];
        headers := headers[lines[i].name := lines[i].value];
      }
      assert lines[..|lines|] == lines;
    }

    method FoldParams(params: seq<Param>)
      requires queryParams == map[]
      modifies this`queryParams
      ensures queryParams == QueryParams(params)
    {
      for i := 0 to |params|
        invariant queryParams == QueryParams(params[..i])
      {
        assert params[..i + 1][..i] == params[..i];
        if params[i].key !in queryParams {
          queryParams := queryParams[params[i].key := params[i].value];
        }
      }
      assert params[..|params|] == params;
    }
  }

  /** Null when the C++ function throws. */
  method FromRequest(req: RawRequest, decode: Decoder) returns (typed: HttpRequest?)
    ensures typed != null <==> Typed(req, decode).Some?
    ensures typed != null ==> fresh(typed) && typed.Value() == Typed(req, decode).value
    ensures typed != null <==> req.url.Some? && decode(req.body).Some?
    ensures typed != null ==> IsFoldOf(req, typed.Value()) && decode(req.body) == Some(typed.body)
  {
    TypedIsFold(req, decode);
    var r: HttpRequest := new HttpRequest();
    if req.url.None? {
      return null;
    }
    var url := req.url.value;
    r.uri := req.target;
    r.endpoint := url.path;
    r.version := req.version;
    r.verb := req.verb;
    var found := FirstLine(req.lines, ContentType);
    if found.Some? {
      r.contentType := found.value;
    }
    r.FoldHeaders(req.lines);
    r.FoldParams(url.params);
    var body := decode(req.body);
    if body.None? {
      return null;
    }
    r.body := body.value;
    typed := r;
  }
}
