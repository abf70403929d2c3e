/** Raw HTTP messages as the library hands them over. */
module Http {
  import opened Prelude

  datatype Verb = Get | Post | OtherVerb(code: nat)

  /** Header names; every name the library does not know is `Unknown`. */
  datatype HeaderField = Unknown | ContentType | Server | Date | OtherField(code: nat)

  datatype Line = Line(name: HeaderField, value: Bytes)

  datatype Param = Param(key: Bytes, value: Bytes)

  datatype Url = Url(path: Bytes, params: seq<Param>)

  /** `url` is what the URL library makes of `target`: `None` when it throws.
      `keepAlive` is the library's verdict on version and `Connection`. */
  datatype RawRequest = RawRequest(
    verb: Verb, target: Bytes, url: Option<Url>, version: nat,
    lines: seq<Line>, body: Bytes, keepAlive: bool)

  /** The order of header lines on the wire is not kept. */
  datatype RawResponse = RawResponse(
    status: nat, version: nat, headers: map<HeaderField, Bytes>, body: Bytes)

  /** The C++ `int` of the entity's members. */
  type int32 = n: int | -0x8000_0000 <= n < 0x8000_0000

  datatype User = User(id: int32, name: Bytes, age: int32)

  /** What one handler call observes outside its request: the clock, and the
      answer the database session gives it. */
  datatype World = World(date: Bytes, users: Option<seq<User>>)

  const STATUS_OK := 200
  const STATUS_BAD_REQUEST := 400
  const STATUS_INTERNAL_ERROR := 500
}
