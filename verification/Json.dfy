/** The JSON text layer the codecs call: the printer behind `dump()` and the
    parser behind `json::parse`, on bytes, after sections 2 to 7 of RFC 8259.
    Objects are kept in key order, as the library's `std::map` keeps them. */
module Json {
  import opened Prelude
  import Utf8

  datatype Json =
    | JNull
    | JBool(b: bool)
    | JInt(n: int)
    | JFloat(lexeme: Bytes)
    | JString(s: Bytes)
    | JArray(items: seq<Json>)
    | JObject(fields: seq<Field>)

  datatype Field = Field(key: Bytes, val: Json)

  const QUOTE: byte := 34
  const BACKSLASH: byte := 92
  const COMMA: byte := 44
  const COLON: byte := 58
  const OPEN_ARRAY: byte := 91
  const CLOSE_ARRAY: byte := 93
  const OPEN_OBJECT: byte := 123
  const CLOSE_OBJECT: byte := 125
  const MINUS: byte := 45
  const ZERO: byte := 48
  const LETTER_U: byte := 117
  const NULL_TEXT: Bytes := [110, 117, 108, 108]
  const TRUE_TEXT: Bytes := [116, 114, 117, 101]
  const FALSE_TEXT: Bytes := [102, 97, 108, 115, 101]
  const BYTE_ORDER_MARK: Bytes := [0xEF, 0xBB, 0xBF]

  // Integers outside these bounds are kept as floating point by the library.
  const MIN_INT := -0x8000_0000_0000_0000
  const MAX_INT := 0xFFFF_FFFF_FFFF_FFFF

  // ---------------------------------------------------------------- objects

  /** Byte-wise lexicographic order, the order of `std::string`. */
  predicate Less(a: Bytes, b: Bytes) {
    b != [] && (a == [] || a[0] < b[0] || (a[0] == b[0] && Less(a[1..], b[1..])))
  }

  predicate Ordered(fields: seq<Field>) {
    forall i, j :: 0 <= i < j < |fields| ==> Less(fields[i].key, fields[j].key)
  }

  /** `object[key] = val`: a repeated key keeps its place and takes the later value. */
  function Put(fields: seq<Field>, key: Bytes, val: Json): seq<Field> {
    if fields == [] then [Field(key, val)]
    else if fields[0].key == key then [Field(key, val)] + fields[1..]
    else if Less(key, fields[0].key) then [Field(key, val)] + fields
    else [fields[0]] + Put(fields[1..], key, val)
  }

  /** `object.at(key)`. */
  function At(fields: seq<Field>, key: Bytes): Option<Json> {
    if fields == [] then None
    else if fields[0].key == key then Some(fields[0].val)
    else At(fields[1..], key)
  }

  // ---------------------------------------------------------------- printer

  function HexDigit(d: nat): byte
    requires d < 16
  {
    if d < 10 then ZERO + d else 87 + d
  }

  /** One character of a string, escaped when it must be. */
  function EscapeChar(c: Bytes): Bytes
    requires |c| > 0
  {
    if |c| > 1 then c
    else if c[0] == 8 then [BACKSLASH, 98]
    else if c[0] == 9 then [BACKSLASH, 116]
    else if c[0] == 10 then [BACKSLASH, 110]
    else if c[0] == 12 then [BACKSLASH, 102]
    else if c[0] == 13 then [BACKSLASH, 114]
    else if c[0] == QUOTE || c[0] == BACKSLASH then [BACKSLASH, c[0]]
    else if c[0] < 0x20 then
      [BACKSLASH, LETTER_U, ZERO, ZERO, HexDigit(c[0] / 16), HexDigit(c[0] % 16)]
    else c
  }

  /** The text between the quotes; `None` is the library's exception on invalid UTF-8. */
  function DumpChars(s: Bytes): Option<Bytes>
    decreases |s|
  {
    if s == [] then Some([])
    else
      var n := Utf8.CharLength(s);
      if n == 0 then None
      else
        match DumpChars(s[n..])
        case None => None
        case Some(text) => Some(EscapeChar(s[..n]) + text)
  }

  function DumpString(s: Bytes): Option<Bytes> {
    match DumpChars(s)
    case None => None
    case Some(text) => Some([QUOTE] + text + [QUOTE])
  }

  function DumpNat(n: nat): (text: Bytes)
    ensures |text| > 0
  {
    if n < 10 then [ZERO + n] else DumpNat(n / 10) + [ZERO + n % 10]
  }

  function DumpInt(n: int): Bytes {
    if n < 0 then [MINUS] + DumpNat(-n) else DumpNat(n)
  }

  function Dump(j: Json): Option<Bytes>
    decreases j, 1
  {
    match j
    case JNull => Some(NULL_TEXT)
    case JBool(b) => Some(if b then TRUE_TEXT else FALSE_TEXT)
    case JInt(n) => Some(DumpInt(n))
    case JFloat(lexeme) => Some(lexeme)
    case JString(s) => DumpString(s)
    case JArray(items) =>
      (match DumpItems(items)
       case None => None
       case Some(text) => Some([OPEN_ARRAY] + text + [CLOSE_ARRAY]))
    case JObject(fields) =>
      match DumpFields(fields)
      case None => None
      case Some(text) => Some([OPEN_OBJECT] + text + [CLOSE_OBJECT])
  }

  function DumpItems(items: seq<Json>): Option<Bytes>
    decreases items, 0
  {
    if items == [] then Some([])
    else
      match (Dump(items[0]), DumpItems(items[1..]))
      case (Some(head), Some(tail)) => Some(if |items| == 1 then head else head + [COMMA] + tail)
      case _ => None
  }

  function DumpField(f: Field): Option<Bytes>
    decreases f, 2
  {
    match (DumpString(f.key), Dump(f.val))
    case (Some(key), Some(val)) => Some(key + [COLON] + val)
    case _ => None
  }

  function DumpFields(fields: seq<Field>): Option<Bytes>
    decreases fields, 0
  {
    if fields == [] then Some([])
    else
      match (DumpField(fields[0]), DumpFields(fields[1..]))
      case (Some(head), Some(tail)) => Some(if |fields| == 1 then head else head + [COMMA] + tail)
      case _ => None
  }

  // ---------------------------------------------------------------- scanner

  predicate IsSpace(b: byte) {
    b == 32 || b == 9 || b == 10 || b == 13
  }

  function SkipSpace(s: Bytes): (rest: Bytes)
    ensures |rest| <= |s|
    ensures rest != [] ==> !IsSpace(rest[0])
  {
    if s != [] && IsSpace(s[0]) then SkipSpace(s[1..]) else s
  }

  predicate StartsWith(s: Bytes, prefix: Bytes) {
    |prefix| <= |s| && s[..|prefix|] == prefix
  }

  function HexValue(b: byte): Option<nat> {
    if 48 <= b <= 57 then Some(b - 48)
    else if 65 <= b <= 70 then Some(b - 55)
    else if 97 <= b <= 102 then Some(b - 87)
    else None
  }

  /** The code unit of the escape at the front of `s`. */
  function ScanCodeUnit(s: Bytes): (unit: Option<nat>)
    ensures unit.Some? ==> |s| >= 6 && unit.value < 0x1_0000
  {
    if |s| >= 6 && s[0] == BACKSLASH && s[1] == LETTER_U then
      match (HexValue(s[2]), HexValue(s[3]), HexValue(s[4]), HexValue(s[5]))
      case (Some(a), Some(b), Some(c), Some(d)) => HexQuad(a, b, c, d)
      case _ => None
    else None
  }

  function HexQuad(a: nat, b: nat, c: nat, d: nat): (unit: Option<nat>)
    ensures unit.Some? ==> unit.value < 0x1_0000
    ensures a < 16 && b < 16 && c < 16 && d < 16 ==> unit == Some(0x1000 * a + 0x100 * b + 0x10 * c + d)
  {
    if a < 16 && b < 16 && c < 16 && d < 16 then Some(0x1000 * a + 0x100 * b + 0x10 * c + d) else None
  }

  /** One scanned character: what it stands for and how many bytes it took. */
  datatype Unit = Unit(text: Bytes, used: nat)

  function ScanUnicodeEscape(s: Bytes): (r: Option<Unit>)
    ensures r.Some? ==> 0 < r.value.used <= |s|
  {
    match ScanCodeUnit(s)
    case None => None
    case Some(high) =>
      if 0xD800 <= high < 0xDC00 then
        match ScanCodeUnit(s[6..])
        case None => None
        case Some(low) =>
          if 0xDC00 <= low < 0xE000
          then Some(Unit(Utf8.Encode(0x1_0000 + (high - 0xD800) * 0x400 + (low - 0xDC00)), 12))
          else None
      else if 0xDC00 <= high < 0xE000 then None
      else Some(Unit(Utf8.Encode(high), 6))
  }

  /** One character inside a string that is not the closing quote. */
  function ScanUnit(s: Bytes): (r: Option<Unit>)
    requires s != []
    ensures r.Some? ==> 0 < r.value.used <= |s|
  {
    if s[0] == BACKSLASH then
      if |s| < 2 then None
      else if s[1] == QUOTE || s[1] == BACKSLASH || s[1] == 47 then Some(Unit([s[1]], 2))
      else if s[1] == 98 then Some(Unit([8], 2))
      else if s[1] == 102 then Some(Unit([12], 2))
      else if s[1] == 110 then Some(Unit([10], 2))
      else if s[1] == 114 then Some(Unit([13], 2))
      else if s[1] == 116 then Some(Unit([9], 2))
      else ScanUnicodeEscape(s)
    else if s[0] < 0x20 then None
    else if Utf8.CharLength(s) == 0 then None
    else Some(Unit(s[..Utf8.CharLength(s)], Utf8.CharLength(s)))
  }

  datatype Scan = Scanned(text: Bytes, rest: Bytes) | BadString

  /** The rest of a string whose opening quote has been read. */
  function ScanChars(s: Bytes): (r: Scan)
    ensures r.Scanned? ==> |r.rest| < |s|
    decreases |s|
  {
    if s == [] then BadString
    else if s[0] == QUOTE then Scanned([], s[1..])
    else
      match ScanUnit(s)
      case None => BadString
      case Some(u) =>
        match ScanChars(s[u.used..])
        case BadString => BadString
        case Scanned(text, rest) => Scanned(u.text + text, rest)
  }

  predicate IsDigit(b: byte) {
    48 <= b <= 57
  }

  /** How many digits `s` starts with. */
  function DigitRun(s: Bytes): (n: nat)
    ensures n <= |s|
    ensures forall i :: 0 <= i < n ==> IsDigit(s[i])
    ensures n < |s| ==> !IsDigit(s[n])
  {
    if s != [] && IsDigit(s[0]) then 1 + DigitRun(s[1..]) else 0
  }

  function DigitsValue(digits: Bytes): nat
    requires forall i :: 0 <= i < |digits| ==> IsDigit(digits[i])
  {
    if digits == [] then 0
    else
      assert IsDigit(digits[|digits| - 1]);
      10 * DigitsValue(digits[..|digits| - 1]) + (digits[|digits| - 1] - ZERO)
  }

  /** Length of the fraction at the front of `s`; `None` when a point has no digit after it. */
  function FractionLength(s: Bytes): (n: Option<nat>)
    ensures n.Some? ==> n.value <= |s|
  {
    if s == [] || s[0] != 46 then Some(0)
    else if DigitRun(s[1..]) == 0 then None
    else Some(1 + DigitRun(s[1..]))
  }

  function ExponentLength(s: Bytes): (n: Option<nat>)
    ensures n.Some? ==> n.value <= |s|
  {
    if s == [] || (s[0] != 69 && s[0] != 101) then Some(0)
    else
      var sign := if |s| > 1 && (s[1] == 43 || s[1] == MINUS) then 2 else 1;
      if DigitRun(s[sign..]) == 0 then None else Some(sign + DigitRun(s[sign..]))
  }

  datatype Parse = Parsed(value: Json, rest: Bytes) | Bad

  /** Digits before a point or exponent, and the bytes of fraction and exponent after them. */
  datatype Extent = Extent(whole: nat, more: nat) | NotANumber

  function NumberExtent(body: Bytes): (x: Extent)
    ensures x.Extent? ==> 0 < x.whole <= DigitRun(body) && x.whole + x.more <= |body|
  {
    if DigitRun(body) == 0 then NotANumber
    else
      var whole := if body[0] == ZERO then 1 else DigitRun(body);
      var tail := body[whole..];
      match FractionLength(tail)
      case None => NotANumber
      case Some(fraction) =>
        match ExponentLength(tail[fraction..])
        case None => NotANumber
        case Some(exponent) => Extent(whole, fraction + exponent)
  }

  function Negated(negative: bool, magnitude: int): int {
    if negative then -magnitude else magnitude
  }

  /** An integer when it is written as one and fits, else a floating-point number. */
  function NumberValue(lexeme: Bytes, negative: bool, digits: Bytes, isWhole: bool): Json
    requires forall i :: 0 <= i < |digits| ==> IsDigit(digits[i])
  {
    var n := Negated(negative, DigitsValue(digits));
    if isWhole && MIN_INT <= n <= MAX_INT then JInt(n) else JFloat(lexeme)
  }

  /** The number whose unsigned part `body` starts; `before` is its sign. */
  function NumberAt(before: Bytes, body: Bytes): (r: Parse)
    ensures r.Parsed? ==> |r.rest| < |body|
  {
    match NumberExtent(body)
    case NotANumber => Bad
    case Extent(whole, more) =>
      var lexeme := before + body[..whole + more];
      Parsed(NumberValue(lexeme, before != [], body[..whole], more == 0), body[whole + more..])
  }

  function ScanNumber(s: Bytes): (r: Parse)
    ensures r.Parsed? ==> |r.rest| < |s|
  {
    if s != [] && s[0] == MINUS then NumberAt([MINUS], s[1..]) else NumberAt([], s)
  }

  // ---------------------------------------------------------------- parser

  function ParseString(s: Bytes): (r: Parse)
    ensures r.Parsed? ==> |r.rest| < |s|
  {
    match ScanChars(s)
    case BadString => Bad
    case Scanned(text, rest) => Parsed(JString(text), rest)
  }

  /** `null`, `true`, `false` or a number. */
  function ParseScalar(s: Bytes): (r: Parse)
    ensures r.Parsed? ==> |r.rest| < |s|
  {
    if StartsWith(s, NULL_TEXT) then Parsed(JNull, s[|NULL_TEXT|..])
    else if StartsWith(s, TRUE_TEXT) then Parsed(JBool(true), s[|TRUE_TEXT|..])
    else if StartsWith(s, FALSE_TEXT) then Parsed(JBool(false), s[|FALSE_TEXT|..])
    else ScanNumber(s)
  }

  /** Whether the bracket just opened is closed at once. */
  predicate ClosesAt(s: Bytes, close: byte) {
    SkipSpace(s) != [] && SkipSpace(s)[0] == close
  }

  function ParseValue(s: Bytes): (r: Parse)
    ensures r.Parsed? ==> |r.rest| < |s|
    decreases |s|, 1
  {
    var t := SkipSpace(s);
    if t == [] then Bad
    else if t[0] == QUOTE then ParseString(t[1..])
    else if t[0] == OPEN_ARRAY then
      if ClosesAt(t[1..], CLOSE_ARRAY) then Parsed(JArray([]), SkipSpace(t[1..])[1..])
      else ParseItems(t[1..], [])
    else if t[0] == OPEN_OBJECT then
      if ClosesAt(t[1..], CLOSE_OBJECT) then Parsed(JObject([]), SkipSpace(t[1..])[1..])
      else ParseFields(t[1..], [])
    else ParseScalar(t)
  }

  /** The items still to come of an array that already holds `before`. */
  function ParseItems(s: Bytes, before: seq<Json>): (r: Parse)
    ensures r.Parsed? ==> |r.rest| < |s|
    decreases |s|, 2
  {
    match ParseValue(s)
    case Bad => Bad
    case Parsed(item, rest) =>
      var t := SkipSpace(rest);
      if t == [] then Bad
      else if t[0] == COMMA then ParseItems(t[1..], before + [item])
      else if t[0] == CLOSE_ARRAY then Parsed(JArray(before + [item]), t[1..])
      else Bad
  }

  datatype FieldParse = ParsedField(key: Bytes, val: Json, rest: Bytes) | BadField

  function ParseField(s: Bytes): (r: FieldParse)
    ensures r.ParsedField? ==> |r.rest| < |s|
    decreases |s|, 2
  {
    var t := SkipSpace(s);
    if t == [] || t[0] != QUOTE then BadField
    else
      match ScanChars(t[1..])
      case BadString => BadField
      case Scanned(key, rest) =>
        var u := SkipSpace(rest);
        if u == [] || u[0] != COLON then BadField
        else
          match ParseValue(u[1..])
          case Bad => BadField
          case Parsed(val, rest') => ParsedField(key, val, rest')
  }

  /** The fields still to come of an object that already holds `before`. */
  function ParseFields(s: Bytes, before: seq<Field>): (r: Parse)
    ensures r.Parsed? ==> |r.rest| < |s|
    decreases |s|, 3
  {
    match ParseField(s)
    case BadField => Bad
    case ParsedField(key, val, rest) =>
      var t := SkipSpace(rest);
      if t == [] then Bad
      else if t[0] == COMMA then ParseFields(t[1..], Put(before, key, val))
      else if t[0] == CLOSE_OBJECT then Parsed(JObject(Put(before, key, val)), t[1..])
      else Bad
  }

  /** A whole document: one value, then the end of the text or a zero byte,
      which the library's scanner also takes for the end. */
  function ParseText(s: Bytes): Option<Json> {
    var body := if StartsWith(s, BYTE_ORDER_MARK) then s[|BYTE_ORDER_MARK|..] else s;
    match ParseValue(body)
    case Bad => None
    case Parsed(j, rest) =>
      var t := SkipSpace(rest);
      if t == [] || t[0] == 0 then Some(j) else None
  }
}
