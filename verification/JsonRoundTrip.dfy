/** The printer and the parser of `Json` are inverse on every value the
    library can hold exactly, and the parser only builds such values. */
module JsonRoundTrip {
  import opened Prelude
  import opened Json
  import Utf8

  // ------------------------------------------------------------ invariants

  /** What holds of every value the parser builds: strings are valid UTF-8,
      object keys are in order, integers are in range. */
  predicate WellFormed(j: Json)
    decreases j, 1
  {
    match j
    case JString(s) => Utf8.Valid(s)
    case JInt(n) => MIN_INT <= n <= MAX_INT
    case JArray(items) => forall i :: 0 <= i < |items| ==> WellFormed(items[i])
    case JObject(fields) => WellFormedFields(fields)
    case _ => true
  }

  predicate WellFormedFields(fields: seq<Field>)
    decreases fields, 0
  {
    Ordered(fields)
    && forall i :: 0 <= i < |fields| ==> Utf8.Valid(fields[i].key) && WellFormed(fields[i].val)
  }

  /** No floating-point number anywhere: the printer of the library may spell those differently. */
  predicate Exact(j: Json)
    decreases j, 1
  {
    match j
    case JFloat(_) => false
    case JArray(items) => forall i :: 0 <= i < |items| ==> Exact(items[i])
    case JObject(fields) => forall i :: 0 <= i < |fields| ==> Exact(fields[i].val)
    case _ => true
  }

  // --------------------------------------------------------------- strings

  lemma HexDigitValue(d: nat)
    requires d < 16
    ensures HexValue(HexDigit(d)) == Some(d)
  {
  }

  lemma ScanControl(c: byte, more: Bytes)
    requires c < 0x20 && |EscapeChar([c])| == 6
    ensures ScanUnit(EscapeChar([c]) + more) == Some(Unit([c], 6))
  {
    HexDigitValue(c / 16);
    HexDigitValue(c % 16);
    var s := EscapeChar([c]) + more;
    assert s[..6] == EscapeChar([c]);
    assert s[0] == BACKSLASH && s[1] == LETTER_U && s[2] == s[3] == ZERO;
    assert s[4] == HexDigit(c / 16) && s[5] == HexDigit(c % 16);
    assert ScanCodeUnit(s) == Some(c);
  }

  lemma ScanEscaped(c: Bytes, more: Bytes)
    requires Utf8.CharLength(c) == |c| > 0
    ensures EscapeChar(c)[0] != QUOTE
    ensures ScanUnit(EscapeChar(c) + more) == Some(Unit(c, |EscapeChar(c)|))
  {
    var s := EscapeChar(c) + more;
    if |c| > 1 || (c[0] >= 0x20 && c[0] != QUOTE && c[0] != BACKSLASH) {
      Utf8.CharLengthStable(c, more);
      assert s[0] == c[0];
      assert s[..|c|] == c;
    } else {
      assert c == [c[0]];
      if |EscapeChar(c)| == 6 {
        ScanControl(c[0], more);
      }
    }
  }

  lemma Regroup(a: Bytes, b: Bytes, rest: Bytes)
    ensures (a + b) + [QUOTE] + rest == a + (b + [QUOTE] + rest)
  {
  }

  lemma ScanOneMore(c: Bytes, s: Bytes, text: Bytes, rest: Bytes)
    requires Utf8.CharLength(c) == |c| > 0 && ScanChars(text + [QUOTE] + rest) == Scanned(s, rest)
    ensures ScanChars((EscapeChar(c) + text) + [QUOTE] + rest) == Scanned(c + s, rest)
  {
    var e, tail := EscapeChar(c), text + [QUOTE] + rest;
    Regroup(e, text, rest);
    ScanEscaped(c, tail);
    assert (e + tail)[0] == e[0] && (e + tail)[|e|..] == tail;
  }

  lemma ScanEmpty(rest: Bytes)
    ensures ScanChars([] + [QUOTE] + rest) == Scanned([], rest)
  {
    assert ([] + [QUOTE] + rest)[1..] == rest;
  }

  lemma {:induction false} ScanDumpedChars(s: Bytes, rest: Bytes)
    requires DumpChars(s).Some?
    ensures ScanChars(DumpChars(s).value + [QUOTE] + rest) == Scanned(s, rest)
    decreases |s|
  {
    if s == [] {
      ScanEmpty(rest);
    } else {
      var n := Utf8.CharLength(s);
      assert s[..n] + s[n..] == s;
      Utf8.CharLengthExact(s);
      ScanDumpedChars(s[n..], rest);
      ScanOneMore(s[..n], s[n..], DumpChars(s[n..]).value, rest);
    }
  }

  /** Printing a string fails exactly on invalid UTF-8. */
  lemma {:induction false} DumpCharsIffValid(s: Bytes)
    ensures DumpChars(s).Some? <==> Utf8.Valid(s)
    decreases |s|
  {
    if s != [] && Utf8.CharLength(s) > 0 {
      DumpCharsIffValid(s[Utf8.CharLength(s)..]);
    }
  }

  lemma {:induction false} ScannedIsValid(s: Bytes)
    ensures ScanChars(s).Scanned? ==> Utf8.Valid(ScanChars(s).text)
    decreases |s|
  {
    if s != [] && s[0] != QUOTE && ScanUnit(s).Some? {
      var u := ScanUnit(s).value;
      ScannedIsValid(s[u.used..]);
      if ScanChars(s[u.used..]).Scanned? {
        ScanUnitIsValid(s);
        Utf8.ValidConcat(u.text, ScanChars(s[u.used..]).text);
      }
    }
  }

  lemma ScanUnitIsValid(s: Bytes)
    requires s != [] && ScanUnit(s).Some?
    ensures Utf8.Valid(ScanUnit(s).value.text)
  {
    var text := ScanUnit(s).value.text;
    if s[0] != BACKSLASH {
      Utf8.CharLengthExact(s);
    }
    Utf8.ValidChar(text);
  }

  // --------------------------------------------------------------- numbers

  lemma {:induction false} DumpNatDigits(n: nat)
    ensures forall i :: 0 <= i < |DumpNat(n)| ==> IsDigit(DumpNat(n)[i])
    ensures DigitsValue(DumpNat(n)) == n
    ensures DumpNat(n)[0] == ZERO <==> n == 0
    ensures n < 10 ==> |DumpNat(n)| == 1
  {
    if n >= 10 {
      DumpNatDigits(n / 10);
      var text := DumpNat(n);
      assert text[..|text| - 1] == DumpNat(n / 10);
    } else {
      assert DumpNat(n)[..0] == [];
    }
  }

  /** What may follow a number without becoming part of it. */
  predicate EndsNumber(rest: Bytes) {
    rest == [] || (!IsDigit(rest[0]) && rest[0] != 46 && rest[0] != 69 && rest[0] != 101)
  }

  lemma {:induction false} DigitRunOf(digits: Bytes, rest: Bytes)
    requires forall i :: 0 <= i < |digits| ==> IsDigit(digits[i])
    requires EndsNumber(rest)
    ensures DigitRun(digits + rest) == |digits|
  {
    if digits == [] {
      assert digits + rest == rest;
    } else {
      assert (digits + rest)[1..] == digits[1..] + rest;
      assert IsDigit(digits[0]);
      DigitRunOf(digits[1..], rest);
    }
  }

  lemma ExtentOfDigits(n: nat, rest: Bytes)
    requires EndsNumber(rest)
    ensures NumberExtent(DumpNat(n) + rest) == Extent(|DumpNat(n)|, 0)
  {
    var digits := DumpNat(n);
    var body := digits + rest;
    DumpNatDigits(n);
    DigitRunOf(digits, rest);
    assert body[0] == digits[0];
    assert n == 0 ==> |digits| == 1;
    assert body[|digits|..] == rest;
  }

  lemma ScanWhole(s: Bytes, negative: bool, body: Bytes, whole: nat)
    requires s != [] && (negative <==> s[0] == MINUS) && body == (if negative then s[1..] else s)
    requires NumberExtent(body) == Extent(whole, 0)
    requires MIN_INT <= Negated(negative, DigitsValue(body[..whole])) <= MAX_INT
    ensures ScanNumber(s) == Parsed(JInt(Negated(negative, DigitsValue(body[..whole]))), body[whole..])
  {
  }

  lemma ScanSigned(sign: Bytes, digits: Bytes, value: nat, rest: Bytes)
    requires sign == [] || sign == [MINUS]
    requires digits != [] && digits[0] != MINUS && NumberExtent(digits + rest) == Extent(|digits|, 0)
    requires forall i :: 0 <= i < |digits| ==> IsDigit(digits[i])
    requires DigitsValue(digits) == value && MIN_INT <= Negated(sign != [], value) <= MAX_INT
    ensures ScanNumber(sign + (digits + rest)) == Parsed(JInt(Negated(sign != [], value)), rest)
  {
    var body := digits + rest;
    var s := sign + body;
    assert s[0] == (if sign == [] then digits[0] else MINUS);
    assert body == (if sign == [] then s else s[1..]);
    assert body[..|digits|] == digits && body[|digits|..] == rest;
    ScanWhole(s, sign != [], body, |digits|);
  }

  lemma ScanDumpedNat(sign: Bytes, value: nat, rest: Bytes)
    requires (sign == [] || sign == [MINUS]) && EndsNumber(rest)
    requires MIN_INT <= Negated(sign != [], value) <= MAX_INT
    ensures ScanNumber(sign + (DumpNat(value) + rest)) == Parsed(JInt(Negated(sign != [], value)), rest)
  {
    DumpNatDigits(value);
    assert IsDigit(DumpNat(value)[0]);
    ExtentOfDigits(value, rest);
    ScanSigned(sign, DumpNat(value), value, rest);
  }

  lemma ScanDumpedInt(n: int, rest: Bytes)
    requires MIN_INT <= n <= MAX_INT && EndsNumber(rest)
    ensures ScanNumber(DumpInt(n) + rest) == Parsed(JInt(n), rest)
  {
    if n < 0 {
      ScanDumpedNat([MINUS], -n, rest);
      SignFirst([MINUS], DumpNat(-n), rest);
    } else {
      ScanDumpedNat([], n, rest);
      SignFirst([], DumpNat(n), rest);
    }
  }

  lemma SignFirst(sign: Bytes, digits: Bytes, rest: Bytes)
    ensures sign + (digits + rest) == (sign + digits) + rest
    ensures [] + digits == digits
  {
  }

  // --------------------------------------------------------------- objects

  lemma {:induction false} LessIsStrict(a: Bytes, b: Bytes)
    requires Less(a, b)
    ensures a != b && !Less(b, a)
    decreases |a|
  {
    if a != [] && a[0] == b[0] {
      LessIsStrict(a[1..], b[1..]);
    }
  }

  lemma {:induction false} LessIsTotal(a: Bytes, b: Bytes)
    ensures a == b || Less(a, b) || Less(b, a)
    decreases |a|
  {
    if a != [] && b != [] && a[0] == b[0] {
      LessIsTotal(a[1..], b[1..]);
      if a[1..] == b[1..] {
        assert a == [a[0]] + a[1..] && b == [b[0]] + b[1..];
      }
    }
  }

  lemma {:induction false} LessIsTransitive(a: Bytes, b: Bytes, c: Bytes)
    requires Less(a, b) && Less(b, c)
    ensures Less(a, c)
    decreases |a|
  {
    if a != [] && a[0] == b[0] == c[0] {
      LessIsTransitive(a[1..], b[1..], c[1..]);
    }
  }

  /** A key past every key present goes to the end. */
  lemma {:induction false} PutLast(fields: seq<Field>, key: Bytes, val: Json)
    requires Ordered(fields + [Field(key, val)])
    ensures Put(fields, key, val) == fields + [Field(key, val)]
  {
    if fields != [] {
      var all := fields + [Field(key, val)];
      assert Less(all[0].key, all[|fields|].key);
      LessIsStrict(fields[0].key, key);
      assert fields[1..] + [Field(key, val)] == all[1..];
      PutLast(fields[1..], key, val);
    }
  }

  lemma {:induction false} PutKeepsOrder(fields: seq<Field>, key: Bytes, val: Json)
    requires Ordered(fields)
    ensures Ordered(Put(fields, key, val))
    ensures forall f :: f in Put(fields, key, val) ==> f == Field(key, val) || f in fields
  {
    if fields == [] || fields[0].key == key {
    } else if Less(key, fields[0].key) {
      forall i | 0 < i < |fields| ensures Less(key, fields[i].key) {
        LessIsTransitive(key, fields[0].key, fields[i].key);
      }
    } else {
      LessIsTotal(key, fields[0].key);
      PutKeepsOrder(fields[1..], key, val);
      var tail := Put(fields[1..], key, val);
      forall i | 0 <= i < |tail| ensures Less(fields[0].key, tail[i].key) {
        assert tail[i] in tail;
      }
    }
  }

  // ---------------------------------------------------------- the round trip

  lemma SkipNothing(s: Bytes)
    requires s == [] || !IsSpace(s[0])
    ensures SkipSpace(s) == s
  {
  }

  /** The first byte of printed text decides which branch of the parser reads it. */
  lemma DumpStarts(j: Json)
    requires Exact(j) && Dump(j).Some?
    ensures var text := Dump(j).value;
            text != [] && !IsSpace(text[0]) && text[0] != CLOSE_ARRAY && text[0] != CLOSE_OBJECT
            && (j.JInt? ==> IsDigit(text[0]) || text[0] == MINUS)
  {
    if j.JInt? {
      var magnitude: nat := if j.n < 0 then -j.n else j.n;
      DumpNatDigits(magnitude);
      assert IsDigit(DumpNat(magnitude)[0]);
    }
  }

  lemma ParseValueQuote(t: Bytes, text: Bytes, rest: Bytes)
    requires t != [] && t[0] == QUOTE && ScanChars(t[1..]) == Scanned(text, rest)
    ensures ParseValue(t) == Parsed(JString(text), rest)
  {
    SkipNothing(t);
  }

  lemma ParseValueScalar(t: Bytes)
    requires t != [] && !IsSpace(t[0]) && t[0] != QUOTE && t[0] != OPEN_ARRAY && t[0] != OPEN_OBJECT
    ensures ParseValue(t) == ParseScalar(t)
  {
    SkipNothing(t);
  }

  /** Printed strings in place: what stands after the opening quote. */
  lemma AfterQuote(text: Bytes, rest: Bytes)
    ensures var t := [QUOTE] + text + [QUOTE] + rest;
            t != [] && t[0] == QUOTE && t[1..] == text + [QUOTE] + rest
  {
  }

  lemma ScanDumpedString(s: Bytes, rest: Bytes)
    requires DumpString(s).Some?
    ensures var t := DumpString(s).value + rest;
            t != [] && t[0] == QUOTE && ScanChars(t[1..]) == Scanned(s, rest)
  {
    AfterQuote(DumpChars(s).value, rest);
    ScanDumpedChars(s, rest);
  }

  lemma ParseDumpedString(s: Bytes, rest: Bytes)
    requires DumpString(s).Some?
    ensures ParseValue(DumpString(s).value + rest) == Parsed(JString(s), rest)
  {
    var t := DumpString(s).value + rest;
    ScanDumpedString(s, rest);
    ParseValueQuote(t, s, rest);
  }

  lemma ParseDumpedWord(word: Bytes, rest: Bytes)
    requires word == NULL_TEXT || word == TRUE_TEXT || word == FALSE_TEXT
    ensures ParseValue(word + rest) == Parsed(if word == NULL_TEXT then JNull else JBool(word == TRUE_TEXT), rest)
  {
    var t := word + rest;
    assert t[0] == word[0];
    ParseValueScalar(t);
    assert t[..|word|] == word && t[|word|..] == rest;
    WordsDiffer(t);
  }

  lemma WordsDiffer(t: Bytes)
    ensures StartsWith(t, NULL_TEXT) ==> t[0] == 110
    ensures StartsWith(t, TRUE_TEXT) ==> t[0] == 116
    ensures StartsWith(t, FALSE_TEXT) ==> t[0] == 102
  {
    assert StartsWith(t, NULL_TEXT) ==> t[..4][0] == t[0];
    assert StartsWith(t, TRUE_TEXT) ==> t[..4][0] == t[0];
    assert StartsWith(t, FALSE_TEXT) ==> t[..5][0] == t[0];
  }

  lemma ParseDumpedInt(n: int, rest: Bytes)
    requires MIN_INT <= n <= MAX_INT && EndsNumber(rest)
    ensures ParseValue(DumpInt(n) + rest) == Parsed(JInt(n), rest)
  {
    var t := DumpInt(n) + rest;
    DumpStarts(JInt(n));
    assert t[0] == DumpInt(n)[0];
    ParseValueScalar(t);
    ScanDumpedInt(n, rest);
    WordsDiffer(t);
  }

  lemma ParseDumpedEmpty(open: byte, close: byte, rest: Bytes)
    requires (open == OPEN_ARRAY && close == CLOSE_ARRAY) || (open == OPEN_OBJECT && close == CLOSE_OBJECT)
    ensures ParseValue([open, close] + rest) == Parsed(if open == OPEN_ARRAY then JArray([]) else JObject([]), rest)
  {
    var t := [open, close] + rest;
    SkipNothing(t);
    assert t[1..] == [close] + rest;
    SkipNothing(t[1..]);
    assert t[1..][1..] == rest;
  }

  lemma ParseValueOpenArray(t: Bytes)
    requires t != [] && t[0] == OPEN_ARRAY && !ClosesAt(t[1..], CLOSE_ARRAY)
    ensures ParseValue(t) == ParseItems(t[1..], [])
  {
    SkipNothing(t);
  }

  lemma ParseValueOpenObject(t: Bytes)
    requires t != [] && t[0] == OPEN_OBJECT && !ClosesAt(t[1..], CLOSE_OBJECT)
    ensures ParseValue(t) == ParseFields(t[1..], [])
  {
    SkipNothing(t);
  }

  /** The main round trip, in the context the parser meets inside a document. */
  lemma {:induction false} ParseDumped(j: Json, rest: Bytes)
    requires WellFormed(j) && Exact(j) && Dump(j).Some? && EndsNumber(rest)
    ensures ParseValue(Dump(j).value + rest) == Parsed(j, rest)
    decreases j, 1
  {
    match j
    case JString(s) =>
      ParseDumpedString(s, rest);
    case JArray(items) =>
      ParseDumpedArray(items, rest);
    case JObject(fields) =>
      ParseDumpedObject(fields, rest);
    case JNull =>
      ParseDumpedWord(NULL_TEXT, rest);
    case JBool(b) =>
      ParseDumpedWord(if b then TRUE_TEXT else FALSE_TEXT, rest);
    case JInt(n) =>
      ParseDumpedInt(n, rest);
  }

  lemma {:induction false} ParseDumpedArray(items: seq<Json>, rest: Bytes)
    requires DumpItems(items).Some?
    requires forall i :: 0 <= i < |items| ==> WellFormed(items[i]) && Exact(items[i])
    ensures ParseValue([OPEN_ARRAY] + DumpItems(items).value + [CLOSE_ARRAY] + rest) == Parsed(JArray(items), rest)
    decreases items, 1
  {
    var t := [OPEN_ARRAY] + DumpItems(items).value + [CLOSE_ARRAY] + rest;
    if items == [] {
      ParseDumpedEmpty(OPEN_ARRAY, CLOSE_ARRAY, rest);
      assert t == [OPEN_ARRAY, CLOSE_ARRAY] + rest;
    } else {
      var inner := DumpItems(items).value + [CLOSE_ARRAY] + rest;
      assert t[1..] == inner;
      DumpStarts(items[0]);
      assert inner[0] == Dump(items[0]).value[0];
      SkipNothing(inner);
      ParseValueOpenArray(t);
      ParseDumpedItems(items, [], rest);
      assert [] + items == items;
    }
  }

  lemma {:induction false} ParseDumpedObject(fields: seq<Field>, rest: Bytes)
    requires DumpFields(fields).Some? && Ordered(fields)
    requires forall i :: 0 <= i < |fields| ==> WellFormed(fields[i].val) && Exact(fields[i].val)
    ensures ParseValue([OPEN_OBJECT] + DumpFields(fields).value + [CLOSE_OBJECT] + rest) == Parsed(JObject(fields), rest)
    decreases fields, 1
  {
    var t := [OPEN_OBJECT] + DumpFields(fields).value + [CLOSE_OBJECT] + rest;
    if fields == [] {
      ParseDumpedEmpty(OPEN_OBJECT, CLOSE_OBJECT, rest);
      assert t == [OPEN_OBJECT, CLOSE_OBJECT] + rest;
    } else {
      var inner := DumpFields(fields).value + [CLOSE_OBJECT] + rest;
      assert t[1..] == inner;
      assert inner[0] == QUOTE;
      SkipNothing(inner);
      ParseValueOpenObject(t);
      assert [] + fields == fields;
      ParseDumpedFields(fields, [], rest);
    }
  }

  lemma LastItem(item: Json, text: Bytes, before: seq<Json>, rest: Bytes)
    requires ParseValue(text + ([CLOSE_ARRAY] + rest)) == Parsed(item, [CLOSE_ARRAY] + rest)
    ensures ParseItems(text + [CLOSE_ARRAY] + rest, before) == Parsed(JArray(before + [item]), rest)
  {
    var tail := [CLOSE_ARRAY] + rest;
    assert text + [CLOSE_ARRAY] + rest == text + tail;
    SkipNothing(tail);
    assert tail[1..] == rest;
  }

  /** Pushes what follows a comma-separated list into its last element. */
  lemma RegroupList(head: Bytes, inner: Bytes, close: byte, rest: Bytes)
    ensures (head + [COMMA] + inner) + [close] + rest == head + ([COMMA] + (inner + [close] + rest))
  {
  }

  lemma OneMoreItem(item: Json, items: seq<Json>, text: Bytes, inner: Bytes, before: seq<Json>, rest: Bytes)
    requires var tail := [COMMA] + (inner + [CLOSE_ARRAY] + rest);
             ParseValue(text + tail) == Parsed(item, tail)
    requires ParseItems(inner + [CLOSE_ARRAY] + rest, before + [item]) == Parsed(JArray(before + [item] + items), rest)
    ensures ParseItems((text + [COMMA] + inner) + [CLOSE_ARRAY] + rest, before) == Parsed(JArray(before + ([item] + items)), rest)
  {
    RegroupList(text, inner, CLOSE_ARRAY, rest);
    var tail := [COMMA] + (inner + [CLOSE_ARRAY] + rest);
    SkipNothing(tail);
    assert tail[1..] == inner + [CLOSE_ARRAY] + rest;
    assert before + [item] + items == before + ([item] + items);
  }

  lemma {:induction false} ParseDumpedItems(items: seq<Json>, before: seq<Json>, rest: Bytes)
    requires items != [] && DumpItems(items).Some?
    requires forall i :: 0 <= i < |items| ==> WellFormed(items[i]) && Exact(items[i])
    ensures ParseItems(DumpItems(items).value + [CLOSE_ARRAY] + rest, before) == Parsed(JArray(before + items), rest)
    decreases items, 0
  {
    var head := Dump(items[0]).value;
    if |items| == 1 {
      assert items == [items[0]];
      ParseDumped(items[0], [CLOSE_ARRAY] + rest);
      LastItem(items[0], head, before, rest);
    } else {
      assert items == [items[0]] + items[1..];
      var inner := DumpItems(items[1..]).value;
      ParseDumped(items[0], [COMMA] + (inner + [CLOSE_ARRAY] + rest));
      ParseDumpedItems(items[1..], before + [items[0]], rest);
      OneMoreItem(items[0], items[1..], head, inner, before, rest);
    }
  }

  lemma ParseFieldParts(t: Bytes, key: Bytes, val: Json, tail: Bytes, rest: Bytes)
    requires t != [] && t[0] == QUOTE && ScanChars(t[1..]) == Scanned(key, [COLON] + tail)
    requires ParseValue(tail) == Parsed(val, rest)
    ensures ParseField(t) == ParsedField(key, val, rest)
  {
    SkipNothing(t);
    var u := [COLON] + tail;
    SkipNothing(u);
    assert u[1..] == tail;
  }

  lemma {:induction false} ParseDumpedField(f: Field, rest: Bytes)
    requires DumpField(f).Some? && WellFormed(f.val) && Exact(f.val) && EndsNumber(rest)
    ensures ParseField(DumpField(f).value + rest) == ParsedField(f.key, f.val, rest)
    decreases f, 2
  {
    var val := Dump(f.val).value + rest;
    var t := DumpField(f).value + rest;
    var tail := [COLON] + val;
    assert t == DumpString(f.key).value + tail;
    ScanDumpedString(f.key, tail);
    ParseDumped(f.val, rest);
    ParseFieldParts(t, f.key, f.val, val, rest);
  }

  lemma LastField(f: Field, text: Bytes, before: seq<Field>, rest: Bytes)
    requires ParseField(text + ([CLOSE_OBJECT] + rest)) == ParsedField(f.key, f.val, [CLOSE_OBJECT] + rest)
    requires Put(before, f.key, f.val) == before + [f]
    ensures ParseFields(text + [CLOSE_OBJECT] + rest, before) == Parsed(JObject(before + [f]), rest)
  {
    var tail := [CLOSE_OBJECT] + rest;
    assert text + [CLOSE_OBJECT] + rest == text + tail;
    SkipNothing(tail);
    assert tail[1..] == rest;
  }

  /** A field followed by a comma hands over to the fields after it. */
  lemma AfterComma(s: Bytes, f: Field, before: seq<Field>, u: Bytes)
    requires ParseField(s) == ParsedField(f.key, f.val, [COMMA] + u)
    ensures ParseFields(s, before) == ParseFields(u, Put(before, f.key, f.val))
  {
    SkipNothing([COMMA] + u);
    assert ([COMMA] + u)[1..] == u;
  }

  lemma OrderedPrefix(before: seq<Field>, fields: seq<Field>)
    requires fields != [] && Ordered(before + fields)
    ensures before + fields == (before + [fields[0]]) + fields[1..]
    ensures Put(before, fields[0].key, fields[0].val) == before + [fields[0]]
  {
    var grown := before + [fields[0]];
    assert forall i :: 0 <= i < |grown| ==> grown[i] == (before + fields)[i];
    PutLast(before, fields[0].key, fields[0].val);
  }

  lemma {:induction false} ParseDumpedFields(fields: seq<Field>, before: seq<Field>, rest: Bytes)
    requires fields != [] && DumpFields(fields).Some? && Ordered(before + fields)
    requires forall i :: 0 <= i < |fields| ==> WellFormed(fields[i].val) && Exact(fields[i].val)
    ensures ParseFields(DumpFields(fields).value + [CLOSE_OBJECT] + rest, before)
         == Parsed(JObject(before + fields), rest)
    decreases fields, 0
  {
    var f := fields[0];
    var head := DumpField(f).value;
    OrderedPrefix(before, fields);
    if |fields| == 1 {
      ParseDumpedField(f, [CLOSE_OBJECT] + rest);
      LastField(f, head, before, rest);
      assert fields == [f];
    } else {
      var inner := DumpFields(fields[1..]).value;
      var u := inner + [CLOSE_OBJECT] + rest;
      RegroupList(head, inner, CLOSE_OBJECT, rest);
      ParseDumpedField(f, [COMMA] + u);
      AfterComma(head + ([COMMA] + u), f, before, u);
      ParseDumpedFields(fields[1..], before + [f], rest);
    }
  }

  /** Every string and every key is valid UTF-8. */
  predicate AllUtf8(j: Json)
    decreases j, 1
  {
    match j
    case JString(s) => Utf8.Valid(s)
    case JArray(items) => forall i :: 0 <= i < |items| ==> AllUtf8(items[i])
    case JObject(fields) => forall i :: 0 <= i < |fields| ==> Utf8.Valid(fields[i].key) && AllUtf8(fields[i].val)
    case _ => true
  }

  lemma {:induction false} DumpItemsIff(items: seq<Json>)
    ensures DumpItems(items).Some? <==> forall i :: 0 <= i < |items| ==> Dump(items[i]).Some?
  {
    if items != [] {
      DumpItemsIff(items[1..]);
      assert forall i :: 0 < i < |items| ==> items[i] == items[1..][i - 1];
      assert forall i :: 0 <= i < |items| - 1 ==> items[1..][i] == items[i + 1];
    }
  }

  lemma {:induction false} DumpFieldsIff(fields: seq<Field>)
    ensures DumpFields(fields).Some? <==> forall i :: 0 <= i < |fields| ==> DumpField(fields[i]).Some?
  {
    if fields != [] {
      DumpFieldsIff(fields[1..]);
      assert forall i :: 0 < i < |fields| ==> fields[i] == fields[1..][i - 1];
      assert forall i :: 0 <= i < |fields| - 1 ==> fields[1..][i] == fields[i + 1];
    }
  }

  /** Printing fails exactly on a string or key that is not valid UTF-8. */
  lemma {:induction false} DumpIffUtf8(j: Json)
    ensures Dump(j).Some? <==> AllUtf8(j)
    decreases j
  {
    match j
    case JString(s) => DumpCharsIffValid(s);
    case JArray(items) =>
      DumpItemsIff(items);
      forall i | 0 <= i < |items| ensures Dump(items[i]).Some? <==> AllUtf8(items[i]) {
        DumpIffUtf8(items[i]);
      }
    case JObject(fields) =>
      DumpFieldsIff(fields);
      forall i | 0 <= i < |fields|
        ensures DumpField(fields[i]).Some? <==> Utf8.Valid(fields[i].key) && AllUtf8(fields[i].val)
      {
        DumpCharsIffValid(fields[i].key);
        DumpIffUtf8(fields[i].val);
      }
    case _ =>
  }

  /** Printing a well-formed value never fails. */
  lemma {:induction false} DumpSucceeds(j: Json)
    requires WellFormed(j)
    ensures Dump(j).Some?
    decreases j, 1
  {
    match j
    case JString(s) => DumpCharsIffValid(s);
    case JArray(items) => DumpItemsSucceeds(items);
    case JObject(fields) => DumpFieldsSucceeds(fields);
    case _ =>
  }

  lemma {:induction false} DumpItemsSucceeds(items: seq<Json>)
    requires forall i :: 0 <= i < |items| ==> WellFormed(items[i])
    ensures DumpItems(items).Some?
    decreases items, 0
  {
    if items != [] {
      DumpSucceeds(items[0]);
      DumpItemsSucceeds(items[1..]);
    }
  }

  lemma {:induction false} DumpFieldsSucceeds(fields: seq<Field>)
    requires forall i :: 0 <= i < |fields| ==> Utf8.Valid(fields[i].key) && WellFormed(fields[i].val)
    ensures DumpFields(fields).Some?
    decreases fields, 0
  {
    if fields != [] {
      DumpCharsIffValid(fields[0].key);
      DumpSucceeds(fields[0].val);
      DumpFieldsSucceeds(fields[1..]);
    }
  }

  lemma NoByteOrderMark(j: Json)
    requires Exact(j) && Dump(j).Some?
    ensures Dump(j).value[0] != 0xEF
  {
    DumpStarts(j);
    var text := Dump(j).value;
    assert j.JInt? && text[0] != MINUS ==> IsDigit(text[0]);
  }

  lemma ParseWhole(text: Bytes, j: Json)
    requires text != [] && text[0] != 0xEF && ParseValue(text) == Parsed(j, [])
    ensures ParseText(text) == Some(j)
  {
    if |text| >= 3 {
      assert text[..3][0] == text[0];
    }
  }

  /** Parsing what was printed gives the value back, for every value without floating point. */
  lemma RoundTrip(j: Json)
    requires WellFormed(j) && Exact(j)
    ensures Dump(j).Some? && ParseText(Dump(j).value) == Some(j)
  {
    DumpSucceeds(j);
    NoByteOrderMark(j);
    DumpStarts(j);
    ParseDumped(j, []);
    var text := Dump(j).value;
    assert text + [] == text;
    ParseWhole(text, j);
  }

  // ------------------------------------------------- what the parser builds

  lemma {:induction false} ParsedIsWellFormed(s: Bytes)
    ensures ParseValue(s).Parsed? ==> WellFormed(ParseValue(s).value)
    decreases |s|, 1
  {
    var t := SkipSpace(s);
    if t != [] {
      if t[0] == QUOTE {
        ScannedIsValid(t[1..]);
      } else if t[0] == OPEN_ARRAY {
        ParsedItemsAreWellFormed(t[1..], []);
      } else if t[0] == OPEN_OBJECT {
        ParsedFieldsAreWellFormed(t[1..], []);
      }
    }
  }

  lemma {:induction false} ParsedItemsAreWellFormed(s: Bytes, before: seq<Json>)
    requires forall i :: 0 <= i < |before| ==> WellFormed(before[i])
    ensures ParseItems(s, before).Parsed? ==> WellFormed(ParseItems(s, before).value)
    decreases |s|, 2
  {
    ParsedIsWellFormed(s);
    var r := ParseValue(s);
    if r.Parsed? {
      var t := SkipSpace(r.rest);
      if t != [] && t[0] == COMMA {
        ParsedItemsAreWellFormed(t[1..], before + [r.value]);
      }
    }
  }

  lemma {:induction false} ParsedFieldsAreWellFormed(s: Bytes, before: seq<Field>)
    requires WellFormedFields(before)
    ensures ParseFields(s, before).Parsed? ==> WellFormed(ParseFields(s, before).value)
    decreases |s|, 3
  {
    var r := ParseField(s);
    if r.ParsedField? {
      var t := SkipSpace(s);
      ScannedIsValid(t[1..]);
      var u := SkipSpace(ScanChars(t[1..]).rest);
      ParsedIsWellFormed(u[1..]);
      PutKeepsWellFormed(before, r.key, r.val);
      var v := SkipSpace(r.rest);
      if v != [] && v[0] == COMMA {
        ParsedFieldsAreWellFormed(v[1..], Put(before, r.key, r.val));
      }
    }
  }

  lemma PutKeepsWellFormed(fields: seq<Field>, key: Bytes, val: Json)
    requires WellFormedFields(fields) && Utf8.Valid(key) && WellFormed(val)
    ensures WellFormedFields(Put(fields, key, val))
  {
    PutKeepsOrder(fields, key, val);
    var after := Put(fields, key, val);
    forall i | 0 <= i < |after| ensures Utf8.Valid(after[i].key) && WellFormed(after[i].val) {
      assert after[i] in after;
    }
  }

  /** An object with one field holds what its value and key hold. */
  lemma OneFieldObject(key: Bytes, val: Json)
    requires Utf8.Valid(key)
    ensures Put([], key, val) == [Field(key, val)] && At([Field(key, val)], key) == Some(val)
    ensures WellFormed(val) ==> WellFormed(JObject([Field(key, val)]))
    ensures Exact(val) ==> Exact(JObject([Field(key, val)]))
  {
    var fields := [Field(key, val)];
    assert forall i :: 0 <= i < |fields| ==> fields[i] == Field(key, val);
  }
}
