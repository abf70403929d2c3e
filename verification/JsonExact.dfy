/** The parser accepts exactly the texts of the grammar, with exactly their values. */
module JsonExact {
  import opened Prelude
  import opened Json
  import opened JsonGrammar
  import opened JsonRoundTrip
  import Utf8

  // ---------------------------------------------------------------- white space

  lemma {:induction false} SkipBlank(before: Bytes, more: Bytes)
    requires Blank(before)
    ensures SkipSpace(before + more) == SkipSpace(more)
  {
    if before == [] {
      assert before + more == more;
    } else {
      assert IsBlank(before[0]);
      assert (before + more)[1..] == before[1..] + more;
      SkipBlank(before[1..], more);
    }
  }

  lemma {:induction false} SkippedIsBlank(s: Bytes) returns (before: Bytes)
    ensures Blank(before) && s == before + SkipSpace(s)
  {
    before := [];
    if s != [] && IsSpace(s[0]) {
      var rest := SkippedIsBlank(s[1..]);
      before := [s[0]] + rest;
      Associates([s[0]], rest, SkipSpace(s));
    }
  }

  lemma ParseBlank(before: Bytes, more: Bytes)
    requires Blank(before)
    ensures ParseValue(before + more) == ParseValue(more)
  {
    SkipBlank(before, more);
  }

  /** A byte that is no white space, after white space. */
  lemma SkipTo(before: Bytes, b: byte, more: Bytes)
    requires Blank(before) && !IsBlank(b)
    ensures SkipSpace(before + ([b] + more)) == [b] + more && ([b] + more)[1..] == more
  {
    SkipBlank(before, [b] + more);
  }

  // -------------------------------------------------------------------- strings

  lemma HexScans(d: nat, cap: bool)
    requires d < 16
    ensures HexValue(Hex(d, cap)) == Some(d)
  {
  }

  lemma FourDigits(n: nat)
    requires n < 0x1_0000
    ensures n / 0x1000 < 16
    ensures n == 0x1000 * (n / 0x1000) + 0x100 * (n / 0x100 % 0x10) + 0x10 * (n / 0x10 % 0x10) + n % 0x10
  {
    assert n == 0x10 * (n / 0x10) + n % 0x10;
    assert n / 0x10 == 0x10 * (n / 0x100) + n / 0x10 % 0x10;
    assert n / 0x100 == 0x10 * (n / 0x1000) + n / 0x100 % 0x10;
  }

  lemma EscapeScans(n: nat, caps: seq<bool>, more: Bytes)
    requires n < 0x1_0000 && |caps| == 4
    ensures ScanCodeUnit(UnicodeEscape(n, caps) + more) == Some(n)
  {
    FourDigits(n);
    HexScans(n / 0x1000, caps[0]);
    HexScans(n / 0x100 % 0x10, caps[1]);
    HexScans(n / 0x10 % 0x10, caps[2]);
    HexScans(n % 0x10, caps[3]);
  }

  /** The code point two surrogates stand for. */
  function Paired(high: nat, low: nat): nat
    requires 0xD800 <= high < 0xDC00 && 0xDC00 <= low < 0xE000
  {
    0x1_0000 + (high - 0xD800) * 0x400 + (low - 0xDC00)
  }

  lemma PairOf(code: nat)
    requires 0x1_0000 <= code < 0x11_0000
    ensures Paired(High(code), Low(code)) == code
  {
  }

  lemma OfPair(high: nat, low: nat)
    requires 0xD800 <= high < 0xDC00 && 0xDC00 <= low < 0xE000
    ensures 0x1_0000 <= Paired(high, low) < 0x11_0000
    ensures High(Paired(high, low)) == high && Low(Paired(high, low)) == low
  {
    var offset := (high - 0xD800) * 0x400 + (low - 0xDC00);
    assert offset / 0x400 == high - 0xD800 && offset % 0x400 == low - 0xDC00;
  }

  lemma PairScans(high: nat, low: nat, first: Bytes, second: Bytes, more: Bytes)
    requires 0xD800 <= high < 0xDC00 && 0xDC00 <= low < 0xE000 && |first| == 6
    requires ScanCodeUnit(first + (second + more)) == Some(high) && ScanCodeUnit(second + more) == Some(low)
    ensures ScanUnicodeEscape((first + second) + more)
         == Some(Unit(Utf8.Encode(Paired(high, low)), 12))
  {
    Associates(first, second, more);
    Splits(first, second + more);
  }

  lemma SurrogatesScan(p: Piece, more: Bytes)
    requires IsPiece(p) && p.Surrogates?
    ensures ScanUnicodeEscape(PieceText(p) + more) == Some(Unit(Utf8.Encode(p.code), 12))
  {
    var high, low := High(p.code), Low(p.code);
    var first, second := UnicodeEscape(high, p.caps[..4]), UnicodeEscape(low, p.caps[4..]);
    PairOf(p.code);
    EscapeScans(high, p.caps[..4], second + more);
    EscapeScans(low, p.caps[4..], more);
    PairScans(high, low, first, second, more);
  }

  lemma PlainScans(p: Piece, more: Bytes)
    requires IsPiece(p) && p.Plain?
    ensures ScanUnit(PieceText(p) + more) == Some(Unit(Utf8.Encode(p.code), |PieceText(p)|))
    ensures (PieceText(p) + more)[0] != 34
  {
    var text := Utf8.Encode(p.code);
    Utf8.EncodeDecodes(p.code);
    Utf8.CharLengthStable(text, more);
    assert (text + more)[..|text|] == text && (text + more)[0] == text[0];
  }

  lemma ShortScans(p: Piece, more: Bytes)
    requires IsPiece(p) && p.Short?
    ensures ScanUnit([92, p.letter] + more) == Some(Unit(Utf8.Encode(PieceCode(p)), 2))
  {
    var s := [92, p.letter] + more;
    assert s[0] == 92 && s[1] == p.letter;
  }

  /** A `\u` escape is none of the short ones. */
  lemma UnicodeScans(s: Bytes)
    requires |s| >= 2 && s[0] == 92 && s[1] == 117
    ensures ScanUnit(s) == ScanUnicodeEscape(s)
  {
  }

  lemma EscapedScans(p: Piece, more: Bytes)
    requires IsPiece(p) && p.Escaped?
    ensures ScanUnicodeEscape(PieceText(p) + more) == Some(Unit(Utf8.Encode(p.code), 6))
  {
    EscapeScans(p.code, p.caps, more);
  }

  lemma PieceScans(p: Piece, more: Bytes)
    requires IsPiece(p)
    ensures var s := PieceText(p) + more;
            s[0] != 34 && ScanUnit(s) == Some(Unit(Utf8.Encode(PieceCode(p)), |PieceText(p)|)) && s[|PieceText(p)|..] == more
  {
    Splits(PieceText(p), more);
    match p
    case Plain(_) => PlainScans(p, more);
    case Short(_) => ShortScans(p, more);
    case Escaped(_, _) =>
      EscapedScans(p, more);
      UnicodeScans(PieceText(p) + more);
    case Surrogates(_, _) =>
      SurrogatesScan(p, more);
      UnicodeScans(PieceText(p) + more);
  }

  lemma {:induction false} PiecesScan(pieces: seq<Piece>, rest: Bytes)
    requires ArePieces(pieces)
    ensures ScanChars(CharsText(pieces) + ([34] + rest)) == Scanned(CharsMeaning(pieces), rest)
  {
    if pieces == [] {
      assert [] + ([34] + rest) == [34] + rest && ([34] + rest)[1..] == rest;
    } else {
      var more := CharsText(pieces[1..]) + ([34] + rest);
      Associates(PieceText(pieces[0]), CharsText(pieces[1..]), [34] + rest);
      PieceScans(pieces[0], more);
      PiecesScan(pieces[1..], rest);
    }
  }

  lemma HexIs(b: byte)
    requires HexValue(b).Some?
    ensures HexValue(b).value < 16 && Hex(HexValue(b).value, b < 97) == b
  {
  }

  lemma FromDigits(a: nat, b: nat, c: nat, d: nat)
    requires a < 16 && b < 16 && c < 16 && d < 16
    ensures var n := 0x1000 * a + 0x100 * b + 0x10 * c + d;
            n / 0x1000 == a && n / 0x100 % 0x10 == b && n / 0x10 % 0x10 == c && n % 0x10 == d
  {
    var n := 0x1000 * a + 0x100 * b + 0x10 * c + d;
    assert n / 0x10 == 0x100 * a + 0x10 * b + c;
    assert n / 0x100 == 0x10 * a + b;
  }

  lemma ScannedIsEscape(s: Bytes) returns (caps: seq<bool>)
    requires ScanCodeUnit(s).Some?
    ensures |caps| == 4 && s[..6] == UnicodeEscape(ScanCodeUnit(s).value, caps)
  {
    HexIs(s[2]);
    HexIs(s[3]);
    HexIs(s[4]);
    HexIs(s[5]);
    FromDigits(HexValue(s[2]).value, HexValue(s[3]).value, HexValue(s[4]).value, HexValue(s[5]).value);
    caps := [s[2] < 97, s[3] < 97, s[4] < 97, s[5] < 97];
  }

  lemma PairIs(s: Bytes, high: nat, low: nat, caps: seq<bool>, caps': seq<bool>) returns (p: Piece)
    requires |s| >= 12 && 0xD800 <= high < 0xDC00 && 0xDC00 <= low < 0xE000 && |caps| == 4 && |caps'| == 4
    requires s[..6] == UnicodeEscape(high, caps) && s[6..][..6] == UnicodeEscape(low, caps')
    ensures IsPiece(p) && s[..12] == PieceText(p) && PieceCode(p) == Paired(high, low)
  {
    OfPair(high, low);
    p := Surrogates(Paired(high, low), caps + caps');
    Splits(caps, caps');
    assert s[..12] == s[..6] + s[6..][..6];
  }

  /** What `ScanUnicodeEscape` makes of a high surrogate. */
  lemma PairScanned(s: Bytes, high: nat)
    requires ScanCodeUnit(s) == Some(high) && 0xD800 <= high < 0xDC00 && ScanUnicodeEscape(s).Some?
    ensures ScanCodeUnit(s[6..]).Some? && 0xDC00 <= ScanCodeUnit(s[6..]).value < 0xE000
    ensures ScanUnicodeEscape(s) == Some(Unit(Utf8.Encode(Paired(high, ScanCodeUnit(s[6..]).value)), 12))
  {
  }

  lemma ScannedIsUnicode(s: Bytes) returns (p: Piece)
    requires ScanUnicodeEscape(s).Some?
    ensures var u := ScanUnicodeEscape(s).value;
            IsPiece(p) && s[..u.used] == PieceText(p) && u.text == Utf8.Encode(PieceCode(p))
  {
    var caps := ScannedIsEscape(s);
    var high := ScanCodeUnit(s).value;
    if 0xD800 <= high < 0xDC00 {
      PairScanned(s, high);
      var low := ScanCodeUnit(s[6..]).value;
      var caps' := ScannedIsEscape(s[6..]);
      p := PairIs(s, high, low, caps, caps');
    } else {
      p := Escaped(high, caps);
    }
  }

  lemma ScannedIsPiece(s: Bytes) returns (p: Piece)
    requires s != [] && s[0] != 34 && ScanUnit(s).Some?
    ensures var u := ScanUnit(s).value;
            IsPiece(p) && s[..u.used] == PieceText(p) && u.text == Utf8.Encode(PieceCode(p))
  {
    if s[0] == 92 {
      if s[1] == 117 {
        p := ScannedIsUnicode(s);
      } else {
        p := Short(s[1]);
        assert s[..2] == [92, s[1]];
      }
    } else {
      var c := s[..Utf8.CharLength(s)];
      Utf8.CharLengthExact(s);
      Utf8.DecodeEncodes(c);
      p := Plain(Utf8.CodePoint(c));
      PlainCode(c);
    }
  }

  lemma PlainCode(c: Bytes)
    requires Utf8.CharLength(c) == |c| > 0 && c[0] >= 0x20 && c[0] != 34 && c[0] != 92
    ensures Utf8.CodePoint(c) >= 0x20 && Utf8.CodePoint(c) != 34 && Utf8.CodePoint(c) != 92
  {
  }

  /** One more piece in front of scanned ones. */
  lemma OneMorePiece(s: Bytes, used: nat, p: Piece, more: seq<Piece>, end: Bytes) returns (pieces: seq<Piece>)
    requires used <= |s| && IsPiece(p) && ArePieces(more)
    requires s[..used] == PieceText(p) && s[used..] == CharsText(more) + end
    ensures ArePieces(pieces) && s == CharsText(pieces) + end
    ensures CharsMeaning(pieces) == Utf8.Encode(PieceCode(p)) + CharsMeaning(more)
  {
    pieces := [p] + more;
    assert pieces[1..] == more;
    assert s == s[..used] + s[used..];
    Associates(PieceText(p), CharsText(more), end);
  }

  lemma {:induction false} ScannedArePieces(s: Bytes) returns (pieces: seq<Piece>)
    requires ScanChars(s).Scanned?
    ensures ArePieces(pieces) && s == CharsText(pieces) + ([34] + ScanChars(s).rest)
    ensures ScanChars(s).text == CharsMeaning(pieces)
    decreases |s|
  {
    if s[0] == 34 {
      pieces := [];
      assert s == [34] + s[1..];
    } else {
      var u := ScanUnit(s).value;
      var rest := s[u.used..];
      var p := ScannedIsPiece(s);
      var more := ScannedArePieces(rest);
      assert ScanChars(s).rest == ScanChars(rest).rest;
      pieces := OneMorePiece(s, u.used, p, more, [34] + ScanChars(rest).rest);
    }
  }

  // -------------------------------------------------------------------- numbers

  /** What stops a run of digits. */
  predicate EndsDigits(rest: Bytes) {
    rest == [] || !IsDigit(rest[0])
  }

  lemma {:induction false} RunOf(digits: Bytes, rest: Bytes)
    requires AreDigits(digits) && EndsDigits(rest)
    ensures DigitRun(digits + rest) == |digits|
  {
    if digits == [] {
      assert digits + rest == rest;
    } else {
      assert (digits + rest)[1..] == digits[1..] + rest;
      RunOf(digits[1..], rest);
    }
  }

  lemma TimesTen(a: nat, b: nat)
    ensures a * (10 * b) == 10 * (a * b)
  {
  }

  lemma {:induction false} DecimalAppended(digits: Bytes, d: byte)
    requires AreDigits(digits) && 48 <= d <= 57
    ensures AreDigits(digits + [d]) && Decimal(digits + [d]) == 10 * Decimal(digits) + (d as nat - 48)
  {
    var all := digits + [d];
    if digits == [] {
      var one: Bytes := [d];
      assert all == one && one[1..] == [];
    } else {
      var k := |digits| - 1;
      var first, rest := digits[0] as nat - 48, digits[1..];
      assert all[1..] == rest + [d] && all[0] == digits[0];
      DecimalAppended(rest, d);
      assert Pow10(k + 1) == 10 * Pow10(k);
      TimesTen(first, Pow10(k));
      assert Decimal(digits) == first * Pow10(k) + Decimal(rest);
    }
  }

  /** The scanner's value of a run of digits is its decimal value. */
  lemma {:induction false} ValueIsDecimal(digits: Bytes)
    requires AreDigits(digits)
    ensures (forall i :: 0 <= i < |digits| ==> IsDigit(digits[i])) && DigitsValue(digits) == Decimal(digits)
  {
    if digits != [] {
      var n := |digits| - 1;
      ValueIsDecimal(digits[..n]);
      DecimalAppended(digits[..n], digits[n]);
      assert digits[..n] + [digits[n]] == digits;
    }
  }

  lemma FractionScans(fraction: Bytes, rest: Bytes)
    requires IsFraction(fraction) && EndsDigits(rest) && (rest == [] || rest[0] != 46)
    ensures FractionLength(fraction + rest) == Some(|fraction|)
  {
    if fraction == [] {
      assert fraction + rest == rest;
    } else {
      assert (fraction + rest)[1..] == fraction[1..] + rest;
      RunOf(fraction[1..], rest);
    }
  }

  lemma ExponentScans(exponent: Bytes, rest: Bytes)
    requires IsExponent(exponent) && EndsNumber(rest)
    ensures ExponentLength(exponent + rest) == Some(|exponent|)
  {
    var s := exponent + rest;
    if exponent == [] {
      assert s == rest;
    } else {
      var sign := if exponent[1] == 43 || exponent[1] == 45 then 2 else 1;
      assert exponent[1..][0] == exponent[1] == s[1];
      assert s[sign..] == exponent[sign..] + rest;
      RunOf(exponent[sign..], rest);
    }
  }

  lemma ExtentFrom(body: Bytes, whole: nat, fraction: nat, exponent: nat)
    requires DigitRun(body) > 0 && whole == if body[0] == 48 then 1 else DigitRun(body)
    requires FractionLength(body[whole..]) == Some(fraction)
    requires ExponentLength(body[whole..][fraction..]) == Some(exponent)
    ensures NumberExtent(body) == Extent(whole, fraction + exponent)
  {
  }

  lemma WholeScans(whole: Bytes, tail: Bytes)
    requires whole != [] && AreDigits(whole) && (whole[0] == 48 ==> |whole| == 1) && EndsDigits(tail)
    ensures var body := whole + tail; DigitRun(body) == |whole| && |whole| == if body[0] == 48 then 1 else DigitRun(body)
  {
    RunOf(whole, tail);
  }

  lemma ExtentScans(n: Number, rest: Bytes)
    requires IsNumber(n) && EndsNumber(rest)
    ensures NumberExtent(Unsigned(n) + rest) == Extent(|n.whole|, |n.fraction| + |n.exponent|)
  {
    var end := n.exponent + rest;
    var tail := n.fraction + end;
    Associates(n.whole, n.fraction + n.exponent, rest);
    Associates(n.fraction, n.exponent, rest);
    WholeScans(n.whole, tail);
    FractionScans(n.fraction, end);
    ExponentScans(n.exponent, rest);
    Splits(n.whole, tail);
    Splits(n.fraction, end);
    ExtentFrom(n.whole + tail, |n.whole|, |n.fraction|, |n.exponent|);
  }

  lemma ValueIsMeaning(n: Number)
    requires IsNumber(n)
    ensures forall i :: 0 <= i < |n.whole| ==> IsDigit(n.whole[i])
    ensures NumberValue(NumberText(n), n.negative, n.whole, |n.fraction| + |n.exponent| == 0) == NumberMeaning(n)
  {
    ValueIsDecimal(n.whole);
  }

  function SignOf(n: Number): Bytes {
    if n.negative then [45] else []
  }

  lemma UnsignedScans(n: Number, rest: Bytes)
    requires IsNumber(n) && EndsNumber(rest)
    ensures NumberAt(SignOf(n), Unsigned(n) + rest) == Parsed(NumberMeaning(n), rest)
  {
    var text := Unsigned(n);
    var body := text + rest;
    ExtentScans(n, rest);
    Splits(text, rest);
    assert |text| == |n.whole| + (|n.fraction| + |n.exponent|);
    assert body[..|n.whole|] == n.whole;
    assert SignOf(n) + text == NumberText(n);
    ValueIsMeaning(n);
  }

  lemma NumberScans(n: Number, rest: Bytes)
    requires IsNumber(n) && EndsNumber(rest)
    ensures ScanNumber(NumberText(n) + rest) == Parsed(NumberMeaning(n), rest)
  {
    var body := Unsigned(n) + rest;
    UnsignedScans(n, rest);
    if n.negative {
      Associates([45], Unsigned(n), rest);
      Splits([45], body);
    } else {
      assert Unsigned(n)[0] == n.whole[0] && body[0] == Unsigned(n)[0];
    }
  }

  lemma DigitsAre(s: Bytes, n: nat)
    requires n <= DigitRun(s)
    ensures AreDigits(s[..n])
  {
  }

  lemma ScannedIsExponent(s: Bytes)
    requires ExponentLength(s).Some?
    ensures IsExponent(s[..ExponentLength(s).value])
  {
    var n := ExponentLength(s).value;
    if n > 0 {
      var sign := if |s| > 1 && (s[1] == 43 || s[1] == 45) then 2 else 1;
      DigitsAre(s[sign..], n - sign);
      assert s[..n][sign..] == s[sign..][..n - sign];
    }
  }

  lemma ScannedIsFraction(s: Bytes)
    requires FractionLength(s).Some?
    ensures IsFraction(s[..FractionLength(s).value])
  {
    var n := FractionLength(s).value;
    if n > 0 {
      DigitsAre(s[1..], n - 1);
      assert s[..n][1..] == s[1..][..n - 1];
    }
  }

  lemma ExtentGives(body: Bytes)
    requires NumberExtent(body).Extent?
    ensures var whole := NumberExtent(body).whole;
            var tail := body[whole..];
            && whole <= DigitRun(body) && (body[0] == 48 ==> whole == 1)
            && FractionLength(tail).Some? && ExponentLength(tail[FractionLength(tail).value..]).Some?
            && NumberExtent(body).more == FractionLength(tail).value + ExponentLength(tail[FractionLength(tail).value..]).value
  {
  }

  lemma NumberAtGives(before: Bytes, body: Bytes, whole: nat, more: nat)
    requires NumberExtent(body) == Extent(whole, more)
    requires forall i :: 0 <= i < whole ==> IsDigit(body[..whole][i])
    ensures NumberAt(before, body)
         == Parsed(NumberValue(before + body[..whole + more], before != [], body[..whole], more == 0), body[whole + more..])
  {
  }

  /** The parts of a scanned number, cut out of its text. */
  lemma PartsOf(body: Bytes, whole: nat, fraction: nat, exponent: nat, negative: bool) returns (n: Number)
    requires whole + fraction + exponent <= |body|
    ensures n.negative == negative && n.whole == body[..whole]
    ensures n.fraction == body[whole..][..fraction] && n.exponent == body[whole..][fraction..][..exponent]
    ensures Unsigned(n) == body[..whole + (fraction + exponent)] && NumberText(n) == SignOf(n) + Unsigned(n)
    ensures body == Unsigned(n) + body[whole + (fraction + exponent)..]
  {
    n := Number(negative, body[..whole], body[whole..][..fraction], body[whole..][fraction..][..exponent]);
    NumberPieces(body, whole, fraction, exponent);
    assert [] + Unsigned(n) == Unsigned(n);
  }

  lemma UnsignedIsNumber(negative: bool, body: Bytes) returns (n: Number)
    requires NumberAt(if negative then [45] else [], body).Parsed?
    ensures var r := NumberAt(if negative then [45] else [], body);
            IsNumber(n) && n.negative == negative && body == Unsigned(n) + r.rest && r.value == NumberMeaning(n)
  {
    ExtentGives(body);
    var x := NumberExtent(body);
    var tail := body[x.whole..];
    var fraction := FractionLength(tail).value;
    var end := tail[fraction..];
    n := PartsOf(body, x.whole, fraction, ExponentLength(end).value, negative);
    DigitsAre(body, x.whole);
    ValueIsMeaningOf(n, body, x.whole, x.more);
    ScannedIsFraction(tail);
    ScannedIsExponent(end);
    ValueIsMeaning(n);
  }

  lemma ValueIsMeaningOf(n: Number, body: Bytes, whole: nat, more: nat)
    requires NumberExtent(body) == Extent(whole, more)
    requires n.whole == body[..whole] && AreDigits(n.whole) && Unsigned(n) == body[..whole + more]
    ensures forall i :: 0 <= i < whole ==> IsDigit(n.whole[i])
    ensures NumberAt(SignOf(n), body)
         == Parsed(NumberValue(SignOf(n) + Unsigned(n), n.negative, n.whole, more == 0), body[whole + more..])
  {
    ValueIsDecimal(n.whole);
    NumberAtGives(SignOf(n), body, whole, more);
  }

  lemma ScannedIsNumber(s: Bytes) returns (n: Number)
    requires ScanNumber(s).Parsed?
    ensures IsNumber(n) && s == NumberText(n) + ScanNumber(s).rest && ScanNumber(s).value == NumberMeaning(n)
  {
    if s[0] == 45 {
      n := UnsignedIsNumber(true, s[1..]);
      assert s == [45] + s[1..];
      Associates([45], Unsigned(n), ScanNumber(s).rest);
    } else {
      n := UnsignedIsNumber(false, s);
    }
  }

  lemma NumberPieces(body: Bytes, whole: nat, fraction: nat, exponent: nat)
    requires whole + fraction + exponent <= |body|
    ensures var k := whole + (fraction + exponent);
            && body[..k] == body[..whole] + (body[whole..][..fraction] + body[whole..][fraction..][..exponent])
            && body == body[..k] + body[k..]
  {
  }

  // ------------------------------------------------ every text of the grammar parses

  /** The first byte of a value is no white space and no closing bracket. */
  lemma TextStarts(t: Syntax)
    requires IsSyntax(t)
    ensures Text(t) != [] && !IsBlank(Text(t)[0]) && Text(t)[0] != 93 && Text(t)[0] != 125
    ensures t.Str? <==> Text(t)[0] == 34
    ensures t.Arr? <==> Text(t)[0] == 91
    ensures t.Obj? <==> Text(t)[0] == 123
    ensures t.Num? ==> Text(t)[0] == 45 || 48 <= Text(t)[0] <= 57
  {
    if t.Num? {
      assert Unsigned(t.number)[0] == t.number.whole[0];
    }
  }

  /** White space, a comma, a closing bracket and the end all end a number. */
  lemma BlankEnds(after: Bytes, more: Bytes)
    requires Blank(after) && EndsNumber(more)
    ensures EndsNumber(after + more)
  {
    if after == [] {
      assert after + more == more;
    } else {
      assert IsBlank(after[0]) && (after + more)[0] == after[0];
    }
  }

  lemma ParseWord(t: Syntax, rest: Bytes)
    requires t.Null? || t.Bool?
    ensures ParseValue(Text(t) + rest) == Parsed(Meaning(t), rest)
  {
    var s := Text(t) + rest;
    assert s[0] == Text(t)[0];
    Splits(Text(t), rest);
    if t == Bool(true) {
      assert s[..4][0] == 116;
    } else if t == Bool(false) {
      assert s[..4][0] == 102;
    }
  }

  lemma ParseNumber(n: Number, rest: Bytes)
    requires IsNumber(n) && EndsNumber(rest)
    ensures ParseValue(NumberText(n) + rest) == Parsed(NumberMeaning(n), rest)
  {
    var s := NumberText(n) + rest;
    TextStarts(Num(n));
    assert s[0] == NumberText(n)[0];
    NumberScans(n, rest);
    NoWord(s);
  }

  lemma NoWord(s: Bytes)
    requires s != [] && s[0] != 110 && s[0] != 116 && s[0] != 102
    ensures ParseScalar(s) == ScanNumber(s)
  {
    WordsDiffer(s);
  }

  lemma ParseStr(pieces: seq<Piece>, rest: Bytes)
    requires ArePieces(pieces)
    ensures ParseValue([34] + (CharsText(pieces) + [34]) + rest) == Parsed(JString(CharsMeaning(pieces)), rest)
  {
    var tail := CharsText(pieces) + ([34] + rest);
    assert [34] + (CharsText(pieces) + [34]) + rest == [34] + tail;
    Splits([34], tail);
    PiecesScan(pieces, rest);
  }

  lemma ParseEmpty(open: byte, inside: Bytes, rest: Bytes)
    requires Blank(inside) && (open == 91 || open == 123)
    ensures ParseValue([open] + (inside + [if open == 91 then 93 else 125]) + rest)
         == Parsed(if open == 91 then JArray([]) else JObject([]), rest)
  {
    var close: byte := if open == 91 then 93 else 125;
    var tail := inside + ([close] + rest);
    assert [open] + (inside + [close]) + rest == [open] + tail;
    Splits([open], tail);
    SkipTo(inside, close, rest);
  }

  lemma ParseOpen(open: byte, tail: Bytes)
    requires open == 91 || open == 123
    requires SkipSpace(tail) != [] && SkipSpace(tail)[0] != (if open == 91 then 93 else 125)
    ensures ParseValue([open] + tail) == if open == 91 then ParseItems(tail, []) else ParseFields(tail, [])
  {
    Splits([open], tail);
  }

  /** The first byte after the white space of an item or a member. */
  lemma AfterBlank(before: Bytes, text: Bytes, more: Bytes)
    requires Blank(before) && text != [] && !IsBlank(text[0])
    ensures SkipSpace(before + (text + more)) == text + more && (text + more)[0] == text[0]
  {
    SkipBlank(before, text + more);
  }

  /** Completeness: whatever white space surrounds it, the text of a value parses to that value. */
  lemma {:induction false} ParseSyntax(t: Syntax, rest: Bytes)
    requires IsSyntax(t) && (t.Num? ==> EndsNumber(rest))
    ensures ParseValue(Text(t) + rest) == Parsed(Meaning(t), rest)
    decreases t, 1
  {
    match t
    case Num(number) => ParseNumber(number, rest);
    case Str(pieces) => ParseStr(pieces, rest);
    case Arr(items, inside) =>
      if items == [] {
        ParseEmpty(91, inside, rest);
      } else {
        ParseArr(items, rest);
      }
    case Obj(members, inside) =>
      if members == [] {
        ParseEmpty(123, inside, rest);
      } else {
        ParseObj(members, rest);
      }
    case _ => ParseWord(t, rest);
  }

  lemma {:induction false} ParseItem(i: Item, more: Bytes)
    requires IsItem(i) && EndsNumber(more)
    ensures ParseValue(ItemText(i) + more) == Parsed(ItemMeaning(i), i.after + more)
    decreases i, 1
  {
    var rest := i.after + more;
    BlankEnds(i.after, more);
    ParseSyntax(i.val, rest);
    assert ItemText(i) + more == i.before + (Text(i.val) + rest);
    ParseBlank(i.before, Text(i.val) + rest);
  }

  lemma ItemStarts(i: Item, more: Bytes)
    requires IsItem(i)
    ensures var s := SkipSpace(ItemText(i) + more); s != [] && s[0] != 93
  {
    TextStarts(i.val);
    assert ItemText(i) + more == i.before + (Text(i.val) + (i.after + more));
    AfterBlank(i.before, Text(i.val), i.after + more);
  }

  lemma {:induction false} ParseArr(items: seq<Item>, rest: Bytes)
    requires items != [] && forall i :: 0 <= i < |items| ==> IsItem(items[i])
    ensures ParseValue([91] + (ItemsText(items) + [93]) + rest) == Parsed(JArray(ItemsMeaning(items)), rest)
    decreases items, 1
  {
    var tail := ItemsText(items) + ([93] + rest);
    assert [91] + (ItemsText(items) + [93]) + rest == [91] + tail;
    ItemsStart(items, [93] + rest);
    ParseOpen(91, tail);
    ParseItemList(items, [], rest);
    assert [] + ItemsMeaning(items) == ItemsMeaning(items);
  }

  lemma ItemsStart(items: seq<Item>, more: Bytes)
    requires items != [] && forall i :: 0 <= i < |items| ==> IsItem(items[i])
    ensures var s := SkipSpace(ItemsText(items) + more); s != [] && s[0] != 93
  {
    if |items| == 1 {
      ItemStarts(items[0], more);
    } else {
      ItemStarts(items[0], ([44] + ItemsText(items[1..])) + more);
      Associates(ItemText(items[0]), [44] + ItemsText(items[1..]), more);
    }
  }

  /** An item and the comma or bracket after it. */
  lemma ItemThen(i: Item, before: seq<Json>, next: byte, more: Bytes)
    requires IsItem(i) && (next == 44 || next == 93)
    requires ParseValue(ItemText(i) + ([next] + more)) == Parsed(ItemMeaning(i), i.after + ([next] + more))
    ensures ParseItems(ItemText(i) + ([next] + more), before)
         == if next == 44 then ParseItems(more, before + [ItemMeaning(i)]) else Parsed(JArray(before + [ItemMeaning(i)]), more)
  {
    SkipTo(i.after, next, more);
  }

  lemma {:induction false} ParseItemList(items: seq<Item>, before: seq<Json>, rest: Bytes)
    requires items != [] && forall i :: 0 <= i < |items| ==> IsItem(items[i])
    ensures ParseItems(ItemsText(items) + ([93] + rest), before) == Parsed(JArray(before + ItemsMeaning(items)), rest)
    decreases items, 0
  {
    var i := items[0];
    if |items| == 1 {
      ParseItem(i, [93] + rest);
      ItemThen(i, before, 93, rest);
      assert ItemsMeaning(items) == [ItemMeaning(i)];
    } else {
      var more := ItemsText(items[1..]) + ([93] + rest);
      ListTail(ItemText(i), ItemsText(items[1..]), [93] + rest);
      ParseItem(i, [44] + more);
      ItemThen(i, before, 44, more);
      ParseItemList(items[1..], before + [ItemMeaning(i)], rest);
      Associates(before, [ItemMeaning(i)], ItemsMeaning(items[1..]));
    }
  }

  lemma ListTail(head: Bytes, tail: Bytes, end: Bytes)
    ensures (head + ([44] + tail)) + end == head + ([44] + (tail + end))
  {
  }

  lemma {:induction false} ParseObj(members: seq<Member>, rest: Bytes)
    requires members != [] && forall i :: 0 <= i < |members| ==> IsMember(members[i])
    ensures ParseValue([123] + (MembersText(members) + [125]) + rest) == Parsed(JObject(MembersMeaning([], members)), rest)
    decreases members, 1
  {
    var tail := MembersText(members) + ([125] + rest);
    assert [123] + (MembersText(members) + [125]) + rest == [123] + tail;
    MembersStart(members, [125] + rest);
    ParseOpen(123, tail);
    ParseMemberList(members, [], rest);
  }

  /** A member, from its opening quote on. */
  function FromQuote(m: Member): Bytes
    requires IsMember(m)
  {
    [34] + (CharsText(m.key) + ([34] + (m.after + ([58] + ItemText(m.item)))))
  }

  lemma MemberStarts(m: Member, more: Bytes)
    requires IsMember(m)
    ensures var s := SkipSpace(MemberText(m) + more); s == FromQuote(m) + more && s[0] == 34
  {
    Associates(m.before, FromQuote(m), more);
    AfterBlank(m.before, FromQuote(m), more);
  }

  lemma MembersStart(members: seq<Member>, more: Bytes)
    requires members != [] && forall i :: 0 <= i < |members| ==> IsMember(members[i])
    ensures var s := SkipSpace(MembersText(members) + more); s != [] && s[0] == 34
  {
    if |members| == 1 {
      MemberStarts(members[0], more);
    } else {
      MemberStarts(members[0], ([44] + MembersText(members[1..])) + more);
      Associates(MemberText(members[0]), [44] + MembersText(members[1..]), more);
    }
  }

  lemma FromQuoteSplits(m: Member, more: Bytes)
    requires IsMember(m)
    ensures var value := ItemText(m.item) + more;
            FromQuote(m) + more == [34] + (CharsText(m.key) + ([34] + (m.after + ([58] + value))))
  {
  }

  lemma {:induction false} ParseMember(m: Member, more: Bytes)
    requires IsMember(m) && EndsNumber(more)
    ensures ParseField(MemberText(m) + more) == ParsedField(KeyOf(m), ValueOf(m), m.item.after + more)
    decreases m, 1
  {
    var value := ItemText(m.item) + more;
    var afterKey := m.after + ([58] + value);
    MemberStarts(m, more);
    FromQuoteSplits(m, more);
    Splits([34], CharsText(m.key) + ([34] + afterKey));
    PiecesScan(m.key, afterKey);
    SkipTo(m.after, 58, value);
    ParseItem(m.item, more);
  }

  /** A member and the comma or brace after it. */
  lemma MemberThen(m: Member, fields: seq<Field>, next: byte, more: Bytes)
    requires IsMember(m) && (next == 44 || next == 125)
    requires ParseField(MemberText(m) + ([next] + more)) == ParsedField(KeyOf(m), ValueOf(m), m.item.after + ([next] + more))
    ensures var after := Put(fields, KeyOf(m), ValueOf(m));
            ParseFields(MemberText(m) + ([next] + more), fields)
            == if next == 44 then ParseFields(more, after) else Parsed(JObject(after), more)
  {
    SkipTo(m.item.after, next, more);
  }

  lemma {:induction false} ParseMemberList(members: seq<Member>, fields: seq<Field>, rest: Bytes)
    requires members != [] && forall i :: 0 <= i < |members| ==> IsMember(members[i])
    ensures ParseFields(MembersText(members) + ([125] + rest), fields) == Parsed(JObject(MembersMeaning(fields, members)), rest)
    decreases members, 0
  {
    var m := members[0];
    var after := Put(fields, KeyOf(m), ValueOf(m));
    if |members| == 1 {
      ParseMember(m, [125] + rest);
      MemberThen(m, fields, 125, rest);
      assert MembersMeaning(after, members[1..]) == after;
    } else {
      var more := MembersText(members[1..]) + ([125] + rest);
      ListTail(MemberText(m), MembersText(members[1..]), [125] + rest);
      ParseMember(m, [44] + more);
      MemberThen(m, fields, 44, more);
      ParseMemberList(members[1..], after, rest);
    }
  }

  // ------------------------------------------------ whatever parses is such a text

  lemma {:induction false} ParsedIsSyntax(s: Bytes) returns (before: Bytes, t: Syntax)
    requires ParseValue(s).Parsed?
    ensures Blank(before) && IsSyntax(t)
    ensures s == before + (Text(t) + ParseValue(s).rest) && ParseValue(s).value == Meaning(t)
    decreases |s|, 1
  {
    before := SkippedIsBlank(s);
    var u := SkipSpace(s);
    if u[0] == 34 {
      t := ParsedIsStr(u);
    } else if u[0] == 91 {
      t := ParsedIsArr(u);
    } else if u[0] == 123 {
      t := ParsedIsObj(u);
    } else {
      t := ParsedIsScalar(u);
    }
  }

  lemma ParsedIsStr(u: Bytes) returns (t: Syntax)
    requires u != [] && u[0] == 34 && ParseString(u[1..]).Parsed?
    ensures IsSyntax(t) && u == Text(t) + ParseString(u[1..]).rest && ParseString(u[1..]).value == Meaning(t)
  {
    var pieces := ScannedArePieces(u[1..]);
    t := Str(pieces);
    var rest := ParseString(u[1..]).rest;
    assert u == [34] + u[1..];
    assert [34] + (CharsText(pieces) + ([34] + rest)) == Text(t) + rest;
  }

  lemma ParsedIsScalar(u: Bytes) returns (t: Syntax)
    requires ParseScalar(u).Parsed?
    ensures IsSyntax(t) && u == Text(t) + ParseScalar(u).rest && ParseScalar(u).value == Meaning(t)
  {
    if StartsWith(u, NULL_TEXT) {
      t := Null;
    } else if StartsWith(u, TRUE_TEXT) {
      t := Bool(true);
    } else if StartsWith(u, FALSE_TEXT) {
      t := Bool(false);
    } else {
      var n := ScannedIsNumber(u);
      t := Num(n);
    }
  }

  lemma ParsedIsEmpty(tail: Bytes, open: byte) returns (t: Syntax)
    requires open == 91 || open == 123
    requires ClosesAt(tail, if open == 91 then 93 else 125)
    ensures IsSyntax(t) && [open] + tail == Text(t) + SkipSpace(tail)[1..]
    ensures Meaning(t) == if open == 91 then JArray([]) else JObject([])
  {
    var inside := SkippedIsBlank(tail);
    var close: byte := if open == 91 then 93 else 125;
    FirstByte(SkipSpace(tail));
    Enclosed(open, inside, close, SkipSpace(tail)[1..]);
    t := if open == 91 then Arr([], inside) else Obj([], inside);
  }

  lemma ArrShape(tail: Bytes)
    ensures ParseValue([91] + tail)
         == if ClosesAt(tail, 93) then Parsed(JArray([]), SkipSpace(tail)[1..]) else ParseItems(tail, [])
  {
    Splits([91], tail);
  }

  lemma ObjShape(tail: Bytes)
    ensures ParseValue([123] + tail)
         == if ClosesAt(tail, 125) then Parsed(JObject([]), SkipSpace(tail)[1..]) else ParseFields(tail, [])
  {
    Splits([123], tail);
  }

  lemma {:induction false} ParsedIsArr(u: Bytes) returns (t: Syntax)
    requires u != [] && u[0] == 91 && ParseValue(u).Parsed?
    ensures IsSyntax(t) && u == Text(t) + ParseValue(u).rest && ParseValue(u).value == Meaning(t)
    decreases |u|, 0
  {
    var tail := u[1..];
    FirstByte(u);
    ArrShape(tail);
    if ClosesAt(tail, 93) {
      t := ParsedIsEmpty(tail, 91);
    } else {
      var items := ParsedIsItems(tail, []);
      t := Arr(items, []);
      assert [] + ItemsMeaning(items) == ItemsMeaning(items);
      Enclosed(91, ItemsText(items), 93, ParseItems(tail, []).rest);
    }
  }

  lemma Enclosed(open: byte, text: Bytes, close: byte, rest: Bytes)
    ensures [open] + (text + ([close] + rest)) == ([open] + (text + [close])) + rest
  {
  }

  lemma {:induction false} ParsedIsObj(u: Bytes) returns (t: Syntax)
    requires u != [] && u[0] == 123 && ParseValue(u).Parsed?
    ensures IsSyntax(t) && u == Text(t) + ParseValue(u).rest && ParseValue(u).value == Meaning(t)
    decreases |u|, 0
  {
    var tail := u[1..];
    FirstByte(u);
    ObjShape(tail);
    if ClosesAt(tail, 125) {
      t := ParsedIsEmpty(tail, 123);
    } else {
      var members := ParsedIsMembers(tail, []);
      t := Obj(members, []);
      Enclosed(123, MembersText(members), 125, ParseFields(tail, []).rest);
    }
  }

  lemma {:induction false} ParsedIsItem(s: Bytes) returns (i: Item)
    requires ParseValue(s).Parsed?
    ensures IsItem(i) && s == ItemText(i) + SkipSpace(ParseValue(s).rest) && ParseValue(s).value == ItemMeaning(i)
    decreases |s|, 2
  {
    var before, t := ParsedIsSyntax(s);
    var rest := ParseValue(s).rest;
    var after := SkippedIsBlank(rest);
    i := Item(before, t, after);
    assert before + (Text(t) + (after + SkipSpace(rest))) == (before + (Text(t) + after)) + SkipSpace(rest);
  }

  lemma FirstByte(s: Bytes)
    requires s != []
    ensures s == [s[0]] + s[1..]
  {
  }

  lemma {:induction false} ParsedIsItems(s: Bytes, before: seq<Json>) returns (items: seq<Item>)
    requires ParseItems(s, before).Parsed?
    ensures items != [] && forall i :: 0 <= i < |items| ==> IsItem(items[i])
    ensures s == ItemsText(items) + ([93] + ParseItems(s, before).rest)
    ensures ParseItems(s, before).value == JArray(before + ItemsMeaning(items))
    decreases |s|, 3
  {
    var i := ParsedIsItem(s);
    var u := SkipSpace(ParseValue(s).rest);
    FirstByte(u);
    if u[0] == 44 {
      var more := ParsedIsItems(u[1..], before + [ItemMeaning(i)]);
      items := [i] + more;
      assert items[1..] == more;
      ListTail(ItemText(i), ItemsText(more), [93] + ParseItems(s, before).rest);
      Associates(before, [ItemMeaning(i)], ItemsMeaning(more));
    } else {
      items := [i];
      assert items[1..] == [];
      assert ItemsMeaning(items) == [ItemMeaning(i)];
    }
  }

  lemma {:induction false} ParsedIsMember(s: Bytes) returns (m: Member)
    requires ParseField(s).ParsedField?
    ensures IsMember(m) && s == MemberText(m) + SkipSpace(ParseField(s).rest)
    ensures ParseField(s).key == KeyOf(m) && ParseField(s).val == ValueOf(m)
    decreases |s|, 3
  {
    var before := SkippedIsBlank(s);
    var t := SkipSpace(s);
    var pieces := ScannedArePieces(t[1..]);
    var afterKey := ScanChars(t[1..]).rest;
    var after := SkippedIsBlank(afterKey);
    var u := SkipSpace(afterKey);
    FirstByte(t);
    FirstByte(u);
    var item := ParsedIsItem(u[1..]);
    m := Member(before, pieces, after, item);
    MemberPieces(m, s, t, afterKey, u, SkipSpace(ParseField(s).rest));
  }

  lemma MemberPieces(m: Member, s: Bytes, t: Bytes, afterKey: Bytes, u: Bytes, more: Bytes)
    requires IsMember(m)
    requires s == m.before + t && t == [34] + (CharsText(m.key) + ([34] + afterKey))
    requires afterKey == m.after + u && u == [58] + (ItemText(m.item) + more)
    ensures s == MemberText(m) + more
  {
    FromQuoteSplits(m, more);
    Associates(m.before, FromQuote(m), more);
  }

  lemma {:induction false} ParsedIsMembers(s: Bytes, fields: seq<Field>) returns (members: seq<Member>)
    requires ParseFields(s, fields).Parsed?
    ensures members != [] && forall i :: 0 <= i < |members| ==> IsMember(members[i])
    ensures s == MembersText(members) + ([125] + ParseFields(s, fields).rest)
    ensures ParseFields(s, fields).value == JObject(MembersMeaning(fields, members))
    decreases |s|, 4
  {
    var m := ParsedIsMember(s);
    var after := Put(fields, KeyOf(m), ValueOf(m));
    var u := SkipSpace(ParseField(s).rest);
    FirstByte(u);
    if u[0] == 44 {
      var more := ParsedIsMembers(u[1..], after);
      members := [m] + more;
      assert members[1..] == more;
      ListTail(MemberText(m), MembersText(more), [125] + ParseFields(s, fields).rest);
    } else {
      members := [m];
      assert members[1..] == [];
      assert MembersMeaning(after, members[1..]) == after;
    }
  }

  // ------------------------------------------------------------------- documents

  lemma NoMark(s: Bytes)
    requires s != [] && s[0] != 0xEF
    ensures !StartsWith(s, BYTE_ORDER_MARK)
  {
    assert |s| >= 3 ==> s[..3][0] == s[0];
  }

  /** What `ParseText` does with a text once the mark is off. */
  lemma BodyParses(s: Bytes, body: Bytes, j: Json, after: Bytes, tail: Bytes)
    requires body == if StartsWith(s, BYTE_ORDER_MARK) then s[3..] else s
    requires ParseValue(body) == Parsed(j, after + tail) && Blank(after) && (tail == [] || tail[0] == 0)
    ensures ParseText(s) == Some(j)
  {
    SkipBlank(after, tail);
  }

  lemma DocumentParses(d: Document)
    requires IsDocument(d)
    ensures ParseText(DocumentText(d)) == Some(ItemMeaning(d.root))
  {
    var mark: Bytes := [0xEF, 0xBB, 0xBF];
    var body := ItemText(d.root) + d.tail;
    var s := DocumentText(d);
    ParseItem(d.root, d.tail);
    if d.mark {
      Splits(mark, body);
    } else {
      ItemBytes(d.root, d.tail);
      assert s == body;
      NoMark(s);
    }
    BodyParses(s, body, ItemMeaning(d.root), d.root.after, d.tail);
  }

  /** Without a mark a document starts with an ASCII character. */
  lemma ItemBytes(i: Item, more: Bytes)
    requires IsItem(i)
    ensures ItemText(i) != [] && (ItemText(i) + more)[0] != 0xEF
  {
    TextStarts(i.val);
    if i.before == [] {
      assert ItemText(i)[0] == Text(i.val)[0];
      StartsAscii(i.val);
    } else {
      assert IsBlank(i.before[0]) && ItemText(i)[0] == i.before[0];
    }
  }

  lemma StartsAscii(t: Syntax)
    requires IsSyntax(t) && Text(t) != []
    ensures Text(t)[0] != 0xEF
  {
    TextStarts(t);
  }

  lemma ParsedIsDocument(s: Bytes) returns (d: Document)
    requires ParseText(s).Some?
    ensures IsDocument(d) && DocumentText(d) == s && ItemMeaning(d.root) == ParseText(s).value
  {
    var mark := StartsWith(s, BYTE_ORDER_MARK);
    var body := if mark then s[3..] else s;
    var i := ParsedIsItem(body);
    d := Document(mark, i, SkipSpace(ParseValue(body).rest));
    if mark {
      assert s == s[..3] + s[3..];
    } else {
      assert [] + body == body;
    }
  }

  /** The parser is exact: it accepts precisely the documents of the grammar, and
      gives precisely the value they stand for. */
  lemma ParsesExactlyDocuments(s: Bytes, j: Json)
    ensures ParseText(s) == Some(j) <==> Denotes(s, j)
  {
    if ParseText(s) == Some(j) {
      var d := ParsedIsDocument(s);
    }
    if d: Document :| IsDocument(d) && DocumentText(d) == s && ItemMeaning(d.root) == j {
      DocumentParses(d);
    }
  }

  // ------------------------------------------------------------- what is printed

  /** A printed character is a piece of the grammar, the shortest there is for it,
      its hexadecimal digits in lower case. */
  lemma PrintedChar(c: Bytes) returns (p: Piece)
    requires Utf8.CharLength(c) == |c| > 0
    ensures IsPiece(p) && PieceText(p) == EscapeChar(c) && PieceCode(p) == Utf8.CodePoint(c)
    ensures p.Escaped? ==> p.caps == [false, false, false, false]
    ensures !p.Surrogates?
    ensures forall q :: IsPiece(q) && PieceCode(q) == PieceCode(p) ==> |EscapeChar(c)| <= |PieceText(q)|
  {
    Utf8.DecodeEncodes(c);
    var code := Utf8.CodePoint(c);
    if code >= 0x20 && code != 34 && code != 92 {
      p := Plain(code);
      PlainBytes(c);
    } else {
      assert c == [code];
      p := SpecialChar(code);
    }
    forall q | IsPiece(q) && PieceCode(q) == PieceCode(p) ensures |EscapeChar(c)| <= |PieceText(q)| {
      ShortestPiece(q);
    }
  }

  lemma PlainBytes(c: Bytes)
    requires Utf8.CharLength(c) == |c| > 0
    requires Utf8.CodePoint(c) >= 0x20 && Utf8.CodePoint(c) != 34 && Utf8.CodePoint(c) != 92
    ensures EscapeChar(c) == c
  {
  }

  /** A control character, a quote or a backslash. */
  lemma SpecialChar(code: nat) returns (p: Piece)
    requires code < 0x20 || code == 34 || code == 92
    ensures IsPiece(p) && PieceText(p) == EscapeChar([code]) && PieceCode(p) == code && !p.Plain? && !p.Surrogates?
    ensures p.Escaped? ==> p.caps == [false, false, false, false]
    ensures |EscapeChar([code])| == if code in [8, 9, 10, 12, 13, 34, 92] then 2 else 6
  {
    if code == 34 || code == 92 {
      p := Short(code);
    } else if code == 8 {
      p := Short(98);
    } else if code == 9 {
      p := Short(116);
    } else if code == 10 {
      p := Short(110);
    } else if code == 12 {
      p := Short(102);
    } else if code == 13 {
      p := Short(114);
    } else {
      p := Escaped(code, [false, false, false, false]);
    }
  }

  /** No piece is shorter than the printed form of its code point. */
  lemma ShortestPiece(q: Piece)
    requires IsPiece(q)
    ensures |EscapeChar(Utf8.Encode(PieceCode(q)))| <= |PieceText(q)|
  {
    var code := PieceCode(q);
    var c := Utf8.Encode(code);
    Utf8.EncodeDecodes(code);
    if code >= 0x20 && code != 34 && code != 92 {
      PlainBytes(c);
    } else {
      var p := SpecialChar(code);
    }
  }

  /** Text without control characters, quotes and backslashes. */
  predicate IsPlainText(s: Bytes) {
    Utf8.Valid(s) && forall i :: 0 <= i < |s| ==> s[i] >= 0x20 && s[i] != 34 && s[i] != 92
  }

  /** Plain text is printed as it is. */
  lemma {:induction false} PlainTextPrints(s: Bytes)
    requires IsPlainText(s)
    ensures DumpChars(s) == Some(s)
    decreases |s|
  {
    if s != [] {
      var n := Utf8.CharLength(s);
      assert s[..n][0] == s[0];
      assert EscapeChar(s[..n]) == s[..n];
      PlainTextPrints(s[n..]);
      assert s[..n] + s[n..] == s;
    }
  }

  lemma PlainHead(s: Bytes)
    requires s != [] && IsPlainText(s)
    ensures var n := Utf8.CharLength(s);
            && n > 0 && Utf8.CharLength(s[..n]) == n && IsPlainText(s[n..])
            && s[..n][0] >= 0x20 && s[..n][0] != 34 && s[..n][0] != 92 && s[..n] + s[n..] == s
  {
    var n := Utf8.CharLength(s);
    Utf8.CharLengthExact(s);
    assert s[..n][0] == s[0];
    forall i | 0 <= i < |s[n..]| ensures s[n..][i] >= 0x20 && s[n..][i] != 34 && s[n..][i] != 92 {
      assert s[n..][i] == s[n + i];
    }
  }

  lemma PlainPiece(c: Bytes) returns (p: Piece)
    requires Utf8.CharLength(c) == |c| > 0 && c[0] >= 0x20 && c[0] != 34 && c[0] != 92
    ensures IsPiece(p) && PieceText(p) == c && Utf8.Encode(PieceCode(p)) == c
  {
    Utf8.DecodeEncodes(c);
    PlainCode(c);
    p := Plain(Utf8.CodePoint(c));
  }

  /** Plain text between quotes reads as itself. */
  lemma {:induction false} PlainTextPieces(s: Bytes) returns (pieces: seq<Piece>)
    requires IsPlainText(s)
    ensures ArePieces(pieces) && CharsText(pieces) == s && CharsMeaning(pieces) == s
    decreases |s|
  {
    if s == [] {
      pieces := [];
    } else {
      PlainHead(s);
      var n := Utf8.CharLength(s);
      var p := PlainPiece(s[..n]);
      var more := PlainTextPieces(s[n..]);
      pieces := [p] + more;
      assert pieces[0] == p && pieces[1..] == more;
    }
  }

  /** Integers are printed in decimal, without leading zeros. */
  lemma IntPrints(k: int)
    ensures var magnitude := if k < 0 then DumpInt(k)[1..] else DumpInt(k);
            && (k < 0 ==> DumpInt(k)[0] == 45)
            && magnitude != [] && AreDigits(magnitude) && (magnitude[0] == 48 ==> magnitude == [48])
            && Decimal(magnitude) == if k < 0 then -k else k
  {
    var size: nat := if k < 0 then -k else k;
    var digits := DumpNat(size);
    DumpNatDigits(size);
    assert AreDigits(digits) by {
      assert forall i :: 0 <= i < |digits| ==> IsDigit(digits[i]);
    }
    ValueIsDecimal(digits);
    assert size == 0 ==> digits == [48];
    Splits([45], digits);
  }

  /** What is printed is a document that stands for the value printed. */
  lemma PrintedDenotes(j: Json)
    requires WellFormed(j) && Exact(j)
    ensures Dump(j).Some? && Denotes(Dump(j).value, j)
  {
    RoundTrip(j);
    ParsesExactlyDocuments(Dump(j).value, j);
  }
}
