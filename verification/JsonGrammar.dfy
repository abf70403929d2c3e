/** The grammar of JSON texts (sections 2 to 7 of RFC 8259) as syntax trees that
    know their own text and the value they stand for. Nothing here mentions the
    printer or the parser. */
module JsonGrammar {
  import opened Prelude
  import opened Json
  import Utf8

  // ---------------------------------------------------------------- white space

  predicate IsBlank(b: byte) {
    b == 9 || b == 10 || b == 13 || b == 32
  }

  predicate Blank(s: Bytes) {
    forall i :: 0 <= i < |s| ==> IsBlank(s[i])
  }

  // -------------------------------------------------------------------- strings

  /** One character of a string: as it is, as a short escape, as a `\u` escape, or
      as two of them. `caps` says which of the hexadecimal digits are capital letters. */
  datatype Piece =
    | Plain(code: nat)
    | Short(letter: byte)
    | Escaped(code: nat, caps: seq<bool>)
    | Surrogates(code: nat, caps: seq<bool>)

  predicate IsPiece(p: Piece) {
    match p
    case Plain(code) => Utf8.IsScalar(code) && code >= 0x20 && code != 34 && code != 92
    case Short(letter) => letter in [34, 92, 47, 98, 102, 110, 114, 116]
    case Escaped(code, caps) => code < 0x1_0000 && Utf8.IsScalar(code) && |caps| == 4
    case Surrogates(code, caps) => 0x1_0000 <= code < 0x11_0000 && |caps| == 8
  }

  function Hex(d: nat, cap: bool): byte
    requires d < 16
  {
    if d < 10 then 48 + d else if cap then 55 + d else 87 + d
  }

  function UnicodeEscape(n: nat, caps: seq<bool>): (text: Bytes)
    requires n < 0x1_0000 && |caps| == 4
    ensures |text| == 6
  {
    [92, 117, Hex(n / 0x1000, caps[0]), Hex(n / 0x100 % 0x10, caps[1]), Hex(n / 0x10 % 0x10, caps[2]), Hex(n % 0x10, caps[3])]
  }

  /** The two code units of a code point above the basic plane. */
  function High(code: nat): (unit: nat)
    requires 0x1_0000 <= code < 0x11_0000
    ensures 0xD800 <= unit < 0xDC00
  {
    0xD800 + (code - 0x1_0000) / 0x400
  }

  function Low(code: nat): (unit: nat)
    requires 0x1_0000 <= code < 0x11_0000
    ensures 0xDC00 <= unit < 0xE000
  {
    0xDC00 + (code - 0x1_0000) % 0x400
  }

  function PieceText(p: Piece): Bytes
    requires IsPiece(p)
  {
    match p
    case Plain(code) => Utf8.Encode(code)
    case Short(letter) => [92, letter]
    case Escaped(code, caps) => UnicodeEscape(code, caps)
    case Surrogates(code, caps) =>
      UnicodeEscape(High(code), caps[..4]) + UnicodeEscape(Low(code), caps[4..])
  }

  /** The code point a piece stands for. */
  function PieceCode(p: Piece): (code: nat)
    requires IsPiece(p)
    ensures Utf8.IsScalar(code)
  {
    match p
    case Short(letter) =>
      if letter == 98 then 8
      else if letter == 116 then 9
      else if letter == 110 then 10
      else if letter == 102 then 12
      else if letter == 114 then 13
      else letter
    case _ => p.code
  }

  predicate ArePieces(pieces: seq<Piece>) {
    forall i :: 0 <= i < |pieces| ==> IsPiece(pieces[i])
  }

  function CharsText(pieces: seq<Piece>): Bytes
    requires ArePieces(pieces)
  {
    if pieces == [] then [] else PieceText(pieces[0]) + CharsText(pieces[1..])
  }

  function CharsMeaning(pieces: seq<Piece>): Bytes
    requires ArePieces(pieces)
  {
    if pieces == [] then [] else Utf8.Encode(PieceCode(pieces[0])) + CharsMeaning(pieces[1..])
  }

  // -------------------------------------------------------------------- numbers

  datatype Number = Number(negative: bool, whole: Bytes, fraction: Bytes, exponent: Bytes)

  predicate AreDigits(s: Bytes) {
    forall i :: 0 <= i < |s| ==> 48 <= s[i] <= 57
  }

  predicate IsFraction(s: Bytes) {
    s == [] || (|s| > 1 && s[0] == 46 && AreDigits(s[1..]))
  }

  predicate IsExponent(s: Bytes) {
    s == []
    || (|s| > 1 && (s[0] == 69 || s[0] == 101)
        && (AreDigits(s[1..]) || (|s| > 2 && (s[1] == 43 || s[1] == 45) && AreDigits(s[2..]))))
  }

  predicate IsNumber(n: Number) {
    && n.whole != [] && AreDigits(n.whole) && (n.whole[0] == 48 ==> |n.whole| == 1)
    && IsFraction(n.fraction) && IsExponent(n.exponent)
  }

  function Unsigned(n: Number): Bytes {
    n.whole + (n.fraction + n.exponent)
  }

  function NumberText(n: Number): Bytes {
    if n.negative then [45] + Unsigned(n) else Unsigned(n)
  }

  function Pow10(k: nat): nat {
    if k == 0 then 1 else 10 * Pow10(k - 1)
  }

  /** Decimal notation, most significant digit first. */
  function Decimal(digits: Bytes): nat
    requires AreDigits(digits)
  {
    if digits == [] then 0 else (digits[0] as nat - 48) * Pow10(|digits| - 1) + Decimal(digits[1..])
  }

  function Signed(n: Number): int
    requires IsNumber(n)
  {
    var magnitude: int := Decimal(n.whole);
    if n.negative then -magnitude else magnitude
  }

  /** Integers of 64 bits, signed or not, are kept as integers; anything else as floating point. */
  function NumberMeaning(n: Number): Json
    requires IsNumber(n)
  {
    if n.fraction == [] && n.exponent == [] && -0x8000_0000_0000_0000 <= Signed(n) <= 0xFFFF_FFFF_FFFF_FFFF
    then JInt(Signed(n)) else JFloat(NumberText(n))
  }

  // ---------------------------------------------------------------------- values

  /** `inside` is the white space of an empty array or object. */
  datatype Syntax =
    | Null
    | Bool(b: bool)
    | Num(number: Number)
    | Str(pieces: seq<Piece>)
    | Arr(items: seq<Item>, inside: Bytes)
    | Obj(members: seq<Member>, inside: Bytes)

  datatype Item = Item(before: Bytes, val: Syntax, after: Bytes)

  datatype Member = Member(before: Bytes, key: seq<Piece>, after: Bytes, item: Item)

  predicate IsSyntax(t: Syntax)
    decreases t, 0
  {
    match t
    case Num(number) => IsNumber(number)
    case Str(pieces) => ArePieces(pieces)
    case Arr(items, inside) => Blank(inside) && forall i :: 0 <= i < |items| ==> IsItem(items[i])
    case Obj(members, inside) => Blank(inside) && forall i :: 0 <= i < |members| ==> IsMember(members[i])
    case _ => true
  }

  predicate IsItem(i: Item)
    decreases i, 0
  {
    Blank(i.before) && Blank(i.after) && IsSyntax(i.val)
  }

  predicate IsMember(m: Member)
    decreases m, 0
  {
    Blank(m.before) && Blank(m.after) && ArePieces(m.key) && IsItem(m.item)
  }

  function Text(t: Syntax): Bytes
    requires IsSyntax(t)
    decreases t, 0
  {
    match t
    case Null => [110, 117, 108, 108]
    case Bool(b) => if b then [116, 114, 117, 101] else [102, 97, 108, 115, 101]
    case Num(number) => NumberText(number)
    case Str(pieces) => [34] + (CharsText(pieces) + [34])
    case Arr(items, inside) => [91] + ((if items == [] then inside else ItemsText(items)) + [93])
    case Obj(members, inside) => [123] + ((if members == [] then inside else MembersText(members)) + [125])
  }

  function ItemText(i: Item): Bytes
    requires IsItem(i)
    decreases i, 0
  {
    i.before + (Text(i.val) + i.after)
  }

  function ItemsText(items: seq<Item>): Bytes
    requires forall i :: 0 <= i < |items| ==> IsItem(items[i])
    decreases items, 0
  {
    if items == [] then []
    else if |items| == 1 then ItemText(items[0])
    else ItemText(items[0]) + ([44] + ItemsText(items[1..]))
  }

  function MemberText(m: Member): Bytes
    requires IsMember(m)
    decreases m, 0
  {
    m.before + ([34] + (CharsText(m.key) + ([34] + (m.after + ([58] + ItemText(m.item))))))
  }

  function MembersText(members: seq<Member>): Bytes
    requires forall i :: 0 <= i < |members| ==> IsMember(members[i])
    decreases members, 0
  {
    if members == [] then []
    else if |members| == 1 then MemberText(members[0])
    else MemberText(members[0]) + ([44] + MembersText(members[1..]))
  }

  function Meaning(t: Syntax): Json
    requires IsSyntax(t)
    decreases t, 0
  {
    match t
    case Null => JNull
    case Bool(b) => JBool(b)
    case Num(number) => NumberMeaning(number)
    case Str(pieces) => JString(CharsMeaning(pieces))
    case Arr(items, _) => JArray(ItemsMeaning(items))
    case Obj(members, _) => JObject(MembersMeaning([], members))
  }

  function ItemMeaning(i: Item): Json
    requires IsItem(i)
    decreases i, 0
  {
    Meaning(i.val)
  }

  function KeyOf(m: Member): Bytes
    requires IsMember(m)
  {
    CharsMeaning(m.key)
  }

  function ValueOf(m: Member): Json
    requires IsMember(m)
    decreases m, 0
  {
    ItemMeaning(m.item)
  }

  function ItemsMeaning(items: seq<Item>): (values: seq<Json>)
    requires forall i :: 0 <= i < |items| ==> IsItem(items[i])
    ensures |values| == |items|
    decreases items, 0
  {
    if items == [] then [] else [ItemMeaning(items[0])] + ItemsMeaning(items[1..])
  }

  /** Members set one after the other into an object that already holds `fields`. */
  function MembersMeaning(fields: seq<Field>, members: seq<Member>): seq<Field>
    requires forall i :: 0 <= i < |members| ==> IsMember(members[i])
    decreases members, 0
  {
    if members == [] then fields
    else MembersMeaning(Put(fields, KeyOf(members[0]), ValueOf(members[0])), members[1..])
  }

  // ------------------------------------------------------------------- documents

  /** A value with white space around it. `mark` is a byte order mark in front, and
      `tail` what the library does not look at: everything from a zero byte on. */
  datatype Document = Document(mark: bool, root: Item, tail: Bytes)

  predicate IsDocument(d: Document) {
    IsItem(d.root) && (d.tail == [] || d.tail[0] == 0)
  }

  function DocumentText(d: Document): Bytes
    requires IsDocument(d)
  {
    (if d.mark then [0xEF, 0xBB, 0xBF] else []) + (ItemText(d.root) + d.tail)
  }

  /** `text` is a JSON document that stands for `j`. */
  ghost predicate Denotes(text: Bytes, j: Json) {
    exists d: Document :: IsDocument(d) && DocumentText(d) == text && ItemMeaning(d.root) == j
  }

  // ------------------------------------------------------- what a member map holds

  ghost predicate IsLastMember(members: seq<Member>, i: nat, key: Bytes)
    requires forall k :: 0 <= k < |members| ==> IsMember(members[k])
  {
    i < |members| && KeyOf(members[i]) == key
    && forall k :: i < k < |members| ==> KeyOf(members[k]) != key
  }

  lemma {:induction false} AtPut(fields: seq<Field>, key: Bytes, val: Json, other: Bytes)
    ensures At(Put(fields, key, val), other) == if other == key then Some(val) else At(fields, other)
  {
    if fields != [] && fields[0].key != key && !Less(key, fields[0].key) {
      AtPut(fields[1..], key, val, other);
      assert ([fields[0]] + Put(fields[1..], key, val))[1..] == Put(fields[1..], key, val);
    } else if fields != [] && fields[0].key == key {
      assert ([Field(key, val)] + fields[1..])[1..] == fields[1..];
    } else {
      assert ([Field(key, val)] + fields)[1..] == fields;
    }
  }

  /** Members may come in any order; of several with one key the last one counts. */
  lemma {:induction false} LastMemberCounts(fields: seq<Field>, members: seq<Member>, i: nat, key: Bytes)
    requires forall k :: 0 <= k < |members| ==> IsMember(members[k])
    requires IsLastMember(members, i, key)
    ensures At(MembersMeaning(fields, members), key) == Some(ValueOf(members[i]))
    decreases |members|
  {
    var val := ValueOf(members[0]);
    var more := Put(fields, KeyOf(members[0]), val);
    var rest := members[1..];
    if i == 0 {
      AtPut(fields, KeyOf(members[0]), val, key);
      OtherMembers(more, rest, key);
    } else {
      LastMemberCounts(more, rest, i - 1, key);
    }
  }

  /** Members with other keys change nothing. */
  lemma {:induction false} OtherMembers(fields: seq<Field>, members: seq<Member>, key: Bytes)
    requires forall k :: 0 <= k < |members| ==> IsMember(members[k]) && KeyOf(members[k]) != key
    ensures At(MembersMeaning(fields, members), key) == At(fields, key)
    decreases |members|
  {
    if members != [] {
      var name := KeyOf(members[0]);
      assert name != key;
      AtPut(fields, name, ValueOf(members[0]), key);
      OtherMembers(Put(fields, name, ValueOf(members[0])), members[1..], key);
    }
  }

  lemma {:induction false} LastMemberIs(members: seq<Member>, key: Bytes) returns (i: nat)
    requires forall k :: 0 <= k < |members| ==> IsMember(members[k])
    requires exists k :: 0 <= k < |members| && KeyOf(members[k]) == key
    ensures IsLastMember(members, i, key)
  {
    var n := |members| - 1;
    if KeyOf(members[n]) == key {
      i := n;
    } else {
      var front := members[..n];
      assert forall k :: 0 <= k < n ==> front[k] == members[k];
      i := LastMemberIs(front, key);
    }
  }

  /** What an object holds under a key is the value of the last member with that key. */
  lemma MemberLookup(members: seq<Member>, key: Bytes, val: Json)
    requires forall k :: 0 <= k < |members| ==> IsMember(members[k])
    ensures At(MembersMeaning([], members), key) == Some(val)
            <==> exists i: nat :: IsLastMember(members, i, key) && ValueOf(members[i]) == val
  {
    if i: nat :| IsLastMember(members, i, key) {
      LastMemberCounts([], members, i, key);
    }
    if exists k :: 0 <= k < |members| && KeyOf(members[k]) == key {
      var i := LastMemberIs(members, key);
      LastMemberCounts([], members, i, key);
    } else {
      OtherMembers([], members, key);
    }
  }
}
