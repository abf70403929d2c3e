/** Well-formed UTF-8 as section 4 of RFC 3629 defines it. The JSON library
    applies this table both when it prints a string and when it scans one. */
module Utf8 {
  import opened Prelude

  predicate IsTail(b: byte) {
    0x80 <= b <= 0xBF
  }

  /** The second byte of a three- or four-byte character has a narrower range after some lead bytes. */
  predicate IsSecond(lead: byte, b: byte) {
    IsTail(b)
    && (lead == 0xE0 ==> 0xA0 <= b)
    && (lead == 0xED ==> b <= 0x9F)
    && (lead == 0xF0 ==> 0x90 <= b)
    && (lead == 0xF4 ==> b <= 0x8F)
  }

  /** Length of the well-formed character at the front of `s`; 0 when there is none. */
  function CharLength(s: Bytes): (n: nat)
    ensures n <= |s| && n <= 4
  {
    if s == [] then 0
    else if s[0] < 0x80 then 1
    else if 0xC2 <= s[0] <= 0xDF then
      if |s| >= 2 && IsTail(s[1]) then 2 else 0
    else if 0xE0 <= s[0] <= 0xEF then
      if |s| >= 3 && IsSecond(s[0], s[1]) && IsTail(s[2]) then 3 else 0
    else if 0xF0 <= s[0] <= 0xF4 then
      if |s| >= 4 && IsSecond(s[0], s[1]) && IsTail(s[2]) && IsTail(s[3]) then 4 else 0
    else 0
  }

  predicate Valid(s: Bytes)
    decreases |s|
  {
    s == [] || (CharLength(s) > 0 && Valid(s[CharLength(s)..]))
  }

  /** A code point that is not a surrogate. */
  predicate IsScalar(cp: nat) {
    cp < 0xD800 || 0xE000 <= cp < 0x11_0000
  }

  function Above(b: byte, base: nat): nat {
    if b < base then 0 else b - base
  }

  /** The code point of a well-formed character, six bits from every tail byte
      (section 3 of RFC 3629). */
  function CodePoint(c: Bytes): nat
    requires CharLength(c) == |c| > 0
  {
    if |c| == 1 then c[0]
    else if |c| == 2 then 0x40 * Above(c[0], 0xC0) + Above(c[1], 0x80)
    else if |c| == 3 then 0x40 * (0x40 * Above(c[0], 0xE0) + Above(c[1], 0x80)) + Above(c[2], 0x80)
    else 0x40 * (0x40 * (0x40 * Above(c[0], 0xF0) + Above(c[1], 0x80)) + Above(c[2], 0x80)) + Above(c[3], 0x80)
  }

  /** A code point of a `\u` escape (or a surrogate pair of them) as UTF-8. */
  function Encode(cp: nat): (s: Bytes)
    requires cp < 0x11_0000
    ensures !(0xD800 <= cp < 0xE000) ==> CharLength(s) == |s| > 0
  {
    if cp < 0x80 then [cp]
    else if cp < 0x800 then [0xC0 + cp / 0x40, 0x80 + cp % 0x40]
    else
      var (high, low) := (cp / 0x40, cp % 0x40);
      if cp < 0x1_0000 then [0xE0 + high / 0x40, 0x80 + high % 0x40, 0x80 + low]
      else
        var (top, middle) := (high / 0x40, high % 0x40);
        [0xF0 + top / 0x40, 0x80 + top % 0x40, 0x80 + middle, 0x80 + low]
  }

  /** A well-formed first character stays the first character whatever follows it. */
  lemma CharLengthStable(c: Bytes, more: Bytes)
    requires CharLength(c) == |c| > 0
    ensures CharLength(c + more) == |c|
  {
  }

  lemma CharLengthExact(s: Bytes)
    requires CharLength(s) > 0
    ensures CharLength(s[..CharLength(s)]) == CharLength(s)
  {
  }

  lemma ValidChar(c: Bytes)
    requires CharLength(c) == |c| > 0
    ensures Valid(c)
  {
    assert c[|c|..] == [];
  }

  lemma {:induction false} ValidConcat(a: Bytes, b: Bytes)
    requires Valid(a) && Valid(b)
    ensures Valid(a + b)
    decreases |a|
  {
    if a == [] {
      assert a + b == b;
    } else {
      var n := CharLength(a);
      CharLengthExact(a);
      CharLengthStable(a[..n], a[n..] + b);
      assert a + b == a[..n] + (a[n..] + b);
      assert (a + b)[n..] == a[n..] + b;
      ValidConcat(a[n..], b);
    }
  }

  lemma {:induction false} AsciiIsValid(s: Bytes)
    requires forall i :: 0 <= i < |s| ==> s[i] < 0x80
    ensures Valid(s)
  {
    if s != [] {
      AsciiIsValid(s[1..]);
    }
  }

  lemma EncodeDecodes(cp: nat)
    requires IsScalar(cp)
    ensures CharLength(Encode(cp)) == |Encode(cp)| > 0 && CodePoint(Encode(cp)) == cp
  {
  }

  lemma SixBits(high: nat, low: nat)
    requires low < 0x40
    ensures (0x40 * high + low) / 0x40 == high && (0x40 * high + low) % 0x40 == low
  {
  }

  lemma DecodeEncodes(c: Bytes)
    requires CharLength(c) == |c| > 0
    ensures IsScalar(CodePoint(c)) && Encode(CodePoint(c)) == c
  {
    if |c| == 2 {
      SixBits(Above(c[0], 0xC0), Above(c[1], 0x80));
    } else if |c| == 3 {
      ThreeBytes(c);
    } else if |c| == 4 {
      FourBytes(c);
    }
  }

  lemma ThreeBytes(c: Bytes)
    requires CharLength(c) == |c| == 3
    ensures IsScalar(CodePoint(c)) && Encode(CodePoint(c)) == c
  {
    var high := 0x40 * Above(c[0], 0xE0) + Above(c[1], 0x80);
    SixBits(Above(c[0], 0xE0), Above(c[1], 0x80));
    SixBits(high, Above(c[2], 0x80));
    var cp := 0x40 * high + Above(c[2], 0x80);
    assert 0x800 <= cp < 0x1_0000 && IsScalar(cp);
  }

  lemma FourBytes(c: Bytes)
    requires CharLength(c) == |c| == 4
    ensures IsScalar(CodePoint(c)) && Encode(CodePoint(c)) == c
  {
    var top := 0x40 * Above(c[0], 0xF0) + Above(c[1], 0x80);
    var high := 0x40 * top + Above(c[2], 0x80);
    SixBits(Above(c[0], 0xF0), Above(c[1], 0x80));
    SixBits(top, Above(c[2], 0x80));
    SixBits(high, Above(c[3], 0x80));
    var cp := 0x40 * high + Above(c[3], 0x80);
    assert 0x1_0000 <= cp < 0x11_0000;
  }

  predicate Scalars(cps: seq<nat>) {
    forall i :: 0 <= i < |cps| ==> IsScalar(cps[i])
  }

  function EncodeAll(cps: seq<nat>): Bytes
    requires Scalars(cps)
  {
    if cps == [] then [] else Encode(cps[0]) + EncodeAll(cps[1..])
  }

  lemma {:induction false} EncodedIsValid(cps: seq<nat>)
    requires Scalars(cps)
    ensures Valid(EncodeAll(cps))
  {
    if cps != [] {
      EncodedIsValid(cps[1..]);
      ValidChar(Encode(cps[0]));
      ValidConcat(Encode(cps[0]), EncodeAll(cps[1..]));
    }
  }

  lemma {:induction false} ValidIsEncoded(s: Bytes) returns (cps: seq<nat>)
    requires Valid(s)
    ensures Scalars(cps) && EncodeAll(cps) == s
    decreases |s|
  {
    if s == [] {
      cps := [];
    } else {
      var n := CharLength(s);
      var c, more := s[..n], s[n..];
      assert c + more == s;
      CharLengthExact(s);
      DecodeEncodes(c);
      var rest := ValidIsEncoded(more);
      var cp := CodePoint(c);
      cps := [cp] + rest;
      assert cps[0] == cp && cps[1..] == rest;
    }
  }

  /** Valid bytes are exactly the encodings of sequences of Unicode scalar values. */
  lemma ValidIffEncoded(s: Bytes)
    ensures Valid(s) <==> exists cps :: Scalars(cps) && EncodeAll(cps) == s
  {
    if Valid(s) {
      var cps := ValidIsEncoded(s);
    }
    if cps :| Scalars(cps) && EncodeAll(cps) == s {
      EncodedIsValid(cps);
    }
  }
}
