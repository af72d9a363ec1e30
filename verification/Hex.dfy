/** Whole-byte hexadecimal text, as merkle.ts reads and writes it. */
module Hex {
  import opened Basics

  predicate IsHexChar(c: char) {
    '0' <= c <= '9' || 'a' <= c <= 'f' || 'A' <= c <= 'F'
  }

  predicate IsHex(s: string) {
    |s| % 2 == 0 && forall i | 0 <= i < |s| :: IsHexChar(s[i])
  }

  function HexVal(c: char): (v: int)
    requires IsHexChar(c)
    ensures 0 <= v < 16
  {
    if c <= '9' then c as int - '0' as int
    else if c <= 'F' then c as int - 'A' as int + 10
    else c as int - 'a' as int + 10
  }

  function HexChar(v: int): (c: char)
    requires 0 <= v < 16
    ensures IsHexChar(c) && HexVal(c) == v && Lower(c) == c
  {
    if v < 10 then ('0' as int + v) as char else ('a' as int + v - 10) as char
  }

  function Lower(c: char): char {
    if 'A' <= c <= 'Z' then (c as int + 32) as char else c
  }

  /** The ASCII part of String.prototype.toLowerCase, which is all that hex text meets. */
  function ToLower(s: string): string {
    seq(|s|, i requires 0 <= i < |s| => Lower(s[i]))
  }

  /** Decodes whole-byte hex; None where the source throws a TypeError. */
  function Decode(s: string): (r: Option<seq<Byte>>)
    ensures r.Some? <==> IsHex(s)
    ensures r.Some? ==> |r.value| == |s| / 2
  {
    if IsHex(s) then Some(DecodeBytes(s)) else None
  }

  function DecodeBytes(s: string): (b: seq<Byte>)
    requires IsHex(s)
    ensures |b| == |s| / 2
  {
    seq(|s| / 2, i requires 0 <= i < |s| / 2 => HexVal(s[2 * i]) * 16 + HexVal(s[2 * i + 1]))
  }

  function Encode(b: seq<Byte>): (s: string)
    ensures |s| == 2 * |b| && IsHex(s)
  {
    seq(2 * |b|, i requires 0 <= i < 2 * |b| =>
      if i % 2 == 0 then HexChar(b[i / 2] / 16) else HexChar(b[i / 2] % 16))
  }

  const DIGITS := "0123456789abcdef"

  lemma DigitIs(v: int)
    requires 0 <= v < 16
    ensures HexChar(v) == DIGITS[v]
  {
    assert DIGITS[..10] == "0123456789" && DIGITS[10..] == "abcdef";
  }

  /** Byte by byte, the high digit first. */
  lemma EncodedDigits(b: seq<Byte>, i: nat)
    requires i < |b|
    ensures Encode(b)[2 * i] == DIGITS[b[i] / 16] && Encode(b)[2 * i + 1] == DIGITS[b[i] % 16]
  {
    DigitIs(b[i] / 16);
    DigitIs(b[i] % 16);
  }

  lemma DecodeEncode(b: seq<Byte>)
    ensures Decode(Encode(b)) == Some(b)
  {
    var s := Encode(b);
    forall i | 0 <= i < |b| ensures DecodeBytes(s)[i] == b[i] {
      assert s[2 * i] == HexChar(b[i] / 16) && s[2 * i + 1] == HexChar(b[i] % 16);
    }
    assert DecodeBytes(s) == b;
  }

  lemma EncodeInjective(a: seq<Byte>, b: seq<Byte>)
    requires Encode(a) == Encode(b)
    ensures a == b
  {
    DecodeEncode(a);
    DecodeEncode(b);
  }

  /** Printing what was decoded gives back the text in lower case. */
  lemma EncodeDecode(s: string)
    requires IsHex(s)
    ensures Encode(DecodeBytes(s)) == ToLower(s)
  {
    var b, t := DecodeBytes(s), Encode(DecodeBytes(s));
    forall i | 0 <= i < |s| ensures t[i] == ToLower(s)[i] {
      LowerOfHex(s[i]);
      var k := i / 2;
      assert b[k] == HexVal(s[2 * k]) * 16 + HexVal(s[2 * k + 1]);
      assert b[k] / 16 == HexVal(s[2 * k]) && b[k] % 16 == HexVal(s[2 * k + 1]);
    }
  }

  lemma LowerOfHex(c: char)
    requires IsHexChar(c)
    ensures HexChar(HexVal(c)) == Lower(c)
  {
  }

  /** `encode(hash) === root.toLowerCase()` compares the decoded bytes. */
  lemma LowerCaseComparison(b: seq<Byte>, s: string)
    requires IsHex(s)
    ensures Encode(b) == ToLower(s) <==> b == DecodeBytes(s)
  {
    EncodeDecode(s);
    if Encode(b) == ToLower(s) {
      EncodeInjective(b, DecodeBytes(s));
    }
  }
}
