/** Finite ECMAScript numbers by their decimal text: print, scan back, and numeric value. */
module Numbers {
  import opened Basics

  /** [-]whole[.fraction][e(+|-)exponent]; `fraction` holds digit characters. */
  datatype Num = Num(negative: bool, whole: nat, fraction: string, exponent: int)

  predicate IsDigit(c: char) { '0' <= c <= '9' }

  predicate AllDigits(s: string) { forall i | 0 <= i < |s| :: IsDigit(s[i]) }

  /** No trailing zero in the fraction, and no negative zero (JSON.stringify prints -0 as 0). */
  predicate WellFormed(x: Num) {
    && AllDigits(x.fraction) && (x.fraction != "" ==> x.fraction[|x.fraction| - 1] != '0')
    && (x.negative ==> x.whole != 0 || x.fraction != "")
  }

  type Finite = x: Num | WellFormed(x) witness Num(false, 0, "", 0)

  function IntNum(i: int): (x: Num)
    ensures WellFormed(x)
  {
    Num(i < 0, if i < 0 then -i else i, "", 0)
  }

  lemma IntNumInjective(i: int, j: int)
    requires IntNum(i) == IntNum(j)
    ensures i == j
  {
  }

  function DigitVal(c: char): (v: nat)
    requires IsDigit(c)
    ensures v < 10
  {
    c as int - '0' as int
  }

  function DigitChar(v: nat): (c: char)
    requires v < 10
    ensures IsDigit(c) && DigitVal(c) == v
  {
    ('0' as int + v) as char
  }

  function Decimal(n: nat): (s: string)
    ensures s != "" && AllDigits(s)
  {
    if n < 10 then [DigitChar(n)] else Decimal(n / 10) + [DigitChar(n % 10)]
  }

  function NatOf(s: string): nat
    requires AllDigits(s)
  {
    if s == "" then 0 else NatOf(s[..|s| - 1]) * 10 + DigitVal(s[|s| - 1])
  }

  lemma {:induction false} NatOfDecimal(n: nat)
    ensures NatOf(Decimal(n)) == n
  {
    var s := Decimal(n);
    if n < 10 {
      assert s[..0] == "";
    } else {
      NatOfDecimal(n / 10);
      assert s[..|s| - 1] == Decimal(n / 10);
    }
  }

  function Print(x: Num): (s: string)
    ensures s != "" && (s[0] == '-' || IsDigit(s[0]))
  {
    (if x.negative then "-" else "") + Decimal(x.whole) + FractionText(x.fraction) + ExponentText(x.exponent)
  }

  function FractionText(f: string): string { if f == "" then "" else "." + f }

  function ExponentText(e: int): string {
    if e == 0 then "" else if e > 0 then "e+" + Decimal(e) else "e-" + Decimal(-e)
  }

  // ---- scanning --------------------------------------------------------------------

  /** The length of the longest run of digits at the start. */
  function DigitRun(s: string): (n: nat)
    ensures n <= |s| && AllDigits(s[..n])
  {
    if s == "" || !IsDigit(s[0]) then 0 else 1 + DigitRun(s[1..])
  }

  /** A character that would go on with a number. */
  predicate Continues(s: string) { s != "" && (IsDigit(s[0]) || s[0] == '.' || s[0] == 'e') }

  lemma {:induction false} DigitRunStops(d: string, rest: string)
    requires AllDigits(d) && (rest == "" || !IsDigit(rest[0]))
    ensures DigitRun(d + rest) == |d| && (d + rest)[..|d|] == d && (d + rest)[|d|..] == rest
  {
    if d == "" {
      assert d + rest == rest;
    } else {
      DigitRunStops(d[1..], rest);
      assert (d + rest)[1..] == d[1..] + rest;
    }
  }

  /** A nonempty run of digits and what follows it. */
  function ScanNat(s: string): (r: Option<(nat, string)>)
    ensures r.Some? ==> |r.value.1| < |s|
  {
    var k := DigitRun(s);
    if k == 0 then None else Some((NatOf(s[..k]), s[k..]))
  }

  lemma ScanNatPrinted(n: nat, rest: string)
    requires rest == "" || !IsDigit(rest[0])
    ensures ScanNat(Decimal(n) + rest) == Some((n, rest))
  {
    DigitRunStops(Decimal(n), rest);
    NatOfDecimal(n);
  }

  function ScanFraction(s: string): (r: (string, string))
    ensures |r.1| <= |s|
  {
    if s != "" && s[0] == '.' then var k := DigitRun(s[1..]); (s[1..][..k], s[1..][k..]) else ("", s)
  }

  function ScanExponent(s: string): (r: Option<(int, string)>)
    ensures r.Some? ==> |r.value.1| <= |s|
  {
    if s != "" && s[0] == 'e' then
      if |s| < 2 then None
      else
        var e := ScanNat(s[2..]);
        if e.None? then None
        else
          var digits: int := e.value.0;
          if s[1] == '+' then Some((digits, e.value.1))
          else if s[1] == '-' then Some((-digits, e.value.1))
          else None
    else Some((0, s))
  }

  function Scan(s: string): (r: Option<(Num, string)>)
    ensures r.Some? ==> |r.value.1| < |s|
  {
    var negative := s != "" && s[0] == '-';
    var whole := ScanNat(if negative then s[1..] else s);
    if whole.None? then None
    else
      var fraction := ScanFraction(whole.value.1);
      var exponent := ScanExponent(fraction.1);
      if exponent.None? then None
      else Some((Num(negative, whole.value.0, fraction.0, exponent.value.0), exponent.value.1))
  }

  /** Scanning a printed number, followed by anything that does not go on with it, gives it back. */
  lemma ScanPrinted(x: Num, rest: string)
    requires WellFormed(x) && !Continues(rest)
    ensures Scan(Print(x) + rest) == Some((x, rest))
  {
    hide Decimal, FractionText, ExponentText, DigitRun, NatOf, ScanNat, ScanFraction, ScanExponent;
    var tail2 := ExponentText(x.exponent) + rest;
    var tail1 := FractionText(x.fraction) + tail2;
    var body := Decimal(x.whole) + tail1;
    assert Print(x) + rest == (if x.negative then "-" else "") + body;
    if x.negative { assert ("-" + body)[1..] == body; } else { assert "" + body == body; }
    assert IsDigit(body[0]) by { assert body[0] == Decimal(x.whole)[0]; }
    ScanExponentPrinted(x.exponent, rest);
    ScanFractionPrinted(x.fraction, tail2);
    ScanNatPrinted(x.whole, tail1);
  }

  lemma ScanExponentPrinted(e: int, rest: string)
    requires !Continues(rest)
    ensures ScanExponent(ExponentText(e) + rest) == Some((e, rest))
    ensures var s := ExponentText(e) + rest; s == "" || (!IsDigit(s[0]) && s[0] != '.')
  {
    hide Decimal, DigitRun, NatOf, ScanNat;
    var s := ExponentText(e) + rest;
    if e == 0 {
      assert s == rest;
    } else {
      var m := if e > 0 then e else -e;
      assert s[2..] == Decimal(m) + rest;
      ScanNatPrinted(m, rest);
    }
  }

  lemma ScanFractionPrinted(f: string, rest: string)
    requires AllDigits(f) && (rest == "" || (!IsDigit(rest[0]) && rest[0] != '.'))
    ensures ScanFraction(FractionText(f) + rest) == (f, rest)
    ensures var s := FractionText(f) + rest; s == "" || !IsDigit(s[0])
  {
    var s := FractionText(f) + rest;
    if f == "" {
      assert s == rest;
    } else {
      assert s[1..] == f + rest;
      DigitRunStops(f, rest);
    }
  }

  // ---- no text is shorter ------------------------------------------------------------

  /** No leading zero, but for zero itself. */
  lemma {:induction false} NoLeadingZero(n: nat)
    ensures Decimal(n)[0] == '0' <==> n == 0
    ensures n == 0 ==> Decimal(n) == "0"
  {
    if n < 10 {
      assert [DigitChar(n)][0] == DigitChar(n);
    } else {
      NoLeadingZero(n / 10);
      assert Decimal(n)[0] == Decimal(n / 10)[0];
    }
  }

  /** Any digits that stand for `n` are at least as many as those printed. */
  lemma {:induction false} DecimalIsShortest(d: string)
    requires d != "" && AllDigits(d)
    ensures |Decimal(NatOf(d))| <= |d|
  {
    var init, n := d[..|d| - 1], NatOf(d);
    if init == "" {
      assert NatOf(init) == 0;
    } else {
      DecimalIsShortest(init);
      assert n / 10 == NatOf(init);
    }
  }

  lemma ScanNatTakes(s: string)
    requires ScanNat(s).Some?
    ensures var (n, rest) := ScanNat(s).value; |Decimal(n)| <= |s| - |rest|
  {
    DecimalIsShortest(s[..DigitRun(s)]);
  }

  lemma ScanExponentTakes(s: string)
    requires ScanExponent(s).Some?
    ensures var (e, rest) := ScanExponent(s).value; |ExponentText(e)| <= |s| - |rest|
  {
    if s != "" && s[0] == 'e' {
      ScanNatTakes(s[2..]);
    }
  }

  /** However a number is spelled, it takes at least as many characters as its printed text. */
  lemma PrintIsShortest(s: string)
    requires Scan(s).Some?
    ensures var (x, rest) := Scan(s).value; |Print(x)| <= |s| - |rest|
  {
    hide Decimal, DigitRun, NatOf, ScanNat, ScanExponent, ExponentText;
    var negative := s != "" && s[0] == '-';
    var body := if negative then s[1..] else s;
    ScanNatTakes(body);
    var tail := ScanNat(body).value.1;
    ScanFractionTakes(tail);
    ScanExponentTakes(ScanFraction(tail).1);
  }

  lemma ScanFractionTakes(s: string)
    ensures |FractionText(ScanFraction(s).0)| <= |s| - |ScanFraction(s).1|
  {
  }

  // ---- numeric value --------------------------------------------------------------

  function Pow10(e: nat): (p: real)
    ensures p > 0.0
  {
    if e == 0 then 1.0 else 10.0 * Pow10(e - 1)
  }

  /** The number a text stands for; arithmetic is exact. */
  function Value(x: Finite): real
  {
    var magnitude := x.whole as real + NatOf(x.fraction) as real / Pow10(|x.fraction|);
    var scaled := if x.exponent >= 0 then magnitude * Pow10(x.exponent) else magnitude / Pow10(-x.exponent);
    if x.negative then -scaled else scaled
  }

  lemma ValueOfInt(i: int)
    ensures Value(IntNum(i)) == i as real
  {
  }
}
