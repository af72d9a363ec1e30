/** Rounding to the nearest double, as ECMAScript numbers do after every operation. */
module Doubles {

  const TWO_52 := 0x10_0000_0000_0000
  const TWO_53 := 0x20_0000_0000_0000

  /** The nearest integer; halfway cases go to the even one. */
  function RoundEven(x: real): (n: int)
    ensures x - 0.5 <= n as real <= x + 0.5
  {
    var down := x.Floor;
    var rest := x - down as real;
    if rest < 0.5 || (rest == 0.5 && down % 2 == 0) then down else down + 1
  }

  /** Rounding of 0 <= x < 2^53 that has been doubled `k` times already; units shrink down to 2^-1074. */
  function RoundBelow(x: real, k: nat): real
    requires k <= 1074
    decreases 1074 - k
  {
    if x >= TWO_52 as real || k == 1074 then RoundEven(x) as real else RoundBelow(2.0 * x, k + 1) / 2.0
  }

  function RoundMagnitude(x: real): real
    requires x >= 0.0
    decreases x.Floor
  {
    if x >= TWO_53 as real then 2.0 * RoundMagnitude(x / 2.0) else RoundBelow(x, 0)
  }

  /** The double nearest to `x`; the overflow to infinity from about 2^1024 on is left out. */
  function ToDouble(x: real): real {
    if x < 0.0 then -RoundMagnitude(-x) else RoundMagnitude(x)
  }

  // ---- integers are exact ---------------------------------------------------------------

  lemma RoundEvenOfInt(n: int)
    ensures RoundEven(n as real) == n
  {
  }

  lemma {:induction false} BelowExact(n: nat, k: nat)
    requires n <= TWO_53 && k <= 1074
    ensures RoundBelow(n as real, k) == n as real
    decreases 1074 - k
  {
    RoundEvenOfInt(n);
    if n < TWO_52 && k < 1074 {
      assert 2.0 * n as real == (2 * n) as real;
      BelowExact(2 * n, k + 1);
    }
  }

  /** Every integer up to 2^53 is a double. */
  lemma IntegersAreExact(n: int)
    requires -TWO_53 <= n <= TWO_53
    ensures ToDouble(n as real) == n as real
  {
    var m: nat := if n < 0 then -n else n;
    assert RoundMagnitude(m as real) == m as real by {
      BelowExact(m, 0);
      BelowExact(m / 2, 0);
      if m == TWO_53 { assert m as real / 2.0 == (m / 2) as real; }
    }
    assert m as real == if n < 0 then -(n as real) else n as real;
    hide RoundMagnitude;
  }

  // ---- rounding keeps the order -----------------------------------------------------------

  lemma RoundEvenMonotone(x: real, y: real)
    requires x <= y
    ensures RoundEven(x) <= RoundEven(y)
  {
  }

  lemma {:induction false} BelowBounds(x: real, k: nat)
    requires 0.0 <= x < TWO_53 as real && k <= 1074
    ensures 0.0 <= RoundBelow(x, k) <= TWO_53 as real
    ensures x < TWO_52 as real ==> RoundBelow(x, k) <= TWO_52 as real
    ensures x >= TWO_52 as real ==> RoundBelow(x, k) >= TWO_52 as real
    decreases 1074 - k
  {
    RoundEvenMonotone(0.0, x);
    RoundEvenMonotone(x, if x < TWO_52 as real then TWO_52 as real else TWO_53 as real);
    RoundEvenMonotone(TWO_52 as real, if x < TWO_52 as real then TWO_52 as real else x);
    if x < TWO_52 as real && k < 1074 { BelowBounds(2.0 * x, k + 1); }
  }

  lemma {:induction false} BelowMonotone(x: real, y: real, k: nat)
    requires 0.0 <= x <= y < TWO_53 as real && k <= 1074
    ensures RoundBelow(x, k) <= RoundBelow(y, k)
    decreases 1074 - k
  {
    RoundEvenMonotone(x, y);
    BelowBounds(x, k);
    BelowBounds(y, k);
    if y < TWO_52 as real && k < 1074 { BelowMonotone(2.0 * x, 2.0 * y, k + 1); }
  }

  lemma {:induction false} MagnitudeAbove(x: real)
    requires x >= TWO_53 as real
    ensures RoundMagnitude(x) >= TWO_53 as real
    decreases x.Floor
  {
    if x / 2.0 >= TWO_53 as real { MagnitudeAbove(x / 2.0); } else { BelowBounds(x / 2.0, 0); }
  }

  lemma {:induction false} MagnitudeMonotone(x: real, y: real)
    requires 0.0 <= x <= y
    ensures 0.0 <= RoundMagnitude(x) <= RoundMagnitude(y)
    decreases y.Floor
  {
    if y < TWO_53 as real {
      BelowBounds(x, 0);
      BelowMonotone(x, y, 0);
    } else if x < TWO_53 as real {
      BelowBounds(x, 0);
      MagnitudeAbove(y);
    } else {
      MagnitudeMonotone(x / 2.0, y / 2.0);
    }
  }

  lemma ToDoubleMonotone(x: real, y: real)
    requires x <= y
    ensures ToDouble(x) <= ToDouble(y)
  {
    hide RoundMagnitude;
    if 0.0 <= x { MagnitudeMonotone(x, y); }
    else if y < 0.0 { MagnitudeMonotone(-y, -x); }
    else { MagnitudeMonotone(0.0, -x); MagnitudeMonotone(0.0, y); }
  }

  /** An integer is at least the rounded value when it is at least the value, or when rounding goes down onto it. */
  lemma ComparesIff(n: int, x: real)
    requires -TWO_53 <= n <= TWO_53
    ensures n as real >= ToDouble(x) <==> n as real >= x || ToDouble(x) == n as real
  {
    IntegersAreExact(n);
    hide ToDouble;
    if n as real >= x { ToDoubleMonotone(x, n as real); } else { ToDoubleMonotone(n as real, x); }
  }

  // ---- computing a rounding ------------------------------------------------------------------

  function Up(x: real, j: nat): real
    decreases j
  {
    if j == 0 then x else Up(2.0 * x, j - 1)
  }

  function Down(x: real, j: nat): real
    decreases j
  {
    if j == 0 then x else Down(x / 2.0, j - 1)
  }

  lemma {:induction false} UpGrows(x: real, j: nat)
    requires x >= 0.0
    ensures Up(x, j) >= x
    decreases j
  {
    if j > 0 { UpGrows(2.0 * x, j - 1); }
  }

  lemma {:induction false} DownHalf(x: real, j: nat)
    ensures Down(x / 2.0, j) == Down(x, j) / 2.0
    decreases j
  {
    if j > 0 { DownHalf(x / 2.0, j - 1); }
  }

  /** Doubled `j` times into [2^52, 2^53), a value rounds to the nearest integer. */
  lemma {:induction false} RoundsAtScale(x: real, k: nat, j: nat)
    requires k + j <= 1074 && 0.0 <= x && TWO_52 as real <= Up(x, j) < TWO_53 as real
    ensures RoundBelow(x, k) == Down(RoundEven(Up(x, j)) as real, j)
    decreases j
  {
    if j > 0 {
      UpGrows(2.0 * x, j - 1);
      RoundsAtScale(2.0 * x, k + 1, j - 1);
      DownHalf(RoundEven(Up(x, j)) as real, j - 1);
    }
  }

  lemma Past4(x: real, j: nat)
    ensures Up(x, j + 4) == Up(16.0 * x, j)
    ensures Down(x, j + 4) == Down(x / 16.0, j)
  {
    assert Up(x, j + 4) == Up(2.0 * x, j + 3) == Up(4.0 * x, j + 2) == Up(8.0 * x, j + 1);
    assert Down(x, j + 4) == Down(x / 2.0, j + 3) == Down(x / 4.0, j + 2) == Down(x / 8.0, j + 1);
  }

  lemma Past16(x: real, j: nat)
    ensures Up(x, j + 16) == Up(65536.0 * x, j)
    ensures Down(x, j + 16) == Down(x / 65536.0, j)
  {
    hide Up, Down;
    Past4(x, j + 12);
    Past4(16.0 * x, j + 8);
    Past4(256.0 * x, j + 4);
    Past4(4096.0 * x, j);
    Past4(x / 16.0, j + 8);
    Past4(x / 256.0, j + 4);
    Past4(x / 4096.0, j);
  }

  /** The double that 0.07 stands for is a little more. */
  lemma SevenHundredths()
    ensures ToDouble(0.07) == 1261007895663739.0 / 18014398509481984.0
  {
    hide Up, Down;
    var x, n := 0.07, 5044031582654956.0;
    Past16(x, 40);
    Past16(65536.0 * x, 24);
    Past16(4294967296.0 * x, 8);
    Past4(281474976710656.0 * x, 4);
    Past4(4503599627370496.0 * x, 0);
    UpDown0(72057594037927936.0 * x);
    Past16(n, 40);
    Past16(n / 65536.0, 24);
    Past16(n / 4294967296.0, 8);
    Past4(n / 281474976710656.0, 4);
    Past4(n / 4503599627370496.0, 0);
    UpDown0(n / 72057594037927936.0);
    RoundsAtScale(x, 0, 56);
    hide RoundBelow;
  }

  /** Times ten thousand, the product is rounded up again, past 700. */
  lemma SevenHundred()
    ensures ToDouble(1261007895663739.0 / 18014398509481984.0 * 10000.0) == 6157265115545601.0 / 8796093022208.0
  {
    hide Up, Down;
    var x, n := 1261007895663739.0 / 18014398509481984.0 * 10000.0, 6157265115545601.0;
    Past16(x, 27);
    Past16(65536.0 * x, 11);
    Past4(4294967296.0 * x, 7);
    Past4(68719476736.0 * x, 3);
    Past3(1099511627776.0 * x);
    Past16(n, 27);
    Past16(n / 65536.0, 11);
    Past4(n / 4294967296.0, 7);
    Past4(n / 68719476736.0, 3);
    Past3(n / 1099511627776.0);
    RoundsAtScale(x, 0, 43);
    hide RoundBelow;
  }

  lemma Past3(x: real)
    ensures Up(x, 3) == 8.0 * x && Down(x, 3) == x / 8.0
  {
    assert Up(x, 3) == Up(2.0 * x, 2) == Up(4.0 * x, 1) == Up(8.0 * x, 0);
    assert Down(x, 3) == Down(x / 2.0, 2) == Down(x / 4.0, 1) == Down(x / 8.0, 0);
  }

  lemma UpDown0(x: real)
    ensures Up(x, 0) == x && Down(x, 0) == x
  {
  }
}
