/** The 32-bit shifts that merkle.ts applies to its tree sizes and indices. */
module Int32 {
  const TWO_30 := 0x4000_0000
  const TWO_31 := 0x8000_0000
  const TWO_32 := 0x1_0000_0000

  /** ECMAScript ToInt32: reduce modulo 2^32 into the signed range. */
  function ToInt32(x: int): (r: int)
    ensures -TWO_31 <= r < TWO_31
  {
    var m := x % TWO_32;
    if m >= TWO_31 then m - TWO_32 else m
  }

  /** `x << 1` */
  function Shl1(x: int): int { ToInt32(ToInt32(x) * 2) }

  /** `x >> 1`; Dafny's division by a positive number rounds down, as the arithmetic shift does. */
  function Shr1(x: int): int { ToInt32(x) / 2 }

  /** For the sizes and indices of a tree, `>>` halves exactly up to 2^31 - 1. */
  lemma Shr1HalvesIff(x: nat)
    ensures Shr1(x) == x / 2 <==> x < TWO_31
  {
    if x >= TWO_31 {
      assert Shr1(x) < TWO_30 <= x / 2;
    }
  }

  /** The variable `fn` of verifyInclusion after `turns` turns of its promotion loop. */
  function Promoted(fn: int, turns: nat): int
    decreases turns
  {
    if turns == 0 then fn else Promoted(Shr1(fn), turns - 1)
  }

  /** From a 32-bit integer other than zero, halving meets an odd one. */
  lemma {:induction false} HalvingMeetsOdd(x: int) returns (turns: nat)
    requires -TWO_31 <= x < TWO_31 && x != 0
    ensures Promoted(x, turns) % 2 != 0
    decreases if x < 0 then -x else x
  {
    if x % 2 != 0 {
      turns := 0;
    } else {
      assert Shr1(x) == x / 2;
      var rest := HalvingMeetsOdd(x / 2);
      turns := rest + 1;
    }
  }

  lemma {:induction false} ZeroStays(turns: nat)
    ensures Promoted(0, turns) == 0
  {
    if turns > 0 {
      assert Shr1(0) == 0;
      ZeroStays(turns - 1);
    }
  }

  /** The promotion loop ever finds its guard false exactly when `fn` is not a multiple of 2^32. */
  lemma PromotionLoopStopsIff(fn: nat)
    ensures (exists turns: nat :: Promoted(fn, turns) % 2 != 0) <==> fn % TWO_32 != 0
  {
    if fn % 2 != 0 {
      assert Promoted(fn, 0) % 2 != 0;
      assert fn == TWO_32 * (fn / TWO_32) + fn % TWO_32;
    } else if fn % TWO_32 != 0 {
      assert ToInt32(fn) != 0 && ToInt32(fn) % 2 == 0;
      var turns := HalvingMeetsOdd(Shr1(fn));
      assert Promoted(fn, turns + 1) % 2 != 0;
    } else {
      assert Shr1(fn) == 0;
      forall turns: nat ensures Promoted(fn, turns) % 2 == 0 {
        if turns > 0 { ZeroStays(turns - 1); }
      }
    }
  }

  /** The variable `k` of largestPowerOfTwoBelow after `turns` turns of its loop. */
  function PowerLoop(turns: nat): int {
    if turns == 0 then 1 else Shl1(PowerLoop(turns - 1))
  }

  function Pow2(e: nat): (p: nat)
    ensures p > 0
  {
    if e == 0 then 1 else 2 * Pow2(e - 1)
  }

  lemma {:induction false} Pow2Monotone(a: nat, b: nat)
    requires a <= b
    ensures Pow2(a) <= Pow2(b)
    decreases b
  {
    if a < b { Pow2Monotone(a, b - 1); }
  }

  lemma Pow2At30()
    ensures Pow2(30) == TWO_30
  {
    assert Pow2(10) == 1024;
    assert Pow2(20) == 1024 * 1024;
  }

  lemma Shl1Values(x: nat)
    requires x <= TWO_30
    ensures Shl1(x) == if x < TWO_30 then 2 * x else -TWO_31
    ensures Shl1(-TWO_31) == 0
  {
  }

  /** The doubling is exact for thirty turns, then wraps to -2^31 and sticks at 0. */
  lemma {:induction false} PowerLoopValue(turns: nat)
    ensures PowerLoop(turns) == if turns <= 30 then Pow2(turns) else if turns == 31 then -TWO_31 else 0
    ensures turns <= 30 ==> Pow2(turns) <= TWO_30
  {
    Pow2At30();
    if turns != 0 {
      hide Shl1;
      PowerLoopValue(turns - 1);
      if turns <= 30 {
        Pow2Monotone(turns, 30);
        Shl1Values(Pow2(turns - 1));
      } else {
        Shl1Values(TWO_30);
      }
    }
  }

  /** The loop of largestPowerOfTwoBelow ever finds its guard false exactly when n <= 2^30. */
  lemma PowerLoopStopsIff(n: int)
    ensures (exists turns: nat :: !(Shl1(PowerLoop(turns)) < n)) <==> n <= TWO_30
  {
    if n <= TWO_30 {
      PowerLoopValue(29);
      PowerLoopValue(30);
      Pow2At30();
      assert !(Shl1(PowerLoop(29)) < n);
    } else {
      forall turns: nat ensures Shl1(PowerLoop(turns)) < n {
        PowerLoopValue(turns + 1);
      }
    }
  }
}
