/** Sums of a per-element score over a list, and how they behave under reordering. */
module Counting {

  function Sum<T>(s: seq<T>, f: T -> int): int {
    if s == [] then 0 else Sum(s[..|s| - 1], f) + f(s[|s| - 1])
  }

  lemma SumPrefix<T>(s: seq<T>, i: nat, f: T -> int)
    requires i < |s|
    ensures Sum(s[..i + 1], f) == Sum(s[..i], f) + f(s[i])
  {
    assert s[..i + 1][..i] == s[..i];
  }

  lemma {:induction false} SumConcat<T>(a: seq<T>, b: seq<T>, f: T -> int)
    ensures Sum(a + b, f) == Sum(a, f) + Sum(b, f)
  {
    if b == [] {
      assert a + b == a;
    } else {
      SumConcat(a, b[..|b| - 1], f);
      assert (a + b)[..|a + b| - 1] == a + b[..|b| - 1];
    }
  }

  lemma {:induction false} SumMonotone<T>(s: seq<T>, f: T -> int, g: T -> int)
    requires forall x | x in s :: f(x) <= g(x)
    ensures Sum(s, f) <= Sum(s, g)
  {
    if s != [] { SumMonotone(s[..|s| - 1], f, g); }
  }

  lemma {:induction false} SumEqual<T>(s: seq<T>, f: T -> int, g: T -> int)
    requires forall x | x in s :: f(x) == g(x)
    ensures Sum(s, f) == Sum(s, g)
  {
    if s != [] { SumEqual(s[..|s| - 1], f, g); }
  }

  /** `f + g <= h` on every element carries over to the sums. */
  lemma {:induction false} SumPairMonotone<T>(s: seq<T>, f: T -> int, g: T -> int, h: T -> int)
    requires forall x | x in s :: f(x) + g(x) <= h(x)
    ensures Sum(s, f) + Sum(s, g) <= Sum(s, h)
  {
    if s != [] { SumPairMonotone(s[..|s| - 1], f, g, h); }
  }

  /** `f <= g + h` on every element carries over to the sums. */
  lemma {:induction false} SumBelowPair<T>(s: seq<T>, f: T -> int, g: T -> int, h: T -> int)
    requires forall x | x in s :: f(x) <= g(x) + h(x)
    ensures Sum(s, f) <= Sum(s, g) + Sum(s, h)
  {
    if s != [] { SumBelowPair(s[..|s| - 1], f, g, h); }
  }

  lemma {:induction false} SumBounds<T>(s: seq<T>, f: T -> int, hi: int)
    requires forall x | x in s :: 0 <= f(x) <= hi
    ensures 0 <= Sum(s, f) <= |s| * hi
  {
    if s != [] {
      SumBounds(s[..|s| - 1], f, hi);
      assert |s| * hi == (|s| - 1) * hi + hi;
    }
  }

  /** A sum of non-negative scores is zero only if every score is. */
  lemma {:induction false} SumZeroIff<T>(s: seq<T>, f: T -> int)
    requires forall x | x in s :: f(x) >= 0
    ensures Sum(s, f) == 0 <==> forall x | x in s :: f(x) == 0
    ensures Sum(s, f) >= 0
  {
    if s != [] {
      var r, last := s[..|s| - 1], s[|s| - 1];
      assert s == r + [last];
      SumZeroIff(r, f);
    }
  }

  /** A permutation of `a` holds the last element of `a` somewhere; what is left permutes what is left. */
  lemma WithoutLast<T>(a: seq<T>, b: seq<T>) returns (i: nat)
    requires multiset(a) == multiset(b) && a != []
    ensures i < |b| && b[i] == a[|a| - 1]
    ensures multiset(a[..|a| - 1]) == multiset(b[..i] + b[i + 1..])
  {
    var init, last := a[..|a| - 1], a[|a| - 1];
    assert a == init + [last];
    assert last in multiset(b);
    i :| 0 <= i < |b| && b[i] == last;
    assert b == b[..i] + [last] + b[i + 1..];
    assert multiset(b) == multiset(b[..i]) + multiset{last} + multiset(b[i + 1..]);
    assert multiset(a) == multiset(init) + multiset{last};
    assert multiset(b[..i] + b[i + 1..]) == multiset(b[..i]) + multiset(b[i + 1..]) == multiset(b) - multiset{last};
  }

  /** The sum does not depend on the order of the list. */
  lemma {:induction false} SumPermutation<T>(a: seq<T>, b: seq<T>, f: T -> int)
    requires multiset(a) == multiset(b)
    ensures Sum(a, f) == Sum(b, f)
  {
    if a == [] {
      assert |multiset(b)| == 0;
    } else {
      var init, last := a[..|a| - 1], a[|a| - 1];
      var i := WithoutLast(a, b);
      var rest := b[..i] + b[i + 1..];
      assert b == b[..i] + [last] + b[i + 1..];
      SumPermutation(init, rest, f);
      SumConcat(b[..i] + [last], b[i + 1..], f);
      SumConcat(b[..i], [last], f);
      SumConcat(b[..i], b[i + 1..], f);
      assert [last][..0] == [];
      assert Sum([last], f) == f(last);
    }
  }

  function Map<S, T>(s: seq<S>, g: S -> T): (r: seq<T>)
    ensures |r| == |s|
  {
    seq(|s|, i requires 0 <= i < |s| => g(s[i]))
  }

  /** Two lists with the same scores position by position have the same sum. */
  lemma {:induction false} SumAligned<S, T>(s: seq<S>, t: seq<T>, f: S -> int, g: T -> int)
    requires |s| == |t| && forall i | 0 <= i < |s| :: f(s[i]) == g(t[i])
    ensures Sum(s, f) == Sum(t, g)
  {
    if s != [] { SumAligned(s[..|s| - 1], t[..|t| - 1], f, g); }
  }

  /** Mapping keeps permutations. */
  lemma {:induction false} MapPermutation<S, T>(a: seq<S>, b: seq<S>, g: S -> T)
    requires multiset(a) == multiset(b)
    ensures multiset(Map(a, g)) == multiset(Map(b, g))
  {
    if a == [] {
      assert |multiset(b)| == 0;
    } else {
      var init, last := a[..|a| - 1], a[|a| - 1];
      var i := WithoutLast(a, b);
      var rest := b[..i] + b[i + 1..];
      assert b == b[..i] + [last] + b[i + 1..];
      MapPermutation(init, rest, g);
      assert Map(a, g) == Map(init, g) + [g(last)];
      assert Map(b, g) == Map(rest, g)[..i] + [g(last)] + Map(rest, g)[i..];
      assert Map(rest, g) == Map(rest, g)[..i] + Map(rest, g)[i..];
    }
  }

  /** A 0/1 sum counts the places it is 1 at. */
  lemma {:induction false} SumCountsPlaces<T>(s: seq<T>, f: T -> int, places: set<nat>)
    requires forall i | i in places :: i < |s|
    requires forall i | 0 <= i < |s| :: f(s[i]) == if i in places then 1 else 0
    ensures Sum(s, f) == |places|
  {
    if s == [] {
      assert places == {};
    } else {
      var last := |s| - 1;
      SumCountsPlaces(s[..last], f, places - {last});
      if last in places { assert |places - {last}| == |places| - 1; } else { assert places - {last} == places; }
    }
  }
}
