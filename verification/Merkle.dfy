/** The RFC 6962 tree of merkle.ts: tree hash, audit paths, and the recursive meaning of a proof. */
module Merkle {
  import opened Basics
  import opened Int32

  const LEAF_PREFIX: seq<Byte> := [0]
  const NODE_PREFIX: seq<Byte> := [1]

  function LeafHash(H: ByteHash, leaf: seq<Byte>): Digest { H(LEAF_PREFIX + leaf) }

  function NodeHash(H: ByteHash, left: seq<Byte>, right: seq<Byte>): Digest {
    H(NODE_PREFIX + left + right)
  }

  /** The RFC 6962 split: the largest power of two strictly below `n`. */
  function Split(n: nat): (k: nat)
    requires n >= 2
    ensures 1 <= k < n <= 2 * k
  {
    if n == 2 then 1 else 2 * Split((n + 1) / 2)
  }

  ghost predicate IsPow2(k: nat) { exists e: nat :: k == Pow2(e) }

  lemma {:induction false} SplitIsPow2(n: nat)
    requires n >= 2
    ensures IsPow2(Split(n))
  {
    if n == 2 {
      assert Pow2(0) == 1;
    } else {
      SplitIsPow2((n + 1) / 2);
      var e: nat :| Split((n + 1) / 2) == Pow2(e);
      assert Split(n) == Pow2(e + 1);
    }
  }

  lemma {:induction false} Pow2Unique(a: nat, b: nat, n: nat)
    requires Pow2(a) < n <= 2 * Pow2(a) && Pow2(b) < n <= 2 * Pow2(b)
    ensures a == b
  {
    if a < b { Pow2Monotone(a + 1, b); }
    if b < a { Pow2Monotone(b + 1, a); }
  }

  lemma SplitUnique(n: nat, e: nat)
    requires n >= 2 && Pow2(e) < n <= 2 * Pow2(e)
    ensures Split(n) == Pow2(e)
  {
    SplitIsPow2(n);
    var f: nat :| Split(n) == Pow2(f);
    Pow2Unique(e, f, n);
  }

  /** The doubling loop; beyond 2^30 it never ends (Int32.PowerLoopStopsIff). */
  method LargestPowerOfTwoBelow(n: int) returns (k: int)
    requires n <= TWO_30
    ensures n < 2 ==> k == 1
    ensures n >= 2 ==> k == Split(n) && k < n <= 2 * k
  {
    k := 1;
    ghost var e: nat := 0;
    assert Pow2(0) == 1;
    hide Shl1, Split;
    while Shl1(k) < n
      invariant k == Pow2(e) && (k == 1 || k < n)
      decreases n - k
    {
      Shl1Values(k);
      k := Shl1(k);
      e := e + 1;
    }
    Shl1Values(k);
    if n >= 2 { SplitUnique(n, e); }
  }

  /** MTH(D[n]) of RFC 6962, section 2.1. */
  function Mth(H: ByteHash, leaves: seq<seq<Byte>>): Digest
    decreases |leaves|
  {
    if |leaves| == 0 then H([])
    else if |leaves| == 1 then LeafHash(H, leaves[0])
    else
      var k := Split(|leaves|);
      NodeHash(H, Mth(H, leaves[..k]), Mth(H, leaves[k..]))
  }

  /** PATH(m, D[n]) of RFC 6962, section 2.1.1, from leaf to root. */
  function Path(H: ByteHash, index: nat, leaves: seq<seq<Byte>>): (audit: seq<seq<Byte>>)
    requires index < |leaves|
    ensures forall i | 0 <= i < |audit| :: |audit[i]| == 32
    decreases |leaves|
  {
    if |leaves| == 1 then []
    else
      var k := Split(|leaves|);
      if index < k then Path(H, index, leaves[..k]) + [Mth(H, leaves[k..])]
      else Path(H, index - k, leaves[k..]) + [Mth(H, leaves[..k])]
  }

  /** How many siblings a proof for `index` in a tree of `n` leaves carries. */
  function PathLength(index: nat, n: nat): nat
    requires index < n
    decreases n
  {
    if n == 1 then 0
    else
      var k := Split(n);
      1 + if index < k then PathLength(index, k) else PathLength(index - k, n - k)
  }

  /**
   * The root that leaf hash `h` at `index` reaches through `audit` in a tree of `n` leaves,
   * read from the root downwards by the split rule; None when the audit has the wrong length.
   */
  function RootFrom(H: ByteHash, h: seq<Byte>, index: nat, n: nat, audit: seq<seq<Byte>>): (r: Option<seq<Byte>>)
    requires index < n
    ensures |h| == 32 && r.Some? ==> |r.value| == 32
    decreases n
  {
    if n == 1 then
      if audit == [] then Some(h) else None
    else if audit == [] then None
    else
      var k := Split(n);
      var last, rest := audit[|audit| - 1], audit[..|audit| - 1];
      if index < k then Joined(H, RootFrom(H, h, index, k, rest), last, true)
      else Joined(H, RootFrom(H, h, index - k, n - k, rest), last, false)
  }

  /** A subtree's root joined with its sibling, which stands on the right or on the left. */
  function Joined(H: ByteHash, below: Option<seq<Byte>>, sibling: seq<Byte>, onRight: bool): Option<seq<Byte>> {
    if below.None? then None
    else if onRight then Some(NodeHash(H, below.value, sibling))
    else Some(NodeHash(H, sibling, below.value))
  }

  // ---- the length of a proof -------------------------------------------------

  lemma {:induction false} PathHasPathLength(H: ByteHash, index: nat, leaves: seq<seq<Byte>>)
    requires index < |leaves|
    ensures |Path(H, index, leaves)| == PathLength(index, |leaves|)
    decreases |leaves|
  {
    hide Split, Mth, NodeHash, LeafHash;
    if |leaves| > 1 {
      var k := Split(|leaves|);
      if index < k { PathHasPathLength(H, index, leaves[..k]); }
      else { PathHasPathLength(H, index - k, leaves[k..]); }
    }
  }

  /** Whether a root comes out depends on the number of siblings alone. */
  lemma {:induction false} RootFromDefinedIff(H: ByteHash, h: seq<Byte>, index: nat, n: nat, audit: seq<seq<Byte>>)
    requires index < n
    ensures RootFrom(H, h, index, n, audit).Some? <==> |audit| == PathLength(index, n)
    decreases n
  {
    if n > 1 && audit != [] {
      var k := Split(n);
      var rest := audit[..|audit| - 1];
      if index < k { RootFromDefinedIff(H, h, index, k, rest); }
      else { RootFromDefinedIff(H, h, index - k, n - k, rest); }
    }
  }

  /** A proof is at most ceil(log2 n) long: at most `e` whenever n <= 2^e. */
  lemma {:induction false} PathLengthLogarithmic(index: nat, n: nat, e: nat)
    requires index < n <= Pow2(e)
    ensures PathLength(index, n) <= e
    decreases n
  {
    if n > 1 {
      var k := Split(n);
      SplitIsPow2(n);
      var f: nat :| k == Pow2(f);
      if f >= e { Pow2Monotone(e, f); }
      Pow2Monotone(f, e - 1);
      if index < k { PathLengthLogarithmic(index, k, e - 1); }
      else { PathLengthLogarithmic(index - k, n - k, e - 1); }
    }
  }

  lemma Unsnoc<T>(s: seq<T>, x: T)
    ensures (s + [x])[..|s + [x]| - 1] == s && (s + [x])[|s + [x]| - 1] == x
  {
  }

  // ---- completeness ------------------------------------------------------------

  /** Following the audit path of leaf `index` from its leaf hash gives the tree's root. */
  lemma {:induction false} PathReachesRoot(H: ByteHash, index: nat, leaves: seq<seq<Byte>>)
    requires index < |leaves|
    ensures RootFrom(H, LeafHash(H, leaves[index]), index, |leaves|, Path(H, index, leaves)) == Some(Mth(H, leaves))
    decreases |leaves|
  {
    hide Split, NodeHash, LeafHash;
    if |leaves| > 1 {
      var k := Split(|leaves|);
      if index < k {
        PathReachesRoot(H, index, leaves[..k]);
        Unsnoc(Path(H, index, leaves[..k]), Mth(H, leaves[k..]));
      } else {
        PathReachesRoot(H, index - k, leaves[k..]);
        Unsnoc(Path(H, index - k, leaves[k..]), Mth(H, leaves[..k]));
      }
    }
  }

  // ---- one level up: the bottom-up reading ---------------------------------------

  lemma SplitHalves(n: nat)
    requires n >= 3
    ensures Split(n) == 2 * Split((n + 1) / 2)
  {
  }

  /** The last leaf of an odd level has no sibling there and moves up unchanged. */
  lemma {:induction false} Promote(H: ByteHash, h: seq<Byte>, n: nat, audit: seq<seq<Byte>>)
    requires n >= 3 && n % 2 == 1
    ensures RootFrom(H, h, n - 1, n, audit) == RootFrom(H, h, (n - 1) / 2, (n + 1) / 2, audit)
    decreases n
  {
    hide Split, NodeHash;
    var k := Split(n);
    SplitHalves(n);
    if audit != [] && n - k > 1 {
      Promote(H, h, n - k, audit[..|audit| - 1]);
    }
  }

  /** The hash of a node and its sibling on the same level. */
  function Combine(H: ByteHash, h: seq<Byte>, index: nat, sibling: seq<Byte>): Digest {
    if index % 2 == 1 then NodeHash(H, sibling, h) else NodeHash(H, h, sibling)
  }

  /** A node with a sibling on its level consumes the first audit entry and moves up. */
  lemma {:induction false} ClimbOne(H: ByteHash, h: seq<Byte>, index: nat, n: nat, audit: seq<seq<Byte>>)
    requires index < n && n >= 2 && audit != []
    requires index % 2 == 1 || index + 1 < n
    ensures RootFrom(H, h, index, n, audit)
         == RootFrom(H, Combine(H, h, index, audit[0]), index / 2, (n + 1) / 2, audit[1..])
    decreases n
  {
    hide *;
    if n == 2 {
      ClimbPair(H, h, index, audit);
    } else {
      var k, rest, up := Split(n), audit[..|audit| - 1], audit[1..];
      HalfLevel(index, n);
      if rest == [] {
        ShortAudit(H, h, index, n, audit);
        RootFromDefinedIff(H, Combine(H, h, index, audit[0]), index / 2, (n + 1) / 2, up);
        EmptyPath(index / 2, (n + 1) / 2);
      } else {
        assert up[..|up| - 1] == rest[1..];
        RootFromUnfolds(H, h, index, n, audit);
        RootFromUnfolds(H, Combine(H, h, index, audit[0]), index / 2, (n + 1) / 2, up);
        if index < k {
          ClimbOne(H, h, index, k, rest);
        } else {
          ClimbOne(H, h, index - k, n - k, rest);
          CombineByParity(H, h, index, k, audit[0]);
        }
      }
    }
  }

  /** Halving a level of three or more halves its split and keeps every node on its side. */
  lemma HalfLevel(index: nat, n: nat)
    requires index < n && n >= 3
    ensures var k, h := Split(n), Split((n + 1) / 2);
      && k == 2 * h && (k + 1) / 2 == h && (index < k <==> index / 2 < h) && (n - k + 1) / 2 == (n + 1) / 2 - h
      && (index >= k ==> (index - k) / 2 == index / 2 - h && (index - k) % 2 == index % 2)
  {
    SplitHalves(n);
    hide Split;
  }

  lemma RootFromUnfolds(H: ByteHash, h: seq<Byte>, index: nat, n: nat, audit: seq<seq<Byte>>)
    requires index < n && n >= 2 && audit != []
    ensures var k, last, rest := Split(n), audit[|audit| - 1], audit[..|audit| - 1];
      RootFrom(H, h, index, n, audit) ==
      if index < k then Joined(H, RootFrom(H, h, index, k, rest), last, true)
      else Joined(H, RootFrom(H, h, index - k, n - k, rest), last, false)
  {
  }

  lemma EmptyPath(index: nat, n: nat)
    requires index < n
    ensures PathLength(index, n) == 0 <==> n == 1
  {
  }

  lemma CombineByParity(H: ByteHash, h: seq<Byte>, index: nat, k: nat, sibling: seq<Byte>)
    requires k <= index && k % 2 == 0
    ensures Combine(H, h, index - k, sibling) == Combine(H, h, index, sibling)
  {
  }

  lemma ClimbPair(H: ByteHash, h: seq<Byte>, index: nat, audit: seq<seq<Byte>>)
    requires index < 2 && audit != []
    ensures RootFrom(H, h, index, 2, audit) == RootFrom(H, Combine(H, h, index, audit[0]), 0, 1, audit[1..])
  {
    hide NodeHash;
    var rest := audit[..|audit| - 1];
    assert rest == [] <==> audit[1..] == [];
    assert RootFrom(H, h, 0, 1, rest) == if rest == [] then Some(h) else None;
  }

  /** One sibling is not enough on a level of three or more, unless the node is the lone last one. */
  lemma ShortAudit(H: ByteHash, h: seq<Byte>, index: nat, n: nat, audit: seq<seq<Byte>>)
    requires index < n && n >= 3 && |audit| == 1
    requires index % 2 == 1 || index + 1 < n
    ensures RootFrom(H, h, index, n, audit).None?
  {
    SplitHalves(n);
    var k := Split(n);
    assert audit[..0] == [];
    if index >= k {
      assert n - k > 1;
    }
  }
}
