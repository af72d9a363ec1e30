/** A second reading of the tree hash: leaf hashes paired level by level, a lone last one moving up as it is. */
module MerkleLevels {
  import opened Basics
  import opened Merkle

  /** One level up: SHA-256 of 0x01 and two neighbours. */
  function PairUp(H: ByteHash, level: seq<seq<Byte>>): (up: seq<seq<Byte>>)
    ensures |up| == (|level| + 1) / 2
  {
    if |level| < 2 then level else [H([1] + level[0] + level[1])] + PairUp(H, level[2..])
  }

  /** Levels until one node is left. */
  function Fold(H: ByteHash, level: seq<seq<Byte>>): seq<Byte>
    requires level != []
    decreases |level|
  {
    if |level| == 1 then level[0] else Fold(H, PairUp(H, level))
  }

  /** SHA-256 of 0x00 and each leaf. */
  function LeafLevel(H: ByteHash, leaves: seq<seq<Byte>>): (level: seq<seq<Byte>>)
    ensures |level| == |leaves|
  {
    seq(|leaves|, i requires 0 <= i < |leaves| => H([0] + leaves[i]))
  }

  /** The split rule over the nodes of a level. */
  function RootOf(H: ByteHash, level: seq<seq<Byte>>): seq<Byte>
    requires level != []
    decreases |level|
  {
    if |level| == 1 then level[0]
    else
      var k := Split(|level|);
      NodeHash(H, RootOf(H, level[..k]), RootOf(H, level[k..]))
  }

  lemma {:induction false} MthIsRootOf(H: ByteHash, leaves: seq<seq<Byte>>)
    requires leaves != []
    ensures Mth(H, leaves) == RootOf(H, LeafLevel(H, leaves))
    decreases |leaves|
  {
    if |leaves| > 1 {
      var k := Split(|leaves|);
      MthIsRootOf(H, leaves[..k]);
      MthIsRootOf(H, leaves[k..]);
      assert LeafLevel(H, leaves)[..k] == LeafLevel(H, leaves[..k]);
      assert LeafLevel(H, leaves)[k..] == LeafLevel(H, leaves[k..]);
    }
  }

  /** Pairing respects any cut after an even number of nodes. */
  lemma {:induction false} PairUpTake(H: ByteHash, level: seq<seq<Byte>>, h: nat)
    requires 2 * h <= |level|
    ensures PairUp(H, level)[..h] == PairUp(H, level[..2 * h])
  {
    if h == 0 {
      assert level[..0] == [];
    } else {
      PairUpTake(H, level[2..], h - 1);
      assert level[2..][..2 * (h - 1)] == level[..2 * h][2..];
    }
  }

  lemma {:induction false} PairUpDrop(H: ByteHash, level: seq<seq<Byte>>, h: nat)
    requires 2 * h <= |level|
    ensures PairUp(H, level)[h..] == PairUp(H, level[2 * h..])
  {
    if h == 0 {
      assert level[0..] == level;
    } else {
      PairUpDrop(H, level[2..], h - 1);
      assert level[2..][2 * (h - 1)..] == level[2 * h..];
    }
  }

  lemma RootOfSplits(H: ByteHash, level: seq<seq<Byte>>)
    requires |level| >= 2
    ensures var k := Split(|level|);
      0 < k < |level| && RootOf(H, level) == NodeHash(H, RootOf(H, level[..k]), RootOf(H, level[k..]))
  {
    hide NodeHash;
  }

  lemma TwoNodes(H: ByteHash, level: seq<seq<Byte>>)
    requires |level| <= 2 && level != []
    ensures RootOf(H, level) == RootOf(H, PairUp(H, level))
  {
    if |level| == 2 {
      assert level[2..] == [];
      assert NodeHash(H, level[0], level[1]) == H([1] + level[0] + level[1]);
    }
  }

  /** Going one level up keeps the root. */
  lemma {:induction false} LevelKeepsRoot(H: ByteHash, level: seq<seq<Byte>>)
    requires level != []
    ensures PairUp(H, level) != [] && RootOf(H, level) == RootOf(H, PairUp(H, level))
    decreases |level|
  {
    hide *;
    var n, up := |level|, PairUp(H, level);
    if n <= 2 {
      TwoNodes(H, level);
    } else {
      var k, h := Split(n), Split((n + 1) / 2);
      SplitHalves(n);
      RootOfSplits(H, level);
      RootOfSplits(H, up);
      PairUpTake(H, level, h);
      PairUpDrop(H, level, h);
      LevelKeepsRoot(H, level[..k]);
      LevelKeepsRoot(H, level[k..]);
    }
  }

  lemma {:induction false} FoldIsRootOf(H: ByteHash, level: seq<seq<Byte>>)
    requires level != []
    ensures Fold(H, level) == RootOf(H, level)
    decreases |level|
  {
    if |level| > 1 {
      LevelKeepsRoot(H, level);
      FoldIsRootOf(H, PairUp(H, level));
    }
  }

  /** The recursive tree hash is what pairing level by level gives; the empty tree hashes nothing. */
  lemma RootIsFold(H: ByteHash, leaves: seq<seq<Byte>>)
    ensures Mth(H, leaves) == if leaves == [] then H([]) else Fold(H, LeafLevel(H, leaves))
  {
    if leaves != [] {
      MthIsRootOf(H, leaves);
      FoldIsRootOf(H, LeafLevel(H, leaves));
    }
  }
}
