/** What a root and a proof commit to, given no collision among the byte strings actually hashed. */
module MerkleBinding {
  import opened Basics
  import opened Merkle
  import opened Inclusion
  import Hex

  /** Every byte string hashed to compute the tree hash of `leaves`. */
  ghost function TreePreimages(H: ByteHash, leaves: seq<seq<Byte>>): set<seq<Byte>>
    decreases |leaves|
  {
    if |leaves| == 0 then {[]}
    else if |leaves| == 1 then {LEAF_PREFIX + leaves[0]}
    else
      var k := Split(|leaves|);
      TreePreimages(H, leaves[..k]) + TreePreimages(H, leaves[k..])
      + {NODE_PREFIX + Mth(H, leaves[..k]) + Mth(H, leaves[k..])}
  }

  /** Every byte string hashed to climb from `h` through `audit`. */
  ghost function ClimbPreimages(H: ByteHash, h: seq<Byte>, index: nat, n: nat, audit: seq<seq<Byte>>): set<seq<Byte>>
    requires index < n
    decreases n
  {
    if n == 1 || audit == [] then {}
    else
      var k := Split(n);
      var last, rest := audit[|audit| - 1], audit[..|audit| - 1];
      if index < k then
        var below := RootFrom(H, h, index, k, rest);
        ClimbPreimages(H, h, index, k, rest) + if below.Some? then {NODE_PREFIX + below.value + last} else {}
      else
        var below := RootFrom(H, h, index - k, n - k, rest);
        ClimbPreimages(H, h, index - k, n - k, rest) + if below.Some? then {NODE_PREFIX + last + below.value} else {}
  }

  /** The shape of the preimage at the top of a tree: its first byte tells empty, leaf and node apart. */
  ghost function TopPreimage(H: ByteHash, leaves: seq<seq<Byte>>): (p: seq<Byte>)
    ensures H(p) == Mth(H, leaves)
    ensures p in TreePreimages(H, leaves)
    ensures |leaves| == 0 ==> p == []
    ensures |leaves| == 1 ==> p != [] && p[0] == 0 && p[1..] == leaves[0]
    ensures |leaves| >= 2 ==> p != [] && p[0] == 1
  {
    if |leaves| == 0 then []
    else if |leaves| == 1 then LEAF_PREFIX + leaves[0]
    else
      var k := Split(|leaves|);
      NODE_PREFIX + Mth(H, leaves[..k]) + Mth(H, leaves[k..])
  }

  /** What is hashed for a tree: nothing, a leaf after a 0 byte, or two digests after a 1 byte. */
  lemma {:induction false} PreimageShapes(H: ByteHash, leaves: seq<seq<Byte>>, p: seq<Byte>)
    requires p in TreePreimages(H, leaves)
    ensures || (p == [] && leaves == [])
            || (p != [] && p[0] == 0 && p[1..] in leaves)
            || (|p| == 65 && p[0] == 1)
    decreases |leaves|
  {
    if |leaves| == 1 {
      assert (LEAF_PREFIX + leaves[0])[1..] == leaves[0];
    } else if |leaves| >= 2 {
      var k := Split(|leaves|);
      if p in TreePreimages(H, leaves[..k]) { PreimageShapes(H, leaves[..k], p); }
      else if p in TreePreimages(H, leaves[k..]) { PreimageShapes(H, leaves[k..], p); }
    }
  }

  /** Two node preimages with children of equal width have equal children. */
  lemma NodeParts(l: seq<Byte>, r: seq<Byte>, l': seq<Byte>, r': seq<Byte>)
    requires NODE_PREFIX + l + r == NODE_PREFIX + l' + r' && |l| == |l'|
    ensures l == l' && r == r'
  {
    var p := NODE_PREFIX + l + r;
    assert p[1..1 + |l|] == l && p[1 + |l|..] == r;
    assert p[1..1 + |l'|] == l' && p[1 + |l'|..] == r';
  }

  lemma TreeUnfolds(H: ByteHash, leaves: seq<seq<Byte>>)
    requires |leaves| >= 2
    ensures var l, r, all := leaves[..Split(|leaves|)], leaves[Split(|leaves|)..], TreePreimages(H, leaves);
      && Mth(H, leaves) == H(NODE_PREFIX + Mth(H, l) + Mth(H, r))
      && NODE_PREFIX + Mth(H, l) + Mth(H, r) in all
      && TreePreimages(H, l) <= all && TreePreimages(H, r) <= all
  {
  }

  /** The topmost node of a climb: its preimage, and the climb below it. */
  lemma ClimbUnfolds(H: ByteHash, h: seq<Byte>, index: nat, n: nat, audit: seq<seq<Byte>>)
    requires index < n && n >= 2 && RootFrom(H, h, index, n, audit).Some?
    ensures audit != []
    ensures var k, last, rest := Split(n), audit[|audit| - 1], audit[..|audit| - 1];
      var left := index < k;
      var i, m := if left then index else index - k, if left then k else n - k;
      var below := RootFrom(H, h, i, m, rest);
      && below.Some? && ClimbPreimages(H, h, i, m, rest) <= ClimbPreimages(H, h, index, n, audit)
      && var top := if left then NODE_PREFIX + below.value + last else NODE_PREFIX + last + below.value;
         top in ClimbPreimages(H, h, index, n, audit) && RootFrom(H, h, index, n, audit) == Some(H(top))
  {
    hide Split;
  }

  /** Equal roots mean equal leaf lists, whatever their two lengths. */
  lemma {:induction false} RootInjective(H: ByteHash, a: seq<seq<Byte>>, b: seq<seq<Byte>>)
    requires InjectiveOn(H, TreePreimages(H, a) + TreePreimages(H, b))
    requires Mth(H, a) == Mth(H, b)
    ensures a == b
    decreases |a|
  {
    var all := TreePreimages(H, a) + TreePreimages(H, b);
    hide *;
    assert TopPreimage(H, a) == TopPreimage(H, b) by { InjectiveOnPair(H, all, TopPreimage(H, a), TopPreimage(H, b)); }
    if |a| >= 2 {
      TreeUnfolds(H, a);
      TreeUnfolds(H, b);
      var j, k := Split(|a|), Split(|b|);
      InjectiveOnPair(H, all, NODE_PREFIX + Mth(H, a[..j]) + Mth(H, a[j..]),
        NODE_PREFIX + Mth(H, b[..k]) + Mth(H, b[k..]));
      NodeParts(Mth(H, a[..j]), Mth(H, a[j..]), Mth(H, b[..k]), Mth(H, b[k..]));
      InjectiveOnSubset(H, TreePreimages(H, a[..j]) + TreePreimages(H, b[..k]), all);
      InjectiveOnSubset(H, TreePreimages(H, a[j..]) + TreePreimages(H, b[k..]), all);
      RootInjective(H, a[..j], b[..k]);
      RootInjective(H, a[j..], b[k..]);
      assert a == a[..j] + a[j..] && b == b[..k] + b[k..];
    }
  }

  /**
   * A proof from a 32-byte hash reaches the root of `leaves` exactly when it is the leaf hash and
   * the audit path of leaf `index`; the widths of the audit nodes need no check of their own.
   */
  lemma ClimbsToRootIff(H: ByteHash, h: seq<Byte>, index: nat, leaves: seq<seq<Byte>>, audit: seq<seq<Byte>>)
    requires index < |leaves|
    requires InjectiveOn(H, TreePreimages(H, leaves) + ClimbPreimages(H, h, index, |leaves|, audit))
    ensures |h| == 32 && RootFrom(H, h, index, |leaves|, audit) == Some(Mth(H, leaves))
       <==> h == LeafHash(H, leaves[index]) && audit == Path(H, index, leaves)
  {
    if h == LeafHash(H, leaves[index]) && audit == Path(H, index, leaves) {
      PathReachesRoot(H, index, leaves);
    } else if |h| == 32 && RootFrom(H, h, index, |leaves|, audit) == Some(Mth(H, leaves)) {
      ClimbsOnlyFromLeaf(H, h, index, leaves, audit);
      assert false;
    }
  }

  lemma PathUnfolds(H: ByteHash, index: nat, leaves: seq<seq<Byte>>)
    requires index < |leaves| && |leaves| >= 2
    ensures var k := Split(|leaves|);
      Path(H, index, leaves) == if index < k then Path(H, index, leaves[..k]) + [Mth(H, leaves[k..])]
                                else Path(H, index - k, leaves[k..]) + [Mth(H, leaves[..k])]
  {
  }

  lemma SingleLeaf(H: ByteHash, h: seq<Byte>, leaves: seq<seq<Byte>>, audit: seq<seq<Byte>>)
    requires |leaves| == 1 && RootFrom(H, h, 0, 1, audit) == Some(Mth(H, leaves))
    ensures h == LeafHash(H, leaves[0]) && audit == Path(H, 0, leaves)
  {
  }

  lemma {:induction false} ClimbsOnlyFromLeaf(H: ByteHash, h: seq<Byte>, index: nat, leaves: seq<seq<Byte>>,
      audit: seq<seq<Byte>>)
    requires index < |leaves| && |h| == 32
    requires InjectiveOn(H, TreePreimages(H, leaves) + ClimbPreimages(H, h, index, |leaves|, audit))
    requires RootFrom(H, h, index, |leaves|, audit) == Some(Mth(H, leaves))
    ensures h == LeafHash(H, leaves[index]) && audit == Path(H, index, leaves)
    decreases |leaves|
  {
    hide *;
    if |leaves| > 1 {
      var n, k := |leaves|, Split(|leaves|);
      var all := TreePreimages(H, leaves) + ClimbPreimages(H, h, index, n, audit);
      TreeUnfolds(H, leaves);
      ClimbUnfolds(H, h, index, n, audit);
      var last, rest := audit[|audit| - 1], audit[..|audit| - 1];
      assert audit == rest + [last];
      var node := NODE_PREFIX + Mth(H, leaves[..k]) + Mth(H, leaves[k..]);
      if index < k {
        var below := RootFrom(H, h, index, k, rest).value;
        InjectiveOnPair(H, all, NODE_PREFIX + below + last, node);
        NodeParts(below, last, Mth(H, leaves[..k]), Mth(H, leaves[k..]));
        InjectiveOnSubset(H, TreePreimages(H, leaves[..k]) + ClimbPreimages(H, h, index, k, rest), all);
        ClimbsOnlyFromLeaf(H, h, index, leaves[..k], rest);
        PathUnfolds(H, index, leaves);
      } else {
        var below := RootFrom(H, h, index - k, n - k, rest).value;
        InjectiveOnPair(H, all, NODE_PREFIX + last + below, node);
        assert |NODE_PREFIX + last + below| == |node|;
        NodeParts(last, below, Mth(H, leaves[..k]), Mth(H, leaves[k..]));
        InjectiveOnSubset(H, TreePreimages(H, leaves[k..]) + ClimbPreimages(H, h, index - k, n - k, rest), all);
        ClimbsOnlyFromLeaf(H, h, index - k, leaves[k..], rest);
        PathUnfolds(H, index, leaves);
      }
    } else {
      SingleLeaf(H, h, leaves, audit);
    }
  }

  // ---- the same facts about the text-level API ------------------------------------

  /** Every proof that inclusionProof builds is accepted against merkleRoot. */
  lemma Complete(H: ByteHash, leaves: seq<string>, index: int)
    requires 0 <= index < |leaves| && AllHex(leaves)
    ensures var proof := Prove(H, leaves, index).value;
      && Accepts(H, LeafHashText(H, leaves[index]).value, proof.index, proof.audit, proof.treeSize,
          MerkleRoot(H, leaves).value)
      && |proof.audit| == PathLength(index, |leaves|)
  {
    var data := Decoded(leaves);
    var audit := Path(H, index, data);
    PathReachesRoot(H, index, data);
    PathHasPathLength(H, index, data);
    DecodedEncoded(audit);
    Hex.DecodeEncode(LeafHash(H, data[index]));
    Hex.DecodeEncode(Mth(H, data));
  }

  lemma DecodedEncoded(nodes: seq<seq<Byte>>)
    ensures Decoded(Encoded(nodes)) == nodes
  {
    forall i | 0 <= i < |nodes| ensures Decoded(Encoded(nodes))[i] == nodes[i] {
      Hex.DecodeEncode(nodes[i]);
    }
  }

  /**
   * verifyInclusion against the root of `leaves`, for any texts: a proof with a 32-byte leaf hash
   * is accepted exactly when leaf hash and audit are, as bytes, those of leaf `index`.
   */
  lemma SoundAndComplete(H: ByteHash, leaves: seq<string>, leafHashHex: string, index: int, audit: seq<string>)
    requires 0 <= index < |leaves| && AllHex(leaves) && Hex.IsHex(leafHashHex) && AllHex(audit)
    requires InjectiveOn(H, TreePreimages(H, Decoded(leaves))
      + ClimbPreimages(H, Hex.DecodeBytes(leafHashHex), index, |leaves|, Decoded(audit)))
    ensures |leafHashHex| == 64 && Accepts(H, leafHashHex, index, audit, |leaves|, MerkleRoot(H, leaves).value)
       <==> ProvesLeaf(H, leaves, leafHashHex, index, audit)
  {
    Hex.DecodeEncode(Mth(H, Decoded(leaves)));
    ClimbsToRootIff(H, Hex.DecodeBytes(leafHashHex), index, Decoded(leaves), Decoded(audit));
  }

  /** The leaf hash and the audit path of leaf `index`, in hex of either case. */
  predicate ProvesLeaf(H: ByteHash, leaves: seq<string>, leafHashHex: string, index: int, audit: seq<string>)
    requires 0 <= index < |leaves| && AllHex(leaves) && Hex.IsHex(leafHashHex)
  {
    Hex.DecodeBytes(leafHashHex) == LeafHash(H, Decoded(leaves)[index])
      && Decoded(audit) == Path(H, index, Decoded(leaves))
  }

  /** What an accepted proof proves: the leaf it should, exactly when its leaf hash has 64 hex digits. */
  lemma AcceptedProvesIff(H: ByteHash, leaves: seq<string>, leafHashHex: string, index: int, audit: seq<string>)
    requires 0 <= index < |leaves| && AllHex(leaves)
    requires Accepts(H, leafHashHex, index, audit, |leaves|, MerkleRoot(H, leaves).value)
    requires InjectiveOn(H, TreePreimages(H, Decoded(leaves))
      + ClimbPreimages(H, Hex.DecodeBytes(leafHashHex), index, |leaves|, Decoded(audit)))
    ensures ProvesLeaf(H, leaves, leafHashHex, index, audit) <==> |leafHashHex| == 64
  {
    SoundAndComplete(H, leaves, leafHashHex, index, audit);
  }

  /**
   * The width does matter: the code checks only for hex. In every two-leaf tree, moving the last
   * byte of the left leaf hash over to its sibling gives texts of 62 and 66 digits that are
   * accepted and prove no leaf.
   */
  lemma WidthMatters(H: ByteHash, leaves: seq<string>)
    requires |leaves| == 2 && AllHex(leaves)
    ensures var l, r := LeafHash(H, Decoded(leaves)[0]), LeafHash(H, Decoded(leaves)[1]);
      var short, long := Hex.Encode(l[..31]), Hex.Encode(l[31..] + r);
      && Accepts(H, short, 0, [long], 2, MerkleRoot(H, leaves).value)
      && !ProvesLeaf(H, leaves, short, 0, [long])
  {
    var data := Decoded(leaves);
    var l, r := LeafHash(H, data[0]), LeafHash(H, data[1]);
    assert ProvesLeaf(H, leaves, Hex.Encode(l[..31]), 0, [Hex.Encode(l[31..] + r)]) ==> |l[..31]| == |l| by {
      Hex.DecodeEncode(l[..31]);
    }
    assert Encoded([l[31..] + r]) == [Hex.Encode(l[31..] + r)];
    hide *;
    MovedByte(H, data);
    AcceptsPrinted(H, l[..31], 0, [l[31..] + r], 2, Mth(H, data));
    PrintedRoot(H, leaves);
  }

  lemma PrintedRoot(H: ByteHash, leaves: seq<string>)
    requires AllHex(leaves)
    ensures MerkleRoot(H, leaves) == Some(Hex.Encode(Mth(H, Decoded(leaves))))
  {
  }

  /** Acceptance of printed bytes is about the bytes. */
  lemma AcceptsPrinted(H: ByteHash, h: seq<Byte>, index: int, audit: seq<seq<Byte>>, size: int, root: seq<Byte>)
    requires 0 <= index < size
    ensures Accepts(H, Hex.Encode(h), index, Encoded(audit), size, Hex.Encode(root))
       <==> RootFrom(H, h, index, size, audit) == Some(root)
  {
    hide RootFrom, Hex.DecodeBytes, Hex.Encode, Hex.IsHex;
    Hex.DecodeEncode(h);
    Hex.DecodeEncode(root);
    DecodedEncoded(audit);
  }

  lemma MovedByte(H: ByteHash, data: seq<seq<Byte>>)
    requires |data| == 2
    ensures var l, r := LeafHash(H, data[0]), LeafHash(H, data[1]);
      RootFrom(H, l[..31], 0, 2, [l[31..] + r]) == Some(Mth(H, data))
  {
    var l, r := LeafHash(H, data[0]), LeafHash(H, data[1]);
    var audit := [l[31..] + r];
    assert audit[..0] == [] && data[..1] == [data[0]] && data[1..] == [data[1]];
    assert NODE_PREFIX + l[..31] + (l[31..] + r) == NODE_PREFIX + l + r;
    assert RootFrom(H, l[..31], 0, 1, []) == Some(l[..31]);
  }
}
