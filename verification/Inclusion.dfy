/** The text-level API of merkle.ts, and the bottom-up verifier proved equal to the tree's own reading. */
module Inclusion {
  import opened Basics
  import opened Int32
  import opened Merkle
  import Hex

  predicate AllHex(texts: seq<string>) { forall i | 0 <= i < |texts| :: Hex.IsHex(texts[i]) }

  /** The decoded bytes of each text; malformed texts, which every caller screens, read as empty. */
  function Decoded(texts: seq<string>): (r: seq<seq<Byte>>)
    ensures |r| == |texts|
  {
    seq(|texts|, i requires 0 <= i < |texts| => if Hex.IsHex(texts[i]) then Hex.DecodeBytes(texts[i]) else [])
  }

  function Encoded(nodes: seq<seq<Byte>>): (r: seq<string>)
    ensures |r| == |nodes| && AllHex(r)
  {
    seq(|nodes|, i requires 0 <= i < |nodes| => Hex.Encode(nodes[i]))
  }

  /** leafHash; None where it throws. */
  function LeafHashText(H: ByteHash, leaf: string): Option<string> {
    if Hex.IsHex(leaf) then Some(Hex.Encode(LeafHash(H, Hex.DecodeBytes(leaf)))) else None
  }

  /** merkleRoot; None where it throws. */
  function MerkleRoot(H: ByteHash, leaves: seq<string>): Option<string> {
    if AllHex(leaves) then Some(Hex.Encode(Mth(H, Decoded(leaves)))) else None
  }

  datatype InclusionProof = InclusionProof(index: nat, treeSize: nat, audit: seq<string>)

  /** inclusionProof; None where it throws. */
  function Prove(H: ByteHash, leaves: seq<string>, index: int): Option<InclusionProof> {
    if 0 <= index < |leaves| && AllHex(leaves)
    then Some(InclusionProof(index, |leaves|, Encoded(Path(H, index, Decoded(leaves)))))
    else None
  }

  /** What a proof means: read down the tree by the split rule, it reaches the claimed root. */
  predicate Accepts(H: ByteHash, leafHashHex: string, index: int, audit: seq<string>, treeSize: int, root: string) {
    && 0 <= index < treeSize
    && Hex.IsHex(leafHashHex) && Hex.IsHex(root) && AllHex(audit)
    && RootFrom(H, Hex.DecodeBytes(leafHashHex), index, treeSize, Decoded(audit)) == Some(Hex.DecodeBytes(root))
  }

  lemma Halve(fn: nat, sn: nat)
    requires fn <= sn < TWO_31
    ensures Shr1(fn) == fn / 2 && Shr1(sn) == sn / 2 && (sn + 2) / 2 == sn / 2 + 1
  {
    Shr1HalvesIff(fn);
    Shr1HalvesIff(sn);
  }

  lemma NextNode(audit: seq<string>, consumed: nat)
    requires consumed < |audit| && Hex.IsHex(audit[consumed])
    ensures var rest := Decoded(audit)[consumed..];
      rest != [] && rest[0] == Hex.DecodeBytes(audit[consumed]) && rest[1..] == Decoded(audit)[consumed + 1..]
  {
  }

  lemma AtRoot(H: ByteHash, h: seq<Byte>, audit: seq<seq<Byte>>)
    ensures RootFrom(H, h, 0, 1, audit) == if audit == [] then Some(h) else None
  {
  }

  lemma NeedsSibling(H: ByteHash, h: seq<Byte>, index: nat, n: nat)
    requires index < n && n >= 2
    ensures RootFrom(H, h, index, n, []) == None
  {
  }

  /**
   * verifyInclusion: climbs with `fn` and `sn` from the leaf to the root. It decides exactly
   * `Accepts`, and on trees of up to 2^31 leaves its 32-bit shifts halve (Int32.Shr1HalvesIff).
   */
  method VerifyInclusion(H: ByteHash, leafHashHex: string, index: int, audit: seq<string>, treeSize: int, root: string)
    returns (ok: bool)
    requires treeSize <= TWO_31
    ensures ok <==> Accepts(H, leafHashHex, index, audit, treeSize, root)
  {
    hide RootFrom, PathLength, NodeHash, Shr1, Hex.IsHex, Hex.DecodeBytes, Hex.Encode, Hex.ToLower, Decoded, TWO_31;
    if treeSize <= 0 || index < 0 || index >= treeSize { return false; }
    if !Hex.IsHex(leafHashHex) || !Hex.IsHex(root) { return false; }
    var hash := Hex.DecodeBytes(leafHashHex);
    var fn, sn, consumed := index, treeSize - 1, 0;
    ghost var nodes := Decoded(audit);
    ghost var goal := RootFrom(H, hash, fn, treeSize, nodes);
    while sn > 0
      invariant 0 <= fn <= sn < TWO_31 && consumed <= |audit|
      invariant AllHex(audit[..consumed])
      invariant RootFrom(H, hash, fn, sn + 1, nodes[consumed..]) == goal
      decreases sn
    {
      if consumed >= |audit| {
        NeedsSibling(H, hash, fn, sn + 1);
        return false;
      }
      if !Hex.IsHex(audit[consumed]) { return false; }
      var sibling := Hex.DecodeBytes(audit[consumed]);
      NextNode(audit, consumed);
      consumed := consumed + 1;
      ghost var before, level, rest := hash, sn, nodes[consumed - 1..];
      if fn % 2 == 1 || fn == sn {
        hash := NodeHash(H, sibling, hash);
        while fn % 2 == 0
          invariant 0 < fn <= sn <= level
          invariant fn % 2 == 0 ==> fn == sn
          invariant RootFrom(H, before, fn, sn + 1, rest) == goal
          decreases fn
        {
          Promote(H, before, sn + 1, rest);
          Halve(fn, sn);
          fn := Shr1(fn);
          sn := Shr1(sn);
        }
        ClimbOne(H, before, fn, sn + 1, rest);
      } else {
        hash := NodeHash(H, hash, sibling);
        ClimbOne(H, before, fn, sn + 1, rest);
      }
      Halve(fn, sn);
      fn := Shr1(fn);
      sn := Shr1(sn);
    }
    AtRoot(H, hash, nodes[consumed..]);
    if consumed != |audit| { return false; }
    assert audit[..consumed] == audit;
    Hex.LowerCaseComparison(hash, root);
    ok := Hex.Encode(hash) == Hex.ToLower(root);
  }
}
