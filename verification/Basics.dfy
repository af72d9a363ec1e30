/** Shared value types: bytes, digests and the two hash functions the server uses. */
module Basics {

  datatype Option<+T> = None | Some(value: T)

  type Byte = b: int | 0 <= b < 256

  /** The output of SHA-256: exactly 32 bytes. */
  type Digest = d: seq<Byte> | |d| == 32 witness seq(32, _ => 0)

  /** SHA-256 is a parameter of the model: any function from byte strings to digests. */
  type ByteHash = seq<Byte> -> Digest

  /** `h` has no collision among the listed preimages. */
  ghost predicate InjectiveOn<T(!new)>(h: T -> Digest, preimages: set<T>) {
    forall x, y :: x in preimages && y in preimages && h(x) == h(y) ==> x == y
  }

  lemma InjectiveOnPair<T(!new)>(h: T -> Digest, preimages: set<T>, x: T, y: T)
    requires InjectiveOn(h, preimages) && x in preimages && y in preimages && h(x) == h(y)
    ensures x == y
  {
  }

  lemma InjectiveOnSubset<T(!new)>(h: T -> Digest, small: set<T>, large: set<T>)
    requires InjectiveOn(h, large) && small <= large
    ensures InjectiveOn(h, small)
  {
  }
}
