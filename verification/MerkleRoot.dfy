/** The recursive Merkle root: the reference every other root computation is compared with. */
module MerkleRoot {
  import opened Bits

  /**
   * `merkle_tree_root_with_hashing_function`. The source panics on an empty slice, and its public
   * wrapper `MerkleTreeRoot` never passes one.
   */
  function TreeRoot<T>(hashConcat: (T, T) -> T, hashes: seq<T>): T
    requires hashes != []
    decreases |hashes|
  {
    if |hashes| == 1 then
      hashes[0]
    else if |hashes| == 2 then
      hashConcat(hashes[0], hashes[1])
    else
      SplitPoint(|hashes|);
      var k := NextPowerOfTwo((|hashes| + 1) / 2);
      hashConcat(TreeRoot(hashConcat, hashes[..k]), TreeRoot(hashConcat, hashes[k..]))
  }

  function MerkleTreeRoot<T>(hashConcat: (T, T) -> T, emptyHash: T, hashes: seq<T>): T {
    if hashes == [] then emptyHash else TreeRoot(hashConcat, hashes)
  }

  /** The split point is the largest power of two below `n`, as in section 2.1 of RFC 6962. */
  lemma SplitPoint(n: nat)
    requires n >= 2
    ensures NextPowerOfTwo((n + 1) / 2) == Pow2(Level(n)) < n <= 2 * Pow2(Level(n))
  {
    NextPowerOfTwoIs((n + 1) / 2, Level(n));
  }

  lemma {:induction false} LevelIs(n: nat, j: nat)
    requires Pow2(j) < n <= Pow2(j + 1)
    ensures n >= 2 && Level(n) == j
  {
    if Level(n) < j {
      Pow2Monotone(Level(n) + 1, j);
    } else if j < Level(n) {
      Pow2Monotone(j + 1, Level(n));
    }
  }

  /** Root of a list that fills more than one and at most two blocks of `Pow2(j)` leaves. */
  lemma RootSplit<T>(hashConcat: (T, T) -> T, s: seq<T>, j: nat)
    requires Pow2(j) < |s| <= Pow2(j + 1)
    ensures TreeRoot(hashConcat, s) == hashConcat(TreeRoot(hashConcat, s[..Pow2(j)]), TreeRoot(hashConcat, s[Pow2(j)..]))
  {
    LevelIs(|s|, j);
    SplitPoint(|s|);
  }

  /** A full block followed by at most one more block's worth of leaves. */
  lemma RootOfBlocks<T>(h: (T, T) -> T, left: seq<T>, right: seq<T>, level: nat)
    requires |left| == Pow2(level) && 0 < |right| <= Pow2(level)
    ensures TreeRoot(h, left + right) == h(TreeRoot(h, left), TreeRoot(h, right))
  {
    RootSplit(h, left + right, level);
    assert (left + right)[..Pow2(level)] == left;
    assert (left + right)[Pow2(level)..] == right;
  }
}
