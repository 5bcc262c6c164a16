/**
 * `TxInclusionProof`: proofs of inclusion of transactions in a block, and the two ways of making
 * one longer. The index is a `usize`, taken to be a 64-bit word.
 */
module TxInclusion {
  import opened Bits
  import opened MerkleRoot
  import opened InclusionProofs
  import opened FullMerkle

  const WORD_BITS: nat := 64

  /** `add_leave` on values: a new lowest level whose sibling is `leave`, on the right. */
  function AddedLeaf<T>(proof: InclusionProof<T>, leave: T): InclusionProof<T> {
    InclusionProof(Low(Shl(proof.index, 1), WORD_BITS), [leave] + proof.siblings)
  }

  /** `concat` on values: the levels of `second` on top of those of `first`. */
  function Concatenated<T>(first: InclusionProof<T>, second: InclusionProof<T>): InclusionProof<T> {
    InclusionProof(BitOr(first.index, Low(Shl(second.index, |first.siblings|), WORD_BITS)),
                   first.siblings + second.siblings)
  }

  class TxInclusionProof<T(!new)> {
    var index: nat
    var siblings: seq<T>

    constructor (proof: InclusionProof<T>)
      ensures Proof() == proof
    {
      index, siblings := proof.index, proof.siblings;
    }

    function Proof(): InclusionProof<T>
      reads this
    {
      InclusionProof(index, siblings)
    }

    /** From now on the proof takes an element where it took the hash of that element and `leave`. */
    method AddLeave(leave: T)
      modifies this
      ensures Proof() == AddedLeaf(old(Proof()), leave)
      ensures |old(siblings)| < WORD_BITS ==>
                forall h: (T, T) -> T, x :: Proof().Root(h, x) == old(Proof()).Root(h, h(x, leave))
    {
      if |siblings| < WORD_BITS {
        forall h: (T, T) -> T, x ensures AddedLeaf(Proof(), leave).Root(h, x) == Proof().Root(h, h(x, leave)) {
          AddedLeafRoot(h, Proof(), x, leave);
        }
      }
      index := Low(Shl(index, 1), WORD_BITS);
      siblings := [leave] + siblings;
    }

    /** From now on the proof applies what it was and then `second`. */
    method Concat(second: InclusionProof<T>)
      requires |siblings| < WORD_BITS
      modifies this
      ensures Proof() == Concatenated(old(Proof()), second)
      ensures old(index) < Pow2(|old(siblings)|) && |siblings| <= WORD_BITS ==>
                forall h: (T, T) -> T, x :: Proof().Root(h, x) == second.Root(h, old(Proof()).Root(h, x))
    {
      if index < Pow2(|siblings|) && |siblings| + |second.siblings| <= WORD_BITS {
        forall h: (T, T) -> T, x
          ensures Concatenated(Proof(), second).Root(h, x) == second.Root(h, Proof().Root(h, x))
        {
          ConcatenatedRoot(h, Proof(), second, x);
        }
      }
      index := BitOr(index, Low(Shl(second.index, |siblings|), WORD_BITS));
      siblings := siblings + second.siblings;
    }
  }

  /** After `add_leave(rest)` a proof takes `data` where it used to take the hash of both. */
  lemma AddedLeafRoot<T>(h: (T, T) -> T, proof: InclusionProof<T>, data: T, rest: T)
    requires |proof.siblings| < WORD_BITS
    ensures AddedLeaf(proof, rest).Root(h, data) == proof.Root(h, h(data, rest))
  {
    LowOfShl(proof.index, 1, WORD_BITS);
    var index := Low(proof.index, WORD_BITS - 1);
    assert Low(Shl(proof.index, 1), WORD_BITS) == 2 * index;
    assert ([rest] + proof.siblings)[1..] == proof.siblings;
    ClimbReadsLow(h, proof.index, proof.siblings, h(data, rest), WORD_BITS - 1);
  }

  /** A concatenated proof applies the first proof and then the second. */
  lemma ConcatenatedRoot<T>(h: (T, T) -> T, first: InclusionProof<T>, second: InclusionProof<T>, element: T)
    requires first.index < Pow2(|first.siblings|)
    requires |first.siblings| < WORD_BITS && |first.siblings| + |second.siblings| <= WORD_BITS
    ensures Concatenated(first, second).Root(h, element) == second.Root(h, first.Root(h, element))
  {
    var k := |first.siblings|;
    var high := Low(second.index, WORD_BITS - k);
    LowOfShl(second.index, k, WORD_BITS);
    BitOrDisjoint(first.index, high, k);
    var index := first.index + Shl(high, k);
    ClimbAppend(h, index, first.siblings, second.siblings, element);
    ClimbIgnoresHigh(h, first.index, high, first.siblings, element);
    ShrOfShl(high, first.index, k);
    ClimbReadsLow(h, second.index, second.siblings, first.Root(h, element), WORD_BITS - k);
  }

  // ----- Data requests and tallies, whose hashable bytes are two hashes -----

  type Bytes = seq<nat>

  /** `sha256_concat`, over any hash function of bytes. */
  function HashConcat(sha: Bytes -> Bytes): (Bytes, Bytes) -> Bytes {
    (a, b) => sha(a + b)
  }

  /** A transaction by the hashes of its data and of the rest of it. */
  datatype TwoPart = TwoPart(data: Bytes, rest: Bytes)
  {
    function HashableBytes(): Bytes {
      data + rest
    }

    function Hash(sha: Bytes -> Bytes): Bytes {
      sha(HashableBytes())
    }
  }

  function Hashes(sha: Bytes -> Bytes, txs: seq<TwoPart>): seq<Bytes> {
    seq(|txs|, i requires 0 <= i < |txs| => txs[i].Hash(sha))
  }

  /** `data_proof_of_inclusion` of transaction `i` of a block. */
  function DataProof(sha: Bytes -> Bytes, txs: seq<TwoPart>, i: nat): InclusionProof<Bytes>
    requires i < |txs|
  {
    AddedLeaf(AuditPath(HashConcat(sha), Hashes(sha, txs), i), txs[i].rest)
  }

  /** A data proof of inclusion takes the hash of the data to the root over the block's transactions. */
  lemma DataProofReachesRoot(sha: Bytes -> Bytes, txs: seq<TwoPart>, i: nat)
    requires i < |txs| <= Pow2(WORD_BITS - 1)
    ensures DataProof(sha, txs, i).Root(HashConcat(sha), txs[i].data) == TreeRoot(HashConcat(sha), Hashes(sha, txs))
    ensures |Hashes(sha, txs)| == |txs|
    ensures forall k :: 0 <= k < |txs| ==> Hashes(sha, txs)[k] == sha(txs[k].data + txs[k].rest)
  {
    var h, hashes := HashConcat(sha), Hashes(sha, txs);
    hide AuditPath, AddedLeaf, Pow2;
    AuditPathReachesRoot(h, hashes, i);
    AuditPathFits(h, hashes, i);
    LayersBound(h, hashes, WORD_BITS - 1);
    AddedLeafRoot(h, AuditPath(h, hashes, i), txs[i].data, txs[i].rest);
  }

  /** A data proof's index fits its siblings. */
  lemma DataProofFits(sha: Bytes -> Bytes, txs: seq<TwoPart>, i: nat, m: nat)
    requires i < |txs| <= Pow2(m) && m < WORD_BITS
    ensures var proof := DataProof(sha, txs, i);
            proof.index < Pow2(|proof.siblings|) && |proof.siblings| <= m + 1
  {
    var h, hashes := HashConcat(sha), Hashes(sha, txs);
    AuditPathFits(h, hashes, i);
    LayersBound(h, hashes, m);
    var path := AuditPath(h, hashes, i);
    hide AuditPath;
    LowAtMost(Shl(path.index, 1), WORD_BITS);
    assert Shl(path.index, 1) == 2 * path.index && Pow2(|path.siblings| + 1) == 2 * Pow2(|path.siblings|);
    hide Low, Shl;
  }

  /**
   * Each block's root is the one over the hashes of its transactions' two parts, or that of an
   * empty list when it has no transactions of the kind.
   */
  ghost predicate AreBlockRoots(sha: Bytes -> Bytes, emptyHash: Bytes, blocks: seq<seq<TwoPart>>, roots: seq<Bytes>) {
    && |roots| == |blocks|
    && forall b :: 0 <= b < |blocks| ==>
         roots[b] == if blocks[b] == [] then emptyHash else TreeRoot(HashConcat(sha), Hashes(sha, blocks[b]))
  }

  /**
   * `dr_proof_of_inclusion` and `tally_proof_of_inclusion`: the data proof in the block, with the
   * proof of the block's root on top, takes the hash of the data to the superblock's root.
   */
  lemma SuperblockProofReachesRoot(
    sha: Bytes -> Bytes, emptyHash: Bytes, blocks: seq<seq<TwoPart>>, roots: seq<Bytes>, b: nat, i: nat, m: nat, n: nat)
    requires AreBlockRoots(sha, emptyHash, blocks, roots)
    requires b < |blocks| <= Pow2(n) && i < |blocks[b]| <= Pow2(m) && m + 1 < WORD_BITS && m + 1 + n <= WORD_BITS
    ensures var h := HashConcat(sha);
            Concatenated(DataProof(sha, blocks[b], i), AuditPath(h, roots, b)).Root(h, blocks[b][i].data)
            == TreeRoot(h, roots)
  {
    var h := HashConcat(sha);
    Pow2Monotone(m, WORD_BITS - 1);
    DataProofReachesRoot(sha, blocks[b], i);
    DataProofFits(sha, blocks[b], i, m);
    AuditPathReachesRoot(h, roots, b);
    AuditPathFits(h, roots, b);
    LayersBound(h, roots, n);
    hide AuditPath, DataProof, Pow2, Concatenated;
    ConcatenatedRoot(h, DataProof(sha, blocks[b], i), AuditPath(h, roots, b), blocks[b][i].data);
  }

  /** Proofs through two trees, the root of the lower one being a leaf of the upper one. */
  lemma ConcatReachesUpperRoot<T>(h: (T, T) -> T, lower: seq<T>, i: nat, upper: seq<T>, j: nat, m: nat, n: nat)
    requires i < |lower| <= Pow2(m) && j < |upper| <= Pow2(n)
    requires m < WORD_BITS && m + n <= WORD_BITS
    requires upper[j] == TreeRoot(h, lower)
    ensures Concatenated(AuditPath(h, lower, i), AuditPath(h, upper, j)).Root(h, lower[i]) == TreeRoot(h, upper)
  {
    AuditPathReachesRoot(h, lower, i);
    AuditPathFits(h, lower, i);
    LayersBound(h, lower, m);
    AuditPathReachesRoot(h, upper, j);
    AuditPathFits(h, upper, j);
    LayersBound(h, upper, n);
    ConcatenatedRoot(h, AuditPath(h, lower, i), AuditPath(h, upper, j), lower[i]);
  }
}
