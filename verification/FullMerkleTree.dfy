/**
 * `FullMerkleTree`: every layer of the tree, built bottom up. An odd node at the end of a layer is
 * promoted to the next one unchanged.
 */
module FullMerkle {
  import opened Bits
  import opened MerkleRoot
  import opened Options
  import opened InclusionProofs

  function NextLayer<T>(h: (T, T) -> T, s: seq<T>): (layer: seq<T>)
    ensures |layer| == (|s| + 1) / 2
  {
    seq((|s| + 1) / 2, i requires 0 <= i < (|s| + 1) / 2 => Paired(h, s, i))
  }

  /** Chunk `i` of a layer, hashed into one node; an odd last node stays as it is. */
  function Paired<T>(h: (T, T) -> T, s: seq<T>, i: nat): T
    requires 2 * i < |s|
  {
    if 2 * i + 1 < |s| then h(s[2 * i], s[2 * i + 1]) else s[2 * i]
  }

  lemma NextLayerSplit<T>(h: (T, T) -> T, s: seq<T>, left: seq<T>, right: seq<T>)
    requires s == left + right && |left| % 2 == 0
    ensures NextLayer(h, s) == NextLayer(h, left) + NextLayer(h, right)
  {
    var k := |left| / 2;
    forall i | 0 <= i < (|s| + 1) / 2
      ensures NextLayer(h, s)[i] == (NextLayer(h, left) + NextLayer(h, right))[i]
    {
      if k <= i {
        assert Paired(h, s, i) == Paired(h, right, i - k);
      }
    }
  }

  /** Replacing a list by its paired layer leaves the root unchanged. */
  lemma {:induction false} LayerKeepsRoot<T>(h: (T, T) -> T, s: seq<T>)
    requires s != []
    ensures TreeRoot(h, NextLayer(h, s)) == TreeRoot(h, s)
    decreases |s|
  {
    hide TreeRoot;
    if |s| <= 2 {
      SmallLayer(h, s);
    } else {
      var level := Level(|s|);
      var left, right := s[..Pow2(level)], s[Pow2(level)..];
      LayerKeepsRoot(h, left);
      LayerKeepsRoot(h, right);
      assert s == left + right;
      LayerStep(h, left, right, level);
    }
  }

  lemma LayerStep<T>(h: (T, T) -> T, left: seq<T>, right: seq<T>, level: nat)
    requires level > 0 && |left| == Pow2(level) && 0 < |right| <= Pow2(level)
    ensures TreeRoot(h, left + right) == h(TreeRoot(h, left), TreeRoot(h, right))
    ensures TreeRoot(h, NextLayer(h, left + right))
         == h(TreeRoot(h, NextLayer(h, left)), TreeRoot(h, NextLayer(h, right)))
  {
    hide TreeRoot;
    NextLayerSplit(h, left + right, left, right);
    RootOfBlocks(h, left, right, level);
    RootOfBlocks(h, NextLayer(h, left), NextLayer(h, right), level - 1);
  }

  lemma SmallLayer<T>(h: (T, T) -> T, s: seq<T>)
    requires 1 <= |s| <= 2
    ensures TreeRoot(h, NextLayer(h, s)) == TreeRoot(h, s)
  {
  }

  /** All the layers over `s`, from the leaves to the root. */
  function Layers<T>(h: (T, T) -> T, s: seq<T>): (layers: seq<seq<T>>)
    requires s != []
    ensures layers != [] && layers[0] == s
    decreases |s|
  {
    if |s| == 1 then [s] else [s] + Layers(h, NextLayer(h, s))
  }

  lemma {:induction false} LastLayerIsRoot<T>(h: (T, T) -> T, s: seq<T>)
    requires s != []
    ensures Layers(h, s)[|Layers(h, s)| - 1] == [TreeRoot(h, s)]
    decreases |s|
  {
    if |s| > 1 {
      LastLayerIsRoot(h, NextLayer(h, s));
      LayerKeepsRoot(h, s);
    }
  }

  /** `i ^ 1` */
  function Sibling(i: nat): nat {
    if i % 2 == 0 then i + 1 else i - 1
  }

  /** The siblings met on the way up from node `i`: a layer without one contributes nothing. */
  function Path<T>(layers: seq<seq<T>>, i: nat): (proof: InclusionProof<T>) {
    if layers == [] then
      InclusionProof(0, [])
    else
      var above := Path(layers[1..], i / 2);
      if Sibling(i) < |layers[0]| then
        InclusionProof(2 * above.index + i % 2, [layers[0][Sibling(i)]] + above.siblings)
      else
        above
  }

  /** The audit path of leaf `i` of `s`. */
  function AuditPath<T>(h: (T, T) -> T, s: seq<T>, i: nat): (proof: InclusionProof<T>)
    requires i < |s|
  {
    Path(Layers(h, s), i)
  }

  /** One layer's step of an audit path. */
  lemma AuditStep<T>(h: (T, T) -> T, s: seq<T>, i: nat) returns (above: InclusionProof<T>)
    requires i < |s|
    ensures |s| == 1 ==> AuditPath(h, s, i) == InclusionProof(0, [])
    ensures |s| > 1 ==> above == AuditPath(h, NextLayer(h, s), i / 2)
    ensures |s| > 1 ==>
              AuditPath(h, s, i)
              == if Sibling(i) < |s| then InclusionProof(2 * above.index + i % 2, [s[Sibling(i)]] + above.siblings)
                 else above
  {
    above := Path(Layers(h, s)[1..], i / 2);
  }

  /** Every leaf's audit path takes it to the recursive root. */
  lemma {:induction false} AuditPathReachesRoot<T>(h: (T, T) -> T, s: seq<T>, i: nat)
    requires i < |s|
    ensures AuditPath(h, s, i).Root(h, s[i]) == TreeRoot(h, s)
    decreases |s|
  {
    hide Climb, AuditPath;
    var above := AuditStep(h, s, i);
    if |s| == 1 {
      NoClimb(h, 0, s[0]);
    } else {
      AuditPathReachesRoot(h, NextLayer(h, s), i / 2);
      LayerKeepsRoot(h, s);
      ClimbStep(h, s, i, above);
    }
  }

  lemma NoClimb<T>(h: (T, T) -> T, index: nat, element: T)
    ensures Climb(h, index, [], element) == element
  {
  }

  lemma ClimbOnce<T>(h: (T, T) -> T, bit: nat, sibling: T, above: InclusionProof<T>, element: T)
    requires bit <= 1
    ensures Climb(h, 2 * above.index + bit, [sibling] + above.siblings, element)
         == Climb(h, above.index, above.siblings, if bit == 1 then h(sibling, element) else h(element, sibling))
  {
    var below := [sibling] + above.siblings;
    assert below[0] == sibling && below[1..] == above.siblings;
  }

  lemma ClimbStep<T>(h: (T, T) -> T, s: seq<T>, i: nat, above: InclusionProof<T>)
    requires i < |s|
    ensures Sibling(i) < |s| ==>
              InclusionProof(2 * above.index + i % 2, [s[Sibling(i)]] + above.siblings).Root(h, s[i])
              == above.Root(h, NextLayer(h, s)[i / 2])
    ensures Sibling(i) >= |s| ==> NextLayer(h, s)[i / 2] == s[i]
  {
    hide Climb;
    assert NextLayer(h, s)[i / 2] == Paired(h, s, i / 2);
    if Sibling(i) < |s| {
      ClimbOnce(h, i % 2, s[Sibling(i)], above, s[i]);
    }
  }

  /** An audit path's index fits its siblings, and there are fewer siblings than layers. */
  lemma {:induction false} AuditPathFits<T>(h: (T, T) -> T, s: seq<T>, i: nat)
    requires i < |s|
    ensures AuditPath(h, s, i).index < Pow2(|AuditPath(h, s, i).siblings|)
    ensures |AuditPath(h, s, i).siblings| < |Layers(h, s)|
    decreases |s|
  {
    hide AuditPath;
    var above := AuditStep(h, s, i);
    if |s| > 1 {
      AuditPathFits(h, NextLayer(h, s), i / 2);
    }
  }

  /** Proof `p` hangs below (or at) the position that proof `q` speaks of. */
  predicate Below<T>(p: InclusionProof<T>, q: InclusionProof<T>) {
    |q.siblings| <= |p.siblings| && Shr(p.index, |p.siblings| - |q.siblings|) == q.index
  }

  /**
   * The index and the length of a proof name one position: the position of no leaf lies below or
   * at that of another, so two leaves never have the same index and length.
   */
  lemma {:induction false} AuditPathsDistinct<T>(h: (T, T) -> T, s: seq<T>, i: nat, j: nat)
    requires i < |s| && j < |s| && i != j
    ensures !Below(AuditPath(h, s, i), AuditPath(h, s, j))
    decreases |s|
  {
    hide AuditPath;
    var pAbove := AuditStep(h, s, i);
    var qAbove := AuditStep(h, s, j);
    if i / 2 != j / 2 {
      AuditPathsDistinct(h, NextLayer(h, s), i / 2, j / 2);
      AuditPathsDistinct(h, NextLayer(h, s), j / 2, i / 2);
      ChildrenApart(pAbove, qAbove, AuditPath(h, s, i), AuditPath(h, s, j));
    }
  }

  /** `p` is the position `above`, or one of the two right below it. */
  predicate ChildOf<T>(p: InclusionProof<T>, above: InclusionProof<T>) {
    || (|p.siblings| == |above.siblings| && p.index == above.index)
    || (|p.siblings| == |above.siblings| + 1 && p.index / 2 == above.index)
  }

  lemma ChildrenApart<T>(
    pAbove: InclusionProof<T>, qAbove: InclusionProof<T>, p: InclusionProof<T>, q: InclusionProof<T>)
    requires ChildOf(p, pAbove) && ChildOf(q, qAbove)
    requires !Below(pAbove, qAbove) && !Below(qAbove, pAbove)
    ensures !Below(p, q)
  {
    if Below(p, q) {
      var d := |p.siblings| - |q.siblings|;
      ShrStep(p.index, d);
      ShrStep(pAbove.index, d);
      assert Shr(qAbove.index, 1) == qAbove.index / 2;
      assert false;
    }
  }

  predicate SamePosition<T>(p: InclusionProof<T>, q: InclusionProof<T>) {
    p.index == q.index && |p.siblings| == |q.siblings|
  }

  /**
   * With an injective hash, a proof that speaks of leaf `i`'s position and reaches the root can
   * only be that leaf's own proof, and no other leaf's proof speaks of that position.
   */
  lemma ProofBindsLeaf<T(!new)>(h: (T, T) -> T, s: seq<T>, i: nat, proof: InclusionProof<T>, element: T)
    requires Injective(h) && i < |s|
    requires SamePosition(AuditPath(h, s, i), proof)
    ensures proof.Root(h, element) == TreeRoot(h, s) <==> element == s[i] && proof == AuditPath(h, s, i)
    ensures forall j: nat | j < |s| && SamePosition(AuditPath(h, s, j), proof) :: j == i
  {
    var own := AuditPath(h, s, i);
    AuditPathReachesRoot(h, s, i);
    if proof.Root(h, element) == TreeRoot(h, s) && (element != s[i] || proof != own) {
      var a, b, c, d := ForgeryGivesCollision(h, own.index, proof.siblings, own.siblings, element, s[i]);
      assert false;
    }
    forall j: nat | j < |s| && SamePosition(AuditPath(h, s, j), proof)
      ensures j == i
    {
      if j != i {
        AuditPathsDistinct(h, s, j, i);
      }
    }
  }

  /** A tree over at most `Pow2(k)` leaves has at most `k + 1` layers. */
  lemma {:induction false} LayersBound<T>(h: (T, T) -> T, s: seq<T>, k: nat)
    requires 0 < |s| <= Pow2(k)
    ensures |Layers(h, s)| <= k + 1
    decreases |s|
  {
    if |s| > 1 {
      LayersBound(h, NextLayer(h, s), k - 1);
    }
  }

  datatype FullMerkleTree<!T(!new)> = FullMerkleTree(nodes: seq<seq<T>>, hashConcat: (T, T) -> T, emptyHash: T)
  {
    /** The layers are those of some list of leaves. */
    ghost predicate Valid() {
      nodes != [] ==> nodes[0] != [] && nodes == Layers(hashConcat, nodes[0])
    }

    ghost function Leaves(): seq<T> {
      if nodes == [] then [] else nodes[0]
    }

    static method Build(leaves: seq<T>, hashConcat: (T, T) -> T) returns (nodes: seq<seq<T>>)
      ensures nodes == if leaves == [] then [] else Layers(hashConcat, leaves)
    {
      if leaves == [] {
        return [];
      }
      nodes := [leaves];
      while |nodes[|nodes| - 1]| > 1
        invariant nodes != [] && nodes[|nodes| - 1] != []
        invariant nodes[..|nodes| - 1] + Layers(hashConcat, nodes[|nodes| - 1]) == Layers(hashConcat, leaves)
        decreases |nodes[|nodes| - 1]|
      {
        ghost var last := nodes[|nodes| - 1];
        assert nodes == nodes[..|nodes| - 1] + [last];
        nodes := nodes + [NextLayer(hashConcat, nodes[|nodes| - 1])];
      }
    }

    method Root() returns (root: T)
      requires Valid()
      ensures root == MerkleTreeRoot(hashConcat, emptyHash, Leaves())
    {
      if nodes == [] {
        return emptyHash;
      }
      LastLayerIsRoot(hashConcat, nodes[0]);
      root := nodes[|nodes| - 1][0];
    }

    /** A proof is returned exactly for the valid indexes, and it takes that leaf to the root. */
    method ProofOfInclusion(index: nat) returns (proof: Option<InclusionProof<T>>)
      requires Valid()
      ensures proof.Some? <==> index < |Leaves()|
      ensures proof.Some? ==>
                && proof.value == AuditPath(hashConcat, Leaves(), index)
                && proof.value.Root(hashConcat, Leaves()[index]) == TreeRoot(hashConcat, Leaves())
                && proof.value.index < Pow2(|proof.value.siblings|)
                && |proof.value.siblings| < |nodes|
    {
      if nodes == [] || index >= |nodes[0]| {
        return None;
      }
      var proofIndex, v := CollectSiblings(nodes, index);
      AuditPathReachesRoot(hashConcat, nodes[0], index);
      AuditPathFits(hashConcat, nodes[0], index);
      proof := Some(InclusionProof(proofIndex, v));
    }
  }

  /** The loop of `inclusion_proof`. */
  method CollectSiblings<T>(nodes: seq<seq<T>>, index: nat) returns (proofIndex: nat, v: seq<T>)
    ensures InclusionProof(proofIndex, v) == Path(nodes, index)
  {
    hide Extend, Path, Shl, Pow2, BitOr;
    var i: nat := index;
    proofIndex, v := 0, [];
    assert nodes[0..] == nodes;
    ExtendNothing(Path(nodes, index));
    for k := 0 to |nodes|
      invariant proofIndex < Pow2(|v|)
      invariant Extend(proofIndex, v, Path(nodes[k..], i)) == Path(nodes, index)
    {
      var layer := nodes[k];
      assert nodes[k..] == [layer] + nodes[k + 1..];
      PathStep(layer, nodes[k + 1..], i);
      if Sibling(i) < |layer| {
        OneMoreBit(proofIndex, i % 2, |v|);
        ExtendStep(proofIndex, v, i % 2, layer[Sibling(i)], Path(nodes[k + 1..], i / 2));
        proofIndex := BitOr(proofIndex, Shl(i % 2, |v|));
        v := v + [layer[Sibling(i)]];
      }
      i := i / 2;
    }
    ExtendToTheTop(proofIndex, v, i);
  }

  lemma PathStep<T>(layer: seq<T>, layers: seq<seq<T>>, i: nat)
    ensures var above := Path(layers, i / 2);
            Path([layer] + layers, i)
            == if Sibling(i) < |layer| then InclusionProof(2 * above.index + i % 2, [layer[Sibling(i)]] + above.siblings)
               else above
  {
    assert ([layer] + layers)[1..] == layers;
  }

  /** The proof that starts with the steps `(index, siblings)` and goes on with `above`. */
  ghost function Extend<T>(index: nat, siblings: seq<T>, above: InclusionProof<T>): InclusionProof<T> {
    InclusionProof(index + Shl(above.index, |siblings|), siblings + above.siblings)
  }

  lemma ExtendNothing<T>(proof: InclusionProof<T>)
    ensures Extend(0, [], proof) == proof && 0 < Pow2(0)
  {
    assert [] + proof.siblings == proof.siblings;
  }

  lemma ExtendToTheTop<T>(index: nat, v: seq<T>, i: nat)
    ensures Extend(index, v, Path([], i)) == InclusionProof(index, v)
  {
    ShlZero(|v|);
  }

  lemma Reassociate<T>(v: seq<T>, sibling: T, rest: seq<T>)
    ensures v + ([sibling] + rest) == v + [sibling] + rest
  {
  }

  lemma ExtendStep<T>(index: nat, v: seq<T>, bit: nat, sibling: T, above: InclusionProof<T>)
    ensures Extend(index, v, InclusionProof(2 * above.index + bit, [sibling] + above.siblings))
         == Extend(index + Shl(bit, |v|), v + [sibling], above)
  {
    hide Shl;
    NumbersStep(index, bit, above.index, |v|);
    Reassociate(v, sibling, above.siblings);
    assert |v + [sibling]| == |v| + 1;
  }

  lemma NumbersStep(index: nat, bit: nat, above: nat, k: nat)
    ensures index + Shl(2 * above + bit, k) == index + Shl(bit, k) + Shl(above, k + 1)
  {
    ShlDouble(above, k);
    ShlAdd(2 * above, bit, k);
  }

  lemma OneMoreBit(index: nat, bit: nat, k: nat)
    requires index < Pow2(k) && bit <= 1
    ensures BitOr(index, Shl(bit, k)) == index + Shl(bit, k) < Pow2(k + 1)
  {
    BitOrDisjoint(index, bit, k);
    ShlZero(k);
    ShlPow2(0, k);
  }
}
