/**
 * `ProgressiveMerkleTree`: a vector of optional subtree roots that works like a binary counter.
 * Slot `i` of a vector of `n` slots stands for level `n - 1 - i`.
 */
module ProgressiveMerkle {
  import opened Bits
  import opened MerkleRoot
  import opened Options

  /** An empty slot stands for no leaves, a filled one for a full block of its level. */
  ghost predicate SlotHolds<T(!new)>(h: (T, T) -> T, slot: Option<T>, block: seq<T>, level: nat) {
    match slot
    case None => block == []
    case Some(x) => |block| == Pow2(level) && x == TreeRoot(h, block)
  }

  ghost predicate SlotsHold<T(!new)>(h: (T, T) -> T, leaves: seq<Option<T>>, blocks: seq<seq<T>>) {
    && |leaves| == |blocks|
    && forall i :: 0 <= i < |leaves| ==> SlotHolds(h, leaves[i], blocks[i], |leaves| - 1 - i)
  }

  ghost function Flatten<T>(blocks: seq<seq<T>>): seq<T> {
    if blocks == [] then [] else blocks[0] + Flatten(blocks[1..])
  }

  lemma {:induction false} FlattenEmpty<T>(blocks: seq<seq<T>>)
    requires forall k :: 0 <= k < |blocks| ==> blocks[k] == []
    ensures Flatten(blocks) == []
  {
    if blocks != [] {
      FlattenEmpty(blocks[1..]);
    }
  }

  lemma {:induction false} FlattenSetLast<T>(blocks: seq<seq<T>>, i: nat, block: seq<T>)
    requires i < |blocks|
    requires forall k :: i <= k < |blocks| ==> blocks[k] == []
    ensures Flatten(blocks[i := block]) == Flatten(blocks) + block
  {
    if i == 0 {
      FlattenEmpty(blocks);
      FlattenEmpty(blocks[1..]);
      assert blocks[0 := block][1..] == blocks[1..];
    } else {
      FlattenSetLast(blocks[1..], i - 1, block);
      assert blocks[i := block][1..] == blocks[1..][i - 1 := block];
    }
  }

  /** The slots of a vector cannot hold as many leaves as one slot of the next level. */
  lemma {:induction false} LengthBelow<T(!new)>(h: (T, T) -> T, leaves: seq<Option<T>>, blocks: seq<seq<T>>)
    requires SlotsHold(h, leaves, blocks)
    ensures |Flatten(blocks)| < Pow2(|leaves|)
    decreases |leaves|
  {
    if leaves != [] {
      assert SlotHolds(h, leaves[0], blocks[0], |leaves| - 1);
      LengthBelow(h, leaves[1..], blocks[1..]);
    }
  }

  lemma {:induction false} FlattenSplit<T>(blocks: seq<seq<T>>, i: nat)
    requires i < |blocks|
    ensures Flatten(blocks) == Flatten(blocks[..i]) + blocks[i] + Flatten(blocks[i + 1..])
  {
    if i > 0 {
      FlattenSplit(blocks[1..], i - 1);
      assert blocks[1..][..i - 1] == blocks[..i][1..];
      assert blocks[1..][i..] == blocks[i + 1..];
    }
  }

  /** The blocks before slot `i` are whole double blocks of its level. */
  lemma {:induction false} HigherBlocks<T(!new)>(
    h: (T, T) -> T, leaves: seq<Option<T>>, blocks: seq<seq<T>>, i: nat) returns (q: nat)
    requires SlotsHold(h, leaves, blocks)
    requires i < |leaves|
    ensures |Flatten(blocks[..i])| == Shl(q, |leaves| - i)
    decreases i
  {
    if i == 0 {
      q := 0;
      ShlZero(|leaves|);
    } else {
      var n := |leaves|;
      var inner := HigherBlocks(h, leaves[1..], blocks[1..], i - 1);
      assert blocks[..i][1..] == blocks[1..][..i - 1];
      assert SlotHolds(h, leaves[0], blocks[0], n - 1);
      ShlPow2(i - 1, n - i);
      q := if leaves[0].Some? then Pow2(i - 1) + inner else inner;
      ShlAdd(Pow2(i - 1), inner, n - i);
    }
  }

  /**
   * The binary-counter law: slot `i` is filled exactly when its level's bit of the push count is
   * set, and then holds the root of that level's perfect block, which starts after the complete
   * double blocks that the higher levels account for.
   */
  lemma SlotContents<T(!new)>(h: (T, T) -> T, leaves: seq<Option<T>>, blocks: seq<seq<T>>, i: nat)
    requires SlotsHold(h, leaves, blocks)
    requires i < |leaves|
    ensures var s, level := Flatten(blocks), |leaves| - 1 - i;
            var start := Shl(Shr(|s|, level + 1), level + 1);
            && (leaves[i].Some? <==> Bit(|s|, level) == 1)
            && (leaves[i].Some? ==>
                  && start + Pow2(level) <= |s|
                  && leaves[i].value == TreeRoot(h, s[start..start + Pow2(level)]))
  {
    var level, after := |leaves| - 1 - i, Flatten(blocks[i + 1..]);
    var q := HigherBlocks(h, leaves, blocks, i);
    FlattenSplit(blocks, i);
    LengthBelow(h, leaves[i + 1..], blocks[i + 1..]);
    assert SlotHolds(h, leaves[i], blocks[i], level);
    CounterBits(q, |blocks[i]|, |after|, level);
  }

  lemma CounterBits(q: nat, middle: nat, low: nat, level: nat)
    requires middle == 0 || middle == Pow2(level)
    requires low < Pow2(level)
    ensures Shr(Shl(q, level + 1) + middle + low, level + 1) == q
    ensures Bit(Shl(q, level + 1) + middle + low, level) == if middle == 0 then 0 else 1
  {
    var bit := if middle == 0 then 0 else 1;
    ShlZero(level);
    ShlPow2(0, level);
    ShlDouble(q, level);
    ShlAdd(2 * q, bit, level);
    ShrOfShl(2 * q + bit, low, level);
    ShrStep(Shl(q, level + 1) + middle + low, level);
  }

  /** The fold in `root`, read from the front: the accumulator comes from the later slots. */
  function FoldSlots<T>(h: (T, T) -> T, leaves: seq<Option<T>>): Option<T> {
    if leaves == [] then None else Join(h, leaves[0], FoldSlots(h, leaves[1..]))
  }

  function Join<T>(h: (T, T) -> T, h0: Option<T>, h1: Option<T>): Option<T> {
    match (h0, h1)
    case (_, None) => h0
    case (None, _) => h1
    case (Some(a), Some(b)) => Some(h(a, b))
  }

  /** Folding the slots gives the recursive root of the leaves they stand for. */
  lemma {:induction false} FoldIsRoot<T(!new)>(h: (T, T) -> T, leaves: seq<Option<T>>, blocks: seq<seq<T>>)
    requires SlotsHold(h, leaves, blocks)
    ensures FoldSlots(h, leaves) == if Flatten(blocks) == [] then None else Some(TreeRoot(h, Flatten(blocks)))
    decreases |leaves|
  {
    if leaves != [] {
      var first, rest := blocks[0], Flatten(blocks[1..]);
      FoldIsRoot(h, leaves[1..], blocks[1..]);
      LengthBelow(h, leaves[1..], blocks[1..]);
      assert SlotHolds(h, leaves[0], first, |leaves| - 1);
      if leaves[0].None? {
        assert [] + rest == rest;
      } else if rest == [] {
        assert first + rest == first;
      } else {
        RootOfBlocks(h, first, rest, |leaves| - 1);
      }
    }
  }

  /** Mid-push: slots `i` and later have been carried out of, into `h1`, the root of `tail`. */
  ghost predicate Carrying<T(!new)>(
    h: (T, T) -> T, leaves: seq<Option<T>>, blocks: seq<seq<T>>, i: nat, h1: T, tail: seq<T>)
  {
    && SlotsHold(h, leaves, blocks)
    && i <= |leaves|
    && (forall k :: i <= k < |leaves| ==> leaves[k] == None && blocks[k] == [])
    && SlotHolds(h, Some(h1), tail, |leaves| - i)
  }

  /** A push that stops at an empty slot. */
  lemma FillSlot<T(!new)>(
    h: (T, T) -> T, leaves: seq<Option<T>>, blocks: seq<seq<T>>, i: nat, h1: T, tail: seq<T>)
    requires Carrying(h, leaves, blocks, i, h1, tail)
    requires i > 0 && leaves[i - 1].None?
    ensures SlotsHold(h, leaves[i - 1 := Some(h1)], blocks[i - 1 := tail])
    ensures Flatten(blocks[i - 1 := tail]) == Flatten(blocks) + tail
  {
    assert SlotHolds(h, leaves[i - 1], blocks[i - 1], |leaves| - i);
    FlattenSetLast(blocks, i - 1, tail);
  }

  /** A push that carries out of a filled slot joins its block with the carried one. */
  lemma CarrySlot<T(!new)>(
    h: (T, T) -> T, leaves: seq<Option<T>>, blocks: seq<seq<T>>, i: nat, h1: T, tail: seq<T>)
    requires Carrying(h, leaves, blocks, i, h1, tail)
    requires i > 0 && leaves[i - 1].Some?
    ensures Carrying(h, leaves[i - 1 := None], blocks[i - 1 := []],
                     i - 1, h(leaves[i - 1].value, h1), blocks[i - 1] + tail)
    ensures Flatten(blocks[i - 1 := []]) + (blocks[i - 1] + tail) == Flatten(blocks) + tail
  {
    hide TreeRoot;
    var carried := blocks[i - 1];
    assert SlotHolds(h, leaves[i - 1], carried, |leaves| - i);
    RootOfBlocks(h, carried, tail, |leaves| - i);
    FlattenSetLast(blocks[i - 1 := []], i - 1, carried);
    assert blocks[i - 1 := []][i - 1 := carried] == blocks;
  }

  /** A push that carries out of every slot makes the vector one slot longer. */
  lemma GrowVector<T(!new)>(h: (T, T) -> T, leaves: seq<Option<T>>, blocks: seq<seq<T>>, h1: T, tail: seq<T>)
    requires Carrying(h, leaves, blocks, 0, h1, tail)
    ensures SlotsHold(h, (leaves + [None])[0 := Some(h1)], (blocks + [[]])[0 := tail])
    ensures Flatten((blocks + [[]])[0 := tail]) == Flatten(blocks) + tail
  {
    FlattenEmpty(blocks);
    FlattenEmpty(blocks + [[]]);
    FlattenSetLast(blocks + [[]], 0, tail);
  }

  class ProgressiveMerkleTree<T(!new)> {
    var leaves: seq<Option<T>>
    const hashConcat: (T, T) -> T
    const emptyHash: T
    // The pushed leaves, cut into the blocks that the slots stand for.
    ghost var blocks: seq<seq<T>>

    ghost predicate Valid()
      reads this
    {
      && SlotsHold(hashConcat, leaves, blocks)
      // The first slot is always in use, so the vector's length is the number of bits of the count.
      && (leaves != [] ==> leaves[0].Some?)
    }

    ghost function Pushed(): seq<T>
      reads this
    {
      Flatten(blocks)
    }

    constructor (hashConcat: (T, T) -> T, emptyHash: T)
      ensures Valid() && Pushed() == [] && leaves == []
      ensures this.hashConcat == hashConcat && this.emptyHash == emptyHash
    {
      this.hashConcat, this.emptyHash := hashConcat, emptyHash;
      leaves, blocks := [], [];
    }

    method Push(x: T)
      requires Valid()
      modifies this
      ensures Valid()
      ensures Pushed() == old(Pushed()) + [x]
    {
      var h1 := x;
      var i: nat := |leaves|;
      ghost var tail := [x];
      while i > 0
        invariant Carrying(hashConcat, leaves, blocks, i, h1, tail)
        invariant i > 0 ==> leaves[0].Some?
        invariant Pushed() + tail == old(Pushed()) + [x]
      {
        if leaves[i - 1].None? {
          FillSlot(hashConcat, leaves, blocks, i, h1, tail);
          leaves, blocks := leaves[i - 1 := Some(h1)], blocks[i - 1 := tail];
          return;
        }
        CarrySlot(hashConcat, leaves, blocks, i, h1, tail);
        h1 := hashConcat(leaves[i - 1].value, h1);
        leaves, blocks, tail := leaves[i - 1 := None], blocks[i - 1 := []], blocks[i - 1] + tail;
        i := i - 1;
      }
      GrowVector(hashConcat, leaves, blocks, h1, tail);
      leaves := leaves + [None];
      leaves, blocks := leaves[0 := Some(h1)], (blocks + [[]])[0 := tail];
    }

    method Root() returns (root: T)
      requires Valid()
      ensures root == MerkleTreeRoot(hashConcat, emptyHash, Pushed())
    {
      var acc: Option<T> := None;
      for i := |leaves| downto 0
        invariant acc == FoldSlots(hashConcat, leaves[i..])
      {
        assert leaves[i..][1..] == leaves[i + 1..];
        acc := Join(hashConcat, leaves[i], acc);
      }
      assert leaves[0..] == leaves;
      FoldIsRoot(hashConcat, leaves, blocks);
      root := if acc.Some? then acc.value else emptyHash;
    }
  }
}
