/** The choice of the superblock signing committee among the ordered identities. */
module Committee {
  import opened Arithmetic
  import opened Sequences
  import opened Words

  /** `positions` picks elements of a list of length `n` without picking one twice. */
  ghost predicate DistinctPositions(positions: seq<nat>, n: nat) {
    && (forall i :: 0 <= i < |positions| ==> positions[i] < n)
    && NoRepeats(positions)
  }

  /** Windows of `each` positions, one after the other, that together stay within one turn. */
  lemma WindowsDistinct(n: nat, each: nat, first: nat, i: nat, j: nat, a: nat, b: nat)
    requires first < n && i < j && a < each && b < each
    requires (j + 1) * each <= n
    ensures (first + i * each + a) % n != (first + j * each + b) % n
  {
    MulMonotone(i + 1, j, each);
    Distribute(i, 1, each);
    Distribute(j, 1, each);
    RemaindersDiffer(first + i * each + a, first + j * each + b, n);
  }

  lemma WindowsFit(n: nat, size: nat, i: nat)
    requires 0 < size <= n && i < size
    ensures n / size >= 1 && (i + 1) * (n / size) <= n
  {
    DivMod(n, size);
    if n / size == 0 {
      assert false;
    }
    MulMonotone(i + 1, size, n / size);
  }

  /**
   * `magic_partition_2`: one element out of each of `size` windows, displaced by a random byte.
   * The source asserts `size <= v.len()` and divides by `size` and by the number of bytes.
   */
  method MagicPartition2<T>(v: seq<T>, first: nat, size: nat, randDistribution: seq<nat>)
    returns (subset: seq<T>, ghost positions: seq<nat>)
    requires first < |v| ==> 0 < size <= |v| && randDistribution != []
    ensures first >= |v| ==> subset == []
    ensures first < |v| ==>
              && |subset| == |positions| == size
              && DistinctPositions(positions, |v|)
              && (forall i :: 0 <= i < size ==> subset[i] == v[positions[i]])
              && |v| / size > 0
              && (forall i :: 0 <= i < size ==>
                    positions[i]
                    == (first + i * (|v| / size) + randDistribution[i % |randDistribution|] % (|v| / size)) % |v|)
  {
    subset, positions := [], [];
    if first >= |v| {
      return;
    }
    WindowsFit(|v|, size, 0);
    var each := |v| / size;
    ghost var offsets: seq<nat> := [];
    for i := 0 to size
      invariant |subset| == |positions| == |offsets| == i
      invariant forall k :: 0 <= k < i ==>
                  && offsets[k] == randDistribution[k % |randDistribution|] % each
                  && positions[k] == (first + k * each + offsets[k]) % |v|
      invariant forall k :: 0 <= k < i ==> positions[k] < |v| && subset[k] == v[positions[k]]
    {
      var randOffset := randDistribution[i % |randDistribution|] % each;
      var position := (first + i * each + randOffset) % |v|;
      subset := subset + [v[position]];
      positions, offsets := positions + [position], offsets + [randOffset];
    }
    forall i, j | 0 <= i < j < size
      ensures positions[i] != positions[j]
    {
      WindowsFit(|v|, size, j);
      WindowsDistinct(|v|, each, first, i, j, offsets[i], offsets[j]);
    }
  }

  /** The `i`-th stop when going round the list in steps of `each`. */
  function Stop(n: nat, first: nat, each: nat, i: nat): (stop: nat)
    requires first < n
    ensures stop < n
  {
    if i == 0 then first else (Stop(n, first, each, i - 1) + each) % n
  }

  lemma {:induction false} StopClosed(n: nat, first: nat, each: nat, i: nat, offset: nat)
    requires first < n && offset == i * each
    ensures Stop(n, first, each, i) == (first + offset) % n
  {
    if i > 0 {
      var previous := PreviousMultiple(i, each, offset);
      StopClosed(n, first, each, i - 1, previous);
      StopStep(n, first + previous, each, first + offset, Stop(n, first, each, i - 1));
    }
  }

  lemma PreviousMultiple(i: nat, each: nat, offset: nat) returns (previous: nat)
    requires i > 0 && offset == i * each
    ensures previous == (i - 1) * each && offset == previous + each
  {
    previous := (i - 1) * each;
    Distribute(i - 1, 1, each);
  }

  lemma StopStep(n: nat, x: nat, each: nat, sum: nat, previous: nat)
    requires n > 0 && sum == x + each && previous == x % n
    ensures (previous + each) % n == sum % n
  {
    AddToRemainder(x, each, sum, n);
  }

  lemma StopsInWindows(n: nat, size: nat, first: nat, i: nat)
    requires 0 < size <= n && first < n && i < size
    ensures Stop(n, first, n / size, i) == (first + i * (n / size)) % n
    ensures forall j :: 0 <= j < i ==> Stop(n, first, n / size, j) != Stop(n, first, n / size, i)
  {
    WindowsFit(n, size, i);
    StopClosed(n, first, n / size, i, i * (n / size));
    forall j | 0 <= j < i
      ensures Stop(n, first, n / size, j) != Stop(n, first, n / size, i)
    {
      StopClosed(n, first, n / size, j, j * (n / size));
      WindowsDistinct(n, n / size, first, j, i, 0, 0);
    }
  }

  lemma StopNext(n: nat, first: nat, each: nat, i: nat)
    requires first < n
    ensures Stop(n, first, each, 0) == first
    ensures Stop(n, first, each, i + 1) == (Stop(n, first, each, i) + each) % n
  {
  }

  lemma StopsDistinct(n: nat, size: nat, first: nat, positions: seq<nat>)
    requires 0 < size <= n && first < n && |positions| == size
    requires forall i :: 0 <= i < size ==> positions[i] == Stop(n, first, n / size, i)
    ensures DistinctPositions(positions, n)
  {
    hide Stop;
    forall i, j | 0 <= i < j < size
      ensures positions[i] != positions[j]
    {
      StopsInWindows(n, size, first, j);
    }
  }

  /** Going round the list in steps of `each`. */
  method GoRound<T>(v: seq<T>, first: nat, each: nat, size: nat) returns (subset: seq<T>)
    requires first < |v| && size > 0
    ensures |subset| == size
    ensures forall i :: 0 <= i < size ==> subset[i] == v[Stop(|v|, first, each, i)]
  {
    hide Stop;
    StopNext(|v|, first, each, 0);
    subset := [v[first]];
    var a := (first + each) % |v|;
    while |subset| < size
      invariant 1 <= |subset| <= size
      invariant a == Stop(|v|, first, each, |subset|)
      invariant forall i :: 0 <= i < |subset| ==> subset[i] == v[Stop(|v|, first, each, i)]
    {
      StopNext(|v|, first, each, |subset|);
      subset := subset + [v[a]];
      a := (a + each) % |v|;
    }
  }

  /** `magic_partition`: every `each`-th element from `first` on, round the list. */
  method MagicPartition<T>(v: seq<T>, first: nat, size: nat) returns (subset: seq<T>, ghost positions: seq<nat>)
    requires first < |v| ==> size > 0
    ensures first >= |v| ==> subset == []
    ensures first < |v| ==>
              && |subset| == |positions| == size
              && (forall i :: 0 <= i < size ==> positions[i] == (first + i * (|v| / size)) % |v|)
              && (forall i :: 0 <= i < size ==> subset[i] == v[positions[i]])
              && (size <= |v| ==> DistinctPositions(positions, |v|))
  {
    if first >= |v| {
      return [], [];
    }
    hide Stop;
    var each := |v| / size;
    subset := GoRound(v, first, each, size);
    positions := seq(size, i requires 0 <= i < size => Stop(|v|, first, each, i));
    forall i: nat | i < size
      ensures positions[i] == (first + i * each) % |v|
    {
      StopClosed(|v|, first, each, i, i * each);
    }
    if size <= |v| {
      StopsDistinct(|v|, size, first, positions);
    }
  }

  lemma SelectionSize<T>(v: seq<T>, subset: seq<T>, positions: seq<nat>)
    requires NoRepeats(v) && DistinctPositions(positions, |v|)
    requires |subset| == |positions| && forall i :: 0 <= i < |subset| ==> subset[i] == v[positions[i]]
    ensures |Elements(subset)| == |subset|
  {
    DistinctCount(subset);
  }

  /**
   * Position `i` of the committee: so many windows after the one that the digest points to, and
   * after the second hard fork displaced within its window by a byte of the hash.
   */
  ghost predicate Chooses(
    positions: seq<nat>, n: nat, count: nat, size: nat, digest: nat, bytes: seq<nat>, afterSecondHardFork: bool)
  {
    && 0 < size <= count <= n && n / size > 0 && bytes != [] && |positions| == size
    && forall i :: 0 <= i < size ==>
         positions[i] == (digest % count + i * (n / size)
                          + if afterSecondHardFork then bytes[i % |bytes|] % (n / size) else 0) % n
  }

  /** The committee is everybody, or the identities at the positions that the hash chooses. */
  ghost predicate Chosen(
    committee: set<Pkh>, identities: seq<Pkh>, size: nat, digest: nat, bytes: seq<nat>, afterSecondHardFork: bool)
  {
    var n, count := |identities|, |Elements(identities)|;
    if count < size then
      committee == Elements(identities)
    else
      exists positions ::
        && Chooses(positions, n, count, size, digest, bytes, afterSecondHardFork)
        && DistinctPositions(positions, n)
        && committee == set i | 0 <= i < size :: identities[positions[i]]
  }

  /**
   * `calculate_superblock_signing_committee`: the identities that the hash chooses and, when no
   * identity is listed twice, exactly `min(size, len)` of them. `digest` is the number that the
   * source reduces modulo the number of identities and `bytes` the random bytes of the same hash.
   */
  method SigningCommittee(identities: seq<Pkh>, size: nat, digest: nat, bytes: seq<nat>, afterSecondHardFork: bool)
    returns (committee: set<Pkh>)
    requires size > 0 && bytes != []
    ensures Chosen(committee, identities, size, digest, bytes, afterSecondHardFork)
    ensures forall p :: p in committee ==> p in identities
    ensures NoRepeats(identities) ==> |committee| == if size <= |identities| then size else |identities|
  {
    var count := |Elements(identities)|;
    if NoRepeats(identities) {
      DistinctCount(identities);
    }
    if count < size {
      return Elements(identities);
    }
    AtMostLength(identities);
    WindowsFit(|identities|, size, 0);
    var first := digest % count;
    var subset: seq<Pkh>;
    ghost var positions: seq<nat>;
    if afterSecondHardFork {
      subset, positions := MagicPartition2(identities, first, size, bytes);
    } else {
      subset, positions := MagicPartition(identities, first, size);
    }
    if NoRepeats(identities) {
      SelectionSize(identities, subset, positions);
    }
    committee := Elements(subset);
    assert Chooses(positions, |identities|, count, size, digest, bytes, afterSecondHardFork);
    SelectionIs(identities, subset, positions);
  }

  lemma SelectionIs<T>(v: seq<T>, subset: seq<T>, positions: seq<nat>)
    requires |subset| == |positions|
    requires forall i :: 0 <= i < |positions| ==> positions[i] < |v| && subset[i] == v[positions[i]]
    ensures Elements(subset) == set i | 0 <= i < |positions| :: v[positions[i]]
  {
    forall x | x in subset
      ensures x in (set i | 0 <= i < |positions| :: v[positions[i]])
    {
      var i :| 0 <= i < |subset| && subset[i] == x;
      assert v[positions[i]] == x;
    }
  }
}
