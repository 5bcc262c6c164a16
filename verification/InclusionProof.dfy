/** `InclusionProof`: a leaf's siblings from the bottom up, and the side each one is on. */
module InclusionProofs {
  import opened Bits

  datatype InclusionProof<T> = InclusionProof(index: nat, siblings: seq<T>)
  {
    /** The root that the proof takes `element` to. */
    function Root(h: (T, T) -> T, element: T): T {
      Climb(h, index, siblings, element)
    }

    /** `InclusionProof::root`, level by level. */
    method ComputeRoot(h: (T, T) -> T, element: T) returns (root: T)
      ensures root == Root(h, element)
    {
      root := element;
      for level := 0 to |siblings|
        invariant Climb(h, Shr(index, level), siblings[level..], root) == Root(h, element)
      {
        ShrStep(index, level);
        assert siblings[level..][1..] == siblings[level + 1..];
        if Bit(index, level) == 1 {
          root := h(siblings[level], root);
        } else {
          root := h(root, siblings[level]);
        }
      }
    }
  }

  function Climb<T>(h: (T, T) -> T, index: nat, siblings: seq<T>, element: T): T
    decreases |siblings|
  {
    if siblings == [] then
      element
    else
      Climb(h, index / 2, siblings[1..],
            if index % 2 == 1 then h(siblings[0], element) else h(element, siblings[0]))
  }

  ghost predicate Injective<T(!new)>(h: (T, T) -> T) {
    forall a, b, c, d :: h(a, b) == h(c, d) ==> a == c && b == d
  }

  /**
   * Two different elements or sibling lists that reach one root under the same index and length
   * give away a collision of the hash function.
   */
  lemma {:induction false} ForgeryGivesCollision<T(!new)>(
    h: (T, T) -> T, index: nat, u: seq<T>, v: seq<T>, x: T, y: T) returns (a: T, b: T, c: T, d: T)
    requires |u| == |v|
    requires Climb(h, index, u, x) == Climb(h, index, v, y)
    requires x != y || u != v
    ensures (a != c || b != d) && h(a, b) == h(c, d)
    decreases |u|
  {
    if u == [] {
      assert false;
    } else {
      var left := index % 2 == 1;
      var x', y' := if left then h(u[0], x) else h(x, u[0]), if left then h(v[0], y) else h(y, v[0]);
      if x' == y' && u[1..] == v[1..] {
        assert u == [u[0]] + u[1..] && v == [v[0]] + v[1..];
        a, b := if left then u[0] else x, if left then x else u[0];
        c, d := if left then v[0] else y, if left then y else v[0];
      } else {
        a, b, c, d := ForgeryGivesCollision(h, index / 2, u[1..], v[1..], x', y');
      }
    }
  }

  /** Climbing two lists of siblings one after the other. */
  lemma {:induction false} ClimbAppend<T>(h: (T, T) -> T, index: nat, u: seq<T>, v: seq<T>, x: T)
    ensures Climb(h, index, u + v, x) == Climb(h, Shr(index, |u|), v, Climb(h, index, u, x))
    decreases |u|
  {
    if u == [] {
      assert u + v == v;
    } else {
      assert (u + v)[1..] == u[1..] + v;
      ClimbAppend(h, index / 2, u[1..], v, if index % 2 == 1 then h(u[0], x) else h(x, u[0]));
    }
  }

  /** Climbing reads as many bits of the index as there are siblings. */
  lemma {:induction false} ClimbReadsLow<T>(h: (T, T) -> T, index: nat, u: seq<T>, x: T, k: nat)
    requires |u| <= k
    ensures Climb(h, Low(index, k), u, x) == Climb(h, index, u, x)
    decreases |u|
  {
    hide Low;
    if u != [] {
      LowStep(index, k);
      ClimbReadsLow(h, index / 2, u[1..], if index % 2 == 1 then h(u[0], x) else h(x, u[0]), k - 1);
    }
  }

  lemma {:induction false} ClimbIgnoresHigh<T>(h: (T, T) -> T, index: nat, high: nat, u: seq<T>, x: T)
    ensures Climb(h, index + Shl(high, |u|), u, x) == Climb(h, index, u, x)
    decreases |u|
  {
    if u != [] {
      ClimbIgnoresHigh(h, index / 2, high, u[1..], if index % 2 == 1 then h(u[0], x) else h(x, u[0]));
      assert (index + Shl(high, |u|)) / 2 == index / 2 + Shl(high, |u[1..]|);
    }
  }
}
