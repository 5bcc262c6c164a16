/**
 * The positional masks of a tally. A `true` flag marks a reveal as out of consensus; the values
 * that are still being filtered are those at the `false` positions.
 */
module Masks {
  import opened Options

  /** The number of `false` flags. */
  function HonestCount(liars: seq<bool>): (n: nat)
    ensures n <= |liars|
  {
    if liars == [] then 0 else HonestCount(liars[..|liars| - 1]) + if liars[|liars| - 1] then 0 else 1
  }

  /** The values at the `false` positions, in order. */
  function Survivors<T>(values: seq<T>, liars: seq<bool>): (s: seq<T>)
    requires |values| == |liars|
    ensures |s| == HonestCount(liars)
  {
    if liars == [] then []
    else
      var n := |liars| - 1;
      Survivors(values[..n], liars[..n]) + if liars[n] then [] else [values[n]]
  }

  /** A mask in which the `false` flags, in order, are replaced by new flags. */
  function Refined(liars: seq<bool>, flags: seq<bool>): (r: seq<bool>)
    requires |flags| == HonestCount(liars)
    ensures |r| == |liars|
  {
    if liars == [] then []
    else
      var n := |liars| - 1;
      if liars[n] then Refined(liars[..n], flags) + [true]
      else Refined(liars[..n], flags[..|flags| - 1]) + [flags[|flags| - 1]]
  }

  /** The indexes whose flag is as given. */
  ghost function Indexes(flags: seq<bool>, flag: bool): set<nat> {
    set i: nat | i < |flags| && flags[i] == flag
  }

  lemma {:induction false} HonestCountIs(liars: seq<bool>)
    ensures HonestCount(liars) == |Indexes(liars, false)|
    decreases |liars|
  {
    if liars != [] {
      var n := |liars| - 1;
      HonestCountIs(liars[..n]);
      assert Indexes(liars, false) == Indexes(liars[..n], false) + if liars[n] then {} else {n};
    }
  }

  /** The value at a `false` position comes after as many others as there are such positions before it. */
  lemma {:induction false} SurvivorAt<T>(values: seq<T>, liars: seq<bool>, i: nat)
    requires |values| == |liars| && i < |liars| && !liars[i]
    ensures HonestCount(liars[..i]) < HonestCount(liars)
    ensures Survivors(values, liars)[HonestCount(liars[..i])] == values[i]
    decreases |liars|
  {
    var n := |liars| - 1;
    if i < n {
      SurvivorAt(values[..n], liars[..n], i);
      assert liars[..n][..i] == liars[..i];
    }
  }

  /** Every flag of a refined mask: set flags stay, and the `false` ones take the new flags in order. */
  lemma {:induction false} RefinedAt(liars: seq<bool>, flags: seq<bool>, i: nat)
    requires |flags| == HonestCount(liars) && i < |liars|
    ensures !liars[i] ==> HonestCount(liars[..i]) < |flags|
    ensures Refined(liars, flags)[i] == (liars[i] || flags[HonestCount(liars[..i])])
    decreases |liars|
  {
    var n := |liars| - 1;
    if i < n {
      RefinedAt(liars[..n], if liars[n] then flags else flags[..|flags| - 1], i);
      assert liars[..n][..i] == liars[..i];
    }
  }

  /** A flag that is set stays set. */
  lemma SetFlagsStay(liars: seq<bool>, flags: seq<bool>, i: nat)
    requires |flags| == HonestCount(liars) && i < |liars| && liars[i]
    ensures Refined(liars, flags)[i]
  {
    RefinedAt(liars, flags, i);
  }

  /** Refining the mask of all reveals amounts to filtering the surviving values. */
  lemma {:induction false} RefinedAligns<T>(values: seq<T>, liars: seq<bool>, flags: seq<bool>)
    requires |values| == |liars| && |flags| == HonestCount(liars)
    ensures Survivors(values, Refined(liars, flags)) == Survivors(Survivors(values, liars), flags)
    decreases |liars|
  {
    if liars != [] {
      var n := |liars| - 1;
      var vs, v, ls, l := values[..n], values[n], liars[..n], liars[n];
      assert values == vs + [v] && liars == ls + [l];
      HonestCountLast(ls, l);
      if l {
        RefinedAligns(vs, ls, flags);
        AlignSet(vs, v, ls, flags);
      } else {
        var fs, b := flags[..|flags| - 1], flags[|flags| - 1];
        assert flags == fs + [b];
        RefinedAligns(vs, ls, fs);
        AlignClear(vs, v, ls, fs, b);
      }
    }
  }

  lemma HonestCountLast(liars: seq<bool>, liar: bool)
    ensures HonestCount(liars + [liar]) == HonestCount(liars) + if liar then 0 else 1
  {
    assert (liars + [liar])[..|liars|] == liars;
  }

  lemma RefinedLast(liars: seq<bool>, flags: seq<bool>, flag: bool)
    requires |flags| == HonestCount(liars)
    ensures HonestCount(liars + [true]) == |flags| && HonestCount(liars + [false]) == |flags| + 1
    ensures Refined(liars + [true], flags) == Refined(liars, flags) + [true]
    ensures Refined(liars + [false], flags + [flag]) == Refined(liars, flags) + [flag]
  {
    HonestCountLast(liars, true);
    HonestCountLast(liars, false);
    assert (liars + [true])[..|liars|] == liars && (liars + [false])[..|liars|] == liars;
    assert (flags + [flag])[..|flags|] == flags;
  }

  lemma AlignSet<T>(vs: seq<T>, v: T, ls: seq<bool>, flags: seq<bool>)
    requires |vs| == |ls| && |flags| == HonestCount(ls) == HonestCount(ls + [true])
    requires Survivors(vs, Refined(ls, flags)) == Survivors(Survivors(vs, ls), flags)
    ensures Survivors(vs + [v], Refined(ls + [true], flags)) == Survivors(Survivors(vs + [v], ls + [true]), flags)
  {
    hide Survivors, Refined;
    RefinedLast(ls, flags, true);
    SurvivorsLast(vs, Refined(ls, flags), v, true);
    SurvivorsLast(vs, ls, v, true);
    assert Survivors(vs, ls) + [] == Survivors(vs, ls);
  }

  lemma AlignClear<T>(vs: seq<T>, v: T, ls: seq<bool>, fs: seq<bool>, b: bool)
    requires |vs| == |ls| && |fs| == HonestCount(ls) && |fs| + 1 == HonestCount(ls + [false])
    requires Survivors(vs, Refined(ls, fs)) == Survivors(Survivors(vs, ls), fs)
    ensures Survivors(vs + [v], Refined(ls + [false], fs + [b])) == Survivors(Survivors(vs + [v], ls + [false]), fs + [b])
  {
    hide Survivors, Refined;
    RefinedLast(ls, fs, b);
    SurvivorsLast(vs, Refined(ls, fs), v, b);
    SurvivorsLast(vs, ls, v, false);
    SurvivorsLast(Survivors(vs, ls), fs, v, b);
  }

  lemma SurvivorsLast<T>(values: seq<T>, liars: seq<bool>, value: T, liar: bool)
    requires |values| == |liars|
    ensures Survivors(values + [value], liars + [liar]) == Survivors(values, liars) + if liar then [] else [value]
  {
    assert (values + [value])[..|values|] == values && (liars + [liar])[..|liars|] == liars;
  }

  // ----- Chains of filters -----

  /** Every filter reports one flag per value that the filters before it left. */
  ghost predicate Chained(count: nat, filters: seq<seq<bool>>) {
    filters != [] ==>
      var init := filters[..|filters| - 1];
      Chained(count, init) && |filters[|filters| - 1]| == LeftAfter(count, init)
  }

  ghost function LeftAfter(count: nat, filters: seq<seq<bool>>): nat {
    if filters == [] then count else HonestCount(filters[|filters| - 1])
  }

  ghost function MaskAfter(liars: seq<bool>, filters: seq<seq<bool>>): (r: seq<bool>)
    requires Chained(HonestCount(liars), filters)
    ensures |r| == |liars| && HonestCount(r) == LeftAfter(HonestCount(liars), filters)
  {
    if filters == [] then liars
    else
      var before, flags := MaskAfter(liars, filters[..|filters| - 1]), filters[|filters| - 1];
      RefinedCount(before, flags);
      Refined(before, flags)
  }

  lemma RefinedCount(liars: seq<bool>, flags: seq<bool>)
    requires |flags| == HonestCount(liars)
    ensures HonestCount(Refined(liars, flags)) == HonestCount(flags)
  {
    RefinedAligns(liars, liars, flags);
  }

  ghost function ValuesAfter<T>(values: seq<T>, filters: seq<seq<bool>>): (r: seq<T>)
    requires Chained(|values|, filters)
    ensures |r| == LeftAfter(|values|, filters)
  {
    if filters == [] then values
    else Survivors(ValuesAfter(values, filters[..|filters| - 1]), filters[|filters| - 1])
  }

  /**
   * After any chain of filters the `false` positions of the mask line up, in order, with the
   * values that the filters left, and no flag that was set has been reset.
   */
  lemma {:induction false} ChainAligns<T>(revealed: seq<T>, liars: seq<bool>, filters: seq<seq<bool>>)
    requires |revealed| == |liars| && Chained(HonestCount(liars), filters)
    ensures Survivors(revealed, MaskAfter(liars, filters)) == ValuesAfter(Survivors(revealed, liars), filters)
    ensures forall i :: 0 <= i < |liars| && liars[i] ==> MaskAfter(liars, filters)[i]
    decreases |filters|
  {
    if filters != [] {
      var init, flags := filters[..|filters| - 1], filters[|filters| - 1];
      ChainAligns(revealed, liars, init);
      RefinedAligns(revealed, MaskAfter(liars, init), flags);
      forall i | 0 <= i < |liars| && liars[i]
        ensures MaskAfter(liars, filters)[i]
      {
        SetFlagsStay(MaskAfter(liars, init), flags, i);
      }
    }
  }

  class TallyMetaData {
    var consensus: Option<real>
    var errors: seq<bool>
    var liars: seq<bool>

    constructor (errors: seq<bool>, liars: seq<bool>)
      ensures this.errors == errors && this.liars == liars && consensus == Some(1.0)
    {
      this.errors, this.liars, consensus := errors, liars, Some(1.0);
    }

    /**
     * `update_liars`; the consensus is the share of clear flags, and of no flags there is none,
     * where the source has a NaN. Panics when the number of new flags is not that of the `false`
     * flags.
     */
    method UpdateLiars(newLiars: seq<bool>)
      requires liars == [] || newLiars == [] || |newLiars| == HonestCount(liars)
      modifies this`liars, this`consensus
      ensures liars == [] ==> consensus == None
      ensures liars != [] ==> consensus == Some(HonestCount(liars) as real / |liars| as real)
      ensures old(liars) == [] ==> liars == newLiars
      ensures old(liars) != [] && newLiars == [] ==> liars == old(liars)
      ensures old(liars) != [] && newLiars != [] ==> liars == Refined(old(liars), newLiars)
    {
      RefineNothing();
      hide HonestCount, Refined;
      if liars == [] {
        liars := newLiars;
      } else if newLiars != [] {
        var before := liars;
        var next := 0;
        assert before[..0] == [] && newLiars[..0] == [] && liars[..0] == [];
        for i := 0 to |before|
          invariant |liars| == |before| && forall j :: i <= j < |before| ==> liars[j] == before[j]
          invariant next == HonestCount(before[..i]) <= |newLiars|
          invariant liars[..i] == Refined(before[..i], newLiars[..next])
        {
          RefineStep(before, newLiars, i, next);
          if !liars[i] {
            liars := liars[i := newLiars[next]];
            next := next + 1;
          }
          assert liars[..i + 1] == liars[..i] + [liars[i]];
        }
        assert before[..|before|] == before && newLiars[..|newLiars|] == newLiars && liars[..|liars|] == liars;
      }
      consensus := if liars == [] then None else Some(HonestCount(liars) as real / |liars| as real);
    }
  }

  lemma RefineNothing()
    ensures HonestCount([]) == 0 && Refined([], []) == []
  {
  }

  /** What the mask becomes at position `i`, when `next` new flags have been used. */
  lemma RefineStep(liars: seq<bool>, flags: seq<bool>, i: nat, next: nat)
    requires i < |liars| && next == HonestCount(liars[..i]) && |flags| == HonestCount(liars)
    ensures HonestCount(liars[..i + 1]) == next + (if liars[i] then 0 else 1) <= |flags|
    ensures liars[i] ==> Refined(liars[..i + 1], flags[..next]) == Refined(liars[..i], flags[..next]) + [true]
    ensures !liars[i] ==> Refined(liars[..i + 1], flags[..next + 1]) == Refined(liars[..i], flags[..next]) + [flags[next]]
  {
    hide HonestCount, Refined;
    CountGrows(liars, i + 1);
    CountStep(liars, i);
    if liars[i] {
      RefinedLast(liars[..i], flags[..next], true);
    } else {
      OneMoreFlag(flags, next);
      RefinedLast(liars[..i], flags[..next], flags[next]);
    }
  }

  lemma CountStep(liars: seq<bool>, i: nat)
    requires i < |liars|
    ensures liars[..i + 1] == liars[..i] + [liars[i]]
    ensures HonestCount(liars[..i + 1]) == HonestCount(liars[..i]) + if liars[i] then 0 else 1
  {
    OneMoreFlag(liars, i);
    HonestCountLast(liars[..i], liars[i]);
  }

  lemma OneMoreFlag(flags: seq<bool>, n: nat)
    requires n < |flags|
    ensures flags[..n + 1] == flags[..n] + [flags[n]]
  {
  }

  lemma {:induction false} CountGrows(liars: seq<bool>, n: nat)
    requires n <= |liars|
    ensures HonestCount(liars[..n]) <= HonestCount(liars)
    decreases |liars| - n
  {
    if n == |liars| {
      assert liars[..n] == liars;
    } else {
      CountGrows(liars, n + 1);
      assert liars[..n + 1][..n] == liars[..n];
    }
  }
}
