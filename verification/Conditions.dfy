/** The clauses around a tally script: which reveals count, and what the report says of each. */
module Conditions {
  import opened Options
  import opened Masks

  // ----- Counting categories -----

  function Occurrences<T(==)>(s: seq<T>, x: T): (n: nat)
    ensures n <= |s|
  {
    if s == [] then 0 else Occurrences(s[..|s| - 1], x) + if s[|s| - 1] == x then 1 else 0
  }

  /** Counting is what a multiset does. */
  lemma {:induction false} OccurrencesAre<T>(s: seq<T>, x: T)
    ensures Occurrences(s, x) == multiset(s)[x]
    decreases |s|
  {
    if s != [] {
      var init, last := s[..|s| - 1], s[|s| - 1];
      OccurrencesAre(init, x);
      assert s == init + [last];
    }
  }

  lemma OccurrencesLast<T>(s: seq<T>, last: T, x: T)
    ensures Occurrences(s + [last], x) == Occurrences(s, x) + if last == x then 1 else 0
  {
    assert (s + [last])[..|s|] == s;
  }

  /** Two categories share the items. */
  lemma {:induction false} TwoCategories<T>(s: seq<T>, x: T, y: T)
    requires x != y
    ensures Occurrences(s, x) + Occurrences(s, y) <= |s|
    decreases |s|
  {
    if s != [] {
      TwoCategories(s[..|s| - 1], x, y);
    }
  }

  /** `max` is the largest of the counts. */
  ghost predicate IsMax(counts: seq<nat>, max: nat) {
    && (forall c :: 0 <= c < |counts| ==> counts[c] <= max)
    && (max > 0 ==> exists c :: 0 <= c < |counts| && counts[c] == max)
  }

  ghost predicate UniqueMax(counts: seq<nat>, max: nat, p: nat) {
    p < |counts| && counts[p] == max && forall c :: 0 <= c < |counts| && c != p ==> counts[c] < max
  }

  ghost predicate TiedMax(counts: seq<nat>, max: nat) {
    exists c: nat, d: nat :: c < d < |counts| && counts[c] == max && counts[d] == max
  }

  /** What one more item of a category does to the maximum. */
  lemma StepKeepsMax(counts: seq<nat>, max: nat, category: nat)
    requires IsMax(counts, max) && category < |counts|
    ensures var n := counts[category] + 1;
            var after := counts[category := n];
            && IsMax(after, if n > max then n else max)
            && (n > max ==> UniqueMax(after, n, category))
            && (n == max ==> TiedMax(after, max))
            && (n < max ==> (forall p: nat :: UniqueMax(counts, max, p) ==> UniqueMax(after, max, p))
                            && (TiedMax(counts, max) ==> TiedMax(after, max)))
  {
    var n := counts[category] + 1;
    var after := counts[category := n];
    assert after[category] == n;
    if n <= max {
      var other :| 0 <= other < |counts| && counts[other] == max;
      assert after[other] == max && other != category;
      if TiedMax(counts, max) && n < max {
        var c: nat, d: nat :| c < d < |counts| && counts[c] == max && counts[d] == max;
        assert after[c] == max && after[d] == max;
      }
    }
  }

  class Counter {
    var maxPos: Option<nat>
    var maxVal: nat
    var categories: seq<nat>
    // The categories counted so far.
    ghost var counted: seq<nat>

    ghost predicate Valid()
      reads this
    {
      && (forall c: nat :: c < |categories| ==> categories[c] == Occurrences(counted, c))
      && (counted != [] <==> maxVal > 0)
      && IsMax(categories, maxVal)
      && (maxPos.Some? ==> maxVal > 0 && UniqueMax(categories, maxVal, maxPos.value))
      && (maxPos.None? && maxVal > 0 ==> TiedMax(categories, maxVal))
    }

    constructor (n: nat)
      ensures Valid() && counted == [] && |categories| == n
    {
      maxPos, maxVal, categories, counted := None, 0, seq(n, _ => 0), [];
    }

    method Increment(category: nat)
      requires Valid() && category < |categories|
      modifies this
      ensures Valid() && counted == old(counted) + [category] && |categories| == |old(categories)|
    {
      forall c: nat ensures Occurrences(counted + [category], c) == Occurrences(counted, c) + if c == category then 1 else 0 {
        OccurrencesLast(counted, category, c);
      }
      StepKeepsMax(categories, maxVal, category);
      categories := categories[category := categories[category] + 1];
      counted := counted + [category];
      if categories[category] == maxVal {
        maxPos := None;
      } else if categories[category] > maxVal {
        maxVal := categories[category];
        maxPos := Some(category);
      }
    }
  }

  // ----- Reveals, errors and reports -----

  const NUM_TYPES: nat := 8
  const ERROR_TYPE: nat := 6

  /** A revealed value: its type's number, and the value. */
  datatype Reveal = Reveal(discriminant: nat, payload: nat)

  datatype RadError =
    | TooManyWitnesses
    | InsufficientCommits
    | NoReveals
    | InsufficientConsensus(achieved: real, required: real)
    | ModeTie(maxCount: nat)
    | TallyExecution
    | Unknown
    | Revealed(item: Reveal) // an error that witnesses revealed, or that stopped a script

  datatype Clause =
    | MajorityOfValues(values: seq<Reveal>, liars: seq<bool>, errors: seq<bool>)
    | MajorityOfErrors(mode: Reveal)
    | Rejected(error: RadError)
    | Panicked // counting equal errors panics

  function Discriminants(items: seq<Reveal>): seq<nat> {
    seq(|items|, i requires 0 <= i < |items| => items[i].discriminant)
  }

  function ErrorsMask(items: seq<Reveal>): (mask: seq<bool>)
    ensures |mask| == |items|
  {
    seq(|items|, i requires 0 <= i < |items| => items[i].discriminant == ERROR_TYPE)
  }

  /** The reveals of another type than the most frequent one are out of consensus. */
  function TypeMask(items: seq<Reveal>, mostFrequent: nat): (mask: seq<bool>)
    ensures |mask| == |items|
  {
    seq(|items|, i requires 0 <= i < |items| => items[i].discriminant != mostFrequent)
  }

  lemma TypeMaskLast(items: seq<Reveal>, item: Reveal, t: nat)
    ensures TypeMask(items + [item], t) == TypeMask(items, t) + [item.discriminant != t]
  {
  }

  lemma {:induction false} TypeMaskCount(items: seq<Reveal>, t: nat)
    ensures HonestCount(TypeMask(items, t)) == Occurrences(Discriminants(items), t)
    decreases |items|
  {
    if items != [] {
      var n := |items| - 1;
      TypeMaskCount(items[..n], t);
      assert TypeMask(items, t)[..n] == TypeMask(items[..n], t);
      assert Discriminants(items)[..n] == Discriminants(items[..n]);
    }
  }

  /** Only the values of the most frequent type survive. */
  lemma {:induction false} TypeMaskSurvivors(items: seq<Reveal>, t: nat)
    ensures forall v :: v in Survivors(items, TypeMask(items, t)) <==> v in items && v.discriminant == t
    decreases |items|
  {
    if items != [] {
      var n := |items| - 1;
      TypeMaskSurvivors(items[..n], t);
      assert TypeMask(items, t)[..n] == TypeMask(items[..n], t);
      assert items == items[..n] + [items[n]];
    }
  }

  /** More reveals have type `t` than any other type. */
  ghost predicate MostFrequentType(items: seq<Reveal>, t: nat) {
    forall u: nat :: u != t ==> Occurrences(Discriminants(items), u) < Occurrences(Discriminants(items), t)
  }

  function ErrorsOf(items: seq<Reveal>): seq<Reveal> {
    Survivors(items, TypeMask(items, ERROR_TYPE))
  }

  // ----- The mode, counted in eight bits -----

  const I8_MAX: nat := 127

  /** A count in eight signed bits without overflow checks. */
  function Wrapped(n: nat): int {
    (n + 128) % 256 - 128
  }

  /** What a counter shows; a build with overflow checks panics before it could be wrong. */
  function Shown(checks: bool, n: nat): int {
    if checks then n else Wrapped(n)
  }

  ghost function Count(items: seq<Reveal>, checks: bool, x: Reveal): int {
    Shown(checks, Occurrences(items, x))
  }

  /** The most common items: one, or several with the same count; or the counting panics. */
  datatype Mode = Single(item: Reveal) | Tie(maxCount: nat) | EmptyArray | Panic

  /** Some item occurs more often than eight signed bits can count. */
  ghost predicate Crowded(items: seq<Reveal>) {
    exists x :: Occurrences(items, x) > I8_MAX
  }

  /** Two items share the largest count, and that is negative. */
  ghost predicate NegativeTie(items: seq<Reveal>) {
    exists x, y :: x in items && y in items && x != y && Leads(items, false, x) && Leads(items, false, y)
      && Count(items, false, x) < 0
  }

  /** No item shows a larger count. */
  ghost predicate Leads(items: seq<Reveal>, checks: bool, x: Reveal) {
    forall y :: y in items ==> Count(items, checks, y) <= Count(items, checks, x)
  }

  /**
   * The mode by what the counters show. With overflow checks a counter that is full panics;
   * without them a tie of negative counts does, when the count is converted.
   */
  ghost predicate IsMode(items: seq<Reveal>, checks: bool, m: Mode) {
    match m
    case Panic => if checks then Crowded(items) else NegativeTie(items)
    case EmptyArray => items == []
    case Single(x) =>
      && !(checks && Crowded(items)) && x in items
      && forall y :: y in items && y != x ==> Count(items, checks, y) < Count(items, checks, x)
    case Tie(count) =>
      && !(checks && Crowded(items))
      && exists x, y :: x in items && y in items && x != y && Leads(items, checks, x) && Leads(items, checks, y)
           && Count(items, checks, x) == count
  }

  /** The `mode` reducer, of a build with or without overflow checks. */
  method ModeOf(items: seq<Reveal>, checks: bool) returns (m: Mode)
    ensures IsMode(items, checks, m)
  {
    hide Occurrences, Shown;
    var counter := CountItems(items, checks);
    if counter.None? {
      return Panic;
    }
    if items == [] {
      return EmptyArray;
    }
    var counts := counter.value;
    var best, count, tied := items[0], counts[items[0]], false;
    ghost var rival := best;
    for i := 1 to |items|
      invariant best in items && count == Count(items, checks, best)
      invariant forall k :: 0 <= k < i ==> Count(items, checks, items[k]) <= count
      invariant tied ==> rival in items && rival != best && Count(items, checks, rival) == count
      invariant !tied ==> forall k :: 0 <= k < i && items[k] != best ==> Count(items, checks, items[k]) < count
    {
      var n := counts[items[i]];
      if n > count {
        best, count, tied := items[i], n, false;
      } else if n == count && items[i] != best {
        tied, rival := true, items[i];
      }
    }
    assert Leads(items, checks, best);
    if !tied {
      return Single(best);
    }
    assert Leads(items, checks, rival);
    if count < 0 {
      ShownNatural(checks, Occurrences(items, best));
      return Panic;
    }
    m := Tie(count);
  }

  lemma ShownNatural(checks: bool, n: nat)
    ensures checks ==> Shown(checks, n) >= 0
  {
  }

  /** The counting loop: what every counter shows, or nothing when adding to a full one panics. */
  method CountItems(items: seq<Reveal>, checks: bool) returns (counter: Option<map<Reveal, int>>)
    ensures counter.None? <==> checks && Crowded(items)
    ensures counter.Some? ==>
              forall x :: x in items ==> x in counter.value && counter.value[x] == Count(items, checks, x)
  {
    var counts: map<Reveal, int> := map[];
    assert items[..|items|] == items;
    for i := 0 to |items|
      invariant forall x :: x in counts <==> x in items[..i]
      invariant forall x :: x in counts ==> counts[x] == Count(items[..i], checks, x) <= I8_MAX
    {
      var item := items[i];
      CountStep(items, i);
      ShownStep(checks, Occurrences(items[..i], item));
      hide Occurrences, Shown;
      var n := if item in counts then counts[item] else 0;
      if n == I8_MAX && checks {
        assert Occurrences(items, item) > I8_MAX;
        return None;
      }
      counts := counts[item := if n == I8_MAX then -128 else n + 1];
    }
    if checks {
      forall x ensures Occurrences(items, x) <= I8_MAX {
        if x !in items {
          Absent(items, x);
        } else {
          assert Count(items, checks, x) <= I8_MAX;
        }
      }
    }
    counter := Some(counts);
  }

  /** What adding one does to a counter. */
  lemma ShownStep(checks: bool, n: nat)
    ensures Shown(checks, 0) == 0
    ensures Shown(checks, n) == I8_MAX && checks ==> n == I8_MAX
    ensures Shown(checks, n) <= I8_MAX && !(Shown(checks, n) == I8_MAX && checks) ==>
              Shown(checks, n + 1) == (if Shown(checks, n) == I8_MAX then -128 else Shown(checks, n) + 1) <= I8_MAX
  {
  }

  /** One more item, and what that means for the whole list. */
  lemma CountStep(items: seq<Reveal>, i: nat)
    requires i < |items|
    ensures items[..i + 1] == items[..i] + [items[i]]
    ensures forall x :: Occurrences(items[..i + 1], x) == Occurrences(items[..i], x) + if items[i] == x then 1 else 0
    ensures items[i] !in items[..i] ==> Occurrences(items[..i], items[i]) == 0
    ensures forall x :: Occurrences(items[..i + 1], x) <= Occurrences(items, x)
  {
    assert items[..i + 1] == items[..i] + [items[i]];
    forall x
      ensures Occurrences(items[..i + 1], x) == Occurrences(items[..i], x) + if items[i] == x then 1 else 0
      ensures Occurrences(items[..i + 1], x) <= Occurrences(items, x)
    {
      OccurrencesLast(items[..i], items[i], x);
      OccurrencesGrow(items, i + 1, x);
    }
    if items[i] !in items[..i] {
      Absent(items[..i], items[i]);
    }
  }

  lemma {:induction false} OccurrencesGrow<T>(s: seq<T>, n: nat, x: T)
    requires n <= |s|
    ensures Occurrences(s[..n], x) <= Occurrences(s, x)
    decreases |s| - n
  {
    if n == |s| {
      assert s[..n] == s;
    } else {
      OccurrencesGrow(s, n + 1, x);
      assert s[..n + 1][..n] == s[..n];
    }
  }

  lemma ModeUnique(items: seq<Reveal>, checks: bool, m: Mode, n: Mode)
    requires IsMode(items, checks, m) && IsMode(items, checks, n)
    ensures m == n
  {
    hide Count, Occurrences;
  }

  /** Without overflow checks everything is as with them as long as no item occurs more than 127 times. */
  lemma ChecksAgree(items: seq<Reveal>, m: Mode)
    requires !Crowded(items)
    ensures IsMode(items, false, m) <==> IsMode(items, true, m)
  {
    forall x ensures 0 <= Count(items, false, x) == Count(items, true, x) {
      assert Occurrences(items, x) <= I8_MAX;
      WrappedSmall(Occurrences(items, x));
    }
    hide Count, Occurrences, Crowded;
    forall x ensures Leads(items, false, x) <==> Leads(items, true, x) {
    }
    if m.Tie? {
      TieAgrees(items, m.maxCount);
    }
  }

  lemma TieAgrees(items: seq<Reveal>, count: nat)
    requires forall x :: Count(items, false, x) == Count(items, true, x)
    requires forall x :: Leads(items, false, x) <==> Leads(items, true, x)
    requires !Crowded(items)
    ensures IsMode(items, false, Tie(count)) <==> IsMode(items, true, Tie(count))
  {
    hide Count, Crowded, Leads;
    if IsMode(items, false, Tie(count)) {
      var x, y :| x in items && y in items && x != y && Leads(items, false, x) && Leads(items, false, y)
        && Count(items, false, x) == count;
      assert Leads(items, true, x) && Leads(items, true, y) && Count(items, true, x) == count;
    }
    if IsMode(items, true, Tie(count)) {
      var x, y :| x in items && y in items && x != y && Leads(items, true, x) && Leads(items, true, y)
        && Count(items, true, x) == count;
      assert Leads(items, false, x) && Leads(items, false, y) && Count(items, false, x) == count;
    }
  }

  lemma WrappedSmall(n: nat)
    requires n <= I8_MAX
    ensures Wrapped(n) == n
  {
  }

  /** However often the only item occurs, without overflow checks it is the mode. */
  lemma OnlyItemIsMode(items: seq<Reveal>, x: Reveal)
    requires items != [] && forall y :: y in items ==> y == x
    ensures IsMode(items, false, Single(x))
  {
    assert items[0] in items;
  }

  /** Wrapping only ever makes a count look smaller. */
  lemma ShownAtMost(checks: bool, n: nat)
    ensures Shown(checks, n) <= n
  {
  }

  lemma {:induction false} AllSame<T>(s: seq<T>, x: T)
    requires forall i :: 0 <= i < |s| ==> s[i] == x
    ensures Occurrences(s, x) == |s|
    decreases |s|
  {
    if s != [] {
      AllSame(s[..|s| - 1], x);
    }
  }

  function Ratio(count: nat, of: nat): real
    requires of > 0
  {
    count as real / of as real
  }

  /** The share reaches a minimum exactly when the count reaches that part of the total. */
  lemma RatioIs(count: nat, of: nat, minimum: real)
    requires of > 0
    ensures Ratio(count, of) * of as real == count as real
    ensures Ratio(count, of) >= minimum <==> count as real >= minimum * of as real
  {
    var x, y := count as real, of as real;
    if x / y >= minimum {
      assert x / y * y >= minimum * y;
    } else {
      assert x / y * y < minimum * y;
    }
  }

  lemma RatioAtMostHalf(count: nat, of: nat)
    requires of > 0 && 2 * count <= of
    ensures Ratio(count, of) <= 0.5
  {
    assert 2.0 * (count as real) <= of as real;
    HalfOf(count as real, of as real);
  }

  lemma HalfOf(x: real, y: real)
    requires y > 0.0 && 2.0 * x <= y
    ensures x / y <= 0.5
  {
    assert x <= 0.5 * y;
  }

  /** Type `t` is the most frequent and reaches the required consensus. */
  ghost predicate TypeWins(items: seq<Reveal>, minimum: real, of: nat, t: nat) {
    of > 0 && MostFrequentType(items, t) && Ratio(Occurrences(Discriminants(items), t), of) >= minimum
  }

  /** Error `x` is the most common error and reaches the required consensus. */
  ghost predicate ErrorWins(items: seq<Reveal>, checks: bool, minimum: real, of: nat, x: Reveal) {
    of > 0 && IsMode(ErrorsOf(items), checks, Single(x)) && Ratio(Occurrences(items, x), of) >= minimum
  }

  /** Some error occurs more often than eight signed bits can count. */
  ghost predicate CrowdedErrors(items: seq<Reveal>) {
    exists x: Reveal :: x.discriminant == ERROR_TYPE && Occurrences(items, x) > I8_MAX
  }

  /** Counting the errors panics. */
  ghost predicate ErrorsPanic(items: seq<Reveal>, checks: bool) {
    IsMode(ErrorsOf(items), checks, Panic)
  }

  /** No type is revealed more than `n` times, and one is exactly so often. */
  ghost predicate LargestCount(items: seq<Reveal>, n: nat) {
    && (forall t: nat :: Occurrences(Discriminants(items), t) <= n)
    && exists t: nat :: Occurrences(Discriminants(items), t) == n
  }

  /** What the mode of the errors leads to, when errors are the most frequent type. */
  ghost function ErrorVerdict(items: seq<Reveal>, minimum: real, of: nat, m: Mode): Clause
    requires of > 0
  {
    match m
    case Single(x) =>
      var achieved := Ratio(Occurrences(items, x), of);
      if achieved < minimum then Rejected(InsufficientConsensus(achieved, minimum)) else MajorityOfErrors(x)
    case Tie(count) =>
      var achieved := Ratio(count, of);
      Rejected(if achieved < minimum then InsufficientConsensus(achieved, minimum) else ModeTie(count))
    case _ => Panicked
  }

  /**
   * The result for reveals whose largest count of a type is `n`: too little of a consensus, a
   * tie of types, a type of values that leads alone, or errors and then the mode among them.
   */
  ghost predicate ClauseIs(
    items: seq<Reveal>, checks: bool, minimum: real, commits: nat, of: nat, n: nat, r: Clause)
    requires commits > 0 && of > 0
  {
    if Ratio(n, commits) < minimum then
      r == Rejected(InsufficientConsensus(Ratio(n, commits), minimum))
    else
      && ((forall t: nat :: !MostFrequentType(items, t)) ==> r == Rejected(ModeTie(n)))
      && (forall t: nat :: MostFrequentType(items, t) && t != ERROR_TYPE ==>
            r == MajorityOfValues(Survivors(items, TypeMask(items, t)), TypeMask(items, t), ErrorsMask(items)))
      && (MostFrequentType(items, ERROR_TYPE) ==> ErrorClauseIs(items, checks, minimum, of, r))
  }

  ghost predicate ErrorClauseIs(items: seq<Reveal>, checks: bool, minimum: real, of: nat, r: Clause)
    requires of > 0
  {
    && (ErrorsPanic(items, checks) <==> r == Panicked)
    && (!ErrorsPanic(items, checks) ==>
          exists m :: IsErrorMode(items, checks, m) && r == ErrorVerdict(items, minimum, of, m))
  }

  ghost predicate IsErrorMode(items: seq<Reveal>, checks: bool, m: Mode) {
    (m.Single? || m.Tie?) && IsMode(ErrorsOf(items), checks, m)
  }

  /** How often the winner occurs, or what the counters of those tied show. */
  ghost function CountOf(items: seq<Reveal>, m: Mode): nat {
    match m
    case Single(x) => Occurrences(items, x)
    case Tie(count) => count
    case _ => 0
  }

  /**
   * Exactly when a tie is reported and with which count, exactly when the consensus is called
   * insufficient and with which ratio, and exactly when the counting panics.
   */
  lemma RejectedIff(
    items: seq<Reveal>, checks: bool, minimum: real, commits: nat, of: nat, n: nat, r: Clause)
    requires commits > 0 && of > 0 && ClauseIs(items, checks, minimum, commits, of, n, r)
    ensures var enough := Ratio(n, commits) >= minimum;
            var noLeader := forall t: nat :: !MostFrequentType(items, t);
            var errorsLead := enough && MostFrequentType(items, ERROR_TYPE);
            && (r == Panicked <==> errorsLead && ErrorsPanic(items, checks))
            && (forall k :: r == Rejected(ModeTie(k)) <==>
                  || (enough && noLeader && k == n)
                  || (errorsLead && !ErrorsPanic(items, checks) && Ratio(k, of) >= minimum
                      && IsErrorMode(items, checks, Tie(k))))
            && (forall x :: r == Rejected(InsufficientConsensus(x, minimum)) <==>
                  || (!enough && x == Ratio(n, commits))
                  || (errorsLead && !ErrorsPanic(items, checks) && x < minimum
                      && exists m :: IsErrorMode(items, checks, m) && x == Ratio(CountOf(items, m), of)))
  {
    hide Ratio, IsMode, MostFrequentType, ErrorsPanic, Occurrences, Survivors, TypeMask, ErrorsMask, ErrorsOf;
    if Ratio(n, commits) >= minimum && MostFrequentType(items, ERROR_TYPE) {
      OneLeader(items, ERROR_TYPE);
      if !ErrorsPanic(items, checks) {
        var m :| IsErrorMode(items, checks, m) && r == ErrorVerdict(items, minimum, of, m);
        forall k | IsErrorMode(items, checks, k) ensures k == m {
          ModeUnique(ErrorsOf(items), checks, k, m);
        }
      }
    }
  }

  lemma OneLeader(items: seq<Reveal>, t: nat)
    requires MostFrequentType(items, t)
    ensures forall u: nat :: MostFrequentType(items, u) ==> u == t
  {
    var types := Discriminants(items);
    forall u: nat
      ensures MostFrequentType(items, u) ==> u == t
    {
      assert u != t ==> Occurrences(types, u) < Occurrences(types, t);
    }
  }

  /**
   * `evaluate_tally_precondition_clause`. Ratios are exact here. The consensus that the most
   * common error must reach is measured against the reveals before the second hard fork and
   * against the commits after it.
   */
  method EvaluatePrecondition(
    items: seq<Reveal>, checks: bool, minimum: real, commits: nat, secondHardFork: bool, tooManyWitnesses: bool)
    returns (r: Clause)
    requires forall v :: v in items ==> v.discriminant < NUM_TYPES
    ensures tooManyWitnesses ==> r == Rejected(TooManyWitnesses)
    ensures !tooManyWitnesses && commits == 0 ==> r == Rejected(InsufficientCommits)
    ensures !tooManyWitnesses && commits > 0 && items == [] ==> r == Rejected(NoReveals)
    ensures !tooManyWitnesses && commits > 0 && items != [] ==>
              exists n :: LargestCount(items, n)
                && ClauseIs(items, checks, minimum, commits, if secondHardFork then commits else |items|, n, r)
    ensures minimum > 0.5 && |items| <= commits ==> !(r.Rejected? && r.error.ModeTie?)
    ensures r.Rejected? ==> !r.error.Revealed?
  {
    if tooManyWitnesses {
      return Rejected(TooManyWitnesses);
    }
    if commits == 0 {
      return Rejected(InsufficientCommits);
    }
    if items == [] {
      return Rejected(NoReveals);
    }
    var counter, errors := CountTypes(items);
    hide Ratio, Occurrences, Survivors, TypeMask, HonestCount, Discriminants, ErrorsMask, LargestCount,
         IsMax, UniqueMax, TiedMax, IsMode, MostFrequentType, ErrorClauseIs;
    var achieved := Ratio(counter.maxVal, commits);
    if achieved < minimum {
      return Rejected(InsufficientConsensus(achieved, minimum));
    }
    match counter.maxPos
    case None =>
      TieIsMinority(items, counter.categories, counter.maxVal, commits);
      return Rejected(ModeTie(counter.maxVal));
    case Some(t) =>
      if t == ERROR_TYPE {
        SomeOfType(items, counter.categories, counter.maxVal, t);
        r := MostCommonError(items, checks, minimum, if secondHardFork then commits else |items|);
      } else {
        var liars, values := SplitByType(items, t);
        r := MajorityOfValues(values, liars, errors);
      }
  }

  /** The loop that counts the types and marks the errors. */
  method CountTypes(items: seq<Reveal>) returns (counter: Counter, errors: seq<bool>)
    requires items != [] && forall v :: v in items ==> v.discriminant < NUM_TYPES
    ensures fresh(counter) && counter.Valid() && |counter.categories| == NUM_TYPES
    ensures counter.counted == Discriminants(items) && counter.maxVal > 0
    ensures forall t: nat :: MostFrequentType(items, t) <==> counter.maxPos == Some(t)
    ensures LargestCount(items, counter.maxVal)
    ensures errors == ErrorsMask(items)
  {
    counter := new Counter(NUM_TYPES);
    errors := [];
    for i := 0 to |items|
      invariant counter.Valid() && |counter.categories| == NUM_TYPES
      invariant fresh(counter) && counter.counted == Discriminants(items)[..i]
      invariant errors == ErrorsMask(items)[..i]
    {
      counter.Increment(items[i].discriminant);
      errors := errors + [items[i].discriminant == ERROR_TYPE];
    }
    assert Discriminants(items)[..|items|] == Discriminants(items);
    assert ErrorsMask(items)[..|items|] == ErrorsMask(items);
    hide Occurrences, Discriminants, ErrorsMask, IsMax, UniqueMax, TiedMax, MostFrequentType, LargestCount;
    forall t: nat
      ensures MostFrequentType(items, t) <==> counter.maxPos == Some(t)
    {
      if MostFrequentType(items, t) {
        FrequentIsMax(items, counter.categories, counter.maxVal, t);
      } else if counter.maxPos == Some(t) {
        MostFrequent(items, counter.categories, counter.maxVal, t);
      }
    }
    MaxIsLargest(items, counter.categories, counter.maxVal);
  }

  lemma FrequentIsMax(items: seq<Reveal>, counts: seq<nat>, max: nat, t: nat)
    requires forall v :: v in items ==> v.discriminant < |counts|
    requires forall c: nat :: c < |counts| ==> counts[c] == Occurrences(Discriminants(items), c)
    requires MostFrequentType(items, t) && IsMax(counts, max) && max > 0
    ensures max == Occurrences(Discriminants(items), t) && t < |counts|
    ensures !TiedMax(counts, max) && forall p: nat :: UniqueMax(counts, max, p) ==> p == t
  {
    if t >= |counts| {
      Absent(Discriminants(items), t);
    }
  }

  lemma MaxIsLargest(items: seq<Reveal>, counts: seq<nat>, max: nat)
    requires forall v :: v in items ==> v.discriminant < |counts|
    requires forall c: nat :: c < |counts| ==> counts[c] == Occurrences(Discriminants(items), c)
    requires IsMax(counts, max) && max > 0
    ensures LargestCount(items, max)
  {
    forall t: nat
      ensures Occurrences(Discriminants(items), t) <= max
    {
      if t >= |counts| {
        Absent(Discriminants(items), t);
      }
    }
    var c: nat :| c < |counts| && counts[c] == max;
    assert Occurrences(Discriminants(items), c) == max;
  }

  lemma TieIsMinority(items: seq<Reveal>, counts: seq<nat>, max: nat, commits: nat)
    requires forall c: nat :: c < |counts| ==> counts[c] == Occurrences(Discriminants(items), c)
    requires TiedMax(counts, max) && commits > 0
    ensures |items| <= commits ==> Ratio(max, commits) <= 0.5
  {
    var c: nat, d: nat :| c < d < |counts| && counts[c] == max && counts[d] == max;
    TwoCategories(Discriminants(items), c, d);
    if |items| <= commits {
      RatioAtMostHalf(max, commits);
    }
  }

  lemma MostFrequent(items: seq<Reveal>, counts: seq<nat>, max: nat, t: nat)
    requires forall v :: v in items ==> v.discriminant < |counts|
    requires forall c: nat :: c < |counts| ==> counts[c] == Occurrences(Discriminants(items), c)
    requires UniqueMax(counts, max, t) && max > 0
    ensures MostFrequentType(items, t)
  {
    forall u: nat | u != t
      ensures Occurrences(Discriminants(items), u) < Occurrences(Discriminants(items), t)
    {
      if u >= |counts| {
        Absent(Discriminants(items), u);
      }
    }
  }

  lemma SomeOfType(items: seq<Reveal>, counts: seq<nat>, max: nat, t: nat)
    requires forall c: nat :: c < |counts| ==> counts[c] == Occurrences(Discriminants(items), c)
    requires UniqueMax(counts, max, t) && max > 0
    ensures exists v :: v in items && v.discriminant == t
  {
    if t !in Discriminants(items) {
      Absent(Discriminants(items), t);
    }
    var i :| 0 <= i < |items| && Discriminants(items)[i] == t;
    assert items[i] in items;
  }

  lemma {:induction false} Absent<T>(s: seq<T>, x: T)
    requires x !in s
    ensures Occurrences(s, x) == 0
    decreases |s|
  {
    if s != [] {
      Absent(s[..|s| - 1], x);
    }
  }

  /** The loop of the values branch: one flag per reveal, and the values of the type. */
  method SplitByType(items: seq<Reveal>, t: nat) returns (liars: seq<bool>, values: seq<Reveal>)
    ensures liars == TypeMask(items, t) && values == Survivors(items, liars)
  {
    liars, values := [], [];
    for i := 0 to |items|
      invariant liars == TypeMask(items, t)[..i] && |liars| == i
      invariant values == Survivors(items[..i], liars)
    {
      var condition := items[i].discriminant == t;
      SurvivorsLast(items[..i], liars, items[i], !condition);
      assert items[..i + 1] == items[..i] + [items[i]];
      liars := liars + [!condition];
      if condition {
        values := values + [items[i]];
      }
    }
    assert items[..|items|] == items;
  }

  /** The branch for a majority of errors: the most common error must reach the consensus too. */
  method MostCommonError(items: seq<Reveal>, checks: bool, minimum: real, of: nat) returns (r: Clause)
    requires of > 0 && exists v :: v in items && v.discriminant == ERROR_TYPE
    ensures ErrorClauseIs(items, checks, minimum, of, r)
    ensures !r.MajorityOfValues? && (r.MajorityOfErrors? ==> r.mode.discriminant == ERROR_TYPE)
    ensures minimum > 0.5 && |items| <= of ==> !(r.Rejected? && r.error.ModeTie?)
    ensures r.Rejected? ==> !r.error.Revealed?
  {
    hide TypeMask, Survivors, HonestCount, Ratio, Occurrences, IsMode, ErrorsOf;
    var _, errors := SplitByType(items, ERROR_TYPE);
    assert errors == ErrorsOf(items) by { ErrorsAre(items); }
    var m := ModeOf(errors, checks);
    if m.Panic? {
      return Panicked;
    }
    forall n | IsMode(errors, checks, n) ensures n == m {
      ModeUnique(errors, checks, m, n);
    }
    ErrorMode(items, checks, m);
    assert IsErrorMode(items, checks, m);
    match m
    case Single(mode) =>
      var achieved := Ratio(Occurrences(errors, mode), of);
      r := if achieved >= minimum then MajorityOfErrors(mode) else Rejected(InsufficientConsensus(achieved, minimum));
    case Tie(maxCount) =>
      var achieved := Ratio(maxCount, of);
      if |items| <= of {
        RatioAtMostHalf(maxCount, of);
      }
      r := if achieved < minimum then Rejected(InsufficientConsensus(achieved, minimum)) else Rejected(ModeTie(maxCount));
  }

  /** The errors among the reveals, counted there as among all the reveals. */
  lemma ErrorsAre(items: seq<Reveal>)
    ensures ErrorsOf(items) == Survivors(items, TypeMask(items, ERROR_TYPE)) && |ErrorsOf(items)| <= |items|
    ensures forall v :: v in ErrorsOf(items) <==> v in items && v.discriminant == ERROR_TYPE
    ensures forall x: Reveal ::
              Occurrences(ErrorsOf(items), x) == if x.discriminant == ERROR_TYPE then Occurrences(items, x) else 0
  {
    TypeMaskSurvivors(items, ERROR_TYPE);
    hide TypeMask, Survivors, Occurrences;
    forall x: Reveal
      ensures Occurrences(ErrorsOf(items), x) == if x.discriminant == ERROR_TYPE then Occurrences(items, x) else 0
    {
      if x.discriminant == ERROR_TYPE {
        SameOccurrences(items, x);
      } else {
        Absent(ErrorsOf(items), x);
      }
    }
  }

  /** With overflow checks, counting panics exactly when the reveals have that many of one error. */
  lemma PanicIffCrowded(items: seq<Reveal>)
    ensures ErrorsPanic(items, true) <==> CrowdedErrors(items)
  {
    ErrorsAre(items);
    hide ErrorsOf, Occurrences;
    if x :| Occurrences(ErrorsOf(items), x) > I8_MAX {
      assert Occurrences(items, x) > I8_MAX;
    }
    if x: Reveal :| x.discriminant == ERROR_TYPE && Occurrences(items, x) > I8_MAX {
      assert Occurrences(ErrorsOf(items), x) > I8_MAX;
    }
  }

  /** The mode of the errors is an error, and two tied errors share the reveals. */
  lemma ErrorMode(items: seq<Reveal>, checks: bool, m: Mode)
    requires !m.Panic? && IsMode(ErrorsOf(items), checks, m) && exists v :: v in items && v.discriminant == ERROR_TYPE
    ensures m.Single? || m.Tie?
    ensures m.Single? ==>
              && m.item.discriminant == ERROR_TYPE
              && Occurrences(ErrorsOf(items), m.item) == Occurrences(items, m.item)
    ensures m.Tie? ==> 2 * m.maxCount <= |items|
  {
    ErrorsAre(items);
    hide ErrorsOf, Occurrences, TypeMask, Survivors, Count, Crowded;
    if m.Tie? {
      TiedShare(ErrorsOf(items), checks, m);
    }
  }

  lemma TiedShare(items: seq<Reveal>, checks: bool, m: Mode)
    requires m.Tie? && IsMode(items, checks, m)
    ensures 2 * m.maxCount <= |items|
  {
    var x, y :| x in items && y in items && x != y && Leads(items, checks, x) && Leads(items, checks, y)
      && Count(items, checks, x) == m.maxCount;
    assert Count(items, checks, y) == m.maxCount;
    ShownAtMost(checks, Occurrences(items, x));
    ShownAtMost(checks, Occurrences(items, y));
    TwoCategories(items, x, y);
  }

  lemma CrowdCounts(a: Reveal, b: Reveal)
    requires a != b
    ensures var items := seq(128, _ => a) + [b];
            && (forall x :: x in items <==> x == a || x == b)
            && Occurrences(items, a) == 128 && Occurrences(items, b) == 1
  {
    var most := seq(128, _ => a);
    AllSame(most, a);
    Absent(most, b);
    hide Occurrences;
    OccurrencesLast(most, b, a);
    OccurrencesLast(most, b, b);
    assert (most + [b])[0] == a && (most + [b])[128] == b;
  }

  /**
   * 128 reveals of one error, one of another, 129 commits, and more than half needed: the common
   * error reaches the consensus. With overflow checks its counter panics; without them it wraps
   * to -128 and the rare error is elected, which falls short.
   */
  lemma RareErrorIsElected(a: Reveal, b: Reveal)
    requires a.discriminant == b.discriminant == ERROR_TYPE && a != b
    ensures var items := seq(128, _ => a) + [b];
            && |items| == 129 && Ratio(Occurrences(items, a), 129) >= 0.51
            && ErrorsPanic(items, true)
            && IsErrorMode(items, false, Single(b)) && Ratio(Occurrences(items, b), 129) < 0.51
  {
    var items := seq(128, _ => a) + [b];
    CrowdCounts(a, b);
    ErrorsAre(items);
    hide Occurrences, TypeMask, Survivors, ErrorsOf;
    assert a in ErrorsOf(items) && b in ErrorsOf(items);
    assert Occurrences(ErrorsOf(items), a) > I8_MAX;
  }

  /** However often the only error is revealed, without overflow checks it is the mode of the errors. */
  lemma OnlyErrorIsElected(items: seq<Reveal>, x: Reveal)
    requires x in items && x.discriminant == ERROR_TYPE
    requires forall v :: v in items && v.discriminant == ERROR_TYPE ==> v == x
    ensures IsErrorMode(items, false, Single(x))
  {
    ErrorsAre(items);
    hide ErrorsOf, Occurrences;
    assert x in ErrorsOf(items);
    OnlyItemIsMode(ErrorsOf(items), x);
  }

  lemma {:induction false} SameOccurrences(items: seq<Reveal>, x: Reveal)
    ensures Occurrences(Survivors(items, TypeMask(items, x.discriminant)), x) == Occurrences(items, x)
    decreases |items|
  {
    if items == [] {
    } else {
      var n := |items| - 1;
      SameOccurrences(items[..n], x);
      OneMoreItem(items[..n], items[n], x);
      assert items == items[..n] + [items[n]];
    }
  }

  lemma OneMoreItem(items: seq<Reveal>, item: Reveal, x: Reveal)
    requires Occurrences(Survivors(items, TypeMask(items, x.discriminant)), x) == Occurrences(items, x)
    ensures Occurrences(Survivors(items + [item], TypeMask(items + [item], x.discriminant)), x)
         == Occurrences(items + [item], x)
  {
    var mask := TypeMask(items, x.discriminant);
    hide Occurrences, Survivors, TypeMask;
    TypeMaskLast(items, item, x.discriminant);
    SurvivorsLast(items, mask, item, item.discriminant != x.discriminant);
    OccurrencesLast(items, item, x);
    OccurrencesLast(Survivors(items, mask), item, x);
    assert Survivors(items, mask) + [] == Survivors(items, mask);
  }
}
