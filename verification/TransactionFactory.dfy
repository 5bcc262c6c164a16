/** `build_inputs_outputs`: inputs for given outputs and fee, and the search for a relative fee. */
module TransactionFactory {
  import opened Options
  import opened Words
  import opened Arithmetic
  import opened Sequences
  import opened UtxoPool
  import opened DataRequests
  import opened CoinSelection

  /** A fee in nanowits, or in nanowits per unit of weight. */
  datatype Fee = Absolute(nanowits: U64) | Relative(priority: real)

  /** `derive_fee_wit`: the product, rounded down and cast to a word, which saturates. */
  function FeeFor(priority: real, weight: nat): U64 {
    var fee := priority * weight as real;
    if fee <= 0.0 then 0 else if fee >= U64_MAX as real then U64_MAX else fee.Floor
  }

  /** The fee is the product without its fractional part, unless it is negative or too large for a word. */
  lemma FeeIs(priority: real, weight: nat)
    ensures var product := priority * weight as real;
            && (product < 0.0 ==> FeeFor(priority, weight) == 0)
            && (product >= U64_MAX as real ==> FeeFor(priority, weight) == U64_MAX)
            && (0.0 <= product < U64_MAX as real ==>
                  FeeFor(priority, weight) as real <= product < FeeFor(priority, weight) as real + 1.0)
  {
  }

  lemma FeeMonotone(priority: real, weight: nat, heavier: nat)
    requires weight <= heavier
    ensures FeeFor(priority, weight) <= FeeFor(priority, heavier)
  {
    if priority <= 0.0 {
      assert priority * weight as real <= 0.0 by { NonPositive(priority, weight as real); }
    } else {
      assert priority * weight as real <= priority * heavier as real;
    }
  }

  lemma NonPositive(p: real, w: real)
    requires p <= 0.0 && w >= 0.0
    ensures p * w <= 0.0
  {
  }

  function OutputsTotal(outputs: seq<ValueTransferOutput>): nat {
    if outputs == [] then 0 else OutputsTotal(outputs[..|outputs| - 1]) + outputs[|outputs| - 1].value
  }

  /** `transaction_outputs_sum` */
  method TransactionOutputsSum(outputs: seq<ValueTransferOutput>) returns (sum: Option<U64>)
    ensures sum == if OutputsTotal(outputs) <= U64_MAX then Some(OutputsTotal(outputs)) else None
  {
    var total := 0;
    for i := 0 to |outputs|
      invariant total == OutputsTotal(outputs[..i]) <= U64_MAX
    {
      assert outputs[..i + 1][..i] == outputs[..i];
      total := total + outputs[i].value;
      if total > U64_MAX {
        OutputsTotalGrows(outputs, i + 1);
        return None;
      }
    }
    assert outputs[..|outputs|] == outputs;
    sum := Some(total);
  }

  lemma {:induction false} OutputsTotalGrows(outputs: seq<ValueTransferOutput>, n: nat)
    requires n <= |outputs|
    ensures OutputsTotal(outputs[..n]) <= OutputsTotal(outputs)
    decreases |outputs| - n
  {
    if n == |outputs| {
      assert outputs[..n] == outputs;
    } else {
      OutputsTotalGrows(outputs, n + 1);
      assert outputs[..n + 1][..n] == outputs[..n];
    }
  }

  /** What is to be paid: the outputs, the data request if there is one, and the fee. */
  datatype Order = Order(
    outputs: seq<ValueTransferOutput>,
    dr: Option<DataRequestOutput>,
    fee: Fee,
    maxWeight: U32)
  {
    /** The sums that the source computes in words do not overflow. */
    predicate Fits() {
      OutputsTotal(outputs) <= U64_MAX && (dr.Some? ==> dr.value.CheckedTotalValue().Some?)
    }

    /** The value the source computes: a sum that does not fit counts as the largest word. */
    function OutputValue(): nat {
      var sum := if OutputsTotal(outputs) <= U64_MAX then OutputsTotal(outputs) else U64_MAX;
      sum + match dr
        case None => 0
        case Some(d) => if d.CheckedTotalValue().Some? then d.CheckedTotalValue().value else U64_MAX
    }

    /** The estimated weight with one more output for the change. */
    function Estimate(inputs: nat): nat {
      WeightOf(inputs, |outputs| + 1, dr)
    }

    /** What the inputs must cover when the fee is that of `inputs` inputs. */
    function AmountFor(inputs: nat): nat {
      OutputValue() + match fee
        case Absolute(nanowits) => nanowits
        case Relative(priority) => FeeFor(priority, Estimate(inputs))
    }
  }

  datatype TransactionInfo = TransactionInfo(fee: U64, inputs: CollectedOutputs, outputValue: nat)

  /** A panic is the `unreachable!` at the end of the search for a relative fee. */
  datatype Outcome<+T> = Done(value: T) | Failed(error: TransactionError) | Panic

  /**
   * Paying the fee estimated for `n` inputs takes exactly `n` inputs, and everything fits. For a
   * relative fee this is what the search is after.
   */
  ghost predicate SelfConsistent(o: Order, f: Funds, order: seq<OutputPointer>, n: nat) {
    && n >= 1
    && o.Estimate(n) <= o.maxWeight
    && o.AmountFor(n) <= U64_MAX
    && Take(f, order, o.AmountFor(n)).Ok?
    && |Take(f, order, o.AmountFor(n)).value.pointers| == n
  }

  /** The error of a transaction that is too heavy with so many inputs. */
  ghost function TooHeavy(o: Order, inputs: nat): TransactionError {
    match o.dr
    case None => ValueTransferWeightLimitExceeded(o.Estimate(inputs), o.maxWeight)
    case Some(d) => DataRequestWeightLimitExceeded(o.Estimate(inputs), o.maxWeight, d)
  }

  /** Why the round with the fee of `n` inputs fails, if it does. */
  ghost function RoundFailure(o: Order, f: Funds, order: seq<OutputPointer>, n: nat): Option<TransactionError> {
    if o.AmountFor(n) > U64_MAX then
      Some(FeeOverflow)
    else
      var r := Take(f, order, o.AmountFor(n));
      if r.Err? then Some(r.error)
      else if o.Estimate(|r.value.pointers|) > o.maxWeight then Some(TooHeavy(o, |r.value.pointers|))
      else None
  }

  /** The number of inputs that round `k` of the search pays the fee of: what the round before took. */
  ghost function InputsInRound(o: Order, f: Funds, order: seq<OutputPointer>, k: nat): nat {
    if k == 0 then 1 else InputsFor(o, f, order, InputsInRound(o, f, order, k - 1))
  }

  /** Round `k` is the first of the search to fail, and it fails with this error. */
  ghost predicate FailsInRound(o: Order, f: Funds, order: seq<OutputPointer>, k: nat, e: TransactionError) {
    && RoundFailure(o, f, order, InputsInRound(o, f, order, k)) == Some(e)
    && forall j: nat :: j < k ==> RoundFailure(o, f, order, InputsInRound(o, f, order, j)).None?
  }

  lemma EstimateMonotone(o: Order, m: nat, n: nat)
    requires m <= n
    ensures o.Estimate(m) <= o.Estimate(n)
    ensures o.fee.Relative? ==> o.AmountFor(m) <= o.AmountFor(n)
  {
    WeightIsLinear(m, |o.outputs| + 1, o.dr);
    WeightIsLinear(n, |o.outputs| + 1, o.dr);
    if o.fee.Relative? {
      FeeMonotone(o.fee.priority, o.Estimate(m), o.Estimate(n));
    }
  }

  /** Whatever holds the search back at `m` holds it back at every larger estimate. */
  lemma NoneAbove(o: Order, f: Funds, order: seq<OutputPointer>, m: nat)
    requires o.fee.Relative? && o.AmountFor(m) > 0
    requires o.AmountFor(m) > U64_MAX || Take(f, order, o.AmountFor(m)).Err?
    ensures forall n :: n >= m ==> !SelfConsistent(o, f, order, n)
  {
    forall n | n >= m
      ensures !SelfConsistent(o, f, order, n)
    {
      EstimateMonotone(o, m, n);
      TakeMonotone(f, order, o.AmountFor(m), o.AmountFor(n));
    }
  }

  /** The inputs taken for estimate `m` are a lower bound on every consistent estimate above. */
  lemma StaysBelow(o: Order, f: Funds, order: seq<OutputPointer>, m: nat, n: nat)
    requires o.fee.Relative? && o.AmountFor(m) > 0 && m <= n && SelfConsistent(o, f, order, n)
    ensures Take(f, order, o.AmountFor(m)).Ok? && |Take(f, order, o.AmountFor(m)).value.pointers| <= n
  {
    EstimateMonotone(o, m, n);
    TakeMonotone(f, order, o.AmountFor(m), o.AmountFor(n));
  }

  /** No estimate that fits the limit is held down by the size of the word. */
  ghost predicate Unsaturated(o: Order, order: seq<OutputPointer>) {
    o.maxWeight < U32_MAX || INPUT_SIZE * |order| + RestWeight(|o.outputs| + 1, o.dr) <= U32_MAX
  }

  /** The weight, or an error exactly when it is above the limit; it never is above the largest word. */
  method CalculateWeight(o: Order, inputs: nat) returns (r: Result<nat>)
    ensures r.Ok? <==> INPUT_SIZE * inputs + RestWeight(|o.outputs| + 1, o.dr) <= o.maxWeight || o.maxWeight == U32_MAX
    ensures r.Ok? ==> r.value == o.Estimate(inputs) <= o.maxWeight
    ensures r.Err? ==>
              && o.Estimate(inputs) > o.maxWeight
              && r.error == match o.dr
                   case None => ValueTransferWeightLimitExceeded(o.Estimate(inputs), o.maxWeight)
                   case Some(d) => DataRequestWeightLimitExceeded(o.Estimate(inputs), o.maxWeight, d)
  {
    WeightIsLinear(inputs, |o.outputs| + 1, o.dr);
    hide VtWeight, DrWeight, RestWeight;
    match o.dr
    case None =>
      var weight := VtWeight(inputs, |o.outputs| + 1);
      r := if weight > o.maxWeight then Err(ValueTransferWeightLimitExceeded(weight, o.maxWeight)) else Ok(weight);
    case Some(d) =>
      var weight := DrWeight(inputs, |o.outputs| + 1, d);
      r := if weight > o.maxWeight then Err(DataRequestWeightLimitExceeded(weight, o.maxWeight, d)) else Ok(weight);
  }

  /** In the round with the estimate for `n` inputs, more than `n` inputs are taken. */
  ghost predicate Climbs(o: Order, f: Funds, order: seq<OutputPointer>, n: nat) {
    o.AmountFor(n) <= U64_MAX && Take(f, order, o.AmountFor(n)).Ok? && InputsFor(o, f, order, n) > n
  }

  /**
   * The search runs out of rounds: the limit is the largest word, every round but the last takes
   * exactly one input more than the one before, and the last takes some number more, for which
   * the estimate saturates.
   */
  ghost predicate RunsOut(o: Order, f: Funds, order: seq<OutputPointer>)
    requires o.Estimate(1) <= o.maxWeight
  {
    var rounds := 1 + (o.maxWeight - o.Estimate(1)) / INPUT_SIZE;
    && o.maxWeight == U32_MAX && o.Estimate(rounds) < U32_MAX
    && (forall n: nat :: 1 <= n < rounds ==> InputsFor(o, f, order, n) == n + 1)
    && (forall n: nat :: 1 <= n <= rounds ==> Climbs(o, f, order, n))
  }

  lemma EstimateIs(o: Order, n: nat)
    ensures o.Estimate(n) == Min(INPUT_SIZE * n + RestWeight(|o.outputs| + 1, o.dr), U32_MAX)
  {
    WeightIsLinear(n, |o.outputs| + 1, o.dr);
  }

  /** Below the largest word, more inputs weigh more. */
  lemma StrictBelowMax(o: Order, m: nat, n: nat)
    requires m < n && o.Estimate(m) < U32_MAX
    ensures o.Estimate(m) < o.Estimate(n) <= U32_MAX
  {
    EstimateIs(o, m);
    EstimateIs(o, n);
  }

  /** Only when the estimate saturates can the last round still make it grow. */
  lemma LastRound(o: Order, p: nat, count: nat, rounds: nat)
    requires o.Estimate(1) <= o.maxWeight && rounds == 1 + (o.maxWeight - o.Estimate(1)) / INPUT_SIZE
    requires rounds <= p < count && o.Estimate(p) < o.Estimate(count) <= o.maxWeight
    ensures p == rounds && o.maxWeight == U32_MAX && o.Estimate(rounds) < U32_MAX
  {
    EstimateIs(o, 1);
    EstimateIs(o, p);
    EstimateIs(o, count);
    hide WeightOf, RestWeight;
  }

  /** A limit below the largest word, or funds whose weight stays below it, rule that out. */
  lemma UnsaturatedNeverRunsOut(o: Order, f: Funds, order: seq<OutputPointer>)
    requires o.Estimate(1) <= o.maxWeight && NoRepeats(order) && Unsaturated(o, order)
    ensures !RunsOut(o, f, order)
  {
    if RunsOut(o, f, order) {
      var rounds: nat := 1 + (o.maxWeight - o.Estimate(1)) / INPUT_SIZE;
      assert Climbs(o, f, order, rounds);
      SelectedPointers(f, order, o.AmountFor(rounds));
      EligiblesAre(f, order);
      EstimateIs(o, 1);
      EstimateIs(o, rounds);
      hide WeightOf, RestWeight, Take, Eligibles;
      assert false;
    }
  }

  /**
   * The search for a relative fee. It reaches the `unreachable!` exactly when it runs out of
   * rounds. Otherwise it succeeds with the fewest inputs that are consistent with their own fee,
   * or fails when there is no such number of inputs.
   */
  method RelativeFeeSearch(o: Order, f: Funds, order: seq<OutputPointer>) returns (r: Outcome<TransactionInfo>)
    requires o.fee.Relative? && o.OutputValue() <= U64_MAX
    requires NoRepeats(order) && forall k :: k in order ==> k in f.all
    requires o.Estimate(1) <= o.maxWeight
    ensures r.Panic? <==> RunsOut(o, f, order)
    ensures r.Done? ==>
              && r.value.outputValue == o.OutputValue() && o.AmountFor(1) > 0
              && r.value.fee == FeeFor(o.fee.priority, o.Estimate(|r.value.inputs.pointers|))
              && SelfConsistent(o, f, order, |r.value.inputs.pointers|)
              && Take(f, order, o.OutputValue() + r.value.fee) == Ok(r.value.inputs)
              && forall n :: SelfConsistent(o, f, order, n) ==> |r.value.inputs.pointers| <= n
    ensures r.Failed? && r.error != ZeroAmount ==> forall n :: !SelfConsistent(o, f, order, n)
    ensures r.Failed? && r.error == ZeroAmount ==> o.AmountFor(1) == 0
    ensures r.Failed? ==> exists k :: FailsInRound(o, f, order, k, r.error)
  {
    hide InputsInRound, RoundFailure, SelfConsistent, Take, Eligibles, WeightOf, FeeFor, TotalValue,
         RestWeight, RunsOut, Trail;
    TrailBegins(o, f, order);
    FirstRound(o, f, order);
    var currentWeight := o.Estimate(1);
    var maxIterations := 1 + (o.maxWeight - currentWeight) / INPUT_SIZE;
    // The number of inputs that the current weight is the estimate of.
    ghost var count: nat := 1;
    ghost var previous: nat := 0;
    ConsistentIsPositive(o, f, order);
    for i := 0 to maxIterations
      invariant count >= 1 && currentWeight == o.Estimate(count) <= o.maxWeight
      invariant forall n :: SelfConsistent(o, f, order, n) ==> count <= n
      invariant count == 1 || (o.AmountFor(1) > 0 && count <= |order| && count <= InputsFor(o, f, order, count))
      invariant Trail(o, f, order, i, previous, count)
      invariant RunsOut(o, f, order) && i < maxIterations ==> count == 1 + i
      invariant count == InputsInRound(o, f, order, i)
      invariant forall j: nat :: j < i ==> RoundFailure(o, f, order, InputsInRound(o, f, order, j)).None?
    {
      GoesOn(o, f, order, count);
      RoundIs(o, f, order, i);
      var fee := FeeFor(o.fee.priority, currentWeight);
      var amount := o.OutputValue() + fee;
      EstimateMonotone(o, 1, count);
      if amount > U64_MAX {
        NoneAbove(o, f, order, count);
        assert FailsInRound(o, f, order, i, FeeOverflow);
        return Failed(FeeOverflow);
      }
      var taken := TakeEnoughUtxos(f, order, amount);
      if taken.Err? {
        ZeroAmountIff(f, order, amount);
        if amount > 0 {
          NoneAbove(o, f, order, count);
        }
        assert FailsInRound(o, f, order, i, taken.error);
        return Failed(taken.error);
      }
      var inputs := taken.value;
      SearchStep(o, f, order, count);
      var newWeight := CalculateWeight(o, |inputs.pointers|);
      if newWeight.Err? {
        HeavierAbove(o, f, order, |inputs.pointers|);
        assert FailsInRound(o, f, order, i, newWeight.error);
        return Failed(newWeight.error);
      }
      if newWeight.value == currentWeight {
        FoundConsistent(o, f, order, count);
        return Done(TransactionInfo(fee, inputs, o.OutputValue()));
      }
      TrailStep(o, f, order, i, previous, count);
      currentWeight := newWeight.value;
      previous, count := count, |inputs.pointers|;
    }
    TrailEnds(o, f, order, maxIterations, previous, count);
    r := Panic;
  }

  /** The number of inputs taken when the fee is that of `n` inputs. */
  ghost function InputsFor(o: Order, f: Funds, order: seq<OutputPointer>, n: nat): nat {
    var r := Take(f, order, o.AmountFor(n));
    if r.Ok? then |r.value.pointers| else |order| + 1
  }

  lemma FirstRound(o: Order, f: Funds, order: seq<OutputPointer>)
    ensures InputsInRound(o, f, order, 0) == 1
  {
  }

  lemma RoundIs(o: Order, f: Funds, order: seq<OutputPointer>, k: nat)
    ensures var n := InputsInRound(o, f, order, k);
            var amount := o.AmountFor(n);
            && InputsInRound(o, f, order, k + 1) == InputsFor(o, f, order, n)
            && (amount > U64_MAX ==> RoundFailure(o, f, order, n) == Some(FeeOverflow))
            && (amount <= U64_MAX ==>
                  RoundFailure(o, f, order, n) ==
                  match Take(f, order, amount)
                  case Err(e) => Some(e)
                  case Ok(c) => if o.Estimate(|c.pointers|) > o.maxWeight then Some(TooHeavy(o, |c.pointers|)) else None)
  {
    hide Take, Order.AmountFor, Order.Estimate, InputsFor, TooHeavy;
  }

  /** One round: the number of inputs does not shrink, and stays below every consistent one. */
  lemma SearchStep(o: Order, f: Funds, order: seq<OutputPointer>, count: nat)
    requires o.fee.Relative? && NoRepeats(order) && count >= 1
    requires Take(f, order, o.AmountFor(count)).Ok?
    requires forall n :: SelfConsistent(o, f, order, n) ==> count <= n
    requires count == 1 || count <= InputsFor(o, f, order, count)
    ensures var next := InputsFor(o, f, order, count);
            && o.AmountFor(count) > 0
            && count <= next <= |order|
            && next <= InputsFor(o, f, order, next)
            && forall n :: SelfConsistent(o, f, order, n) ==> next <= n
  {
    hide SelfConsistent, Take, Eligibles, WeightOf, FeeFor, TotalValue;
    var next := InputsFor(o, f, order, count);
    ZeroAmountIff(f, order, o.AmountFor(count));
    SelectedPointers(f, order, o.AmountFor(count));
    EligiblesAre(f, order);
    forall n | SelfConsistent(o, f, order, n)
      ensures next <= n
    {
      StaysBelow(o, f, order, count, n);
    }
    EstimateMonotone(o, count, next);
    TakeMonotone(f, order, o.AmountFor(count), o.AmountFor(next));
    if Take(f, order, o.AmountFor(next)).Err? {
      assert InputsFor(o, f, order, next) == |order| + 1;
    }
  }

  lemma ConsistentIsPositive(o: Order, f: Funds, order: seq<OutputPointer>)
    ensures forall n :: SelfConsistent(o, f, order, n) ==> n >= 1
  {
  }

  lemma FoundConsistent(o: Order, f: Funds, order: seq<OutputPointer>, count: nat)
    requires o.fee.Relative? && o.Estimate(count) <= o.maxWeight && o.AmountFor(count) <= U64_MAX
    requires Take(f, order, o.AmountFor(count)).Ok? && InputsFor(o, f, order, count) >= 1
    requires o.Estimate(InputsFor(o, f, order, count)) == o.Estimate(count)
    ensures SelfConsistent(o, f, order, InputsFor(o, f, order, count))
    ensures o.AmountFor(InputsFor(o, f, order, count)) == o.AmountFor(count)
  {
    hide Take, WeightOf, FeeFor;
  }

  lemma HeavierAbove(o: Order, f: Funds, order: seq<OutputPointer>, m: nat)
    requires o.Estimate(m) > o.maxWeight
    requires forall n :: SelfConsistent(o, f, order, n) ==> m <= n
    ensures forall n :: !SelfConsistent(o, f, order, n)
  {
    forall n
      ensures !SelfConsistent(o, f, order, n)
    {
      if SelfConsistent(o, f, order, n) {
        EstimateMonotone(o, m, n);
      }
    }
  }

  /**
   * What the rounds so far did: the estimate grew in each, so that there are at least as many
   * inputs as rounds, and with exactly as many, every round added one.
   */
  ghost predicate Trail(o: Order, f: Funds, order: seq<OutputPointer>, rounds: nat, previous: nat, count: nat) {
    if rounds == 0 then
      count == 1
    else
      && rounds <= previous < count == InputsFor(o, f, order, previous)
      && o.Estimate(previous) < o.Estimate(count)
      && (previous == rounds ==>
            && (forall n: nat :: 1 <= n < rounds ==> InputsFor(o, f, order, n) == n + 1)
            && (forall n: nat :: 1 <= n <= rounds ==> Climbs(o, f, order, n)))
  }

  lemma TrailBegins(o: Order, f: Funds, order: seq<OutputPointer>)
    ensures Trail(o, f, order, 0, 0, 1)
  {
  }

  lemma TrailStep(o: Order, f: Funds, order: seq<OutputPointer>, i: nat, previous: nat, count: nat)
    requires o.fee.Relative? && Trail(o, f, order, i, previous, count)
    requires o.AmountFor(count) <= U64_MAX && Take(f, order, o.AmountFor(count)).Ok?
    requires count <= InputsFor(o, f, order, count) && o.Estimate(InputsFor(o, f, order, count)) != o.Estimate(count)
    ensures Trail(o, f, order, i + 1, count, InputsFor(o, f, order, count))
  {
    hide Take, InputsFor, Order.AmountFor, Order.Estimate;
    var next := InputsFor(o, f, order, count);
    EstimateMonotone(o, count, next);
    assert Climbs(o, f, order, count);
    if count == i + 1 && i > 0 {
      assert previous == i;
      forall n: nat | 1 <= n <= i + 1 ensures Climbs(o, f, order, n) {
        if n == i + 1 {
          assert n == count;
        }
      }
    }
  }

  /** As many rounds as the weight left allows, and not done: the search has run out. */
  lemma TrailEnds(o: Order, f: Funds, order: seq<OutputPointer>, rounds: nat, previous: nat, count: nat)
    requires o.Estimate(1) <= o.maxWeight && rounds == 1 + (o.maxWeight - o.Estimate(1)) / INPUT_SIZE
    requires Trail(o, f, order, rounds, previous, count) && o.Estimate(count) <= o.maxWeight
    ensures RunsOut(o, f, order)
  {
    hide Take, WeightOf, FeeFor, InputsFor, Climbs;
    LastRound(o, previous, count, rounds);
  }

  /** A search that will run out neither fails nor succeeds before. */
  lemma GoesOn(o: Order, f: Funds, order: seq<OutputPointer>, count: nat)
    requires o.Estimate(1) <= o.maxWeight && count >= 1
    ensures RunsOut(o, f, order) && count <= 1 + (o.maxWeight - o.Estimate(1)) / INPUT_SIZE ==>
              var next := InputsFor(o, f, order, count);
              && o.AmountFor(count) <= U64_MAX && Take(f, order, o.AmountFor(count)).Ok?
              && o.Estimate(count) < o.Estimate(next) <= o.maxWeight
              && (count <= (o.maxWeight - o.Estimate(1)) / INPUT_SIZE ==> next == count + 1)
  {
    var rounds: nat := 1 + (o.maxWeight - o.Estimate(1)) / INPUT_SIZE;
    hide Take, WeightOf, FeeFor, InputsFor;
    if RunsOut(o, f, order) && count <= rounds {
      assert Climbs(o, f, order, count);
      EstimateMonotone(o, count, rounds);
      StrictBelowMax(o, count, InputsFor(o, f, order, count));
    }
  }

  /** The inputs cover the value and the fee, and the fee is the one asked for. */
  ghost predicate Funded(o: Order, f: Funds, order: seq<OutputPointer>, info: TransactionInfo) {
    && info.outputValue == o.OutputValue() <= U64_MAX
    && Take(f, order, info.outputValue + info.fee) == Ok(info.inputs)
    && (match o.fee
        case Absolute(nanowits) => info.fee == nanowits
        case Relative(priority) =>
          && info.fee == FeeFor(priority, o.Estimate(|info.inputs.pointers|))
          && o.Estimate(|info.inputs.pointers|) <= o.maxWeight)
  }

  /** Everything fits, and the funds pay for the value and the fee. */
  ghost predicate Payable(o: Order, f: Funds, order: seq<OutputPointer>) {
    && o.OutputValue() <= U64_MAX && o.Estimate(1) <= o.maxWeight
    && if o.fee.Absolute? then
         o.AmountFor(0) <= U64_MAX && Take(f, order, o.AmountFor(0)).Ok?
       else
         o.AmountFor(1) > 0 && !RunsOut(o, f, order) && exists n :: SelfConsistent(o, f, order, n)
  }

  /** Which error a refusal gives. */
  ghost predicate Refused(o: Order, f: Funds, order: seq<OutputPointer>, e: TransactionError) {
    if o.OutputValue() > U64_MAX then e == OutputValueOverflow
    else if o.Estimate(1) > o.maxWeight then e == TooHeavy(o, 1)
    else if o.fee.Relative? then exists k :: FailsInRound(o, f, order, k, e)
    else if o.AmountFor(0) > U64_MAX then e == FeeOverflow
    else Take(f, order, o.AmountFor(0)) == Err(e)
  }

  method BuildInputsOutputs(o: Order, f: Funds, order: seq<OutputPointer>) returns (r: Outcome<TransactionInfo>)
    requires NoRepeats(order) && forall k :: k in order ==> k in f.all
    ensures r.Panic? <==>
              o.fee.Relative? && o.OutputValue() <= U64_MAX && o.Estimate(1) <= o.maxWeight && RunsOut(o, f, order)
    ensures Unsaturated(o, order) ==> !r.Panic?
    ensures r.Done? ==> Funded(o, f, order, r.value)
    ensures r.Done? && o.fee.Relative? ==>
              forall n :: SelfConsistent(o, f, order, n) ==> |r.value.inputs.pointers| <= n
    ensures r.Done? <==> Payable(o, f, order)
    ensures r.Failed? ==> Refused(o, f, order, r.error)
  {
    hide Take, WeightOf, FeeFor, SelfConsistent, RunsOut, Unsaturated;
    if o.Estimate(1) <= o.maxWeight && Unsaturated(o, order) {
      UnsaturatedNeverRunsOut(o, f, order);
    }
    var sum := TransactionOutputsSum(o.outputs);
    var outputValue := (if sum.Some? then sum.value else U64_MAX)
      + match o.dr
        case None => 0
        case Some(d) => (var v := d.CheckedTotalValue(); if v.Some? then v.value else U64_MAX);
    if outputValue > U64_MAX {
      return Failed(OutputValueOverflow);
    }
    assert outputValue == o.OutputValue();
    var firstWeight := CalculateWeight(o, 1);
    if firstWeight.Err? {
      ConsistentIsPositive(o, f, order);
      HeavierAbove(o, f, order, 1);
      return Failed(firstWeight.error);
    }
    match o.fee
    case Absolute(nanowits) =>
      var amount := outputValue + nanowits;
      if amount > U64_MAX {
        return Failed(FeeOverflow);
      }
      var taken := TakeEnoughUtxos(f, order, amount);
      if taken.Err? {
        return Failed(taken.error);
      }
      r := Done(TransactionInfo(nanowits, taken.value, outputValue));
    case Relative(_) =>
      r := RelativeFeeSearch(o, f, order);
      if r.Done? {
        ConsistentFits(o, f, order, |r.value.inputs.pointers|);
      }
  }

  lemma ConsistentFits(o: Order, f: Funds, order: seq<OutputPointer>, n: nat)
    requires SelfConsistent(o, f, order, n)
    ensures o.Estimate(n) <= o.maxWeight
  {
  }

  /** `insert_change_output` */
  function WithChange(outputs: seq<ValueTransferOutput>, ownPkh: nat, change: U64): seq<ValueTransferOutput> {
    if change > 0 then outputs + [ValueTransferOutput(ownPkh, change, 0)] else outputs
  }

  lemma ChangeTotal(outputs: seq<ValueTransferOutput>, ownPkh: nat, change: U64)
    ensures OutputsTotal(WithChange(outputs, ownPkh, change)) == OutputsTotal(outputs) + change
  {
    var out := ValueTransferOutput(ownPkh, change, 0);
    assert (outputs + [out])[..|outputs|] == outputs;
  }

  /** The subtraction that gives the change does not underflow. */
  lemma FundedCovers(o: Order, f: Funds, order: seq<OutputPointer>, info: TransactionInfo)
    requires NoRepeats(order) && Funded(o, f, order, info)
    ensures info.outputValue + info.fee <= info.inputs.totalValue == TotalValue(f, info.inputs.pointers) <= U64_MAX
    ensures NoRepeats(info.inputs.pointers) && info.inputs.pointers != []
    ensures forall k :: k in info.inputs.pointers ==> k in order && f.Eligible(k)
  {
    hide Take, WeightOf, FeeFor;
    SelectedPointers(f, order, info.outputValue + info.fee);
  }

  /**
   * A request's value is refused exactly when it or what one witness costs is too large, so only
   * when it is too large or there are no witnesses.
   */
  lemma RequestValue(d: DataRequestOutput)
    ensures d.CheckedTotalValue().None? <==>
              d.TotalValue() > U64_MAX || d.witnessReward + 2 * d.commitAndRevealFee > U64_MAX
    ensures d.CheckedTotalValue().Some? ==> d.CheckedTotalValue().value == d.TotalValue()
    ensures d.CheckedTotalValue().None? ==> d.TotalValue() == 0 || d.TotalValue() > U64_MAX
  {
    if d.witnesses > 0 {
      MulMonotone(1, d.witnesses, d.witnessReward + d.commitAndRevealFee + d.commitAndRevealFee);
    }
  }

  /**
   * Value is conserved exactly when the requested sums fit in a word: one that does not fit is
   * taken for the largest word instead of being refused.
   */
  lemma ConservedIff(o: Order, f: Funds, order: seq<OutputPointer>, info: TransactionInfo, ownPkh: nat, change: U64)
    requires NoRepeats(order) && Funded(o, f, order, info)
    requires change == info.inputs.totalValue - info.outputValue - info.fee
    ensures Conserved(o, f, info, WithChange(o.outputs, ownPkh, change)) <==> o.Fits()
  {
    hide Take, WeightOf, FeeFor, TotalValue, OutputsTotal, WithChange, NoRepeats,
         DataRequestOutput.TotalValue, DataRequestOutput.CheckedTotalValue;
    FundedCovers(o, f, order, info);
    ChangeTotal(o.outputs, ownPkh, change);
    if o.dr.Some? {
      RequestValue(o.dr.value);
    }
  }

  /** Outputs worth more than the largest word, paid with one own output worth the largest word. */
  method BuildOverflowing(k: OutputPointer) returns (o: Order, r: Outcome<TransactionInfo>)
    ensures !o.Fits() && r == Done(TransactionInfo(0, CollectedOutputs([k], U64_MAX), U64_MAX))
  {
    hide Take, OutputsTotal, RunsOut;
    var big, one := ValueTransferOutput(0, U64_MAX, 0), ValueTransferOutput(0, 1, 0);
    var f := Funds(map[k := Utxo(big, 0)], map[k := 0], 0, None);
    o := Order([big, one], None, Absolute(0), U32_MAX);
    TotalOfTwo(big, one);
    TakeOnlyOne(f, k, U64_MAX);
    EstimateIs(o, 1);
    r := BuildInputsOutputs(o, f, [k]);
  }

  /** A request that weighs almost the largest word, which is the limit. */
  function HeavyOrder(): Order {
    Order([], Some(DataRequestOutput(U32_MAX - 1035, 2, 1, 0, 0)), Relative(0.0), U32_MAX)
  }

  function TwoCoins(): Funds {
    var coin := Utxo(ValueTransferOutput(0, 1, 0), 0);
    Funds(map[0 := coin, 1 := coin], map[0 := 0, 1 := 0], 0, None)
  }

  lemma HeavyOrderIs()
    ensures var o := HeavyOrder();
            o.Estimate(1) == U32_MAX - 100 && o.OutputValue() == 2 && o.AmountFor(1) == 2
  {
    var o := HeavyOrder();
    EstimateIs(o, 1);
    hide WeightOf;
    assert OutputsTotal([]) == 0 && o.dr.value.TotalValue() == 2;
  }

  /** Both coins are needed: one round is allowed, and it takes two inputs. */
  method ReachUnreachable() returns (r: Outcome<TransactionInfo>)
    ensures r == Panic
  {
    hide Take, Order.AmountFor, Order.Estimate, Order.OutputValue, SelfConsistent, Funded, Unsaturated;
    HeavyOrderIs();
    TakeBoth(TwoCoins(), 0, 1);
    assert Climbs(HeavyOrder(), TwoCoins(), [0, 1], 1);
    r := BuildInputsOutputs(HeavyOrder(), TwoCoins(), [0, 1]);
  }

  lemma TakeBoth(f: Funds, j: OutputPointer, k: OutputPointer)
    requires f.Eligible(j) && f.Eligible(k) && f.Value(j) == f.Value(k) == 1
    ensures Take(f, [j, k], 2) == Ok(CollectedOutputs([j, k], 2))
  {
    hide Eligibles, TotalValue, Funds.Eligible;
    var order := [j, k];
    ScanFromTheStart(f, order);
    PrefixStep(f, order, 0);
    PrefixStep(f, order, 1);
    assert order[..1] == [j] && [] + [j] == [j] && order[..2] == order && [j] + [k] == order;
    assert Scan(f, order, 2, 1) == Ok(CollectedOutputs(order, 2));
  }

  lemma TotalOfTwo(a: ValueTransferOutput, b: ValueTransferOutput)
    ensures OutputsTotal([a, b]) == a.value + b.value
  {
    assert [a, b][..1] == [a] && OutputsTotal([a]) == a.value;
  }

  lemma TakeOnlyOne(f: Funds, k: OutputPointer, amount: nat)
    requires f.Eligible(k) && 0 < amount <= f.Value(k)
    ensures Take(f, [k], amount) == Ok(CollectedOutputs([k], f.Value(k)))
  {
    hide Eligibles, TotalValue, Funds.Eligible;
    ScanFromTheStart(f, [k]);
    PrefixStep(f, [k], 0);
    assert [k][..0 + 1] == [k] && [] + [k] == [k];
  }

  ghost predicate Conserved(o: Order, f: Funds, info: TransactionInfo, outputs: seq<ValueTransferOutput>) {
    TotalValue(f, info.inputs.pointers)
    == OutputsTotal(outputs) + (if o.dr.Some? then o.dr.value.TotalValue() else 0) + info.fee
  }
}
