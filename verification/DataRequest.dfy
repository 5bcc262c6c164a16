/** `DataRequestOutput` and the values and weights derived from it. */
module DataRequests {
  import opened Options
  import opened Words

  const INPUT_SIZE: nat := 133
  const OUTPUT_SIZE: nat := 36
  const COMMIT_WEIGHT: nat := 400
  const REVEAL_WEIGHT: nat := 200
  const TALLY_WEIGHT: nat := 100
  const ALPHA: nat := 1
  const BETA: nat := 1
  const GAMMA: nat := 10

  /** The retrieval, aggregation and tally scripts enter only by their weight. */
  datatype DataRequestOutput = DataRequestOutput(
    requestWeight: U32,
    witnessReward: U64,
    witnesses: U16,
    commitAndRevealFee: U64,
    collateral: U64)
  {
    function TotalValue(): nat {
      (witnessReward + commitAndRevealFee + commitAndRevealFee) * witnesses
    }

    /** `checked_total_value` */
    function CheckedTotalValue(): Option<U64> {
      if TotalValue() <= U64_MAX && witnessReward + commitAndRevealFee + commitAndRevealFee <= U64_MAX
      then Some(TotalValue()) else None
    }

    function Weight(): nat {
      SaturatingAdd(requestWeight, 8 + 2 + 8 + 4 + 8, U32_MAX)
    }

    function ExtraWeight(): nat {
      var commitWeight := SaturatingMul(witnesses, COMMIT_WEIGHT, U32_MAX);
      var revealWeight := SaturatingMul(SaturatingMul(witnesses, REVEAL_WEIGHT, U32_MAX), BETA, U32_MAX);
      var outputWeight := SaturatingMul(witnesses, OUTPUT_SIZE, U32_MAX);
      var tallyWeight := SaturatingAdd(SaturatingMul(TALLY_WEIGHT, BETA, U32_MAX), outputWeight, U32_MAX);
      SaturatingAdd(SaturatingAdd(commitWeight, revealWeight, U32_MAX), tallyWeight, U32_MAX)
    }
  }

  /** `VTTransactionBody::weight` */
  function VtWeight(inputs: nat, outputs: nat): nat {
    SaturatingAdd(
      SaturatingMul(Min(inputs, U32_MAX), INPUT_SIZE, U32_MAX),
      SaturatingMul(SaturatingMul(Min(outputs, U32_MAX), OUTPUT_SIZE, U32_MAX), GAMMA, U32_MAX),
      U32_MAX)
  }

  /** `DRTransactionBody::weight` */
  function DrWeight(inputs: nat, outputs: nat, dr: DataRequestOutput): nat {
    var request := SaturatingAdd(SaturatingMul(dr.Weight(), ALPHA, U32_MAX), dr.ExtraWeight(), U32_MAX);
    SaturatingAdd(
      SaturatingAdd(request, SaturatingMul(Min(inputs, U32_MAX), INPUT_SIZE, U32_MAX), U32_MAX),
      SaturatingMul(Min(outputs, U32_MAX), OUTPUT_SIZE, U32_MAX),
      U32_MAX)
  }

  function WeightOf(inputs: nat, outputs: nat, dr: Option<DataRequestOutput>): nat {
    match dr
    case None => VtWeight(inputs, outputs)
    case Some(d) => DrWeight(inputs, outputs, d)
  }

  /** The part of the weight that the number of inputs does not change. */
  ghost function RestWeight(outputs: nat, dr: Option<DataRequestOutput>): nat {
    match dr
    case None => 360 * outputs
    case Some(d) => d.requestWeight + 30 + 636 * d.witnesses + 100 + 36 * outputs
  }

  /** The saturating steps amount to one saturated sum, linear in the number of inputs. */
  lemma WeightIsLinear(inputs: nat, outputs: nat, dr: Option<DataRequestOutput>)
    ensures WeightOf(inputs, outputs, dr) == Min(133 * inputs + RestWeight(outputs, dr), U32_MAX)
  {
    match dr
    case None => VtWeightIsLinear(inputs, outputs);
    case Some(d) => DrWeightIsLinear(inputs, outputs, d);
  }

  lemma VtWeightIsLinear(inputs: nat, outputs: nat)
    ensures VtWeight(inputs, outputs) == Min(133 * inputs + 360 * outputs, U32_MAX)
  {
    hide SaturatingMul, SaturatingAdd, Min;
    SaturatedProduct(inputs, INPUT_SIZE, U32_MAX);
    SaturatedProduct(outputs, OUTPUT_SIZE, U32_MAX);
    SaturatedProduct(outputs * OUTPUT_SIZE, GAMMA, U32_MAX);
    SaturatedSum(inputs * INPUT_SIZE, outputs * OUTPUT_SIZE * GAMMA, U32_MAX);
  }

  lemma DrWeightIsLinear(inputs: nat, outputs: nat, d: DataRequestOutput)
    ensures DrWeight(inputs, outputs, d) == Min(133 * inputs + RestWeight(outputs, Some(d)), U32_MAX)
  {
    hide SaturatingMul, SaturatingAdd, Min;
    var request := RequestWeightIs(d);
    SaturatedProduct(inputs, INPUT_SIZE, U32_MAX);
    SaturatedProduct(outputs, OUTPUT_SIZE, U32_MAX);
    SaturatedSum(request, inputs * INPUT_SIZE, U32_MAX);
    SaturatedSum(request + inputs * INPUT_SIZE, outputs * OUTPUT_SIZE, U32_MAX);
  }

  lemma RequestWeightIs(d: DataRequestOutput) returns (request: nat)
    ensures request == RestWeight(0, Some(d))
    ensures SaturatingAdd(SaturatingMul(d.Weight(), ALPHA, U32_MAX), d.ExtraWeight(), U32_MAX) == Min(request, U32_MAX)
  {
    request := RestWeight(0, Some(d));
  }
}
