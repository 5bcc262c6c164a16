/** Unsigned machine words and their saturating operations. */
module Words {
  import opened Arithmetic

  const U16_MAX: nat := 0xFFFF
  const U32_MAX: nat := 0xFFFF_FFFF
  const U64_MAX: nat := 0xFFFF_FFFF_FFFF_FFFF

  type U16 = n: nat | n <= U16_MAX
  type U32 = n: nat | n <= U32_MAX
  type U64 = n: nat | n <= U64_MAX

  /** The hash of a public key: who somebody is. */
  type Pkh = nat

  function Min(a: nat, b: nat): nat {
    if a <= b then a else b
  }

  function SaturatingAdd(a: nat, b: nat, max: nat): nat {
    Min(a + b, max)
  }

  function SaturatingMul(a: nat, b: nat, max: nat): nat {
    Min(a * b, max)
  }

  function SaturatingSub(a: nat, b: nat): nat {
    if a >= b then a - b else 0
  }

  /** Saturating early does not change a saturated sum. */
  lemma SaturatedSum(a: nat, b: nat, max: nat)
    ensures SaturatingAdd(Min(a, max), Min(b, max), max) == Min(a + b, max)
  {
  }

  /** Saturating early does not change a saturated product. */
  lemma SaturatedProduct(a: nat, c: nat, max: nat)
    requires c >= 1
    ensures SaturatingMul(Min(a, max), c, max) == Min(a * c, max)
  {
    if a > max {
      MulMonotone(max, a, c);
      MulMonotone(1, c, max);
    }
  }
}
