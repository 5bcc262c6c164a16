/** Powers of two and the bit operations that Rust's `usize` offers, written on `nat`. */
module Bits {

  function Pow2(j: nat): (p: nat)
    ensures p >= 1
  {
    if j == 0 then 1 else 2 * Pow2(j - 1)
  }

  /** `usize::next_power_of_two`: the smallest power of two that is at least `n`. */
  function NextPowerOfTwo(n: nat): (p: nat)
    ensures n <= p
  {
    if n <= 1 then 1 else 2 * NextPowerOfTwo((n + 1) / 2)
  }

  lemma {:induction false} NextPowerOfTwoIs(n: nat, j: nat)
    requires n <= Pow2(j)
    requires j == 0 || Pow2(j - 1) < n
    ensures NextPowerOfTwo(n) == Pow2(j)
  {
    if j > 0 {
      NextPowerOfTwoIs((n + 1) / 2, j - 1);
    }
  }

  lemma {:induction false} Pow2Monotone(i: nat, j: nat)
    requires i <= j
    ensures Pow2(i) <= Pow2(j)
    decreases j
  {
    if i < j {
      Pow2Monotone(i, j - 1);
    }
  }

  /** The level whose power of two is the largest one below `n`. */
  ghost function Level(n: nat): (j: nat)
    requires n >= 2
    ensures Pow2(j) < n <= Pow2(j + 1)
  {
    if n == 2 then 0 else 1 + Level((n + 1) / 2)
  }

  /** `n >> j` */
  function Shr(n: nat, j: nat): nat {
    if j == 0 then n else Shr(n / 2, j - 1)
  }

  /** `n << j`, without the word size's bound. */
  function Shl(n: nat, j: nat): nat {
    if j == 0 then n else 2 * Shl(n, j - 1)
  }

  /** Bit `j` of `n`: `(n >> j) & 1`. */
  function Bit(n: nat, j: nat): (b: nat)
    ensures b <= 1
  {
    Shr(n, j) % 2
  }

  lemma {:induction false} ShlAdd(a: nat, b: nat, j: nat)
    ensures Shl(a + b, j) == Shl(a, j) + Shl(b, j)
  {
    if j > 0 {
      ShlAdd(a, b, j - 1);
    }
  }

  lemma {:induction false} ShlPow2(i: nat, j: nat)
    ensures Shl(Pow2(i), j) == Pow2(i + j)
  {
    if j > 0 {
      ShlPow2(i, j - 1);
    }
  }

  lemma {:induction false} ShlZero(j: nat)
    ensures Shl(0, j) == 0
  {
    if j > 0 {
      ShlZero(j - 1);
    }
  }

  lemma {:induction false} ShlDouble(n: nat, j: nat)
    ensures Shl(2 * n, j) == Shl(n, j + 1)
  {
    if j > 0 {
      ShlDouble(n, j - 1);
    }
  }

  /** Shifting right undoes shifting left, whatever was filled in below. */
  lemma {:induction false} ShrOfShl(q: nat, low: nat, j: nat)
    requires low < Pow2(j)
    ensures Shr(Shl(q, j) + low, j) == q
  {
    if j > 0 {
      ShrOfShl(q, low / 2, j - 1);
      assert (Shl(q, j) + low) / 2 == Shl(q, j - 1) + low / 2;
    }
  }

  /** One more step of a shift can be taken at the end. */
  lemma {:induction false} ShrStep(n: nat, j: nat)
    ensures Shr(n, j + 1) == Shr(n, j) / 2
  {
    if j > 0 {
      ShrStep(n / 2, j - 1);
    }
  }

  /** `a | b` */
  function BitOr(a: nat, b: nat): nat
    decreases a + b
  {
    if a == 0 then b
    else if b == 0 then a
    else 2 * BitOr(a / 2, b / 2) + (if a % 2 == 1 || b % 2 == 1 then 1 else 0)
  }

  /** Or-ing in a value shifted past every bit of `low` adds it. */
  lemma {:induction false} BitOrDisjoint(low: nat, high: nat, k: nat)
    requires low < Pow2(k)
    ensures BitOr(low, Shl(high, k)) == low + Shl(high, k)
  {
    if k > 0 && low > 0 {
      BitOrDisjoint(low / 2, high, k - 1);
    }
  }

  /** The low `k` bits of `n`: what a `k`-bit word keeps of it. */
  function Low(n: nat, k: nat): nat {
    if k == 0 then 0 else 2 * Low(n / 2, k - 1) + n % 2
  }

  lemma LowStep(n: nat, k: nat)
    requires k > 0
    ensures Low(n, k) / 2 == Low(n / 2, k - 1) && Low(n, k) % 2 == n % 2
  {
  }

  lemma {:induction false} LowAtMost(n: nat, k: nat)
    ensures Low(n, k) <= n
    decreases k
  {
    if k > 0 {
      LowAtMost(n / 2, k - 1);
    }
  }

  /** Truncating a shifted value truncates the value. */
  lemma {:induction false} LowOfShl(n: nat, j: nat, k: nat)
    requires j <= k
    ensures Low(Shl(n, j), k) == Shl(Low(n, k - j), j)
  {
    if j > 0 {
      LowOfShl(n, j - 1, k - 1);
      assert Shl(n, j) / 2 == Shl(n, j - 1);
    }
  }
}
