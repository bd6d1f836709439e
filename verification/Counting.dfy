/**
 Counting selections (internal/formula/modes.go, Count): big.Int is modelled by int, the
 three counts by their recurrences, and the two accumulator loops are proved against them.
 */
module Counting {

  datatype Mode = Permutation | Combination | WithReplacement | UnknownMode(name: string)

  /** Pascal's recurrence. */
  function Binomial(n: nat, k: nat): nat
  {
    if k == 0 then 1
    else if n == 0 then 0
    else Binomial(n - 1, k - 1) + Binomial(n - 1, k)
  }

  function FallingFactorial(n: nat, k: nat): nat
  {
    if k == 0 then 1
    else if n == 0 then 0
    else n * FallingFactorial(n - 1, k - 1)
  }

  function Power(n: nat, k: nat): nat
  {
    if k == 0 then 1 else n * Power(n, k - 1)
  }

  /** How many selections of k items out of n a mode has. */
  function Total(mode: Mode, n: int, k: int): nat
  {
    if n < 0 || k < 0 then 0
    else match mode
      case Permutation => FallingFactorial(n, k)
      case Combination => Binomial(n, k)
      case WithReplacement => Power(n, k)
      case UnknownMode(_) => 0
  }

  lemma {:induction false} BinomialBeyond(n: nat, k: nat)
    requires k > n
    ensures Binomial(n, k) == 0
  {
    if n > 0 {
      BinomialBeyond(n - 1, k - 1);
      BinomialBeyond(n - 1, k);
    }
  }

  lemma {:induction false} BinomialWhole(n: nat)
    ensures Binomial(n, n) == 1
  {
    if n > 0 {
      BinomialWhole(n - 1);
      BinomialBeyond(n - 1, n);
    }
  }

  lemma {:induction false} BinomialPositive(n: nat, k: nat)
    requires k <= n
    ensures Binomial(n, k) > 0
  {
    if k > 0 {
      BinomialPositive(n - 1, k - 1);
    }
  }

  /** k C(n,k) = n C(n-1,k-1): why the division in Count's loop is exact. */
  lemma {:induction false} Absorption(n: nat, k: nat)
    requires n > 0 && k > 0
    ensures k * Binomial(n, k) == n * Binomial(n - 1, k - 1)
  {
    if n == 1 {
      if k > 1 { BinomialBeyond(1, k); BinomialBeyond(0, k - 1); }
    } else if k == 1 {
      Absorption(n - 1, 1);
    } else {
      Absorption(n - 1, k);
      Absorption(n - 1, k - 1);
      var a, b := Binomial(n - 2, k - 2), Binomial(n - 2, k - 1);
      var p, q := Binomial(n - 1, k - 1), Binomial(n - 1, k);
      assert p == a + b;
      calc {
        k * (p + q);
        { Distribute(k, p, q); }
        k * p + k * q;
        { Distribute(p, k - 1, 1); }
        (k - 1) * p + p + k * q;
        (n - 1) * a + p + (n - 1) * b;
        { Distribute(n - 1, a, b); }
        (n - 1) * p + p;
        { Distribute(p, n - 1, 1); }
        n * p;
      }
    }
  }

  lemma Distribute(x: int, y: int, z: int)
    ensures x * (y + z) == x * y + x * z
    ensures (y + z) * x == x * y + x * z
  {
  }

  lemma {:induction false} BinomialSymmetric(n: nat, k: nat)
    requires k <= n
    ensures Binomial(n, k) == Binomial(n, n - k)
  {
    if k == 0 || k == n {
      BinomialWhole(n);
    } else {
      BinomialSymmetric(n - 1, k - 1);
      BinomialSymmetric(n - 1, k);
    }
  }

  lemma {:induction false} FallingBeyond(n: nat, k: nat)
    requires k > n
    ensures FallingFactorial(n, k) == 0
  {
    if n > 0 { FallingBeyond(n - 1, k - 1); }
  }

  lemma {:induction false} FallingPositive(n: nat, k: nat)
    requires k <= n
    ensures FallingFactorial(n, k) > 0
  {
    if k > 0 { FallingPositive(n - 1, k - 1); }
  }

  /** Peeling the last factor instead of the first, as Count's loop does. */
  lemma {:induction false} FallingLastFactor(n: nat, k: nat)
    requires k < n
    ensures FallingFactorial(n, k + 1) == FallingFactorial(n, k) * (n - k)
  {
    if k > 0 {
      FallingLastFactor(n - 1, k - 1);
      MultiplyAssociates(n, FallingFactorial(n - 1, k - 1), n - k);
    }
  }

  lemma MultiplyAssociates(x: int, y: int, z: int)
    ensures x * (y * z) == (x * y) * z
  {
  }

  lemma {:induction false} PowerPositive(n: nat, k: nat)
    requires n > 0
    ensures Power(n, k) > 0
  {
    if k > 0 { PowerPositive(n, k - 1); }
  }

  /** Exactness of one step of the combination loop: C(m+s,s) s = C(m+s-1,s-1) (m+s). */
  lemma ExactStep(m: nat, step: nat)
    requires step > 0
    ensures Binomial(m + step - 1, step - 1) * (m + step) == Binomial(m + step, step) * step
    ensures (Binomial(m + step - 1, step - 1) * (m + step)) / step == Binomial(m + step, step)
    ensures (Binomial(m + step - 1, step - 1) * (m + step)) % step == 0
  {
    Absorption(m + step, step);
    DivideMultiple(Binomial(m + step, step), step);
  }

  lemma DivideMultiple(q: nat, d: nat)
    requires d > 0
    ensures (q * d) / d == q && (q * d) % d == 0
  {
    assert q * d == d * ((q * d) / d) + (q * d) % d;
    MultipleBound(d, q - (q * d) / d);
  }

  lemma MultipleBound(d: int, e: int)
    requires d > 0
    ensures e >= 1 ==> d * e >= d
    ensures e <= -1 ==> d * e <= -d
  {
  }

  method Count(mode: Mode, n: int, k: int) returns (result: int)
    ensures result == Total(mode, n, k)
  {
    if n < 0 || k < 0 {
      return 0;
    }
    match mode
    case Permutation =>
      if k > n {
        FallingBeyond(n, k);
        return 0;
      }
      result := 1;
      var current := 0;
      while current < k
        invariant 0 <= current <= k
        invariant result == FallingFactorial(n, current)
      {
        FallingLastFactor(n, current);
        result := result * (n - current);
        current := current + 1;
      }
    case Combination =>
      if k > n {
        BinomialBeyond(n, k);
        return 0;
      }
      if k == 0 || k == n {
        BinomialWhole(n);
        return 1;
      }
      var k' := k;
      BinomialSymmetric(n, k);
      if k' > n - k' {
        k' := n - k';
      }
      result := 1;
      var step := 1;
      while step <= k'
        invariant 1 <= step <= k' + 1
        invariant result == Binomial(n - k' + step - 1, step - 1)
      {
        ExactStep(n - k', step);
        result := result * (n - k' + step);
        result := result / step;
        step := step + 1;
      }
    case WithReplacement =>
      if k == 0 {
        return 1;
      }
      if n == 0 {
        return 0;
      }
      result := Power(n, k);
    case UnknownMode(_) =>
      result := 0;
  }
}
