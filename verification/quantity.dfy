/** The quantity rule: products whose display price is below 20 are sold in
    steps of 6, everything else per piece, and a requested quantity is
    rounded up to the next whole step (`get_quantity_step_for_product`,
    `normalize_quantity_for_product`). */
module Quantity {
  import opened Text
  import opened Products

  /** The step of a product sold in bulk. */
  const BulkStep: nat := 6

  /** Display prices below this are sold in bulk steps. */
  const BulkPriceLimit: real := 20.0

  /** `get_quantity_step_for_product`: 6 below the price limit, else 1. */
  function QuantityStep(price: real): (step: nat)
    ensures step == BulkStep <==> price < BulkPriceLimit
    ensures step == 1 <==> price >= BulkPriceLimit
  {
    if price < BulkPriceLimit then BulkStep else 1
  }

  /** q is the least multiple of step that is at least n. */
  predicate IsLeastMultipleAtLeast(q: int, step: int, n: int)
    requires step > 0
  {
    q % step == 0 && n <= q < n + step
  }

  /** `ceil(a / b)` on whole numbers. */
  function CeilDiv(a: nat, b: nat): (r: nat)
    requires b > 0
    ensures r * b >= a
    ensures r * b < a + b
  {
    var r := (a + b - 1) / b;
    assert r * b <= a + b - 1;
    r
  }

  /** `normalize_quantity_for_product` for a given step: negatives become
      0, and a positive quantity is rounded up to a whole number of steps
      (`max(step, ceil(q / step) * step)`) when the step exceeds 1. */
  function NormalizeQuantity(requested: int, step: int): (q: nat)
    ensures requested <= 0 ==> q == 0
    ensures requested > 0 && step <= 1 ==> q == requested
    ensures requested > 0 && step > 1 ==> IsLeastMultipleAtLeast(q, step, requested)
  {
    var clamped: nat := if requested < 0 then 0 else requested;
    if clamped > 0 && step > 1 then
      var rounded := CeilDiv(clamped, step) * step;
      var q := if step > rounded then step else rounded;
      assert q == rounded && q % step == 0 by {
        LeastMultipleIsMultiple(CeilDiv(clamped, step), step);
      }
      q
    else clamped
  }

  lemma LeastMultipleIsMultiple(k: nat, step: int)
    requires step > 1
    ensures (k * step) % step == 0
    ensures k > 0 ==> k * step >= step
  {
    DivModUnique(k * step, step, k, 0);
    if k > 0 {
      MulAtLeast(k, step);
    }
  }

  lemma {:induction false} MulAtLeast(d: int, b: int)
    requires d >= 1 && b > 0
    ensures d * b >= b
  {
    if d > 1 {
      MulAtLeast(d - 1, b);
      assert d * b == (d - 1) * b + b;
    }
  }

  /** Euclidean division is unique: a quotient and remainder that rebuild a
      are the ones `/` and `%` give. */
  lemma DivModUnique(a: int, b: int, k: int, r: int)
    requires b > 0 && 0 <= r < b
    requires a == k * b + r
    ensures a / b == k && a % b == r
  {
    var k', r' := a / b, a % b;
    assert a == k' * b + r';
    if k > k' {
      MulAtLeast(k - k', b);
    } else if k < k' {
      MulAtLeast(k' - k, b);
    }
  }

  /** A quantity already on a step boundary is left as it is. */
  lemma MultipleIsFixed(q: nat, step: int)
    requires step > 1
    requires q % step == 0
    ensures NormalizeQuantity(q, step) == q
  {
    if q > 0 {
      var r := NormalizeQuantity(q, step);
      assert r % step == 0 && q <= r < q + step;
      MultiplesApart(q, r, step);
    }
  }

  /** Two multiples of step less than a step apart are equal. */
  lemma MultiplesApart(a: int, b: int, step: int)
    requires step > 0
    requires a % step == 0 && b % step == 0
    requires a <= b < a + step
    ensures a == b
  {
    var i, j := a / step, b / step;
    assert a == i * step && b == j * step;
    if j > i {
      MulAtLeast(j - i, step);
    } else if j < i {
      MulAtLeast(i - j, step);
    }
  }

  /** Normalising twice is normalising once. */
  lemma NormalizeIdempotent(requested: int, step: int)
    ensures NormalizeQuantity(NormalizeQuantity(requested, step), step) == NormalizeQuantity(requested, step)
  {
    var q := NormalizeQuantity(requested, step);
    if q > 0 && step > 1 {
      MultipleIsFixed(q, step);
    }
  }

  /** A larger request never normalises to a smaller quantity. */
  lemma NormalizeMonotone(a: int, b: int, step: int)
    requires a <= b
    ensures NormalizeQuantity(a, step) <= NormalizeQuantity(b, step)
  {
    var qa, qb := NormalizeQuantity(a, step), NormalizeQuantity(b, step);
    if a > 0 && step > 1 && qb < qa {
      MultiplesApart(qb, qa, step);
    }
  }

  /** The bulk step in numbers: 1 becomes 6, 6 stays 6, 7 becomes 12, and
      nothing positive is ordered as 0. */
  lemma BulkExamples()
    ensures NormalizeQuantity(1, BulkStep) == 6
    ensures NormalizeQuantity(6, BulkStep) == 6
    ensures NormalizeQuantity(7, BulkStep) == 12
    ensures NormalizeQuantity(0, BulkStep) == 0
    ensures NormalizeQuantity(-3, BulkStep) == 0
    ensures NormalizeQuantity(7, 1) == 7
  {
  }

  /** `normalize_quantity_for_product`: the posted text read as PHP's
      `(int)` cast does, then normalised with the product's step. */
  function QuantityForProduct(p: Product, raw: string): (q: nat)
    ensures q > 0 <==> PhpIntCast(raw) > 0
    ensures q >= PhpIntCast(raw)
    ensures q % QuantityStep(p.displayPrice) == 0
  {
    NormalizeQuantity(PhpIntCast(raw), QuantityStep(p.displayPrice))
  }
}
