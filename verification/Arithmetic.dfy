/** The 64-bit arithmetic of the exchange, and the inequalities behind its rounding. */
module Arithmetic {
  import opened Ledger

  // ---------------------------------------------------------------------------------------------
  // Rounding down, as inequalities
  // ---------------------------------------------------------------------------------------------

  /** q is the largest number of times that d fits into n. */
  predicate IsQuotient(q: nat, n: nat, d: nat) {
    q * d <= n < (q + 1) * d
  }

  /** r is the largest number whose square fits into n. */
  predicate IsRoot(r: nat, n: nat) {
    r * r <= n < (r + 1) * (r + 1)
  }

  /** What a percentage leaves of 100; it cannot take more than everything. */
  function Rest(percent: nat): nat {
    if percent > 100 then 0 else 100 - percent
  }

  lemma QuotientIsUnique(q: nat, r: nat, n: nat, d: nat)
    requires IsQuotient(q, n, d) && IsQuotient(r, n, d)
    ensures q == r
  {
    if q < r {
      ScaleUp(q + 1, r, d);
    } else if r < q {
      ScaleUp(r + 1, q, d);
    }
  }

  lemma RootIsUnique(r: nat, s: nat, n: nat)
    requires IsRoot(r, n) && IsRoot(s, n)
    ensures r == s
  {
    if r < s {
      SquaresGrow(r + 1, s);
    } else if s < r {
      SquaresGrow(s + 1, r);
    }
  }

  // ---------------------------------------------------------------------------------------------
  // 64-bit products and quotients
  // ---------------------------------------------------------------------------------------------

  /** a * b / c, rounded down; 0 if c is 0; only the low 64 bits of the quotient are kept. */
  function SafeMulDiv(a: nat, b: nat, c: nat): nat {
    if c == 0 then 0 else a * b / c % (MAX_UINT64 + 1)
  }

  /** The result never exceeds the exact quotient, cut off or not. */
  lemma MulDivBound(a: nat, b: nat, c: nat)
    ensures SafeMulDiv(a, b, c) * c <= a * b
  {
    if c != 0 {
      CutOffBound(a * b, c, MAX_UINT64 + 1);
    }
  }

  lemma CutOffBound(n: nat, c: nat, m: nat)
    requires 0 < c && 0 < m
    ensures n / c % m * c <= n
  {
    var q := n / c;
    QuotientLow(n, c);
    RemainderBelow(q, m);
    ScaleUp(q % m, q, c);
  }

  lemma RemainderBelow(n: nat, m: nat)
    requires 0 < m
    ensures n % m <= n
  {
  }

  lemma QuotientBounds(n: nat, c: nat)
    requires 0 < c
    ensures n / c * c <= n < (n / c + 1) * c
  {
    assert n == c * (n / c) + n % c;
  }

  lemma QuotientLow(n: nat, c: nat)
    requires 0 < c
    ensures n / c * c <= n
  {
    QuotientBounds(n, c);
  }

  lemma ScaleUp(a: nat, b: nat, c: nat)
    requires a <= b
    ensures a * c <= b * c
  {
  }

  lemma Cancel(a: nat, b: nat, c: nat)
    requires a * c <= b * c && 0 < c
    ensures a <= b
  {
    if b < a {
      ScaleUp(b + 1, a, c);
    }
  }

  lemma QuotientFits(n: nat, c: nat, bound: nat)
    requires 0 < c && n <= bound * c
    ensures n / c <= bound
  {
    QuotientLow(n, c);
    CancelThrough(n / c, n, bound, c);
  }

  lemma CancelThrough(a: nat, n: nat, b: nat, c: nat)
    requires a * c <= n <= b * c && 0 < c
    ensures a <= b
  {
    Cancel(a, b, c);
  }

  lemma NothingCutOff(q: nat, m: nat)
    requires q < m
    ensures q % m == q
  {
  }

  /** When the quotient is known to be small, nothing is cut off. */
  lemma MulDivFits(a: nat, b: nat, c: nat, bound: nat)
    requires 0 < c && a * b <= bound * c && bound <= MAX_UINT64
    ensures SafeMulDiv(a, b, c) == a * b / c <= bound
  {
    var n: nat := a * b;
    QuotientFits(n, c, bound);
    NothingCutOff(n / c, MAX_UINT64 + 1);
  }

  /** A quotient that fits in 64 bits is exactly rounded down. */
  lemma MulDivIsQuotient(a: nat, b: nat, c: nat)
    requires 0 < c && a * b < (MAX_UINT64 + 1) * c
    ensures IsQuotient(SafeMulDiv(a, b, c), a * b, c)
  {
    var n: nat := a * b;
    QuotientBounds(n, c);
    if MAX_UINT64 + 1 <= n / c {
      ScaleUp(MAX_UINT64 + 1, n / c, c);
    }
    NothingCutOff(n / c, MAX_UINT64 + 1);
  }

  /** A percentage of a 64-bit amount is exactly rounded down. */
  lemma PercentIsQuotient(amount: nat, percent: nat)
    requires amount <= MAX_UINT64 && percent <= 100
    ensures IsQuotient(SafeMulDiv(amount, percent, 100), amount * percent, 100)
  {
    ScaleUp(percent, 100, amount);
    MulDivIsQuotient(amount, percent, 100);
  }

  /** The integer square root. */
  function ISqrt(n: nat): nat {
    if n == 0 then 0
    else
      var r := ISqrt(n - 1);
      if (r + 1) * (r + 1) <= n then r + 1 else r
  }

  lemma {:induction false} RootBounds(n: nat)
    ensures IsRoot(ISqrt(n), n)
  {
    if n != 0 {
      RootBounds(n - 1);
    }
  }

  lemma SquaresGrow(a: nat, b: nat)
    requires a <= b
    ensures a * a <= b * b
  {
    ScaleUp(a, b, a);
    ScaleUp(a, b, b);
  }

  /** a squared is below n exactly when a is below its root. */
  lemma BelowRoot(a: nat, n: nat)
    ensures a * a <= n <==> a <= ISqrt(n)
  {
    RootBounds(n);
    if a <= ISqrt(n) {
      SquaresGrow(a, ISqrt(n));
    } else {
      SquaresGrow(ISqrt(n) + 1, a);
    }
  }

  lemma RootGrows(m: nat, n: nat)
    requires m <= n
    ensures ISqrt(m) <= ISqrt(n)
  {
    BelowRoot(ISqrt(m), n);
  }

  /** The integer square root of a product. */
  function SqrtProduct(x: nat, y: nat): nat {
    ISqrt(x * y)
  }

  /** r is the largest number whose square fits into x * y. */
  predicate IsRootOf(r: nat, x: nat, y: nat) {
    r * r <= x * y < (r + 1) * (r + 1)
  }

  lemma SqrtProductIsRoot(x: nat, y: nat)
    ensures IsRootOf(SqrtProduct(x, y), x, y)
  {
    RootBounds(x * y);
  }

  lemma RootOfIsUnique(r: nat, s: nat, x: nat, y: nat)
    requires IsRootOf(r, x, y) && IsRootOf(s, x, y)
    ensures r == s
  {
    RootIsUnique(r, s, x * y);
  }

  /** A number is below the root of a product exactly if its square is below the product. */
  lemma BelowSqrtProduct(a: nat, x: nat, y: nat)
    ensures a * a <= x * y <==> a <= SqrtProduct(x, y)
  {
    BelowRoot(a, x * y);
  }

  /** The root grows with a factor, and is positive if both are. */
  lemma SqrtProductGrows(x: nat, more: nat, y: nat, bound: nat)
    requires 0 < x && 0 < y && x + more <= bound && y <= bound
    ensures 0 < SqrtProduct(x, y) <= SqrtProduct(x + more, y) <= bound
  {
    Positive(x, y);
    BelowRoot(1, x * y);
    ScaleUp(x, x + more, y);
    RootGrows(x * y, (x + more) * y);
    RootOfProductFits(x + more, y, bound);
  }

  lemma RootOfProductFits(x: nat, y: nat, bound: nat)
    requires x <= bound && y <= bound
    ensures ISqrt(x * y) <= bound
  {
    ScaleUp(x, bound, y);
    ScaleUp(y, bound, bound);
    RootGrows(x * y, bound * bound);
    RootOfSquare(bound);
  }

  lemma RootOfSquare(a: nat)
    ensures ISqrt(a * a) == a
  {
    RootBounds(a * a);
    RootIsUnique(ISqrt(a * a), a, a * a);
  }

  /** Output of a constant-product swap with a fee of one percent on the input. */
  function SafeComputeDY(x: nat, y: nat, dX: nat): nat
    requires 0 < x
  {
    var amountInWithFee: nat := dX * 990;
    var numerator: nat := amountInWithFee * y;
    var denominator: nat := x * 1000 + amountInWithFee;
    numerator / denominator
  }

  /** With one percent of the input kept as a fee, a swap pays the largest output that the constant product allows. */
  lemma SwapIsLargest(x: nat, y: nat, dX: nat)
    requires 0 < x
    ensures IsQuotient(SafeComputeDY(x, y, dX), 990 * dX * y, 1000 * x + 990 * dX)
  {
    QuotientBounds(dX * 990 * y, x * 1000 + dX * 990);
  }

  /** A swap never pays out the whole reserve. */
  lemma SwapLeavesSomething(x: nat, y: nat, dX: nat)
    requires 0 < x && 0 < y
    ensures SafeComputeDY(x, y, dX) < y
  {
    Positive(x * 1000, y);
    QuotientBelow(dX * 990 * y, x * 1000 * y, x * 1000 + dX * 990, y);
  }

  lemma QuotientBelow(n: nat, rest: nat, d: nat, y: nat)
    requires 0 < d && 0 < rest && n + rest == d * y
    ensures n / d < y
  {
    QuotientLow(n, d);
    if y <= n / d {
      ScaleUp(y, n / d, d);
    }
  }

  lemma Positive(a: nat, b: nat)
    requires 0 < a && 0 < b
    ensures 0 < a * b
  {
  }

  /** The fee only lowers what a swap pays. */
  lemma FeeLowers(x: nat, y: nat, dX: nat, dY: nat)
    requires dY * (x * 1000 + dX * 990) <= dX * 990 * y
    ensures dY * (x + dX) <= dX * y
  {
    ScaleUp(x * 990, x * 1000, dY);
    assert dY * (x * 1000 + dX * 990) == dY * (x * 1000) + dY * (dX * 990);
    assert dY * (x * 990) + dY * (dX * 990) == dY * (x + dX) * 990;
    assert dX * 990 * y == dX * y * 990;
    Cancel(dY * (x + dX), dX * y, 990);
  }

  lemma ProductGrows(x: nat, y: nat, dX: nat, dY: nat)
    requires dY <= y && dY * (x + dX) <= dX * y
    ensures x * y <= (x + dX) * (y - dY)
  {
    calc {
      (x + dX) * (y - dY);
    ==
      (x + dX) * y - (x + dX) * dY;
    ==
      x * y + dX * y - dY * (x + dX);
    }
  }

  /** A swap never shrinks the product of the reserves. */
  lemma SwapKeepsProduct(x: nat, y: nat, dX: nat)
    requires 0 < x && 0 < y
    ensures x * y <= (x + dX) * (y - SafeComputeDY(x, y, dX))
  {
    SwapLeavesSomething(x, y, dX);
    QuotientLow(dX * 990 * y, x * 1000 + dX * 990);
    FeeLowers(x, y, dX, SafeComputeDY(x, y, dX));
    ProductGrows(x, y, dX, SafeComputeDY(x, y, dX));
  }

  /** A bound through a middle amount: scaled by total, it follows from the bounds on either side. */
  lemma BoundThrough(share: nat, toRemove: nat, payout: nat, points: nat, total: nat, reserve: nat)
    requires 0 < toRemove
    requires share * toRemove <= payout * points
    requires payout * total <= reserve * toRemove
    ensures share * total <= reserve * points
  {
    ScaleUp(share * toRemove, payout * points, total);
    ScaleUp(payout * total, reserve * toRemove, points);
    Regroup(share, toRemove, total);
    Regroup(payout, points, total);
    Regroup(reserve, toRemove, points);
    Cancel(share * total, reserve * points, toRemove);
  }

  lemma Regroup(a: nat, b: nat, c: nat)
    ensures a * b * c == a * c * b
  {
  }

  /** One holder's floored share of the floored payout is at most the holder's part of the reserve. */
  lemma ShareBound(reserve: nat, total: nat, toRemove: nat, points: nat)
    requires 0 < total && 0 < toRemove
    ensures SafeMulDiv(SafeMulDiv(reserve, toRemove, total), points, toRemove) * total <= reserve * points
  {
    var payout := SafeMulDiv(reserve, toRemove, total);
    MulDivBound(reserve, toRemove, total);
    MulDivBound(payout, points, toRemove);
    BoundThrough(SafeMulDiv(payout, points, toRemove), toRemove, payout, points, total, reserve);
  }

  /** Scaling down both reserves by no more than the points keeps the points backed. */
  lemma BackedAfterScaling(x: nat, y: nat, total: nat, x': nat, y': nat, total': nat)
    requires 0 < total
    requires total * total <= x * y
    requires x * total' <= x' * total
    requires y * total' <= y' * total
    ensures total' * total' <= x' * y'
  {
    var t2 := total * total;
    calc {
      total' * total' * t2;
    <= { ScaleUp(t2, x * y, total' * total'); }
      x * y * (total' * total');
    ==
      (x * total') * (y * total');
    <= { ScaleUp(x * total', x' * total, y * total'); }
      (x' * total) * (y * total');
    <= { ScaleUp(y * total', y' * total, x' * total); }
      (x' * total) * (y' * total);
    ==
      x' * y' * t2;
    }
    Cancel(total' * total', x' * y', t2);
  }

  /** Minting in proportion to the growth of the root keeps the points backed. */
  lemma BackedAfterMint(points: nat, minted: nat, oldK: nat, newK: nat)
    requires 0 < oldK && points <= oldK <= newK
    requires minted * oldK <= points * (newK - oldK)
    ensures points + minted <= newK
  {
    calc {
      (points + minted) * oldK;
    ==
      points * oldK + minted * oldK;
    <=
      points * oldK + points * (newK - oldK);
    ==
      points * newK;
    <= { ScaleUp(points, oldK, newK); }
      oldK * newK;
    }
    Cancel(points + minted, newK, oldK);
  }
}
