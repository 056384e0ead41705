/**
 The Wilson lower bound that ranks tracks by their votes, over the reals.  The square root is a
 parameter that is only assumed to be one where the formula takes it.
 */
module Wilson {
  import opened Options

  function Ratio(up: int, total: int): real
    requires total > 0
  {
    up as real / total as real
  }

  /** What the formula takes the square root of. */
  function Radicand(up: int, total: int, z: real): real
    requires total > 0
  {
    var phat := Ratio(up, total);
    (phat * (1.0 - phat) + z * z / (4.0 * total as real)) / total as real
  }

  /** The bound from the ratio, the number of votes, the quantile and the square root. */
  function Formula(phat: real, n: real, z: real, root: real): real
    requires n > 0.0
  {
    SquareNonNegative(z, n);
    var z2 := z * z;
    var denom := 1.0 + z2 / n;
    var centre := phat + z2 / (2.0 * n);
    var margin := z * root;
    (centre - margin) / denom
  }

  lemma {:induction false} SquareNonNegative(z: real, n: real)
    requires n > 0.0
    ensures z * z / n >= 0.0
  {
    var q := z * z / n;
    assert q * n == z * z;
    if q < 0.0 {
      Positive(-q, n);
    }
  }

  /** `_wilson_lower_bound`: nothing without votes. */
  function LowerBound(up: int, total: int, z: real, sqrt: real -> real): Option<real> {
    if total <= 0 then None
    else Some(Formula(Ratio(up, total), total as real, z, sqrt(Radicand(up, total, z))))
  }

  ghost predicate IsRoot(r: real, x: real) {
    r >= 0.0 && r * r == x
  }

  // ---------------------------------------------------------------- the formula in two numbers

  /** The bound in terms of the ratio `p` and `c = z^2 / total`; `m` is the margin. */
  ghost predicate IsBound(w: real, p: real, c: real, m: real) {
    && 0.0 <= p <= 1.0 && 0.0 <= c
    && IsRoot(m, c * p * (1.0 - p) + c * c / 4.0)
    && w * (1.0 + c) == p + c / 2.0 - m
  }

  /** `(p - x)^2 - c x (1 - x)`: zero at the two ends of the interval. */
  function Gap(p: real, c: real, x: real): real {
    (p - x) * (p - x) - c * x * (1.0 - x)
  }

  lemma {:induction false} Positive(a: real, b: real)
    requires a > 0.0 && b > 0.0
    ensures a * b > 0.0
  {
  }

  lemma {:induction false} SquareOrder(a: real, b: real)
    requires 0.0 <= b && a * a <= b * b
    ensures a <= b
  {
    assert (a - b) * (a + b) == a * a - b * b;
    if a > b {
      Positive(a - b, a + b);
    }
  }

  lemma {:induction false} SquareUnique(a: real, b: real)
    requires 0.0 <= a && 0.0 <= b && a * a == b * b
    ensures a == b
  {
    SquareOrder(a, b);
    SquareOrder(b, a);
  }

  lemma {:induction false} NonNegative(a: real, b: real)
    requires a >= 0.0 && b >= 0.0
    ensures a * b >= 0.0
  {
  }

  lemma {:induction false} MarginIdentities(p: real, c: real)
    ensures (p + c / 2.0) * (p + c / 2.0) - (c * p * (1.0 - p) + c * c / 4.0) == p * p + c * (p * p)
    ensures (c * p * (1.0 - p) + c * c / 4.0) - (c / 2.0 - c * p) * (c / 2.0 - c * p) == (c + c * c) * (p * (1.0 - p))
    ensures (c * p - c / 2.0) * (c * p - c / 2.0) == (c / 2.0 - c * p) * (c / 2.0 - c * p)
  {
  }

  /** The margin lies between `|c/2 - c p|` and `p + c/2`. */
  lemma {:induction false} MarginBounds(p: real, c: real, m: real)
    requires 0.0 <= p <= 1.0 && 0.0 <= c && IsRoot(m, c * p * (1.0 - p) + c * c / 4.0)
    ensures m <= p + c / 2.0
    ensures c / 2.0 - c * p <= m && c * p - c / 2.0 <= m
  {
    MarginIdentities(p, c);
    NonNegative(p, p);
    NonNegative(c, p * p);
    SquareOrder(m, p + c / 2.0);
    NonNegative(p, 1.0 - p);
    NonNegative(c, c);
    NonNegative(c + c * c, p * (1.0 - p));
    SquareOrder(c / 2.0 - c * p, m);
    SquareOrder(c * p - c / 2.0, m);
  }

  lemma {:induction false} ScaleOrder(x: real, y: real, k: real)
    requires k > 0.0 && x * k <= y * k
    ensures x <= y
  {
  }

  /** The bound is between zero and the ratio. */
  lemma {:induction false} BoundInRange(w: real, p: real, c: real, m: real)
    requires IsBound(w, p, c, m)
    ensures 0.0 <= w <= p
  {
    MarginBounds(p, c, m);
    ScaleOrder(0.0, w, 1.0 + c);
    assert p * (1.0 + c) == p + c * p;
    ScaleOrder(w, p, 1.0 + c);
  }

  /** The other end of the interval. */
  function Upper(p: real, c: real, m: real): real
    requires c >= 0.0
  {
    (p + c / 2.0 + m) / (1.0 + c)
  }

  lemma {:induction false} UpperScaled(p: real, c: real, m: real)
    requires c >= 0.0
    ensures Upper(p, c, m) * (1.0 + c) == p + c / 2.0 + m
  {
  }

  lemma {:induction false} UpperInRange(p: real, c: real, m: real)
    requires 0.0 <= p <= 1.0 && 0.0 <= c && IsRoot(m, c * p * (1.0 - p) + c * c / 4.0)
    ensures p <= Upper(p, c, m)
  {
    MarginBounds(p, c, m);
    UpperScaled(p, c, m);
    assert p * (1.0 + c) == p + c * p;
    ScaleOrder(p, Upper(p, c, m), 1.0 + c);
  }

  /** The gap is `(1 + c)` times the product of the distances to the two ends. */
  lemma {:induction false} GapFactors(w: real, p: real, c: real, m: real, x: real)
    requires IsBound(w, p, c, m)
    ensures Gap(p, c, x) == (1.0 + c) * ((x - w) * (x - Upper(p, c, m)))
  {
    var u, k := Upper(p, c, m), 1.0 + c;
    UpperScaled(p, c, m);
    var s, t := w * k, u * k;
    assert s == p + c / 2.0 - m && t == p + c / 2.0 + m;
    assert s + t == 2.0 * p + c;
    Product(p + c / 2.0, m);
    assert s * t == (p + c / 2.0) * (p + c / 2.0) - m * m;
    assert (p + c / 2.0) * (p + c / 2.0) == p * p + c * p + c * c / 4.0;
    assert m * m == c * p - c * p * p + c * c / 4.0;
    assert s * t == p * p * k;
    Expand(w, u, k, x);
    assert k * (k * ((x - w) * (x - u))) == (k * x) * (k * x) - (s + t) * (k * x) + s * t;
    GapExpanded(p, c, x);
    assert k * Gap(p, c, x) == k * (k * x * x - (2.0 * p + c) * x + p * p);
    Regroup(k, x, 2.0 * p + c, p);
    Cancel(k, Gap(p, c, x), k * ((x - w) * (x - u)));
  }

  lemma {:induction false} Product(a: real, m: real)
    ensures (a - m) * (a + m) == a * a - m * m
  {
  }

  lemma {:induction false} Expand(w: real, u: real, k: real, x: real)
    ensures k * (k * ((x - w) * (x - u))) == (k * x) * (k * x) - (w * k + u * k) * (k * x) + (w * k) * (u * k)
  {
    assert (x - w) * (x - u) == x * x - (w + u) * x + w * u;
    assert k * ((x - w) * (x - u)) == k * (x * x) - k * ((w + u) * x) + k * (w * u);
  }

  lemma {:induction false} GapExpanded(p: real, c: real, x: real)
    ensures Gap(p, c, x) == (1.0 + c) * x * x - (2.0 * p + c) * x + p * p
  {
  }

  lemma {:induction false} Regroup(k: real, x: real, q: real, p: real)
    ensures k * (k * x * x - q * x + p * p) == (k * x) * (k * x) - q * (k * x) + p * p * k
  {
  }

  lemma {:induction false} Cancel(k: real, a: real, b: real)
    requires k > 0.0 && k * a == k * b
    ensures a == b
  {
  }

  lemma {:induction false} OutsideSign(w: real, u: real, k: real, x: real)
    requires w <= u && k > 0.0
    ensures k * ((w - w) * (w - u)) == 0.0
    ensures x < w ==> k * ((x - w) * (x - u)) > 0.0
  {
    if x < w {
      var a, b := w - x, u - x;
      assert (x - w) * (x - u) == a * b;
      Positive(a, b);
      Positive(k, a * b);
    }
  }

  /** The bound is a zero of the gap, and no zero lies below it. */
  lemma {:induction false} BoundIsSmallerRoot(w: real, p: real, c: real, m: real, x: real)
    requires IsBound(w, p, c, m)
    ensures Gap(p, c, w) == 0.0
    ensures Gap(p, c, x) == 0.0 ==> w <= x
  {
    var u := Upper(p, c, m);
    GapFactors(w, p, c, m, w);
    GapFactors(w, p, c, m, x);
    BoundInRange(w, p, c, m);
    UpperInRange(p, c, m);
    OutsideSign(w, u, 1.0 + c, x);
  }

  /** What `IsBound` promises of the value, without the margin. */
  ghost predicate IsSmallerRoot(w: real, p: real, c: real, x: real) {
    && 0.0 <= w <= p
    && (p - w) * (p - w) == c * w * (1.0 - w)
    && ((p - x) * (p - x) == c * x * (1.0 - x) ==> w <= x)
  }

  lemma {:induction false} BoundMeans(w: real, p: real, c: real, m: real, x: real)
    requires IsBound(w, p, c, m)
    ensures IsSmallerRoot(w, p, c, x)
  {
    BoundInRange(w, p, c, m);
    BoundIsSmallerRoot(w, p, c, m, x);
  }

  /** A point at or below the ratio with a non-negative gap is at or below the bound, or is the upper end. */
  lemma {:induction false} BelowBound(w: real, p: real, c: real, m: real, x: real)
    requires IsBound(w, p, c, m) && x <= p && Gap(p, c, x) >= 0.0
    ensures x <= w || (x == p && x == Upper(p, c, m))
  {
    var u := Upper(p, c, m);
    GapFactors(w, p, c, m, x);
    UpperInRange(p, c, m);
    assert (1.0 + c) * ((x - w) * (x - u)) == -((1.0 + c) * ((x - w) * (u - x)));
    if w < x && x < u {
      Positive(x - w, u - x);
      Positive(1.0 + c, (x - w) * (u - x));
    }
  }

  lemma {:induction false} GapGrows(p: real, p': real, c: real, w: real)
    requires w <= p <= p'
    ensures Gap(p, c, w) <= Gap(p', c, w)
  {
    NonNegative(p' - p, (p' - w) + (p - w));
    assert (p' - w) * (p' - w) - (p - w) * (p - w) == (p' - p) * ((p' - w) + (p - w));
  }

  lemma {:induction false} GapShrinks(p: real, c: real, c': real, w: real)
    requires 0.0 <= w <= 1.0 && c' <= c
    ensures Gap(p, c, w) <= Gap(p, c', w)
  {
    NonNegative(w, 1.0 - w);
    NonNegative(c - c', w * (1.0 - w));
    assert Gap(p, c', w) == Gap(p, c, w) + (c - c') * (w * (1.0 - w));
  }

  /** A larger ratio never lowers the bound. */
  lemma {:induction false} GrowsWithRatio(w: real, p: real, m: real, w': real, p': real, m': real, c: real)
    requires IsBound(w, p, c, m) && IsBound(w', p', c, m') && p <= p'
    ensures w <= w'
  {
    BoundInRange(w, p, c, m);
    BoundIsSmallerRoot(w, p, c, m, w);
    GapGrows(p, p', c, w);
    UpperInRange(p', c, m');
    BelowBound(w', p', c, m', w);
    if w > w' {
      assert p == p';
      SquareUnique(m, m');
      Cancel(1.0 + c, w, w');
    }
  }

  /** A smaller `c`, that is more votes at the same ratio, never lowers the bound. */
  lemma {:induction false} GrowsWithVotes(w: real, c: real, m: real, w': real, c': real, m': real, p: real)
    requires IsBound(w, p, c, m) && IsBound(w', p, c', m') && c' <= c
    ensures w <= w'
  {
    BoundInRange(w, p, c, m);
    BoundInRange(w', p, c', m');
    BoundIsSmallerRoot(w, p, c, m, w);
    GapShrinks(p, c, c', w);
    BelowBound(w', p, c', m', w);
    if w > w' {
      AtTheRatio(p, c, m);
      if c == 0.0 {
        WithoutSpread(w', p, m');
      }
    }
  }

  lemma {:induction false} WithoutSpread(w: real, p: real, m: real)
    requires IsBound(w, p, 0.0, m)
    ensures w == p
  {
    SquareUnique(m, 0.0);
  }

  /** The bound reaches the ratio only when `c = 0` or `p = 0`. */
  lemma {:induction false} AtTheRatio(p: real, c: real, m: real)
    requires IsBound(p, p, c, m)
    ensures c == 0.0 || p == 0.0
  {
    BoundIsSmallerRoot(p, p, c, m, p);
    assert c * p * (1.0 - p) == 0.0;
    if c != 0.0 && p != 0.0 {
      Positive(c, p);
      if p < 1.0 {
        Positive(c * p, 1.0 - p);
      }
    }
  }

  // ---------------------------------------------------------------- the same about votes

  /** `LowerBound` is the bound for `p = up / total` and `c = z^2 / total`. */
  lemma {:induction false} LowerBoundIsBound(up: int, total: int, z: real, sqrt: real -> real)
    requires 0 <= up <= total && 0 < total && 0.0 <= z
    requires IsRoot(sqrt(Radicand(up, total, z)), Radicand(up, total, z))
    ensures LowerBound(up, total, z, sqrt).Some?
    ensures IsBound(LowerBound(up, total, z, sqrt).value, Ratio(up, total), z * z / total as real,
                    z * sqrt(Radicand(up, total, z)))
  {
    RatioRange(up, total);
    FormulaIsBound(Ratio(up, total), total as real, z, sqrt(Radicand(up, total, z)));
  }

  lemma {:induction false} FormulaIsBound(p: real, n: real, z: real, q: real)
    requires 0.0 <= p <= 1.0 && 0.0 < n && 0.0 <= z
    requires IsRoot(q, (p * (1.0 - p) + z * z / (4.0 * n)) / n)
    ensures IsBound(Formula(p, n, z, q), p, z * z / n, z * q)
  {
    var c := z * z / n;
    NonNegative(z, z);
    FewerShares(z * z, n, n);
    NonNegative(z, q);
    HalfOf(z * z, n);
    RadicandScaled(p, z, n);
    SquareOfProduct(z, q);
    Rearrange(p, c);
    DivideBack(p + c / 2.0 - z * q, 1.0 + c);
  }

  lemma {:induction false} SquareOfProduct(z: real, q: real)
    ensures (z * q) * (z * q) == (z * z) * (q * q)
  {
  }

  lemma {:induction false} DivideBack(a: real, k: real)
    requires k > 0.0
    ensures (a / k) * k == a
  {
  }

  lemma RatioRange(up: int, total: int)
    requires 0 <= up <= total && 0 < total
    ensures 0.0 <= Ratio(up, total) <= 1.0
  {
    var u, n := up as real, total as real;
    assert (u / n) * n == u;
    ScaleOrder(0.0, u / n, n);
    ScaleOrder(u / n, 1.0, n);
  }

  lemma RatioOrder(up: int, up': int, total: int)
    requires up <= up' && 0 < total
    ensures Ratio(up, total) <= Ratio(up', total)
  {
    var n, x, y := total as real, Ratio(up, total), Ratio(up', total);
    assert x * n == up as real;
    assert y * n == up' as real;
    ScaleOrder(x, y, n);
  }

  lemma {:induction false} HalfOf(a: real, n: real)
    requires n > 0.0
    ensures a / (2.0 * n) == a / n / 2.0 && a / (4.0 * n) == a / n / 4.0
  {
    DivideScaled(a, n, 2.0);
    DivideScaled(a, n, 4.0);
  }

  lemma {:induction false} DivideScaled(a: real, n: real, k: real)
    requires n > 0.0 && k > 0.0
    ensures a / (k * n) == a / n / k
  {
    var q := a / n / k;
    assert q * k == a / n;
    assert q * (k * n) == a by {
      assert q * (k * n) == (q * k) * n;
    }
    Cancel(k * n, a / (k * n), q);
  }

  lemma {:induction false} RadicandScaled(p: real, z: real, n: real)
    requires n > 0.0
    ensures (z * z) * ((p * (1.0 - p) + z * z / (4.0 * n)) / n) == (z * z / n) * (p * (1.0 - p) + z * z / n / 4.0)
  {
    HalfOf(z * z, n);
    var a, b := z * z, p * (1.0 - p) + z * z / (4.0 * n);
    MoveDivision(a, b, n);
  }

  lemma {:induction false} MoveDivision(a: real, b: real, n: real)
    requires n > 0.0
    ensures a * (b / n) == (a / n) * b
  {
    var x, y := a / n, b / n;
    assert x * n == a && y * n == b;
    assert a * y == (x * n) * y && x * b == x * (y * n);
  }

  lemma {:induction false} Rearrange(p: real, c: real)
    ensures c * (p * (1.0 - p) + c / 4.0) == c * p * (1.0 - p) + c * c / 4.0
  {
  }

  /**
   For 0 <= up <= total and total > 0 the value lies between 0 and the ratio, and is the smaller
   solution of (p - w)^2 = (z^2 / total) w (1 - w).
   */
  lemma {:induction false} WilsonValue(up: int, total: int, z: real, sqrt: real -> real, x: real)
    requires 0 <= up <= total && 0 < total && 0.0 <= z
    requires IsRoot(sqrt(Radicand(up, total, z)), Radicand(up, total, z))
    ensures IsSmallerRoot(LowerBound(up, total, z, sqrt).value, up as real / total as real, z * z / total as real, x)
  {
    LowerBoundIsBound(up, total, z, sqrt);
    BoundMeans(LowerBound(up, total, z, sqrt).value, Ratio(up, total), z * z / total as real,
               z * sqrt(Radicand(up, total, z)), x);
  }

  /** One more up-vote in place of a down-vote never lowers the value. */
  lemma {:induction false} MoreUpVotes(up: int, up': int, total: int, z: real, sqrt: real -> real)
    requires 0 <= up <= up' <= total && 0 < total && 0.0 <= z
    requires IsRoot(sqrt(Radicand(up, total, z)), Radicand(up, total, z))
    requires IsRoot(sqrt(Radicand(up', total, z)), Radicand(up', total, z))
    ensures LowerBound(up, total, z, sqrt).value <= LowerBound(up', total, z, sqrt).value
  {
    LowerBoundIsBound(up, total, z, sqrt);
    LowerBoundIsBound(up', total, z, sqrt);
    RatioOrder(up, up', total);
    var n := total as real;
    GrowsWithRatio(LowerBound(up, total, z, sqrt).value, Ratio(up, total), z * sqrt(Radicand(up, total, z)),
                   LowerBound(up', total, z, sqrt).value, Ratio(up', total), z * sqrt(Radicand(up', total, z)),
                   z * z / n);
  }

  /** More votes at the same ratio never lower the value: few votes are penalised. */
  lemma {:induction false} MoreVotes(up: int, total: int, up': int, total': int, z: real, sqrt: real -> real)
    requires 0 <= up <= total && 0 < total <= total' && 0 <= up' <= total' && 0.0 <= z
    requires up * total' == up' * total
    requires IsRoot(sqrt(Radicand(up, total, z)), Radicand(up, total, z))
    requires IsRoot(sqrt(Radicand(up', total', z)), Radicand(up', total', z))
    ensures LowerBound(up, total, z, sqrt).value <= LowerBound(up', total', z, sqrt).value
  {
    LowerBoundIsBound(up, total, z, sqrt);
    LowerBoundIsBound(up', total', z, sqrt);
    SameRatio(up, total, up', total');
    FewerShares(z * z, total as real, total' as real);
    GrowsWithVotes(LowerBound(up, total, z, sqrt).value, z * z / total as real, z * sqrt(Radicand(up, total, z)),
                   LowerBound(up', total', z, sqrt).value, z * z / total' as real,
                   z * sqrt(Radicand(up', total', z)), Ratio(up, total));
  }

  lemma SameRatio(up: int, total: int, up': int, total': int)
    requires total > 0 && total' > 0 && up * total' == up' * total
    ensures Ratio(up, total) == Ratio(up', total')
  {
    var u, n, u', n' := up as real, total as real, up' as real, total' as real;
    assert u * n' == u' * n by {
      assert (up * total') as real == u * n' && (up' * total) as real == u' * n;
    }
    var x, y := u / n, u' / n';
    assert x * n == u && y * n' == u';
    assert (x * n) * n' == (y * n') * n;
    assert x * (n * n') == y * (n * n');
    Cancel(n * n', x, y);
  }

  lemma {:induction false} FewerShares(a: real, n: real, n': real)
    requires 0.0 <= a && 0.0 < n <= n'
    ensures 0.0 <= a / n' <= a / n
  {
    var x, y := a / n, a / n';
    assert x * n == a && y * n' == a;
    ScaleOrder(0.0, y, n');
    assert y * n <= y * n' by {
      NonNegative(y, n' - n);
    }
    ScaleOrder(y, x, n);
  }
}
