/** linear_regression of src/misc.c, over exact reals instead of doubles. */
module Regression {
  import opened Common

  type Reals = seq<real>

  // ---------- Sums over the first n points ----------

  function Sum(x: Reals, n: nat): real
    requires n <= |x|
  {
    if n == 0 then 0.0 else Sum(x, n - 1) + x[n - 1]
  }

  /** Sum of products. */
  function Dot(x: Reals, y: Reals, n: nat): real
    requires n <= |x| && n <= |y|
  {
    if n == 0 then 0.0 else Dot(x, y, n - 1) + x[n - 1] * y[n - 1]
  }

  /** How far the line m * x + b misses a point, squared. */
  function SquaredError(x: real, y: real, m: real, b: real): real {
    Square(y - m * x - b)
  }

  function Square(e: real): real {
    Product(e, e)
  }

  function Product(a: real, b: real): real {
    a * b
  }

  function Residuals(x: Reals, y: Reals, n: nat, m: real, b: real): real
    requires n <= |x| && n <= |y|
  {
    if n == 0 then 0.0 else Residuals(x, y, n - 1, m, b) + SquaredError(x[n - 1], y[n - 1], m, b)
  }

  predicate OnLine(x: real, y: real, m: real, b: real) {
    y - m * x - b == 0.0
  }

  lemma ProductPositive(a: real, b: real)
    requires a > 0.0 && b > 0.0
    ensures Product(a, b) > 0.0
  {
  }

  lemma ProductNegated(a: real, b: real)
    ensures Product(-a, -b) == Product(a, b)
    ensures Product(a, 0.0) == 0.0
  {
  }

  lemma SquareSign(e: real)
    ensures Square(e) >= 0.0
    ensures Square(e) == 0.0 <==> e == 0.0
  {
    hide Product;
    ProductNegated(e, e);
    if e > 0.0 {
      ProductPositive(e, e);
    } else if e < 0.0 {
      ProductPositive(-e, -e);
    }
  }

  lemma ErrorSign(x: real, y: real, m: real, b: real)
    ensures SquaredError(x, y, m, b) >= 0.0
    ensures SquaredError(x, y, m, b) == 0.0 <==> OnLine(x, y, m, b)
  {
    hide Square;
    SquareSign(y - m * x - b);
  }

  lemma {:induction false} ResidualsSign(x: Reals, y: Reals, n: nat, m: real, b: real)
    requires n <= |x| && n <= |y|
    ensures Residuals(x, y, n, m, b) >= 0.0
    ensures Residuals(x, y, n, m, b) == 0.0 <==> forall i :: 0 <= i < n ==> OnLine(x[i], y[i], m, b)
  {
    hide SquaredError, OnLine;
    if n > 0 {
      ResidualsSign(x, y, n - 1, m, b);
      ErrorSign(x[n - 1], y[n - 1], m, b);
    }
  }

  /** The residuals in terms of the sums the loop accumulates. */
  function Expanded(n: real, sx: real, sy: real, sxx: real, sxy: real, syy: real, m: real, b: real): real {
    syy - 2.0 * m * sxy - 2.0 * b * sy + m * m * sxx + 2.0 * m * b * sx + n * b * b
  }

  lemma ExpandStep(n: real, sx: real, sy: real, sxx: real, sxy: real, syy: real, m: real, b: real, x: real, y: real)
    ensures Expanded(n, sx, sy, sxx, sxy, syy, m, b) + SquaredError(x, y, m, b)
            == Expanded(n + 1.0, sx + x, sy + y, sxx + x * x, sxy + x * y, syy + y * y, m, b)
  {
  }

  /** The same with the new sums under their own names. */
  lemma ExpandNamed(n: real, sx: real, sy: real, sxx: real, sxy: real, syy: real, m: real, b: real, x: real, y: real,
                    n': real, sx': real, sy': real, sxx': real, sxy': real, syy': real)
    requires n' == n + 1.0 && sx' == sx + x && sy' == sy + y
    requires sxx' == sxx + x * x && sxy' == sxy + x * y && syy' == syy + y * y
    ensures Expanded(n, sx, sy, sxx, sxy, syy, m, b) + SquaredError(x, y, m, b)
            == Expanded(n', sx', sy', sxx', sxy', syy', m, b)
  {
    ExpandStep(n, sx, sy, sxx, sxy, syy, m, b, x, y);
  }

  lemma ExpandNothing(m: real, b: real)
    ensures Expanded(0.0, 0.0, 0.0, 0.0, 0.0, 0.0, m, b) == 0.0
  {
  }

  lemma {:induction false} ResidualsExpand(x: Reals, y: Reals, n: nat, m: real, b: real)
    requires n <= |x| && n <= |y|
    ensures Residuals(x, y, n, m, b)
            == Expanded(n as real, Sum(x, n), Sum(y, n), Dot(x, x, n), Dot(x, y, n), Dot(y, y, n), m, b)
  {
    hide Expanded, SquaredError;
    if n > 0 {
      var k := n - 1;
      ResidualsExpand(x, y, k, m, b);
      ExpandNamed(k as real, Sum(x, k), Sum(y, k), Dot(x, x, k), Dot(x, y, k), Dot(y, y, k), m, b, x[k], y[k],
                  n as real, Sum(x, n), Sum(y, n), Dot(x, x, n), Dot(x, y, n), Dot(y, y, n));
    } else {
      ExpandNothing(m, b);
    }
  }

  // ---------- The denominator ----------

  function Det(n: real, sx: real, sxx: real): real {
    n * sxx - sx * sx
  }

  function Denominator(x: Reals, n: nat): real
    requires n <= |x|
  {
    Det(n as real, Sum(x, n), Dot(x, x, n))
  }

  predicate AllEqual(x: Reals, n: nat)
    requires n <= |x|
  {
    forall i, j :: 0 <= i < j < n ==> x[i] == x[j]
  }

  lemma SpreadIdentity(n: real, c: real, s: real, d: real)
    requires c == 1.0 - n
    ensures Expanded(n, s, s, d, d, d, c, s) == n * Det(n, s, d)
  {
  }

  /** n times the denominator is the sum of the squares of n * x[i] - sum. */
  lemma DenominatorIsSpread(x: Reals, n: nat, c: real)
    requires n <= |x| && c == 1.0 - n as real
    ensures n as real * Denominator(x, n) == Residuals(x, x, n, c, Sum(x, n))
  {
    hide Expanded, Residuals, Det;
    ResidualsExpand(x, x, n, c, Sum(x, n));
    SpreadIdentity(n as real, c, Sum(x, n), Dot(x, x, n));
  }

  lemma {:induction false} SumOfEqual(x: Reals, n: nat, c: real)
    requires n <= |x| && forall i :: 0 <= i < n ==> x[i] == c
    ensures Sum(x, n) == n as real * c
  {
    if n > 0 {
      SumOfEqual(x, n - 1, c);
    }
  }

  lemma PointSpread(n: real, c: real, x: real, s: real)
    requires c == 1.0 - n
    ensures OnLine(x, x, c, s) <==> n * x == s
  {
  }

  lemma Cancel(d: real, a: real, b: real)
    requires d != 0.0 && d * a == d * b
    ensures a == b
  {
    assert d * (a - b) == 0.0;
  }

  lemma ProductSign(n: real, d: real)
    requires n > 0.0
    ensures n * d > 0.0 <==> d > 0.0
    ensures n * d < 0.0 <==> d < 0.0
  {
    if d > 0.0 {
      assert Product(n, d) > 0.0;
    } else if d < 0.0 {
      assert Product(n, -d) > 0.0;
      assert n * (-d) == -(n * d);
    }
  }

  lemma SameMultiple(n: real, p: real, q: real, s: real)
    requires n > 0.0 && n * p == s && n * q == s
    ensures p == q
  {
    Cancel(n, p, q);
  }

  /** All points on the line of slope 1 - n through the sum: all x are equal. */
  lemma SpreadZero(x: Reals, n: nat, c: real)
    requires 0 < n <= |x| && c == 1.0 - n as real
    ensures (forall i :: 0 <= i < n ==> OnLine(x[i], x[i], c, Sum(x, n))) <==> AllEqual(x, n)
  {
    hide Sum, OnLine;
    var s := Sum(x, n);
    forall i | 0 <= i < n
      ensures OnLine(x[i], x[i], c, s) <==> n as real * x[i] == s
    {
      PointSpread(n as real, c, x[i], s);
    }
    if forall i :: 0 <= i < n ==> OnLine(x[i], x[i], c, s) {
      forall i, j | 0 <= i < j < n
        ensures x[i] == x[j]
      {
        assert OnLine(x[i], x[i], c, s) && OnLine(x[j], x[j], c, s);
        SameMultiple(n as real, x[i], x[j], s);
      }
    }
    if AllEqual(x, n) {
      SumOfEqual(x, n, x[0]);
    }
  }

  /** The regression is refused exactly when there is no point or all x are the
      same; otherwise the denominator is positive. */
  lemma DenominatorZero(x: Reals, n: nat)
    requires n <= |x|
    ensures Denominator(x, n) == 0.0 <==> n == 0 || AllEqual(x, n)
    ensures Denominator(x, n) >= 0.0
  {
    if n > 0 {
      var c := 1.0 - n as real;
      DenominatorIsSpread(x, n, c);
      ResidualsSign(x, x, n, c, Sum(x, n));
      SpreadZero(x, n, c);
      hide Denominator, Residuals, Sum, OnLine, AllEqual;
      ProductSign(n as real, Denominator(x, n));
    }
  }

  // ---------- The line ----------

  /** The derivative of the residuals vanishes. */
  predicate Solves(n: real, sx: real, sy: real, sxx: real, sxy: real, m: real, b: real) {
    m * sxx + b * sx == sxy && m * sx + n * b == sy
  }

  predicate NormalEquations(x: Reals, y: Reals, n: nat, m: real, b: real)
    requires n <= |x| && n <= |y|
  {
    Solves(n as real, Sum(x, n), Sum(y, n), Dot(x, x, n), Dot(x, y, n), m, b)
  }

  lemma SolveSystem(n: real, sx: real, sy: real, sxx: real, sxy: real, m: real, b: real)
    requires Det(n, sx, sxx) != 0.0
    requires m == (n * sxy - sx * sy) / Det(n, sx, sxx) && b == (sy * sxx - sx * sxy) / Det(n, sx, sxx)
    ensures Solves(n, sx, sy, sxx, sxy, m, b)
  {
    var d := Det(n, sx, sxx);
    assert d * m == n * sxy - sx * sy && d * b == sy * sxx - sx * sxy;
    assert d * (m * sxx + b * sx) == (d * m) * sxx + (d * b) * sx;
    assert (n * sxy - sx * sy) * sxx + (sy * sxx - sx * sxy) * sx == (n * sxx - sx * sx) * sxy;
    Cancel(d, m * sxx + b * sx, sxy);
    assert d * (m * sx + n * b) == (d * m) * sx + n * (d * b);
    assert (n * sxy - sx * sy) * sx + n * (sy * sxx - sx * sxy) == (n * sxx - sx * sx) * sy;
    Cancel(d, m * sx + n * b, sy);
  }

  lemma ExcessIdentity(n: real, sx: real, sxx: real, syy: real, m: real, b: real, dm: real, db: real)
    ensures Expanded(n, sx, m * sx + n * b, sxx, m * sxx + b * sx, syy, m + dm, b + db)
            == Expanded(n, sx, m * sx + n * b, sxx, m * sxx + b * sx, syy, m, b)
               + Expanded(n, sx, sx, sxx, sxx, sxx, 1.0 - dm, -db)
  {
  }

  lemma ExcessOfSums(n: real, sx: real, sy: real, sxx: real, sxy: real, syy: real,
                     m: real, b: real, m': real, b': real, c: real, e: real)
    requires Solves(n, sx, sy, sxx, sxy, m, b) && c == 1.0 - (m' - m) && e == b - b'
    ensures Expanded(n, sx, sy, sxx, sxy, syy, m', b')
            == Expanded(n, sx, sy, sxx, sxy, syy, m, b) + Expanded(n, sx, sx, sxx, sxx, sxx, c, e)
  {
    hide Expanded;
    ExcessIdentity(n, sx, sxx, syy, m, b, m' - m, b' - b);
    assert m + (m' - m) == m' && b + (b' - b) == b' && -(b' - b) == e;
  }

  /** Any other line is worse by the sum of the squared differences. */
  lemma Excess(x: Reals, y: Reals, n: nat, m: real, b: real, m': real, b': real, c: real, e: real)
    requires n <= |x| && n <= |y| && NormalEquations(x, y, n, m, b)
    requires c == 1.0 - (m' - m) && e == b - b'
    ensures Residuals(x, y, n, m', b') == Residuals(x, y, n, m, b) + Residuals(x, x, n, c, e)
  {
    hide Expanded, Residuals, Sum, Dot, Solves;
    ResidualsExpand(x, y, n, m, b);
    ResidualsExpand(x, y, n, m', b');
    ResidualsExpand(x, x, n, c, e);
    ExcessOfSums(n as real, Sum(x, n), Sum(y, n), Dot(x, x, n), Dot(x, y, n), Dot(y, y, n), m, b, m', b', c, e);
  }

  lemma TwoPoints(p: real, q: real, dm: real, db: real, c: real, e: real)
    requires p != q && c == 1.0 - dm && e == -db && OnLine(p, p, c, e) && OnLine(q, q, c, e)
    ensures dm == 0.0 && db == 0.0
  {
    assert dm * p + db == 0.0 && dm * q + db == 0.0;
    assert (p - q) * dm == (p - q) * 0.0;
    Cancel(p - q, dm, 0.0);
  }

  /** The line of the normal equations is the one and only least-squares line. */
  lemma LeastSquares(x: Reals, y: Reals, n: nat, m: real, b: real, m': real, b': real)
    requires n <= |x| && n <= |y| && NormalEquations(x, y, n, m, b) && Denominator(x, n) != 0.0
    ensures Residuals(x, y, n, m, b) <= Residuals(x, y, n, m', b')
    ensures Residuals(x, y, n, m, b) == Residuals(x, y, n, m', b') <==> m == m' && b == b'
  {
    var c, e := 1.0 - (m' - m), b - b';
    Excess(x, y, n, m, b, m', b', c, e);
    ResidualsSign(x, x, n, c, e);
    DenominatorZero(x, n);
    hide Residuals, Denominator, NormalEquations, OnLine;
    if forall i :: 0 <= i < n ==> OnLine(x[i], x[i], c, e) {
      var i, j :| 0 <= i < j < n && x[i] != x[j];
      TwoPoints(x[i], x[j], m' - m, b' - b, c, e);
    }
  }

  // ---------- The coefficient of determination ----------

  /** Variance (times n) and covariance (times n) of the accumulated sums. */
  function Spread(n: real, s: real, d: real): real
    requires n != 0.0
  {
    d - (s * s) / n
  }

  function Joint(n: real, sx: real, sy: real, sxy: real): real
    requires n != 0.0
  {
    sxy - (sx * sy) / n
  }

  lemma SpreadTimesN(n: real, sx: real, sy: real, sxx: real, sxy: real)
    requires n != 0.0
    ensures n * Spread(n, sx, sxx) == Det(n, sx, sxx)
    ensures n * Joint(n, sx, sy, sxy) == n * sxy - sx * sy
  {
    assert n * ((sx * sx) / n) == sx * sx;
    assert n * ((sx * sy) / n) == sx * sy;
  }

  lemma SlopeAlgebra(n: real, sx: real, sxx: real, m: real, b: real, u: real, w: real)
    requires n != 0.0 && n * u == n * sxx - sx * sx
    requires n * w == n * (m * sxx + b * sx) - sx * (m * sx + n * b)
    ensures m * u == w
  {
    assert n * (m * u) == m * (n * u);
    assert m * (n * sxx - sx * sx) == n * (m * sxx + b * sx) - sx * (m * sx + n * b);
    Cancel(n, m * u, w);
  }

  lemma ResidualAlgebra(n: real, sx: real, sy: real, sxy: real, syy: real, m: real, b: real, v: real, w: real)
    requires n != 0.0 && n * v == n * syy - sy * sy && n * w == n * sxy - sx * sy
    requires sy == m * sx + n * b
    ensures syy - m * sxy - b * sy == v - m * w
  {
    assert n * (v - m * w) == n * v - m * (n * w);
    assert n * syy - sy * sy - m * (n * sxy - sx * sy) == n * syy - m * (n * sxy) - sy * (sy - m * sx);
    assert sy * (sy - m * sx) == sy * (n * b);
    assert n * (syy - m * sxy - b * sy) == n * syy - m * (n * sxy) - sy * (n * b);
    Cancel(n, syy - m * sxy - b * sy, v - m * w);
  }

  lemma SlopeOfSums(n: real, sx: real, sy: real, sxx: real, sxy: real, m: real, b: real)
    requires n > 0.0 && Solves(n, sx, sy, sxx, sxy, m, b)
    ensures m * Spread(n, sx, sxx) == Joint(n, sx, sy, sxy)
  {
    SpreadTimesN(n, sx, sy, sxx, sxy);
    var u, w := Spread(n, sx, sxx), Joint(n, sx, sy, sxy);
    hide Spread, Joint;
    SlopeAlgebra(n, sx, sxx, m, b, u, w);
  }

  /** At the solution the residuals shrink to three terms. */
  lemma ThreeTerms(n: real, sx: real, sy: real, sxx: real, sxy: real, syy: real, m: real, b: real)
    requires Solves(n, sx, sy, sxx, sxy, m, b)
    ensures Expanded(n, sx, sy, sxx, sxy, syy, m, b) == syy - m * sxy - b * sy
  {
    assert m * (m * sxx + b * sx) == m * sxy && b * (m * sx + n * b) == b * sy;
  }

  lemma ResidualsOfSums(n: real, sx: real, sy: real, sxx: real, sxy: real, syy: real, m: real, b: real)
    requires n > 0.0 && Solves(n, sx, sy, sxx, sxy, m, b)
    ensures Expanded(n, sx, sy, sxx, sxy, syy, m, b) == Spread(n, sy, syy) - Product(m, Joint(n, sx, sy, sxy))
  {
    ThreeTerms(n, sx, sy, sxx, sxy, syy, m, b);
    SpreadTimesN(n, sy, sx, syy, sxy);
    SpreadTimesN(n, sx, sy, sxx, sxy);
    var v, w := Spread(n, sy, syy), Joint(n, sx, sy, sxy);
    hide Expanded, Spread, Joint;
    ResidualAlgebra(n, sx, sy, sxy, syy, m, b, v, w);
  }

  /** The value stored through r2, from the three spreads. */
  function Ratio(u: real, v: real, w: real): real
    requires Product(u, v) != 0.0
  {
    Product(w, w) / Product(u, v)
  }

  function RSquared(n: real, sx: real, sy: real, sxx: real, sxy: real, syy: real): real
    requires n != 0.0 && Product(Spread(n, sx, sxx), Spread(n, sy, syy)) != 0.0
  {
    Ratio(Spread(n, sx, sxx), Spread(n, sy, syy), Joint(n, sx, sy, sxy))
  }

  /** The same for points. */
  function R2(x: Reals, y: Reals, n: nat): real
    requires 0 < n <= |x| && n <= |y| && HasR2(x, y, n)
  {
    RSquared(n as real, Sum(x, n), Sum(y, n), Dot(x, x, n), Dot(x, y, n), Dot(y, y, n))
  }

  predicate HasR2(x: Reals, y: Reals, n: nat)
    requires 0 < n <= |x| && n <= |y|
  {
    Product(Spread(n as real, Sum(x, n), Dot(x, x, n)), Spread(n as real, Sum(y, n), Dot(y, y, n))) != 0.0
  }

  lemma ProductZero(u: real, v: real)
    requires u >= 0.0 && v >= 0.0
    ensures Product(u, v) >= 0.0
    ensures Product(u, v) == 0.0 <==> u == 0.0 || v == 0.0
  {
    if u > 0.0 && v > 0.0 {
      hide Product;
      ProductPositive(u, v);
    } else if u == 0.0 {
    } else {
    }
  }

  lemma RatioSign(u: real, v: real, w: real)
    requires u >= 0.0 && v >= 0.0 && Product(u, v) != 0.0
    ensures Ratio(u, v, w) >= 0.0
  {
    ProductZero(u, v);
    SquareSign(w);
    hide Product;
    Quotient(Product(w, w), Product(u, v));
  }

  /** r2 exists unless all x or all y are equal. */
  lemma R2Exists(x: Reals, y: Reals, n: nat)
    requires 0 < n <= |x| && n <= |y|
    ensures HasR2(x, y, n) <==> !AllEqual(x, n) && !AllEqual(y, n)
  {
    SpreadSign(x, n);
    SpreadSign(y, n);
    hide Sum, Dot, Spread, AllEqual, Product;
    ProductZero(Spread(n as real, Sum(x, n), Dot(x, x, n)), Spread(n as real, Sum(y, n), Dot(y, y, n)));
  }

  lemma SpreadSign(x: Reals, n: nat)
    requires 0 < n <= |x|
    ensures Spread(n as real, Sum(x, n), Dot(x, x, n)) >= 0.0
    ensures Spread(n as real, Sum(x, n), Dot(x, x, n)) == 0.0 <==> AllEqual(x, n)
  {
    DenominatorZero(x, n);
    SpreadTimesN(n as real, Sum(x, n), 0.0, Dot(x, x, n), 0.0);
    hide Spread, Det, Sum, Dot, AllEqual;
    ProductSign(n as real, Spread(n as real, Sum(x, n), Dot(x, x, n)));
  }

  lemma RatioAlgebra(u: real, v: real, w: real, m: real)
    requires u > 0.0 && v > 0.0 && m * u == w
    ensures Product(u, v) != 0.0
    ensures Product(Ratio(u, v, w), v) == Product(m, w)
  {
    ProductPositive(u, v);
    var r := Ratio(u, v, w);
    Requotient(Product(w, w), Product(u, v), r);
    assert u * (r * v) == r * (u * v);
    assert u * (m * w) == (m * u) * w;
    Cancel(u, r * v, m * w);
  }

  lemma Requotient(a: real, d: real, q: real)
    requires d != 0.0 && q == a / d
    ensures q * d == a
  {
  }

  /** r2 is the part of the spread of y that the line explains: the residuals are
      (1 - r2) times that spread. */
  lemma DeterminationOfSums(n: real, sx: real, sy: real, sxx: real, sxy: real, syy: real, m: real, b: real)
    requires n > 0.0 && Solves(n, sx, sy, sxx, sxy, m, b)
    requires Spread(n, sx, sxx) > 0.0 && Spread(n, sy, syy) > 0.0
    ensures Product(Spread(n, sx, sxx), Spread(n, sy, syy)) != 0.0
    ensures var r2 := RSquared(n, sx, sy, sxx, sxy, syy);
            Expanded(n, sx, sy, sxx, sxy, syy, m, b) == Spread(n, sy, syy) - Product(r2, Spread(n, sy, syy))
  {
    SlopeOfSums(n, sx, sy, sxx, sxy, m, b);
    ResidualsOfSums(n, sx, sy, sxx, sxy, syy, m, b);
    hide Expanded, Spread, Joint, Solves, Product, Ratio;
    var u, v, w := Spread(n, sx, sxx), Spread(n, sy, syy), Joint(n, sx, sy, sxy);
    RatioAlgebra(u, v, w, m);
  }

  lemma UnitFraction(v: real, r: real, res: real)
    requires v > 0.0 && res == v - Product(r, v) && res >= 0.0
    ensures r <= 1.0 && (r == 1.0 <==> res == 0.0)
  {
    assert res == v * (1.0 - r);
    ProductSign(v, 1.0 - r);
  }

  /** The residuals are the unexplained part of the spread of y. */
  lemma Unexplained(x: Reals, y: Reals, n: nat, m: real, b: real, v: real)
    requires 0 < n <= |x| && n <= |y| && NormalEquations(x, y, n, m, b) && HasR2(x, y, n)
    requires v == Spread(n as real, Sum(y, n), Dot(y, y, n))
    ensures v > 0.0
    ensures Residuals(x, y, n, m, b) == v - Product(R2(x, y, n), v)
  {
    R2Exists(x, y, n);
    SpreadSign(x, n);
    SpreadSign(y, n);
    hide Sum, Dot, Spread, Solves, AllEqual, RSquared, Expanded, Residuals, Product;
    DeterminationOfSums(n as real, Sum(x, n), Sum(y, n), Dot(x, x, n), Dot(x, y, n), Dot(y, y, n), m, b);
    ResidualsExpand(x, y, n, m, b);
  }

  lemma R2Sign(x: Reals, y: Reals, n: nat)
    requires 0 < n <= |x| && n <= |y| && HasR2(x, y, n)
    ensures R2(x, y, n) >= 0.0
  {
    SpreadSign(x, n);
    SpreadSign(y, n);
    hide Sum, Dot, Spread, Joint, AllEqual, Product, Ratio;
    RatioSign(Spread(n as real, Sum(x, n), Dot(x, x, n)), Spread(n as real, Sum(y, n), Dot(y, y, n)),
              Joint(n as real, Sum(x, n), Sum(y, n), Dot(x, y, n)));
  }

  /** r2 lies in [0, 1], and is 1 exactly when every point lies on the line. */
  lemma Determination(x: Reals, y: Reals, n: nat, m: real, b: real)
    requires 0 < n <= |x| && n <= |y| && NormalEquations(x, y, n, m, b) && HasR2(x, y, n)
    ensures 0.0 <= R2(x, y, n) <= 1.0
    ensures R2(x, y, n) == 1.0 <==> forall i :: 0 <= i < n ==> OnLine(x[i], y[i], m, b)
  {
    hide Sum, Dot, Spread, NormalEquations, OnLine, HasR2, R2, Residuals;
    var v := Spread(n as real, Sum(y, n), Dot(y, y, n));
    Unexplained(x, y, n, m, b, v);
    ResidualsSign(x, y, n, m, b);
    UnitFraction(v, R2(x, y, n), Residuals(x, y, n, m, b));
    R2Sign(x, y, n);
  }

  lemma Quotient(a: real, d: real)
    requires a >= 0.0 && d > 0.0
    ensures a / d >= 0.0
  {
    var q := a / d;
    assert d * q == a;
    ProductSign(d, q);
  }

  // ---------- The loop ----------

  /** The x values used when none are given. */
  function Indices(n: nat): Reals {
    seq(n, i requires 0 <= i < n => i as real)
  }

  function Xs(x: Option<Reals>, n: nat): (r: Reals)
    requires x.Some? ==> n <= |x.value|
    ensures n <= |r|
  {
    match x
    case None => Indices(n)
    case Some(v) => v
  }

  lemma IndicesDiffer(n: nat)
    ensures Denominator(Indices(n), n) == 0.0 <==> n < 2
  {
    DenominatorZero(Indices(n), n);
    hide Denominator;
    if n >= 2 {
      assert Indices(n)[0] == 0.0 && Indices(n)[1] == 1.0;
    }
  }

  /** Position 0 first. */
  lemma IndicesAre(n: nat, i: nat)
    requires i < n
    ensures Indices(n)[i] == i as real && |Indices(n)| == n
  {
  }

  /** Points on a line give that line, with the positions counted from 0 if no x is
      given. */
  lemma LineRecovered(xs: Reals, y: Reals, n: nat, m: real, b: real, m': real, b': real)
    requires n <= |xs| && n <= |y| && NormalEquations(xs, y, n, m, b) && Denominator(xs, n) != 0.0
    requires forall i :: 0 <= i < n ==> y[i] == m' * xs[i] + b'
    ensures m == m' && b == b'
  {
    forall i | 0 <= i < n
      ensures OnLine(xs[i], y[i], m', b')
    {
    }
    ResidualsSign(xs, y, n, m', b');
    ResidualsSign(xs, y, n, m, b);
    hide Residuals, Denominator, NormalEquations, OnLine;
    LeastSquares(xs, y, n, m, b, m', b');
  }

  lemma PositionsRecovered(y: Reals, n: nat, m: real, b: real, m': real, b': real)
    requires 2 <= n <= |y| && NormalEquations(Xs(None, n), y, n, m, b)
    requires forall i :: 0 <= i < n ==> y[i] == m' * i as real + b'
    ensures m == m' && b == b'
  {
    IndicesDiffer(n);
    forall i | 0 <= i < n
      ensures Indices(n)[i] == i as real
    {
      IndicesAre(n, i);
    }
    hide Indices, Denominator, NormalEquations;
    LineRecovered(Indices(n), y, n, m, b, m', b');
  }

  /** The accumulating loop. */
  method Accumulate(x: Option<Reals>, y: Reals, n: nat)
    returns (sumX: real, sumX2: real, sumY: real, sumY2: real, sumXY: real)
    requires n <= |y| && (x.Some? ==> n <= |x.value|)
    ensures var xs := Xs(x, n);
            && sumX == Sum(xs, n) && sumX2 == Dot(xs, xs, n) && sumY == Sum(y, n)
            && sumY2 == Dot(y, y, n) && sumXY == Dot(xs, y, n)
  {
    sumX, sumX2, sumY, sumY2, sumXY := 0.0, 0.0, 0.0, 0.0, 0.0;
    ghost var xs := Xs(x, n);
    for i := 0 to n
      invariant sumX == Sum(xs, i) && sumX2 == Dot(xs, xs, i) && sumY == Sum(y, i)
      invariant sumY2 == Dot(y, y, i) && sumXY == Dot(xs, y, i)
    {
      var xVal := if x.Some? then x.value[i] else i as real;
      sumX := sumX + xVal;
      sumX2 := sumX2 + xVal * xVal;
      sumY := sumY + y[i];
      sumY2 := sumY2 + y[i] * y[i];
      sumXY := sumXY + xVal * y[i];
    }
  }

  /** -1 if the denominator is zero, else 0 and the line. */
  method Line(ghost xs: Reals, ghost y: Reals, n: nat, sumX: real, sumX2: real, sumY: real, sumXY: real)
    returns (ret: int, m: real, b: real)
    requires n <= |xs| && n <= |y|
    requires sumX == Sum(xs, n) && sumX2 == Dot(xs, xs, n) && sumY == Sum(y, n) && sumXY == Dot(xs, y, n)
    ensures ret == if Denominator(xs, n) == 0.0 then -1 else 0
    ensures ret == 0 ==> NormalEquations(xs, y, n, m, b)
  {
    hide Sum, Dot;
    m, b := 0.0, 0.0;
    var denom := n as real * sumX2 - sumX * sumX;
    assert denom == Denominator(xs, n);
    if denom == 0.0 {
      return -1, m, b;
    }
    m := (n as real * sumXY - sumX * sumY) / denom;
    b := (sumY * sumX2 - sumX * sumXY) / denom;
    SolveSystem(n as real, sumX, sumY, sumX2, sumXY, m, b);
    ret := 0;
  }

  /** None stands for the 0/0 that equal y values give. */
  method Quality(ghost xs: Reals, ghost y: Reals, n: nat,
                 sumX: real, sumX2: real, sumY: real, sumY2: real, sumXY: real) returns (r2: Option<real>)
    requires 0 < n <= |xs| && n <= |y|
    requires sumX == Sum(xs, n) && sumX2 == Dot(xs, xs, n) && sumY == Sum(y, n)
    requires sumY2 == Dot(y, y, n) && sumXY == Dot(xs, y, n)
    ensures r2 == if HasR2(xs, y, n) then Some(R2(xs, y, n)) else None
  {
    hide Sum, Dot, Spread, Joint, Product, Ratio;
    var u, v := Spread(n as real, sumX, sumX2), Spread(n as real, sumY, sumY2);
    if Product(u, v) == 0.0 {
      return None;
    }
    r2 := Some(Ratio(u, v, Joint(n as real, sumX, sumY, sumXY)));
  }

  /** Without x (NULL in C) the positions are used; a count below zero is like no
      points; r2 is computed on request. */
  method LinearRegression(x: Option<Reals>, y: Reals, count: int, wantR2: bool)
    returns (ret: int, m: real, b: real, r2: Option<real>)
    requires count <= |y| && (x.Some? ==> count <= |x.value|)
    ensures var n := if count < 0 then 0 else count;
            var xs := Xs(x, n);
            && ret == (if n == 0 || AllEqual(xs, n) then -1 else 0)
            && (ret == 0 ==> NormalEquations(xs, y, n, m, b))
            && (r2.Some? <==> ret == 0 && wantR2 && !AllEqual(y, n))
            && (r2.Some? ==> HasR2(xs, y, n) && r2.value == R2(xs, y, n))
  {
    var n := if count < 0 then 0 else count;
    ghost var xs := Xs(x, n);
    var sumX, sumX2, sumY, sumY2, sumXY := Accumulate(x, y, n);
    ret, m, b := Line(xs, y, n, sumX, sumX2, sumY, sumXY);
    DenominatorZero(xs, n);
    hide Sum, Dot, Xs, AllEqual, Denominator, NormalEquations, HasR2, R2;
    r2 := None;
    if ret == 0 && wantR2 {
      R2Exists(xs, y, n);
      r2 := Quality(xs, y, n, sumX, sumX2, sumY, sumY2, sumXY);
    }
  }
}
