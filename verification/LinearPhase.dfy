/** `trilateration_lls`: position from distances to anchors, by least squares. */
module LinearPhase {
  import opened Outcomes
  import opened Trilateration

  function Total(ps: seq<Point>): Point {
    if ps == [] then Point(0.0, 0.0) else Plus(ps[0], Total(ps[1..]))
  }

  function TotalSquares(ps: seq<Point>): real {
    if ps == [] then 0.0 else Square(ps[0]) + TotalSquares(ps[1..])
  }

  function DistanceSquares(ds: seq<real>): real {
    if ds == [] then 0.0 else ds[0] * ds[0] + DistanceSquares(ds[1..])
  }

  function Mean(ps: seq<Point>): Point
    requires ps != []
  {
    Point(Total(ps).x / (|ps| as real), Total(ps).y / (|ps| as real))
  }

  /** The matrix A: the anchors relative to their mean. */
  function Rows(anchors: seq<Point>): (r: seq<Point>)
    requires anchors != []
    ensures |r| == |anchors| && forall i | 0 <= i < |r| :: r[i] == Minus(anchors[i], Mean(anchors))
  {
    seq(|anchors|, i requires 0 <= i < |anchors| => Minus(anchors[i], Mean(anchors)))
  }

  /** The vector b. */
  function RightHandSide(anchors: seq<Point>, ds: seq<real>): (r: seq<real>)
    requires |anchors| == |ds| && anchors != []
    ensures |r| == |ds|
    ensures forall i | 0 <= i < |r| ::
              r[i] == 0.5 * (Square(anchors[i]) - TotalSquares(anchors) / (|ds| as real)
                             - ds[i] * ds[i] + DistanceSquares(ds) / (|ds| as real))
  {
    seq(|ds|, i requires 0 <= i < |ds| =>
      0.5 * (Square(anchors[i]) - TotalSquares(anchors) / (|ds| as real)
             - ds[i] * ds[i] + DistanceSquares(ds) / (|ds| as real)))
  }

  /** `trilateration_lls`; matrices of the wrong size make Armadillo throw. */
  function Lls(arith: Arithmetic, n: nat, anchors: seq<Point>, ds: seq<real>, w: seq<real>): Result<Point> {
    if n == 0 || |anchors| != n || |ds| != n || |w| != n then Err(OtherError(1))
    else SolveNormalEquation(arith, Rows(anchors), RightHandSide(anchors, ds), w)
  }

  // ----- when the system has a unique solution

  predicate Triangle(ps: seq<Point>, i: int, j: int, k: int) {
    && 0 <= i < |ps| && 0 <= j < |ps| && 0 <= k < |ps|
    && Cross(Minus(ps[j], ps[i]), Minus(ps[k], ps[i])) != 0.0
  }

  /** The anchors are not all on one line. */
  ghost predicate NonCollinear(ps: seq<Point>) { exists i, j, k :: Triangle(ps, i, j, k) }

  lemma CrossOfDifferences(p: Point, q: Point, r: Point, m: Point)
    ensures Cross(Minus(q, p), Minus(r, p)) ==
            Cross(Minus(q, m), Minus(r, m)) - Cross(Minus(q, m), Minus(p, m)) - Cross(Minus(p, m), Minus(r, m))
  {
  }

  /** The sum over all k of the cross product of p - a_k and q - a_k. */
  function CrossTotal(p: Point, q: Point, ps: seq<Point>): real {
    if ps == [] then 0.0 else Cross(Minus(p, ps[0]), Minus(q, ps[0])) + CrossTotal(p, q, ps[1..])
  }

  lemma CrossExpands(p: Point, q: Point, a: Point)
    ensures Cross(Minus(p, a), Minus(q, a)) == Cross(p, q) - Cross(p, a) - Cross(a, q)
  {
  }

  lemma CrossOfPlus(p: Point, a: Point, b: Point)
    ensures Cross(p, Plus(a, b)) == Cross(p, a) + Cross(p, b)
    ensures Cross(Plus(a, b), p) == Cross(a, p) + Cross(b, p)
  {
  }

  lemma {:induction false} CrossTotalIs(p: Point, q: Point, ps: seq<Point>)
    ensures CrossTotal(p, q, ps) == (|ps| as real) * Cross(p, q) - Cross(p, Total(ps)) - Cross(Total(ps), q)
  {
    if ps == [] {
    } else {
      hide Cross, Minus, Plus;
      CrossTotalIs(p, q, ps[1..]);
      CrossExpands(p, q, ps[0]);
      CrossOfPlus(p, ps[0], Total(ps[1..]));
      CrossOfPlus(q, ps[0], Total(ps[1..]));
      CountOneMore(|ps[1..]|, Cross(p, q));
    }
  }

  lemma CountOneMore(n: nat, c: real)
    ensures ((n + 1) as real) * c == (n as real) * c + c
  {
  }

  lemma CrossAtMean(p: Point, q: Point, t: Point, n: real, m: Point)
    requires n != 0.0 && n * m.x == t.x && n * m.y == t.y
    ensures n * Cross(Minus(p, m), Minus(q, m)) == n * Cross(p, q) - Cross(p, t) - Cross(t, q)
  {
    CrossExpands(p, q, m);
    assert n * Cross(p, m) == Cross(p, t);
    assert n * Cross(m, q) == Cross(t, q);
  }

  lemma {:induction false} CrossTotalVanishes(p: Point, q: Point, ps: seq<Point>)
    requires forall k | 0 <= k < |ps| :: Cross(Minus(p, ps[k]), Minus(q, ps[k])) == 0.0
    ensures CrossTotal(p, q, ps) == 0.0
  {
    if ps != [] {
      assert forall k | 0 <= k < |ps[1..]| :: ps[1..][k] == ps[k + 1];
      CrossTotalVanishes(p, q, ps[1..]);
    }
  }

  lemma MeanTimesCount(ps: seq<Point>)
    requires ps != []
    ensures (|ps| as real) * Mean(ps).x == Total(ps).x && (|ps| as real) * Mean(ps).y == Total(ps).y
  {
  }

  /** Two centred anchors are skew exactly when the anchors are not on one line. */
  lemma SkewRows(anchors: seq<Point>)
    requires anchors != []
    ensures (exists i, j :: Skew(Rows(anchors), i, j)) <==> NonCollinear(anchors)
  {
    var rows, m := Rows(anchors), Mean(anchors);
    if NonCollinear(anchors) {
      var i, j, k :| Triangle(anchors, i, j, k);
      CrossOfDifferences(anchors[i], anchors[j], anchors[k], m);
      assert Skew(rows, j, k) || Skew(rows, j, i) || Skew(rows, i, k);
    } else {
      forall i, j | 0 <= i < |rows| && 0 <= j < |rows| ensures !Skew(rows, i, j) {
        RowsParallel(anchors, i, j);
      }
    }
  }

  lemma RowsParallel(anchors: seq<Point>, i: nat, j: nat)
    requires !NonCollinear(anchors) && i < |anchors| && j < |anchors|
    ensures Cross(Rows(anchors)[i], Rows(anchors)[j]) == 0.0
  {
    hide Cross, Minus;
    var p, q, n := anchors[i], anchors[j], |anchors| as real;
    forall k | 0 <= k < |anchors| ensures Cross(Minus(p, anchors[k]), Minus(q, anchors[k])) == 0.0 {
      assert !Triangle(anchors, k, i, j);
    }
    CrossTotalVanishes(p, q, anchors);
    CrossTotalIs(p, q, anchors);
    MeanTimesCount(anchors);
    CrossAtMean(p, q, Total(anchors), n, Mean(anchors));
    ZeroFactor(n, Cross(Minus(p, Mean(anchors)), Minus(q, Mean(anchors))));
  }

  predicate SizesMatch(n: nat, anchors: seq<Point>, ds: seq<real>, w: seq<real>) {
    n > 0 && |anchors| == n && |ds| == n && |w| == n
  }

  /** With positive weights the system is regular exactly when the anchors are not all on
      one line: its determinant is a sum of weighted squares.  Otherwise there is an
      answer all the same, unless the approximate solver fails. */
  lemma LlsSolvable(arith: Arithmetic, n: nat, anchors: seq<Point>, ds: seq<real>, w: seq<real>)
    requires SizesMatch(n, anchors, ds, w) && Positive(w)
    ensures var s := NormalSystem(Rows(anchors), RightHandSide(anchors, ds), w);
            && s.Det() >= 0.0 && (s.Det() > 0.0 <==> NonCollinear(anchors))
            && (Lls(arith, n, anchors, ds, w).Ok? <==> NonCollinear(anchors) || !arith.svdFails(s))
  {
    DetIsPairSum(Rows(anchors), RightHandSide(anchors, ds), w);
    PairSumPositive(Rows(anchors), w);
    SkewRows(anchors);
  }

  // ----- anchors on one line

  lemma OuterProduct(w: real, x: real, y: real, u: real, v: real, k: real)
    requires k == w * (x * u + y * v)
    ensures (w * x * x) * u + (w * x * y) * v == k * x
    ensures (w * x * y) * u + (w * y * y) * v == k * y
  {
    assert (w * (x * u + y * v)) * x == (w * x * x) * u + (w * x * y) * v;
    assert (w * (x * u + y * v)) * y == (w * x * y) * u + (w * y * y) * v;
  }

  lemma SumOfProducts(m: real, n: real, d: real, e: real, u: real, v: real, m': real, n': real, z: real)
    requires m' == m + d && n' == n + e && d * u + e * v == z
    ensures m' * u + n' * v == (m * u + n * v) + z
  {
    assert (m + d) * u + (n + e) * v == (m * u + n * v) + (d * u + e * v);
  }

  lemma RowParts(s: System, w: real, r: Point, c: real)
    ensures var s' := AddRow(s, w, r, c);
            s'.xx == s.xx + w * r.x * r.x && s'.xy == s.xy + w * r.x * r.y && s'.yy == s.yy + w * r.y * r.y
  {
  }

  lemma AppliedRow(s: System, w: real, r: Point, c: real, v: Point, k: real)
    requires k == w * (r.x * v.x + r.y * v.y)
    ensures Apply(AddRow(s, w, r, c), v) == Plus(Apply(s, v), Stretch(k, r))
  {
    hide AddRow;
    var s' := AddRow(s, w, r, c);
    RowParts(s, w, r, c);
    OuterProduct(w, r.x, r.y, v.x, v.y, k);
    SumOfProducts(s.xx, s.xy, w * r.x * r.x, w * r.x * r.y, v.x, v.y, s'.xx, s'.xy, k * r.x);
    SumOfProducts(s.xy, s.yy, w * r.x * r.y, w * r.y * r.y, v.x, v.y, s'.xy, s'.yy, k * r.y);
  }

  lemma CrossOfAppliedRow(a: Point, r: Point, s: System, w: real, c: real, v: Point)
    requires Cross(a, r) == 0.0
    ensures Cross(a, Apply(AddRow(s, w, r, c), v)) == Cross(a, Apply(s, v))
  {
    hide Apply, AddRow;
    var k := w * (r.x * v.x + r.y * v.y);
    AppliedRow(s, w, r, c, v, k);
    CrossOfPlus(a, Apply(s, v), Stretch(k, r));
    ParallelStretch(a, k, r);
  }

  lemma ParallelStretch(a: Point, k: real, r: Point)
    requires Cross(a, r) == 0.0
    ensures Cross(a, Stretch(k, r)) == 0.0
  {
    assert Cross(a, Stretch(k, r)) == k * Cross(a, r);
  }

  /** A vector parallel to all rows is parallel to all that their matrix reaches. */
  lemma {:induction false} ParallelToImage(a: Point, rows: seq<Point>, b: seq<real>, w: seq<real>, v: Point)
    requires |rows| == |b| == |w| && forall i | 0 <= i < |rows| :: Cross(a, rows[i]) == 0.0
    ensures Cross(a, Apply(NormalSystem(rows, b, w), v)) == 0.0
  {
    if rows != [] {
      assert forall i | 0 <= i < |rows[1..]| :: rows[1..][i] == rows[i + 1];
      ParallelToImage(a, rows[1..], b[1..], w[1..], v);
      CrossOfAppliedRow(a, rows[0], NormalSystem(rows[1..], b[1..], w[1..]), w[0], b[0], v);
    }
  }

  lemma CrossOfStretch(a: Point, e: real, p: Point)
    requires e != 0.0 && Cross(a, Stretch(e, p)) == 0.0
    ensures Cross(a, p) == 0.0
  {
    assert Cross(a, Stretch(e, p)) == e * Cross(a, p);
    ZeroFactor(e, Cross(a, p));
  }

  lemma ParallelToLeastNorm(a: Point, rows: seq<Point>, b: seq<real>, w: seq<real>)
    requires |rows| == |b| == |w| && forall i | 0 <= i < |rows| :: Cross(a, rows[i]) == 0.0
    ensures Cross(a, LeastNorm(NormalSystem(rows, b, w))) == 0.0
  {
    var s := NormalSystem(rows, b, w);
    var t := s.xx + s.yy;
    if t != 0.0 {
      hide LeastNorm, Stretch, Apply, Cross;
      LeastNormStretched(s, t, t * t);
      ParallelToImage(a, rows, b, w, Target(s));
      CrossOfStretch(a, t * t, LeastNorm(s));
    }
  }

  lemma CrossOfMinus(a: Point, b: Point, m: Point, p: Point)
    ensures Cross(Minus(a, b), p) == Cross(Minus(a, m), p) - Cross(Minus(b, m), p)
  {
  }

  /** For anchors on one line the answer is on the parallel of that line through the
      origin, wherever the anchors are. */
  lemma CollinearAnswer(arith: Arithmetic, n: nat, anchors: seq<Point>, ds: seq<real>, w: seq<real>, i: nat, j: nat)
    requires SizesMatch(n, anchors, ds, w) && Positive(w) && !NonCollinear(anchors) && i < n && j < n
    requires Lls(arith, n, anchors, ds, w).Ok?
    ensures Cross(Minus(anchors[i], anchors[j]), Lls(arith, n, anchors, ds, w).value) == 0.0
  {
    hide Cross, Minus, LeastNorm;
    var rows, b := Rows(anchors), RightHandSide(anchors, ds);
    LlsSolvable(arith, n, anchors, ds, w);
    forall k, l | 0 <= k < n && 0 <= l < n ensures Cross(rows[k], rows[l]) == 0.0 { RowsParallel(anchors, k, l); }
    ParallelToLeastNorm(rows[i], rows, b, w);
    ParallelToLeastNorm(rows[j], rows, b, w);
    CrossOfMinus(anchors[i], anchors[j], Mean(anchors), LeastNorm(NormalSystem(rows, b, w)));
  }

  // ----- power of a point

  /** |p - a|^2 - d^2. */
  function Power(a: Point, d: real, p: Point): real { Square(Minus(p, a)) - d * d }

  predicate EqualPowers(anchors: seq<Point>, ds: seq<real>, p: Point)
    requires |anchors| == |ds|
  {
    forall i, j {:trigger ds[i], ds[j]} | 0 <= i < |ds| && 0 <= j < |ds| ::
      Power(anchors[i], ds[i], p) == Power(anchors[j], ds[j], p)
  }

  lemma PowerExpands(a: Point, d: real, p: Point)
    ensures Square(a) - d * d == Power(a, d, p) - Square(p) + 2.0 * Dot(a, p)
  {
  }

  lemma TotalsStep(a: Point, d: real, t: Point, p: Point, c: real, n: nat, rest: real)
    requires Power(a, d, p) == c
    requires rest == (n as real) * (c - Square(p)) + 2.0 * Dot(t, p)
    ensures Square(a) - d * d + rest == ((n + 1) as real) * (c - Square(p)) + 2.0 * Dot(Plus(a, t), p)
  {
    hide *;
    PowerExpands(a, d, p);
    CountOneMore(n, c - Square(p));
    DotOfPlus(p, a, t);
    DotCommutes(p, Plus(a, t));
    DotCommutes(p, a);
    DotCommutes(p, t);
  }

  lemma {:induction false} TotalsOfPowers(anchors: seq<Point>, ds: seq<real>, p: Point, c: real)
    requires |anchors| == |ds| && forall i | 0 <= i < |ds| :: Power(anchors[i], ds[i], p) == c
    ensures TotalSquares(anchors) - DistanceSquares(ds) ==
            (|ds| as real) * (c - Square(p)) + 2.0 * Dot(Total(anchors), p)
  {
    hide Dot, Square, Power, Plus;
    if ds == [] {
      DotOfOrigin(p);
    } else {
      assert forall i | 0 <= i < |ds[1..]| :: Power(anchors[1..][i], ds[1..][i], p) == c;
      TotalsOfPowers(anchors[1..], ds[1..], p, c);
      TotalsStep(anchors[0], ds[0], Total(anchors[1..]), p, c, |ds[1..]|,
                 TotalSquares(anchors[1..]) - DistanceSquares(ds[1..]));
    }
  }

  lemma DotCommutes(p: Point, q: Point)
    ensures Dot(p, q) == Dot(q, p)
  {
  }

  lemma QuotientOfSum(s: real, r: real, n: real, k: real, t: real)
    requires n != 0.0 && s - r == n * k + 2.0 * t
    ensures s / n - r / n == k + 2.0 * (t / n)
  {
    assert s / n - r / n == (s - r) / n;
    assert (n * k + 2.0 * t) / n == k + 2.0 * (t / n);
  }

  lemma DotOfRow(a: Point, t: Point, n: real, p: Point)
    requires n != 0.0
    ensures Dot(Minus(a, Point(t.x / n, t.y / n)), p) == Dot(a, p) - Dot(t, p) / n
  {
    assert Dot(t, p) / n == (t.x / n) * p.x + (t.y / n) * p.y;
  }

  /** A point of equal power solves every equation. */
  lemma EqualPowersSolve(anchors: seq<Point>, ds: seq<real>, p: Point, i: nat)
    requires |anchors| == |ds| && i < |ds| && EqualPowers(anchors, ds, p)
    ensures Dot(Rows(anchors)[i], p) == RightHandSide(anchors, ds)[i]
  {
    hide Dot, Square, Power, Minus;
    var n, c, t := |ds| as real, Power(anchors[i], ds[i], p), Total(anchors);
    TotalsOfPowers(anchors, ds, p, c);
    QuotientOfSum(TotalSquares(anchors), DistanceSquares(ds), n, c - Square(p), Dot(t, p));
    PowerExpands(anchors[i], ds[i], p);
    DotOfRow(anchors[i], t, n, p);
  }

  /** A point that solves every equation has equal power. */
  lemma SolutionsHaveEqualPowers(anchors: seq<Point>, ds: seq<real>, p: Point)
    requires |anchors| == |ds| && anchors != []
    requires forall i | 0 <= i < |ds| :: Dot(Rows(anchors)[i], p) == RightHandSide(anchors, ds)[i]
    ensures EqualPowers(anchors, ds, p)
  {
    hide Dot, Square, Power, Minus;
    forall i, j | 0 <= i < |ds| && 0 <= j < |ds|
      ensures Power(anchors[i], ds[i], p) == Power(anchors[j], ds[j], p)
    {
      PowerExpands(anchors[i], ds[i], p);
      PowerExpands(anchors[j], ds[j], p);
      assert Dot(Rows(anchors)[i], p) == RightHandSide(anchors, ds)[i];
      assert Dot(Rows(anchors)[j], p) == RightHandSide(anchors, ds)[j];
      DotOfRow(anchors[i], Total(anchors), |ds| as real, p);
      DotOfRow(anchors[j], Total(anchors), |ds| as real, p);
    }
  }

  /** If some point has equal power for all anchors, it is the answer, whatever the
      positive weights. */
  lemma EqualPowersRecovered(arith: Arithmetic, n: nat, anchors: seq<Point>, ds: seq<real>, w: seq<real>, p: Point)
    requires SizesMatch(n, anchors, ds, w) && Positive(w) && NonCollinear(anchors)
    requires EqualPowers(anchors, ds, p)
    ensures Lls(arith, n, anchors, ds, w) == Ok(p)
  {
    LlsSolvable(arith, n, anchors, ds, w);
    forall i | 0 <= i < n ensures Dot(Rows(anchors)[i], p) == RightHandSide(anchors, ds)[i] {
      EqualPowersSolve(anchors, ds, p, i);
    }
    ConsistentSolves(Rows(anchors), RightHandSide(anchors, ds), w, p);
    CramerForward(arith, NormalSystem(Rows(anchors), RightHandSide(anchors, ds), w), p);
  }

  /** Exact recovery: true distances from a point give back the point. */
  lemma ExactRecovery(arith: Arithmetic, n: nat, anchors: seq<Point>, ds: seq<real>, w: seq<real>, p: Point)
    requires SizesMatch(n, anchors, ds, w) && Positive(w) && NonCollinear(anchors)
    requires forall i {:trigger ds[i]} | 0 <= i < n :: ds[i] * ds[i] == Square(Minus(p, anchors[i]))
    ensures Lls(arith, n, anchors, ds, w) == Ok(p)
  {
    assert forall i | 0 <= i < n :: Power(anchors[i], ds[i], p) == 0.0;
    EqualPowersRecovered(arith, n, anchors, ds, w, p);
  }

  /** The answer has the least weighted squared residual of the centred equations, and of
      the points with that residual it is the nearest to the origin; so it is also for
      anchors on one line and for distances that fit no point. */
  lemma LlsMinimises(arith: Arithmetic, n: nat, anchors: seq<Point>, ds: seq<real>, w: seq<real>, q: Point)
    requires SizesMatch(n, anchors, ds, w) && Positive(w) && Lls(arith, n, anchors, ds, w).Ok?
    ensures var p, rows, b := Lls(arith, n, anchors, ds, w).value, Rows(anchors), RightHandSide(anchors, ds);
            && Residual(rows, b, w, p) <= Residual(rows, b, w, q)
            && (Residual(rows, b, w, p) == Residual(rows, b, w, q) ==> Square(p) <= Square(q))
  {
    NormalEquationMinimises(arith, Rows(anchors), RightHandSide(anchors, ds), w, q);
  }

  /** The equations: twice the left-hand side less the right-hand side is how much the
      power of the point for the anchor falls short of the mean power. */
  lemma EquationMeans(anchors: seq<Point>, ds: seq<real>, p: Point, i: nat)
    requires |anchors| == |ds| && i < |ds|
    ensures 2.0 * (Dot(Rows(anchors)[i], p) - RightHandSide(anchors, ds)[i]) ==
            TotalPower(anchors, ds, p) / (|ds| as real) - Power(anchors[i], ds[i], p)
  {
    hide Dot, Square, Power, Minus, TotalPower;
    var n, t := |ds| as real, Total(anchors);
    TotalPowerIs(anchors, ds, p);
    PowerExpands(anchors[i], ds[i], p);
    DotOfRow(anchors[i], t, n, p);
    MeanPower(TotalPower(anchors, ds, p), TotalSquares(anchors), DistanceSquares(ds), n, Square(p), Dot(t, p));
  }

  function TotalPower(anchors: seq<Point>, ds: seq<real>, p: Point): real
    requires |anchors| == |ds|
  {
    if ds == [] then 0.0 else Power(anchors[0], ds[0], p) + TotalPower(anchors[1..], ds[1..], p)
  }

  lemma PowerStep(a: Point, d: real, t: Point, p: Point, n: nat, squares: real, distances: real, rest: real)
    requires rest == squares - distances + (n as real) * Square(p) - 2.0 * Dot(t, p)
    ensures Power(a, d, p) + rest ==
            (Square(a) + squares) - (d * d + distances) + ((n + 1) as real) * Square(p) - 2.0 * Dot(Plus(a, t), p)
  {
    hide *;
    PowerExpands(a, d, p);
    CountOneMore(n, Square(p));
    DotOfPlus(p, a, t);
    DotCommutes(p, Plus(a, t));
    DotCommutes(p, a);
    DotCommutes(p, t);
  }

  lemma {:induction false} TotalPowerIs(anchors: seq<Point>, ds: seq<real>, p: Point)
    requires |anchors| == |ds|
    ensures TotalPower(anchors, ds, p) ==
            TotalSquares(anchors) - DistanceSquares(ds) + (|ds| as real) * Square(p) - 2.0 * Dot(Total(anchors), p)
  {
    hide Dot, Square, Power, Plus;
    if ds == [] {
      DotOfOrigin(p);
    } else {
      TotalPowerIs(anchors[1..], ds[1..], p);
      PowerStep(anchors[0], ds[0], Total(anchors[1..]), p, |ds[1..]|, TotalSquares(anchors[1..]),
                DistanceSquares(ds[1..]), TotalPower(anchors[1..], ds[1..], p));
    }
  }

  lemma MeanPower(total: real, squares: real, distances: real, n: real, s: real, t: real)
    requires n != 0.0 && total == squares - distances + n * s - 2.0 * t
    ensures total / n == squares / n - distances / n + s - 2.0 * (t / n)
  {
    assert squares / n - distances / n - 2.0 * (t / n) == (squares - distances - 2.0 * t) / n;
    assert (n * s) / n == s;
  }

  // ----- three anchors

  lemma ThreeTotals(anchors: seq<Point>, ds: seq<real>)
    requires |anchors| == |ds| == 3
    ensures Total(anchors) == Point(anchors[0].x + anchors[1].x + anchors[2].x,
                                    anchors[0].y + anchors[1].y + anchors[2].y)
    ensures TotalSquares(anchors) == Square(anchors[0]) + Square(anchors[1]) + Square(anchors[2])
    ensures DistanceSquares(ds) == ds[0] * ds[0] + ds[1] * ds[1] + ds[2] * ds[2]
  {
    assert anchors[1..][1..] == [anchors[2]] && ds[1..][1..] == [ds[2]];
    assert anchors[1..][0] == anchors[1] && ds[1..][0] == ds[1];
    assert TotalSquares([anchors[2]]) == Square(anchors[2]) && DistanceSquares([ds[2]]) == ds[2] * ds[2];
    assert Total([anchors[2]]) == anchors[2];
  }

  /** Three centred rows and right-hand sides sum to zero. */
  lemma ThreeRowsCancel(anchors: seq<Point>, ds: seq<real>)
    requires |anchors| == |ds| == 3
    ensures var r, b := Rows(anchors), RightHandSide(anchors, ds);
            r[2].x == -r[0].x - r[1].x && r[2].y == -r[0].y - r[1].y && b[2] == -b[0] - b[1]
  {
    ThreeTotals(anchors, ds);
  }

  lemma TwoRowsMeet(u: Point, v: Point, b: real, c: real) returns (p: Point)
    requires Cross(u, v) != 0.0
    ensures Dot(u, p) == b && Dot(v, p) == c
  {
    var k := Cross(u, v);
    p := Point((b * v.y - c * u.y) / k, (u.x * c - v.x * b) / k);
    assert k * Dot(u, p) == k * b by {
      assert k * p.x == b * v.y - c * u.y && k * p.y == u.x * c - v.x * b;
      assert k * Dot(u, p) == u.x * (k * p.x) + u.y * (k * p.y);
    }
    assert k * Dot(v, p) == k * c by {
      assert k * p.x == b * v.y - c * u.y && k * p.y == u.x * c - v.x * b;
      assert k * Dot(v, p) == v.x * (k * p.x) + v.y * (k * p.y);
    }
    Cancel(k, Dot(u, p), b);
    Cancel(k, Dot(v, p), c);
  }

  /** Three anchors not on a line have a radical centre, for any distances. */
  lemma RadicalCentreExists(anchors: seq<Point>, ds: seq<real>) returns (p: Point)
    requires |anchors| == |ds| == 3 && NonCollinear(anchors)
    ensures EqualPowers(anchors, ds, p)
  {
    hide Dot, Cross, EqualPowers;
    var r, b := Rows(anchors), RightHandSide(anchors, ds);
    ThreeRowsCancel(anchors, ds);
    SkewRows(anchors);
    var i, j :| Skew(r, i, j);
    FirstTwoAreSkew(r, i, j);
    p := TwoRowsMeet(r[0], r[1], b[0], b[1]);
    DotOfThird(r[0], r[1], r[2], p);
    SolutionsHaveEqualPowers(anchors, ds, p);
  }

  /** With three anchors not on a line and any distances, even inconsistent ones, the
      answer has the same power for all three anchors, and does not depend on the
      positive weights. */
  lemma RadicalCentre(arith: Arithmetic, anchors: seq<Point>, ds: seq<real>, w: seq<real>, w': seq<real>)
    requires SizesMatch(3, anchors, ds, w) && Positive(w) && NonCollinear(anchors)
    requires |w'| == 3 && Positive(w')
    ensures Lls(arith, 3, anchors, ds, w).Ok? && EqualPowers(anchors, ds, Lls(arith, 3, anchors, ds, w).value)
    ensures Lls(arith, 3, anchors, ds, w') == Lls(arith, 3, anchors, ds, w)
  {
    hide EqualPowers, Lls;
    var p := RadicalCentreExists(anchors, ds);
    EqualPowersRecovered(arith, 3, anchors, ds, w, p);
    EqualPowersRecovered(arith, 3, anchors, ds, w', p);
  }

  lemma DotOfThird(u: Point, v: Point, t: Point, p: Point)
    requires t.x == -u.x - v.x && t.y == -u.y - v.y
    ensures Dot(t, p) == -Dot(u, p) - Dot(v, p)
  {
  }

  lemma CrossOfThird(u: Point, v: Point, t: Point)
    requires t.x == -u.x - v.x && t.y == -u.y - v.y
    ensures Cross(u, t) == -Cross(u, v) && Cross(t, u) == Cross(u, v)
    ensures Cross(v, t) == Cross(u, v) && Cross(t, v) == -Cross(u, v)
  {
    assert u.x * t.y == -(u.x * u.y) - u.x * v.y && u.y * t.x == -(u.y * u.x) - u.y * v.x;
    assert v.x * t.y == -(v.x * u.y) - v.x * v.y && v.y * t.x == -(v.y * u.x) - v.y * v.x;
  }

  lemma CrossOfSame(u: Point, v: Point)
    ensures Cross(u, u) == 0.0 && Cross(v, u) == -Cross(u, v)
  {
  }

  lemma FirstTwoAreSkew(r: seq<Point>, i: int, j: int)
    requires |r| == 3 && Skew(r, i, j)
    requires r[2].x == -r[0].x - r[1].x && r[2].y == -r[0].y - r[1].y
    ensures Cross(r[0], r[1]) != 0.0
  {
    hide Cross;
    CrossOfThird(r[0], r[1], r[2]);
    CrossOfSame(r[0], r[1]);
    CrossOfSame(r[1], r[0]);
    CrossOfSame(r[2], r[0]);
  }
}
