/** The linear phase of the locator: weighted least squares over exact reals. */
module Trilateration {
  import opened Outcomes

  datatype Point = Point(x: real, y: real)

  function Minus(p: Point, q: Point): Point { Point(p.x - q.x, p.y - q.y) }

  function Cross(p: Point, q: Point): real { p.x * q.y - p.y * q.x }

  function Dot(p: Point, q: Point): real { p.x * q.x + p.y * q.y }

  function Square(p: Point): real { Dot(p, p) }

  // ----- the normal equation

  /** A 2x2 system with a symmetric matrix. */
  datatype System = System(xx: real, xy: real, yy: real, tx: real, ty: real)
  {
    function Det(): real { xx * yy - xy * xy }
  }

  function AddRow(s: System, w: real, a: Point, b: real): System {
    System(s.xx + w * a.x * a.x, s.xy + w * a.x * a.y, s.yy + w * a.y * a.y,
           s.tx + w * a.x * b, s.ty + w * a.y * b)
  }

  /** `A.t()*W*A` and `A.t()*W*b`, for the diagonal matrix of the weights. */
  function NormalSystem(rows: seq<Point>, b: seq<real>, w: seq<real>): System
    requires |rows| == |b| == |w|
  {
    if rows == [] then System(0.0, 0.0, 0.0, 0.0, 0.0)
    else AddRow(NormalSystem(rows[1..], b[1..], w[1..]), w[0], rows[0], b[0])
  }

  /** What the exact reals leave open about `double` arithmetic: the square root, whether
      the approximate solver for singular systems fails to converge, in which iterations
      an update leaves the finite range, and whether solving a system that contains NaN
      throws or yields a step that is not finite. */
  datatype Arithmetic =
    Arithmetic(sqrt: real -> real, svdFails: System -> bool, overflows: nat -> bool, nanThrows: bool)

  /** The least-squares solution of least norm of a singular system: its matrix,
      divided by the square of its trace, is then its own pseudo-inverse. */
  function LeastNorm(s: System): Point {
    var t := s.xx + s.yy;
    if t == 0.0 then Point(0.0, 0.0)
    else Point((s.xx * s.tx + s.xy * s.ty) / (t * t), (s.xy * s.tx + s.yy * s.ty) / (t * t))
  }

  /** `arma::solve` of a 2x2 system, which goes on to an approximate solution where the
      system is singular. */
  function Solve(arith: Arithmetic, s: System): Result<Point> {
    if s.Det() != 0.0 then
      Ok(Point((s.tx * s.yy - s.ty * s.xy) / s.Det(), (s.xx * s.ty - s.xy * s.tx) / s.Det()))
    else if arith.svdFails(s) then Err(OtherError(0))
    else Ok(LeastNorm(s))
  }

  /** `solve_normal_equation`. */
  function SolveNormalEquation(arith: Arithmetic, rows: seq<Point>, b: seq<real>, w: seq<real>): Result<Point>
    requires |rows| == |b| == |w|
  {
    Solve(arith, NormalSystem(rows, b, w))
  }

  predicate Solves(s: System, p: Point) {
    s.xx * p.x + s.xy * p.y == s.tx && s.xy * p.x + s.yy * p.y == s.ty
  }

  lemma QuotientIs(u: real, d: real, x: real)
    requires d != 0.0 && u == d * x
    ensures u / d == x
  {
  }

  lemma CramerForward(arith: Arithmetic, s: System, p: Point)
    requires s.Det() != 0.0 && Solves(s, p)
    ensures Solve(arith, s) == Ok(p)
  {
    var u, v := s.tx * s.yy - s.ty * s.xy, s.xx * s.ty - s.xy * s.tx;
    assert (s.xx * p.x + s.xy * p.y) * s.yy - (s.xy * p.x + s.yy * p.y) * s.xy == s.Det() * p.x;
    assert s.xx * (s.xy * p.x + s.yy * p.y) - s.xy * (s.xx * p.x + s.xy * p.y) == s.Det() * p.y;
    QuotientIs(u, s.Det(), p.x);
    QuotientIs(v, s.Det(), p.y);
    assert Solve(arith, s).value == Point(u / s.Det(), v / s.Det()) == p;
  }

  lemma CramerBackward(arith: Arithmetic, s: System)
    requires s.Det() != 0.0
    ensures Solve(arith, s).Ok? && Solves(s, Solve(arith, s).value)
  {
    var d, p := s.Det(), Solve(arith, s).value;
    var u, v := s.tx * s.yy - s.ty * s.xy, s.xx * s.ty - s.xy * s.tx;
    assert d * p.x == u && d * p.y == v;
    assert d * (s.xx * p.x + s.xy * p.y) == s.xx * u + s.xy * v by {
      assert d * (s.xx * p.x + s.xy * p.y) == s.xx * (d * p.x) + s.xy * (d * p.y);
    }
    assert s.xx * u + s.xy * v == d * s.tx;
    Cancel(d, s.xx * p.x + s.xy * p.y, s.tx);
    assert d * (s.xy * p.x + s.yy * p.y) == s.xy * u + s.yy * v by {
      assert d * (s.xy * p.x + s.yy * p.y) == s.xy * (d * p.x) + s.yy * (d * p.y);
    }
    assert s.xy * u + s.yy * v == d * s.ty;
    Cancel(d, s.xy * p.x + s.yy * p.y, s.ty);
  }

  lemma Cancel(d: real, x: real, y: real)
    requires d != 0.0 && d * x == d * y
    ensures x == y
  {
    QuotientIs(d * x, d, x);
    QuotientIs(d * y, d, y);
  }

  // ----- the determinant is a sum of squares

  function Times(x: real, y: real): real { x * y }

  lemma TimesSign(x: real, y: real)
    ensures x > 0.0 && y > 0.0 ==> Times(x, y) > 0.0
    ensures x < 0.0 && y < 0.0 ==> Times(x, y) > 0.0
    ensures x == 0.0 || y == 0.0 ==> Times(x, y) == 0.0
  {
    if x < 0.0 && y < 0.0 { assert Times(x, y) == (-x) * (-y); }
  }

  function Sq(c: real): (r: real)
    ensures r >= 0.0 && (c != 0.0 ==> r > 0.0) && (c == 0.0 ==> r == 0.0)
  {
    TimesSign(c, c);
    Times(c, c)
  }

  function Term(v: real, w: real, c: real): real { v * w * Sq(c) }

  /** The terms of one row against the rows behind it. */
  function PairsWith(a: Point, v: real, rows: seq<Point>, w: seq<real>): real
    requires |rows| == |w|
  {
    if rows == [] then 0.0 else Term(v, w[0], Cross(a, rows[0])) + PairsWith(a, v, rows[1..], w[1..])
  }

  /** The sum over all pairs i < j of w_i * w_j * (cross product of rows i, j)^2. */
  function PairSum(rows: seq<Point>, w: seq<real>): real
    requires |rows| == |w|
  {
    if rows == [] then 0.0 else PairsWith(rows[0], w[0], rows[1..], w[1..]) + PairSum(rows[1..], w[1..])
  }

  function Form(a: Point, s: System): real {
    a.x * a.x * s.yy - 2.0 * a.x * a.y * s.xy + a.y * a.y * s.xx
  }

  lemma FormGrows(a: Point, s: System, w: real, r: Point, b: real)
    ensures Form(a, AddRow(s, w, r, b)) == Form(a, s) + w * Sq(Cross(a, r))
  {
  }

  lemma Distribute(v: real, x: real, w: real, c: real)
    ensures v * (x + w * c) == v * w * c + v * x
  {
  }

  lemma FormOfAddRow(v: real, a: Point, s: System, w: real, r: Point, b: real)
    ensures v * Form(a, AddRow(s, w, r, b)) == Term(v, w, Cross(a, r)) + v * Form(a, s)
  {
    hide Form, AddRow, Sq, Cross;
    FormGrows(a, s, w, r, b);
    Distribute(v, Form(a, s), w, Sq(Cross(a, r)));
  }

  lemma {:induction false} PairsWithIsForm(a: Point, v: real, rows: seq<Point>, b: seq<real>, w: seq<real>)
    requires |rows| == |b| == |w|
    ensures PairsWith(a, v, rows, w) == v * Form(a, NormalSystem(rows, b, w))
  {
    if rows != [] {
      PairsWithIsForm(a, v, rows[1..], b[1..], w[1..]);
      FormOfAddRow(v, a, NormalSystem(rows[1..], b[1..], w[1..]), w[0], rows[0], b[0]);
    }
  }

  lemma DetOfAddRow(s: System, w: real, a: Point, b: real, pairs: real, rest: real)
    requires pairs == w * Form(a, s) && s.Det() == rest
    ensures AddRow(s, w, a, b).Det() == pairs + rest
  {
  }

  lemma DetStep(a: Point, v: real, c: real, rows: seq<Point>, b: seq<real>, w: seq<real>)
    requires |rows| == |b| == |w|
    requires NormalSystem(rows, b, w).Det() == PairSum(rows, w)
    ensures AddRow(NormalSystem(rows, b, w), v, a, c).Det() == PairsWith(a, v, rows, w) + PairSum(rows, w)
  {
    hide *;
    PairsWithIsForm(a, v, rows, b, w);
    DetOfAddRow(NormalSystem(rows, b, w), v, a, c, PairsWith(a, v, rows, w), PairSum(rows, w));
  }

  lemma {:induction false} DetIsPairSum(rows: seq<Point>, b: seq<real>, w: seq<real>)
    requires |rows| == |b| == |w|
    ensures NormalSystem(rows, b, w).Det() == PairSum(rows, w)
  {
    if rows != [] {
      DetIsPairSum(rows[1..], b[1..], w[1..]);
      DetStep(rows[0], w[0], b[0], rows[1..], b[1..], w[1..]);
    }
  }

  predicate Positive(w: seq<real>) { forall i | 0 <= i < |w| :: w[i] > 0.0 }

  lemma ProductSign(x: real, y: real)
    requires x > 0.0 && y >= 0.0
    ensures x * y >= 0.0 && (x * y == 0.0 <==> y == 0.0)
  {
  }

  lemma TermSign(v: real, w: real, c: real)
    requires v > 0.0 && w > 0.0
    ensures Term(v, w, c) >= 0.0 && (Term(v, w, c) == 0.0 <==> c == 0.0)
  {
    ProductSign(v, w);
    ProductSign(v * w, Sq(c));
  }

  predicate AnySkewTo(a: Point, rows: seq<Point>) {
    exists i | 0 <= i < |rows| :: Cross(a, rows[i]) != 0.0
  }

  lemma AnySkewSplits(a: Point, rows: seq<Point>)
    requires rows != []
    ensures AnySkewTo(a, rows) <==> Cross(a, rows[0]) != 0.0 || AnySkewTo(a, rows[1..])
  {
    if i :| 0 <= i < |rows[1..]| && Cross(a, rows[1..][i]) != 0.0 {
      assert Cross(a, rows[i + 1]) != 0.0;
    }
    if i :| 0 <= i < |rows| && Cross(a, rows[i]) != 0.0 {
      if i > 0 { assert Cross(a, rows[1..][i - 1]) != 0.0; }
    }
  }

  lemma {:induction false} PairsWithPositive(a: Point, v: real, rows: seq<Point>, w: seq<real>)
    requires |rows| == |w| && v > 0.0 && Positive(w)
    ensures PairsWith(a, v, rows, w) >= 0.0
    ensures PairsWith(a, v, rows, w) > 0.0 <==> AnySkewTo(a, rows)
  {
    if rows != [] {
      PairsWithPositive(a, v, rows[1..], w[1..]);
      TermSign(v, w[0], Cross(a, rows[0]));
      AnySkewSplits(a, rows);
    }
  }

  predicate Skew(rows: seq<Point>, i: int, j: int) {
    0 <= i < |rows| && 0 <= j < |rows| && Cross(rows[i], rows[j]) != 0.0
  }

  /** The determinant is positive exactly when some two rows are not parallel. */
  lemma {:induction false} PairSumPositive(rows: seq<Point>, w: seq<real>)
    requires |rows| == |w| && Positive(w)
    ensures PairSum(rows, w) >= 0.0
    ensures PairSum(rows, w) > 0.0 <==> exists i, j :: Skew(rows, i, j)
  {
    if rows == [] {
    } else {
      var a, rest := rows[0], rows[1..];
      PairSumPositive(rest, w[1..]);
      PairsWithPositive(a, w[0], rest, w[1..]);
      if PairSum(rows, w) > 0.0 {
        if AnySkewTo(a, rest) {
          var k :| 0 <= k < |rest| && Cross(a, rest[k]) != 0.0;
          assert Skew(rows, 0, k + 1);
        } else {
          var i, j :| Skew(rest, i, j);
          assert Skew(rows, i + 1, j + 1);
        }
      }
      if i, j :| Skew(rows, i, j) {
        SkewSplits(rows, i, j);
      }
    }
  }

  lemma SkewSplits(rows: seq<Point>, i: int, j: int)
    requires Skew(rows, i, j)
    ensures AnySkewTo(rows[0], rows[1..]) || Skew(rows[1..], i - 1, j - 1)
  {
    var rest := rows[1..];
    if i == 0 && j > 0 {
      assert rest[j - 1] == rows[j];
    } else if i > 0 && j == 0 {
      assert rest[i - 1] == rows[i];
      assert Cross(rows[0], rows[i]) == -Cross(rows[i], rows[0]);
    } else if i > 0 && j > 0 {
      assert rest[i - 1] == rows[i] && rest[j - 1] == rows[j];
    }
  }

  // ----- least squares

  /** The weighted sum of squared residuals that the solution should minimise. */
  function Residual(rows: seq<Point>, b: seq<real>, w: seq<real>, p: Point): real
    requires |rows| == |b| == |w|
  {
    if rows == [] then 0.0
    else w[0] * Sq(Dot(rows[0], p) - b[0]) + Residual(rows[1..], b[1..], w[1..], p)
  }

  /** The same without right-hand side: how far a displacement is seen by the rows. */
  function Spread(rows: seq<Point>, w: seq<real>, d: Point): real
    requires |rows| == |w|
  {
    if rows == [] then 0.0 else w[0] * Sq(Dot(rows[0], d)) + Spread(rows[1..], w[1..], d)
  }

  /** The left-hand sides of the system at `p`, less its right-hand sides. */
  function GapX(s: System, p: Point): real { s.xx * p.x + s.xy * p.y - s.tx }

  function GapY(s: System, p: Point): real { s.xy * p.x + s.yy * p.y - s.ty }

  /** How far `p` is from solving the system, measured along `d`. */
  function Slope(s: System, p: Point, d: Point): real {
    d.x * GapX(s, p) + d.y * GapY(s, p)
  }

  function Plus(p: Point, q: Point): Point { Point(p.x + q.x, p.y + q.y) }

  lemma SlopeSplits(d: Point, u: real, v: real, w: real, a: Point, r: real, u': real, v': real)
    requires u' == u + w * a.x * r && v' == v + w * a.y * r
    ensures d.x * u' + d.y * v' == d.x * u + d.y * v + w * (Dot(a, d) * r)
  {
  }

  lemma GapsOfAddRow(s: System, w: real, a: Point, b: real, p: Point)
    ensures GapX(AddRow(s, w, a, b), p) == GapX(s, p) + w * a.x * (Dot(a, p) - b)
    ensures GapY(AddRow(s, w, a, b), p) == GapY(s, p) + w * a.y * (Dot(a, p) - b)
  {
  }

  lemma SlopeOfAddRow(s: System, w: real, a: Point, b: real, p: Point, d: Point)
    ensures Slope(AddRow(s, w, a, b), p, d) - Slope(s, p, d) == w * (Dot(a, d) * (Dot(a, p) - b))
  {
    hide AddRow, Dot, GapX, GapY;
    GapsOfAddRow(s, w, a, b, p);
    SlopeSplits(d, GapX(s, p), GapY(s, p), w, a, Dot(a, p) - b,
                GapX(AddRow(s, w, a, b), p), GapY(AddRow(s, w, a, b), p));
  }

  lemma SquareOfSum(w: real, u: real, v: real)
    ensures w * Sq(u + v) == w * Sq(u) + 2.0 * (w * (v * u)) + w * Sq(v)
  {
  }

  lemma DotOfPlus(a: Point, p: Point, d: Point)
    ensures Dot(a, Plus(p, d)) == Dot(a, p) + Dot(a, d)
  {
  }

  lemma ResidualStep(s: System, w: real, a: Point, b: real, p: Point, d: Point)
    ensures w * Sq(Dot(a, Plus(p, d)) - b) == w * Sq(Dot(a, p) - b)
            + 2.0 * (Slope(AddRow(s, w, a, b), p, d) - Slope(s, p, d)) + w * Sq(Dot(a, d))
  {
    hide *;
    SlopeOfAddRow(s, w, a, b, p, d);
    SquareOfSum(w, Dot(a, p) - b, Dot(a, d));
    DotOfPlus(a, p, d);
    assert Dot(a, Plus(p, d)) - b == (Dot(a, p) - b) + Dot(a, d);
  }

  lemma {:induction false} ResidualExpands(rows: seq<Point>, b: seq<real>, w: seq<real>, p: Point, d: Point)
    requires |rows| == |b| == |w|
    ensures Residual(rows, b, w, Plus(p, d)) ==
            Residual(rows, b, w, p) + 2.0 * Slope(NormalSystem(rows, b, w), p, d) + Spread(rows, w, d)
  {
    if rows != [] {
      ResidualExpands(rows[1..], b[1..], w[1..], p, d);
      ResidualStep(NormalSystem(rows[1..], b[1..], w[1..]), w[0], rows[0], b[0], p, d);
    }
  }

  lemma {:induction false} SpreadIsNonNegative(rows: seq<Point>, w: seq<real>, d: Point)
    requires |rows| == |w| && Positive(w)
    ensures Spread(rows, w, d) >= 0.0
  {
    if rows != [] {
      SpreadIsNonNegative(rows[1..], w[1..], d);
      ProductSign(w[0], Sq(Dot(rows[0], d)));
    }
  }

  lemma NoSlope(s: System, p: Point, d: Point)
    requires Solves(s, p)
    ensures Slope(s, p, d) == 0.0
  {
  }

  // ----- singular systems

  /** The product of the matrix with a vector. */
  function Apply(s: System, v: Point): Point { Point(s.xx * v.x + s.xy * v.y, s.xy * v.x + s.yy * v.y) }

  /** The right-hand side. */
  function Target(s: System): Point { Point(s.tx, s.ty) }

  function Gap(s: System, p: Point): Point { Point(GapX(s, p), GapY(s, p)) }

  function Stretch(c: real, p: Point): Point { Point(c * p.x, c * p.y) }

  const ORIGIN := Point(0.0, 0.0)

  lemma SquareSplits(p: Point)
    ensures Square(p) == Sq(p.x) + Sq(p.y)
  {
  }

  lemma SquaresVanish(p: Point)
    requires Square(p) == 0.0
    ensures p == ORIGIN
  {
    hide Square, Sq;
    SquareSplits(p);
  }

  lemma TracelessIsZero(s: System)
    requires s.Det() == 0.0 && s.xx + s.yy == 0.0
    ensures s.xx == 0.0 && s.xy == 0.0 && s.yy == 0.0
  {
    assert s.yy == -s.xx;
    assert Square(Point(s.xx, s.xy)) == -s.Det();
    SquaresVanish(Point(s.xx, s.xy));
  }

  /** A singular matrix applied twice is its trace times the matrix applied once. */
  lemma AppliedTwice(s: System, t: real, v: Point)
    requires s.Det() == 0.0 && t == s.xx + s.yy
    ensures Apply(s, Apply(s, v)) == Stretch(t, Apply(s, v))
  {
    assert s.xy * s.xy == s.xx * s.yy;
    var p, q := s.xx * v.x + s.xy * v.y, s.xy * v.x + s.yy * v.y;
    assert s.xy * q == (s.xy * s.xy) * v.x + s.xy * s.yy * v.y;
    assert s.xy * q == s.yy * p;
    assert s.xy * p == s.xx * s.xy * v.x + (s.xy * s.xy) * v.y;
    assert s.xy * p == s.xx * q;
  }

  lemma ApplyStretch(s: System, c: real, v: Point)
    ensures Apply(s, Stretch(c, v)) == Stretch(c, Apply(s, v))
  {
  }

  lemma StretchCancels(c: real, p: Point, q: Point)
    requires c != 0.0 && Stretch(c, p) == Stretch(c, q)
    ensures p == q
  {
    Cancel(c, p.x, q.x);
    Cancel(c, p.y, q.y);
  }

  lemma StretchTwice(c: real, e: real, p: Point)
    requires e == c * c
    ensures Stretch(c, Stretch(c, p)) == Stretch(e, p)
  {
  }

  lemma LeastNormStretched(s: System, t: real, e: real)
    requires t == s.xx + s.yy && t != 0.0 && e == t * t
    ensures e != 0.0 && Stretch(e, LeastNorm(s)) == Apply(s, Target(s))
  {
    assert Sq(t) == t * t;
  }

  lemma ApplyGap(s: System, p: Point)
    ensures Apply(s, Gap(s, p)) == Minus(Apply(s, Apply(s, p)), Apply(s, Target(s)))
  {
    var a, t := Apply(s, p), Target(s);
    assert Gap(s, p) == Minus(a, t);
    ApplyMinus(s, a, t);
  }

  lemma ApplyMinus(s: System, a: Point, b: Point)
    ensures Apply(s, Minus(a, b)) == Minus(Apply(s, a), Apply(s, b))
  {
  }

  lemma ThriceApplied(s: System, t: real, e: real, b: Point, p: Point)
    requires s.Det() == 0.0 && t == s.xx + s.yy && e == t * t && e != 0.0
    requires Stretch(e, p) == Apply(s, b)
    ensures Apply(s, Apply(s, p)) == Apply(s, b)
  {
    hide Apply, Stretch;
    ApplyStretch(s, e, p);
    ApplyStretch(s, e, Apply(s, p));
    AppliedTwice(s, t, b);
    AppliedTwice(s, t, Apply(s, b));
    StretchTwice(t, e, Apply(s, b));
    StretchCancels(e, Apply(s, Apply(s, p)), Apply(s, b));
  }

  /** What the solution of least norm misses is orthogonal to all that the matrix
      can reach. */
  lemma GapIsOrthogonal(s: System)
    requires s.Det() == 0.0
    ensures Apply(s, Gap(s, LeastNorm(s))) == ORIGIN
  {
    var t, p := s.xx + s.yy, LeastNorm(s);
    if t == 0.0 {
      TracelessIsZero(s);
    } else {
      hide Apply, Stretch, LeastNorm, Gap;
      LeastNormStretched(s, t, t * t);
      ThriceApplied(s, t, t * t, Target(s), p);
      ApplyGap(s, p);
    }
  }

  lemma Symmetric(s: System, u: Point, v: Point)
    ensures Dot(Apply(s, u), v) == Dot(u, Apply(s, v))
  {
  }

  lemma GapAfter(s: System, p: Point, d: Point)
    ensures Gap(s, Plus(p, d)) == Plus(Gap(s, p), Apply(s, d))
  {
  }

  lemma SquareOfPlus(p: Point, q: Point)
    ensures Square(Plus(p, q)) == Square(p) + 2.0 * Dot(p, q) + Square(q)
  {
  }

  lemma SquareSign(p: Point)
    ensures Square(p) >= 0.0
  {
    hide Square, Sq;
    SquareSplits(p);
  }

  lemma GapSplits(s: System, q: Point)
    requires s.Det() == 0.0
    ensures var p := LeastNorm(s); Square(Gap(s, q)) == Square(Gap(s, p)) + Square(Apply(s, Minus(q, p)))
  {
    var p := LeastNorm(s);
    var d := Minus(q, p);
    assert Plus(p, d) == q;
    GapAfter(s, p, d);
    SquareOfPlus(Gap(s, p), Apply(s, d));
    GapIsOrthogonal(s);
    Symmetric(s, Gap(s, p), d);
    assert Dot(ORIGIN, d) == 0.0;
  }

  lemma DotOfStretch(e: real, p: Point, d: Point)
    requires e != 0.0 && Dot(Stretch(e, p), d) == 0.0
    ensures Dot(p, d) == 0.0
  {
    assert Dot(Stretch(e, p), d) == e * Dot(p, d);
    ZeroFactor(e, Dot(p, d));
  }

  /** The solution of least norm is orthogonal to what the matrix does not see. */
  lemma LeastNormIsOrthogonal(s: System, d: Point)
    requires s.Det() == 0.0 && Apply(s, d) == ORIGIN
    ensures Dot(LeastNorm(s), d) == 0.0
  {
    var t := s.xx + s.yy;
    DotOfOrigin(d);
    if t != 0.0 {
      hide LeastNorm, Stretch, Dot, Apply;
      LeastNormStretched(s, t, t * t);
      Symmetric(s, Target(s), d);
      DotOfOrigin(Target(s));
      DotOfStretch(t * t, LeastNorm(s), d);
    }
  }

  lemma ZeroFactor(n: real, c: real)
    requires n != 0.0 && n * c == 0.0
    ensures c == 0.0
  {
  }

  lemma FartherOut(p: Point, q: Point)
    requires Dot(p, Minus(q, p)) == 0.0
    ensures Square(p) <= Square(q)
  {
    var d := Minus(q, p);
    assert Plus(p, d) == q;
    SquareOfPlus(p, d);
    SquareSign(d);
  }

  /** On a singular system the answer misses the right-hand side by as little as
      possible, and of all points that do so it is the nearest to the origin. */
  lemma LeastNormIsBest(s: System, q: Point)
    requires s.Det() == 0.0
    ensures Square(Gap(s, LeastNorm(s))) <= Square(Gap(s, q))
    ensures Square(Gap(s, q)) == Square(Gap(s, LeastNorm(s))) ==> Square(LeastNorm(s)) <= Square(q)
  {
    hide LeastNorm, Square, Gap;
    var p := LeastNorm(s);
    var d := Minus(q, p);
    GapSplits(s, q);
    SquareSign(Apply(s, d));
    if Square(Gap(s, q)) == Square(Gap(s, p)) {
      SquaresVanish(Apply(s, d));
      LeastNormIsOrthogonal(s, d);
      FartherOut(p, q);
    }
  }

  // ----- the normal equation always has a solution

  lemma SpreadStep(s: System, w: real, a: Point, b: real, d: Point)
    ensures Dot(d, Apply(AddRow(s, w, a, b), d)) == w * Sq(Dot(a, d)) + Dot(d, Apply(s, d))
  {
  }

  lemma {:induction false} SpreadIsForm(rows: seq<Point>, b: seq<real>, w: seq<real>, d: Point)
    requires |rows| == |b| == |w|
    ensures Spread(rows, w, d) == Dot(d, Apply(NormalSystem(rows, b, w), d))
  {
    if rows == [] {
    } else {
      SpreadIsForm(rows[1..], b[1..], w[1..], d);
      SpreadStep(NormalSystem(rows[1..], b[1..], w[1..]), w[0], rows[0], b[0], d);
    }
  }

  /** A displacement without spread is seen by no row. */
  lemma {:induction false} NoSpread(rows: seq<Point>, w: seq<real>, d: Point)
    requires |rows| == |w| && Positive(w) && Spread(rows, w, d) == 0.0
    ensures forall i | 0 <= i < |rows| :: Dot(rows[i], d) == 0.0
  {
    if rows != [] {
      SpreadIsNonNegative(rows[1..], w[1..], d);
      ProductSign(w[0], Sq(Dot(rows[0], d)));
      NoSpread(rows[1..], w[1..], d);
      forall i | 0 <= i < |rows| ensures Dot(rows[i], d) == 0.0 {
        if i > 0 { assert rows[i] == rows[1..][i - 1]; }
      }
    }
  }

  lemma UnseenStep(s: System, w: real, a: Point, b: real, d: Point)
    requires Dot(a, d) == 0.0
    ensures Dot(d, Target(AddRow(s, w, a, b))) == Dot(d, Target(s))
    ensures Apply(AddRow(s, w, a, b), d) == Apply(s, d)
  {
    assert d.x * (w * a.x * b) + d.y * (w * a.y * b) == w * b * (a.x * d.x + a.y * d.y);
    assert w * a.x * a.x * d.x + w * a.x * a.y * d.y == w * a.x * (a.x * d.x + a.y * d.y);
    assert w * a.x * a.y * d.x + w * a.y * a.y * d.y == w * a.y * (a.x * d.x + a.y * d.y);
  }

  lemma {:induction false} UnseenByAll(rows: seq<Point>, b: seq<real>, w: seq<real>, d: Point)
    requires |rows| == |b| == |w| && forall i | 0 <= i < |rows| :: Dot(rows[i], d) == 0.0
    ensures Dot(d, Target(NormalSystem(rows, b, w))) == 0.0
    ensures Apply(NormalSystem(rows, b, w), d) == ORIGIN
  {
    if rows != [] {
      assert forall i | 0 <= i < |rows[1..]| :: rows[1..][i] == rows[i + 1];
      UnseenByAll(rows[1..], b[1..], w[1..], d);
      UnseenStep(NormalSystem(rows[1..], b[1..], w[1..]), w[0], rows[0], b[0], d);
    }
  }

  lemma GapSquared(s: System, p: Point)
    ensures Square(Gap(s, p)) == Dot(Apply(s, Gap(s, p)), p) - Dot(Gap(s, p), Target(s))
  {
    var g := Gap(s, p);
    Symmetric(s, g, p);
    assert g == Minus(Apply(s, p), Target(s));
    DotOfMinus(g, Apply(s, p), Target(s));
  }

  lemma DotOfMinus(g: Point, a: Point, b: Point)
    ensures Dot(g, Minus(a, b)) == Dot(g, a) - Dot(g, b)
  {
  }

  lemma NothingMissed(s: System, p: Point)
    requires Apply(s, Gap(s, p)) == ORIGIN && Dot(Gap(s, p), Target(s)) == 0.0
    ensures Solves(s, p)
  {
    assert Gap(s, p) == ORIGIN by {
      hide Gap, Dot, Square, Target;
      GapSquared(s, p);
      DotOfOrigin(p);
      SquaresVanish(Gap(s, p));
    }
  }

  /** What the matrix of the normal equation does not see is orthogonal to its
      right-hand side. */
  lemma UnseenIsOrthogonal(rows: seq<Point>, b: seq<real>, w: seq<real>, g: Point)
    requires |rows| == |b| == |w| && Positive(w) && Apply(NormalSystem(rows, b, w), g) == ORIGIN
    ensures Dot(g, Target(NormalSystem(rows, b, w))) == 0.0
  {
    hide Spread, Target, Dot, Apply, NormalSystem;
    SpreadIsForm(rows, b, w, g);
    DotOfOrigin(g);
    NoSpread(rows, w, g);
    UnseenByAll(rows, b, w, g);
  }

  /** With positive weights the answer solves the normal equation, singular or not. */
  lemma AnswerSolves(arith: Arithmetic, rows: seq<Point>, b: seq<real>, w: seq<real>)
    requires |rows| == |b| == |w| && Positive(w) && SolveNormalEquation(arith, rows, b, w).Ok?
    ensures Solves(NormalSystem(rows, b, w), SolveNormalEquation(arith, rows, b, w).value)
  {
    hide LeastNorm, Dot, Apply, Gap, NormalSystem, Target, Solves;
    var s := NormalSystem(rows, b, w);
    if s.Det() != 0.0 {
      CramerBackward(arith, s);
    } else {
      GapIsOrthogonal(s);
      UnseenIsOrthogonal(rows, b, w, Gap(s, LeastNorm(s)));
      NothingMissed(s, LeastNorm(s));
    }
  }

  lemma DotOfOrigin(p: Point)
    ensures Dot(ORIGIN, p) == 0.0 && Dot(p, ORIGIN) == 0.0
  {
  }

  /** The answer has the least weighted squared residual, and of all points with that
      residual it is the nearest to the origin. */
  lemma NormalEquationMinimises(arith: Arithmetic, rows: seq<Point>, b: seq<real>, w: seq<real>, q: Point)
    requires |rows| == |b| == |w| && Positive(w) && SolveNormalEquation(arith, rows, b, w).Ok?
    ensures var p := SolveNormalEquation(arith, rows, b, w).value;
            && Residual(rows, b, w, p) <= Residual(rows, b, w, q)
            && (Residual(rows, b, w, p) == Residual(rows, b, w, q) ==> Square(p) <= Square(q))
  {
    hide Residual, Spread, Square, Dot, Apply, Solve;
    var s, p := NormalSystem(rows, b, w), SolveNormalEquation(arith, rows, b, w).value;
    var d := Minus(q, p);
    AnswerSolves(arith, rows, b, w);
    NoSlope(s, p, d);
    ResidualExpands(rows, b, w, p, d);
    SpreadIsNonNegative(rows, w, d);
    assert Plus(p, d) == q;
    if Residual(rows, b, w, p) == Residual(rows, b, w, q) {
      NoSpread(rows, w, d);
      UnseenByAll(rows, b, w, d);
      NearestOf(arith, s, p, q);
    }
  }

  lemma NearestOf(arith: Arithmetic, s: System, p: Point, q: Point)
    requires Solve(arith, s) == Ok(p) && Apply(s, Minus(q, p)) == ORIGIN
    ensures Square(p) <= Square(q)
  {
    var d := Minus(q, p);
    if s.Det() == 0.0 {
      LeastNormIsOrthogonal(s, d);
      FartherOut(p, q);
    } else {
      RegularSeesAll(s, d);
    }
  }

  lemma RegularSeesAll(s: System, d: Point)
    requires s.Det() != 0.0 && Apply(s, d) == ORIGIN
    ensures d == ORIGIN
  {
    assert s.yy * (s.xx * d.x + s.xy * d.y) - s.xy * (s.xy * d.x + s.yy * d.y) == s.Det() * d.x;
    assert s.xx * (s.xy * d.x + s.yy * d.y) - s.xy * (s.xx * d.x + s.xy * d.y) == s.Det() * d.y;
    ZeroFactor(s.Det(), d.x);
    ZeroFactor(s.Det(), d.y);
  }

  /** If the equations have a common solution, the normal equation returns it. */
  lemma {:induction false} ConsistentSolves(rows: seq<Point>, b: seq<real>, w: seq<real>, p: Point)
    requires |rows| == |b| == |w| && forall i | 0 <= i < |rows| :: Dot(rows[i], p) == b[i]
    ensures Solves(NormalSystem(rows, b, w), p)
  {
    if rows != [] {
      assert forall i | 0 <= i < |rows[1..]| :: Dot(rows[1..][i], p) == b[1..][i];
      ConsistentSolves(rows[1..], b[1..], w[1..], p);
      AddConsistentRow(NormalSystem(rows[1..], b[1..], w[1..]), w[0], rows[0], b[0], p);
    }
  }

  lemma AddConsistentRow(s: System, w: real, a: Point, b: real, p: Point)
    requires Solves(s, p) && Dot(a, p) == b
    ensures Solves(AddRow(s, w, a, b), p)
  {
    assert w * a.x * b == w * a.x * (a.x * p.x + a.y * p.y);
    assert w * a.y * b == w * a.y * (a.x * p.x + a.y * p.y);
  }
}
