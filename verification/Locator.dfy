/** The locator: linear initialisation, damped Gauss-Newton refinement, and the
    object that keeps the anchors, the weights and the start between calls. */
module Locator {
  import opened Outcomes
  import opened Trilateration
  import opened LinearPhase

  const MIN_NORM: real := 0.001
  const MAX_IT: nat := 500
  const FRAC: real := 0.1

  ghost predicate IsSquareRoot(sqrt: real -> real) {
    forall x | x >= 0.0 :: sqrt(x) >= 0.0 && Sq(sqrt(x)) == x
  }

  // ----- one iteration

  datatype Step = Delta(delta: Point) | NotFinite | Throws

  function Distance(sqrt: real -> real, p: Point, a: Point): real {
    sqrt(Sq(p.x - a.x) + Sq(p.y - a.y))
  }

  function Scale(p: Point, c: real): Point
    requires c != 0.0
  {
    Point(p.x / c, p.y / c)
  }

  predicate AwayFrom(sqrt: real -> real, anchors: seq<Point>, est: Point) {
    forall i {:trigger Distance(sqrt, est, anchors[i])} | 0 <= i < |anchors| :: Distance(sqrt, est, anchors[i]) != 0.0
  }

  /** The vector f. */
  function Residuals(sqrt: real -> real, anchors: seq<Point>, ds: seq<real>, est: Point): (f: seq<real>)
    requires |anchors| == |ds|
    ensures |f| == |ds|
  {
    seq(|ds|, i requires 0 <= i < |ds| => Distance(sqrt, est, anchors[i]) - ds[i])
  }

  /** The matrix J. */
  function Jacobian(sqrt: real -> real, anchors: seq<Point>, est: Point): (j: seq<Point>)
    requires AwayFrom(sqrt, anchors, est)
    ensures |j| == |anchors|
    ensures forall i | 0 <= i < |j| :: j[i] == Scale(Minus(est, anchors[i]), Distance(sqrt, est, anchors[i]))
  {
    seq(|anchors|, i requires 0 <= i < |anchors| =>
      Scale(Minus(est, anchors[i]), Distance(sqrt, est, anchors[i])))
  }

  function GaussNewtonStep(arith: Arithmetic, anchors: seq<Point>, ds: seq<real>, w: seq<real>, est: Point): Step
    requires |anchors| == |ds| == |w|
  {
    if !AwayFrom(arith.sqrt, anchors, est) then
      if arith.nanThrows then Throws else NotFinite
    else
      var j, f := Jacobian(arith.sqrt, anchors, est), Residuals(arith.sqrt, anchors, ds, est);
      var d := SolveNormalEquation(arith, j, f, w);
      if d.Err? then Throws else Delta(d.value)
  }

  function Norm(sqrt: real -> real, d: Point): real { sqrt(Sq(d.x) + Sq(d.y)) }

  function Damped(est: Point, d: Point): Point { Point(est.x - FRAC * d.x, est.y - FRAC * d.y) }

  // ----- the loop

  /** How the loop ends, and after how many solves. */
  datatype Outcome = Outcome(answer: Result<Point>, solves: nat)

  function Iterate(arith: Arithmetic, anchors: seq<Point>, ds: seq<real>, w: seq<real>,
                   start: Point, est: Point, it: nat): (r: Outcome)
    requires |anchors| == |ds| == |w| && it < MAX_IT
    ensures it < r.solves <= MAX_IT
    decreases MAX_IT - it
  {
    match GaussNewtonStep(arith, anchors, ds, w, est)
    case Throws => Outcome(Err(OtherError(0)), it + 1)
    case NotFinite => Outcome(Ok(start), it + 1)
    case Delta(d) =>
      var next := Damped(est, d);
      if arith.overflows(it) then Outcome(Ok(start), it + 1)
      else if Norm(arith.sqrt, d) < MIN_NORM then Outcome(Ok(next), it + 1)
      else if it + 1 == MAX_IT then Outcome(Ok(next), it + 1)
      else Iterate(arith, anchors, ds, w, start, next, it + 1)
  }

  /** The inner loop: f and J, unless some distance is zero. */
  method Linearise(sqrt: real -> real, anchors: seq<Point>, ds: seq<real>, est: Point)
    returns (nan: bool, f: seq<real>, j: seq<Point>)
    requires |anchors| == |ds|
    ensures nan <==> !AwayFrom(sqrt, anchors, est)
    ensures !nan ==> f == Residuals(sqrt, anchors, ds, est) && j == Jacobian(sqrt, anchors, est)
  {
    nan, f, j := false, [], [];
    for i := 0 to |anchors|
      invariant nan <==> exists k | 0 <= k < i :: Distance(sqrt, est, anchors[k]) == 0.0
      invariant !nan ==> |f| == |j| == i
      invariant !nan ==> forall k | 0 <= k < i :: f[k] == Distance(sqrt, est, anchors[k]) - ds[k]
      invariant !nan ==> forall k | 0 <= k < i ::
                  && Distance(sqrt, est, anchors[k]) != 0.0
                  && j[k] == Scale(Minus(est, anchors[k]), Distance(sqrt, est, anchors[k]))
    {
      var temp := Distance(sqrt, est, anchors[i]);
      if temp == 0.0 {
        nan := true;
      } else if !nan {
        f := f + [temp - ds[i]];
        j := j + [Scale(Minus(est, anchors[i]), temp)];
      }
    }
  }

  /** `trilateration_nlls` on a planar start. */
  method TrilaterationNlls(arith: Arithmetic, anchors: seq<Point>, ds: seq<real>, w: seq<real>, start: Point)
    returns (answer: Result<Point>, solves: nat)
    requires |anchors| == |ds| == |w|
    ensures Outcome(answer, solves) == Iterate(arith, anchors, ds, w, start, start, 0)
    ensures solves <= 500
  {
    hide AwayFrom, Residuals, Jacobian, SolveNormalEquation;
    var est, stop, it := start, false, 0;
    answer, solves := Ok(start), 0;
    while !stop
      invariant 0 <= it <= MAX_IT && (!stop ==> it < MAX_IT && solves == it)
      invariant !stop ==>
                  Iterate(arith, anchors, ds, w, start, start, 0) == Iterate(arith, anchors, ds, w, start, est, it)
      invariant stop ==> answer == Ok(est) && Outcome(answer, solves) == Iterate(arith, anchors, ds, w, start, start, 0)
      decreases !stop, MAX_IT - it
    {
      var nan, f, j := Linearise(arith.sqrt, anchors, ds, est);
      solves := solves + 1;
      if nan {
        if arith.nanThrows { return Err(OtherError(0)), solves; }
        stop, est := true, start;
      } else {
        var delta := SolveNormalEquation(arith, j, f, w);
        if delta.Err? { return Err(OtherError(0)), solves; }
        est := Damped(est, delta.value);
        if arith.overflows(it) {
          stop, est := true, start;
        } else if Norm(arith.sqrt, delta.value) < MIN_NORM {
          stop := true;
        } else {
          it := it + 1;
          if it == MAX_IT { stop := true; }
        }
      }
      answer := Ok(est);
    }
  }

  /** The estimate after `k` damped steps. */
  function Estimate(arith: Arithmetic, anchors: seq<Point>, ds: seq<real>, w: seq<real>,
                    est: Point, k: nat): Result<Point>
    requires |anchors| == |ds| == |w|
    decreases k
  {
    if k == 0 then Ok(est)
    else
      match GaussNewtonStep(arith, anchors, ds, w, est)
      case Delta(d) => Estimate(arith, anchors, ds, w, Damped(est, d), k - 1)
      case _ => Err(OtherError(0))
  }

  /** The loop goes on after iteration `it` from this estimate. */
  predicate GoesOn(arith: Arithmetic, anchors: seq<Point>, ds: seq<real>, w: seq<real>, est: Point, it: nat)
    requires |anchors| == |ds| == |w|
  {
    var s := GaussNewtonStep(arith, anchors, ds, w, est);
    s.Delta? && !arith.overflows(it) && Norm(arith.sqrt, s.delta) >= MIN_NORM && it + 1 < MAX_IT
  }

  /** What a last iteration from this estimate answers. */
  function LastAnswer(arith: Arithmetic, anchors: seq<Point>, ds: seq<real>, w: seq<real>,
                      start: Point, est: Point, it: nat): Result<Point>
    requires |anchors| == |ds| == |w|
  {
    match GaussNewtonStep(arith, anchors, ds, w, est)
    case Throws => Err(OtherError(0))
    case NotFinite => Ok(start)
    case Delta(d) => if arith.overflows(it) then Ok(start) else Ok(Damped(est, d))
  }

  /** The loop follows the damped steps up to the first iteration after which it does not
      go on, and answers what that one yields: an exception, the start where the
      estimate left the finite range, or one more damped step, which is then shorter
      than the threshold or the last one allowed. */
  lemma {:induction false} AnswersExplained(arith: Arithmetic, anchors: seq<Point>, ds: seq<real>, w: seq<real>,
                                            start: Point, est: Point, it: nat)
    requires |anchors| == |ds| == |w| && it < MAX_IT
    ensures var r := Iterate(arith, anchors, ds, w, start, est, it);
            var n := r.solves - it - 1;
            && (forall k | 0 <= k <= n :: Estimate(arith, anchors, ds, w, est, k).Ok?)
            && (forall k | 0 <= k < n ::
                  GoesOn(arith, anchors, ds, w, Estimate(arith, anchors, ds, w, est, k).value, it + k))
            && var last := Estimate(arith, anchors, ds, w, est, n).value;
               && !GoesOn(arith, anchors, ds, w, last, it + n)
               && r.answer == LastAnswer(arith, anchors, ds, w, start, last, it + n)
    decreases MAX_IT - it
  {
    hide GaussNewtonStep, Norm;
    if GoesOn(arith, anchors, ds, w, est, it) {
      var next := Damped(est, GaussNewtonStep(arith, anchors, ds, w, est).delta);
      AnswersExplained(arith, anchors, ds, w, start, next, it + 1);
      var n := Iterate(arith, anchors, ds, w, start, est, it).solves - it - 1;
      forall k | 0 <= k <= n
        ensures Estimate(arith, anchors, ds, w, est, k).Ok?
        ensures k < n ==> GoesOn(arith, anchors, ds, w, Estimate(arith, anchors, ds, w, est, k).value, it + k)
      {
        if k > 0 {
          assert Estimate(arith, anchors, ds, w, est, k) == Estimate(arith, anchors, ds, w, next, k - 1);
        }
      }
      assert Estimate(arith, anchors, ds, w, est, n) == Estimate(arith, anchors, ds, w, next, n - 1);
    }
  }

  lemma SquareRootOrder(sqrt: real -> real, x: real, y: real)
    requires IsSquareRoot(sqrt) && x >= 0.0 && y >= 0.0
    ensures sqrt(x) < y <==> x < Sq(y)
  {
    SquaresOrder(sqrt(x), y);
  }

  lemma SquaresOrder(x: real, y: real)
    requires x >= 0.0 && y >= 0.0
    ensures x < y <==> Sq(x) < Sq(y)
  {
    assert Sq(y) - Sq(x) == (y - x) * (y + x);
    if x < y {
      TimesSign(y - x, y + x);
      assert Times(y - x, y + x) == (y - x) * (y + x);
    } else {
      assert (x - y) * (y + x) >= 0.0 by { ProductNotNegative(x - y, y + x); }
      assert (x - y) * (y + x) == -((y - x) * (y + x));
    }
  }

  lemma ProductNotNegative(x: real, y: real)
    requires x >= 0.0 && y >= 0.0
    ensures x * y >= 0.0
  {
  }

  /** The stopping rule in numbers: a step shorter than a thousandth, or 500 iterations. */
  lemma GoesOnMeans(arith: Arithmetic, anchors: seq<Point>, ds: seq<real>, w: seq<real>, est: Point, it: nat)
    requires |anchors| == |ds| == |w| && IsSquareRoot(arith.sqrt)
    ensures var s := GaussNewtonStep(arith, anchors, ds, w, est);
            GoesOn(arith, anchors, ds, w, est, it) <==>
            s.Delta? && !arith.overflows(it) && Sq(s.delta.x) + Sq(s.delta.y) >= 0.000001 && it + 1 < 500
  {
    hide GaussNewtonStep;
    var s := GaussNewtonStep(arith, anchors, ds, w, est);
    if s.Delta? {
      SquareRootOrder(arith.sqrt, Sq(s.delta.x) + Sq(s.delta.y), 0.001);
      assert Sq(0.001) == 0.000001;
    }
  }

  // ----- what a step does

  lemma Lagrange(u: Point, v: Point)
    ensures Sq(Dot(u, v)) + Sq(Cross(u, v)) == Square(u) * Square(v)
  {
    assert (u.x * v.x + u.y * v.y) * (u.x * v.x + u.y * v.y) + (u.x * v.y - u.y * v.x) * (u.x * v.y - u.y * v.x)
        == (u.x * u.x + u.y * u.y) * (v.x * v.x + v.y * v.y);
  }

  lemma SqOfProduct(x: real, y: real)
    ensures Sq(x * y) == Sq(x) * Sq(y)
  {
    assert (x * y) * (x * y) == (x * x) * (y * y);
  }

  /** The Cauchy-Schwarz inequality for lengths given by their squares. */
  lemma CauchySchwarz(u: Point, v: Point, d: real, e: real)
    requires d >= 0.0 && e >= 0.0 && Sq(d) == Square(u) && Sq(e) == Square(v)
    ensures Dot(u, v) <= d * e
  {
    hide Dot, Square, Cross, Sq;
    Lagrange(u, v);
    SqOfProduct(d, e);
    ProductNotNegative(d, e);
    EqualFactors(Sq(d), Square(u), Sq(e), Square(v));
    if Dot(u, v) > d * e { SquaresOrder(d * e, Dot(u, v)); }
  }

  lemma EqualFactors(a: real, b: real, x: real, y: real)
    requires a == b && x == y
    ensures a * x == b * y
  {
  }

  lemma DistanceSquared(sqrt: real -> real, p: Point, a: Point)
    requires IsSquareRoot(sqrt)
    ensures Distance(sqrt, p, a) >= 0.0 && Sq(Distance(sqrt, p, a)) == Square(Minus(p, a))
  {
    assert Square(Minus(p, a)) == Sq(p.x - a.x) + Sq(p.y - a.y);
  }

  lemma ScaledDot(u: Point, d: real, h: Point)
    requires d != 0.0
    ensures d * Dot(Scale(u, d), h) == Dot(u, h)
  {
    assert d * (u.x / d) == u.x && d * (u.y / d) == u.y;
    assert d * Dot(Scale(u, d), h) == (d * (u.x / d)) * h.x + (d * (u.y / d)) * h.y;
  }

  lemma SquareOfStretch(d: real, v: Point, e: real)
    requires e == d * d
    ensures Square(Stretch(d, v)) == e * Square(v)
  {
    assert (d * v.x) * (d * v.x) + (d * v.y) * (d * v.y) == (d * d) * (v.x * v.x + v.y * v.y);
  }

  lemma StretchOfScale(u: Point, d: real)
    requires d != 0.0
    ensures Stretch(d, Scale(u, d)) == u
  {
  }

  lemma ScaledUnit(u: Point, d: real)
    requires d != 0.0 && Sq(d) == Square(u)
    ensures Square(Scale(u, d)) == 1.0
  {
    assert Sq(d) == d * d;
    hide Square, Scale, Stretch, Sq;
    StretchOfScale(u, d);
    SquareOfStretch(d, Scale(u, d), d * d);
    Cancel(d * d, Square(Scale(u, d)), 1.0);
  }

  lemma MonotoneProduct(d: real, x: real, y: real)
    requires d > 0.0 && x > y
    ensures d * x > d * y
  {
    TimesSign(d, x - y);
    assert Times(d, x - y) == d * x - d * y;
  }

  lemma Divide(d: real, x: real, y: real)
    requires d > 0.0 && d * x <= d * y
    ensures x <= y
  {
    if x > y { MonotoneProduct(d, x, y); }
  }

  /** The rows of J are the directions away from the anchors, and the linear model of a
      residual touches it from below: J is its gradient.  So f and J are the value and
      the derivative of what the loop is to make small. */
  lemma LinearisationMeans(sqrt: real -> real, anchors: seq<Point>, ds: seq<real>, est: Point, h: Point, i: nat)
    requires IsSquareRoot(sqrt) && |anchors| == |ds| && i < |ds| && AwayFrom(sqrt, anchors, est)
    ensures var f, j := Residuals(sqrt, anchors, ds, est)[i], Jacobian(sqrt, anchors, est)[i];
            && f + ds[i] == Distance(sqrt, est, anchors[i])
            && Square(j) == 1.0
            && Distance(sqrt, Plus(est, h), anchors[i]) - ds[i] >= f + Dot(j, h)
  {
    var a := anchors[i];
    var u, v := Minus(est, a), Minus(Plus(est, h), a);
    var d, e := Distance(sqrt, est, a), Distance(sqrt, Plus(est, h), a);
    assert d != 0.0;
    DistanceSquared(sqrt, est, a);
    DistanceSquared(sqrt, Plus(est, h), a);
    hide Distance, Square, Sq, Dot;
    ScaledUnit(u, d);
    CauchySchwarz(u, v, d, e);
    TangentBelow(u, v, h, d, e);
  }

  lemma TangentBelow(u: Point, v: Point, h: Point, d: real, e: real)
    requires d > 0.0 && Sq(d) == Square(u) && v == Plus(u, h) && Dot(u, v) <= d * e
    ensures e >= d + Dot(Scale(u, d), h)
  {
    ScaledDot(u, d, h);
    DotOfPlus(u, u, h);
    assert Sq(d) == d * d;
    var x := d + Dot(Scale(u, d), h);
    assert d * x == d * d + d * Dot(Scale(u, d), h);
    Divide(d, x, e);
  }

  /** The weighted sum of squares of the linear model after a displacement. */
  function Linearised(j: seq<Point>, f: seq<real>, w: seq<real>, h: Point): real
    requires |j| == |f| == |w|
  {
    if j == [] then 0.0 else w[0] * Sq(f[0] + Dot(j[0], h)) + Linearised(j[1..], f[1..], w[1..], h)
  }

  lemma NegatedTerm(w: real, f: real, a: Point, h: Point)
    ensures w * Sq(f + Dot(a, h)) == w * Sq(Dot(a, Stretch(-1.0, h)) - f)
  {
    assert Dot(a, Stretch(-1.0, h)) == -Dot(a, h);
    var x := f + Dot(a, h);
    assert Sq(-x) == Sq(x);
  }

  lemma {:induction false} LinearisedIsResidual(j: seq<Point>, f: seq<real>, w: seq<real>, h: Point)
    requires |j| == |f| == |w|
    ensures Linearised(j, f, w, h) == Residual(j, f, w, Stretch(-1.0, h))
  {
    if j != [] {
      hide Sq, Dot, Stretch;
      LinearisedIsResidual(j[1..], f[1..], w[1..], h);
      NegatedTerm(w[0], f[0], j[0], h);
    }
  }

  lemma ScaledTerm(w: real, a: Point, c: real, d: Point)
    ensures w * Sq(Dot(a, Stretch(c, d))) == c * c * (w * Sq(Dot(a, d)))
  {
    assert Dot(a, Stretch(c, d)) == c * Dot(a, d);
    SqOfProduct(c, Dot(a, d));
    assert Sq(c) == c * c;
  }

  lemma {:induction false} SpreadScaled(j: seq<Point>, w: seq<real>, c: real, k: real, d: Point)
    requires |j| == |w| && k == c * c
    ensures Spread(j, w, Stretch(c, d)) == k * Spread(j, w, d)
  {
    if j != [] {
      hide Sq, Dot, Stretch;
      SpreadScaled(j[1..], w[1..], c, k, d);
      ScaledTerm(w[0], j[0], c, d);
    }
  }

  lemma StepPlus(c: real, b: real, d: Point)
    requires b == c - 1.0
    ensures Plus(d, Stretch(b, d)) == Stretch(c, d)
  {
    assert d.x + (c - 1.0) * d.x == c * d.x && d.y + (c - 1.0) * d.y == c * d.y;
  }

  /** How far the model is from its least value at a multiple of the full step. */
  lemma ModelAlongStep(j: seq<Point>, f: seq<real>, w: seq<real>, d: Point, c: real, b: real, k: real, h: Point)
    requires |j| == |f| == |w| && Solves(NormalSystem(j, f, w), d) && b == c - 1.0 && k == b * b
    requires Stretch(-1.0, h) == Stretch(c, d)
    ensures Linearised(j, f, w, h) == Residual(j, f, w, d) + k * Spread(j, w, d)
  {
    hide *;
    StepPlus(c, b, d);
    LinearisedIsResidual(j, f, w, h);
    ResidualExpands(j, f, w, d, Stretch(b, d));
    NoSlope(NormalSystem(j, f, w), d, Stretch(b, d));
    SpreadScaled(j, w, b, k, d);
  }

  lemma DampedIsTenth(est: Point, d: Point)
    ensures Stretch(-1.0, Minus(Damped(est, d), est)) == Stretch(0.1, d)
    ensures Stretch(-1.0, ORIGIN) == Stretch(0.0, d)
  {
  }

  lemma StepLowers(j: seq<Point>, f: seq<real>, w: seq<real>, d: Point, est: Point)
    requires |j| == |f| == |w| && Solves(NormalSystem(j, f, w), d)
    ensures Linearised(j, f, w, Minus(Damped(est, d), est)) == Linearised(j, f, w, ORIGIN) - 0.19 * Spread(j, w, d)
  {
    hide *;
    DampedIsTenth(est, d);
    ModelAlongStep(j, f, w, d, 0.1, -0.9, 0.81, Minus(Damped(est, d), est));
    ModelAlongStep(j, f, w, d, 0.0, -1.0, 1.0, ORIGIN);
  }

  lemma NoSpreadIsUnseen(j: seq<Point>, w: seq<real>, d: Point)
    requires |j| == |w| && Positive(w)
    ensures Spread(j, w, d) >= 0.0
    ensures Spread(j, w, d) == 0.0 <==> forall i | 0 <= i < |j| :: Dot(j[i], d) == 0.0
  {
    hide Dot, Spread;
    SpreadIsNonNegative(j, w, d);
    if Spread(j, w, d) == 0.0 { NoSpread(j, w, d); }
    if forall i | 0 <= i < |j| :: Dot(j[i], d) == 0.0 { UnseenSpread(j, w, d); }
  }

  /** The damped step takes a tenth of the full one, downhill: it lowers the model by 19 of
      the hundred parts that the full step would lower it by, and so never raises it, and
      leaves it as it was only if no row sees the step. */
  lemma StepDescends(arith: Arithmetic, j: seq<Point>, f: seq<real>, w: seq<real>, est: Point)
    requires |j| == |f| == |w| && Positive(w) && SolveNormalEquation(arith, j, f, w).Ok?
    ensures var d := SolveNormalEquation(arith, j, f, w).value;
            var moved := Linearised(j, f, w, Minus(Damped(est, d), est));
            && moved == Linearised(j, f, w, ORIGIN) - 0.19 * Spread(j, w, d)
            && moved <= Linearised(j, f, w, ORIGIN)
            && (moved == Linearised(j, f, w, ORIGIN) <==> forall i | 0 <= i < |j| :: Dot(j[i], d) == 0.0)
  {
    hide *;
    var d := SolveNormalEquation(arith, j, f, w).value;
    AnswerSolves(arith, j, f, w);
    StepLowers(j, f, w, d, est);
    NoSpreadIsUnseen(j, w, d);
  }

  lemma {:induction false} UnseenSpread(j: seq<Point>, w: seq<real>, d: Point)
    requires |j| == |w| && forall i | 0 <= i < |j| :: Dot(j[i], d) == 0.0
    ensures Spread(j, w, d) == 0.0
  {
    if j != [] {
      assert forall i | 0 <= i < |j[1..]| :: j[1..][i] == j[i + 1];
      UnseenSpread(j[1..], w[1..], d);
    }
  }

  /** The full step backwards minimises the weighted linear model of the residuals at the
      estimate, and the damped step descends in it; a step exists only off the anchors. */
  lemma GaussNewtonDescends(arith: Arithmetic, anchors: seq<Point>, ds: seq<real>, w: seq<real>, est: Point, h: Point)
    requires |anchors| == |ds| == |w| && Positive(w) && GaussNewtonStep(arith, anchors, ds, w, est).Delta?
    ensures AwayFrom(arith.sqrt, anchors, est)
    ensures var d := GaussNewtonStep(arith, anchors, ds, w, est).delta;
            var j, f := Jacobian(arith.sqrt, anchors, est), Residuals(arith.sqrt, anchors, ds, est);
            && Linearised(j, f, w, Stretch(-1.0, d)) <= Linearised(j, f, w, h)
            && Linearised(j, f, w, Minus(Damped(est, d), est)) == Linearised(j, f, w, ORIGIN) - 0.19 * Spread(j, w, d)
            && Spread(j, w, d) >= 0.0
  {
    assert AwayFrom(arith.sqrt, anchors, est);
    var d := GaussNewtonStep(arith, anchors, ds, w, est).delta;
    var j, f := Jacobian(arith.sqrt, anchors, est), Residuals(arith.sqrt, anchors, ds, est);
    assert SolveNormalEquation(arith, j, f, w) == Ok(d);
    hide *;
    StepDescends(arith, j, f, w, est);
    NoSpreadIsUnseen(j, w, d);
    NormalEquationMinimises(arith, j, f, w, Stretch(-1.0, h));
    LinearisedIsResidual(j, f, w, h);
    LinearisedIsResidual(j, f, w, Stretch(-1.0, d));
    StretchBack(d);
  }

  lemma StretchBack(d: Point)
    ensures Stretch(-1.0, Stretch(-1.0, d)) == d
  {
  }

  // ----- a start at the exact distances

  lemma SquareRootSign(sqrt: real -> real, x: real)
    requires IsSquareRoot(sqrt) && x >= 0.0
    ensures sqrt(x) >= 0.0 && (sqrt(x) == 0.0 <==> x == 0.0)
  {
  }

  lemma CrossOfScaled(p: Point, c: real, q: Point, d: real)
    requires c != 0.0 && d != 0.0
    ensures Cross(Scale(p, c), Scale(q, d)) == 0.0 <==> Cross(p, q) == 0.0
  {
    var u, v := Scale(p, c), Scale(q, d);
    assert c * u.x == p.x && c * u.y == p.y && d * v.x == q.x && d * v.y == q.y;
    assert (c * d) * Cross(u, v) == Cross(p, q) by {
      assert (c * d) * Cross(u, v) == (c * u.x) * (d * v.y) - (c * u.y) * (d * v.x);
    }
    if Cross(p, q) == 0.0 { ZeroFactor(c * d, Cross(u, v)); }
  }

  /** Seen from a point off the anchors, the directions to anchors that are not on one
      line are not all parallel. */
  lemma JacobianIsSkew(sqrt: real -> real, anchors: seq<Point>, est: Point)
    requires AwayFrom(sqrt, anchors, est) && NonCollinear(anchors)
    ensures exists i, j :: Skew(Jacobian(sqrt, anchors, est), i, j)
  {
    var i, j, k :| Triangle(anchors, i, j, k);
    var jac := Jacobian(sqrt, anchors, est);
    CrossOfDifferences(anchors[i], anchors[j], anchors[k], est);
    forall a, b | 0 <= a < |jac| && 0 <= b < |jac|
      ensures Skew(jac, a, b) <==> Cross(Minus(anchors[a], est), Minus(anchors[b], est)) != 0.0
    {
      CrossOfScaled(Minus(est, anchors[a]), Distance(sqrt, est, anchors[a]),
                    Minus(est, anchors[b]), Distance(sqrt, est, anchors[b]));
      CrossOfOpposites(est, anchors[a], anchors[b]);
    }
    assert Skew(jac, j, k) || Skew(jac, j, i) || Skew(jac, i, k);
  }

  lemma CrossOfOpposites(p: Point, a: Point, b: Point)
    ensures Cross(Minus(p, a), Minus(p, b)) == Cross(Minus(a, p), Minus(b, p))
  {
  }

  lemma {:induction false} ZeroRightHandSide(rows: seq<Point>, b: seq<real>, w: seq<real>)
    requires |rows| == |b| == |w| && forall i | 0 <= i < |b| :: b[i] == 0.0
    ensures Solves(NormalSystem(rows, b, w), Point(0.0, 0.0))
  {
    forall i | 0 <= i < |rows| ensures Dot(rows[i], ORIGIN) == b[i] { DotOfOrigin(rows[i]); }
    ConsistentSolves(rows, b, w, Point(0.0, 0.0));
  }

  lemma ZeroStep(sqrt: real -> real, est: Point)
    requires IsSquareRoot(sqrt)
    ensures Norm(sqrt, Point(0.0, 0.0)) < MIN_NORM && Damped(est, Point(0.0, 0.0)) == est
  {
    SquareRootSign(sqrt, 0.0);
    assert Sq(0.0) + Sq(0.0) == 0.0;
  }

  /** A start at the exact distances from anchors that are not on one line, and on none
      of them, is returned unchanged after one solve. */
  lemma ExactStartIsKept(arith: Arithmetic, anchors: seq<Point>, ds: seq<real>, w: seq<real>, start: Point)
    requires |anchors| == |ds| == |w| && Positive(w) && NonCollinear(anchors)
    requires IsSquareRoot(arith.sqrt) && AwayFrom(arith.sqrt, anchors, start)
    requires forall i {:trigger ds[i]} | 0 <= i < |ds| :: ds[i] == Distance(arith.sqrt, start, anchors[i])
    ensures Iterate(arith, anchors, ds, w, start, start, 0) == Outcome(Ok(start), 1)
  {
    var j, f := Jacobian(arith.sqrt, anchors, start), Residuals(arith.sqrt, anchors, ds, start);
    JacobianIsSkew(arith.sqrt, anchors, start);
    DetIsPairSum(j, f, w);
    PairSumPositive(j, w);
    ZeroRightHandSide(j, f, w);
    CramerForward(arith, NormalSystem(j, f, w), Point(0.0, 0.0));
    ZeroStep(arith.sqrt, start);
  }

  // ----- the object

  /** The entries of W: 1 / (1 + d), unless that is infinite. */
  datatype Weights = Diagonal(w: seq<real>) | Infinite

  function WeightsOf(ds: seq<real>): Weights {
    if forall i | 0 <= i < |ds| :: 1.0 + ds[i] != 0.0
    then Diagonal(seq(|ds|, i requires 0 <= i < |ds| && 1.0 + ds[i] != 0.0 => 1.0 / (1.0 + ds[i])))
    else Infinite
  }

  /** For the non-negative distances of a real measurement the weights are positive. */
  lemma WeightsArePositive(ds: seq<real>)
    requires forall i | 0 <= i < |ds| :: ds[i] >= 0.0
    ensures WeightsOf(ds).Diagonal? && |WeightsOf(ds).w| == |ds| && Positive(WeightsOf(ds).w)
  {
    forall i | 0 <= i < |ds| ensures 1.0 + ds[i] != 0.0 && 1.0 / (1.0 + ds[i]) > 0.0 {
      assert (1.0 / (1.0 + ds[i])) * (1.0 + ds[i]) == 1.0;
    }
  }

  /** Each weight is the reciprocal of 1 plus the distance, so that of two anchors the
      nearer weighs more. */
  lemma WeightsMean(ds: seq<real>, i: nat, j: nat)
    requires i < |ds| && j < |ds| && WeightsOf(ds).Diagonal?
    ensures |WeightsOf(ds).w| == |ds| && WeightsOf(ds).w[i] * (1.0 + ds[i]) == 1.0
    ensures 0.0 <= ds[i] < ds[j] ==> WeightsOf(ds).w[i] > WeightsOf(ds).w[j]
  {
    var w := WeightsOf(ds).w;
    assert w[i] * (1.0 + ds[i]) == 1.0 && w[j] * (1.0 + ds[j]) == 1.0;
    if 0.0 <= ds[i] < ds[j] { Reciprocals(w[i], w[j], 1.0 + ds[i], 1.0 + ds[j]); }
  }

  lemma NotPositiveProduct(y: real, b: real)
    requires y <= 0.0 && b > 0.0
    ensures y * b <= 0.0
  {
    ProductNotNegative(-y, b);
    assert (-y) * b == -(y * b);
  }

  lemma ProductBelow(x: real, y: real, a: real, b: real)
    requires x <= y && y > 0.0 && 0.0 < a < b
    ensures x * a < y * b
  {
    ProductNotNegative(y - x, a);
    assert (y - x) * a == y * a - x * a;
    MonotoneProduct(y, b, a);
  }

  lemma Reciprocals(x: real, y: real, a: real, b: real)
    requires 0.0 < a < b && x * a == 1.0 && y * b == 1.0
    ensures x > y
  {
    if y <= 0.0 {
      NotPositiveProduct(y, b);
    } else if x <= y {
      ProductBelow(x, y, a, b);
    }
  }

  /** The start that the linear phase computes, if it does. */
  function LinearStart(arith: Arithmetic, n: nat, anchors: seq<Point>, ds: seq<real>): Result<Point> {
    var w := WeightsOf(ds);
    if w.Infinite? then Err(OtherError(0)) else Lls(arith, n, anchors, ds, w.w)
  }

  function Coordinates(p: Point): seq<real> { [p.x, p.y] }

  /** The refinement on the stored data.  A start that is no pair of coordinates
      cannot be combined with a step, which makes Armadillo throw, as do missing
      rows and weights of the wrong size. */
  function Answer(arith: Arithmetic, n: nat, anchors: seq<Point>, w: Weights,
                  start: seq<real>, ds: seq<real>): Result<Point>
  {
    if |start| != 2 || |anchors| < n || |ds| < n || w.Infinite? || |w.w| != n then Err(OtherError(1))
    else
      var p := Point(start[0], start[1]);
      Iterate(arith, anchors[..n], ds[..n], w.w, p, p, 0).answer
  }

  class LocatorObject {
    const n: nat := 3
    var distances: seq<real>
    var anchors: seq<Point>
    var startPos: seq<real>
    var estPos: seq<real>
    var weights: Weights

    /** The estimate is never empty. */
    ghost predicate Valid()
      reads this
    {
      estPos != []
    }

    constructor ()
      ensures Valid() && estPos == [0.0, 0.0, 0.0]
    {
      distances := [0.0, 0.0, 0.0];
      anchors := [Point(0.0, 0.0), Point(0.0, 0.0), Point(0.0, 0.0)];
      startPos := [0.0, 0.0, 0.0];
      estPos := [0.0, 0.0, 0.0];
      weights := Diagonal([]);
    }

    /** `first_lls_init`.  Its branch for an empty estimate, which would reset the start
        to the origin, is dead. */
    method FirstLlsInit(arith: Arithmetic, ds: seq<real>, anchorPositions: seq<Point>)
      requires Valid()
      modifies this
      ensures Valid() && distances == ds && anchors == anchorPositions && weights == WeightsOf(ds)
      ensures estPos == old(estPos)
      ensures var s := LinearStart(arith, n, anchorPositions, ds);
              startPos == if s.Ok? then Coordinates(s.value) else old(estPos)
      ensures State() == AfterInit(arith, old(State()), ds, anchorPositions)
    {
      distances := ds;
      anchors := anchorPositions;
      weights := WeightsOf(ds);
      var s := LinearStart(arith, n, anchors, distances);
      if s.Ok? {
        startPos := Coordinates(s.value);
      } else if |estPos| == 0 {
        assert false;
      } else {
        startPos := estPos;
      }
    }

    /** `localize`: the position, or the empty matrix when something threw. */
    method Localize(arith: Arithmetic, ds: seq<real>) returns (position: seq<real>)
      requires Valid()
      modifies this
      ensures Valid() && distances == ds
      ensures anchors == old(anchors) && weights == old(weights) && startPos == old(startPos)
      ensures var a := Answer(arith, n, anchors, weights, startPos, ds);
              if a.Ok? then position == Coordinates(a.value) && estPos == position
              else position == [] && estPos == old(estPos)
      ensures State() == AfterLocalize(arith, old(State()), ds)
    {
      distances := ds;
      if |startPos| != 2 || |anchors| < n || |ds| < n || weights.Infinite? || |weights.w| != n {
        return [];
      }
      var start := Point(startPos[0], startPos[1]);
      var answer, solves := TrilaterationNlls(arith, anchors[..n], ds[..n], weights.w, start);
      if answer.Err? { return []; }
      estPos := Coordinates(answer.value);
      position := estPos;
    }

    /** The fields as a value. */
    ghost function State(): LocatorState
      reads this
    {
      LocatorState(anchors, weights, startPos, estPos)
    }
  }

  // ----- runs

  datatype LocatorState = LocatorState(anchors: seq<Point>, weights: Weights, start: seq<real>, est: seq<real>)

  /** The state after `localize`, as the method states it. */
  function AfterLocalize(arith: Arithmetic, s: LocatorState, ds: seq<real>): LocatorState {
    var a := Answer(arith, 3, s.anchors, s.weights, s.start, ds);
    if a.Ok? then s.(est := Coordinates(a.value)) else s
  }

  /** The state after a sequence of calls of `localize`. */
  function AfterAll(arith: Arithmetic, s: LocatorState, calls: seq<seq<real>>): LocatorState
    decreases |calls|
  {
    if calls == [] then s else AfterAll(arith, AfterLocalize(arith, s, calls[0]), calls[1..])
  }

  /** However many calls came before, an answer depends only on what the initialisation
      left and on the distances of the call. */
  lemma {:induction false} AnswersForgetHistory(arith: Arithmetic, s: LocatorState,
                                                calls: seq<seq<real>>, ds: seq<real>)
    ensures var t := AfterAll(arith, s, calls);
            && t.anchors == s.anchors && t.weights == s.weights && t.start == s.start
            && Answer(arith, 3, t.anchors, t.weights, t.start, ds)
               == Answer(arith, 3, s.anchors, s.weights, s.start, ds)
    decreases |calls|
  {
    if calls != [] { AnswersForgetHistory(arith, AfterLocalize(arith, s, calls[0]), calls[1..], ds); }
  }

  /** The state after `first_lls_init`. */
  function AfterInit(arith: Arithmetic, s: LocatorState, ds: seq<real>, anchors: seq<Point>): LocatorState {
    var p := LinearStart(arith, 3, anchors, ds);
    LocatorState(anchors, WeightsOf(ds), if p.Ok? then Coordinates(p.value) else s.est, s.est)
  }

  /** The system of the linear phase, for three anchors. */
  function LinearSystem(anchors: seq<Point>, ds: seq<real>): System
    requires |anchors| == |ds| == 3 && WeightsOf(ds).Diagonal?
  {
    NormalSystem(Rows(anchors), RightHandSide(anchors, ds), WeightsOf(ds).w)
  }

  /** The approximate solver is needed, and fails. */
  predicate SolverFails(arith: Arithmetic, anchors: seq<Point>, ds: seq<real>)
    requires |anchors| == |ds| == 3 && WeightsOf(ds).Diagonal?
  {
    LinearSystem(anchors, ds).Det() == 0.0 && arith.svdFails(LinearSystem(anchors, ds))
  }

  lemma InfiniteWeights(ds: seq<real>)
    ensures WeightsOf(ds).Infinite? <==> -1.0 in ds
  {
    if -1.0 in ds {
      var i :| 0 <= i < |ds| && ds[i] == -1.0;
      assert 1.0 + ds[i] == 0.0;
    }
  }

  /** When the linear phase throws: the sizes are wrong, a distance is -1, or the anchors
      need the approximate solver and that fails.  For non-negative distances they need
      it exactly when they are on one line. */
  lemma LinearPhaseThrows(arith: Arithmetic, ds: seq<real>, anchors: seq<Point>)
    ensures LinearStart(arith, 3, anchors, ds).Err? <==>
            |anchors| != 3 || |ds| != 3 || -1.0 in ds
            || (WeightsOf(ds).Diagonal? && SolverFails(arith, anchors, ds))
    ensures (forall i | 0 <= i < |ds| :: ds[i] >= 0.0) && |anchors| == |ds| == 3 ==>
              -1.0 !in ds && WeightsOf(ds).Diagonal?
              && (SolverFails(arith, anchors, ds) <==>
                  !NonCollinear(anchors) && arith.svdFails(LinearSystem(anchors, ds)))
  {
    hide NormalSystem;
    InfiniteWeights(ds);
    if (forall i | 0 <= i < |ds| :: ds[i] >= 0.0) && |anchors| == |ds| == 3 {
      WeightsArePositive(ds);
      LlsSolvable(arith, 3, anchors, ds, WeightsOf(ds).w);
    }
  }

  /** The start of a new locator has three entries, instead of two, exactly when its
      linear phase throws; every later call then returns the empty matrix. */
  lemma {:induction false} FailedInitIsFatal(arith: Arithmetic, s: LocatorState, ds: seq<real>, anchors: seq<Point>,
                                             calls: seq<seq<real>>, later: seq<real>)
    requires s.est == [0.0, 0.0, 0.0]
    ensures |AfterInit(arith, s, ds, anchors).start| == 3 <==> LinearStart(arith, 3, anchors, ds).Err?
    ensures LinearStart(arith, 3, anchors, ds).Err? ==>
              var t := AfterAll(arith, AfterInit(arith, s, ds, anchors), calls);
              Answer(arith, 3, t.anchors, t.weights, t.start, later).Err?
  {
    AnswersForgetHistory(arith, AfterInit(arith, s, ds, anchors), calls, later);
  }

  function TrueDistances(sqrt: real -> real, p: Point, anchors: seq<Point>): (ds: seq<real>)
    ensures |ds| == |anchors| && forall i | 0 <= i < |ds| :: ds[i] == Distance(sqrt, p, anchors[i])
  {
    seq(|anchors|, i requires 0 <= i < |anchors| => Distance(sqrt, p, anchors[i]))
  }

  lemma DistanceIsExact(sqrt: real -> real, p: Point, a: Point)
    requires IsSquareRoot(sqrt)
    ensures Distance(sqrt, p, a) >= 0.0
    ensures Distance(sqrt, p, a) * Distance(sqrt, p, a) == Square(Minus(p, a))
  {
    var x := Sq(p.x - a.x) + Sq(p.y - a.y);
    assert Sq(sqrt(x)) == sqrt(x) * sqrt(x);
    assert Square(Minus(p, a)) == x;
  }

  /** End to end: initialised with the true distances from a point off the anchors,
      the locator answers every later call with these distances by the point itself. */
  lemma TruePositionIsFound(arith: Arithmetic, s: LocatorState, anchors: seq<Point>, p: Point, calls: seq<seq<real>>)
    requires |anchors| == 3 && NonCollinear(anchors)
    requires IsSquareRoot(arith.sqrt) && AwayFrom(arith.sqrt, anchors, p)
    ensures var ds := TrueDistances(arith.sqrt, p, anchors);
            var t := AfterAll(arith, AfterInit(arith, s, ds, anchors), calls);
            Answer(arith, 3, t.anchors, t.weights, t.start, ds) == Ok(p)
  {
    hide Distance, Square, Minus, Lls, Iterate, AwayFrom;
    var ds := TrueDistances(arith.sqrt, p, anchors);
    forall i | 0 <= i < 3 ensures ds[i] >= 0.0 && ds[i] * ds[i] == Square(Minus(p, anchors[i])) {
      DistanceIsExact(arith.sqrt, p, anchors[i]);
    }
    WeightsArePositive(ds);
    var w := WeightsOf(ds).w;
    ExactRecovery(arith, 3, anchors, ds, w, p);
    AnswersForgetHistory(arith, AfterInit(arith, s, ds, anchors), calls, ds);
    assert anchors[..3] == anchors && ds[..3] == ds;
    ExactStartIsKept(arith, anchors, ds, w, p);
  }
}
