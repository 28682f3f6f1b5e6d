/** The conversion of integers to `double`. */
module Rounding {
  import opened Values

  // ----- the spacing of doubles

  lemma HalfBounds(n: nat, m: nat, x: nat)
    requires 2 * m <= n <= 2 * m + 1 && x <= 2 * m < 2 * x && x % 2 == 0
    ensures 2 * x <= 2 * n < 4 * x
  {
  }

  lemma {:induction false} SpacingBounds(n: nat)
    requires n >= TWO_TO_THE_53
    ensures var u := Spacing(n); u % 2 == 0 && TWO_TO_THE_53 * u <= 2 * n < 2 * TWO_TO_THE_53 * u
  {
    if n / 2 >= TWO_TO_THE_53 {
      SpacingBounds(n / 2);
      var h := Spacing(n / 2);
      HalfBounds(n, n / 2, TWO_TO_THE_53 * h);
      assert TWO_TO_THE_53 * (2 * h) == 2 * (TWO_TO_THE_53 * h);
    }
  }

  /** The spacing is determined by these bounds. */
  lemma {:induction false} SpacingUnique(n: nat, m: nat)
    requires n >= TWO_TO_THE_53
    requires var u := Spacing(n); TWO_TO_THE_53 * u <= 2 * m < 2 * TWO_TO_THE_53 * u
    ensures Spacing(m) == Spacing(n)
  {
    var half := Spacing(n / 2);
    assert Spacing(n) == 2 * half;
    if n / 2 >= TWO_TO_THE_53 {
      SpacingBounds(n / 2);
      SpacingUnique(n / 2, m / 2);
    }
  }

  lemma ProductOrder(x: int, y: int, u: nat)
    requires x <= y
    ensures x * u <= y * u
  {
  }

  lemma DivisionIs(n: nat, u: nat, q: nat, r: nat)
    requires n == q * u + r && r < u
    ensures n / u == q && n % u == r
  {
    var d := n / u;
    assert n == d * u + n % u;
    if d > q {
      ProductOrder(q + 1, d, u);
    } else if d < q {
      ProductOrder(d + 1, q, u);
    }
  }

  /** Rounding of the number `r` above the `q`-th multiple of the spacing. */
  lemma RoundedIs(n: nat, u: nat, q: nat, r: nat)
    requires Spacing(n) == u && n == q * u + r && r < u
    ensures RoundedMagnitude(n) == if 2 * r < u || (2 * r == u && q % 2 == 0) then q * u else (q + 1) * u
  {
    DivisionIs(n, u, q, r);
  }

  lemma QuotientBounds(n: nat, u: nat, q: nat, r: nat)
    requires TWO_TO_THE_53 * u <= 2 * n < 2 * TWO_TO_THE_53 * u && n == q * u + r && r < u
    ensures TWO_TO_THE_53 * u <= 2 * (q * u)
    ensures q * u + u <= TWO_TO_THE_53 * u
  {
    var h := TWO_TO_THE_53 / 2;
    if q < h { ProductOrder(q + 1, h, u); } else { ProductOrder(h, q, u); }
    if q < TWO_TO_THE_53 { ProductOrder(q + 1, TWO_TO_THE_53, u); } else { ProductOrder(TWO_TO_THE_53, q, u); }
  }

  /** Numbers with the same quotient round by their remainder. */
  lemma SameQuotient(n: nat, m: nat, u: nat, q: nat, r: nat, d: nat)
    requires n >= TWO_TO_THE_53 && Spacing(n) == u && n == q * u + r && r < u && m == q * u + d && d < u
    ensures RoundedMagnitude(m) == if 2 * d < u || (2 * d == u && q % 2 == 0) then q * u else (q + 1) * u
  {
    SpacingBounds(n);
    QuotientBounds(n, u, q, r);
    SpacingUnique(n, m);
    RoundedIs(m, u, q, d);
  }

  /** A multiple of the spacing is exact. */
  lemma NextMultipleIsExact(n: nat, u: nat, q: nat, r: nat)
    requires n >= TWO_TO_THE_53 && Spacing(n) == u && n == q * u + r && r < u
    ensures RoundedMagnitude((q + 1) * u) == (q + 1) * u
  {
    var m := (q + 1) * u;
    SpacingBounds(n);
    QuotientBounds(n, u, q, r);
    assert m == q * u + u;
    if m < TWO_TO_THE_53 * u {
      SpacingUnique(n, m);
      RoundedIs(m, u, q + 1, 0);
    } else {
      assert (2 * n) / 2 == n && Spacing(2 * n) == 2 * u;
      SpacingUnique(2 * n, m);
      assert m == (TWO_TO_THE_53 / 2) * (2 * u) + 0;
      RoundedIs(m, 2 * u, TWO_TO_THE_53 / 2, 0);
    }
  }

  /** An inexact number has a neighbour that is rounded to the same double. */
  lemma Neighbour(n: nat) returns (k: nat)
    requires RoundedMagnitude(n) != n
    ensures k > 0 && (k + 1 == n || k == n + 1)
    ensures n < TWO_TO_THE_64 ==> k < TWO_TO_THE_64
    ensures RoundedMagnitude(k) == RoundedMagnitude(n)
  {
    if n == TWO_TO_THE_64 - 1 {
      k := n - 1;
      LargestUnsigned();
    } else {
      k := OrdinaryNeighbour(n);
    }
  }

  lemma PowerSpacings()
    ensures Spacing(TWO_TO_THE_63) == 2048
  {
    var t := TWO_TO_THE_53;
    assert Spacing(t) == 2 && Spacing(2 * t) == 4 && Spacing(4 * t) == 8;
    assert Spacing(8 * t) == 16 && Spacing(16 * t) == 32 && Spacing(32 * t) == 64;
    assert Spacing(64 * t) == 128 && Spacing(128 * t) == 256 && Spacing(256 * t) == 512;
    assert Spacing(512 * t) == 1024 && Spacing(1024 * t) == 2048;
  }

  /** The two largest unsigned values are rounded to 2^64. */
  lemma LargestUnsigned()
    ensures RoundedMagnitude(TWO_TO_THE_64 - 1) == TWO_TO_THE_64 == RoundedMagnitude(TWO_TO_THE_64 - 2)
  {
    hide RoundedMagnitude, Spacing;
    var n := TWO_TO_THE_64 - 1;
    PowerSpacings();
    SpacingUnique(TWO_TO_THE_63, n);
    assert n == (TWO_TO_THE_53 - 1) * 2048 + 2047;
    SameQuotient(n, n, 2048, TWO_TO_THE_53 - 1, 2047, 2047);
    SameQuotient(n, n - 1, 2048, TWO_TO_THE_53 - 1, 2047, 2046);
  }

  lemma OrdinaryNeighbour(n: nat) returns (k: nat)
    requires RoundedMagnitude(n) != n
    ensures k > 0 && (k + 1 == n || k == n + 1)
    ensures RoundedMagnitude(k) == RoundedMagnitude(n)
  {
    var u := Spacing(n);
    var q, r := n / u, n % u;
    assert n == q * u + r;
    assert n >= TWO_TO_THE_53;
    SpacingBounds(n);
    RoundedIs(n, u, q, r);
    assert r != 0;
    var below := 2 * r < u || (2 * r == u && q % 2 == 0);
    var belowLess := 2 * (r - 1) < u || (2 * (r - 1) == u && q % 2 == 0);
    SameQuotient(n, n - 1, u, q, r, r - 1);
    if below == belowLess {
      k := n - 1;
    } else {
      k := n + 1;
      if r + 1 < u {
        SameQuotient(n, n + 1, u, q, r, r + 1);
      } else {
        assert n + 1 == (q + 1) * u;
        NextMultipleIsExact(n, u, q, r);
      }
    }
  }

  lemma LeastIntegerIsExact()
    ensures Rounded(-TWO_TO_THE_63) == -TWO_TO_THE_63
  {
    PowerSpacings();
    RoundedIs(TWO_TO_THE_63, 2048, TWO_TO_THE_53 / 2, 0);
  }

  // ----- rounding is to the nearest double

  function Power(k: nat): (p: nat)
    ensures p >= 1
  {
    if k == 0 then 1 else 2 * Power(k - 1)
  }

  /** `m * 2^k`. */
  function Scaled(m: int, k: nat): int { m * Power(k) }

  /** The integer is a double: a significand of at most 53 bits times a power of two. */
  ghost predicate IsDouble(x: int) {
    exists m: int, k: nat :: Scaled(m, k) == x && -TWO_TO_THE_53 <= m <= TWO_TO_THE_53
  }

  lemma {:induction false} SpacingIsPower(n: nat) returns (k: nat)
    ensures Spacing(n) == Power(k)
  {
    if n < TWO_TO_THE_53 {
      k := 0;
    } else {
      var j := SpacingIsPower(n / 2);
      k := j + 1;
    }
  }

  lemma {:induction false} PowerGrows(j: nat, k: nat) returns (f: nat)
    requires j <= k
    ensures f >= 1 && Power(k) == f * Power(j)
    decreases k
  {
    if j == k {
      f := 1;
    } else {
      var g := PowerGrows(j, k - 1);
      f := 2 * g;
      assert Power(k) == 2 * (g * Power(j));
    }
  }

  lemma CoarseIsOutside(m: int, p: nat, f: nat, u: nat, q: nat)
    requires p == f * u
    ensures m * p <= q * u || m * p >= q * u + u
  {
    assert m * p == (m * f) * u;
    if m * f <= q { ProductOrder(m * f, q, u); } else { ProductOrder(q + 1, m * f, u); }
  }

  lemma FineIsBelow(m: int, p: nat, f: nat, h: nat, u: nat, q: nat)
    requires h == f * p && f >= 1 && u == 2 * h && m <= TWO_TO_THE_53 && TWO_TO_THE_53 * u <= 2 * (q * u)
    ensures m * p <= q * u
  {
    ProductOrder(m, TWO_TO_THE_53, p);
    ProductOrder(1, f, p);
  }

  /** No double lies strictly between two neighbouring multiples of the spacing. */
  lemma NoneBetween(n: nat, u: nat, q: nat, r: nat, m: int, k: nat)
    requires n >= TWO_TO_THE_53 && u == Spacing(n) && n == q * u + r && r < u
    requires -TWO_TO_THE_53 <= m <= TWO_TO_THE_53
    ensures Scaled(m, k) <= q * u || Scaled(m, k) >= q * u + u
  {
    hide Spacing;
    SpacingBounds(n);
    QuotientBounds(n, u, q, r);
    var j := SpacingIsPower(n);
    if j <= k {
      var f := PowerGrows(j, k);
      hide Power;
      CoarseIsOutside(m, Power(k), f, u, q);
    } else {
      var f := PowerGrows(k, j - 1);
      assert u == 2 * Power(j - 1);
      hide Power;
      FineIsBelow(m, Power(k), f, Power(j - 1), u, q);
    }
  }

  function Distance(x: int, y: int): nat { if x < y then y - x else x - y }

  lemma QuotientSmall(q: nat, u: nat)
    requires q * u + u <= TWO_TO_THE_53 * u && u >= 1
    ensures q + 1 <= TWO_TO_THE_53
  {
    if q >= TWO_TO_THE_53 { ProductOrder(TWO_TO_THE_53, q, u); }
  }

  lemma MagnitudeIsDouble(n: nat) returns (m: int, k: nat)
    ensures 0 <= m <= TWO_TO_THE_53 && RoundedMagnitude(n) == Scaled(m, k)
  {
    if n < TWO_TO_THE_53 {
      m, k := n, 0;
      assert Power(0) == 1 && Spacing(n) == 1;
      assert n == n * 1 + 0;
      RoundedIs(n, 1, n, 0);
    } else {
      hide RoundedMagnitude, Spacing;
      var u := Spacing(n);
      var q, r := n / u, n % u;
      assert n == q * u + r;
      SpacingBounds(n);
      QuotientBounds(n, u, q, r);
      RoundedIs(n, u, q, r);
      QuotientSmall(q, u);
      k := SpacingIsPower(n);
      m := if RoundedMagnitude(n) == q * u then q else q + 1;
    }
  }

  /** The conversion yields a double. */
  lemma RoundedIsDouble(i: int)
    ensures IsDouble(Rounded(i))
  {
    hide RoundedMagnitude;
    if i >= 0 {
      var m, k := MagnitudeIsDouble(i);
      assert Scaled(m, k) == Rounded(i);
    } else {
      var m, k := MagnitudeIsDouble(-i);
      ScaledNegative(m, k);
      assert Scaled(0 - m, k) == Rounded(i);
    }
  }

  lemma ScaledNegative(m: int, k: nat)
    ensures Scaled(0 - m, k) == 0 - Scaled(m, k)
  {
  }

  lemma EvenMultiple(q: nat, u: nat, r: int)
    requires u >= 1 && ((q % 2 == 0 && r == q * u) || (q % 2 == 1 && r == q * u + u))
    ensures r % (2 * u) == 0
  {
    var h := if q % 2 == 0 then q / 2 else (q + 1) / 2;
    Halves(q, h, u);
    ExactQuotient(r, 2 * u, h);
  }

  lemma Halves(q: nat, h: nat, u: nat)
    ensures q == 2 * h ==> q * u == h * (2 * u)
    ensures q + 1 == 2 * h ==> q * u + u == h * (2 * u)
  {
    if q + 1 == 2 * h { assert (q + 1) * u == q * u + u; }
  }

  lemma ExactQuotient(n: int, d: nat, q: int)
    requires d >= 1 && n == q * d
    ensures n % d == 0
  {
    var p := n / d;
    assert n == p * d + n % d;
    if p < q { ProductOrder(p + 1, q, d); }
    if p > q { ProductOrder(q + 1, p, d); }
  }

  lemma RoundsToNearest(n: nat, u: nat, q: nat, r: nat, x: int, y: int)
    requires n == q * u + r && r < u && u >= 1 && (x <= q * u || x >= q * u + u)
    requires y == if 2 * r < u || (2 * r == u && q % 2 == 0) then q * u else q * u + u
    ensures Distance(y, n) <= Distance(x, n)
    ensures Distance(y, n) == Distance(x, n) && x != y ==> y % (2 * Distance(x, y)) == 0
  {
    if Distance(y, n) == Distance(x, n) && x != y {
      assert 2 * r == u == Distance(x, y);
      EvenMultiple(q, Distance(x, y), y);
    }
  }

  lemma NextMultiple(q: nat, u: nat)
    ensures (q + 1) * u == q * u + u
  {
  }

  lemma LargeIsNearest(n: nat, u: nat, q: nat, r: nat, m: int, k: nat)
    requires n >= TWO_TO_THE_53 && u == Spacing(n) && n == q * u + r && r < u
    requires -TWO_TO_THE_53 <= m <= TWO_TO_THE_53
    ensures var x, y := Scaled(m, k), RoundedMagnitude(n);
            && Distance(y, n) <= Distance(x, n)
            && (Distance(y, n) == Distance(x, n) && x != y ==> y % (2 * Distance(x, y)) == 0)
  {
    hide RoundedMagnitude, Spacing, Scaled, Distance;
    NoneBetween(n, u, q, r, m, k);
    RoundedIs(n, u, q, r);
    NextMultiple(q, u);
    RoundsToNearest(n, u, q, r, Scaled(m, k), RoundedMagnitude(n));
  }

  lemma MagnitudeIsNearest(n: nat, m: int, k: nat)
    requires -TWO_TO_THE_53 <= m <= TWO_TO_THE_53
    ensures var x, y := Scaled(m, k), RoundedMagnitude(n);
            && Distance(y, n) <= Distance(x, n)
            && (Distance(y, n) == Distance(x, n) && x != y ==> y % (2 * Distance(x, y)) == 0)
  {
    if n >= TWO_TO_THE_53 {
      hide RoundedMagnitude, Spacing, Scaled, Distance;
      var u := Spacing(n);
      assert n == (n / u) * u + n % u;
      LargeIsNearest(n, u, n / u, n % u, m, k);
    } else {
      assert Spacing(n) == 1 && n == n * 1 + 0;
      RoundedIs(n, 1, n, 0);
    }
  }

  /** It is the nearest double, and of two that are equally near the one whose significand
      is even: it is a multiple of twice their distance. */
  lemma RoundedIsNearest(i: int, x: int)
    requires IsDouble(x)
    ensures Distance(Rounded(i), i) <= Distance(x, i)
    ensures Distance(Rounded(i), i) == Distance(x, i) && x != Rounded(i) ==>
              Rounded(i) % (2 * Distance(x, Rounded(i))) == 0
  {
    hide RoundedMagnitude, Scaled;
    var m: int, k: nat :| Scaled(m, k) == x && -TWO_TO_THE_53 <= m <= TWO_TO_THE_53;
    if i >= 0 {
      MagnitudeIsNearest(i, m, k);
    } else {
      ScaledNegative(m, k);
      MagnitudeIsNearest(-i, 0 - m, k);
      if Distance(Rounded(i), i) == Distance(x, i) && x != Rounded(i) {
        NegatedMultiple(RoundedMagnitude(-i), 2 * Distance(x, Rounded(i)));
      }
    }
  }

  lemma NegatedMultiple(r: int, d: nat)
    requires d >= 1 && r % d == 0
    ensures (0 - r) % d == 0
  {
    var q := r / d;
    assert r == q * d;
    assert 0 - r == (0 - q) * d;
    ExactQuotient(0 - r, d, 0 - q);
  }
}
