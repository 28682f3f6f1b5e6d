/** Strings as the library sees them: byte order, key-sorted iteration of a
    `std::map`, and decimal numerals as printed by `std::to_string`. */
module Text {

  /** The order of `std::string::operator<`. */
  predicate Before(a: string, b: string) {
    if b == "" then false
    else if a == "" then true
    else if a[0] != b[0] then a[0] < b[0]
    else Before(a[1..], b[1..])
  }

  lemma {:induction false} BeforeTotal(a: string, b: string)
    ensures Before(a, b) || a == b || Before(b, a)
    ensures a == b ==> !Before(a, b)
    ensures !(Before(a, b) && Before(b, a))
  {
    if a != "" && b != "" {
      BeforeTotal(a[1..], b[1..]);
      if a[0] == b[0] && a[1..] == b[1..] {
        assert a == [a[0]] + a[1..] == b;
      }
    }
  }

  lemma {:induction false} BeforeTransitive(a: string, b: string, c: string)
    requires Before(a, b) && Before(b, c)
    ensures Before(a, c)
    decreases |a|
  {
    if a != "" && a[0] == b[0] == c[0] {
      BeforeTransitive(a[1..], b[1..], c[1..]);
    }
  }

  /** Two strings that agree on a prefix are ordered by what follows it. */
  lemma {:induction false} BeforeSharedPrefix(p: string, a: string, b: string)
    ensures Before(p + a, p + b) <==> Before(a, b)
  {
    if p == "" {
      assert p + a == a && p + b == b;
    } else {
      assert (p + a)[1..] == p[1..] + a && (p + b)[1..] == p[1..] + b;
      BeforeSharedPrefix(p[1..], a, b);
    }
  }

  /** The order in one formula: a proper prefix is first, and otherwise the first
      character that differs decides. */
  lemma {:induction false} BeforeIs(a: string, b: string)
    ensures Before(a, b) <==>
            a < b || exists n | 0 <= n < |a| && n < |b| :: a[..n] == b[..n] && a[n] < b[n]
  {
    if a != "" && b != "" {
      if a[0] == b[0] {
        BeforeIs(a[1..], b[1..]);
        assert a == [a[0]] + a[1..] && b == [b[0]] + b[1..];
        if n :| 0 <= n < |a[1..]| && n < |b[1..]| && a[1..][..n] == b[1..][..n] && a[1..][n] < b[1..][n] {
          assert a[..n + 1] == [a[0]] + a[1..][..n] && b[..n + 1] == [b[0]] + b[1..][..n];
          assert a[n + 1] < b[n + 1];
        }
        if n :| 0 <= n < |a| && n < |b| && a[..n] == b[..n] && a[n] < b[n] {
          assert n > 0;
          assert a[1..][..n - 1] == a[..n][1..] && b[1..][..n - 1] == b[..n][1..];
          assert a[1..][n - 1] < b[1..][n - 1];
        }
      } else {
        assert a[..0] == b[..0];
        if n :| 0 < n < |a| && n < |b| && a[..n] == b[..n] {
          assert a[..n][0] == b[..n][0];
        }
      }
    }
  }

  predicate Sorted(keys: seq<string>) {
    forall i, j | 0 <= i < j < |keys| :: Before(keys[i], keys[j])
  }

  predicate IsLeast(k: string, s: set<string>) {
    k in s && forall x | x in s && x != k :: Before(k, x)
  }

  lemma {:induction false} LeastExists(s: set<string>)
    requires s != {}
    ensures exists k :: IsLeast(k, s)
  {
    var x :| x in s;
    var rest := s - {x};
    if rest == {} {
      assert s == {x};
      assert IsLeast(x, s);
    } else {
      LeastExists(rest);
      var k :| IsLeast(k, rest);
      BeforeTotal(x, k);
      if Before(x, k) {
        forall y | y in s && y != x ensures Before(x, y) {
          if y != k { BeforeTransitive(x, k, y); }
        }
        assert IsLeast(x, s);
      } else {
        assert IsLeast(k, s);
      }
    }
  }

  lemma LeastUnique(s: set<string>)
    ensures forall k, k' :: IsLeast(k, s) && IsLeast(k', s) ==> k == k'
  {
    forall k, k' | IsLeast(k, s) && IsLeast(k', s) ensures k == k' {
      BeforeTotal(k, k');
    }
  }

  /** The order in which a `std::map` with these keys is iterated. */
  function SortedKeys(s: set<string>): (keys: seq<string>)
    ensures Sorted(keys)
    ensures forall k :: k in keys <==> k in s
    decreases |s|
  {
    if s == {} then []
    else
      LeastExists(s); LeastUnique(s);
      var k :| IsLeast(k, s);
      var rest := SortedKeys(s - {k});
      assert forall j | 0 <= j < |rest| :: rest[j] in s - {k};
      [k] + rest
  }

  lemma SortedDistinct(keys: seq<string>, i: nat, j: nat)
    requires Sorted(keys) && i < |keys| && j < |keys|
    ensures keys[i] == keys[j] ==> i == j
  {
    BeforeTotal(keys[i], keys[i]);
  }

  // ----- decimal numerals

  predicate IsDigit(c: char) { '0' <= c <= '9' }

  predicate AllDigits(s: string) { forall i | 0 <= i < |s| :: IsDigit(s[i]) }

  /** A numeral without superfluous leading zero. */
  predicate Canonical(s: string) {
    s != "" && AllDigits(s) && (|s| > 1 ==> s[0] != '0')
  }

  function DigitChar(d: nat): (c: char)
    requires d < 10
    ensures IsDigit(c) && (c == '0' <==> d == 0)
  {
    (d + '0' as int) as char
  }

  /** `std::to_string` of an unsigned integer. */
  function Digits(n: nat): (s: string)
    ensures Canonical(s) && (s[0] == '0' <==> n == 0)
  {
    if n < 10 then [DigitChar(n)] else Digits(n / 10) + [DigitChar(n % 10)]
  }

  /** The number an all-digit string denotes in base ten. */
  function Numeral(s: string): nat
    requires AllDigits(s)
  {
    if s == "" then 0
    else 10 * Numeral(s[..|s| - 1]) + (s[|s| - 1] as int - '0' as int)
  }

  lemma {:induction false} NumeralOfDigits(n: nat)
    ensures Numeral(Digits(n)) == n
  {
    if n >= 10 {
      NumeralOfDigits(n / 10);
      assert Digits(n)[..|Digits(n)| - 1] == Digits(n / 10);
    }
  }

  lemma {:induction false} DigitsOfNumeral(s: string)
    requires Canonical(s)
    ensures Digits(Numeral(s)) == s
    ensures |s| > 1 ==> Numeral(s) >= 10
  {
    if |s| == 1 {
      assert s[..0] == "" && Numeral(s) < 10;
    } else {
      var t, d := s[..|s| - 1], s[|s| - 1] as int - '0' as int;
      DigitsOfNumeral(t);
      if |t| == 1 { assert t[..0] == "" && Numeral(t) >= 1; }
      assert Numeral(s) / 10 == Numeral(t) && Numeral(s) % 10 == d;
      assert s == t + [s[|s| - 1]];
    }
  }

  lemma {:induction false} BeforeExtends(a: string, b: string, x: string, y: string)
    requires Before(a, b) && |a| == |b|
    ensures Before(a + x, b + y)
  {
    assert (a + x)[1..] == a[1..] + x && (b + y)[1..] == b[1..] + y;
    if a[0] == b[0] { BeforeExtends(a[1..], b[1..], x, y); }
  }

  /** Shorter numerals are smaller, and of the same length the byte order is that of the
      numbers. */
  lemma {:induction false} DigitsOrder(m: nat, n: nat)
    requires m < n
    ensures |Digits(m)| < |Digits(n)| || (|Digits(m)| == |Digits(n)| && Before(Digits(m), Digits(n)))
  {
    if m >= 10 {
      var a, b := Digits(m / 10), Digits(n / 10);
      var x, y := [DigitChar(m % 10)], [DigitChar(n % 10)];
      if m / 10 < n / 10 {
        DigitsOrder(m / 10, n / 10);
        if |a| == |b| { BeforeExtends(a, b, x, y); }
      } else {
        BeforeSharedPrefix(a, x, y);
      }
    }
  }

  lemma DigitsInjective(m: nat, n: nat)
    requires Digits(m) == Digits(n)
    ensures m == n
  {
    NumeralOfDigits(m); NumeralOfDigits(n);
  }
}
