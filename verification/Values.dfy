/** JSON values and the equality of `basic_json`. */
module Values {

  const TWO_TO_THE_53: int := 0x20_0000_0000_0000
  const TWO_TO_THE_63: int := 0x8000_0000_0000_0000
  const TWO_TO_THE_64: int := 0x1_0000_0000_0000_0000

  /** The largest value of `std::size_t`; no container holds more elements. */
  const SIZE_MAX: int := TWO_TO_THE_64 - 1

  type Int64 = i: int | -TWO_TO_THE_63 <= i < TWO_TO_THE_63
  type Uint64 = u: int | 0 <= u < TWO_TO_THE_64
  type Byte = b: int | 0 <= b < 256

  /** A `double`; the two zeros are one value, as they compare equal. */
  datatype Double = NaN | Infinity(negative: bool) | Finite(value: real)

  /** The nine storable types of `value_t` and `discarded`.  An object is a
      `std::map`, whose iteration order is `Text.SortedKeys` of its keys. */
  datatype Json =
    | Null
    | Object(members: map<string, Json>)
    | Array(items: seq<Json>)
    | String(text: string)
    | Boolean(flag: bool)
    | Integer(int64: Int64)
    | Unsigned(uint64: Uint64)
    | Float(double: Double)
    | Binary(bytes: seq<Byte>, subtype: Uint64, hasSubtype: bool)
    | Discarded

  datatype Kind =
    | NullKind | ObjectKind | ArrayKind | StringKind | BooleanKind
    | IntegerKind | UnsignedKind | FloatKind | BinaryKind | DiscardedKind

  function KindOf(j: Json): Kind {
    match j
    case Null => NullKind
    case Object(_) => ObjectKind
    case Array(_) => ArrayKind
    case String(_) => StringKind
    case Boolean(_) => BooleanKind
    case Integer(_) => IntegerKind
    case Unsigned(_) => UnsignedKind
    case Float(_) => FloatKind
    case Binary(_, _, _) => BinaryKind
    case Discarded => DiscardedKind
  }

  predicate IsNumber(j: Json) { j.Integer? || j.Unsigned? || j.Float? }

  /** `is_primitive`: neither structured nor discarded. */
  predicate IsPrimitive(j: Json) { !j.Array? && !j.Object? && !j.Discarded? }

  // ----- number conversions

  /** The spacing of the doubles around `n`, for `n` at least 2^52. */
  function Spacing(n: nat): (u: nat)
    ensures u >= 1
  {
    if n < TWO_TO_THE_53 then 1 else 2 * Spacing(n / 2)
  }

  function RoundedMagnitude(n: nat): int {
    var u := Spacing(n);
    var q, r := n / u, n % u;
    if 2 * r < u || (2 * r == u && q % 2 == 0) then q * u else (q + 1) * u
  }

  /** The value of `static_cast<double>(i)`: nearest double, ties to even. */
  function Rounded(i: int): int {
    if i < 0 then -RoundedMagnitude(-i) else RoundedMagnitude(i)
  }

  function ToDouble(i: int): Double { Finite(Rounded(i) as real) }

  lemma SmallIntegersAreExact(i: int)
    requires -TWO_TO_THE_53 <= i <= TWO_TO_THE_53
    ensures Rounded(i) == i
  {
  }

  /** `static_cast<int64_t>` of an unsigned value: wraps modulo 2^64. */
  function ToInt64(u: Uint64): Int64 {
    if u < TWO_TO_THE_63 then u else u - TWO_TO_THE_64
  }

  predicate DoubleEqual(x: Double, y: Double) { !x.NaN? && x == y }

  // ----- operator==

  /** `operator==` of `basic_json`. */
  predicate Equal(a: Json, b: Json) {
    match (a, b)
    case (Array(x), Array(y)) => |x| == |y| && forall i | 0 <= i < |x| :: Equal(x[i], y[i])
    case (Object(m), Object(n)) => m.Keys == n.Keys && forall k | k in m :: Equal(m[k], n[k])
    case (Null, Null) => true
    case (String(s), String(t)) => s == t
    case (Boolean(p), Boolean(q)) => p == q
    case (Integer(i), Integer(k)) => i == k
    case (Unsigned(u), Unsigned(v)) => u == v
    case (Float(x), Float(y)) => DoubleEqual(x, y)
    case (Binary(x, s, h), Binary(y, t, g)) => x == y && s == t && h == g
    case (Integer(i), Float(y)) => DoubleEqual(ToDouble(i), y)
    case (Float(x), Integer(i)) => DoubleEqual(x, ToDouble(i))
    case (Unsigned(u), Float(y)) => DoubleEqual(ToDouble(u), y)
    case (Float(x), Unsigned(u)) => DoubleEqual(x, ToDouble(u))
    case (Unsigned(u), Integer(i)) => ToInt64(u) == i
    case (Integer(i), Unsigned(u)) => i == ToInt64(u)
    case _ => false
  }

  /** No NaN and no discarded value anywhere inside. */
  predicate Comparable(j: Json) {
    match j
    case Array(x) => forall i | 0 <= i < |x| :: Comparable(x[i])
    case Object(m) => forall k | k in m :: Comparable(m[k])
    case Float(x) => !x.NaN?
    case Discarded => false
    case _ => true
  }

  /** Equality is reflexive on exactly the comparable documents. */
  lemma {:induction false} EqualReflexive(j: Json)
    ensures Equal(j, j) <==> Comparable(j)
  {
    match j
    case Array(x) => forall i | 0 <= i < |x| ensures Equal(x[i], x[i]) <==> Comparable(x[i]) { EqualReflexive(x[i]); }
    case Object(m) => forall k | k in m ensures Equal(m[k], m[k]) <==> Comparable(m[k]) { EqualReflexive(m[k]); }
    case _ =>
  }

  lemma {:induction false} EqualSymmetric(a: Json, b: Json)
    ensures Equal(a, b) <==> Equal(b, a)
  {
    match (a, b)
    case (Array(x), Array(y)) =>
      forall i | 0 <= i < |x| && i < |y|
        ensures Equal(x[i], y[i]) <==> Equal(y[i], x[i])
      { EqualSymmetric(x[i], y[i]); }
    case (Object(m), Object(n)) =>
      forall k | k in m && k in n ensures Equal(m[k], n[k]) <==> Equal(n[k], m[k]) { EqualSymmetric(m[k], n[k]); }
    case _ =>
  }

  lemma {:induction false} EqualIsComparable(a: Json, b: Json)
    requires Equal(a, b)
    ensures Comparable(b)
  {
    match (a, b)
    case (Array(x), Array(y)) => forall i | 0 <= i < |y| ensures Comparable(y[i]) { EqualIsComparable(x[i], y[i]); }
    case (Object(m), Object(n)) => forall k | k in n ensures Comparable(n[k]) { EqualIsComparable(m[k], n[k]); }
    case _ =>
  }

  // ----- what equality means

  /** At every place that both documents have, the values are of the same type. */
  predicate SameKinds(a: Json, b: Json) {
    && KindOf(a) == KindOf(b)
    && (a.Array? && b.Array? ==> forall i | 0 <= i < |a.items| && i < |b.items| :: SameKinds(a.items[i], b.items[i]))
    && (a.Object? && b.Object? ==> forall k | k in a.members && k in b.members :: SameKinds(a.members[k], b.members[k]))
  }

  /** Where the types agree, equality is identity: of texts, bytes with their subtypes,
      numbers, keys, and the order of elements. */
  lemma {:induction false} EqualIsIdentity(a: Json, b: Json)
    requires SameKinds(a, b)
    ensures Equal(a, b) <==> a == b && Comparable(a)
  {
    EqualReflexive(a);
    match (a, b)
    case (Array(x), Array(y)) =>
      if Equal(a, b) {
        forall i | 0 <= i < |x| ensures x[i] == y[i] { EqualIsIdentity(x[i], y[i]); }
        assert x == y;
      }
    case (Object(m), Object(n)) =>
      if Equal(a, b) {
        forall k | k in m ensures m[k] == n[k] { EqualIsIdentity(m[k], n[k]); }
        assert m == n;
      }
    case _ =>
  }

  /** Values of different types are equal only if both are numbers: an integer and a
      double, when the integer is converted to that double; a signed and an unsigned
      integer, when they are congruent modulo 2^64. */
  lemma EqualAcrossKinds(a: Json, b: Json)
    requires KindOf(a) != KindOf(b)
    ensures Equal(a, b) ==> IsNumber(a) && IsNumber(b)
    ensures a.Integer? && b.Float? ==> (Equal(a, b) <==> b.double == Finite(Rounded(a.int64) as real))
    ensures a.Unsigned? && b.Float? ==> (Equal(a, b) <==> b.double == Finite(Rounded(a.uint64) as real))
    ensures a.Integer? && b.Unsigned? ==> (Equal(a, b) <==> (a.int64 - b.uint64) % TWO_TO_THE_64 == 0)
  {
    if a.Integer? && b.Unsigned? {
      var d := a.int64 - b.uint64;
      assert -2 * TWO_TO_THE_64 < d < TWO_TO_THE_64;
      if d % TWO_TO_THE_64 == 0 {
        assert d == 0 || d == -TWO_TO_THE_64;
      }
    }
  }

  /** Every array is small enough to be indexed, and appended to, by `size_type`. */
  predicate FitsSizeType(j: Json) {
    match j
    case Array(x) => |x| < SIZE_MAX && forall i | 0 <= i < |x| :: FitsSizeType(x[i])
    case Object(m) => forall k | k in m :: FitsSizeType(m[k])
    case _ => true
  }
}
