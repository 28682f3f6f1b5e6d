/** Why `operator<` needs exact documents: every other document breaks a law of the
    strict weak order together with two suitable ones. */
module OrderBreaks {
  import opened Text
  import opened Values
  import opened Trees
  import opened Ordering
  import opened Rounding

  // ----- single values

  /** A value, the double it rounds to, and one that rounds to the same double. */
  lemma SameDoubleBreaks(a: Json, x: Double, c: Json)
    requires Incomparable(a, Float(x)) && Incomparable(Float(x), c) && !Incomparable(a, c)
    ensures !Lawful(a, Float(x), c)
  {
    hide Less;
  }

  lemma InexactIntegerBreaks(i: Int64) returns (b: Json, c: Json)
    requires Rounded(i) != i
    ensures !Lawful(Integer(i), b, c) && b.Float? && (c.Integer? || c.Unsigned?)
  {
    hide RoundedMagnitude, Lawful;
    var x := ToDouble(i);
    b := Float(x);
    LeastIntegerIsExact();
    if i >= 0 {
      var k := Neighbour(i);
      c := if k < TWO_TO_THE_63 then Integer(k) else Unsigned(k);
    } else {
      var k := Neighbour(-i);
      var m: int := k;
      c := Integer(-m);
    }
    SameDoubleBreaks(Integer(i), x, c);
  }

  lemma InexactUnsignedBreaks(u: Uint64) returns (b: Json, c: Json)
    requires Rounded(u) != u
    ensures !Lawful(Unsigned(u), b, c) && b.Float? && c.Unsigned?
  {
    hide RoundedMagnitude, Lawful;
    b := Float(ToDouble(u));
    var k := Neighbour(u);
    c := Unsigned(k);
    SameDoubleBreaks(Unsigned(u), ToDouble(u), c);
  }

  /** A large unsigned value is above unsigned 0 and below signed 0. */
  lemma LargeUnsignedBreaks(u: Uint64)
    requires u >= TWO_TO_THE_63
    ensures !Lawful(Unsigned(0), Unsigned(u), Integer(0))
  {
    assert Less(Unsigned(0), Unsigned(u)) && Less(Unsigned(u), Integer(0)) && !Less(Unsigned(0), Integer(0));
  }

  /** NaN is incomparable with all numbers, a discarded value with everything. */
  lemma UnorderedBreaks()
    ensures !Lawful(Float(Finite(0.0)), Float(NaN), Float(Finite(1.0)))
    ensures !Lawful(Null, Discarded, Boolean(true))
  {
    assert Less(Float(Finite(0.0)), Float(Finite(1.0)));
    assert Less(Null, Boolean(true));
  }

  // ----- the same inside arrays and objects

  lemma {:induction false} LessIrreflexive(j: Json)
    ensures !Less(j, j)
    decreases Size(j), 1, 0
  {
    match j
    case Array(a) => ItemsIrreflexive(j, j, 0);
    case Object(m) => MembersIrreflexive(j, j, 0);
    case String(s) => BeforeTotal(s, s);
    case Binary(x, _, _) => BytesIrreflexive(x);
    case _ =>
  }

  lemma {:induction false} BytesIrreflexive(x: seq<Byte>)
    ensures !BytesLess(x, x)
  {
    if x != [] { BytesIrreflexive(x[1..]); }
  }

  /** Arrays that agree from index `i` on. */
  lemma {:induction false} ItemsIrreflexive(a: Json, b: Json, i: nat)
    requires a.Array? && b.Array? && |a.items| == |b.items| && forall k | i <= k < |a.items| :: a.items[k] == b.items[k]
    ensures !ItemsLess(a, b, i)
    decreases Size(a), 0, |b.items| - i
  {
    hide Size, Less;
    if i < |b.items| {
      ChildSmaller(a, i);
      LessIrreflexive(a.items[i]);
      ItemsIrreflexive(a, b, i + 1);
    }
  }

  lemma {:induction false} MembersIrreflexive(a: Json, b: Json, i: nat)
    requires a.Object? && b.Object? && KeysOf(a) == KeysOf(b)
    requires forall k | i <= k < |KeysOf(a)| :: Children(a)[k] == Children(b)[k]
    ensures !MembersLess(a, b, i)
    decreases Size(a), 0, |KeysOf(b)| - i
  {
    hide Size, Less;
    if i < |KeysOf(b)| {
      ChildSmaller(a, i);
      LessIrreflexive(Children(a)[i]);
      BeforeTotal(KeysOf(a)[i], KeysOf(a)[i]);
      MembersIrreflexive(a, b, i + 1);
    }
  }

  /** Arrays that differ in one place compare as they do there. */
  lemma {:induction false} ItemsDiffer(a: Json, b: Json, i: nat, k: nat)
    requires a.Array? && b.Array? && |a.items| == |b.items| && i <= k < |a.items|
    requires forall l | 0 <= l < |a.items| && l != k :: a.items[l] == b.items[l]
    ensures ItemsLess(a, b, i) <==> Less(a.items[k], b.items[k])
    decreases k - i
  {
    if i < k {
      LessIrreflexive(a.items[i]);
      ItemsDiffer(a, b, i + 1, k);
    } else {
      ItemsIrreflexive(a, b, i + 1);
    }
  }

  lemma {:induction false} MembersDiffer(a: Json, b: Json, i: nat, k: nat)
    requires a.Object? && b.Object? && KeysOf(a) == KeysOf(b) && i <= k < |KeysOf(a)|
    requires forall l | 0 <= l < |KeysOf(a)| && l != k :: Children(a)[l] == Children(b)[l]
    ensures MembersLess(a, b, i) <==> Less(Children(a)[k], Children(b)[k])
    decreases k - i
  {
    BeforeTotal(KeysOf(a)[i], KeysOf(a)[i]);
    if i < k {
      LessIrreflexive(Children(a)[i]);
      MembersDiffer(a, b, i + 1, k);
    } else {
      MembersIrreflexive(a, b, i + 1);
    }
  }

  lemma LiftItem(a: seq<Json>, k: nat, x: Json, y: Json)
    requires k < |a|
    ensures Less(Array(a[k := x]), Array(a[k := y])) <==> Less(x, y)
  {
    ItemsDiffer(Array(a[k := x]), Array(a[k := y]), 0, k);
  }

  lemma LiftMember(m: map<string, Json>, key: string, x: Json, y: Json)
    requires key in m
    ensures Less(Object(m[key := x]), Object(m[key := y])) <==> Less(x, y)
  {
    var a, b := Object(m[key := x]), Object(m[key := y]);
    assert a.members.Keys == m.Keys && b.members.Keys == m.Keys;
    var keys := SortedKeys(m.Keys);
    var k :| 0 <= k < |keys| && keys[k] == key;
    forall l | 0 <= l < |keys| && l != k ensures Children(a)[l] == Children(b)[l] {
      SortedDistinct(keys, k, l);
      assert keys[l] in m;
    }
    MembersDiffer(a, b, 0, k);
  }

  /** `j` in the middle of the two others, or in front of them. */
  function Placed(j: Json, b: Json, c: Json, middle: bool): (Json, Json, Json) {
    if middle then (b, j, c) else (j, b, c)
  }

  predicate LawfulTriple(t: (Json, Json, Json)) { Lawful(t.0, t.1, t.2) }

  lemma LiftItemTriple(a: seq<Json>, k: nat, t: (Json, Json, Json))
    requires k < |a|
    ensures LawfulTriple((Array(a[k := t.0]), Array(a[k := t.1]), Array(a[k := t.2]))) <==> LawfulTriple(t)
  {
    hide Less;
    LiftItem(a, k, t.0, t.0); LiftItem(a, k, t.0, t.1); LiftItem(a, k, t.1, t.0);
    LiftItem(a, k, t.1, t.2); LiftItem(a, k, t.2, t.1); LiftItem(a, k, t.0, t.2); LiftItem(a, k, t.2, t.0);
  }

  lemma LiftMemberTriple(m: map<string, Json>, k: string, t: (Json, Json, Json))
    requires k in m
    ensures LawfulTriple((Object(m[k := t.0]), Object(m[k := t.1]), Object(m[k := t.2]))) <==> LawfulTriple(t)
  {
    hide Less;
    LiftMember(m, k, t.0, t.0); LiftMember(m, k, t.0, t.1); LiftMember(m, k, t.1, t.0);
    LiftMember(m, k, t.1, t.2); LiftMember(m, k, t.2, t.1); LiftMember(m, k, t.0, t.2); LiftMember(m, k, t.2, t.0);
  }

  /** The numbers in the document, at any depth, are of these kinds. */
  predicate OfKinds(p: Numbers, j: Json) {
    match j
    case Array(a) => forall i | 0 <= i < |a| :: OfKinds(p, a[i])
    case Object(m) => forall k | k in m :: OfKinds(p, m[k])
    case Integer(_) => p.signed
    case Float(_) => p.floats
    case _ => true
  }

  lemma {:induction false} ExactIsOfKinds(p: Numbers, j: Json)
    requires Exact(p, j)
    ensures OfKinds(p, j)
  {
    match j
    case Array(a) => forall i | 0 <= i < |a| ensures OfKinds(p, a[i]) { ExactIsOfKinds(p, a[i]); }
    case Object(m) => forall k | k in m ensures OfKinds(p, m[k]) { ExactIsOfKinds(p, m[k]); }
    case _ =>
  }

  /** A single value that is not exact. */
  lemma InexactValueBreaks(p: Numbers, j: Json) returns (b: Json, c: Json, middle: bool)
    requires OfKinds(p, j) && !Exact(p, j) && !j.Array? && !j.Object?
    ensures !LawfulTriple(Placed(j, b, c, middle)) && OfKinds(p, b) && OfKinds(p, c)
  {
    middle := true;
    match j
    case Integer(i) =>
      b, c := InexactIntegerBreaks(i);
      middle := false;
    case Unsigned(u) =>
      if p.signed && u >= TWO_TO_THE_63 {
        LargeUnsignedBreaks(u);
        b, c := Unsigned(0), Integer(0);
      } else {
        b, c := InexactUnsignedBreaks(u);
        middle := false;
      }
    case Float(_) =>
      UnorderedBreaks();
      b, c := Float(Finite(0.0)), Float(Finite(1.0));
    case Discarded =>
      UnorderedBreaks();
      b, c := Null, Boolean(true);
  }

  /** Among the documents with numbers of some kinds, every one that is not exact for
      them, through a value at any depth, breaks a law of the strict weak order together
      with two others. */
  lemma {:induction false} InexactBreaksOrder(p: Numbers, j: Json) returns (b: Json, c: Json, middle: bool)
    requires OfKinds(p, j) && !Exact(p, j)
    ensures !LawfulTriple(Placed(j, b, c, middle)) && OfKinds(p, b) && OfKinds(p, c)
  {
    hide Lawful;
    if j.Array? {
      var a := j.items;
      var k :| 0 <= k < |a| && !Exact(p, a[k]);
      var x, y;
      x, y, middle := InexactBreaksOrder(p, a[k]);
      b, c := Array(a[k := x]), Array(a[k := y]);
      assert a[k := a[k]] == a;
      LiftItemTriple(a, k, Placed(a[k], x, y, middle));
    } else if j.Object? {
      var m := j.members;
      var k :| k in m && !Exact(p, m[k]);
      var x, y;
      x, y, middle := InexactBreaksOrder(p, m[k]);
      b, c := Object(m[k := x]), Object(m[k := y]);
      assert m[k := m[k]] == m;
      LiftMemberTriple(m, k, Placed(m[k], x, y, middle));
    } else {
      b, c, middle := InexactValueBreaks(p, j);
    }
  }
}
