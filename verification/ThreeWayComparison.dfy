/** The comparison `<=>` of documents, which replaces `operator<` from C++20 on, and
    how the two agree. */
module ThreeWayComparison {
  import opened Text
  import opened Values
  import opened Trees
  import opened Ordering

  /** `std::partial_ordering`. */
  datatype PartialOrdering = LessThan | Equivalent | GreaterThan | Unordered

  /** The outcome of a comparison that never fails, from "less" in both directions. */
  function FromLess(forth: bool, back: bool): PartialOrdering {
    if forth then LessThan else if back then GreaterThan else Equivalent
  }

  function CompareDoubles(x: Double, y: Double): PartialOrdering {
    if x.NaN? || y.NaN? then Unordered else FromLess(DoubleLess(x, y), DoubleLess(y, x))
  }

  function CompareIntegers(x: int, y: int): PartialOrdering { FromLess(x < y, y < x) }

  function CompareKinds(k: Kind, l: Kind): PartialOrdering {
    if k.DiscardedKind? || l.DiscardedKind? then Unordered else CompareIntegers(KindRank(k), KindRank(l))
  }

  /** `operator<=>`, as the macro spells it out. */
  function Compare(a: Json, b: Json): PartialOrdering
    decreases Size(a) + Size(b), 1, 0
  {
    if a.Array? && b.Array? then CompareItems(a, b, 0)
    else if a.Object? && b.Object? then CompareMembers(a, b, 0)
    else
      match (a, b)
      case (Null, Null) => Equivalent
      case (String(s), String(t)) => FromLess(Before(s, t), Before(t, s))
      case (Boolean(p), Boolean(q)) => FromLess(!p && q, !q && p)
      case (Integer(i), Integer(k)) => CompareIntegers(i, k)
      case (Unsigned(u), Unsigned(v)) => CompareIntegers(u, v)
      case (Float(x), Float(y)) => CompareDoubles(x, y)
      case (Binary(x, _, _), Binary(y, _, _)) => FromLess(BytesLess(x, y), BytesLess(y, x))
      case (Integer(i), Float(y)) => CompareDoubles(ToDouble(i), y)
      case (Float(x), Integer(i)) => CompareDoubles(x, ToDouble(i))
      case (Unsigned(u), Float(y)) => CompareDoubles(ToDouble(u), y)
      case (Float(x), Unsigned(u)) => CompareDoubles(x, ToDouble(u))
      case (Unsigned(u), Integer(i)) => CompareIntegers(ToInt64(u), i)
      case (Integer(i), Unsigned(u)) => CompareIntegers(i, ToInt64(u))
      case _ => CompareKinds(KindOf(a), KindOf(b))
  }

  /** `std::lexicographical_compare_three_way` of two vectors, from index `i` on: the
      first elements that are not equivalent decide, also when they are unordered. */
  function CompareItems(a: Json, b: Json, i: nat): PartialOrdering
    requires a.Array? && b.Array?
    decreases Size(a) + Size(b), 0, |b.items| - i
  {
    if i >= |a.items| || i >= |b.items| then CompareIntegers(|a.items|, |b.items|)
    else
      ChildSmaller(a, i); ChildSmaller(b, i);
      var c := Compare(a.items[i], b.items[i]);
      if c != Equivalent then c else CompareItems(a, b, i + 1)
  }

  /** The same for two maps, whose entries compare by key, then by value. */
  function CompareMembers(a: Json, b: Json, i: nat): PartialOrdering
    requires a.Object? && b.Object?
    decreases Size(a) + Size(b), 0, |KeysOf(b)| - i
  {
    if i >= |KeysOf(a)| || i >= |KeysOf(b)| then CompareIntegers(|KeysOf(a)|, |KeysOf(b)|)
    else
      ChildSmaller(a, i); ChildSmaller(b, i);
      var k, l := KeysOf(a)[i], KeysOf(b)[i];
      if Before(k, l) then LessThan
      else if Before(l, k) then GreaterThan
      else
        var c := Compare(Children(a)[i], Children(b)[i]);
        if c != Equivalent then c else CompareMembers(a, b, i + 1)
  }

  /** Unless it finds the documents unordered, `<=>` says what `operator<` says in both
      directions. */
  lemma {:induction false} CompareAgrees(a: Json, b: Json)
    requires Compare(a, b) != Unordered
    ensures Compare(a, b) == FromLess(Less(a, b), Less(b, a))
    decreases Size(a) + Size(b), 1, 0
  {
    if a.Array? && b.Array? {
      ItemsAgree(a, b, 0);
    } else if a.Object? && b.Object? {
      MembersAgree(a, b, 0);
    }
  }

  lemma {:induction false} ItemsAgree(a: Json, b: Json, i: nat)
    requires a.Array? && b.Array? && i <= |a.items| && i <= |b.items| && CompareItems(a, b, i) != Unordered
    ensures CompareItems(a, b, i) == FromLess(ItemsLess(a, b, i), ItemsLess(b, a, i))
    decreases Size(a) + Size(b), 0, |b.items| - i
  {
    hide Size, Less, Compare;
    if i < |a.items| && i < |b.items| {
      ChildSmaller(a, i); ChildSmaller(b, i);
      CompareAgrees(a.items[i], b.items[i]);
      if Compare(a.items[i], b.items[i]) == Equivalent { ItemsAgree(a, b, i + 1); }
    }
  }

  lemma {:induction false} MembersAgree(a: Json, b: Json, i: nat)
    requires a.Object? && b.Object? && i <= |KeysOf(a)| && i <= |KeysOf(b)| && CompareMembers(a, b, i) != Unordered
    ensures CompareMembers(a, b, i) == FromLess(MembersLess(a, b, i), MembersLess(b, a, i))
    decreases Size(a) + Size(b), 0, |KeysOf(b)| - i
  {
    hide Size, Less, Compare;
    if i < |KeysOf(a)| && i < |KeysOf(b)| {
      ChildSmaller(a, i); ChildSmaller(b, i);
      var k, l := KeysOf(a)[i], KeysOf(b)[i];
      BeforeTotal(k, l);
      if !Before(k, l) && !Before(l, k) {
        CompareAgrees(Children(a)[i], Children(b)[i]);
        if Compare(Children(a)[i], Children(b)[i]) == Equivalent { MembersAgree(a, b, i + 1); }
      }
    }
  }

  /** `compares_unordered`: NaN with a number, or a discarded value with anything. */
  predicate ComparesUnordered(a: Json, b: Json) {
    || (a.Float? && a.double.NaN? && IsNumber(b))
    || (b.Float? && b.double.NaN? && IsNumber(a))
    || a.Discarded? || b.Discarded?
  }

  lemma UnorderedIs(a: Json, b: Json)
    requires !(a.Array? && b.Array?) && !(a.Object? && b.Object?)
    ensures Compare(a, b) == Unordered <==> ComparesUnordered(a, b)
  {
  }

  /** Two arrays are unordered exactly when the first elements that are not equivalent are. */
  lemma {:induction false} ItemsUnordered(a: Json, b: Json, i: nat)
    requires a.Array? && b.Array?
    ensures CompareItems(a, b, i) == Unordered <==>
            exists k | i <= k < |a.items| && k < |b.items| ::
              && Compare(a.items[k], b.items[k]) == Unordered
              && forall l | i <= l < k :: Compare(a.items[l], b.items[l]) == Equivalent
    decreases |a.items| - i
  {
    hide Compare;
    if i < |a.items| && i < |b.items| && Compare(a.items[i], b.items[i]) == Equivalent {
      ItemsUnordered(a, b, i + 1);
    }
  }

  /** Two objects are unordered exactly when, behind members with the same keys and
      equivalent values, values under the same key are. */
  lemma {:induction false} MembersUnordered(a: Json, b: Json, i: nat)
    requires a.Object? && b.Object?
    ensures CompareMembers(a, b, i) == Unordered <==> exists k :: UnorderedFrom(a, b, i, k)
    decreases |KeysOf(a)| - i
  {
    MemberStep(a, b, i);
    hide Compare, CompareMembers, Size, KeysOf, Children;
    if i < |KeysOf(a)| && i < |KeysOf(b)| {
      if SameMember(a, b, i) {
        var next := i + 1;
        MembersUnordered(a, b, next);
        forall k ensures UnorderedFrom(a, b, i, k) <==> UnorderedFrom(a, b, next, k) { }
      } else {
        forall k | UnorderedFrom(a, b, i, k) ensures k == i { }
        assert CompareMembers(a, b, i) == Unordered <==> UnorderedFrom(a, b, i, i);
      }
    }
  }

  lemma MemberStep(a: Json, b: Json, i: nat)
    requires a.Object? && b.Object?
    ensures i >= |KeysOf(a)| || i >= |KeysOf(b)| ==> CompareMembers(a, b, i) != Unordered
    ensures i < |KeysOf(a)| && i < |KeysOf(b)| ==>
              if SameMember(a, b, i) then CompareMembers(a, b, i) == CompareMembers(a, b, i + 1)
              else
                CompareMembers(a, b, i) == Unordered <==>
                KeysOf(a)[i] == KeysOf(b)[i] && Compare(Children(a)[i], Children(b)[i]) == Unordered
  {
    hide Compare, Size;
    if i < |KeysOf(a)| && i < |KeysOf(b)| { BeforeTotal(KeysOf(a)[i], KeysOf(b)[i]); }
  }

  predicate SameMember(a: Json, b: Json, i: nat)
    requires a.Object? && b.Object? && i < |KeysOf(a)| && i < |KeysOf(b)|
  {
    KeysOf(a)[i] == KeysOf(b)[i] && Compare(Children(a)[i], Children(b)[i]) == Equivalent
  }

  predicate UnorderedFrom(a: Json, b: Json, i: nat, k: nat)
    requires a.Object? && b.Object?
  {
    && i <= k < |KeysOf(a)| && k < |KeysOf(b)|
    && KeysOf(a)[k] == KeysOf(b)[k] && Compare(Children(a)[k], Children(b)[k]) == Unordered
    && forall l | i <= l < k :: SameMember(a, b, l)
  }

  /** Documents without NaN and discarded values are never unordered. */
  lemma {:induction false} ComparableIsOrdered(a: Json, b: Json)
    requires Comparable(a) && Comparable(b)
    ensures Compare(a, b) != Unordered
    decreases Size(a) + Size(b), 1, 0
  {
    if a.Array? && b.Array? {
      ItemsOrdered(a, b, 0);
    } else if a.Object? && b.Object? {
      MembersOrdered(a, b, 0);
    }
  }

  lemma {:induction false} ItemsOrdered(a: Json, b: Json, i: nat)
    requires a.Array? && b.Array? && Comparable(a) && Comparable(b)
    ensures CompareItems(a, b, i) != Unordered
    decreases Size(a) + Size(b), 0, |b.items| - i
  {
    hide Size, Compare;
    if i < |a.items| && i < |b.items| {
      ChildSmaller(a, i); ChildSmaller(b, i);
      ComparableIsOrdered(a.items[i], b.items[i]);
      ItemsOrdered(a, b, i + 1);
    }
  }

  lemma {:induction false} MembersOrdered(a: Json, b: Json, i: nat)
    requires a.Object? && b.Object? && Comparable(a) && Comparable(b)
    ensures CompareMembers(a, b, i) != Unordered
    decreases Size(a) + Size(b), 0, |KeysOf(b)| - i
  {
    hide Size, Compare;
    if i < |KeysOf(a)| && i < |KeysOf(b)| {
      ChildSmaller(a, i); ChildSmaller(b, i);
      assert KeysOf(a)[i] in a.members && KeysOf(b)[i] in b.members;
      ComparableIsOrdered(Children(a)[i], Children(b)[i]);
      MembersOrdered(a, b, i + 1);
    }
  }

  /** Without NaN and discarded values it makes no difference which of the two operators
      the compiler has for `<`, so that its laws hold for either. */
  lemma SameLess(a: Json, b: Json)
    requires Comparable(a) && Comparable(b)
    ensures Compare(a, b) == LessThan <==> Less(a, b)
    ensures Compare(a, b) == GreaterThan <==> !Less(a, b) && Less(b, a)
    ensures Compare(a, b) == Equivalent <==> Incomparable(a, b)
  {
    ComparableIsOrdered(a, b);
    CompareAgrees(a, b);
  }

  /** With NaN it does: `operator<` skips the unordered elements, `<=>` stops there. */
  lemma NaNMakesADifference()
    ensures var a, b := Array([Float(NaN), Integer(1)]), Array([Float(NaN), Integer(2)]);
            Less(a, b) && Compare(a, b) == Unordered
  {
    var a, b := Array([Float(NaN), Integer(1)]), Array([Float(NaN), Integer(2)]);
    assert !Less(a.items[0], b.items[0]) && !Less(b.items[0], a.items[0]);
    assert Less(a.items[1], b.items[1]);
    assert ItemsLess(a, b, 1);
    assert ItemsLess(a, b, 0);
    assert Compare(a.items[0], b.items[0]) == Unordered;
    assert CompareItems(a, b, 0) == Unordered;
  }
}
