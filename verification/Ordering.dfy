/** The comparison `operator<` of documents (before C++20). */
module Ordering {
  import opened Text
  import opened Values
  import opened Trees

  // ----- the operator

  /** The table in `operator<` of `value_t`. */
  function KindRank(k: Kind): nat
    requires !k.DiscardedKind?
  {
    match k
    case NullKind => 0
    case ObjectKind => 3
    case ArrayKind => 4
    case StringKind => 5
    case BooleanKind => 1
    case IntegerKind => 2
    case UnsignedKind => 2
    case FloatKind => 2
    case BinaryKind => 6
  }

  predicate KindLess(k: Kind, l: Kind) {
    !k.DiscardedKind? && !l.DiscardedKind? && KindRank(k) < KindRank(l)
  }

  predicate DoubleLess(x: Double, y: Double) {
    match (x, y)
    case (Finite(p), Finite(q)) => p < q
    case (Infinity(n), Finite(_)) => n
    case (Finite(_), Infinity(n)) => !n
    case (Infinity(n), Infinity(o)) => n && !o
    case _ => false
  }

  predicate BytesLess(x: seq<Byte>, y: seq<Byte>) {
    if y == [] then false
    else if x == [] then true
    else if x[0] != y[0] then x[0] < y[0]
    else BytesLess(x[1..], y[1..])
  }

  /** `operator<`, as the macro spells it out: same type, mixed numbers, and
      otherwise the order of the types. */
  predicate Less(a: Json, b: Json)
    decreases Size(a) + Size(b), 1, 0
  {
    if a.Array? && b.Array? then ItemsLess(a, b, 0)
    else if a.Object? && b.Object? then MembersLess(a, b, 0)
    else
      match (a, b)
      case (Null, Null) => false
      case (String(s), String(t)) => Before(s, t)
      case (Boolean(p), Boolean(q)) => !p && q
      case (Integer(i), Integer(k)) => i < k
      case (Unsigned(u), Unsigned(v)) => u < v
      case (Float(x), Float(y)) => DoubleLess(x, y)
      case (Binary(x, _, _), Binary(y, _, _)) => BytesLess(x, y)
      case (Integer(i), Float(y)) => DoubleLess(ToDouble(i), y)
      case (Float(x), Integer(i)) => DoubleLess(x, ToDouble(i))
      case (Unsigned(u), Float(y)) => DoubleLess(ToDouble(u), y)
      case (Float(x), Unsigned(u)) => DoubleLess(x, ToDouble(u))
      case (Unsigned(u), Integer(i)) => ToInt64(u) < i
      case (Integer(i), Unsigned(u)) => i < ToInt64(u)
      case _ => KindLess(KindOf(a), KindOf(b))
  }

  /** `std::lexicographical_compare` of two vectors, from index `i` on. */
  predicate ItemsLess(a: Json, b: Json, i: nat)
    requires a.Array? && b.Array?
    decreases Size(a) + Size(b), 0, |b.items| - i
  {
    if i >= |b.items| then false
    else if i >= |a.items| then true
    else
      ChildSmaller(a, i); ChildSmaller(b, i);
      if Less(a.items[i], b.items[i]) then true
      else if Less(b.items[i], a.items[i]) then false
      else ItemsLess(a, b, i + 1)
  }

  function KeysOf(j: Json): seq<string>
    requires j.Object?
  {
    SortedKeys(j.members.Keys)
  }

  /** The same for two maps, whose entries compare by key, then by value. */
  predicate MembersLess(a: Json, b: Json, i: nat)
    requires a.Object? && b.Object?
    decreases Size(a) + Size(b), 0, |KeysOf(b)| - i
  {
    if i >= |KeysOf(b)| then false
    else if i >= |KeysOf(a)| then true
    else
      ChildSmaller(a, i); ChildSmaller(b, i);
      var k, l := KeysOf(a)[i], KeysOf(b)[i];
      var x, y := Children(a)[i], Children(b)[i];
      if Before(k, l) || (!Before(l, k) && Less(x, y)) then true
      else if Before(l, k) || (!Before(k, l) && Less(y, x)) then false
      else MembersLess(a, b, i + 1)
  }

  // ----- a total order on trees

  /** A document reduced to what the comparison looks at. */
  datatype Tree = Tree(rank: nat, number: real, text: string, kids: seq<Tree>)

  predicate TreeLess(x: Tree, y: Tree)
    decreases x, 1
  {
    if x.rank != y.rank then x.rank < y.rank
    else if x.number != y.number then x.number < y.number
    else if x.text != y.text then Before(x.text, y.text)
    else KidsLess(x.kids, y.kids)
  }

  predicate KidsLess(xs: seq<Tree>, ys: seq<Tree>)
    decreases xs, 0
  {
    if ys == [] then false
    else if xs == [] then true
    else if xs[0] != ys[0] then TreeLess(xs[0], ys[0])
    else KidsLess(xs[1..], ys[1..])
  }

  lemma {:induction false} TreeTotal(x: Tree, y: Tree)
    ensures TreeLess(x, y) || x == y || TreeLess(y, x)
    ensures !(TreeLess(x, y) && TreeLess(y, x))
    ensures x == y ==> !TreeLess(x, y)
    decreases x, 1
  {
    BeforeTotal(x.text, y.text);
    KidsTotal(x.kids, y.kids);
  }

  lemma {:induction false} KidsTotal(xs: seq<Tree>, ys: seq<Tree>)
    ensures KidsLess(xs, ys) || xs == ys || KidsLess(ys, xs)
    ensures !(KidsLess(xs, ys) && KidsLess(ys, xs))
    ensures xs == ys ==> !KidsLess(xs, ys)
    decreases xs, 0
  {
    if xs != [] && ys != [] {
      TreeTotal(xs[0], ys[0]);
      KidsTotal(xs[1..], ys[1..]);
      if xs[0] == ys[0] && xs[1..] == ys[1..] {
        assert xs == [xs[0]] + xs[1..] == ys;
      }
    }
  }

  lemma {:induction false} TreeTransitive(x: Tree, y: Tree, z: Tree)
    requires TreeLess(x, y) && TreeLess(y, z)
    ensures TreeLess(x, z)
    decreases x, 1
  {
    BeforeTotal(x.text, y.text); BeforeTotal(y.text, z.text); BeforeTotal(x.text, z.text);
    if Before(x.text, y.text) && Before(y.text, z.text) { BeforeTransitive(x.text, y.text, z.text); }
    if KidsLess(x.kids, y.kids) && KidsLess(y.kids, z.kids) { KidsTransitive(x.kids, y.kids, z.kids); }
  }

  lemma {:induction false} KidsTransitive(xs: seq<Tree>, ys: seq<Tree>, zs: seq<Tree>)
    requires KidsLess(xs, ys) && KidsLess(ys, zs)
    ensures KidsLess(xs, zs)
    decreases xs, 0
  {
    if xs != [] {
      TreeTotal(xs[0], ys[0]); TreeTotal(ys[0], zs[0]); TreeTotal(xs[0], zs[0]);
      if TreeLess(xs[0], ys[0]) && TreeLess(ys[0], zs[0]) { TreeTransitive(xs[0], ys[0], zs[0]); }
      if xs[0] == ys[0] == zs[0] { KidsTransitive(xs[1..], ys[1..], zs[1..]); }
    }
  }

  // ----- documents as trees

  /** Which kinds of numbers documents may hold beside unsigned integers. */
  datatype Numbers = Numbers(signed: bool, floats: bool)

  /** The number keeps its value in every comparison with numbers of these kinds:
      beside floats it is a double, and beside signed integers it fits their type. */
  predicate ExactNumber(p: Numbers, j: Json) {
    match j
    case Integer(i) => p.signed && (p.floats ==> Rounded(i) == i)
    case Unsigned(u) => (p.signed ==> u < TWO_TO_THE_63) && (p.floats ==> Rounded(u) == u)
    case Float(x) => p.floats && !x.NaN?
    case _ => true
  }

  predicate ExactNumbers(p: Numbers, j: Json)
    decreases j
  {
    && ExactNumber(p, j)
    && (j.Array? ==> forall i | 0 <= i < |j.items| :: ExactNumbers(p, j.items[i]))
    && (j.Object? ==> forall k | k in j.members :: ExactNumbers(p, j.members[k]))
  }

  /** No NaN, no discarded value, and only exact numbers, at every depth. */
  predicate Exact(p: Numbers, j: Json) { Comparable(j) && ExactNumbers(p, j) }

  function NumberTree(x: Double): Tree
    requires !x.NaN?
  {
    match x
    case Infinity(n) => Tree(if n then 20 else 22, 0.0, "", [])
    case Finite(v) => Tree(21, v, "", [])
  }

  function ByteTrees(x: seq<Byte>): (r: seq<Tree>)
    ensures |r| == |x| && forall i | 0 <= i < |x| :: r[i] == Tree(x[i], 0.0, "", [])
  {
    seq(|x|, i requires 0 <= i < |x| => Tree(x[i], 0.0, "", []))
  }

  function EntryTree(k: string, v: Tree): Tree { Tree(0, 0.0, k, [v]) }

  function Canon(j: Json): Tree
    requires Comparable(j)
    decreases j
  {
    match j
    case Null => Tree(0, 0.0, "", [])
    case Boolean(p) => Tree(10, if p then 1.0 else 0.0, "", [])
    case Integer(i) => NumberTree(Finite(i as real))
    case Unsigned(u) => NumberTree(Finite(u as real))
    case Float(x) => NumberTree(x)
    case Object(m) =>
      var keys := SortedKeys(m.Keys);
      Tree(30, 0.0, "", seq(|keys|, i requires 0 <= i < |keys| => EntryTree(keys[i], Canon(m[keys[i]]))))
    case Array(a) => Tree(40, 0.0, "", seq(|a|, i requires 0 <= i < |a| => Canon(a[i])))
    case String(s) => Tree(50, 0.0, s, [])
    case Binary(x, _, _) => Tree(60, 0.0, "", ByteTrees(x))
  }

  lemma {:induction false} BytesLessIsKidsLess(x: seq<Byte>, y: seq<Byte>)
    ensures BytesLess(x, y) <==> KidsLess(ByteTrees(x), ByteTrees(y))
  {
    if x != [] && y != [] {
      BytesLessIsKidsLess(x[1..], y[1..]);
      assert ByteTrees(x)[1..] == ByteTrees(x[1..]) && ByteTrees(y)[1..] == ByteTrees(y[1..]);
      var s, t := ByteTrees(x)[0], ByteTrees(y)[0];
      assert s == t <==> x[0] == y[0];
    }
  }

  /** The tree order of two numbers, and of values of different types. */
  lemma NumbersLess(p: Numbers, a: Json, b: Json)
    requires Exact(p, a) && Exact(p, b) && IsNumber(a) && IsNumber(b)
    ensures Less(a, b) <==> TreeLess(Canon(a), Canon(b))
  {
  }

  lemma KindsLess(p: Numbers, a: Json, b: Json)
    requires Exact(p, a) && Exact(p, b) && KindOf(a) != KindOf(b) && !(IsNumber(a) && IsNumber(b))
    ensures Less(a, b) <==> TreeLess(Canon(a), Canon(b))
  {
    assert Less(a, b) <==> KindRank(KindOf(a)) < KindRank(KindOf(b));
    TreeRank(p, a);
    TreeRank(p, b);
  }

  lemma TreeRank(p: Numbers, a: Json)
    requires Exact(p, a)
    ensures Canon(a).rank / 10 == KindRank(KindOf(a)) && (!IsNumber(a) ==> Canon(a).rank % 10 == 0)
  {
  }

  /** On exact documents `Less` is the order of their trees. */
  lemma {:induction false} LessIsTreeLess(p: Numbers, a: Json, b: Json)
    requires Exact(p, a) && Exact(p, b)
    ensures Less(a, b) <==> TreeLess(Canon(a), Canon(b))
    decreases Size(a) + Size(b), 1, 0
  {
    if a.Array? && b.Array? {
      ItemsLessIsKidsLess(p, a, b, 0);
      assert Canon(a).kids[0..] == Canon(a).kids && Canon(b).kids[0..] == Canon(b).kids;
    } else if a.Object? && b.Object? {
      MembersLessIsKidsLess(p, a, b, 0);
      assert Canon(a).kids[0..] == Canon(a).kids && Canon(b).kids[0..] == Canon(b).kids;
    } else if IsNumber(a) && IsNumber(b) {
      NumbersLess(p, a, b);
    } else if KindOf(a) != KindOf(b) {
      KindsLess(p, a, b);
    } else if a.Binary? {
      BytesLessIsKidsLess(a.bytes, b.bytes);
    } else if a.String? {
      BeforeTotal(a.text, b.text);
    }
  }

  lemma {:induction false} ItemsLessIsKidsLess(p: Numbers, a: Json, b: Json, i: nat)
    requires a.Array? && b.Array? && Exact(p, a) && Exact(p, b) && i <= |a.items| && i <= |b.items|
    ensures ItemsLess(a, b, i) <==> KidsLess(Canon(a).kids[i..], Canon(b).kids[i..])
    decreases Size(a) + Size(b), 0, |b.items| - i
  {
    if i < |a.items| && i < |b.items| {
      ChildSmaller(a, i); ChildSmaller(b, i);
      LessIsTreeLess(p, a.items[i], b.items[i]);
      LessIsTreeLess(p, b.items[i], a.items[i]);
      TreeTotal(Canon(a.items[i]), Canon(b.items[i]));
      ItemsLessIsKidsLess(p, a, b, i + 1);
      var xs, ys := Canon(a).kids, Canon(b).kids;
      assert xs[i..][0] == Canon(a.items[i]) && ys[i..][0] == Canon(b.items[i]);
      assert xs[i..][1..] == xs[i + 1..] && ys[i..][1..] == ys[i + 1..];
    }
  }

  lemma EntryOrder(k: string, x: Tree, l: string, y: Tree)
    ensures TreeLess(EntryTree(k, x), EntryTree(l, y)) <==> Before(k, l) || (!Before(l, k) && TreeLess(x, y))
  {
    BeforeTotal(k, l);
    TreeTotal(x, y);
    assert KidsLess([x], [y]) <==> TreeLess(x, y) by {
      if x == y { assert !KidsLess([x][1..], [y][1..]); }
    }
  }

  lemma {:induction false} MembersLessIsKidsLess(p: Numbers, a: Json, b: Json, i: nat)
    requires a.Object? && b.Object? && Exact(p, a) && Exact(p, b) && i <= |KeysOf(a)| && i <= |KeysOf(b)|
    ensures MembersLess(a, b, i) <==> KidsLess(Canon(a).kids[i..], Canon(b).kids[i..])
    decreases Size(a) + Size(b), 0, |KeysOf(b)| - i
  {
    hide Size, Less, TreeLess, Before;
    if i < |KeysOf(a)| && i < |KeysOf(b)| {
      ChildSmaller(a, i); ChildSmaller(b, i);
      var k, l := KeysOf(a)[i], KeysOf(b)[i];
      var v, w := Children(a)[i], Children(b)[i];
      assert k in a.members && l in b.members;
      LessIsTreeLess(p, v, w);
      LessIsTreeLess(p, w, v);
      MembersLessIsKidsLess(p, a, b, i + 1);
      var xs, ys := Canon(a).kids, Canon(b).kids;
      assert xs[i..][0] == EntryTree(k, Canon(v)) && ys[i..][0] == EntryTree(l, Canon(w));
      assert xs[i..][1..] == xs[i + 1..] && ys[i..][1..] == ys[i + 1..];
      EntryOrder(k, Canon(v), l, Canon(w));
      EntryOrder(l, Canon(w), k, Canon(v));
      TreeTotal(xs[i], ys[i]);
    }
  }

  /** At every place where both documents hold binary values, the subtypes agree. */
  predicate SameSubtypes(a: Json, b: Json) {
    match (a, b)
    case (Array(x), Array(y)) => forall i | 0 <= i < |x| && i < |y| :: SameSubtypes(x[i], y[i])
    case (Object(m), Object(n)) => forall k | k in m && k in n :: SameSubtypes(m[k], n[k])
    case (Binary(_, s, h), Binary(_, t, g)) => s == t && h == g
    case _ => true
  }

  lemma SameBytes(x: seq<Byte>, y: seq<Byte>)
    ensures ByteTrees(x) == ByteTrees(y) <==> x == y
  {
    if ByteTrees(x) == ByteTrees(y) {
      forall i | 0 <= i < |x| ensures x[i] == y[i] { assert ByteTrees(x)[i] == ByteTrees(y)[i]; }
    }
  }

  /** Exact documents compare equal exactly when their trees are the same and, which the
      trees leave out, the subtypes of binary values. */
  lemma {:induction false} EqualIsSameTree(p: Numbers, a: Json, b: Json)
    requires Exact(p, a) && Exact(p, b)
    ensures Equal(a, b) <==> Canon(a) == Canon(b) && SameSubtypes(a, b)
    decreases a, 1
  {
    if a.Array? && b.Array? {
      var xs, ys := Canon(a).kids, Canon(b).kids;
      forall i | 0 <= i < |a.items| && i < |b.items|
        ensures Equal(a.items[i], b.items[i]) <==> xs[i] == ys[i] && SameSubtypes(a.items[i], b.items[i])
      {
        EqualIsSameTree(p, a.items[i], b.items[i]);
      }
      if Equal(a, b) { assert xs == ys; }
    } else if a.Object? && b.Object? {
      ObjectsSameTree(p, a, b);
    } else if a.Binary? && b.Binary? {
      SameBytes(a.bytes, b.bytes);
    }
  }

  lemma {:induction false} ObjectsSameTree(p: Numbers, a: Json, b: Json)
    requires a.Object? && b.Object? && Exact(p, a) && Exact(p, b)
    ensures Equal(a, b) <==> Canon(a) == Canon(b) && SameSubtypes(a, b)
    decreases a, 0
  {
    var ks, xs := KeysOf(a), Canon(a).kids;
    forall k | k in a.members && k in b.members
      ensures Equal(a.members[k], b.members[k]) <==>
              Canon(a.members[k]) == Canon(b.members[k]) && SameSubtypes(a.members[k], b.members[k])
    {
      EqualIsSameTree(p, a.members[k], b.members[k]);
    }
    if Equal(a, b) {
      forall i | 0 <= i < |ks| ensures xs[i] == Canon(b).kids[i] { assert ks[i] in a.members; }
      assert xs == Canon(b).kids;
    }
    if Canon(a) == Canon(b) {
      SameEntries(p, a, b);
    }
  }

  lemma SameEntries(p: Numbers, a: Json, b: Json)
    requires a.Object? && b.Object? && Exact(p, a) && Exact(p, b) && Canon(a).kids == Canon(b).kids
    ensures a.members.Keys == b.members.Keys
    ensures forall k | k in a.members :: Canon(a.members[k]) == Canon(b.members[k])
  {
    var ks, ls, xs, ys := KeysOf(a), KeysOf(b), Canon(a).kids, Canon(b).kids;
    forall i | 0 <= i < |ks| ensures ks[i] == ls[i] { assert xs[i].text == ys[i].text; }
    assert ks == ls;
    forall k ensures k in a.members <==> k in b.members { assert k in ks <==> k in ls; }
    forall k | k in a.members ensures Canon(a.members[k]) == Canon(b.members[k]) {
      var i :| 0 <= i < |ks| && ks[i] == k;
      assert xs[i].kids[0] == ys[i].kids[0];
    }
  }

  // ----- strict weak order

  predicate Incomparable(a: Json, b: Json) { !Less(a, b) && !Less(b, a) }

  predicate Unrelated(x: Tree, y: Tree) { !TreeLess(x, y) && !TreeLess(y, x) }

  lemma UnrelatedIsSame(x: Tree, y: Tree)
    ensures Unrelated(x, y) <==> x == y
  {
    hide TreeLess;
    TreeTotal(x, y);
    TreeTotal(y, x);
  }

  lemma IncomparableIsSameTree(p: Numbers, a: Json, b: Json)
    requires Exact(p, a) && Exact(p, b)
    ensures Incomparable(a, b) <==> Canon(a) == Canon(b)
  {
    hide TreeLess, Less, Canon, Comparable, ExactNumbers;
    LessIsTreeLess(p, a, b);
    LessIsTreeLess(p, b, a);
    UnrelatedIsSame(Canon(a), Canon(b));
  }

  /** The laws of a strict weak order for these three documents in this order. */
  predicate Lawful(a: Json, b: Json, c: Json) {
    && !Less(a, a)
    && (Less(a, b) ==> !Less(b, a))
    && (Less(a, b) && Less(b, c) ==> Less(a, c))
    && (Incomparable(a, b) && Incomparable(b, c) ==> Incomparable(a, c))
  }

  lemma TreesLawful(x: Tree, y: Tree, z: Tree)
    ensures !TreeLess(x, x)
    ensures TreeLess(x, y) ==> !TreeLess(y, x)
    ensures TreeLess(x, y) && TreeLess(y, z) ==> TreeLess(x, z)
  {
    hide TreeLess;
    TreeTotal(x, x);
    TreeTotal(x, y);
    if TreeLess(x, y) && TreeLess(y, z) { TreeTransitive(x, y, z); }
  }

  /** On documents that are exact for the kinds of numbers they may hold, `operator<` is
      a strict weak order.  Without floats these are all 64-bit signed integers, and the
      unsigned ones below 2^63; without signed integers and floats, all unsigned ones. */
  lemma StrictWeakOrder(p: Numbers, a: Json, b: Json, c: Json)
    requires Exact(p, a) && Exact(p, b) && Exact(p, c)
    ensures Lawful(a, b, c)
  {
    hide TreeLess, Less, Canon, Comparable, ExactNumbers, Incomparable;
    LessIsTreeLess(p, a, a);
    LessIsTreeLess(p, a, b); LessIsTreeLess(p, b, a);
    LessIsTreeLess(p, b, c); LessIsTreeLess(p, a, c);
    TreesLawful(Canon(a), Canon(b), Canon(c));
    IncomparableIsSameTree(p, a, b); IncomparableIsSameTree(p, b, c); IncomparableIsSameTree(p, a, c);
  }

  /** Two of them are equal exactly when they are incomparable and agree in the subtypes
      of binary values, which `operator<` does not look at. */
  lemma IncomparableIsEqual(p: Numbers, a: Json, b: Json)
    requires Exact(p, a) && Exact(p, b)
    ensures Equal(a, b) <==> Incomparable(a, b) && SameSubtypes(a, b)
  {
    IncomparableIsSameTree(p, a, b);
    EqualIsSameTree(p, a, b);
  }

  // ----- why the conditions are needed

  /** Beyond 2^53 rounding makes incomparability intransitive. */
  lemma RoundingBreaksOrder()
    ensures var big := TWO_TO_THE_53;
            var a, b, c := Integer(big + 1), Float(Finite(big as real)), Integer(big);
            Incomparable(a, b) && Incomparable(b, c) && !Incomparable(a, c)
  {
    var n := TWO_TO_THE_53 + 1;
    assert Spacing(n / 2) == 1;
    assert Spacing(n) == 2;
    assert Rounded(n) == TWO_TO_THE_53;
  }

  /** A large unsigned value wraps to a negative one in mixed comparisons. */
  lemma WrappingBreaksOrder()
    ensures var u := Unsigned(TWO_TO_THE_64 - 1);
            && Equal(u, Integer(-1)) && Less(u, Integer(0))
            && Less(Unsigned(0), u) && Incomparable(Unsigned(0), Integer(0))
  {
  }

  /** Subtypes of binary values count for equality only. */
  lemma SubtypesAreNotOrdered()
    ensures var a, b := Binary([], 0, false), Binary([], 1, true);
            Incomparable(a, b) && !Equal(a, b)
  {
  }
}
