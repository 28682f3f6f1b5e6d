/** When `unflatten` restores what `flatten` took apart.

    `unflatten` replays the leaves in the byte order of their printed pointers.
    The proof relates the document it is building to the original, restricted to
    the leaves replayed so far; the order matters only for the first leaf below
    each container, which decides whether a null becomes an array or an object. */
module FlattenLaws {
  import opened Outcomes
  import opened Text
  import opened Escaping
  import opened Values
  import opened Pointers
  import opened Resolution
  import opened Patch
  import opened Flattening

  // ----- the document under construction

  /** The parts below `t` of the pointers that start with `t`. */
  function Sub(done: set<Pointer>, t: string): set<Pointer> {
    set p | p in done && p != [] && p[0] == t :: p[1..]
  }

  /** `d` is the document `v` restricted to the leaves in `done`. */
  predicate Built(d: Json, v: Json, done: set<Pointer>)
    decreases v
  {
    if done == {} then d == Null
    else if Childless(v) then d == LeafValue(v)
    else
      match v
      case Array(a) =>
        && d.Array? && |d.items| <= |a|
        && (forall i | 0 <= i < |d.items| :: Built(d.items[i], a[i], Sub(done, Digits(i))))
        && (forall i | |d.items| <= i < |a| :: Sub(done, Digits(i)) == {})
      case Object(m) =>
        && d.Object? && d.members.Keys <= m.Keys
        && (forall k | k in d.members :: Built(d.members[k], m[k], Sub(done, k)))
        && (forall k | k in m && k !in d.members :: Sub(done, k) == {})
      case _ => false
  }

  /** Wherever the leaf `p` is the first below an array, it is below element 0. */
  predicate ArraysStart(v: Json, done: set<Pointer>, p: Pointer)
    requires IsLeaf(v, p)
    decreases |p|
  {
    p == [] || (
      && (done == {} && v.Array? ==> p[0] == "0")
      && ArraysStart(Peek(Open(Checked, v, p[0]).value), Sub(done, p[0]), p[1..]))
  }

  /** Wherever the leaf `p` is the first below an object, it is not below key "0". */
  predicate ObjectsStart(v: Json, done: set<Pointer>, p: Pointer)
    requires IsLeaf(v, p)
    decreases |p|
  {
    p == [] || (
      && (done == {} && v.Object? ==> p[0] != "0")
      && ObjectsStart(Peek(Open(Checked, v, p[0]).value), Sub(done, p[0]), p[1..]))
  }

  lemma SubOfMore(done: set<Pointer>, p: Pointer, t: string)
    ensures Sub(done + {p}, t) == if p != [] && p[0] == t then Sub(done, t) + {p[1..]} else Sub(done, t)
  {
    var s := Sub(done + {p}, t);
    if p != [] && p[0] == t {
      assert p in done + {p};
      assert s == Sub(done, t) + {p[1..]};
    } else {
      assert s == Sub(done, t);
    }
  }

  lemma SubOfNone(t: string)
    ensures Sub({}, t) == {}
  {
  }

  lemma BuiltFromNothing(v: Json)
    ensures Built(Null, v, {})
  {
  }

  /** The container into which the next leaf below `t` goes. */
  lemma OpenBuilt(d: Json, v: Json, done: set<Pointer>, t: string)
    requires FitsSizeType(v) && Built(d, v, done) && Open(Checked, v, t).Ok?
    requires done == {} && v.Array? ==> t == "0"
    requires done == {} && v.Object? ==> t != "0"
    ensures Open(Creating, d, t).Ok?
    ensures var f, g := Open(Creating, d, t).value, Open(Checked, v, t).value;
            && f.slot == g.slot
            && Built(Peek(f), Peek(g), Sub(done, t))
            && f.container.Array? == v.Array?
  {
    var g := Open(Checked, v, t).value;
    SubOfNone(t);
    BuiltFromNothing(Peek(g));
    if v.Array? {
      ArrayIndexIsDigits(t, g.slot.index);
      if done == {} {
        ArrayIndexIsDigits("0", 0);
        assert Digits(0) == "0";
      }
    }
  }

  /** The part of `PlugBuiltItem` about one index `k`. */
  lemma ItemStaysBuilt(d: Json, v: Json, done: set<Pointer>, i: nat, q: Pointer, child: Json, k: nat)
    requires FitsSizeType(v) && Built(d, v, done) && v.Array? && i < |v.items| && k < |v.items|
    requires done == {} ==> i == 0
    requires Built(child, v.items[i], Sub(done, Digits(i)) + {q})
    ensures var r := Grow(if done == {} then [] else d.items, i)[i := child];
            var sub := Sub(done + {[Digits(i)] + q}, Digits(k));
            if k < |r| then Built(r[k], v.items[k], sub) else sub == {}
  {
    SubOfMore(done, [Digits(i)] + q, Digits(k));
    assert ([Digits(i)] + q)[1..] == q;
    if Digits(k) == Digits(i) { DigitsInjective(k, i); }
    if k != i && (done == {} || k >= |d.items|) {
      SubOfNone(Digits(k));
      BuiltFromNothing(v.items[k]);
    }
  }

  /** Putting a built child back gives a built container with one more leaf. */
  lemma PlugBuiltItem(d: Json, v: Json, done: set<Pointer>, i: nat, q: Pointer, child: Json)
    requires FitsSizeType(v) && Built(d, v, done) && v.Array? && i < |v.items|
    requires done == {} ==> i == 0
    requires Built(child, v.items[i], Sub(done, Digits(i)) + {q})
    ensures var items := if done == {} then [] else d.items;
            Built(Array(Grow(items, i)[i := child]), v, done + {[Digits(i)] + q})
  {
    hide Sub, Digits;
    var r := Grow(if done == {} then [] else d.items, i)[i := child];
    assert [Digits(i)] + q in done + {[Digits(i)] + q};
    forall k: nat | k < |v.items|
      ensures var sub := Sub(done + {[Digits(i)] + q}, Digits(k));
              if k < |r| then Built(r[k], v.items[k], sub) else sub == {}
    {
      ItemStaysBuilt(d, v, done, i, q, child, k);
    }
  }

  /** The part of `PlugBuiltMember` about one member `k`. */
  lemma MemberStaysBuilt(d: Json, v: Json, done: set<Pointer>, t: string, q: Pointer, child: Json, k: string)
    requires Built(d, v, done) && v.Object? && t in v.members && k in v.members
    requires Built(child, v.members[t], Sub(done, t) + {q})
    ensures var r := Ensure(if done == {} then map[] else d.members, t)[t := child];
            var sub := Sub(done + {[t] + q}, k);
            if k in r then Built(r[k], v.members[k], sub) else sub == {}
  {
    SubOfMore(done, [t] + q, k);
    assert ([t] + q)[1..] == q;
    if k != t && done == {} { SubOfNone(k); }
  }

  lemma PlugBuiltMember(d: Json, v: Json, done: set<Pointer>, t: string, q: Pointer, child: Json)
    requires Built(d, v, done) && v.Object? && t in v.members
    requires Built(child, v.members[t], Sub(done, t) + {q})
    ensures var m := if done == {} then map[] else d.members;
            Built(Object(Ensure(m, t)[t := child]), v, done + {[t] + q})
  {
    var r := Ensure(if done == {} then map[] else d.members, t)[t := child];
    assert [t] + q in done + {[t] + q};
    assert r.Keys <= v.members.Keys;
    forall k | k in v.members
      ensures var sub := Sub(done + {[t] + q}, k);
              if k in r then Built(r[k], v.members[k], sub) else sub == {}
    {
      MemberStaysBuilt(d, v, done, t, q, child, k);
    }
  }

  lemma PlugBuilt(d: Json, v: Json, done: set<Pointer>, t: string, q: Pointer, child: Json)
    requires FitsSizeType(v) && Built(d, v, done) && Open(Checked, v, t).Ok?
    requires done == {} && v.Array? ==> t == "0"
    requires done == {} && v.Object? ==> t != "0"
    requires Built(child, Peek(Open(Checked, v, t).value), Sub(done, t) + {q})
    ensures Open(Creating, d, t).Ok? && Built(Plug(Open(Creating, d, t).value, child), v, done + {[t] + q})
  {
    OpenBuilt(d, v, done, t);
    if v.Array? {
      var i := Open(Checked, v, t).value.slot.index;
      ArrayIndexIsDigits(t, i);
      ArrayIndexIsDigits("0", 0);
      assert Digits(0) == "0";
      if done == {} { DigitsInjective(i, 0); }
      PlugBuiltItem(d, v, done, i, q, child);
    } else {
      PlugBuiltMember(d, v, done, t, q, child);
    }
  }

  /** Replaying one more leaf extends the document by exactly that leaf. */
  lemma {:induction false} ReplayLeaf(d: Json, v: Json, done: set<Pointer>, p: Pointer)
    requires FitsSizeType(v) && Built(d, v, done) && IsLeaf(v, p)
    requires ArraysStart(v, done, p) && ObjectsStart(v, done, p)
    ensures EditAt(Creating, d, p, Assign(Leaf(v, p))).Ok?
    ensures Built(EditAt(Creating, d, p, Assign(Leaf(v, p))).value, v, done + {p})
    decreases |p|
  {
    if p != [] {
      var t, q := p[0], p[1..];
      assert p == [t] + q;
      var c := Peek(Open(Checked, v, t).value);
      OpenBuilt(d, v, done, t);
      var f := Open(Creating, d, t).value;
      ReplayLeaf(Peek(f), c, Sub(done, t), q);
      EditBelow(Creating, d, t, q, Assign(Leaf(v, p)));
      PlugBuilt(d, v, done, t, q, EditAt(Creating, Peek(f), q, Assign(Leaf(v, p))).value);
    }
  }

  /** With all leaves replayed the document is the original, pruned. */
  lemma {:induction false} BuiltCompletely(d: Json, v: Json, done: set<Pointer>)
    requires FitsSizeType(v) && Built(d, v, done)
    requires forall p | IsLeaf(v, p) :: p in done
    ensures d == Prune(v)
    decreases v
  {
    var p := HasLeaf(v);
    if !Childless(v) {
      match v
      case Array(a) =>
        forall i | 0 <= i < |a| ensures i < |d.items| && d.items[i] == Prune(a[i]) {
          ItemOpens(v, i);
          SubCovers(v, done, Digits(i));
          var q := HasLeaf(a[i]);
          assert q in Sub(done, Digits(i));
          BuiltCompletely(d.items[i], a[i], Sub(done, Digits(i)));
        }
        assert a[|a| - 1] == a[|a| - 1] && |d.items| == |a|;
        assert d.items == Prune(v).items;
      case Object(m) =>
        forall k | k in m ensures k in d.members && d.members[k] == Prune(m[k]) {
          SubCovers(v, done, k);
          var q := HasLeaf(m[k]);
          assert q in Sub(done, k);
          BuiltCompletely(d.members[k], m[k], Sub(done, k));
        }
        assert d.members == Prune(v).members;
    }
  }

  lemma SubCovers(v: Json, done: set<Pointer>, t: string)
    requires Open(Checked, v, t).Ok? && forall p | IsLeaf(v, p) :: p in done
    ensures forall q | IsLeaf(Peek(Open(Checked, v, t).value), q) :: q in Sub(done, t)
  {
    forall q | IsLeaf(Peek(Open(Checked, v, t).value), q) ensures q in Sub(done, t) {
      LeafBelow(v, t, q);
      assert [t] + q in done && ([t] + q)[1..] == q;
    }
  }

  // ----- an object that was started as an array

  /** Somewhere `d` has an array in the place of a non-empty object of `v`. */
  predicate Broken(d: Json, v: Json)
    decreases v
  {
    match v
    case Array(a) => d.Array? && exists i | 0 <= i < |a| && i < |d.items| :: Broken(d.items[i], a[i])
    case Object(m) =>
      m != map[] && (d.Array? || (d.Object? && exists k | k in m && k in d.members :: Broken(d.members[k], m[k])))
    case _ => false
  }

  lemma {:induction false} BrokenIsNotPruned(d: Json, v: Json)
    requires Broken(d, v)
    ensures d != Prune(v)
  {
    if d == Prune(v) {
      match v
      case Array(a) =>
        var i :| 0 <= i < |a| && i < |d.items| && Broken(d.items[i], a[i]);
        BrokenIsNotPruned(d.items[i], a[i]);
      case Object(m) =>
        var k :| k in m && k in d.members && Broken(d.members[k], m[k]);
        BrokenIsNotPruned(d.members[k], m[k]);
    }
  }

  /** Replaying further leaves does not repair it. */
  lemma {:induction false} StaysBroken(d: Json, v: Json, p: Pointer, x: Json)
    requires Broken(d, v) && IsLeaf(v, p)
    ensures var r := EditAt(Creating, d, p, Assign(x)); r.Ok? ==> Broken(r.value, v)
    decreases |p|
  {
    assert p != [];
    var t, q := p[0], p[1..];
    assert p == [t] + q;
    EditBelow(Creating, d, t, q, Assign(x));
    if EditAt(Creating, d, p, Assign(x)).Ok? {
      var f, g := Open(Creating, d, t).value, Open(Checked, v, t).value;
      var r := EditAt(Creating, d, p, Assign(x)).value;
      match v
      case Array(a) =>
        var i :| 0 <= i < |a| && i < |d.items| && Broken(d.items[i], a[i]);
        if g.slot.index == i { StaysBroken(d.items[i], a[i], q, x); }
        assert Broken(r.items[i], a[i]);
      case Object(m) =>
        if d.Object? {
          var k :| k in m && k in d.members && Broken(d.members[k], m[k]);
          if t == k { StaysBroken(d.members[k], m[k], q, x); }
          assert Broken(r.members[k], m[k]);
        }
    }
  }

  /** A first leaf below key "0" of an object breaks the document. */
  lemma {:induction false} BreaksAtZero(d: Json, v: Json, done: set<Pointer>, p: Pointer, x: Json)
    requires FitsSizeType(v) && Built(d, v, done) && IsLeaf(v, p)
    requires ArraysStart(v, done, p) && !ObjectsStart(v, done, p)
    ensures var r := EditAt(Creating, d, p, Assign(x)); r.Ok? ==> Broken(r.value, v)
    decreases |p|
  {
    var t, q := p[0], p[1..];
    assert p == [t] + q;
    EditBelow(Creating, d, t, q, Assign(x));
    if EditAt(Creating, d, p, Assign(x)).Ok? {
      if !(done == {} && v.Object? && t == "0") {
        OpenBuilt(d, v, done, t);
        var f, g := Open(Creating, d, t).value, Open(Checked, v, t).value;
        BreaksAtZero(Peek(f), Peek(g), Sub(done, t), q, x);
        var r := EditAt(Creating, d, p, Assign(x)).value;
        if v.Array? {
          assert Broken(r.items[g.slot.index], v.items[g.slot.index]);
        } else {
          assert Broken(r.members[t], v.members[t]);
        }
      }
    }
  }

  // ----- the order of the leaves

  /** In byte order, all leaves below member `k` of `m` precede those below "0". */
  predicate PrecedesZero(m: map<string, Json>, k: string)
    requires "0" in m
  {
    var e := Escape(k);
    || e == ""
    || e[0] < '0'
    || (e[0] == '0' && |e| > 1 && !Childless(m["0"]) && e[1] < '/')
  }

  /** No object's first leaf in byte order is below a key "0". */
  predicate Safe(v: Json) {
    match v
    case Array(a) => forall i | 0 <= i < |a| :: Safe(a[i])
    case Object(m) =>
      && ("0" in m ==> exists k | k in m && k != "0" :: PrecedesZero(m, k))
      && forall k | k in m :: Safe(m[k])
    case _ => true
  }

  lemma EscapeOfZero(k: string)
    ensures Escape(k) == "0" <==> k == "0"
    ensures k != "0" && |Escape(k)| == 1 ==> Escape(k)[0] != '0'
  {
    assert Escape("0") == "0" by { assert "0"[1..] == ""; }
    if Escape(k) == "0" { EscapeInjective(k, "0"); }
    if |Escape(k)| == 1 && Escape(k)[0] == '0' { assert Escape(k) == "0"; }
  }

  lemma PrintStarts(p: Pointer)
    ensures p == [] ==> Print(p) == ""
    ensures p != [] ==> Print(p) != "" && Print(p)[0] == '/'
  {
  }

  lemma MembersOrder(m: map<string, Json>, k: string, s: Pointer, s0: Pointer)
    requires "0" in m && k in m && k != "0" && IsLeaf(m["0"], s0)
    ensures Before(Escape(k) + Print(s), Escape("0") + Print(s0)) <==> PrecedesZero(m, k)
  {
    var e := Escape(k);
    EscapeOfZero(k);
    EscapeOfZero("0");
    EscapeIsWellEscaped(k);
    PrintStarts(s);
    PrintStarts(s0);
    var x, y := e + Print(s), "0" + Print(s0);
    assert y[1..] == Print(s0);
    if e == "" {
      assert x == Print(s);
    } else {
      assert x[0] == e[0] && x[1..] == e[1..] + Print(s);
      if e[0] == '0' {
        assert x[1..][0] == e[1] && e[1] in e;
        assert s0 == [] <==> Childless(m["0"]) by { LeafOfChildless(m["0"], s0); }
      }
    }
  }

  lemma LeafOfChildless(j: Json, p: Pointer)
    requires IsLeaf(j, p)
    ensures p == [] <==> Childless(j)
  {
    if p != [] { assert Open(Checked, j, p[0]).Ok?; }
  }

  lemma PrintUnder(q: Pointer, s: string, x: Pointer)
    ensures Print(q + ([s] + x)) == (Print(q) + "/") + (Escape(s) + Print(x))
  {
    PrintAppend(q, [s] + x);
    PrintCons(s, x);
  }

  /** Below a common prefix and slash, what follows decides the order. */
  lemma OrderBelow(q: Pointer, s: string, x: Pointer, t: string, y: Pointer)
    ensures Before(Print(q + ([s] + x)), Print(q + ([t] + y))) <==> Before(Escape(s) + Print(x), Escape(t) + Print(y))
  {
    PrintUnder(q, s, x);
    PrintUnder(q, t, y);
    BeforeSharedPrefix(Print(q) + "/", Escape(s) + Print(x), Escape(t) + Print(y));
  }

  lemma ItemsOrder(i: nat, s: Pointer, s0: Pointer)
    requires i != 0
    ensures Before(Escape("0") + Print(s0), Escape(Digits(i)) + Print(s))
  {
    EscapeOfZero("0");
    EscapeDigits(Digits(i));
    var x, y := "0" + Print(s0), Digits(i) + Print(s);
    assert x[0] == '0' && y[0] == Digits(i)[0];
  }

  /** `done` are the leaves that precede the leaf `p` in byte order. */
  ghost predicate Preceding(v: Json, p: Pointer, done: set<Pointer>) {
    && (forall x | x in done :: IsLeaf(v, x))
    && (forall x | IsLeaf(v, x) :: x in done <==> Before(Print(x), Print(p)))
  }

  lemma SubContains(done: set<Pointer>, t: string, x: Pointer)
    ensures x in Sub(done, t) <==> [t] + x in done
  {
    assert ([t] + x)[0] == t && ([t] + x)[1..] == x;
    if x in Sub(done, t) {
      var y :| y in done && y != [] && y[0] == t && y[1..] == x;
      assert y == [t] + x;
    }
  }

  lemma OrderAfterToken(t: string, x: Pointer, y: Pointer)
    ensures Before(Print([t] + x), Print([t] + y)) <==> Before(Print(x), Print(y))
  {
    PrintCons(t, x);
    PrintCons(t, y);
    BeforeSharedPrefix("/" + Escape(t), Print(x), Print(y));
  }

  lemma PrecedingBelow(v: Json, p: Pointer, done: set<Pointer>)
    requires p != [] && IsLeaf(v, p) && Preceding(v, p, done)
    ensures Preceding(Peek(Open(Checked, v, p[0]).value), p[1..], Sub(done, p[0]))
  {
    var t, q := p[0], p[1..];
    var c := Peek(Open(Checked, v, t).value);
    assert p == [t] + q;
    forall x ensures x in Sub(done, t) <==> [t] + x in done { SubContains(done, t, x); }
    forall x ensures IsLeaf(c, x) <==> IsLeaf(v, [t] + x) { LeafBelow(v, t, x); }
    forall x | IsLeaf(c, x) ensures x in Sub(done, t) <==> Before(Print(x), Print(q)) {
      OrderAfterToken(t, x, q);
    }
  }

  /** Leaves arrive in an order that starts every array at element 0, and, in a
      safe document, no object at key "0". */
  lemma {:induction false} ByteOrderStartsWell(v: Json, p: Pointer, done: set<Pointer>)
    requires FitsSizeType(v) && IsLeaf(v, p) && Preceding(v, p, done)
    ensures ArraysStart(v, done, p)
    ensures Safe(v) ==> ObjectsStart(v, done, p)
    decreases |p|
  {
    if p != [] {
      var t, q := p[0], p[1..];
      assert p == [t] + q;
      var c := Peek(Open(Checked, v, t).value);
      PrecedingBelow(v, p, done);
      ByteOrderStartsWell(c, q, Sub(done, t));
      if v.Array? {
        ArrayIndexIsDigits(t, ArrayIndex(t).value);
        if t != "0" { ArrayStartsAtZero(v, t, q, done); }
      } else if Safe(v) && t == "0" {
        ObjectStartsElsewhere(v, q, done);
      }
    }
  }

  lemma ArrayStartsAtZero(v: Json, t: string, q: Pointer, done: set<Pointer>)
    requires FitsSizeType(v) && v.Array? && IsLeaf(v, [t] + q) && Preceding(v, [t] + q, done) && t != "0"
    ensures done != {}
  {
    var i := ArrayIndex(t).value;
    ArrayIndexIsDigits(t, i);
    assert Digits(0) == "0";
    ItemOpens(v, 0);
    var s := HasLeaf(v.items[0]);
    LeafBelow(v, "0", s);
    OrderBelow([], "0", s, t, q);
    assert [] + (["0"] + s) == ["0"] + s && [] + ([t] + q) == [t] + q;
    ItemsOrder(i, q, s);
    assert ["0"] + s in done;
  }

  lemma ObjectStartsElsewhere(v: Json, q: Pointer, done: set<Pointer>)
    requires FitsSizeType(v) && v.Object? && IsLeaf(v, ["0"] + q) && Preceding(v, ["0"] + q, done) && Safe(v)
    ensures done != {}
  {
    var m := v.members;
    assert ["0"] + q != [] && (["0"] + q)[0] == "0";
    var k :| k in m && k != "0" && PrecedesZero(m, k);
    var s := HasLeaf(m[k]);
    LeafBelow(v, k, s);
    LeafBelow(v, "0", q);
    OrderBelow([], k, s, "0", q);
    assert [] + ([k] + s) == [k] + s && [] + (["0"] + q) == ["0"] + q;
    MembersOrder(m, k, s, q);
    assert [k] + s in done;
  }

  // ----- the sequence of keys that is replayed

  ghost function ReplayOrder(v: Json): seq<string> { SortedKeys(Flat("", v).Keys) }

  function PointerOf(s: string): Pointer {
    if Parse(s).Ok? then Parse(s).value else []
  }

  ghost function Replayed(keys: seq<string>): set<Pointer> {
    set i | 0 <= i < |keys| :: PointerOf(keys[i])
  }

  lemma ReplayKey(v: Json, i: nat)
    requires FitsSizeType(v) && i < |ReplayOrder(v)|
    ensures var s := ReplayOrder(v)[i];
            && s in Flat("", v)
            && Parse(s) == Ok(PointerOf(s)) && Print(PointerOf(s)) == s
            && IsLeaf(v, PointerOf(s)) && Flat("", v)[s] == Leaf(v, PointerOf(s))
  {
    var s := ReplayOrder(v)[i];
    assert s in ReplayOrder(v);
    var p := FlatIsSound("", v, s);
    assert "" + Print(p) == Print(p);
    ParsePrint(p);
  }

  lemma LeafIsReplayed(v: Json, p: Pointer) returns (i: nat)
    requires FitsSizeType(v) && IsLeaf(v, p)
    ensures i < |ReplayOrder(v)| && ReplayOrder(v)[i] == Print(p) && PointerOf(ReplayOrder(v)[i]) == p
  {
    FlatIsComplete("", v, p);
    assert "" + Print(p) == Print(p) && Print(p) in ReplayOrder(v);
    i :| 0 <= i < |ReplayOrder(v)| && ReplayOrder(v)[i] == Print(p);
    ParsePrint(p);
  }

  lemma ReplayedPrecede(v: Json, n: nat)
    requires FitsSizeType(v) && n < |ReplayOrder(v)|
    ensures Preceding(v, PointerOf(ReplayOrder(v)[n]), Replayed(ReplayOrder(v)[..n]))
  {
    var keys := ReplayOrder(v);
    var done := Replayed(keys[..n]);
    ReplayKey(v, n);
    forall x | x in done ensures IsLeaf(v, x) {
      var i :| 0 <= i < n && PointerOf(keys[..n][i]) == x;
      ReplayKey(v, i);
    }
    forall x | IsLeaf(v, x) ensures x in done <==> Before(Print(x), keys[n]) {
      var i := LeafIsReplayed(v, x);
      BeforeTotal(keys[i], keys[n]);
      if i < n {
        assert keys[..n][i] == keys[i];
      } else {
        assert !Before(keys[i], keys[n]) by { if i > n { assert Before(keys[n], keys[i]); } }
        forall k | 0 <= k < n ensures PointerOf(keys[..n][k]) != x {
          ReplayKey(v, k);
          SortedDistinct(keys, i, k);
        }
      }
    }
  }

  lemma ReplayedStep(keys: seq<string>, n: nat)
    requires n < |keys|
    ensures Replayed(keys[..n + 1]) == Replayed(keys[..n]) + {PointerOf(keys[n])}
  {
    var s := Replayed(keys[..n + 1]);
    forall x | x in Replayed(keys[..n]) + {PointerOf(keys[n])} ensures x in s {
      if x in Replayed(keys[..n]) {
        var i :| 0 <= i < n && PointerOf(keys[..n][i]) == x;
        assert keys[..n + 1][i] == keys[..n][i];
      } else {
        assert keys[..n + 1][n] == keys[n];
      }
    }
    forall x | x in s ensures x in Replayed(keys[..n]) + {PointerOf(keys[n])} {
      var i :| 0 <= i < n + 1 && PointerOf(keys[..n + 1][i]) == x;
      if i < n { assert keys[..n][i] == keys[..n + 1][i]; }
    }
  }

  // ----- replaying all keys

  predicate DiscardFree(v: Json) {
    match v
    case Array(a) => forall i | 0 <= i < |a| :: DiscardFree(a[i])
    case Object(m) => forall k | k in m :: DiscardFree(m[k])
    case Discarded => false
    case _ => true
  }

  lemma {:induction false} LeafIsPrimitive(v: Json, p: Pointer)
    requires IsLeaf(v, p) && DiscardFree(v)
    ensures IsPrimitive(Leaf(v, p))
    decreases |p|
  {
    if p != [] { LeafIsPrimitive(Peek(Open(Checked, v, p[0]).value), p[1..]); }
  }

  lemma {:induction false} DiscardedLeaf(v: Json) returns (p: Pointer)
    requires FitsSizeType(v) && !DiscardFree(v)
    ensures IsLeaf(v, p) && !IsPrimitive(Leaf(v, p))
  {
    match v
    case Array(a) =>
      var i :| 0 <= i < |a| && !DiscardFree(a[i]);
      var q := DiscardedLeaf(a[i]);
      ItemOpens(v, i);
      LeafBelow(v, Digits(i), q);
      p := [Digits(i)] + q;
    case Object(m) =>
      var k :| k in m && !DiscardFree(m[k]);
      var q := DiscardedLeaf(m[k]);
      LeafBelow(v, k, q);
      p := [k] + q;
    case Discarded => p := [];
  }

  lemma {:induction false} DiscardedFails(d: Json, m: map<string, Json>, keys: seq<string>, i: nat)
    requires (forall k | k in keys :: k in m) && i < |keys| && !IsPrimitive(m[keys[i]])
    ensures UnflattenFrom(d, m, keys).Err?
    decreases |keys|
  {
    if i > 0 && IsPrimitive(m[keys[0]]) && Parse(keys[0]).Ok? {
      var next := EditAt(Creating, d, Parse(keys[0]).value, Assign(m[keys[0]]));
      if next.Ok? { DiscardedFails(next.value, m, keys[1..], i - 1); }
    }
  }

  /** Does the `n`-th key start no object at "0"? */
  ghost predicate StartsWell(v: Json, n: nat)
    requires FitsSizeType(v) && n < |ReplayOrder(v)|
  {
    ReplayKey(v, n);
    ObjectsStart(v, Replayed(ReplayOrder(v)[..n]), PointerOf(ReplayOrder(v)[n]))
  }

  lemma ReplayStep(v: Json, n: nat, d: Json)
    requires FitsSizeType(v) && DiscardFree(v) && n < |ReplayOrder(v)|
    requires Built(d, v, Replayed(ReplayOrder(v)[..n]))
    ensures var keys, m := ReplayOrder(v), Flat("", v);
            var next := EditAt(Creating, d, PointerOf(keys[n]), Assign(m[keys[n]]));
            && (StartsWell(v, n) ==> next.Ok? && Built(next.value, v, Replayed(keys[..n + 1])))
            && (!StartsWell(v, n) ==> next.Ok? ==> Broken(next.value, v))
            && UnflattenFrom(d, m, keys[n..]) ==
               if next.Err? then Err(next.error) else UnflattenFrom(next.value, m, keys[n + 1..])
  {
    var keys := ReplayOrder(v);
    var p, done := PointerOf(keys[n]), Replayed(keys[..n]);
    ReplayKey(v, n);
    ReplayedPrecede(v, n);
    ByteOrderStartsWell(v, p, done);
    LeafIsPrimitive(v, p);
    ReplayedStep(keys, n);
    if StartsWell(v, n) { ReplayLeaf(d, v, done, p); } else { BreaksAtZero(d, v, done, p, Leaf(v, p)); }
    assert keys[n..][0] == keys[n] && keys[n..][1..] == keys[n + 1..];
  }

  lemma {:induction false} ReplayAll(v: Json, n: nat, d: Json)
    requires FitsSizeType(v) && DiscardFree(v) && n <= |ReplayOrder(v)|
    requires Built(d, v, Replayed(ReplayOrder(v)[..n]))
    requires forall i | n <= i < |ReplayOrder(v)| :: StartsWell(v, i)
    ensures UnflattenFrom(d, Flat("", v), ReplayOrder(v)[n..]) == Ok(Prune(v))
    decreases |ReplayOrder(v)| - n
  {
    var keys := ReplayOrder(v);
    if n == |keys| {
      assert keys[..n] == keys && keys[n..] == [];
      forall p | IsLeaf(v, p) ensures p in Replayed(keys) {
        var i := LeafIsReplayed(v, p);
      }
      BuiltCompletely(d, v, Replayed(keys));
    } else {
      ReplayStep(v, n, d);
      ReplayAll(v, n + 1, EditAt(Creating, d, PointerOf(keys[n]), Assign(Flat("", v)[keys[n]])).value);
    }
  }

  lemma {:induction false} BrokenToTheEnd(v: Json, n: nat, d: Json)
    requires FitsSizeType(v) && DiscardFree(v) && n <= |ReplayOrder(v)| && Broken(d, v)
    ensures var r := UnflattenFrom(d, Flat("", v), ReplayOrder(v)[n..]); r.Ok? ==> Broken(r.value, v)
    decreases |ReplayOrder(v)| - n
  {
    var keys := ReplayOrder(v);
    if n < |keys| {
      ReplayKey(v, n);
      assert keys[n..][0] == keys[n] && keys[n..][1..] == keys[n + 1..];
      var x := Flat("", v)[keys[n]];
      var next := EditAt(Creating, d, PointerOf(keys[n]), Assign(x));
      StaysBroken(d, v, PointerOf(keys[n]), x);
      if next.Ok? { BrokenToTheEnd(v, n + 1, next.value); }
    } else {
      assert keys[n..] == [];
    }
  }

  lemma {:induction false} ReplayBreaks(v: Json, n: nat, d: Json, i: nat)
    requires FitsSizeType(v) && DiscardFree(v) && n <= i < |ReplayOrder(v)| && !StartsWell(v, i)
    requires Built(d, v, Replayed(ReplayOrder(v)[..n]))
    ensures var r := UnflattenFrom(d, Flat("", v), ReplayOrder(v)[n..]); r.Ok? ==> Broken(r.value, v)
    decreases i - n
  {
    var keys := ReplayOrder(v);
    ReplayStep(v, n, d);
    var next := EditAt(Creating, d, PointerOf(keys[n]), Assign(Flat("", v)[keys[n]]));
    if StartsWell(v, n) {
      ReplayBreaks(v, n + 1, next.value, i);
    } else if next.Ok? {
      BrokenToTheEnd(v, n + 1, next.value);
    }
  }

  /** In an unsafe document some leaf arrives that starts an object at "0". */
  lemma {:induction false} UnsafeLeaf(v: Json) returns (p: Pointer)
    requires FitsSizeType(v) && !Safe(v)
    ensures IsLeaf(v, p)
    ensures forall done | Preceding(v, p, done) :: !ObjectsStart(v, done, p)
    decreases v
  {
    if v.Array? {
      var i :| 0 <= i < |v.items| && !Safe(v.items[i]);
      ItemOpens(v, i);
      var q := UnsafeLeaf(v.items[i]);
      p := [Digits(i)] + q;
      UnsafeBelow(v, Digits(i), q);
    } else if k :| k in v.members && !Safe(v.members[k]) {
      var q := UnsafeLeaf(v.members[k]);
      p := [k] + q;
      UnsafeBelow(v, k, q);
    } else {
      p := UnsafeHere(v);
    }
  }

  lemma UnsafeBelow(v: Json, t: string, q: Pointer)
    requires Open(Checked, v, t).Ok? && IsLeaf(Peek(Open(Checked, v, t).value), q)
    requires forall done | Preceding(Peek(Open(Checked, v, t).value), q, done) ::
               !ObjectsStart(Peek(Open(Checked, v, t).value), done, q)
    ensures IsLeaf(v, [t] + q)
    ensures forall done | Preceding(v, [t] + q, done) :: !ObjectsStart(v, done, [t] + q)
  {
    LeafBelow(v, t, q);
    var p := [t] + q;
    assert p[0] == t && p[1..] == q;
    forall done | Preceding(v, p, done) ensures !ObjectsStart(v, done, p) {
      PrecedingBelow(v, p, done);
    }
  }

  /** With no member in front of "0", no leaf precedes the first one below "0". */
  lemma NothingPrecedes(v: Json, s0: Pointer, x: Pointer)
    requires v.Object? && "0" in v.members && IsLeaf(v, x) && IsLeaf(v.members["0"], s0)
    requires forall k | k in v.members && k != "0" :: !PrecedesZero(v.members, k)
    requires forall s | IsLeaf(v.members["0"], s) :: !Before(Print(s), Print(s0))
    ensures !Before(Print(x), Print(["0"] + s0))
  {
    assert x != [];
    var k, s := x[0], x[1..];
    assert x == [k] + s;
    LeafBelow(v, k, s);
    PrintUnder([], k, s);
    PrintUnder([], "0", s0);
    assert [] + ([k] + s) == [k] + s && [] + (["0"] + s0) == ["0"] + s0;
    BeforeSharedPrefix(Print([]) + "/", Escape(k) + Print(s), Escape("0") + Print(s0));
    if k == "0" {
      BeforeSharedPrefix(Escape("0"), Print(s), Print(s0));
    } else {
      MembersOrder(v.members, k, s, s0);
    }
  }

  lemma UnsafeHere(v: Json) returns (p: Pointer)
    requires FitsSizeType(v) && v.Object? && "0" in v.members
    requires forall k | k in v.members && k != "0" :: !PrecedesZero(v.members, k)
    ensures IsLeaf(v, p)
    ensures forall done | Preceding(v, p, done) :: !ObjectsStart(v, done, p)
  {
    var s0 := FirstLeaf(v.members["0"]);
    p := ["0"] + s0;
    LeafBelow(v, "0", s0);
    forall x | IsLeaf(v, x) ensures !Before(Print(x), Print(p)) {
      NothingPrecedes(v, s0, x);
    }
    assert p[0] == "0";
    forall done | Preceding(v, p, done) ensures done == {} {
      assert forall x | x in done :: IsLeaf(v, x);
    }
  }

  lemma FirstLeaf(j: Json) returns (p: Pointer)
    requires FitsSizeType(j)
    ensures IsLeaf(j, p) && forall x | IsLeaf(j, x) :: !Before(Print(x), Print(p))
  {
    var q := HasLeaf(j);
    var i := LeafIsReplayed(j, q);
    ReplayKey(j, 0);
    var keys := ReplayOrder(j);
    p := PointerOf(keys[0]);
    forall x | IsLeaf(j, x) ensures !Before(Print(x), Print(p)) {
      var k := LeafIsReplayed(j, x);
      BeforeTotal(keys[0], keys[k]);
      if k > 0 { assert Before(keys[0], keys[k]); }
    }
  }

  /** `unflatten` after `flatten` gives back the document, empty containers replaced
      by null, exactly when the document holds no discarded value and no object in
      it has its first leaf, in byte order, below a key "0". */
  lemma {:induction false} FlattenRoundTrip(v: Json, m: map<string, Json>)
    requires FitsSizeType(v) && m == Flat("", v)
    ensures Unflatten(Object(m)) == Ok(Prune(v)) <==> DiscardFree(v) && Safe(v)
  {
    var keys := ReplayOrder(v);
    assert keys[0..] == keys && Replayed(keys[..0]) == {};
    BuiltFromNothing(v);
    if !DiscardFree(v) {
      var p := DiscardedLeaf(v);
      var i := LeafIsReplayed(v, p);
      ReplayKey(v, i);
      DiscardedFails(Null, m, keys, i);
    } else if Safe(v) {
      forall n | 0 <= n < |keys| ensures StartsWell(v, n) {
        ReplayKey(v, n);
        ReplayedPrecede(v, n);
        ByteOrderStartsWell(v, PointerOf(keys[n]), Replayed(keys[..n]));
      }
      ReplayAll(v, 0, Null);
    } else {
      var p := UnsafeLeaf(v);
      var i := LeafIsReplayed(v, p);
      ReplayedPrecede(v, i);
      ReplayBreaks(v, 0, Null, i);
      if Unflatten(Object(m)).Ok? { BrokenIsNotPruned(Unflatten(Object(m)).value, v); }
    }
  }

  /** An object whose only key is "0" is not restored: it comes back as an array. */
  lemma ZeroKeyIsLost()
    ensures var v := Object(map["0" := Boolean(true)]);
            Unflatten(Object(Flat("", v))) != Ok(Prune(v))
  {
    var v := Object(map["0" := Boolean(true)]);
    assert !Safe(v);
    FlattenRoundTrip(v, Flat("", v));
  }

  /** Documents without an object key "0" are safe. */
  predicate NoZeroKey(v: Json) {
    match v
    case Array(a) => forall i | 0 <= i < |a| :: NoZeroKey(a[i])
    case Object(m) => "0" !in m && forall k | k in m :: NoZeroKey(m[k])
    case _ => true
  }

  lemma {:induction false} NoZeroKeyIsSafe(v: Json)
    requires NoZeroKey(v)
    ensures Safe(v)
  {
    match v
    case Array(a) => forall i | 0 <= i < |a| ensures Safe(a[i]) { NoZeroKeyIsSafe(a[i]); }
    case Object(m) => forall k | k in m ensures Safe(m[k]) { NoZeroKeyIsSafe(m[k]); }
    case _ =>
  }

  predicate NoEmptyContainer(v: Json) {
    match v
    case Array(a) => a != [] && forall i | 0 <= i < |a| :: NoEmptyContainer(a[i])
    case Object(m) => m != map[] && forall k | k in m :: NoEmptyContainer(m[k])
    case _ => true
  }

  lemma {:induction false} PruneKeeps(v: Json)
    ensures Prune(v) == v <==> NoEmptyContainer(v)
  {
    match v
    case Array(a) =>
      forall i | 0 <= i < |a| ensures Prune(a[i]) == a[i] <==> NoEmptyContainer(a[i]) { PruneKeeps(a[i]); }
      if a != [] {
        assert Prune(v) == v <==> Prune(v).items == a;
        if NoEmptyContainer(v) { assert Prune(v).items == a; }
      }
    case Object(m) =>
      forall k | k in m ensures Prune(m[k]) == m[k] <==> NoEmptyContainer(m[k]) { PruneKeeps(m[k]); }
      if m != map[] {
        if NoEmptyContainer(v) { assert Prune(v).members == m; }
        if Prune(v) == v { forall k | k in m ensures NoEmptyContainer(m[k]) { assert Prune(v).members[k] == m[k]; } }
      }
    case _ =>
  }

  /** The plain statement: without discarded values, empty containers and keys "0",
      the round trip is exact. */
  lemma FlattenUnflatten(v: Json)
    requires FitsSizeType(v) && DiscardFree(v) && NoEmptyContainer(v) && NoZeroKey(v)
    ensures Unflatten(Object(Flat("", v))) == Ok(v)
  {
    NoZeroKeyIsSafe(v);
    FlattenRoundTrip(v, Flat("", v));
    PruneKeeps(v);
  }
}
