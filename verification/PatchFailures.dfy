/** What a throwing patch leaves behind, and when that is the document itself. */
module PatchFailures {
  import opened Outcomes
  import opened Text
  import opened Values
  import opened Pointers
  import opened Resolution
  import opened Patch
  import opened Locality
  import opened PatchLaws

  // ----- the entry that throws

  /** A throwing patch has applied the entries before the one that throws, and then
      leaves what that entry leaves behind. */
  lemma {:induction false} FailsAt(doc: Json, items: seq<Json>) returns (n: nat)
    requires RunItems(doc, items).Err?
    ensures n < |items| && RunItems(doc, items[..n]).Ok?
    ensures var d, op := RunItems(doc, items[..n]).value, ReadOp(items[n]);
            if op.Err? then RunItems(doc, items) == Err(op.error) && ItemsLeave(doc, items) == d
            else RunItems(doc, items) == Exec(d, op.value) && ItemsLeave(doc, items) == LeftBehind(d, op.value)
    decreases |items|
  {
    var op := ReadOp(items[0]);
    if op.Err? || Exec(doc, op.value).Err? {
      n := 0;
      assert items[..0] == [];
    } else {
      var next := Exec(doc, op.value).value;
      var k := FailsAt(next, items[1..]);
      n := k + 1;
      assert items[..n][1..] == items[1..][..k];
    }
  }

  lemma {:induction false} SucceedsEverywhere(doc: Json, items: seq<Json>)
    requires RunItems(doc, items).Ok?
    ensures ItemsLeave(doc, items) == RunItems(doc, items).value
    decreases |items|
  {
    if items != [] { SucceedsEverywhere(Exec(doc, ReadOp(items[0]).value).value, items[1..]); }
  }

  // ----- the walk that throws

  /** A walk of `operator[]` that throws at the token `t` leaves what it has made up to
      there, and an array in the place of a null that `t` converted. */
  lemma {:induction false} StopsAt(doc: Json, p: Pointer, t: string, rest: Pointer)
    requires Trace(Unchecked, doc, p).Ok? && Open(Unchecked, Trace(Unchecked, doc, p).value.node, t).Err?
    ensures var c := Trace(Unchecked, doc, p).value;
            LeftBy(doc, p + [t] + rest) == Rebuild(c.trail, if c.node.Null? then Array([]) else c.node)
    decreases |p|
  {
    if p == [] {
      assert p + [t] + rest == [t] + rest;
      assert ([t] + rest)[1..] == rest;
    } else {
      var f := Open(Unchecked, doc, p[0]).value;
      StopsAt(Peek(f), p[1..], t, rest);
      assert (p + [t] + rest)[0] == p[0] && (p + [t] + rest)[1..] == p[1..] + [t] + rest;
      var c := Trace(Unchecked, Peek(f), p[1..]).value;
      assert ([f] + c.trail)[1..] == c.trail;
    }
  }

  /** A walk that does not throw leaves what it has made. */
  lemma {:induction false} ArrivesAt(doc: Json, p: Pointer)
    requires Trace(Unchecked, doc, p).Ok?
    ensures var c := Trace(Unchecked, doc, p).value; LeftBy(doc, p) == Rebuild(c.trail, c.node)
    decreases |p|
  {
    if p != [] {
      var f := Open(Unchecked, doc, p[0]).value;
      ArrivesAt(Peek(f), p[1..]);
      var c := Trace(Unchecked, Peek(f), p[1..]).value;
      assert ([f] + c.trail)[1..] == c.trail;
    }
  }

  // ----- adds

  lemma AddLeavesUnchanged(doc: Json, ptr: Pointer)
    ensures AddLeaves(doc, ptr) == doc <==> ptr == [] || !Grounded(doc, ptr) || Untouched(doc, Front(ptr))
  {
    if ptr != [] { LeftByUnchanged(doc, Front(ptr)); }
  }

  // ----- moves

  /** The way to the new place leads through the place of the removed value, and what a
      throwing `operator[]` creates there happens to be that value.  In an array the new
      element is the last one, so all elements from the removed one on must be alike. */
  predicate RecreatedIn(parent: Json, k: string, way: Pointer) {
    way != [] && (
      var t, x := way[0], LeftBy(Null, way[1..]);
      || (parent.Object? && t == k && k in parent.members && parent.members[k] == x)
      || (parent.Array? && ArrayIndex(k).Ok? && parent.items != []
          && (t == "-" || ArrayIndex(t) == Ok(|parent.items| - 1))
          && forall j | ArrayIndex(k).value <= j < |parent.items| :: parent.items[j] == x))
  }

  predicate Recreated(doc: Json, from: Pointer, ptr: Pointer)
    requires from != [] && At(doc, Front(from)).Ok?
  {
    && |from| > 1 && |ptr| > |from| && Front(from) <= Front(ptr)
    && RecreatedIn(At(doc, Front(from)).value, Last(from), Front(ptr)[|from| - 1..])
  }

  lemma AppendAfterErase(a: seq<Json>, i: nat, x: Json)
    requires i < |a|
    ensures EraseAt(a, i) + [x] == a <==> forall j | i <= j < |a| :: a[j] == x
  {
    var b := EraseAt(a, i) + [x];
    if b == a {
      AllAlike(a, i, x);
    } else {
      var j :| 0 <= j < |a| && b[j] != a[j];
      assert j >= i && b[j] == if j + 1 < |a| then a[j + 1] else x;
    }
  }

  lemma AllAlike(a: seq<Json>, i: nat, x: Json)
    requires i < |a| && EraseAt(a, i) + [x] == a
    ensures forall j | i <= j < |a| :: a[j] == x
  {
    assert a[|a| - 1] == (EraseAt(a, i) + [x])[|a| - 1] == x;
    var j := |a| - 1;
    while j > i
      invariant i <= j < |a| && forall l | j <= l < |a| :: a[l] == x
    {
      assert a[j - 1] == (EraseAt(a, i) + [x])[j - 1] == a[j];
      j := j - 1;
    }
  }

  lemma ErasedDiffers(parent: Json, k: string)
    requires Open(Checked, parent, k).Ok?
    ensures EraseFrom(parent, k).Ok? && EraseFrom(parent, k).value != parent
  {
    if parent.Array? {
      assert |EraseFrom(parent, k).value.items| < |parent.items|;
    } else {
      assert k !in EraseFrom(parent, k).value.members;
    }
  }

  lemma RecreatesObject(m: map<string, Json>, k: string, t: string, r: Pointer)
    requires k in m
    ensures LeftBy(Object(m - {k}), [t] + r) == Object(m) <==> t == k && m[k] == LeftBy(Null, r)
  {
    assert ([t] + r)[1..] == r;
    var n := Ensure(m - {k}, t);
    var x := LeftBy(n[t], r);
    assert LeftBy(Object(m - {k}), [t] + r) == Object(n[t := x]);
    if t == k {
      assert n[t := x] == m[k := x];
      assert m[k := x][k] == x;
      if m[k] == x { assert m[k := x] == m; }
    } else {
      assert k !in n[t := x];
    }
  }

  lemma RecreatesArray(a: seq<Json>, i: nat, t: string, r: Pointer)
    requires i < |a|
    ensures LeftBy(Array(EraseAt(a, i)), [t] + r) == Array(a) <==>
            (t == "-" || ArrayIndex(t) == Ok(|a| - 1)) && EraseAt(a, i) + [LeftBy(Null, r)] == a
  {
    assert ([t] + r)[1..] == r;
    var b := EraseAt(a, i);
    if t == "-" || ArrayIndex(t).Ok? {
      var n := if t == "-" then |b| else ArrayIndex(t).value;
      var g := Grow(b, n);
      var left := g[n := LeftBy(g[n], r)];
      assert LeftBy(Array(b), [t] + r) == Array(left);
      if n == |b| { assert left == b + [LeftBy(Null, r)]; } else { assert |left| != |a|; }
    }
  }

  lemma Recreates(parent: Json, k: string, way: Pointer)
    requires Open(Checked, parent, k).Ok?
    ensures EraseFrom(parent, k).Ok?
    ensures LeftBy(EraseFrom(parent, k).value, way) == parent <==> RecreatedIn(parent, k, way)
    ensures RecreatedIn(parent, k, way) ==> Open(Checked, EraseFrom(parent, k).value, way[0]).Err?
  {
    ErasedDiffers(parent, k);
    if way != [] {
      assert way == [way[0]] + way[1..];
      if parent.Object? {
        RecreatesObject(parent.members, k, way[0], way[1..]);
      } else {
        RecreatesArray(parent.items, ArrayIndex(k).value, way[0], way[1..]);
        AppendAfterErase(parent.items, ArrayIndex(k).value, LeftBy(Null, way[1..]));
      }
    }
  }

  /** Below an existing pointer, `operator[]` works on the value there. */
  lemma {:induction false} LeftBelowSet(doc: Json, p: Pointer, x: Json, q: Pointer)
    requires At(doc, p).Ok?
    ensures LeftBy(SetAt(doc, p, x), p + q) == SetAt(doc, p, LeftBy(x, q))
    decreases |p|
  {
    hide Open, Plug, Peek;
    if p == [] {
      assert p + q == q;
    } else {
      var t, r := p[0], p[1..];
      var f := Open(Checked, doc, t).value;
      var child := SetAt(Peek(f), r, x);
      LeftBelowSet(Peek(f), r, x, q);
      OpenAgain(doc, t, child);
      OpenRefines(Plug(f, child), t);
      assert (p + q)[0] == t && (p + q)[1..] == r + q;
    }
  }

  /** Elsewhere it does not reach. */
  lemma {:induction false} LeftElsewhere(doc: Json, p: Pointer, way: Pointer)
    requires At(doc, p).Ok? && !(p <= way)
    ensures At(LeftBy(doc, way), p) == At(doc, p)
    decreases |p|
  {
    assert p != [];
    if way != [] && Open(Unchecked, doc, way[0]).Ok? {
      var t, f := p[0], Open(Unchecked, doc, way[0]).value;
      if way[0] == t {
        OpenRefines(doc, t);
        assert p == [t] + p[1..] && way == [t] + way[1..];
        LeftElsewhere(Peek(f), p[1..], way[1..]);
        Reopened(doc, t, LeftBy(Peek(f), way[1..]));
      } else {
        OtherSlotKept(doc, t, way[0], LeftBy(Peek(f), way[1..]));
      }
    }
  }

  lemma Reopened(doc: Json, t: string, v: Json)
    requires Open(Checked, doc, t).Ok?
    ensures var f := Open(Checked, doc, t).value;
            Open(Checked, Plug(f, v), t).Ok? && Peek(Open(Checked, Plug(f, v), t).value) == v
  {
    OpenAgain(doc, t, v);
  }

  lemma OtherSlotKept(doc: Json, t: string, other: string, v: Json)
    requires Open(Checked, doc, t).Ok? && Open(Unchecked, doc, other).Ok? && t != other
    ensures var d := Plug(Open(Unchecked, doc, other).value, v);
            Open(Checked, d, t).Ok? && Peek(Open(Checked, d, t).value) == Peek(Open(Checked, doc, t).value)
  {
    if doc.Array? {
      var i := ArrayIndex(t).value;
      ArrayIndexIsDigits(t, i);
      if other != "-" { ArrayIndexIsDigits(other, ArrayIndex(other).value); }
    }
  }

  lemma MoveLeavesUnchanged(doc: Json, from: Pointer, ptr: Pointer)
    requires from != [] && At(doc, from).Ok?
    ensures At(doc, Front(from)).Ok? && RemoveAt(doc, from).Ok?
    ensures AddLeaves(RemoveAt(doc, from).value, ptr) == doc <==> Recreated(doc, from, ptr)
  {
    hide SetAt, LeftBy, RecreatedIn, RemoveAt, EraseFrom;
    var front, k := Front(from), Last(from);
    assert from == front + [k];
    RemoveExisting(doc, from);
    AtSplit(doc, front, k);
    var parent := At(doc, front).value;
    var erased := EraseFrom(parent, k).value;
    var rest := SetAt(doc, front, erased);
    ErasedDiffers(parent, k);
    SetAtLaws(doc, front, erased, parent);
    if ptr != [] {
      var way := Front(ptr);
      if front <= way {
        var q := way[|front|..];
        assert way == front + q;
        LeftBelowSet(doc, front, erased, q);
        Recreates(parent, k, q);
        SetAtLaws(doc, front, LeftBy(erased, q), parent);
        FirstTokenStays(doc, front, erased, ptr);
        RootNotRecreated(parent, k, erased, ptr);
        NothingLeft(erased);
      } else {
        LeftElsewhere(rest, front, way);
      }
    }
  }

  lemma NothingLeft(j: Json)
    ensures LeftBy(j, []) == j
  {
  }

  lemma FirstTokenStays(doc: Json, front: Pointer, erased: Json, ptr: Pointer)
    requires At(doc, front).Ok? && ptr != [] && front <= Front(ptr)
    ensures front != [] ==> Grounded(SetAt(doc, front, erased), ptr)
    ensures front == [] ==> SetAt(doc, front, erased) == erased
  {
    if front != [] {
      SetAtLaws(doc, front, erased, erased);
      AtPrefix(SetAt(doc, front, erased), front);
      assert ptr[..1] == front[..1];
    }
  }

  lemma RootNotRecreated(parent: Json, k: string, erased: Json, ptr: Pointer)
    requires Open(Checked, parent, k).Ok? && EraseFrom(parent, k) == Ok(erased) && ptr != []
    ensures RecreatedIn(parent, k, Front(ptr)) ==> |ptr| > 1 && At(erased, ptr[..1]).Err?
  {
    Recreates(parent, k, Front(ptr));
    if RecreatedIn(parent, k, Front(ptr)) { assert ptr[..1][0] == Front(ptr)[0]; }
  }

  // ----- operations and patches

  /** The operation, if it throws, leaves the document as it was. */
  predicate Keeps(doc: Json, op: Op) {
    match op
    case Add(ptr, _) => ptr == [] || !Grounded(doc, ptr) || Untouched(doc, Front(ptr))
    case Copy(from, ptr) => At(doc, from).Err? || ptr == [] || !Grounded(doc, ptr) || Untouched(doc, Front(ptr))
    case Move(from, ptr) =>
      At(doc, from).Err? || from == [] || (At(doc, Front(from)).Ok? && Recreated(doc, from, ptr))
    case _ => true
  }

  /** What an operation leaves behind is the document as it was in exactly these cases. */
  lemma LeftBehindUnchanged(doc: Json, op: Op)
    ensures LeftBehind(doc, op) == doc <==> Keeps(doc, op)
  {
    match op
    case Add(ptr, _) => AddLeavesUnchanged(doc, ptr);
    case Copy(_, ptr) => AddLeavesUnchanged(doc, ptr);
    case Move(from, ptr) => if from != [] && At(doc, from).Ok? { MoveLeavesUnchanged(doc, from, ptr); }
    case _ =>
  }

  /** An entry that is read as a test. */
  predicate IsTest(entry: Json) { ReadOp(entry).Ok? && ReadOp(entry).value.Test? }

  lemma TestKeeps(doc: Json, entry: Json)
    requires IsTest(entry) && Exec(doc, ReadOp(entry).value).Ok?
    ensures Exec(doc, ReadOp(entry).value) == Ok(doc)
  {
    hide ReadOp;
  }

  /** A patch whose first `n` entries are tests that hold, and whose next entry throws,
      leaves the document unchanged exactly when this entry cannot be read or keeps it. */
  lemma {:induction false} GuardedFailure(doc: Json, items: seq<Json>, n: nat)
    requires n < |items| && forall i | 0 <= i < n :: IsTest(items[i]) && Exec(doc, ReadOp(items[i]).value).Ok?
    requires ReadOp(items[n]).Ok? ==> Exec(doc, ReadOp(items[n]).value).Err?
    ensures RunItems(doc, items).Err?
    ensures ItemsLeave(doc, items) == doc <==> ReadOp(items[n]).Err? || Keeps(doc, ReadOp(items[n]).value)
    decreases n
  {
    hide Exec, ReadOp, Keeps, LeftBehind;
    if n == 0 {
      if ReadOp(items[0]).Ok? { LeftBehindUnchanged(doc, ReadOp(items[0]).value); }
    } else {
      TestKeeps(doc, items[0]);
      assert forall i | 0 <= i < n - 1 :: items[1..][i] == items[i + 1];
      GuardedFailure(doc, items[1..], n - 1);
    }
  }

  // ----- examples

  /** Not atomic: a move that cannot be completed has lost the value. */
  lemma LostByMove()
    ensures var doc, op := Object(map["a" := Integer(1)]), Move(["a"], ["z", "y"]);
            Exec(doc, op).Err? && LeftBehind(doc, op) == Object(map[])
  {
    var doc := Object(map["a" := Integer(1)]);
    assert Open(Checked, doc, "a") == Ok(RawFocus(doc, Key("a"))) && ["a"][1..] == [];
    assert At(doc, ["a"]) == Ok(Integer(1));
    RemoveExisting(doc, ["a"]);
    assert Front(["a"]) == [] && map["a" := Integer(1)] - {"a"} == map[];
    assert RemoveAt(doc, ["a"]) == Ok(Object(map[]));
    assert ["z", "y"][..1] == ["z"] && Open(Checked, Object(map[]), "z").Err?;
    assert At(Object(map[]), ["z"]).Err?;
  }

  /** Nor is a single add: it has created the member it could not go on from. */
  lemma CreatedByAdd()
    ensures var doc := Object(map["a" := Object(map[])]);
            var op := Add(["a", "b", "01", "c"], Null);
            Exec(doc, op).Err? && LeftBehind(doc, op) == Object(map["a" := Object(map["b" := Array([])])])
  {
    var doc, ptr := Object(map["a" := Object(map[])]), ["a", "b", "01", "c"];
    assert ptr[..1] == ["a"] && ["a"][1..] == [] && Front(ptr) == ["a", "b", "01"];
    assert Open(Checked, doc, "a") == Ok(RawFocus(doc, Key("a")));
    assert At(doc, ["a"]).Ok?;
    var way := ["a", "b", "01"];
    assert way[1..] == ["b", "01"] && ["b", "01"][1..] == ["01"];
    var inner := Object(map["b" := Null]);
    assert AllDigits("01") && ArrayIndex("01").Err?;
    assert LeftBy(Null, ["01"]) == Array([]);
    assert Open(Unchecked, Object(map[]), "b") == Ok(RawFocus(inner, Key("b")));
    assert LeftBy(Object(map[]), ["b", "01"]) == Object(map["b" := Array([])]);
    assert Open(Unchecked, doc, "a") == Ok(RawFocus(doc, Key("a")));
    assert LeftBy(doc, way) == Object(map["a" := Object(map["b" := Array([])])]);
    AddSucceeds(doc, ptr, Null);
    assert Open(Checked, Object(map[]), "b").Err? && "01" in ["b", "01"][1..];
    assert !Creatable(["01"]) by { assert "01" in ["01"]; }
    assert !Addable(Object(map[]), ["b", "01"], "c");
    assert !Addable(doc, way, "c");
  }
}
