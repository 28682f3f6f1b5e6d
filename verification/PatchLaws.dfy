/** Laws of single patch operations: add and remove are inverse, what an add and a
    remove need to succeed, moves below the moved value, and what a prefix hides
    from an add. */
module PatchLaws {
  import opened Outcomes
  import opened Text
  import opened Values
  import opened Pointers
  import opened Resolution
  import opened Patch
  import opened Locality

  // ----- a pointer survives a change below it

  lemma {:induction false} AtSplit(doc: Json, p: Pointer, t: string)
    ensures At(doc, p + [t]) ==
            if At(doc, p).Err? then At(doc, p)
            else
              var f := Open(Checked, At(doc, p).value, t);
              if f.Err? then Err(f.error) else Ok(Peek(f.value))
    decreases |p|
  {
    if p == [] {
      assert p + [t] == [t];
    } else {
      assert (p + [t])[1..] == p[1..] + [t];
      var f := Open(Checked, doc, p[0]);
      if f.Ok? { AtSplit(Peek(f.value), p[1..], t); }
    }
  }

  lemma AtPrefix(doc: Json, ptr: Pointer)
    requires ptr != [] && At(doc, ptr).Ok?
    ensures At(doc, ptr[..1]).Ok?
  {
    assert ptr[..1][1..] == [];
  }

  /** The document with the value at an existing pointer replaced. */
  function SetAt(doc: Json, ptr: Pointer, v: Json): Json
    requires At(doc, ptr).Ok?
    decreases |ptr|
  {
    if ptr == [] then v
    else
      var f := Open(Checked, doc, ptr[0]).value;
      Plug(f, SetAt(Peek(f), ptr[1..], v))
  }

  lemma {:induction false} SetAtLaws(doc: Json, ptr: Pointer, v: Json, w: Json)
    requires At(doc, ptr).Ok?
    ensures At(SetAt(doc, ptr, v), ptr) == Ok(v)
    ensures SetAt(SetAt(doc, ptr, v), ptr, w) == SetAt(doc, ptr, w)
    ensures SetAt(doc, ptr, At(doc, ptr).value) == doc
    decreases |ptr|
  {
    if ptr != [] {
      var f := Open(Checked, doc, ptr[0]).value;
      SetAtLaws(Peek(f), ptr[1..], v, w);
      OpenAgain(doc, ptr[0], SetAt(Peek(f), ptr[1..], v));
      PlugPeek(f);
      OpenRefines(doc, ptr[0]);
    }
  }

  /** Where the pointer resolves, an edit through either resolver replaces the value. */
  lemma {:induction false} EditIsSet(mode: Mode, doc: Json, ptr: Pointer, e: Edit)
    requires At(doc, ptr).Ok? && !mode.Creating?
    ensures EditAt(mode, doc, ptr, e) ==
            var v := Act(e, At(doc, ptr).value); if v.Err? then v else Ok(SetAt(doc, ptr, v.value))
    decreases |ptr|
  {
    if ptr != [] {
      OpenRefines(doc, ptr[0]);
      var f := Open(Checked, doc, ptr[0]).value;
      EditIsSet(mode, Peek(f), ptr[1..], e);
      assert ptr == [ptr[0]] + ptr[1..];
      EditBelow(mode, doc, ptr[0], ptr[1..], e);
    }
  }

  lemma AddIsSet(doc: Json, ptr: Pointer, v: Json)
    requires ptr != [] && At(doc, Front(ptr)).Ok?
    ensures AddAt(doc, ptr, v) ==
            var p := InsertInto(At(doc, Front(ptr)).value, Last(ptr), v);
            if p.Err? then p else Ok(SetAt(doc, Front(ptr), p.value))
  {
    if |ptr| > 1 {
      AtPrefix(doc, Front(ptr));
      assert Front(ptr)[..1] == ptr[..1];
    }
    EditIsSet(Unchecked, doc, Front(ptr), Insert(Last(ptr), v));
  }

  lemma RemoveIsSet(doc: Json, ptr: Pointer)
    requires ptr != [] && At(doc, Front(ptr)).Ok?
    ensures RemoveAt(doc, ptr) ==
            var p := EraseFrom(At(doc, Front(ptr)).value, Last(ptr));
            if p.Err? then p else Ok(SetAt(doc, Front(ptr), p.value))
  {
    EditIsSet(Checked, doc, Front(ptr), Erase(Last(ptr)));
  }

  // ----- add and remove

  /** `token` names a place in `parent` where an add makes room for a new value. */
  predicate FreshSlot(parent: Json, token: string) {
    || (parent.Object? && token !in parent.members)
    || (parent.Array? && ArrayIndex(token).Ok? && ArrayIndex(token).value <= |parent.items|)
  }

  lemma InsertEraseItem(a: seq<Json>, i: nat, v: Json)
    requires i <= |a|
    ensures EraseAt(InsertAt(a, i, v), i) == a && InsertAt(a, i, v)[i] == v
  {
  }

  lemma EraseInsertItem(a: seq<Json>, i: nat)
    requires i < |a|
    ensures InsertAt(EraseAt(a, i), i, a[i]) == a
  {
  }

  lemma InsertErase(parent: Json, token: string, v: Json)
    requires FreshSlot(parent, token)
    ensures InsertInto(parent, token, v).Ok?
    ensures EraseFrom(InsertInto(parent, token, v).value, token) == Ok(parent)
    ensures var f := Open(Checked, InsertInto(parent, token, v).value, token); f.Ok? && Peek(f.value) == v
  {
    if parent.Object? {
      assert parent.members[token := v] - {token} == parent.members;
    } else {
      InsertEraseItem(parent.items, ArrayIndex(token).value, v);
    }
  }

  lemma EraseInsert(parent: Json, token: string)
    requires Open(Checked, parent, token).Ok?
    ensures EraseFrom(parent, token).Ok? && FreshSlot(EraseFrom(parent, token).value, token)
    ensures InsertInto(EraseFrom(parent, token).value, token, Peek(Open(Checked, parent, token).value)) == Ok(parent)
  {
    if parent.Object? {
      assert (parent.members - {token})[token := parent.members[token]] == parent.members;
    } else {
      EraseInsertItem(parent.items, ArrayIndex(token).value);
    }
  }

  /** Adding at a fresh place of an existing container puts the value there, and
      removing it again restores the document. */
  lemma AddThenRemove(doc: Json, ptr: Pointer, v: Json)
    requires ptr != [] && At(doc, Front(ptr)).Ok? && FreshSlot(At(doc, Front(ptr)).value, Last(ptr))
    ensures AddAt(doc, ptr, v).Ok?
    ensures At(AddAt(doc, ptr, v).value, ptr) == Ok(v)
    ensures RemoveAt(AddAt(doc, ptr, v).value, ptr) == Ok(doc)
  {
    var front, parent := Front(ptr), At(doc, Front(ptr)).value;
    InsertErase(parent, Last(ptr), v);
    var added := InsertInto(parent, Last(ptr), v).value;
    AddIsSet(doc, ptr, v);
    SetAtLaws(doc, front, added, parent);
    RemoveIsSet(SetAt(doc, front, added), ptr);
    AtSplit(SetAt(doc, front, added), front, Last(ptr));
    assert ptr == front + [Last(ptr)];
  }

  /** Removing an existing value and adding it again restores the document. */
  lemma RemoveThenAdd(doc: Json, ptr: Pointer)
    requires ptr != [] && At(doc, ptr).Ok?
    ensures RemoveAt(doc, ptr).Ok?
    ensures AddAt(RemoveAt(doc, ptr).value, ptr, At(doc, ptr).value) == Ok(doc)
  {
    var front := Front(ptr);
    assert ptr == front + [Last(ptr)];
    AtSplit(doc, front, Last(ptr));
    var parent := At(doc, front).value;
    EraseInsert(parent, Last(ptr));
    RemoveIsSet(doc, ptr);
    var erased := EraseFrom(parent, Last(ptr)).value;
    SetAtLaws(doc, front, erased, parent);
    AddIsSet(SetAt(doc, front, erased), ptr, At(doc, ptr).value);
  }

  /** Moving a value from a place to itself changes nothing; the root cannot be moved. */
  lemma MoveToItself(doc: Json, ptr: Pointer)
    requires At(doc, ptr).Ok?
    ensures Exec(doc, Move(ptr, ptr)) == if ptr == [] then Err(OutOfRange(405)) else Ok(doc)
  {
    if ptr != [] { RemoveThenAdd(doc, ptr); }
  }

  lemma EraseSucceeds(parent: Json, token: string)
    ensures EraseFrom(parent, token).Ok? <==>
            Open(Checked, parent, token).Ok? || (!parent.Object? && !parent.Array?)
    ensures !parent.Object? && !parent.Array? ==> EraseFrom(parent, token) == Ok(parent)
  {
  }

  /** The target exists, or its parent exists and is no container; and it is not the root. */
  predicate RemovePossible(doc: Json, ptr: Pointer) {
    ptr != [] && (
      || At(doc, ptr).Ok?
      || (At(doc, Front(ptr)).Ok? && !At(doc, Front(ptr)).value.Object? && !At(doc, Front(ptr)).value.Array?))
  }

  /** Section 4.2 of RFC 6902 demands that the target of a remove exists.  The
      interpreter also succeeds, doing nothing, when the parent is no container;
      in every other case without a target, and at the root, it throws. */
  lemma RemoveSucceeds(doc: Json, ptr: Pointer)
    ensures RemoveAt(doc, ptr).Ok? <==> RemovePossible(doc, ptr)
    ensures RemoveAt(doc, ptr).Ok? && At(doc, ptr).Err? ==> RemoveAt(doc, ptr) == Ok(doc)
    ensures ptr == [] ==> RemoveAt(doc, ptr) == Err(OutOfRange(405))
  {
    if ptr != [] {
      assert ptr == Front(ptr) + [Last(ptr)];
      AtSplit(doc, Front(ptr), Last(ptr));
      AtIsTrace(doc, Front(ptr));
      if At(doc, Front(ptr)).Ok? {
        var parent := At(doc, Front(ptr)).value;
        RemoveIsSet(doc, ptr);
        EraseSucceeds(parent, Last(ptr));
        SetAtLaws(doc, Front(ptr), parent, parent);
      }
    }
  }

  lemma RemoveBelowPrimitive()
    ensures At(Object(map["a" := String("x")]), ["a", "b"]).Err?
    ensures RemoveAt(Object(map["a" := String("x")]), ["a", "b"]) == Ok(Object(map["a" := String("x")]))
  {
    var doc := Object(map["a" := String("x")]);
    var ptr := ["a", "b"];
    assert Front(ptr) == ["a"] && ptr[1..] == ["b"] && ["a"][1..] == [];
    assert Open(Checked, doc, "a") == Ok(RawFocus(doc, Key("a")));
    assert At(doc, ["a"]) == Ok(String("x"));
    RemoveSucceeds(doc, ptr);
  }

  // ----- when an add succeeds

  /** Below a null, `operator[]` can create containers for all of these tokens: those
      made of digits become array indices, and have to be indices. */
  predicate Creatable(q: Pointer) { forall s | s in q :: AllDigits(s) ==> ArrayIndex(s).Ok? }

  /** The same below a value in which the first token does not resolve. */
  predicate CreatableIn(j: Json, q: Pointer)
    requires q != []
  {
    match j
    case Null => Creatable(q)
    case Object(_) => Creatable(q[1..])
    case Array(_) => (q[0] == "-" || ArrayIndex(q[0]).Ok?) && Creatable(q[1..])
    case _ => false
  }

  /** A value can be added to this parent at `token`. */
  predicate Accepts(parent: Json, token: string) {
    match parent
    case Null => true
    case Object(_) => true
    case Array(a) => token == "-" || (ArrayIndex(token).Ok? && ArrayIndex(token).value <= |a|)
    case _ => false
  }

  /** From `j`, the parent at `q` exists and accepts the token, or can be created. */
  predicate Addable(j: Json, q: Pointer, token: string)
    decreases |q|
  {
    if q == [] then Accepts(j, token)
    else
      var f := Open(Checked, j, q[0]);
      if f.Ok? then Addable(Peek(f.value), q[1..], token) else CreatableIn(j, q)
  }

  lemma {:induction false} CreatableSucceeds(q: Pointer, token: string, v: Json)
    ensures EditAt(Unchecked, Null, q, Insert(token, v)).Ok? <==> Creatable(q)
    decreases |q|
  {
    if q == [] {
      assert Trace(Unchecked, Null, q) == Ok(Cursor([], Null));
    } else {
      var t, r := q[0], q[1..];
      assert q == [t] + r;
      EditBelow(Unchecked, Null, t, r, Insert(token, v));
      CreatableSucceeds(r, token, v);
      assert Creatable(q) <==> (AllDigits(t) ==> ArrayIndex(t).Ok?) && Creatable(r);
    }
  }

  lemma {:induction false} EditSucceeds(j: Json, q: Pointer, token: string, v: Json)
    ensures EditAt(Unchecked, j, q, Insert(token, v)).Ok? <==> Addable(j, q, token)
    decreases |q|
  {
    if q != [] {
      var t, r := q[0], q[1..];
      assert q == [t] + r;
      EditBelow(Unchecked, j, t, r, Insert(token, v));
      if Open(Checked, j, t).Ok? {
        OpenRefines(j, t);
        EditSucceeds(Peek(Open(Checked, j, t).value), r, token, v);
      } else {
        CreatableSucceeds(r, token, v);
        assert Creatable(q) <==> (AllDigits(t) ==> ArrayIndex(t).Ok?) && Creatable(r);
      }
    }
  }

  /** When an add succeeds, in terms of the document and the tokens. */
  lemma AddSucceeds(doc: Json, ptr: Pointer, v: Json)
    ensures AddAt(doc, ptr, v).Ok? <==>
            ptr == [] || (Grounded(doc, ptr) && Addable(doc, Front(ptr), Last(ptr)))
  {
    if ptr != [] { EditSucceeds(doc, Front(ptr), Last(ptr), v); }
  }

  // ----- adding to a value that is no container

  /** A value that `operation_add` takes to be impossible as a parent. */
  predicate Scalar(j: Json) { !j.Null? && !j.Object? && !j.Array? }

  predicate IntoScalar(doc: Json, ptr: Pointer) {
    ptr != [] && At(doc, Front(ptr)).Ok? && Scalar(At(doc, Front(ptr)).value)
  }

  lemma {:induction false} TraceNeverAsserts(mode: Mode, doc: Json, ptr: Pointer)
    ensures Trace(mode, doc, ptr) != Err(AssertionFailed)
    decreases |ptr|
  {
    if ptr != [] && Open(mode, doc, ptr[0]).Ok? {
      TraceNeverAsserts(mode, Peek(Open(mode, doc, ptr[0]).value), ptr[1..]);
    }
  }

  lemma AtNeverAsserts(doc: Json, ptr: Pointer)
    ensures At(doc, ptr) != Err(AssertionFailed)
  {
    AtIsTrace(doc, ptr);
    TraceNeverAsserts(Checked, doc, ptr);
  }

  /** `operator[]` arrives at a scalar only if that was there before. */
  lemma {:induction false} ScalarsAreFound(doc: Json, ptr: Pointer)
    requires Trace(Unchecked, doc, ptr).Ok? && Scalar(Trace(Unchecked, doc, ptr).value.node)
    ensures At(doc, ptr).Ok?
    decreases |ptr|
  {
    if ptr != [] {
      var f := Open(Unchecked, doc, ptr[0]).value;
      ScalarsAreFound(Peek(f), ptr[1..]);
      if Peek(f).Null? { NothingFound(ptr[1..]); }
    }
  }

  lemma NothingFound(ptr: Pointer)
    requires At(Null, ptr).Ok?
    ensures ptr == []
  {
  }

  lemma InsertAsserts(parent: Json, token: string, v: Json)
    ensures InsertInto(parent, token, v) == Err(AssertionFailed) <==> Scalar(parent)
  {
  }

  lemma EditAsserts(doc: Json, way: Pointer, token: string, v: Json)
    ensures EditAt(Unchecked, doc, way, Insert(token, v)) == Err(AssertionFailed) <==>
            At(doc, way).Ok? && Scalar(At(doc, way).value)
  {
    hide InsertInto, Scalar, Trace, At, Rebuild;
    TraceNeverAsserts(Unchecked, doc, way);
    var c := Trace(Unchecked, doc, way);
    if At(doc, way).Ok? { UncheckedRefinesChecked(doc, way); }
    if c.Ok? {
      InsertAsserts(c.value.node, token, v);
      if Scalar(c.value.node) { ScalarsAreFound(doc, way); }
    }
  }

  /** An add runs into the assertion exactly when the parent exists and is a scalar. */
  lemma AddAsserts(doc: Json, ptr: Pointer, v: Json)
    ensures AddAt(doc, ptr, v) == Err(AssertionFailed) <==> IntoScalar(doc, ptr)
  {
    hide EditAt, At, Scalar;
    if ptr != [] {
      AtNeverAsserts(doc, ptr[..1]);
      EditAsserts(doc, Front(ptr), Last(ptr), v);
      if |ptr| > 1 && At(doc, Front(ptr)).Ok? {
        AtPrefix(doc, Front(ptr));
        assert Front(ptr)[..1] == ptr[..1];
      }
    }
  }

  lemma RemoveNeverAsserts(doc: Json, ptr: Pointer)
    ensures RemoveAt(doc, ptr) != Err(AssertionFailed)
  {
    if ptr != [] { TraceNeverAsserts(Checked, doc, Front(ptr)); }
  }

  /** The operation gets as far as adding to a scalar. */
  predicate AddsIntoScalar(doc: Json, op: Op) {
    match op
    case Add(ptr, _) => IntoScalar(doc, ptr)
    case Copy(from, ptr) => At(doc, from).Ok? && IntoScalar(doc, ptr)
    case Move(from, ptr) =>
      At(doc, from).Ok? && RemoveAt(doc, from).Ok? && IntoScalar(RemoveAt(doc, from).value, ptr)
    case _ => false
  }

  /** The operations that run into the assertion. */
  lemma ExecAsserts(doc: Json, op: Op)
    ensures Exec(doc, op) == Err(AssertionFailed) <==> AddsIntoScalar(doc, op)
  {
    match op
    case Add(ptr, v) => AddAsserts(doc, ptr, v);
    case Remove(ptr) => RemoveNeverAsserts(doc, ptr);
    case Replace(ptr, _) => TraceNeverAsserts(Checked, doc, ptr);
    case Test(ptr, _) => AtNeverAsserts(doc, ptr);
    case Copy(from, ptr) =>
      AtNeverAsserts(doc, from);
      if At(doc, from).Ok? { AddAsserts(doc, ptr, At(doc, from).value); }
    case Move(from, ptr) =>
      AtNeverAsserts(doc, from);
      RemoveNeverAsserts(doc, from);
      if At(doc, from).Ok? && RemoveAt(doc, from).Ok? {
        AddAsserts(RemoveAt(doc, from).value, ptr, At(doc, from).value);
      }
  }

  lemma AddBelowString()
    ensures AddAt(Object(map["a" := String("x")]), ["a", "b"], Null) == Err(AssertionFailed)
  {
    var doc := Object(map["a" := String("x")]);
    assert Front(["a", "b"]) == ["a"] && ["a"][1..] == [];
    assert Open(Checked, doc, "a") == Ok(RawFocus(doc, Key("a")));
    assert At(doc, ["a"]) == Ok(String("x"));
    AddAsserts(doc, ["a", "b"], Null);
  }

  // ----- moving a value below itself

  /** Below an existing pointer, an edit is an edit of the value there. */
  lemma {:induction false} EditBelowSet(doc: Json, p: Pointer, x: Json, q: Pointer, e: Edit)
    requires At(doc, p).Ok?
    ensures EditAt(Unchecked, SetAt(doc, p, x), p + q, e) ==
            var v := EditAt(Unchecked, x, q, e); if v.Err? then v else Ok(SetAt(doc, p, v.value))
    decreases |p|
  {
    hide EditAt, Open, Plug, Peek;
    if p == [] {
      assert p + q == q;
    } else {
      var t, r := p[0], p[1..];
      var f := Open(Checked, doc, t).value;
      var child := SetAt(Peek(f), r, x);
      EditBelowSet(Peek(f), r, x, q, e);
      OpenAgain(doc, t, child);
      OpenRefines(Plug(f, child), t);
      assert p + q == [t] + (r + q);
      EditBelow(Unchecked, Plug(f, child), t, r + q, e);
    }
  }

  lemma {:induction false} SetAtSplit(doc: Json, p: Pointer, t: string, x: Json)
    requires At(doc, p + [t]).Ok?
    ensures At(doc, p).Ok? && Open(Checked, At(doc, p).value, t).Ok?
    ensures SetAt(doc, p + [t], x) == SetAt(doc, p, Plug(Open(Checked, At(doc, p).value, t).value, x))
    decreases |p|
  {
    if p == [] {
      assert p + [t] == [t] && [t][1..] == [];
    } else {
      assert (p + [t])[1..] == p[1..] + [t];
      SetAtSplit(Peek(Open(Checked, doc, p[0]).value), p[1..], t, x);
    }
  }

  /** With member `k` gone, an edit below `k` starts from the null that `operator[]`
      creates in its place. */
  lemma EditOfMissingMember(m: map<string, Json>, k: string, q: Pointer, e: Edit)
    requires k in m
    ensures EditAt(Unchecked, Object(m - {k}), [k] + q, e) ==
            var v := EditAt(Unchecked, Null, q, e); if v.Err? then v else Ok(Object(m[k := v.value]))
  {
    EditBelow(Unchecked, Object(m - {k}), k, q, e);
    var v := EditAt(Unchecked, Null, q, e);
    if v.Ok? { assert (m - {k})[k := Null][k := v.value] == m[k := v.value]; }
  }

  /** The same for the element `i` of an array: an edit below its old index edits the
      next element, or what is created behind the last one. */
  lemma EditOfMissingItem(a: seq<Json>, k: string, q: Pointer, e: Edit)
    requires k != "-" && ArrayIndex(k).Ok? && ArrayIndex(k).value < |a|
    ensures var i := ArrayIndex(k).value;
            var v := EditAt(Unchecked, NextItem(a, i), q, e);
            EditAt(Unchecked, Array(EraseAt(a, i)), [k] + q, e) ==
            if v.Err? then v else Ok(Array(WithNextItem(a, i, v.value)))
  {
    var i := ArrayIndex(k).value;
    EditBelow(Unchecked, Array(EraseAt(a, i)), k, q, e);
    var v := EditAt(Unchecked, NextItem(a, i), q, e);
    if v.Ok? { assert Grow(EraseAt(a, i), i)[i := v.value] == WithNextItem(a, i, v.value); }
  }

  /** What index `i` denotes when element `i` is gone. */
  function NextItem(a: seq<Json>, i: nat): Json { if i + 1 < |a| then a[i + 1] else Null }

  /** Element `i` is gone, and the next one has become `v`. */
  function WithNextItem(a: seq<Json>, i: nat, v: Json): seq<Json>
    requires i < |a|
  {
    a[..i] + [v] + (if i + 1 < |a| then a[i + 2..] else [])
  }

  lemma RemoveExisting(doc: Json, from: Pointer)
    requires from != [] && At(doc, from).Ok?
    ensures At(doc, Front(from)).Ok?
    ensures var erased := EraseFrom(At(doc, Front(from)).value, Last(from));
            erased.Ok? && RemoveAt(doc, from) == Ok(SetAt(doc, Front(from), erased.value))
    ensures var parent, k := At(doc, Front(from)).value, Last(from);
            || (parent.Object? && k in parent.members)
            || (parent.Array? && k != "-" && ArrayIndex(k).Ok? && ArrayIndex(k).value < |parent.items|)
  {
    AtSplit(doc, Front(from), Last(from));
    assert from == Front(from) + [Last(from)];
    RemoveIsSet(doc, from);
  }

  /** An add below the place of a value that was just removed. */
  lemma AddBelowErased(doc: Json, front: Pointer, erased: Json, k: string, q: Pointer, v: Json)
    requires q != [] && At(doc, front).Ok?
    ensures var ptr, e := front + [k] + q, Insert(Last(q), v);
            var inner := EditAt(Unchecked, erased, [k] + Front(q), e);
            AddAt(SetAt(doc, front, erased), ptr, v) ==
            if front == [] && At(erased, [k]).Err? then At(erased, [k])
            else if inner.Err? then inner
            else Ok(SetAt(doc, front, inner.value))
  {
    hide EditAt, SetAt;
    var ptr, rest := front + [k] + q, SetAt(doc, front, erased);
    assert Last(ptr) == Last(q) && Front(ptr) == front + ([k] + Front(q));
    EditBelowSet(doc, front, erased, [k] + Front(q), Insert(Last(q), v));
    if front == [] {
      assert ptr[..1] == [k];
      SetAtRoot(doc, erased);
    } else {
      SetAtLaws(doc, front, erased, erased);
      AtPrefix(rest, front);
      assert ptr[..1] == front[..1];
    }
  }

  lemma SetAtRoot(doc: Json, v: Json)
    ensures SetAt(doc, [], v) == v
  {
  }

  /** Section 4.4 of RFC 6902 forbids moving a value into one of its children.  The
      interpreter removes the value and then adds it below its old place.  A member of
      an object ends up inside containers created in that place, if it is deep enough
      to pass the check of the first token. */
  lemma MoveBelowItself(doc: Json, from: Pointer, q: Pointer)
    requires from != [] && q != [] && At(doc, from).Ok?
    requires At(doc, Front(from)).Ok? && At(doc, Front(from)).value.Object?
    ensures var inner := EditAt(Unchecked, Null, Front(q), Insert(Last(q), At(doc, from).value));
            Exec(doc, Move(from, from + q)) ==
            if |from| == 1 then Err(OutOfRange(403))
            else if inner.Err? then inner
            else Ok(SetAt(doc, from, inner.value))
  {
    hide EditAt, RemoveAt, AddAt;
    var front, k, v := Front(from), Last(from), At(doc, from).value;
    var m := At(doc, front).value.members;
    RemoveExisting(doc, from);
    assert from == front + [k];
    AddBelowErased(doc, front, Object(m - {k}), k, q, v);
    EditOfMissingMember(m, k, Front(q), Insert(Last(q), v));
    var inner := EditAt(Unchecked, Null, Front(q), Insert(Last(q), v));
    if |from| == 1 {
      assert At(Object(m - {k}), [k]) == Err(OutOfRange(403));
    } else if inner.Ok? {
      SetAtSplit(doc, front, k, inner.value);
    }
  }

  /** An element of an array ends up inside its next sibling, also at the root; only
      behind the last element containers are created. */
  lemma MoveBelowItselfInArray(doc: Json, from: Pointer, q: Pointer)
    requires from != [] && q != [] && At(doc, from).Ok?
    requires At(doc, Front(from)).Ok? && At(doc, Front(from)).value.Array?
    ensures ArrayIndex(Last(from)).Ok?
    ensures var a, i := At(doc, Front(from)).value.items, ArrayIndex(Last(from)).value;
            var inner := EditAt(Unchecked, NextItem(a, i), Front(q), Insert(Last(q), At(doc, from).value));
            i < |a| && Exec(doc, Move(from, from + q)) ==
            if |from| == 1 && i + 1 == |a| then Err(OutOfRange(401))
            else if inner.Err? then inner
            else Ok(SetAt(doc, Front(from), Array(WithNextItem(a, i, inner.value))))
  {
    hide EditAt, RemoveAt, AddAt, SetAt;
    var front, k, v := Front(from), Last(from), At(doc, from).value;
    RemoveExisting(doc, from);
    var a, i := At(doc, front).value.items, ArrayIndex(k).value;
    assert from == front + [k];
    AddBelowErased(doc, front, Array(EraseAt(a, i)), k, q, v);
    EditOfMissingItem(a, k, Front(q), Insert(Last(q), v));
    if |from| == 1 { ItemResolves(EraseAt(a, i), k); }
  }

  lemma ItemResolves(a: seq<Json>, k: string)
    requires k != "-" && ArrayIndex(k).Ok?
    ensures At(Array(a), [k]) == if ArrayIndex(k).value < |a| then Ok(a[ArrayIndex(k).value]) else Err(OutOfRange(401))
  {
  }

  /** The value has a next sibling in an array. */
  predicate HasNext(parent: Json, token: string) {
    parent.Array? && ArrayIndex(token).Ok? && ArrayIndex(token).value + 1 < |parent.items|
  }

  /** Exactly when a move into the moved value is accepted: with a next sibling, when
      the value can be added there; otherwise when the value is not at the top and the
      containers on the way to the new place can be created.  The root cannot be moved. */
  lemma MoveBelowItselfSucceeds(doc: Json, from: Pointer, q: Pointer)
    requires q != [] && At(doc, from).Ok?
    ensures from == [] ==> Exec(doc, Move(from, from + q)) == Err(OutOfRange(405))
    ensures from != [] ==>
              && At(doc, Front(from)).Ok?
              && var parent, k := At(doc, Front(from)).value, Last(from);
                 Exec(doc, Move(from, from + q)).Ok? <==>
                 if HasNext(parent, k) then Addable(parent.items[ArrayIndex(k).value + 1], Front(q), Last(q))
                 else |from| > 1 && Creatable(Front(q))
  {
    if from != [] {
      RemoveExisting(doc, from);
      var parent, k, v := At(doc, Front(from)).value, Last(from), At(doc, from).value;
      CreatableSucceeds(Front(q), Last(q), v);
      if parent.Object? {
        MoveBelowItself(doc, from, q);
      } else {
        MoveBelowItselfInArray(doc, from, q);
        EditSucceeds(NextItem(parent.items, ArrayIndex(k).value), Front(q), Last(q), v);
      }
    }
  }

  /** A value moved to its own child `t`: its next sibling takes it in, if there is one;
      otherwise it becomes the object with the one member `t` that holds what it was. */
  lemma MoveIntoOwnChild(doc: Json, from: Pointer, t: string)
    requires from != [] && At(doc, from).Ok?
    ensures At(doc, Front(from)).Ok?
    ensures var parent, k, v := At(doc, Front(from)).value, Last(from), At(doc, from).value;
            var moved := Exec(doc, Move(from, from + [t]));
            if HasNext(parent, k) then
              var i := ArrayIndex(k).value;
              var n := InsertInto(parent.items[i + 1], t, v);
              moved == if n.Err? then n else Ok(SetAt(doc, Front(from), Array(WithNextItem(parent.items, i, n.value))))
            else if |from| == 1 then moved.Err?
            else moved == Ok(SetAt(doc, from, Object(map[t := v])))
  {
    hide SetAt, InsertInto;
    assert Front([t]) == [];
    RemoveExisting(doc, from);
    var front, parent, k, v := Front(from), At(doc, Front(from)).value, Last(from), At(doc, from).value;
    EditHere(Null, t, v);
    if parent.Object? {
      MoveBelowItself(doc, from, [t]);
    } else {
      MoveBelowItselfInArray(doc, from, [t]);
      var a, i := parent.items, ArrayIndex(k).value;
      EditHere(NextItem(a, i), t, v);
      if !HasNext(parent, k) && |from| > 1 {
        LastItemReplaced(doc, from, a, i, Object(map[t := v]));
      }
    }
  }

  lemma EditHere(j: Json, t: string, v: Json)
    ensures EditAt(Unchecked, j, [], Insert(t, v)) == InsertInto(j, t, v)
    ensures InsertInto(Null, t, v) == Ok(Object(map[t := v]))
  {
  }

  lemma LastItemPlugged(a: seq<Json>, k: string, x: Json)
    requires Open(Checked, Array(a), k).Ok? && ArrayIndex(k).value + 1 == |a|
    ensures Plug(Open(Checked, Array(a), k).value, x) == Array(WithNextItem(a, ArrayIndex(k).value, x))
  {
    assert WithNextItem(a, ArrayIndex(k).value, x) == a[ArrayIndex(k).value := x];
  }

  lemma LastItemReplaced(doc: Json, from: Pointer, a: seq<Json>, i: nat, x: Json)
    requires from != [] && At(doc, from).Ok? && At(doc, Front(from)) == Ok(Array(a))
    requires ArrayIndex(Last(from)) == Ok(i) && i + 1 == |a|
    ensures SetAt(doc, Front(from), Array(WithNextItem(a, i, x))) == SetAt(doc, from, x)
  {
    hide SetAt, Plug, Open, WithNextItem;
    assert from == Front(from) + [Last(from)];
    SetAtSplit(doc, Front(from), Last(from), x);
    LastItemPlugged(a, Last(from), x);
  }

  /** At the root of an array the move is accepted, and empties the first place. */
  lemma MoveIntoSibling()
    ensures Exec(Array([String("v"), Object(map[])]), Move(["0"], ["0", "x"]))
            == Ok(Array([Object(map["x" := String("v")])]))
  {
    var doc := Array([String("v"), Object(map[])]);
    ArrayIndexIsDigits("0", 0);
    assert Digits(0) == "0" && Front(["0"]) == [] && ["0"] + ["x"] == ["0", "x"] && ["0"][1..] == [];
    assert Open(Checked, doc, "0") == Ok(RawFocus(doc, Index(0)));
    assert At(doc, ["0"]) == Ok(String("v"));
    MoveIntoOwnChild(doc, ["0"], "x");
    assert HasNext(doc, "0");
    assert WithNextItem(doc.items, 0, Object(map["x" := String("v")])) == [Object(map["x" := String("v")])];
  }

  // ----- what a prefix hides

  /** An add below `t` fails with the child's own add, except that it skips the
      child's check that the first token of the pointer exists.  Where that check is
      what fails, the add below `t` succeeds exactly when the missing containers can
      be created. */
  lemma AddBelowExactly(doc: Json, t: string, ptr: Pointer, v: Json)
    requires ptr != [] && Open(Checked, doc, t).Ok?
    ensures var f := Open(Checked, doc, t).value;
            var inner, whole := AddAt(Peek(f), ptr, v), AddAt(doc, [t] + ptr, v);
            var hidden := |ptr| > 1 && At(Peek(f), ptr[..1]).Err?;
            && (!hidden ==> whole == if inner.Err? then inner else Ok(Plug(f, inner.value)))
            && (hidden ==> inner.Err?)
            && (whole.Ok? && inner.Err? <==> hidden && CreatableIn(Peek(f), Front(ptr)))
  {
    AddBelow(doc, t, ptr, v);
    var child := Peek(Open(Checked, doc, t).value);
    if |ptr| > 1 && At(child, ptr[..1]).Err? {
      EditSucceeds(child, Front(ptr), Last(ptr), v);
      assert Front(ptr)[0] == ptr[0] && ptr[..1][1..] == [];
    }
  }

  /** The check that a prefix hides is what makes the operation fail, and without it
      the missing containers can be created. */
  predicate FailsByCheck(child: Json, ptr: Pointer) {
    |ptr| > 1 && !Grounded(child, ptr) && CreatableIn(child, Front(ptr))
  }

  predicate Hides(child: Json, op: Op) {
    match op
    case Add(ptr, _) => FailsByCheck(child, ptr)
    case Copy(from, ptr) => At(child, from).Ok? && FailsByCheck(child, ptr)
    case Move(from, ptr) =>
      At(child, from).Ok? && RemoveAt(child, from).Ok? && FailsByCheck(RemoveAt(child, from).value, ptr)
    case _ => false
  }

  lemma LooseAddDiffers(doc: Json, ptr: Pointer, v: Json)
    ensures LooseAdd(doc, ptr, v).Ok? && AddAt(doc, ptr, v).Err? <==> FailsByCheck(doc, ptr)
  {
    if |ptr| > 1 && !Grounded(doc, ptr) {
      EditSucceeds(doc, Front(ptr), Last(ptr), v);
      var way, top := Front(ptr), ptr[..1];
      assert way[0] == ptr[0] && top == [] + [ptr[0]];
      AtSplit(doc, [], ptr[0]);
      assert Open(Checked, doc, way[0]).Err?;
      assert Addable(doc, way, Last(ptr)) <==> CreatableIn(doc, way);
    }
  }

  lemma LooseDiffers(child: Json, op: Op)
    ensures Loose(child, op).Ok? && Exec(child, op).Err? <==> Hides(child, op)
  {
    hide LooseAdd, AddAt, FailsByCheck, RemoveAt, At;
    match op
    case Add(ptr, v) => LooseAddDiffers(child, ptr, v);
    case Copy(from, ptr) => if At(child, from).Ok? { LooseAddDiffers(child, ptr, At(child, from).value); }
    case Move(from, ptr) =>
      if At(child, from).Ok? && RemoveAt(child, from).Ok? {
        LooseAddDiffers(RemoveAt(child, from).value, ptr, At(child, from).value);
      }
    case _ =>
  }

  /** When an operation that fails on the child alone succeeds below `t`. */
  lemma ExecBelowDiffers(doc: Json, t: string, op: Op)
    requires Open(Checked, doc, t).Ok? && Inner(op)
    ensures var child := Peek(Open(Checked, doc, t).value);
            Exec(doc, Prefixed(t, op)).Ok? && Exec(child, op).Err? <==> Hides(child, op)
  {
    ExecBelowExactly(doc, t, op);
    LooseDiffers(Peek(Open(Checked, doc, t).value), op);
  }

  /** Does an operation without the check succeed?  Its add has a parent that exists and
      accepts the token, or can be created; the other parts are as in the operation. */
  predicate LooselyAddable(doc: Json, ptr: Pointer) { ptr == [] || Addable(doc, Front(ptr), Last(ptr)) }

  predicate LooselyPossible(doc: Json, op: Op) {
    match op
    case Add(ptr, _) => LooselyAddable(doc, ptr)
    case Copy(from, ptr) => At(doc, from).Ok? && LooselyAddable(doc, ptr)
    case Move(from, ptr) =>
      At(doc, from).Ok? && RemoveAt(doc, from).Ok? && LooselyAddable(RemoveAt(doc, from).value, ptr)
    case Remove(ptr) => RemovePossible(doc, ptr)
    case Replace(ptr, _) => At(doc, ptr).Ok?
    case Test(ptr, v) => At(doc, ptr).Ok? && Equal(At(doc, ptr).value, v)
  }

  lemma LooseAddSucceeds(doc: Json, ptr: Pointer, v: Json)
    ensures LooseAdd(doc, ptr, v).Ok? <==> LooselyAddable(doc, ptr)
  {
    if ptr != [] { EditSucceeds(doc, Front(ptr), Last(ptr), v); }
  }

  /** Which operations succeed below an existing token, read off the child. */
  lemma ExecBelowSucceeds(doc: Json, t: string, op: Op)
    requires Open(Checked, doc, t).Ok? && Inner(op)
    ensures Exec(doc, Prefixed(t, op)).Ok? <==> LooselyPossible(Peek(Open(Checked, doc, t).value), op)
  {
    ExecBelowExactly(doc, t, op);
    var child := Peek(Open(Checked, doc, t).value);
    hide LooseAdd, LooselyAddable, At, RemovePossible, Open;
    match op
    case Add(ptr, v) => LooseAddSucceeds(child, ptr, v);
    case Copy(from, ptr) => if At(child, from).Ok? { LooseAddSucceeds(child, ptr, At(child, from).value); }
    case Move(from, ptr) =>
      if At(child, from).Ok? && RemoveAt(child, from).Ok? {
        LooseAddSucceeds(RemoveAt(child, from).value, ptr, At(child, from).value);
      }
    case Remove(ptr) => RemoveSucceeds(child, ptr);
    case Replace(ptr, _) => AtIsTrace(child, ptr);
    case Test(_, _) =>
  }

  /** The skipped check can be the difference between failure and success. */
  lemma PrefixHidesCheck()
    ensures AddAt(Object(map[]), ["b", "c"], Null).Err?
    ensures AddAt(Object(map["a" := Object(map[])]), ["a", "b", "c"], Null).Ok?
  {
    var child, doc := Object(map[]), Object(map["a" := Object(map[])]);
    assert ["b", "c"][..1] == ["b"] && Open(Checked, child, "b").Err?;
    assert At(child, ["b"]).Err?;
    assert ["a"] + ["b", "c"] == ["a", "b", "c"];
    assert Open(Checked, doc, "a") == Ok(RawFocus(doc, Key("a")));
    AddBelowExactly(doc, "a", ["b", "c"], Null);
    assert Front(["b", "c"]) == ["b"] && Last(["b", "c"]) == "c" && ["b"][1..] == [];
    var g := RawFocus(Object(map["b" := Null]), Key("b"));
    assert Open(Unchecked, child, "b") == Ok(g);
    assert Trace(Unchecked, Null, []) == Ok(Cursor([], Null));
    assert Trace(Unchecked, child, ["b"]) == Ok(Cursor([g] + [], Null));
  }
}
